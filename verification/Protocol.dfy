/** Messages as they are recorded, and what they are built from. */
module Protocol {
  import opened Bytes

  datatype MsgItem = MsgItem(headers: map<string, string>, body: string)
  datatype Meta = Meta(version: Int64, uuid: string, timestamp: Int64, containResponse: bool)
  datatype Message = Message(meta: Meta, methodName: string, request: Option<MsgItem>, response: Option<MsgItem>)

  /** What one side of a slot holds: header fields and body bytes. */
  datatype Body = Body(headers: map<string, string>, data: seq<Byte>)

  /** A message; the response is there if responses are recorded. */
  datatype Call = Call(methodName: string, request: MsgItem, response: Option<MsgItem>)

  datatype MethodInputOutput = MethodInputOutput(inType: string, outType: string)

  /** The descriptors of the methods, and the conversion of protobuf bytes of a type to JSON. */
  datatype Library = Library(finder: string -> Option<MethodInputOutput>, json: (string, seq<Byte>) -> Option<string>)
}
