/** The dependency closure of a file descriptor. A descriptor holds its imports, so the import
    graph is acyclic; files imported twice are the same value. */
module PbFinder {

  datatype FileDescriptor = FileDescriptor(name: string, dependencies: seq<FileDescriptor>)

  class StringSet {
    var internal: set<string>

    constructor ()
      ensures internal == {}
    {
      internal := {};
    }

    predicate Has(s: string)
      reads this
    {
      s in internal
    }

    method Add(s: string)
      modifies this
      ensures internal == old(internal) + {s}
    {
      internal := internal + {s};
    }
  }

  class FileDescriptorSet {
    var file: seq<FileDescriptor>

    constructor ()
      ensures file == []
    {
      file := [];
    }
  }

  /** The names seen and the files listed. */
  datatype Visited = Visited(names: set<string>, files: seq<FileDescriptor>)

  function Visit(v: Visited, fd: FileDescriptor): Visited
    decreases fd, 1
  {
    VisitAll(if fd.name in v.names then v else Visited(v.names + {fd.name}, v.files + [fd]), fd.dependencies)
  }

  function VisitAll(v: Visited, fds: seq<FileDescriptor>): Visited
    decreases fds, 0
  {
    if fds == [] then v else VisitAll(Visit(v, fds[0]), fds[1..])
  }

  /** The traversal, which goes into files it has seen before as well. */
  method ConstructFileDescriptorSet(names: StringSet, fdSet: FileDescriptorSet, fd: FileDescriptor)
    modifies names, fdSet
    ensures Visited(names.internal, fdSet.file) == Visit(old(Visited(names.internal, fdSet.file)), fd)
    decreases fd
  {
    if !names.Has(fd.name) {
      fdSet.file := fdSet.file + [fd];
      names.Add(fd.name);
    }
    for i := 0 to |fd.dependencies|
      invariant VisitAll(Visited(names.internal, fdSet.file), fd.dependencies[i..])
             == Visit(old(Visited(names.internal, fdSet.file)), fd)
    {
      assert fd.dependencies[i..][1..] == fd.dependencies[i + 1..];
      ConstructFileDescriptorSet(names, fdSet, fd.dependencies[i]);
    }
    assert fd.dependencies[|fd.dependencies|..] == [];
  }

  // ---------------------------------------------------------------------------------------------

  /** The files reachable from fd by imports, fd itself included. */
  ghost function Reachable(fd: FileDescriptor): set<FileDescriptor>
    decreases fd, 1
  {
    {fd} + ReachableAll(fd.dependencies)
  }

  ghost function ReachableAll(fds: seq<FileDescriptor>): set<FileDescriptor>
    decreases fds, 0
  {
    if fds == [] then {} else Reachable(fds[0]) + ReachableAll(fds[1..])
  }

  ghost function Names(fs: set<FileDescriptor>): set<string> {
    set f | f in fs :: f.name
  }

  /** The files listed are of from and new, and all of from is listed. */
  ghost predicate Covers(v: Visited, w: Visited, from: set<FileDescriptor>) {
    && (forall i :: |v.files| <= i < |w.files| ==> w.files[i] in from && w.files[i].name !in v.names)
    && (forall f :: f in from && f.name !in v.names ==> ListsName(v, w, f.name))
  }

  ghost predicate ListsName(v: Visited, w: Visited, name: string) {
    exists i :: |v.files| <= i < |w.files| && w.files[i].name == name
  }

  ghost predicate Distinct(v: Visited, w: Visited) {
    forall i, j :: |v.files| <= i < j < |w.files| ==> w.files[i].name != w.files[j].name
  }

  /** What was listed between v and w: pairwise different names, none known before; all of from. */
  ghost predicate Grows(v: Visited, w: Visited, from: set<FileDescriptor>) {
    v.files <= w.files && w.names == v.names + Names(from) && Covers(v, w, from) && Distinct(v, w)
  }

  lemma NamesUnion(a: set<FileDescriptor>, b: set<FileDescriptor>)
    ensures Names(a + b) == Names(a) + Names(b)
  {
  }

  lemma CoversThen(u: Visited, v: Visited, w: Visited, a: set<FileDescriptor>, b: set<FileDescriptor>)
    requires u.files <= v.files <= w.files && v.names == u.names + Names(a)
    requires Covers(u, v, a) && Covers(v, w, b)
    ensures Covers(u, w, a + b)
  {
    forall i | |u.files| <= i < |w.files|
      ensures w.files[i] in a + b && w.files[i].name !in u.names
    {
      assert i < |v.files| ==> w.files[i] == v.files[i];
    }
    forall f | f in a + b && f.name !in u.names
      ensures ListsName(u, w, f.name)
    {
      if f.name in v.names {
        var g :| g in a && g.name == f.name;
        assert ListsName(u, v, g.name);
        var i :| |u.files| <= i < |v.files| && v.files[i].name == g.name;
        assert w.files[i] == v.files[i];
      } else {
        assert ListsName(v, w, f.name);
      }
    }
  }

  lemma DistinctThen(u: Visited, v: Visited, w: Visited, a: set<FileDescriptor>, b: set<FileDescriptor>)
    requires u.files <= v.files <= w.files && v.names == u.names + Names(a)
    requires Covers(u, v, a) && Covers(v, w, b) && Distinct(u, v) && Distinct(v, w)
    ensures Distinct(u, w)
  {
    forall i, j | |u.files| <= i < j < |w.files|
      ensures w.files[i].name != w.files[j].name
    {
      if i < |v.files| {
        assert w.files[i] == v.files[i] && v.files[i].name in v.names;
        assert j < |v.files| ==> w.files[j] == v.files[j];
      }
    }
  }

  lemma GrowsThen(u: Visited, v: Visited, w: Visited, a: set<FileDescriptor>, b: set<FileDescriptor>)
    requires Grows(u, v, a) && Grows(v, w, b)
    ensures Grows(u, w, a + b)
  {
    NamesUnion(a, b);
    CoversThen(u, v, w, a, b);
    DistinctThen(u, v, w, a, b);
  }

  lemma GrowsByOne(v: Visited, fd: FileDescriptor)
    ensures Grows(v, if fd.name in v.names then v else Visited(v.names + {fd.name}, v.files + [fd]), {fd})
  {
    var w := if fd.name in v.names then v else Visited(v.names + {fd.name}, v.files + [fd]);
    assert Names({fd}) == {fd.name};
    if fd.name !in v.names {
      assert w.files[|v.files|] == fd;
    }
  }

  lemma {:induction false} VisitGrows(v: Visited, fd: FileDescriptor)
    ensures Grows(v, Visit(v, fd), Reachable(fd))
    decreases fd, 1
  {
    var w := if fd.name in v.names then v else Visited(v.names + {fd.name}, v.files + [fd]);
    GrowsByOne(v, fd);
    VisitAllGrows(w, fd.dependencies);
    GrowsThen(v, w, Visit(v, fd), {fd}, ReachableAll(fd.dependencies));
  }

  lemma {:induction false} VisitAllGrows(v: Visited, fds: seq<FileDescriptor>)
    ensures Grows(v, VisitAll(v, fds), ReachableAll(fds))
    decreases fds, 0
  {
    if fds != [] {
      VisitGrows(v, fds[0]);
      VisitAllGrows(Visit(v, fds[0]), fds[1..]);
      GrowsThen(v, Visit(v, fds[0]), VisitAll(v, fds), Reachable(fds[0]), ReachableAll(fds[1..]));
    } else {
      assert Names({}) == {};
    }
  }

  ghost predicate UniqueNames(fs: set<FileDescriptor>) {
    forall f, g :: f in fs && g in fs && f.name == g.name ==> f == g
  }

  /** Dependency closure: with unique names, the list gains exactly the reachable files whose name
      was not in the set, each once; and the set gains exactly the reachable names. */
  lemma ClosureExact(v: Visited, fd: FileDescriptor)
    requires UniqueNames(Reachable(fd))
    ensures var w := Visit(v, fd);
            && v.files <= w.files && w.names == v.names + Names(Reachable(fd))
            && (forall f :: f in w.files[|v.files|..] <==> f in Reachable(fd) && f.name !in v.names)
            && (forall i, j :: |v.files| <= i < j < |w.files| ==> w.files[i] != w.files[j])
  {
    var w := Visit(v, fd);
    VisitGrows(v, fd);
    forall f | f in Reachable(fd) && f.name !in v.names
      ensures f in w.files[|v.files|..]
    {
      assert ListsName(v, w, f.name);
      var i :| |v.files| <= i < |w.files| && w.files[i].name == f.name;
      assert w.files[|v.files|..][i - |v.files|] == f;
    }
    forall f | f in w.files[|v.files|..]
      ensures f in Reachable(fd) && f.name !in v.names
    {
      var i :| 0 <= i < |w.files[|v.files|..]| && w.files[|v.files|..][i] == f;
      assert w.files[|v.files| + i] == f;
    }
  }
}
