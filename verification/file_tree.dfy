/** The local filesystem as the batch producers see it, and `filepath.Walk`
    driven by the callback both batch operations pass to it: directories are
    skipped, every other entry is emitted, and an error handed to the
    callback is returned, which ends the walk.

    The walk order is the order of each directory's `children`; the model
    does not sort names itself. */
module FileTree {
  import opened Outcomes
  import opened Paths

  /** An entry of the tree. `Unreadable` is a directory whose listing (or
      whose own metadata) cannot be read: the walk reports its `reason` to
      the callback instead of descending. */
  datatype Node = File | Directory(children: seq<Entry>) | Unreadable(reason: string)

  /** A named child of a directory. */
  datatype Entry = Entry(name: string, node: Node)

  /** One entry met by the walk, with the path the walk reports for it. */
  datatype Visit = Visit(path: string, node: Node)

  /** What a producer wrote before stopping, and the error it stopped with. */
  datatype Run = Run(paths: seq<string>, err: Option<string>)

  /** `os.Stat(...).IsDir()`: everything except a plain file is a directory. */
  predicate IsDir(n: Node) {
    !n.File?
  }

  // ---------------------------------------------------------------------
  // Reference listing: every entry at or beneath a root, in walk order.

  /** Every entry at or beneath `n` (itself first, then each child's
      entries in order); nothing is listed beneath an unreadable directory. */
  function Entries(path: string, n: Node): seq<Visit>
    decreases n
  {
    match n
    case Directory(cs) => [Visit(path, n)] + ChildEntries(path, cs)
    case _ => [Visit(path, n)]
  }

  function ChildEntries(dir: string, cs: seq<Entry>): seq<Visit>
    decreases cs
  {
    if cs == [] then []
    else Entries(Join(dir, cs[0].name), cs[0].node) + ChildEntries(dir, cs[1..])
  }

  /** The paths of the plain files among `vs`, in order. */
  function FilePaths(vs: seq<Visit>): (r: seq<string>)
    ensures |r| <= |vs|
  {
    if vs == [] then []
    else (if vs[0].node == File then [vs[0].path] else []) + FilePaths(vs[1..])
  }

  /** The paths of the plain files among `vs` that come before the first
      unreadable entry. */
  function FilesBeforeFault(vs: seq<Visit>): (r: seq<string>)
    ensures |r| <= |vs|
  {
    if vs == [] || vs[0].node.Unreadable? then []
    else (if vs[0].node == File then [vs[0].path] else []) + FilesBeforeFault(vs[1..])
  }

  /** The reason of the first unreadable entry in `vs`, if there is one. */
  function FaultReason(vs: seq<Visit>): Option<string> {
    if vs == [] then None
    else if vs[0].node.Unreadable? then Some(vs[0].node.reason)
    else FaultReason(vs[1..])
  }

  /** No entry at or beneath the root is unreadable. */
  predicate Readable(path: string, n: Node) {
    forall v :: v in Entries(path, n) ==> !v.node.Unreadable?
  }

  // ---------------------------------------------------------------------
  // The walk.

  /** `filepath.Walk(path, cb)` with the batch callback: a plain file is
      emitted, a directory is descended into, and the first unreadable
      entry ends the walk with its reason. */
  function Walk(path: string, n: Node): (r: Run)
    ensures r.err.None? ==> r.paths == FilePaths(Entries(path, n))
    ensures r.err.Some? ==> IsDir(n)
    decreases n
  {
    match n
    case File => Run([path], None)
    case Unreadable(reason) => Run([], Some(reason))
    case Directory(cs) =>
      assert Entries(path, n)[1..] == ChildEntries(path, cs);
      WalkChildren(path, cs)
  }

  /** The walk of the entries `cs` of directory `dir`, in order. */
  function WalkChildren(dir: string, cs: seq<Entry>): (r: Run)
    ensures r.err.None? ==> r.paths == FilePaths(ChildEntries(dir, cs))
    ensures r.err.Some? ==> cs != []
    decreases cs
  {
    if cs == [] then Run([], None)
    else
      var first := Walk(Join(dir, cs[0].name), cs[0].node);
      if first.err.Some? then first
      else
        var rest := WalkChildren(dir, cs[1..]);
        FilePathsAppend(Entries(Join(dir, cs[0].name), cs[0].node), ChildEntries(dir, cs[1..]));
        Run(first.paths + rest.paths, rest.err)
  }

  // ---------------------------------------------------------------------
  // The walk against the reference listing.

  lemma ConcatAssoc<T>(x: seq<T>, y: seq<T>, z: seq<T>)
    ensures x + (y + z) == (x + y) + z
  {
  }

  lemma {:induction false} FilePathsAppend(a: seq<Visit>, b: seq<Visit>)
    ensures FilePaths(a + b) == FilePaths(a) + FilePaths(b)
  {
    if a == [] {
      assert a + b == b;
    } else {
      var h := if a[0].node == File then [a[0].path] else [];
      assert (a + b)[0] == a[0];
      assert (a + b)[1..] == a[1..] + b;
      assert FilePaths(a + b) == h + FilePaths(a[1..] + b);
      FilePathsAppend(a[1..], b);
      ConcatAssoc(h, FilePaths(a[1..]), FilePaths(b));
    }
  }

  /** A path is listed by `FilePaths` exactly when it is the path of a
      plain-file visit. */
  lemma {:induction false} FilePathsMembers(vs: seq<Visit>)
    ensures forall p :: p in FilePaths(vs) <==> exists v :: v in vs && v.node == File && v.path == p
  {
    if vs != [] {
      FilePathsMembers(vs[1..]);
      forall p | p in FilePaths(vs)
        ensures exists v :: v in vs && v.node == File && v.path == p
      {
        if !(vs[0].node == File && vs[0].path == p) {
          assert p in FilePaths(vs[1..]);
          var v :| v in vs[1..] && v.node == File && v.path == p;
          assert v in vs;
        }
      }
      forall p | exists v :: v in vs && v.node == File && v.path == p
        ensures p in FilePaths(vs)
      {
        var v :| v in vs && v.node == File && v.path == p;
        if v != vs[0] {
          assert v in vs[1..];
        }
      }
    }
  }

  /** A listing split in two: the fault of the whole is the first part's,
      if it has one, and the files before it are those of the first part,
      followed by those of the second when the first part is clean. */
  lemma {:induction false} BeforeFaultAppend(a: seq<Visit>, b: seq<Visit>)
    ensures FaultReason(a + b) == if FaultReason(a).Some? then FaultReason(a) else FaultReason(b)
    ensures FilesBeforeFault(a + b) ==
              if FaultReason(a).Some? then FilesBeforeFault(a) else FilesBeforeFault(a) + FilesBeforeFault(b)
  {
    if a == [] {
      assert a + b == b;
    } else {
      assert (a + b)[0] == a[0];
      assert (a + b)[1..] == a[1..] + b;
      BeforeFaultAppend(a[1..], b);
      if !a[0].node.Unreadable? {
        var h := if a[0].node == File then [a[0].path] else [];
        assert FilesBeforeFault(a + b) == h + FilesBeforeFault(a[1..] + b);
        ConcatAssoc(h, FilesBeforeFault(a[1..]), FilesBeforeFault(b));
      }
    }
  }

  /** A listing has no fault exactly when no entry of it is unreadable; a
      fault is the reason of an unreadable entry of the listing. */
  lemma {:induction false} FaultReasonSound(vs: seq<Visit>)
    ensures FaultReason(vs).None? <==> forall v :: v in vs ==> !v.node.Unreadable?
    ensures FaultReason(vs).Some? ==> exists v :: v in vs && v.node == Unreadable(FaultReason(vs).value)
  {
    if vs != [] {
      if vs[0].node.Unreadable? {
        assert vs[0] in vs;
      } else {
        FaultReasonSound(vs[1..]);
        if FaultReason(vs[1..]).None? {
          forall v | v in vs ensures !v.node.Unreadable? {
            if v != vs[0] {
              assert v in vs[1..];
            }
          }
        } else {
          var v :| v in vs[1..] && v.node == Unreadable(FaultReason(vs).value);
          assert v in vs;
        }
      }
    }
  }

  /** The files before the first fault are a prefix of all the files, and
      all of them when there is no fault. */
  lemma {:induction false} BeforeFaultIsPrefix(vs: seq<Visit>)
    ensures |FilesBeforeFault(vs)| <= |FilePaths(vs)|
    ensures FilePaths(vs)[..|FilesBeforeFault(vs)|] == FilesBeforeFault(vs)
    ensures FaultReason(vs).None? ==> FilesBeforeFault(vs) == FilePaths(vs)
  {
    if vs != [] && !vs[0].node.Unreadable? {
      BeforeFaultIsPrefix(vs[1..]);
      var h := if vs[0].node == File then [vs[0].path] else [];
      var r := FilesBeforeFault(vs[1..]);
      assert (h + FilePaths(vs[1..]))[..|h| + |r|] == h + r;
    }
  }

  /** The walk emits the plain files listed before the first unreadable
      entry and fails with that entry's reason; with no unreadable entry it
      emits every listed file and succeeds. */
  lemma {:induction false} WalkFollowsEntries(path: string, n: Node)
    ensures Walk(path, n) == Run(FilesBeforeFault(Entries(path, n)), FaultReason(Entries(path, n)))
    decreases n
  {
    match n
    case File =>
    case Unreadable(_) =>
    case Directory(cs) =>
      WalkChildrenFollowsEntries(path, cs);
      BeforeFaultAppend([Visit(path, n)], ChildEntries(path, cs));
  }

  lemma {:induction false} WalkChildrenFollowsEntries(dir: string, cs: seq<Entry>)
    ensures WalkChildren(dir, cs) == Run(FilesBeforeFault(ChildEntries(dir, cs)), FaultReason(ChildEntries(dir, cs)))
    decreases cs
  {
    if cs != [] {
      WalkFollowsEntries(Join(dir, cs[0].name), cs[0].node);
      WalkChildrenFollowsEntries(dir, cs[1..]);
      BeforeFaultAppend(Entries(Join(dir, cs[0].name), cs[0].node), ChildEntries(dir, cs[1..]));
    }
  }

  /** A readable tree is walked completely: every plain file beneath the
      root is emitted, in walk order, and the walk succeeds. */
  lemma WalkEmitsEveryFile(path: string, n: Node)
    requires Readable(path, n)
    ensures Walk(path, n) == Run(FilePaths(Entries(path, n)), None)
  {
    WalkFollowsEntries(path, n);
    FaultReasonSound(Entries(path, n));
    BeforeFaultIsPrefix(Entries(path, n));
  }

  /** Only plain files are ever emitted by a walk, each one an entry at or
      beneath the root; a failed walk has emitted a prefix of the complete
      listing and reports the reason of an unreadable entry. */
  lemma WalkEmitsOnlyFiles(path: string, n: Node)
    ensures forall p :: p in Walk(path, n).paths ==>
              exists v :: v in Entries(path, n) && v.node == File && v.path == p
    ensures |Walk(path, n).paths| <= |FilePaths(Entries(path, n))|
    ensures Walk(path, n).paths == FilePaths(Entries(path, n))[..|Walk(path, n).paths|]
    ensures Walk(path, n).err.None? <==> Readable(path, n)
    ensures Walk(path, n).err.Some? ==>
              exists v :: v in Entries(path, n) && v.node == Unreadable(Walk(path, n).err.value)
  {
    var vs := Entries(path, n);
    WalkFollowsEntries(path, n);
    FaultReasonSound(vs);
    BeforeFaultIsPrefix(vs);
    FilePathsMembers(vs);
    var ps := Walk(path, n).paths;
    forall p | p in ps
      ensures exists v :: v in vs && v.node == File && v.path == p
    {
      assert p in FilePaths(vs);
    }
  }
}
