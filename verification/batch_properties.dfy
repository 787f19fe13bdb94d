/** Properties of the two batch operations: what the producers emit in each
    mode, when a batch fails, how the copy batch over a directory relates to
    the upload batch over it, and a worked example. */
module BatchProperties {
  import opened Outcomes
  import opened Paths
  import opened FileTree
  import opened Naming
  import opened LocalBatch

  /** The source paths of `jobs`, in dispatch order. */
  function Sources(jobs: seq<SubJob>): (r: seq<string>)
    ensures |r| == |jobs|
    ensures forall i :: 0 <= i < |jobs| ==> r[i] == jobs[i].src
  {
    seq(|jobs|, i requires 0 <= i < |jobs| => jobs[i].src)
  }

  /** Reference listing for a recursive copy: for each match in order, every
      entry at or beneath it. */
  function MatchEntries(ms: seq<Found>): seq<Visit> {
    if ms == [] then [] else Entries(ms[0].path, ms[0].node) + MatchEntries(ms[1..])
  }

  /** The plain files of that listing, in order. */
  function MatchFiles(ms: seq<Found>): seq<string> {
    FilePaths(MatchEntries(ms))
  }

  predicate AllReadable(ms: seq<Found>) {
    forall i :: 0 <= i < |ms| ==> Readable(ms[i].path, ms[i].node)
  }

  /** The entries of directory `dir` in the order and under the paths a glob of the directory reports them. */
  function ChildMatches(dir: string, cs: seq<Entry>): (r: seq<Found>)
    ensures |r| == |cs|
  {
    if cs == [] then [] else [Found(Join(dir, cs[0].name), cs[0].node)] + ChildMatches(dir, cs[1..])
  }

  /** The consumer dispatches one sub-job for each path a producer emitted
      before its end-of-stream marker, in order. */
  lemma SourcesOfClosed(paths: seq<string>, err: Option<Error>, t: Template)
    ensures Sources(Consume(Close(paths, err).items, t)) == paths
  {
    var items := Close(paths, err).items;
    var jobs := Consume(items, t);
    assert !items[|paths|].Match?;
    assert |jobs| == |paths|;
  }

  /** Every sub-job the consumer builds carries the destination its
      template names for its source. */
  lemma DestinationsFollowTemplate(items: seq<Item>, t: Template)
    ensures forall j :: j in Consume(items, t) ==> j.dst == t.dst + DestName(j.src, t.trimPrefix, t.opts.parents)
  {
    var jobs := Consume(items, t);
    forall j | j in jobs
      ensures j.dst == t.dst + DestName(j.src, t.trimPrefix, t.opts.parents)
    {
      var i :| 0 <= i < |jobs| && jobs[i] == j;
      assert j == MakeSubJob(t, items[i].path);
    }
  }

  /** Under parents naming every sub-job the consumer builds is sent to the
      template's destination followed by its source with the trim prefix
      removed when the source starts with it, and by the whole source
      otherwise. */
  lemma ParentsJobNames(items: seq<Item>, t: Template)
    requires t.opts.parents
    ensures forall j :: j in Consume(items, t) ==>
              exists name :: j.dst == t.dst + name &&
                (if HasPrefix(j.src, t.trimPrefix) then t.trimPrefix + name == j.src else name == j.src)
  {
    var jobs := Consume(items, t);
    forall j | j in jobs
      ensures exists name :: j.dst == t.dst + name &&
                (if HasPrefix(j.src, t.trimPrefix) then t.trimPrefix + name == j.src else name == j.src)
    {
      var i :| 0 <= i < |jobs| && jobs[i] == j;
      assert j == MakeSubJob(t, items[i].path);
      var name := DestName(j.src, t.trimPrefix, true);
      assert j.dst == t.dst + name;
    }
  }

  /** A copy whose source passes mode selection is its producer's stream
      read by its consumer. */
  lemma CopyUnfold(b: Batch, host: Host, plan: Plan)
    requires MakePlan(b.src, IsWalkMode(host.srcStat), LocalCopy) == Success(plan)
    ensures var p := CopyProduce(plan, host.glob, b.opts.recursive);
            var t := Template(SubCommand(b.opts), LocalCopy, b.dst, plan.trimPrefix, b.opts);
            BatchLocalCopy(b, host) == BatchResult(p.items, Consume(p.items, t), p.err)
  {
  }

  /** The same for an upload. */
  lemma UploadUnfold(b: Batch, host: Host, plan: Plan)
    requires MakePlan(b.src, IsWalkMode(host.srcStat), Upload) == Success(plan)
    ensures var root := if IsWalkMode(host.srcStat) then host.srcStat.value else File;
            var p := UploadProduce(plan, root, host.glob);
            var t := Template(SubCommand(b.opts), Upload, b.dst, plan.trimPrefix, b.opts);
            BatchLocalUpload(b, host) == BatchResult(p.items, Consume(p.items, t), p.err)
  {
  }

  // ---------------------------------------------------------------------
  // The copy producer's loop.

  /** Without the recursive flag, the copy loop emits exactly the matches
      that are not directories, in order, and never fails. */
  lemma {:induction false} NonRecursiveEmitsNonDirectories(ms: seq<Found>)
    ensures EmitMatches(ms, false) == Run(NonDirPaths(ms), None)
  {
    if ms != [] {
      NonRecursiveEmitsNonDirectories(ms[1..]);
    }
  }

  /** What the recursive copy loop emits for one match: the plain files at
      or beneath it up to its first unreadable entry, whose reason is the
      error; so a prefix of all those files, and all of them exactly when
      the match is readable. */
  lemma MatchHead(m: Found)
    ensures var head := if !IsDir(m.node) then Run([m.path], None) else Walk(m.path, m.node);
            var vs := Entries(m.path, m.node);
            var files := FilePaths(vs);
            && head == Run(FilesBeforeFault(vs), FaultReason(vs))
            && HasPrefix(files, head.paths)
            && (head.err.None? <==> Readable(m.path, m.node))
            && (head.err.None? ==> head.paths == files)
  {
    if IsDir(m.node) {
      WalkFollowsEntries(m.path, m.node);
      WalkEmitsOnlyFiles(m.path, m.node);
      if Walk(m.path, m.node).err.None? {
        WalkEmitsEveryFile(m.path, m.node);
      }
    } else {
      assert Entries(m.path, m.node) == [Visit(m.path, File)];
    }
  }

  /** With the recursive flag, the copy loop emits exactly the plain files
      listed, match by match, before the first unreadable entry beneath any
      match, and fails with that entry's reason. */
  lemma {:induction false} RecursiveEmitsBeforeFault(ms: seq<Found>)
    ensures EmitMatches(ms, true) == Run(FilesBeforeFault(MatchEntries(ms)), FaultReason(MatchEntries(ms)))
  {
    if ms != [] {
      var vs := Entries(ms[0].path, ms[0].node);
      MatchHead(ms[0]);
      RecursiveEmitsBeforeFault(ms[1..]);
      BeforeFaultAppend(vs, MatchEntries(ms[1..]));
    }
  }

  /** With the recursive flag, the copy loop emits a prefix of every plain
      file at or beneath the matches; it fails exactly when some matched
      directory holds an unreadable entry, and otherwise emits them all. */
  lemma {:induction false} RecursiveEmitsMatchFiles(ms: seq<Found>)
    ensures EmitMatches(ms, true) == Run(FilesBeforeFault(MatchEntries(ms)), FaultReason(MatchEntries(ms)))
    ensures HasPrefix(MatchFiles(ms), EmitMatches(ms, true).paths)
    ensures EmitMatches(ms, true).err.None? <==> AllReadable(ms)
    ensures EmitMatches(ms, true).err.None? ==> EmitMatches(ms, true).paths == MatchFiles(ms)
  {
    if ms != [] {
      var m := ms[0];
      var files := FilePaths(Entries(m.path, m.node));
      var head := if !IsDir(m.node) then Run([m.path], None) else Walk(m.path, m.node);
      var tail := MatchFiles(ms[1..]);
      FilePathsAppend(Entries(m.path, m.node), MatchEntries(ms[1..]));
      RecursiveEmitsBeforeFault(ms);
      MatchHead(m);
      RecursiveEmitsMatchFiles(ms[1..]);
      AllReadableSplit(ms);
      if head.err.Some? {
        PrefixOfLonger(head.paths, files, tail);
      } else {
        PrefixAfterCommon(files, EmitMatches(ms[1..], true).paths, tail);
      }
    }
  }

  lemma PrefixOfLonger<T>(h: seq<T>, f: seq<T>, t: seq<T>)
    requires HasPrefix(f, h)
    ensures HasPrefix(f + t, h)
  {
    assert (f + t)[..|h|] == f[..|h|];
  }

  lemma PrefixAfterCommon<T>(f: seq<T>, r: seq<T>, t: seq<T>)
    requires HasPrefix(t, r)
    ensures HasPrefix(f + t, f + r)
  {
    assert (f + t)[..|f| + |r|] == f + t[..|r|];
  }

  lemma AllReadableSplit(ms: seq<Found>)
    requires ms != []
    ensures AllReadable(ms) <==> Readable(ms[0].path, ms[0].node) && AllReadable(ms[1..])
  {
    if !AllReadable(ms[1..]) {
      var i :| 0 <= i < |ms[1..]| && !Readable(ms[1..][i].path, ms[1..][i].node);
      assert ms[i + 1] == ms[1..][i];
    }
  }

  /** Globbing a directory's entries and walking each matched entry visits
      the same files, in the same order, as walking the directory itself. */
  lemma {:induction false} GlobbedChildrenWalkLikeDirectory(dir: string, cs: seq<Entry>)
    ensures EmitMatches(ChildMatches(dir, cs), true) == WalkChildren(dir, cs)
  {
    if cs != [] {
      var ms := ChildMatches(dir, cs);
      assert ms[1..] == ChildMatches(dir, cs[1..]);
      GlobbedChildrenWalkLikeDirectory(dir, cs[1..]);
    }
  }

  /** The upload glob loop keeps match order: the non-directories of two
      runs of matches are those of the first run followed by those of the
      second. */
  lemma {:induction false} NonDirPathsAppend(a: seq<Found>, b: seq<Found>)
    ensures NonDirPaths(a + b) == NonDirPaths(a) + NonDirPaths(b)
  {
    if a == [] {
      assert a + b == b;
    } else {
      var h := if IsDir(a[0].node) then [] else [a[0].path];
      assert (a + b)[0] == a[0];
      assert (a + b)[1..] == a[1..] + b;
      NonDirPathsAppend(a[1..], b);
      ConcatAssoc(h, NonDirPaths(a[1..]), NonDirPaths(b));
    }
  }

  // ---------------------------------------------------------------------
  // Batch outcomes.

  /** What the mode choice decides. Over an existing directory, readable or
      not, the upload walks it and never consults a glob, an unreadable one
      failing at once with its reason, and the copy never fails as
      not-a-glob. Otherwise it makes no difference to either batch whether
      the stat failed or showed a plain file. */
  lemma ModeChoiceDecidesInputs(b: Batch, stat: Option<Node>, g1: GlobOutcome, g2: GlobOutcome, reason: string)
    ensures IsWalkMode(stat) ==> BatchLocalUpload(b, Host(stat, g1)) == BatchLocalUpload(b, Host(stat, g2))
    ensures IsWalkMode(stat) ==> BatchLocalCopy(b, Host(stat, g1)).err != Some(NotAGlob(b.src))
    ensures BatchLocalUpload(b, Host(Some(Unreadable(reason)), g1)) == BatchResult([EOS], [], Some(IoError(reason)))
    ensures !IsWalkMode(stat) ==> BatchLocalCopy(b, Host(stat, g1)) == BatchLocalCopy(b, Host(None, g1))
    ensures !IsWalkMode(stat) ==> BatchLocalUpload(b, Host(stat, g1)) == BatchLocalUpload(b, Host(None, g1))
  {
    var bad := Some(Unreadable(reason));
    var plan := MakePlan(b.src, true, Upload).value;
    UploadUnfold(b, Host(bad, g1), plan);
    var t := Template(SubCommand(b.opts), Upload, b.dst, plan.trimPrefix, b.opts);
    SourcesOfClosed([], Some(IoError(reason)), t);
  }

  /** A source that is not an existing directory and holds no glob
      character fails both batches at once, before anything is sent. */
  lemma NotAGlobFailsFast(b: Batch, host: Host)
    requires !IsWalkMode(host.srcStat) && !HasGlobChar(b.src)
    ensures BatchLocalCopy(b, host) == BatchResult([], [], Some(NotAGlob(b.src)))
    ensures BatchLocalUpload(b, host) == BatchResult([], [], Some(NotAGlob(b.src)))
    ensures Message(NotAGlob(b.src)) == "internal error, not a glob: " + b.src
  {
  }

  /** An existing empty directory gives both batches an empty, successful
      stream: only the marker is sent and no sub-job is dispatched. For the
      copy batch this holds in walk mode whenever the glob of the directory's
      entries matches nothing, whatever the stat showed. */
  lemma EmptyDirectorySucceeds(b: Batch, stat: Option<Node>, glob: GlobOutcome)
    ensures BatchLocalCopy(b, Host(Some(Directory([])), Matched([]))) == BatchResult([EOS], [], None)
    ensures BatchLocalUpload(b, Host(Some(Directory([])), glob)) == BatchResult([EOS], [], None)
    ensures IsWalkMode(stat) ==> BatchLocalCopy(b, Host(stat, Matched([]))) == BatchResult([EOS], [], None)
  {
    if IsWalkMode(stat) {
      var plan := MakePlan(b.src, true, LocalCopy).value;
      CopyUnfold(b, Host(stat, Matched([])), plan);
      SourcesOfClosed([], None, Template(SubCommand(b.opts), LocalCopy, b.dst, plan.trimPrefix, b.opts));
    }
  }

  /** A glob that matches nothing fails both batches with the no-match
      error; only the marker is sent and no sub-job is dispatched. */
  lemma ZeroMatchesFail(b: Batch, stat: Option<Node>)
    requires !IsWalkMode(stat) && HasGlobChar(b.src)
    ensures BatchLocalCopy(b, Host(stat, Matched([]))) == BatchResult([EOS], [], Some(NoMatch))
    ensures BatchLocalUpload(b, Host(stat, Matched([]))) == BatchResult([EOS], [], Some(NoMatch))
    ensures Message(NoMatch) == "could not find match for glob"
  {
    var p := Close([], Some(NoMatch));
    assert p.items == [EOS];
    CopyUnfold(b, Host(stat, Matched([])), MakePlan(b.src, false, LocalCopy).value);
    UploadUnfold(b, Host(stat, Matched([])), MakePlan(b.src, false, Upload).value);
  }

  /** A failing glob becomes the batch error; nothing but the marker is
      sent. (The upload batch only globs in glob mode.) */
  lemma GlobErrorStops(b: Batch, stat: Option<Node>, reason: string)
    requires IsWalkMode(stat) || HasGlobChar(b.src)
    ensures BatchLocalCopy(b, Host(stat, GlobFailed(reason))) == BatchResult([EOS], [], Some(IoError(reason)))
    ensures !IsWalkMode(stat) ==>
              BatchLocalUpload(b, Host(stat, GlobFailed(reason))) == BatchResult([EOS], [], Some(IoError(reason)))
  {
  }

  /** Without the recursive flag, a copy dispatches one sub-job per matched
      non-directory, in match order, and none for matched directories. */
  lemma NonRecursiveCopySkipsDirectories(b: Batch, stat: Option<Node>, ms: seq<Found>)
    requires !b.opts.recursive
    requires IsWalkMode(stat) || HasGlobChar(b.src)
    requires ms != []
    ensures Sources(BatchLocalCopy(b, Host(stat, Matched(ms))).jobs) == NonDirPaths(ms)
    ensures BatchLocalCopy(b, Host(stat, Matched(ms))).err == None
  {
    var plan := MakePlan(b.src, IsWalkMode(stat), LocalCopy).value;
    CopyUnfold(b, Host(stat, Matched(ms)), plan);
    NonRecursiveEmitsNonDirectories(ms);
    var t := Template(SubCommand(b.opts), LocalCopy, b.dst, plan.trimPrefix, b.opts);
    SourcesOfClosed(NonDirPaths(ms), None, t);
  }

  /** In glob mode the upload batch dispatches one sub-job per matched
      non-directory, whatever the recursive flag says. */
  lemma UploadGlobSkipsDirectories(b: Batch, stat: Option<Node>, ms: seq<Found>)
    requires !IsWalkMode(stat) && HasGlobChar(b.src)
    requires ms != []
    ensures Sources(BatchLocalUpload(b, Host(stat, Matched(ms))).jobs) == NonDirPaths(ms)
    ensures BatchLocalUpload(b, Host(stat, Matched(ms))).err == None
  {
    var plan := MakePlan(b.src, false, Upload).value;
    UploadUnfold(b, Host(stat, Matched(ms)), plan);
    var t := Template(SubCommand(b.opts), Upload, b.dst, plan.trimPrefix, b.opts);
    SourcesOfClosed(NonDirPaths(ms), None, t);
  }

  /** With the recursive flag, a copy dispatches sub-jobs for the plain files
      at or beneath its matches, in order; the first unreadable directory
      ends dispatch and becomes the batch error, and a batch without one
      dispatches every such file. */
  lemma RecursiveCopyTakesEveryFile(b: Batch, stat: Option<Node>, ms: seq<Found>)
    requires b.opts.recursive
    requires IsWalkMode(stat) || HasGlobChar(b.src)
    requires ms != []
    ensures var r := BatchLocalCopy(b, Host(stat, Matched(ms)));
            && Sources(r.jobs) == FilesBeforeFault(MatchEntries(ms))
            && r.err == LiftErr(FaultReason(MatchEntries(ms)))
            && HasPrefix(MatchFiles(ms), Sources(r.jobs))
            && (r.err == None <==> AllReadable(ms))
            && (r.err == None ==> Sources(r.jobs) == MatchFiles(ms))
            && (r.err != None ==> r.err.value.IoError?)
  {
    var plan := MakePlan(b.src, IsWalkMode(stat), LocalCopy).value;
    CopyUnfold(b, Host(stat, Matched(ms)), plan);
    RecursiveEmitsMatchFiles(ms);
    var run := EmitMatches(ms, true);
    var t := Template(SubCommand(b.opts), LocalCopy, b.dst, plan.trimPrefix, b.opts);
    SourcesOfClosed(run.paths, LiftErr(run.err), t);
  }

  /** In walk mode the upload batch dispatches sub-jobs for the plain files
      beneath the source directory, in walk order, whatever the recursive
      flag says; an unreadable entry ends dispatch and becomes the error. */
  lemma UploadWalkTakesEveryFile(b: Batch, root: Node, glob: GlobOutcome)
    requires IsDir(root)
    ensures var r := BatchLocalUpload(b, Host(Some(root), glob));
            && Sources(r.jobs) == FilesBeforeFault(Entries(b.src, root))
            && r.err == LiftErr(FaultReason(Entries(b.src, root)))
            && HasPrefix(FilePaths(Entries(b.src, root)), Sources(r.jobs))
            && (r.err == None <==> Readable(b.src, root))
            && (r.err == None ==> Sources(r.jobs) == FilePaths(Entries(b.src, root)))
  {
    var plan := MakePlan(b.src, true, Upload).value;
    UploadUnfold(b, Host(Some(root), glob), plan);
    WalkFollowsEntries(b.src, root);
    WalkEmitsOnlyFiles(b.src, root);
    var run := Walk(b.src, root);
    var t := Template(SubCommand(b.opts), Upload, b.dst, plan.trimPrefix, b.opts);
    SourcesOfClosed(run.paths, LiftErr(run.err), t);
    if run.err == None {
      WalkEmitsEveryFile(b.src, root);
    }
  }

  /** Over an existing directory with the recursive flag, the copy batch
      (which globs the directory's entries and walks each matched
      subdirectory) sends the same stream and ends with the same error as
      the upload batch (which walks the directory), and names every
      destination alike. */
  lemma CopyAndUploadAgreeOnDirectory(b: Batch, cs: seq<Entry>, glob: GlobOutcome)
    requires b.opts.recursive
    ensures var c := BatchLocalCopy(b, Host(Some(Directory(cs)), Matched(ChildMatches(b.src, cs))));
            var u := BatchLocalUpload(b, Host(Some(Directory(cs)), glob));
            && c.items == u.items
            && c.err == u.err
            && |c.jobs| == |u.jobs|
            && forall i :: 0 <= i < |c.jobs| ==> c.jobs[i].src == u.jobs[i].src && c.jobs[i].dst == u.jobs[i].dst
  {
    var host := Host(Some(Directory(cs)), Matched(ChildMatches(b.src, cs)));
    var pc := MakePlan(b.src, true, LocalCopy).value;
    var pu := MakePlan(b.src, true, Upload).value;
    CopyUnfold(b, host, pc);
    UploadUnfold(b, Host(Some(Directory(cs)), glob), pu);
    if cs != [] {
      GlobbedChildrenWalkLikeDirectory(b.src, cs);
    }
    assert CopyProduce(pc, host.glob, true) == UploadProduce(pu, Directory(cs), glob);
  }

  /** Over an existing directory whose listing cannot be read the two
      batches part ways. The host's glob hides the read error and reports no
      entries, so the copy takes the empty-directory return and succeeds
      having sent only the marker, while the upload's walk fails with the
      reason. */
  lemma UnreadableDirectorySplitsBatches(b: Batch, reason: string)
    ensures BatchLocalCopy(b, Host(Some(Unreadable(reason)), Matched([]))) == BatchResult([EOS], [], None)
    ensures BatchLocalUpload(b, Host(Some(Unreadable(reason)), Matched([]))) ==
              BatchResult([EOS], [], Some(IoError(reason)))
  {
    EmptyDirectorySucceeds(b, Some(Unreadable(reason)), Matched([]));
    ModeChoiceDecidesInputs(b, Some(Unreadable(reason)), Matched([]), Matched([]), reason);
  }

  /** Under parents naming every destination of a copy is the destination
      argument followed by the source with the batch's trim prefix removed
      when the source starts with it, and by the whole source otherwise. */
  lemma ParentsDestinations(b: Batch, host: Host)
    requires b.opts.parents
    requires IsWalkMode(host.srcStat) || HasGlobChar(b.src)
    ensures var t := MakePlan(b.src, IsWalkMode(host.srcStat), LocalCopy).value.trimPrefix;
            forall j :: j in BatchLocalCopy(b, host).jobs ==>
              exists name :: j.dst == b.dst + name && (if HasPrefix(j.src, t) then t + name == j.src else name == j.src)
  {
    var pc := MakePlan(b.src, IsWalkMode(host.srcStat), LocalCopy).value;
    CopyUnfold(b, host, pc);
    var p := CopyProduce(pc, host.glob, b.opts.recursive);
    ParentsJobNames(p.items, Template(SubCommand(b.opts), LocalCopy, b.dst, pc.trimPrefix, b.opts));
  }

  /** The same naming for every destination of an upload. */
  lemma ParentsUploadDestinations(b: Batch, host: Host)
    requires b.opts.parents
    requires IsWalkMode(host.srcStat) || HasGlobChar(b.src)
    ensures var t := MakePlan(b.src, IsWalkMode(host.srcStat), Upload).value.trimPrefix;
            forall j :: j in BatchLocalUpload(b, host).jobs ==>
              exists name :: j.dst == b.dst + name && (if HasPrefix(j.src, t) then t + name == j.src else name == j.src)
  {
    var walkMode := IsWalkMode(host.srcStat);
    var pu := MakePlan(b.src, walkMode, Upload).value;
    UploadUnfold(b, host, pu);
    var root := if walkMode then host.srcStat.value else File;
    var q := UploadProduce(pu, root, host.glob);
    ParentsJobNames(q.items, Template(SubCommand(b.opts), Upload, b.dst, pu.trimPrefix, b.opts));
  }

  /** Under the default (flatten) naming every destination is the
      destination argument followed by the base name of the source, a name
      without separators that depends on the source path alone. */
  lemma FlattenDestinations(b: Batch, host: Host)
    requires !b.opts.parents
    ensures forall j :: j in BatchLocalCopy(b, host).jobs ==>
              && HasPrefix(j.dst, b.dst)
              && j.dst[|b.dst|..] == Base(j.src)
              && (!AllSeps(j.src) ==> NoSep(j.dst[|b.dst|..]))
    ensures forall j :: j in BatchLocalUpload(b, host).jobs ==>
              && HasPrefix(j.dst, b.dst)
              && j.dst[|b.dst|..] == Base(j.src)
              && (!AllSeps(j.src) ==> NoSep(j.dst[|b.dst|..]))
  {
    var walkMode := IsWalkMode(host.srcStat);
    if walkMode || HasGlobChar(b.src) {
      var pc := MakePlan(b.src, walkMode, LocalCopy).value;
      CopyUnfold(b, host, pc);
      FlattenJobNames(CopyProduce(pc, host.glob, b.opts.recursive).items,
                      Template(SubCommand(b.opts), LocalCopy, b.dst, pc.trimPrefix, b.opts));
      var pu := MakePlan(b.src, walkMode, Upload).value;
      UploadUnfold(b, host, pu);
      var root := if walkMode then host.srcStat.value else File;
      FlattenJobNames(UploadProduce(pu, root, host.glob).items,
                      Template(SubCommand(b.opts), Upload, b.dst, pu.trimPrefix, b.opts));
    }
  }

  /** Under flatten naming every sub-job the consumer builds is sent to the
      template's destination followed by the base name of its source. */
  lemma FlattenJobNames(items: seq<Item>, t: Template)
    requires !t.opts.parents
    ensures forall j :: j in Consume(items, t) ==>
              && HasPrefix(j.dst, t.dst)
              && j.dst[|t.dst|..] == Base(j.src)
              && (!AllSeps(j.src) ==> NoSep(j.dst[|t.dst|..]))
  {
    var jobs := Consume(items, t);
    forall j | j in jobs
      ensures j.dst[|t.dst|..] == Base(j.src)
    {
      var i :| 0 <= i < |jobs| && jobs[i] == j;
      assert j == MakeSubJob(t, items[i].path);
      assert (t.dst + Base(j.src))[|t.dst|..] == Base(j.src);
    }
  }

  // ---------------------------------------------------------------------
  // A worked example.

  lemma ExamplePlan(src: string)
    requires src == "src/*"
    ensures MakePlan(src, false, LocalCopy) == Success(Plan(false, src, "src/"))
  {
    assert src[3] == Separator;
    assert src[4] in GlobCharacters && forall i :: 0 <= i < 4 ==> src[i] !in GlobCharacters;
    assert IndexAny(src, GlobCharacters) == 4;
    var lit := src[..4];
    assert lit == "src/";
    assert LastSep(lit) == 3;
    assert !AllSeps(lit[..4]) by { assert lit[0] == 's'; }
    assert TrimTrailingSeps(lit[..4]) == "src";
    assert TrimPrefixOf(lit) == "src/";
  }

  lemma ExampleProduce(plan: Plan, ms: seq<Found>)
    requires ms == [Found("src/x.txt", File), Found("src/sub", Directory([Entry("y.txt", File)]))]
    ensures CopyProduce(plan, Matched(ms), true) == Close(["src/x.txt", "src/sub/y.txt"], None)
    ensures CopyProduce(plan, Matched(ms), true).items == [Match("src/x.txt"), Match("src/sub/y.txt"), EOS]
    ensures CopyProduce(plan, Matched(ms), true).err == None
  {
    assert Join("src/sub", "y.txt") == "src/sub/y.txt";
    assert Walk("src/sub", Directory([Entry("y.txt", File)])) == Run(["src/sub/y.txt"], None);
    assert EmitMatches(ms[1..], true) == Run(["src/sub/y.txt"], None);
    assert EmitMatches(ms, true) == Run(["src/x.txt", "src/sub/y.txt"], None);
  }

  lemma ExampleDir(d: string)
    requires d == "dst/sub/y.txt"
    ensures Dir(d) == "dst/sub"
  {
    assert d[7] == Separator && forall i :: 7 < i < |d| ==> d[i] != Separator;
    assert LastSep(d) == 7;
    assert !AllSeps(d[..8]) by { assert d[0] == 'd'; }
    assert TrimTrailingSeps(d[..8]) == "dst/sub";
  }

  lemma ExampleNames(x: string, y: string, trim: string)
    requires x == "src/x.txt" && y == "src/sub/y.txt" && trim == "src/"
    ensures ParentsName(x, trim) == "x.txt"
    ensures ParentsName(y, trim) == "sub/y.txt"
    ensures "dst/" + ParentsName(x, trim) == "dst/x.txt"
    ensures "dst/" + ParentsName(y, trim) == "dst/sub/y.txt"
    ensures Dir("dst/" + ParentsName(y, trim)) == "dst/sub"
  {
    assert HasPrefix(x, trim);
    assert HasPrefix(y, trim);
    assert "dst/" + ParentsName(x, trim) == "dst/x.txt";
    var d := "dst/" + ParentsName(y, trim);
    assert d == "dst/sub/y.txt";
    ExampleDir(d);
  }

  lemma ExampleConsume(t: Template, a: string, b: string)
    ensures Consume([Match(a), Match(b), EOS], t) == [MakeSubJob(t, a), MakeSubJob(t, b)]
  {
    var items := [Match(a), Match(b), EOS];
    var jobs := Consume(items, t);
    assert items[0] != EOS && items[1] != EOS && !items[2].Match?;
    assert |jobs| == 2;
  }

  lemma ExampleJobs(t: Template, x: string, y: string)
    requires t == Template("cp", LocalCopy, "dst/", "src/", Options(false, true, true, ""))
    requires x == "src/x.txt" && y == "src/sub/y.txt"
    ensures MakeSubJob(t, x).src == x && MakeSubJob(t, x).dst == "dst/x.txt"
    ensures MakeSubJob(t, y).src == y && MakeSubJob(t, y).dst == "dst/sub/y.txt"
    ensures MakeSubJob(t, y).makeDir == Some("dst/sub")
    ensures MakeSubJob(t, x).subCmd == "cp"
  {
    ExampleNames(x, y, t.trimPrefix);
  }

  /** "src/" holds "x.txt" and "sub/y.txt"; a recursive copy with parents
      naming of the glob "src/" + "*" to "dst/" dispatches two sub-jobs, to
      "dst/x.txt" and "dst/sub/y.txt", creating "dst/sub" for the second. */
  lemma RecursiveParentsCopyExample(b: Batch, host: Host)
    requires b == Batch("src/*", "dst/", Options(false, true, true, ""))
    requires host == Host(None, Matched([Found("src/x.txt", File), Found("src/sub", Directory([Entry("y.txt", File)]))]))
    ensures var r := BatchLocalCopy(b, host);
            && r.err == None
            && |r.jobs| == 2
            && r.jobs[0].src == "src/x.txt" && r.jobs[0].dst == "dst/x.txt"
            && r.jobs[1].src == "src/sub/y.txt" && r.jobs[1].dst == "dst/sub/y.txt"
            && r.jobs[1].makeDir == Some("dst/sub")
            && r.jobs[0].subCmd == "cp"
  {
    var x, y, trim := "src/x.txt", "src/sub/y.txt", "src/";
    ExamplePlan(b.src);
    var plan := Plan(false, b.src, trim);
    ExampleProduce(plan, host.glob.matches);
    var t := Template(SubCommand(b.opts), LocalCopy, b.dst, trim, b.opts);
    assert SubCommand(b.opts) == "cp";
    ExampleConsume(t, x, y);
    ExampleJobs(t, x, y);
    CopyUnfold(b, host, plan);
  }
}
