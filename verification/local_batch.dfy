/** The two local batch operations, `BatchLocalCopy` and `BatchLocalUpload`:
    one source argument (an existing directory or a glob) becomes a stream of
    matched file paths closed by a single end-of-stream marker, and every
    matched path becomes one single-file sub-job.

    The producer/consumer channel is modelled as the finished sequence of
    items the producer sends; the host is modelled by what it answers for
    this one batch (the stat of the source and the result of the one glob
    the producer runs). */
module LocalBatch {
  import opened Outcomes
  import opened Paths
  import opened FileTree
  import opened Naming

  /** The batch-level flags every sub-job inherits, with the pass-through
      parameters as an opaque string. */
  datatype Options = Options(deleteSource: bool, recursive: bool, parents: bool, params: string)

  /** A batch job: its source argument, its destination argument, its options. */
  datatype Batch = Batch(src: string, dst: string, opts: Options)

  /** The single-file operation a sub-job runs. */
  datatype Op = LocalCopy | Upload

  datatype Error =
    | NotAGlob(arg: string)   // the source is no directory and holds no glob character
    | NoMatch                 // a glob matched nothing
    | IoError(reason: string) // the glob or the walk failed

  /** One value sent on the producer's channel. */
  datatype Item = Match(path: string) | EOS

  /** One glob match, with what the host shows at that path. */
  datatype Found = Found(path: string, node: Node)

  datatype GlobOutcome = GlobFailed(reason: string) | Matched(matches: seq<Found>)

  /** The host's answers to one batch: the stat of the source (`None` when
      the stat fails) and the outcome of the glob the producer runs. */
  datatype Host = Host(srcStat: Option<Node>, glob: GlobOutcome)

  /** Per-batch decisions taken before the producer starts: walk or glob
      mode, the pattern handed to the glob (copy) or the root walked
      (upload), and the prefix parents naming trims. */
  datatype Plan = Plan(walkMode: bool, pattern: string, trimPrefix: string)

  /** Everything the producer sent, and the error it returned. */
  datatype Produced = Produced(items: seq<Item>, err: Option<Error>)

  /** A single-file sub-job. `makeDir` is the destination directory the copy
      consumer creates before handing the sub-job over. */
  datatype SubJob = SubJob(subCmd: string, op: Op, src: string, dst: string,
                           makeDir: Option<string>, opts: Options)

  /** The outcome of a batch: the channel traffic, the sub-jobs in dispatch
      order, and the batch error. */
  datatype BatchResult = BatchResult(items: seq<Item>, jobs: seq<SubJob>, err: Option<Error>)

  /** What the consumer needs to turn a matched path into a sub-job. */
  datatype Template = Template(subCmd: string, op: Op, dst: string, trimPrefix: string, opts: Options)

  function Message(e: Error): string {
    match e
    case NotAGlob(arg) => "internal error, not a glob: " + arg
    case NoMatch => "could not find match for glob"
    case IoError(reason) => reason
  }

  predicate HasGlobChar(s: string) {
    exists i :: 0 <= i < |s| && s[i] in GlobCharacters
  }

  /** `items` ends with the end-of-stream marker and holds no other. */
  predicate ClosedOnce(items: seq<Item>) {
    && |items| > 0
    && items[|items| - 1] == EOS
    && forall i :: 0 <= i < |items| - 1 ==> items[i].Match?
  }

  // ---------------------------------------------------------------------
  // Decisions taken once per batch.

  /** The sub-command every sub-job runs: "mv" when the source is to be
      deleted, "cp" otherwise, followed by the pass-through parameters. */
  function SubCommand(opts: Options): (r: string)
    ensures |r| == 2 + |opts.params|
    ensures opts.deleteSource <==> r[..2] == "mv"
    ensures !opts.deleteSource <==> r[..2] == "cp"
    ensures r[2..] == opts.params
  {
    (if opts.deleteSource then "mv" else "cp") + opts.params
  }

  /** Walk mode is chosen exactly when the source exists and is a directory,
      whether or not its listing can be read. */
  predicate IsWalkMode(srcStat: Option<Node>) {
    srcStat.Some? && IsDir(srcStat.value)
  }

  /** Mode selection, the walk-mode glob of the copy batch, and the trim
      prefix. A source that is neither a directory nor a glob fails at once. */
  function MakePlan(src: string, walkMode: bool, op: Op): (r: Result<Plan, Error>)
    ensures r.Failure? <==> !walkMode && !HasGlobChar(src)
    ensures r.Failure? ==> r.error == NotAGlob(src)
    ensures r.Success? ==>
              var t := r.value.trimPrefix;
              && r.value.walkMode == walkMode
              && (t == [] || EndsWithSep(t))
              && (t == "//" || HasPrefix(src, t))
    ensures r.Success? && !walkMode ==>
              && r.value.pattern == src
              && !HasGlobChar(r.value.trimPrefix)
    ensures r.Success? && walkMode && op == LocalCopy ==>
              HasPrefix(r.value.pattern, src) && HasSuffix(r.value.pattern, "/*")
    ensures r.Success? && walkMode && op == Upload ==> r.value.pattern == src
    ensures r.Success? && walkMode && op == LocalCopy ==> r.value.pattern == GlobStart(src)
    ensures r.Success? && walkMode ==> r.value.trimPrefix == TrimPrefixOf(src)
    ensures r.Success? && !walkMode ==>
              var loc := IndexAny(src, GlobCharacters);
              0 <= loc && r.value.trimPrefix == TrimPrefixOf(src[..loc])
  {
    if !walkMode then
      var loc := IndexAny(src, GlobCharacters);
      if loc < 0 then Failure(NotAGlob(src))
      else
        var lit := src[..loc];
        var t := TrimPrefixOf(lit);
        assert t != "//" ==> HasPrefix(src, t) by {
          if t != "//" {
            assert src[..|t|] == lit[..|t|];
          }
        }
        assert !HasGlobChar(t) by {
          if t != "//" {
            assert forall i :: 0 <= i < |t| ==> t[i] == lit[i];
          }
        }
        Success(Plan(false, src, t))
    else
      var pattern := if op == LocalCopy then GlobStart(src) else src;
      Success(Plan(true, pattern, TrimPrefixOf(src)))
  }

  // ---------------------------------------------------------------------
  // Producers.

  function LiftErr(e: Option<string>): Option<Error> {
    match e
    case None => None
    case Some(reason) => Some(IoError(reason))
  }

  /** The producer's deferred send: whatever was emitted, then one
      end-of-stream marker. */
  function Close(paths: seq<string>, err: Option<Error>): (p: Produced)
    ensures ClosedOnce(p.items)
    ensures |p.items| == |paths| + 1
    ensures forall i :: 0 <= i < |paths| ==> p.items[i] == Match(paths[i])
    ensures p.err == err
  {
    Produced(seq(|paths|, i requires 0 <= i < |paths| => Match(paths[i])) + [EOS], err)
  }

  /** The copy producer's loop over its glob matches: a non-directory is
      emitted, a directory is walked when `recurse` is set and skipped
      otherwise, and a walk error ends the loop. */
  function EmitMatches(ms: seq<Found>, recurse: bool): (r: Run)
    ensures r.err.Some? ==> recurse
    ensures r.err.Some? ==> exists m :: m in ms && IsDir(m.node) && Walk(m.path, m.node).err == r.err
  {
    if ms == [] then Run([], None)
    else
      var head :=
        if !IsDir(ms[0].node) then Run([ms[0].path], None)
        else if recurse then Walk(ms[0].path, ms[0].node)
        else Run([], None);
      if head.err.Some? then
        assert ms[0] in ms;
        head
      else
        var rest := EmitMatches(ms[1..], recurse);
        assert forall m :: m in ms[1..] ==> m in ms;
        Run(head.paths + rest.paths, rest.err)
  }

  /** The upload producer's loop over its glob matches: only non-directories
      are emitted. */
  function NonDirPaths(ms: seq<Found>): (r: seq<string>)
    ensures |r| <= |ms|
    ensures forall p :: p in r <==> exists m :: m in ms && !IsDir(m.node) && m.path == p
  {
    if ms == [] then []
    else (if IsDir(ms[0].node) then [] else [ms[0].path]) + NonDirPaths(ms[1..])
  }

  /** The copy producer. It fails with the no-match error exactly when a glob
      mode glob matches nothing, and with an I/O error only when the glob
      fails or a walk under the recursive flag fails. */
  function CopyProduce(plan: Plan, glob: GlobOutcome, recurse: bool): (p: Produced)
    ensures ClosedOnce(p.items)
    ensures p.err.Some? ==> !p.err.value.NotAGlob?
    ensures p.err == Some(NoMatch) <==> !plan.walkMode && glob == Matched([])
    ensures p.err.Some? && p.err.value.IoError? ==> glob.GlobFailed? || recurse
    ensures glob.GlobFailed? ==> p.items == [EOS] && p.err == Some(IoError(glob.reason))
    ensures !recurse && glob.Matched? && glob.matches != [] ==> p.err.None?
    ensures glob == Matched([]) ==> p.items == [EOS]
    ensures plan.walkMode && glob == Matched([]) ==> p.err.None?
  {
    match glob
    case GlobFailed(reason) => Close([], Some(IoError(reason)))
    case Matched(ms) =>
      if |ms| == 0 then Close([], if plan.walkMode then None else Some(NoMatch))
      else
        var run := EmitMatches(ms, recurse);
        Close(run.paths, LiftErr(run.err))
  }

  /** The upload producer: walk mode walks the source directory `root`
      whatever the recursive flag says; glob mode emits the non-directory
      matches. */
  function UploadProduce(plan: Plan, root: Node, glob: GlobOutcome): (p: Produced)
    ensures ClosedOnce(p.items)
    ensures p.err.Some? ==> !p.err.value.NotAGlob?
    ensures p.err == Some(NoMatch) <==> !plan.walkMode && glob == Matched([])
    ensures plan.walkMode ==> (p.err.None? <==> Readable(plan.pattern, root))
    ensures !plan.walkMode ==> (p.err.Some? && p.err.value.IoError? <==> glob.GlobFailed?)
    ensures !plan.walkMode && glob.Matched? && glob.matches != [] ==> p.err.None?
  {
    if plan.walkMode then
      var run := Walk(plan.pattern, root);
      WalkEmitsOnlyFiles(plan.pattern, root);
      Close(run.paths, LiftErr(run.err))
    else
      match glob
      case GlobFailed(reason) => Close([], Some(IoError(reason)))
      case Matched(ms) =>
        if |ms| == 0 then Close([], Some(NoMatch))
        else Close(NonDirPaths(ms), None)
  }

  // ---------------------------------------------------------------------
  // Consumer.

  /** The sub-job for one matched path: the path as source, the destination
      argument with the path's destination name appended, and for copy the
      directory of that destination to create first. */
  function MakeSubJob(t: Template, p: string): (j: SubJob)
    ensures j.src == p && j.subCmd == t.subCmd && j.op == t.op && j.opts == t.opts
    ensures HasPrefix(j.dst, t.dst)
    ensures j.makeDir.Some? <==> t.op == LocalCopy
    ensures j.makeDir.Some? ==> j.makeDir.value == Dir(j.dst)
    ensures t.opts.parents && HasPrefix(p, t.trimPrefix) ==> j.dst == t.dst + p[|t.trimPrefix|..]
    ensures t.opts.parents && !HasPrefix(p, t.trimPrefix) ==> j.dst == t.dst + p
    ensures !t.opts.parents && !AllSeps(p) ==> j.dst[|t.dst|..] != [] && NoSep(j.dst[|t.dst|..])
  {
    var name := DestName(p, t.trimPrefix, t.opts.parents);
    var dst := t.dst + name;
    assert dst[|t.dst|..] == name;
    assert t.opts.parents && HasPrefix(p, t.trimPrefix) ==> name == p[|t.trimPrefix|..] by {
      if t.opts.parents && HasPrefix(p, t.trimPrefix) {
        assert (t.trimPrefix + name)[|t.trimPrefix|..] == name;
      }
    }
    SubJob(t.subCmd, t.op, p, dst, if t.op == LocalCopy then Some(Dir(dst)) else None, t.opts)
  }

  /** The paths the consumer reads: every matched path up to the first
      end-of-stream marker, which ends the reading. */
  function Received(items: seq<Item>): (ps: seq<string>)
    ensures |ps| <= |items|
    ensures forall i :: 0 <= i < |ps| ==> items[i] == Match(ps[i])
    ensures |ps| < |items| ==> items[|ps|] == EOS
  {
    if items == [] || items[0] == EOS then []
    else
      var rest := Received(items[1..]);
      assert forall i :: 1 <= i < |rest| + 1 ==> items[i] == items[1..][i - 1];
      [items[0].path] + rest
  }

  /** The consumer: one sub-job per matched path, in order, until the first
      end-of-stream marker, which yields no sub-job. */
  function Consume(items: seq<Item>, t: Template): (jobs: seq<SubJob>)
    ensures |jobs| <= |items|
    ensures forall i :: 0 <= i < |jobs| ==> items[i].Match? && jobs[i] == MakeSubJob(t, items[i].path)
    ensures |jobs| < |items| ==> items[|jobs|] == EOS
  {
    var ps := Received(items);
    seq(|ps|, i requires 0 <= i < |ps| => MakeSubJob(t, ps[i]))
  }

  // ---------------------------------------------------------------------
  // The batch entry points.

  /** `BatchLocalCopy`. */
  function BatchLocalCopy(b: Batch, host: Host): (r: BatchResult)
    ensures r.err == Some(NotAGlob(b.src)) <==> !IsWalkMode(host.srcStat) && !HasGlobChar(b.src)
    ensures r.err == Some(NotAGlob(b.src)) ==> r.items == [] && r.jobs == []
    ensures r.err != Some(NotAGlob(b.src)) ==> ClosedOnce(r.items) && |r.jobs| == |r.items| - 1
    ensures forall i :: 0 <= i < |r.jobs| ==>
              && r.items[i] == Match(r.jobs[i].src)
              && r.jobs[i].subCmd == SubCommand(b.opts)
              && r.jobs[i].op == LocalCopy
              && r.jobs[i].opts == b.opts
              && HasPrefix(r.jobs[i].dst, b.dst)
              && r.jobs[i].makeDir == Some(Dir(r.jobs[i].dst))
  {
    var walkMode := IsWalkMode(host.srcStat);
    match MakePlan(b.src, walkMode, LocalCopy)
    case Failure(e) => BatchResult([], [], Some(e))
    case Success(plan) =>
      var produced := CopyProduce(plan, host.glob, b.opts.recursive);
      var t := Template(SubCommand(b.opts), LocalCopy, b.dst, plan.trimPrefix, b.opts);
      BatchResult(produced.items, Consume(produced.items, t), produced.err)
  }

  /** `BatchLocalUpload`. */
  function BatchLocalUpload(b: Batch, host: Host): (r: BatchResult)
    ensures r.err == Some(NotAGlob(b.src)) <==> !IsWalkMode(host.srcStat) && !HasGlobChar(b.src)
    ensures r.err == Some(NotAGlob(b.src)) ==> r.items == [] && r.jobs == []
    ensures r.err != Some(NotAGlob(b.src)) ==> ClosedOnce(r.items) && |r.jobs| == |r.items| - 1
    ensures forall i :: 0 <= i < |r.jobs| ==>
              && r.items[i] == Match(r.jobs[i].src)
              && r.jobs[i].subCmd == SubCommand(b.opts)
              && r.jobs[i].op == Upload
              && r.jobs[i].opts == b.opts
              && HasPrefix(r.jobs[i].dst, b.dst)
              && r.jobs[i].makeDir == None
  {
    var walkMode := IsWalkMode(host.srcStat);
    match MakePlan(b.src, walkMode, Upload)
    case Failure(e) => BatchResult([], [], Some(e))
    case Success(plan) =>
      var root := if walkMode then host.srcStat.value else File;
      var produced := UploadProduce(plan, root, host.glob);
      var t := Template(SubCommand(b.opts), Upload, b.dst, plan.trimPrefix, b.opts);
      BatchResult(produced.items, Consume(produced.items, t), produced.err)
  }
}
