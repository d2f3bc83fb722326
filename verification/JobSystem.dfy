/**
 * A whole job: the coordinator, any number of attempts at its tasks, and the directory they share.
 *
 * Attempts are interleaved one file operation at a time. They may stall for ever, break at any point, be
 * overtaken by other attempts at the same task, and report late, twice or never.
 */
module JobSystem {
  import opened Base
  import opened Records
  import opened StableSorting
  import opened Pipeline
  import opened JobFiles
  import opened Storage
  import opened CoordinatorSpec
  import opened CoordinatorInvariants

  datatype Setup = Setup(job: Job, inputs: seq<seq<Line>>, limit: nat, numReducers: nat, cfg: Config) {
    ghost predicate Valid() {
      Routes(job) && cfg.Valid() && |inputs| > 0 && numReducers > 0
    }
  }

  datatype Attempt = Attempt(kind: Kind, id: nat, number: nat, worker: WorkerId)

  /** Where an attempt has got to. A map attempt cleans, spills, merges and tidies; a reduce attempt gathers. */
  datatype Work =
    | Cleaning
    | Spilling(run: nat, partition: nat)
    | Merging(partition: nat, loaded: seq<seq<Record>>)
    | Tidying
    | Gathering(next: nat, loaded: seq<seq<Record>>)
    | Finished
    | Broken

  datatype System = System(coord: Coord, now: int, work: map<Attempt, Work>, files: Files, accepted: seq<Report>)

  // ----- what the files should hold -----

  function Batches(s: Setup, t: nat): seq<seq<Record>>
    requires t < |s.inputs|
  {
    Emitted(s.job, s.inputs[t])
  }

  /** The runs a map task writes to disk: none when its output never filled the buffer. */
  function SpilledRuns(s: Setup, t: nat): seq<seq<Record>>
    requires t < |s.inputs|
  {
    var b := Fill(Batches(s, t), s.limit);
    if b.full == [] then [] else Runs(b)
  }

  function SpillText(s: Setup, t: nat, run: nat, p: nat): string
    requires t < |s.inputs| && run < |SpilledRuns(s, t)|
  {
    Encode(RunFile(s.job, SpilledRuns(s, t)[run], p, s.numReducers))
  }

  function MapText(s: Setup, t: nat, p: nat): string
    requires t < |s.inputs|
  {
    Encode(MapFile(s.job, s.inputs[t], s.limit, p, s.numReducers))
  }

  function OutputText(s: Setup, r: nat): string {
    Encode(Output(s.job, s.inputs, s.limit, r, s.numReducers))
  }

  /** The text a file must have if it exists at all. */
  predicate RightAt(s: Setup, path: Path, text: string) {
    match path
    case InputPath(_) => true
    case StagePath(Spilled(t, n), p) =>
      t < |s.inputs| && n < |SpilledRuns(s, t)| && p < s.numReducers && text == SpillText(s, t, n, p)
    case StagePath(Final(t), p) => t < |s.inputs| && p < s.numReducers && text == MapText(s, t, p)
    case OutputPath(r) => r < s.numReducers && text == OutputText(s, r)
  }

  ghost predicate FilesRight(s: Setup, files: Files) {
    forall path <- files :: RightAt(s, path, files[path])
  }

  predicate MapWritten(s: Setup, files: Files, t: nat, upto: nat) {
    forall p | 0 <= p < upto :: IntermediatePath(t, p) in files
  }

  // ----- the steps -----

  function Start(s: Setup): System {
    System(New(|s.inputs|, s.numReducers), 0, map[], map[], [])
  }

  datatype Action =
    | Join(delay: nat)
    | Beat(worker: WorkerId, delay: nat)
    | Ask(worker: WorkerId, delay: nat)
    | Sweep(delay: nat)
    | Advance(attempt: Attempt)
    | DeleteSpill(attempt: Attempt, run: nat, partition: nat)
    | Break(attempt: Attempt)
    | Deliver(attempt: Attempt, elapsed: int, counters: map<string, int>, delay: nat)

  /** One more file of a map attempt's merge loaded; the attempt breaks when the file is gone or unreadable. */
  function OpenNext(files: Files, path: Path, loaded: seq<seq<Record>>): Option<seq<seq<Record>>> {
    if path !in files || Decode(files[path]).broken then None else Some(loaded + [Decode(files[path]).records])
  }

  function FinalText(s: Setup, t: nat, p: nat, loaded: seq<seq<Record>>): string
    requires t < |s.inputs|
  {
    var b := Fill(Batches(s, t), s.limit);
    Encode(if b.full == [] then RunFile(s.job, b.open, p, s.numReducers) else Drain(loaded))
  }

  /** The next file operation of a map attempt. */
  function MapStep(s: Setup, files: Files, t: nat, w: Work): (Files, Work)
    requires t < |s.inputs|
  {
    match w
    case Cleaning => (files, Spilling(0, 0))
    case Spilling(n, p) =>
      if n >= |SpilledRuns(s, t)| then (files, Merging(0, []))
      else if p >= s.numReducers then (files, Spilling(n + 1, 0))
      else (files[SpillPath(t, n, p) := SpillText(s, t, n, p)], Spilling(n, p + 1))
    case Merging(p, loaded) =>
      if p >= s.numReducers then (files, Tidying)
      else if |loaded| < |SpilledRuns(s, t)| then
        match OpenNext(files, SpillPath(t, |loaded|, p), loaded)
        case None => (files, Broken)
        case Some(more) => (files, Merging(p, more))
      else (files[IntermediatePath(t, p) := FinalText(s, t, p, loaded)], Merging(p + 1, []))
    case Tidying => (files, Finished)
    case _ => (files, w)
  }

  /** The next file operation of a reduce attempt; a missing map file is skipped. */
  function ReduceStep(s: Setup, files: Files, r: nat, w: Work): (Files, Work) {
    match w
    case Gathering(m, loaded) =>
      if m < |s.inputs| then
        if IntermediatePath(m, r) !in files then (files, Gathering(m + 1, loaded)) else
        match OpenNext(files, IntermediatePath(m, r), loaded)
        case None => (files, Broken)
        case Some(more) => (files, Gathering(m + 1, more))
      else (files[OutputPath(r) := Encode(Apply(s.job.reduce, Groups(Drain(loaded))))], Finished)
    case _ => (files, w)
  }

  function WorkStep(s: Setup, files: Files, a: Attempt, w: Work): (Files, Work) {
    if a.kind.ReduceKind? then ReduceStep(s, files, a.id, w)
    else if a.id < |s.inputs| then MapStep(s, files, a.id, w)
    else (files, w)
  }

  function ReportOf(a: Attempt, w: Work, elapsed: int, counters: map<string, int>): Report {
    Report(a.worker, a.kind, a.id, w.Finished?, counters, elapsed)
  }

  /** An action that is not possible in a state leaves it alone. */
  function Do(s: Setup, y: System, action: Action): System
    requires s.cfg.Valid()
  {
    match action
    case Join(delay) =>
      y.(now := y.now + delay, coord := Register(y.coord, y.now + delay).0)
    case Beat(w, delay) =>
      y.(now := y.now + delay, coord := Touch(y.coord, w, y.now + delay))
    case Sweep(delay) =>
      y.(now := y.now + delay, coord := Reclaim(y.coord, s.cfg, y.now + delay))
    case Ask(w, delay) =>
      var (c, reply) := Request(y.coord, s.cfg, w, y.now + delay);
      y.(now := y.now + delay, coord := c, work := if reply.Assigned? then Issue(y.work, reply, w) else y.work)
    case Advance(a) =>
      if a !in y.work then y else
      var (files, w) := WorkStep(s, y.files, a, y.work[a]);
      y.(files := files, work := y.work[a := w])
    case DeleteSpill(a, n, p) =>
      if a !in y.work || a.kind.ReduceKind? || !(y.work[a].Cleaning? || y.work[a].Tidying?) then y
      else y.(files := y.files - {SpillPath(a.id, n, p)})
    case Break(a) =>
      if a !in y.work || y.work[a].Finished? then y else y.(work := y.work[a := Broken])
    case Deliver(a, elapsed, counters, delay) =>
      if a !in y.work || !(y.work[a].Finished? || y.work[a].Broken?) then y else
      var r := ReportOf(a, y.work[a], elapsed, counters);
      var (c, took) := ReportTask(y.coord, s.cfg, r, y.now + delay);
      y.(now := y.now + delay, coord := c, accepted := if took then y.accepted + [r] else y.accepted)
  }

  function Issue(work: map<Attempt, Work>, reply: Reply, w: WorkerId): map<Attempt, Work>
    requires reply.Assigned?
  {
    work[Attempt(reply.kind, reply.id, reply.attempt, w) := if reply.kind.MapKind? then Cleaning else Gathering(0, [])]
  }

  function After(s: Setup, actions: seq<Action>): System
    requires s.cfg.Valid()
  {
    if actions == [] then Start(s) else
    var n := |actions| - 1;
    Do(s, After(s, actions[..n]), actions[n])
  }

  // ----- the invariant -----

  predicate MapWorkRight(s: Setup, files: Files, t: nat, w: Work) {
    && t < |s.inputs|
    && match w
       case Spilling(n, p) => n <= |SpilledRuns(s, t)| && p <= s.numReducers
       case Merging(p, loaded) =>
         && p <= s.numReducers && MapWritten(s, files, t, p)
         && loaded <= RunFiles(s.job, SpilledRuns(s, t), p, s.numReducers)
       case Tidying => MapWritten(s, files, t, s.numReducers)
       case Finished => MapWritten(s, files, t, s.numReducers)
       case Gathering(_, _) => false
       case _ => true
  }

  predicate ReduceWorkRight(s: Setup, files: Files, r: nat, w: Work) {
    && r < s.numReducers
    && match w
       case Gathering(m, loaded) =>
         m <= |s.inputs| && loaded == MapFiles(s.job, s.inputs, s.limit, r, s.numReducers)[..m]
       case Finished => OutputPath(r) in files
       case Broken => true
       case _ => false
  }

  /** Reduce work exists only once every map task is done. */
  predicate WorkRight(s: Setup, files: Files, c: Coord, a: Attempt, w: Work) {
    if a.kind.MapKind? then MapWorkRight(s, files, a.id, w)
    else ReduceWorkRight(s, files, a.id, w) && AllDone(c.maps) && !c.phase.MapPhase?
  }

  ghost predicate AllWorkRight(s: Setup, y: System) {
    forall a <- y.work :: WorkRight(s, y.files, y.coord, a, y.work[a])
  }

  /** The files of done tasks are there. */
  predicate DoneWritten(s: Setup, c: Coord, files: Files) {
    && |c.maps| == |s.inputs| && |c.reduces| == s.numReducers
    && (forall t | 0 <= t < |c.maps| && c.maps[t].state.Done? :: MapWritten(s, files, t, s.numReducers))
    && forall r | 0 <= r < |c.reduces| && c.reduces[r].state.Done? :: OutputPath(r) in files
  }

  ghost predicate Inv(s: Setup, y: System) {
    && Sound(y.coord, s.cfg, y.accepted)
    && FilesRight(s, y.files) && DoneWritten(s, y.coord, y.files) && AllWorkRight(s, y)
  }

  // ----- files are never lost -----

  predicate Lasting(path: Path) {
    path.OutputPath? || (path.StagePath? && path.stage.Final?)
  }

  ghost predicate Keeps(a: Files, b: Files) {
    forall path <- a | Lasting(path) :: path in b
  }

  lemma MapWrittenKept(s: Setup, a: Files, b: Files, t: nat, upto: nat)
    requires Keeps(a, b) && MapWritten(s, a, t, upto)
    ensures MapWritten(s, b, t, upto)
  {
    forall p | 0 <= p < upto ensures IntermediatePath(t, p) in b {
      assert Lasting(IntermediatePath(t, p));
    }
  }

  lemma WorkRightKept(s: Setup, a: Files, b: Files, c: Coord, d: Coord, x: Attempt, w: Work)
    requires Keeps(a, b) && WorkRight(s, a, c, x, w)
    requires (AllDone(c.maps) ==> AllDone(d.maps)) && (!c.phase.MapPhase? ==> !d.phase.MapPhase?)
    ensures WorkRight(s, b, d, x, w)
  {
    if x.kind.MapKind? {
      match w
      case Merging(p, _) => MapWrittenKept(s, a, b, x.id, p);
      case Tidying => MapWrittenKept(s, a, b, x.id, s.numReducers);
      case Finished => MapWrittenKept(s, a, b, x.id, s.numReducers);
      case _ =>
    } else {
      assert Lasting(OutputPath(x.id));
    }
  }

  lemma DoneWrittenKept(s: Setup, c: Coord, a: Files, b: Files)
    requires Keeps(a, b) && DoneWritten(s, c, a)
    ensures DoneWritten(s, c, b)
  {
    forall t | 0 <= t < |c.maps| && c.maps[t].state.Done? ensures MapWritten(s, b, t, s.numReducers) {
      MapWrittenKept(s, a, b, t, s.numReducers);
    }
    forall r | 0 <= r < |c.reduces| && c.reduces[r].state.Done? ensures OutputPath(r) in b {
      assert Lasting(OutputPath(r));
    }
  }

  // ----- what attempts write is right -----

  lemma OpenedSpill(s: Setup, files: Files, t: nat, p: nat, loaded: seq<seq<Record>>)
    requires FilesRight(s, files) && t < |s.inputs| && p < s.numReducers
    requires loaded < RunFiles(s.job, SpilledRuns(s, t), p, s.numReducers)
    ensures match OpenNext(files, SpillPath(t, |loaded|, p), loaded)
            case None => true
            case Some(more) => more <= RunFiles(s.job, SpilledRuns(s, t), p, s.numReducers)
  {
    hide SpilledRuns, RunFile, Encode, Decode;
    var path := SpillPath(t, |loaded|, p);
    if path in files {
      assert RightAt(s, path, files[path]);
      DecodeEncode(RunFile(s.job, SpilledRuns(s, t)[|loaded|], p, s.numReducers));
    }
  }

  lemma MergedText(s: Setup, t: nat, p: nat, loaded: seq<seq<Record>>)
    requires t < |s.inputs| && loaded == RunFiles(s.job, SpilledRuns(s, t), p, s.numReducers)
    ensures FinalText(s, t, p, loaded) == MapText(s, t, p)
  {
    forall i | 0 <= i < |loaded| ensures KeySorted(loaded[i]) {
      RunFileValues(s.job, SpilledRuns(s, t)[i], p, s.numReducers, []);
    }
    DrainIsStableSort(loaded);
  }

  lemma WriteRight(s: Setup, files: Files, path: Path, text: string)
    requires FilesRight(s, files) && RightAt(s, path, text)
    ensures FilesRight(s, files[path := text]) && Keeps(files, files[path := text])
  {
  }

  lemma MergeStepRight(s: Setup, files: Files, t: nat, p: nat, loaded: seq<seq<Record>>)
    requires FilesRight(s, files) && MapWorkRight(s, files, t, Merging(p, loaded))
    ensures var (after, v) := MapStep(s, files, t, Merging(p, loaded));
            FilesRight(s, after) && Keeps(files, after) && MapWorkRight(s, after, t, v)
  {
    hide FilesRight, RightAt, SpilledRuns, FinalText, MapText, OpenNext;
    if p < s.numReducers {
      if |loaded| < |SpilledRuns(s, t)| {
        OpenedSpill(s, files, t, p, loaded);
      } else {
        MergedText(s, t, p, loaded);
        WriteRight(s, files, IntermediatePath(t, p), MapText(s, t, p));
        assert MapWritten(s, files[IntermediatePath(t, p) := MapText(s, t, p)], t, p + 1);
      }
    }
  }

  /** Every file a map attempt writes is right, whatever the other attempts are doing. */
  lemma MapStepRight(s: Setup, files: Files, t: nat, w: Work)
    requires FilesRight(s, files) && MapWorkRight(s, files, t, w)
    ensures var (after, v) := MapStep(s, files, t, w);
            FilesRight(s, after) && Keeps(files, after) && MapWorkRight(s, after, t, v)
  {
    match w
    case Spilling(n, p) =>
      if n < |SpilledRuns(s, t)| && p < s.numReducers {
        WriteRight(s, files, SpillPath(t, n, p), SpillText(s, t, n, p));
      }
    case Merging(p, loaded) => MergeStepRight(s, files, t, p, loaded);
    case _ =>
  }

  lemma GatherStep(s: Setup, c: Coord, files: Files, r: nat, m: nat, loaded: seq<seq<Record>>)
    requires FilesRight(s, files) && DoneWritten(s, c, files) && AllDone(c.maps)
    requires ReduceWorkRight(s, files, r, Gathering(m, loaded)) && m < |s.inputs|
    ensures var all := MapFiles(s.job, s.inputs, s.limit, r, s.numReducers);
            ReduceStep(s, files, r, Gathering(m, loaded)) == (files, Gathering(m + 1, all[..m + 1]))
  {
    hide FilesRight, DoneWritten, MapFile, Decode, Encode;
    var all := MapFiles(s.job, s.inputs, s.limit, r, s.numReducers);
    MapFilePresent(s, c, files, m, r);
    DecodeEncode(all[m]);
    assert all[..m + 1] == all[..m] + [all[m]];
  }

  lemma ReduceStepRight(s: Setup, c: Coord, files: Files, r: nat, w: Work)
    requires FilesRight(s, files) && ReduceWorkRight(s, files, r, w) && DoneWritten(s, c, files) && AllDone(c.maps)
    ensures var (after, v) := ReduceStep(s, files, r, w);
            FilesRight(s, after) && Keeps(files, after) && ReduceWorkRight(s, after, r, v)
  {
    match w
    case Gathering(m, loaded) =>
      if m < |s.inputs| {
        GatherStep(s, c, files, r, m, loaded);
      } else {
        var all := MapFiles(s.job, s.inputs, s.limit, r, s.numReducers);
        assert all[..m] == all;
        GatheredOutput(s, r);
        WriteRight(s, files, OutputPath(r), OutputText(s, r));
      }
    case _ =>
  }

  lemma MapFilePresent(s: Setup, c: Coord, files: Files, m: nat, r: nat)
    requires FilesRight(s, files) && DoneWritten(s, c, files) && AllDone(c.maps) && m < |s.inputs| && r < s.numReducers
    ensures IntermediatePath(m, r) in files && files[IntermediatePath(m, r)] == MapText(s, m, r)
  {
    assert c.maps[m] in c.maps;
    assert MapWritten(s, files, m, s.numReducers);
    assert RightAt(s, IntermediatePath(m, r), files[IntermediatePath(m, r)]);
  }

  lemma GatheredOutput(s: Setup, r: nat)
    ensures var all := MapFiles(s.job, s.inputs, s.limit, r, s.numReducers);
            Encode(Apply(s.job.reduce, Groups(Drain(all)))) == OutputText(s, r)
  {
    var all := MapFiles(s.job, s.inputs, s.limit, r, s.numReducers);
    forall i | 0 <= i < |all| ensures KeySorted(all[i]) {
      MapFileValues(s.job, s.inputs[i], s.limit, r, s.numReducers, []);
    }
    DrainIsStableSort(all);
  }

  // ----- every step keeps the invariant -----

  lemma StartInv(s: Setup)
    requires s.Valid()
    ensures Inv(s, Start(s))
  {
    NewSound(|s.inputs|, s.numReducers, s.cfg);
  }

  lemma WorkKept(s: Setup, y: System, files: Files, c: Coord)
    requires AllWorkRight(s, y) && Keeps(y.files, files)
    requires (AllDone(y.coord.maps) ==> AllDone(c.maps)) && (!y.coord.phase.MapPhase? ==> !c.phase.MapPhase?)
    ensures forall a <- y.work :: WorkRight(s, files, c, a, y.work[a])
  {
    forall a | a in y.work ensures WorkRight(s, files, c, a, y.work[a]) {
      WorkRightKept(s, y.files, files, y.coord, c, a, y.work[a]);
    }
  }

  lemma AdvanceInv(s: Setup, y: System, a: Attempt)
    requires s.Valid() && Inv(s, y) && a in y.work
    ensures Inv(s, Do(s, y, Advance(a)))
  {
    hide Sound, FilesRight, DoneWritten, MapWorkRight, ReduceWorkRight, MapStep, ReduceStep, Keeps, AllDone;
    var (files, w) := WorkStep(s, y.files, a, y.work[a]);
    assert WorkRight(s, y.files, y.coord, a, y.work[a]);
    if a.kind.MapKind? {
      MapStepRight(s, y.files, a.id, y.work[a]);
    } else {
      ReduceStepRight(s, y.coord, y.files, a.id, y.work[a]);
    }
    WorkKept(s, y, files, y.coord);
    DoneWrittenKept(s, y.coord, y.files, files);
  }

  lemma DeleteInv(s: Setup, y: System, a: Attempt, n: nat, p: nat)
    requires s.Valid() && Inv(s, y)
    ensures Inv(s, Do(s, y, DeleteSpill(a, n, p)))
  {
    hide Sound, DoneWritten, WorkRight, RightAt;
    var files := y.files - {SpillPath(a.id, n, p)};
    assert Keeps(y.files, files);
    WorkKept(s, y, files, y.coord);
    DoneWrittenKept(s, y.coord, y.files, files);
  }

  lemma BreakInv(s: Setup, y: System, a: Attempt)
    requires s.Valid() && Inv(s, y)
    ensures Inv(s, Do(s, y, Break(a)))
  {
    hide Sound, FilesRight, DoneWritten, AllDone, MapWritten, SpilledRuns;
    assert a in y.work ==> WorkRight(s, y.files, y.coord, a, y.work[a]);
  }

  lemma ExtendsDone(c: Coord, d: Coord)
    requires Extends(c, d)
    ensures (AllDone(c.maps) ==> AllDone(d.maps)) && (AllDone(c.reduces) ==> AllDone(d.reduces))
  {
    if AllDone(c.maps) {
      forall t | t in d.maps ensures t.state.Done? {
        var i :| 0 <= i < |d.maps| && d.maps[i] == t;
        assert c.maps[i] in c.maps;
      }
    }
    if AllDone(c.reduces) {
      forall t | t in d.reduces ensures t.state.Done? {
        var i :| 0 <= i < |d.reduces| && d.reduces[i] == t;
        assert c.reduces[i] in c.reduces;
      }
    }
  }

  /** A coordinator step that finishes nothing and issues nothing. */
  lemma QuietInv(s: Setup, y: System, c: Coord, now: int)
    requires Inv(s, y) && SameLog(y.coord, c) && Sound(c, s.cfg, y.accepted)
    ensures Inv(s, y.(coord := c, now := now))
  {
    WorkKept(s, y, y.files, c);
  }

  lemma AskInv(s: Setup, y: System, w: WorkerId, delay: nat)
    requires s.Valid() && Inv(s, y)
    ensures Inv(s, Do(s, y, Ask(w, delay)))
  {
    hide InPhase, Budgeted, Recorded, FilesRight, MapWritten, Request, AllDone, SpilledRuns;
    var now := y.now + delay;
    var (c, reply) := Request(y.coord, s.cfg, w, now);
    RequestSound(y.coord, s.cfg, w, now, y.accepted);
    RequestExtends(y.coord, s.cfg, w, now);
    RequestFinishesNothing(y.coord, s.cfg, w, now);
    ExtendsDone(y.coord, c);
    WorkKept(s, y, y.files, c);
    if reply.Assigned? {
      AssignmentIsDue(y.coord, s.cfg, w, now);
    }
  }

  lemma DeliverInv(s: Setup, y: System, a: Attempt, elapsed: int, counters: map<string, int>, delay: nat)
    requires s.Valid() && Inv(s, y) && a in y.work && (y.work[a].Finished? || y.work[a].Broken?)
    ensures Inv(s, Do(s, y, Deliver(a, elapsed, counters, delay)))
  {
    hide Sound, FilesRight, MapWritten, ReportTask, AllDone, SpilledRuns;
    var r := ReportOf(a, y.work[a], elapsed, counters);
    var now := y.now + delay;
    assert WorkRight(s, y.files, y.coord, a, y.work[a]);
    ReportSound(y.coord, s.cfg, y.accepted, r, now);
    ReportExtends(y.coord, s.cfg, r, now);
    var c := ReportTask(y.coord, s.cfg, r, now).0;
    ExtendsDone(y.coord, c);
    WorkKept(s, y, y.files, c);
    ReportedOnly(y.coord, s.cfg, r, now);
    ReportWritten(s, y, c, r);
  }

  /** A task is done only after the attempt that reported it has written its files. */
  lemma ReportWritten(s: Setup, y: System, c: Coord, r: Report)
    requires DoneWritten(s, y.coord, y.files) && Extends(y.coord, c)
    requires FinishesOnly(y.coord, c, r)
    requires r.success && 0 <= r.id ==>
               if r.kind.MapKind? then MapWritten(s, y.files, r.id, s.numReducers) else OutputPath(r.id) in y.files
    ensures DoneWritten(s, c, y.files)
  {
    hide MapWritten;
    forall t | 0 <= t < |c.maps| && c.maps[t].state.Done? ensures MapWritten(s, y.files, t, s.numReducers) {
      assert c.Tasks(MapKind)[t].state.Done?;
    }
    forall t | 0 <= t < |c.reduces| && c.reduces[t].state.Done? ensures OutputPath(t) in y.files {
      assert c.Tasks(ReduceKind)[t].state.Done?;
    }
  }

  lemma StepInv(s: Setup, y: System, action: Action)
    requires s.Valid() && Inv(s, y)
    ensures Inv(s, Do(s, y, action))
  {
    hide Sound, SameLog, FilesRight, DoneWritten, AllWorkRight;
    match action
    case Join(delay) =>
      RegisterSound(y.coord, s.cfg, y.now + delay, y.accepted);
      QuietInv(s, y, Register(y.coord, y.now + delay).0, y.now + delay);
    case Beat(w, delay) =>
      TouchSound(y.coord, s.cfg, w, y.now + delay, y.accepted);
      QuietInv(s, y, Touch(y.coord, w, y.now + delay), y.now + delay);
    case Sweep(delay) =>
      ReclaimSound(y.coord, s.cfg, y.now + delay, y.accepted);
      QuietInv(s, y, Reclaim(y.coord, s.cfg, y.now + delay), y.now + delay);
    case Ask(w, delay) => AskInv(s, y, w, delay);
    case Advance(a) => if a in y.work { AdvanceInv(s, y, a); }
    case DeleteSpill(a, n, p) => DeleteInv(s, y, a, n, p);
    case Break(a) => BreakInv(s, y, a);
    case Deliver(a, elapsed, counters, delay) =>
      if a in y.work && (y.work[a].Finished? || y.work[a].Broken?) {
        DeliverInv(s, y, a, elapsed, counters, delay);
      }
  }

  /** Every reachable state is right, under every schedule. */
  lemma {:induction false} ReachableInv(s: Setup, actions: seq<Action>)
    requires s.Valid()
    ensures Inv(s, After(s, actions))
  {
    if actions == [] {
      StartInv(s);
    } else {
      var n := |actions| - 1;
      ReachableInv(s, actions[..n]);
      StepInv(s, After(s, actions[..n]), actions[n]);
    }
  }

  // ----- what that means for a run -----

  /** Finished tasks stay finished, the outcome stays decided, and no output or final map file disappears. */
  ghost predicate Onward(y: System, z: System) {
    Extends(y.coord, z.coord) && Keeps(y.files, z.files)
  }

  lemma AdvanceKeeps(s: Setup, files: Files, a: Attempt, w: Work)
    ensures Keeps(files, WorkStep(s, files, a, w).0)
  {
  }

  lemma StepOnward(s: Setup, y: System, action: Action)
    requires s.Valid() && Inv(s, y)
    ensures Onward(y, Do(s, y, action))
  {
    hide FilesRight, DoneWritten, AllWorkRight, Budgeted, Recorded, WorkStep, Request, ReportTask, InPhase;
    match action
    case Join(delay) =>
    case Beat(w, delay) =>
    case Sweep(delay) => ReclaimExtends(y.coord, s.cfg, y.now + delay);
    case Ask(w, delay) => RequestExtends(y.coord, s.cfg, w, y.now + delay);
    case Advance(a) => if a in y.work { AdvanceKeeps(s, y.files, a, y.work[a]); }
    case DeleteSpill(a, n, p) =>
    case Break(a) =>
    case Deliver(a, elapsed, counters, delay) =>
      if a in y.work { ReportExtends(y.coord, s.cfg, ReportOf(a, y.work[a], elapsed, counters), y.now + delay); }
  }

  lemma OnwardTransitive(x: System, y: System, z: System)
    requires Onward(x, y) && Onward(y, z)
    ensures Onward(x, z)
  {
  }

  lemma {:induction false} RunOnward(s: Setup, actions: seq<Action>, more: seq<Action>)
    requires s.Valid()
    ensures Onward(After(s, actions), After(s, actions + more))
  {
    hide Inv, Do;
    if more == [] {
      assert actions + more == actions;
    } else {
      var n := |more| - 1;
      var all := actions + more;
      assert all[..|all| - 1] == actions + more[..n];
      RunOnward(s, actions, more[..n]);
      ReachableInv(s, actions + more[..n]);
      StepOnward(s, After(s, actions + more[..n]), more[n]);
      hide Onward;
      OnwardTransitive(After(s, actions), After(s, actions + more[..n]), After(s, all));
    }
  }

  /** A done map task's files are all there with their reference content, and stay so. */
  lemma MapFilesComplete(s: Setup, actions: seq<Action>, more: seq<Action>, t: nat, p: nat)
    requires s.Valid() && t < |s.inputs| && p < s.numReducers
    requires var c := After(s, actions).coord; t < |c.maps| && c.maps[t].state.Done?
    ensures var files := After(s, actions + more).files;
            IntermediatePath(t, p) in files && files[IntermediatePath(t, p)] == MapText(s, t, p)
  {
    hide After, Sound, AllWorkRight;
    ReachableInv(s, actions);
    ReachableInv(s, actions + more);
    RunOnward(s, actions, more);
    var path := IntermediatePath(t, p);
    assert MapWritten(s, After(s, actions).files, t, s.numReducers);
    assert Lasting(path);
    assert RightAt(s, path, After(s, actions + more).files[path]);
  }

  /** A reduce attempt finds every map file it opens: the branch that skips a missing file is never taken. */
  lemma NoMissingFile(s: Setup, actions: seq<Action>, a: Attempt)
    requires s.Valid() && a.kind.ReduceKind? && a in After(s, actions).work
    ensures var y := After(s, actions);
            y.work[a].Gathering? && y.work[a].next < |s.inputs| ==>
              var path := IntermediatePath(y.work[a].next, a.id);
              path in y.files && y.files[path] == MapText(s, y.work[a].next, a.id)
  {
    hide After, Sound, MapFile, FilesRight, DoneWritten;
    ReachableInv(s, actions);
    var y := After(s, actions);
    assert WorkRight(s, y.files, y.coord, a, y.work[a]);
    if y.work[a].Gathering? && y.work[a].next < |s.inputs| {
      MapFilePresent(s, y.coord, y.files, y.work[a].next, a.id);
    }
  }

  /** Once the phase is "done" it stays so, and every output file is there with its reference content. */
  lemma FinishedJobIsRight(s: Setup, actions: seq<Action>, more: seq<Action>, r: nat)
    requires s.Valid() && r < s.numReducers && After(s, actions).coord.phase.DonePhase?
    ensures var z := After(s, actions + more);
            && z.coord.phase.DonePhase? && !z.coord.jobErr
            && OutputPath(r) in z.files && z.files[OutputPath(r)] == OutputText(s, r)
  {
    hide After, AllWorkRight, Output, MapWritten;
    ReachableInv(s, actions);
    ReachableInv(s, actions + more);
    RunOnward(s, actions, more);
    var y := After(s, actions);
    assert y.coord.reduces[r] in y.coord.reduces;
    assert Lasting(OutputPath(r));
    assert RightAt(s, OutputPath(r), After(s, actions + more).files[OutputPath(r)]);
  }

  /** Every output file of a finished job reads as records whose keys are in dictionary order. */
  lemma FinishedOutputRises(s: Setup, actions: seq<Action>, r: nat)
    requires s.Valid() && r < s.numReducers && After(s, actions).coord.phase.DonePhase?
    ensures var files := After(s, actions).files;
            && OutputPath(r) in files
            && !Decode(files[OutputPath(r)]).broken && KeysRise(Decode(files[OutputPath(r)]).records)
  {
    hide After, Output, Decode;
    FinishedJobIsRight(s, actions, [], r);
    assert actions + [] == actions;
    DecodeEncode(Output(s.job, s.inputs, s.limit, r, s.numReducers));
    FilesRise(s.job, s.inputs, s.limit, r, s.numReducers);
  }

  /**
   * A finished job has reduced every key to the reference answer, in the key's own output file, unless the
   * combiner made the key vanish and Reduce makes something of nothing.
   */
  lemma FinishedJobAnswers(s: Setup, actions: seq<Action>, k: string)
    requires s.Valid() && OrderFree(s.job) && CombinerAgrees(s.job)
    requires After(s, actions).coord.phase.DonePhase?
    ensures var r := s.job.partition(k, s.numReducers);
            var files := After(s, actions).files;
            && OutputPath(r) in files
            && (Values(Decode(files[OutputPath(r)]).records, k) == Answer(s.job, Flatten(s.inputs), k)
                <==> (Vanishes(s.job, s.inputs, s.limit, k) ==> s.job.reduce(k, []) == []))
  {
    hide After, Output, Answer, Vanishes;
    var r := s.job.partition(k, s.numReducers);
    FinishedJobIsRight(s, actions, [], r);
    assert actions + [] == actions;
    DecodeEncode(Output(s.job, s.inputs, s.limit, r, s.numReducers));
    ResultsAreAnswer(s.job, s.inputs, s.limit, s.numReducers, k);
  }

  /** The outcome is set once: "done" exactly when every task is done and the job was not aborted. */
  lemma OutcomeIsFinal(s: Setup, actions: seq<Action>, more: seq<Action>)
    requires s.Valid()
    ensures var c, d := After(s, actions).coord, After(s, actions + more).coord;
            && (c.phase.DonePhase? <==> AllDone(c.maps) && AllDone(c.reduces) && !c.jobErr)
            && (c.closed ==> d.phase == c.phase && d.jobErr == c.jobErr)
            && StaysDone(c.maps, d.maps) && StaysDone(c.reduces, d.reduces)
  {
    hide After, AllWorkRight, FilesRight, Budgeted, Recorded;
    ReachableInv(s, actions);
    RunOnward(s, actions, more);
  }

  /** No reduce attempt exists while a map task is unfinished. */
  lemma ReduceWaitsForMaps(s: Setup, actions: seq<Action>, a: Attempt)
    requires s.Valid() && a in After(s, actions).work && a.kind.ReduceKind?
    ensures AllDone(After(s, actions).coord.maps)
  {
    hide After, Sound, MapWorkRight, ReduceWorkRight, FilesRight, DoneWritten;
    ReachableInv(s, actions);
    var y := After(s, actions);
    assert WorkRight(s, y.files, y.coord, a, y.work[a]);
  }

  /**
   * The job's counters are the totals over the accepted reports, and there is exactly one of those for each
   * done task and none for any other.
   */
  lemma CountersAreAccepted(s: Setup, actions: seq<Action>, name: string)
    requires s.Valid()
    ensures var y := After(s, actions);
            Count(y.coord.counters, name) == Total(y.accepted, name) && Logged(y.coord, y.accepted)
  {
    hide After, Logged, Timed, Total;
    ReachableInv(s, actions);
  }

  /** How many attempts any run can make. */
  lemma RunBounds(s: Setup, actions: seq<Action>)
    requires s.Valid()
    ensures var c := After(s, actions).coord;
            var tasks := |s.inputs| + s.numReducers;
            && Both(c, AttemptOf) <= tasks + Both(c, FailuresOf) + c.reassignments + c.backupsLaunched
            && c.backupsLaunched <= tasks + c.reassignments
            && (s.cfg.maxAttempts > 0 && !c.jobErr ==>
                  Both(c, AttemptOf) <= tasks * (s.cfg.maxAttempts + 1) + 2 * c.reassignments)
  {
    hide After, AllWorkRight, FilesRight, Budgeted;
    ReachableInv(s, actions);
    AttemptBounds(After(s, actions).coord, s.cfg);
  }
}
