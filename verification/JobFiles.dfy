/** The intermediate and output files of a job, and the answer they amount to. */
module JobFiles {
  import opened Base
  import opened Text
  import opened Records
  import opened StableSorting
  import opened Pipeline

  // ----- the mapper's buffer -----

  /** Bytes of a character in UTF-8. */
  function Width(c: char): nat {
    var n := c as int;
    if n < 0x80 then 1 else if n < 0x800 then 2 else if n < 0x10000 then 3 else 4
  }

  function TextBytes(s: string): nat {
    if s == [] then 0 else Width(s[0]) + TextBytes(s[1..])
  }

  function RecordBytes(r: Record): nat {
    TextBytes(r.key) + TextBytes(r.value) + 2
  }

  function Bytes(s: seq<Record>): nat {
    if s == [] then 0 else Bytes(s[..|s| - 1]) + RecordBytes(s[|s| - 1])
  }

  /** The buffers spilled so far and the one being filled. */
  datatype Buffers = Buffers(full: seq<seq<Record>>, open: seq<Record>)

  /** A buffer is spilled after the first input line that brings it to the limit. */
  function Fill(batches: seq<seq<Record>>, limit: nat): Buffers {
    if batches == [] then Buffers([], []) else
    var n := |batches| - 1;
    Close(Fill(batches[..n], limit), batches[n], limit)
  }

  function Close(b: Buffers, batch: seq<Record>, limit: nat): Buffers {
    if Bytes(b.open + batch) >= limit then Buffers(b.full + [b.open + batch], [])
    else Buffers(b.full, b.open + batch)
  }

  /** The sorted runs a map task ends up with: one when nothing was spilled. */
  function Runs(b: Buffers): (r: seq<seq<Record>>)
    ensures r != [] && Flatten(r) == Flatten(b.full) + b.open
  {
    if b.full != [] && b.open == [] then
      assert Flatten(b.full) + b.open == Flatten(b.full);
      b.full
    else
      FlattenAppend(b.full, [b.open]);
      b.full + [b.open]
  }

  lemma {:induction false} FlattenAppend<T>(a: seq<seq<T>>, b: seq<seq<T>>)
    ensures Flatten(a + b) == Flatten(a) + Flatten(b)
  {
    if a == [] {
      assert a + b == b;
    } else {
      assert (a + b)[1..] == a[1..] + b;
      FlattenAppend(a[1..], b);
    }
  }

  /** The first `n` lines bring the buffer to the limit, and no fewer do. */
  predicate FirstFull(batches: seq<seq<Record>>, limit: nat, n: nat) {
    && 0 < n <= |batches|
    && Bytes(Flatten(batches[..n])) >= limit
    && NotFull(batches[..n - 1], limit)
  }

  predicate NotFull(batches: seq<seq<Record>>, limit: nat) {
    forall i | 0 < i <= |batches| :: Bytes(Flatten(batches[..i])) < limit
  }

  /** Below the limit nothing is spilled. */
  lemma {:induction false} FillBelow(batches: seq<seq<Record>>, limit: nat)
    requires NotFull(batches, limit)
    ensures Fill(batches, limit) == Buffers([], Flatten(batches))
  {
    if batches != [] {
      var n := |batches| - 1;
      forall i | 0 < i <= n ensures Bytes(Flatten(batches[..n][..i])) < limit {
        assert batches[..n][..i] == batches[..i];
      }
      FillBelow(batches[..n], limit);
      assert batches[..n + 1] == batches == batches[..n] + [batches[n]];
      FlattenAppend(batches[..n], [batches[n]]);
      assert Flatten([batches[n]]) == batches[n];
    }
  }

  lemma FillLast(init: seq<seq<Record>>, batch: seq<Record>, limit: nat)
    ensures Fill(init + [batch], limit) == Close(Fill(init, limit), batch, limit)
  {
    assert (init + [batch])[..|init|] == init;
  }

  lemma CloseAfter(first: seq<Record>, b: Buffers, batch: seq<Record>, limit: nat)
    ensures var c := Close(b, batch, limit);
            Close(Buffers([first] + b.full, b.open), batch, limit) == Buffers([first] + c.full, c.open)
  {
    assert [first] + b.full + [b.open + batch] == [first] + (b.full + [b.open + batch]);
  }

  /** The lines that bring the buffer to the limit for the first time, and no more. */
  lemma FillFirst(batches: seq<seq<Record>>, limit: nat)
    requires FirstFull(batches, limit, |batches|)
    ensures Fill(batches, limit) == Buffers([Flatten(batches)], [])
  {
    var n := |batches| - 1;
    var init := batches[..n];
    assert batches[..n + 1] == batches == init + [batches[n]];
    FillBelow(init, limit);
    FillLast(init, batches[n], limit);
    FlattenAppend(init, [batches[n]]);
    assert Flatten([batches[n]]) == batches[n];
  }

  /** The lines that first bring the buffer to the limit are spilled together, and filling starts over after them. */
  lemma {:induction false} FillSpills(batches: seq<seq<Record>>, limit: nat, n: nat)
    requires FirstFull(batches, limit, n)
    ensures var rest := Fill(batches[n..], limit);
            Fill(batches, limit) == Buffers([Flatten(batches[..n])] + rest.full, rest.open)
    decreases |batches|
  {
    var last := |batches| - 1;
    if n <= last {
      var init := batches[..last];
      assert init[..n] == batches[..n] && init[..n - 1] == batches[..n - 1];
      FillSpills(init, limit, n);
      hide Fill, Close, FirstFull;
      assert batches == init + [batches[last]] && batches[n..] == init[n..] + [batches[last]];
      FillLast(init, batches[last], limit);
      FillLast(init[n..], batches[last], limit);
      CloseAfter(Flatten(batches[..n]), Fill(init[n..], limit), batches[last], limit);
    } else {
      assert batches[..n] == batches && batches[n..] == [];
      FillFirst(batches, limit);
    }
  }

  lemma {:induction false} TextBytesAppend(s: string, t: string)
    ensures TextBytes(s + t) == TextBytes(s) + TextBytes(t)
  {
    if s == [] {
      assert s + t == t;
    } else {
      assert (s + t)[1..] == s[1..] + t;
      TextBytesAppend(s[1..], t);
    }
  }

  /** A record counts as the bytes of its key, a tab, its value and a line feed. */
  lemma RecordBytesAre(r: Record)
    ensures RecordBytes(r) == TextBytes(r.key + "\t" + r.value + "\n")
  {
    TextBytesAppend(r.key + "\t" + r.value, "\n");
    TextBytesAppend(r.key + "\t", r.value);
    TextBytesAppend(r.key, "\t");
    assert TextBytes("\t") == 1 && TextBytes("\n") == 1;
  }

  /** Every emitted record is in exactly one run, in the order it was emitted. */
  lemma {:induction false} FillKeepsAll(batches: seq<seq<Record>>, limit: nat)
    ensures var b := Fill(batches, limit); Flatten(b.full) + b.open == Flatten(batches)
  {
    if batches != [] {
      var n := |batches| - 1;
      FillKeepsAll(batches[..n], limit);
      assert batches == batches[..n] + [batches[n]];
      FlattenAppend(batches[..n], [batches[n]]);
      CloseKeepsAll(Fill(batches[..n], limit), batches[n], limit);
    }
  }

  lemma CloseKeepsAll(b: Buffers, batch: seq<Record>, limit: nat)
    ensures var c := Close(b, batch, limit); Flatten(c.full) + c.open == Flatten(b.full) + b.open + batch
  {
    FlattenAppend(b.full, [b.open + batch]);
    assert Flatten([b.open + batch]) == b.open + batch;
    assert Flatten(b.full) + (b.open + batch) == Flatten(b.full) + b.open + batch;
  }

  // ----- file contents -----

  datatype Line = Line(path: string, text: string)

  function Emitted(job: Job, lines: seq<Line>): (e: seq<seq<Record>>)
    ensures |e| == |lines|
  {
    seq(|lines|, i requires 0 <= i < |lines| => job.mapLine(lines[i].path, lines[i].text))
  }

  function Combined(job: Job, s: seq<Record>): seq<Record> {
    match job.combine
    case None => s
    case Some(c) => Apply(c, Groups(s))
  }

  /** What one spill writes for one partition. */
  function RunFile(job: Job, run: seq<Record>, p: nat, numReducers: nat): seq<Record> {
    Combined(job, Part(job, SortRecords(run), p, numReducers))
  }

  function RunFiles(job: Job, runs: seq<seq<Record>>, p: nat, numReducers: nat): (f: seq<seq<Record>>)
    ensures |f| == |runs|
  {
    seq(|runs|, i requires 0 <= i < |runs| => RunFile(job, runs[i], p, numReducers))
  }

  /** The final file for one partition, given what Map emitted for each line. */
  function BatchFile(job: Job, batches: seq<seq<Record>>, limit: nat, p: nat, numReducers: nat): seq<Record> {
    var b := Fill(batches, limit);
    if b.full == [] then RunFile(job, b.open, p, numReducers)
    else StableSort(Flatten(RunFiles(job, Runs(b), p, numReducers)))
  }

  /** A map task's final file for one partition. */
  function MapFile(job: Job, lines: seq<Line>, limit: nat, p: nat, numReducers: nat): seq<Record> {
    BatchFile(job, Emitted(job, lines), limit, p, numReducers)
  }

  function MapFiles(job: Job, tasks: seq<seq<Line>>, limit: nat, p: nat, numReducers: nat): (f: seq<seq<Record>>)
    ensures |f| == |tasks|
  {
    seq(|tasks|, m requires 0 <= m < |tasks| => MapFile(job, tasks[m], limit, p, numReducers))
  }

  /** What a reduce task writes, given the map files of its partition. */
  function ReduceFile(job: Job, files: seq<seq<Record>>): seq<Record> {
    Apply(job.reduce, Groups(StableSort(Flatten(files))))
  }

  function Output(job: Job, tasks: seq<seq<Line>>, limit: nat, r: nat, numReducers: nat): seq<Record> {
    ReduceFile(job, MapFiles(job, tasks, limit, r, numReducers))
  }

  /** A key's final results in one output file. */
  function Results(job: Job, tasks: seq<seq<Line>>, limit: nat, r: nat, numReducers: nat, k: string): seq<string> {
    Values(Output(job, tasks, limit, r, numReducers), k)
  }

  /** The reference: Reduce applied to everything Map emitted for a key, in input order. */
  function Answer(job: Job, lines: seq<Line>, k: string): seq<string> {
    PerKey(job.reduce, k, Values(Flatten(Emitted(job, lines)), k))
  }

  // ----- the laws the job's functions must obey -----

  predicate OrderFreeOn(job: Job, k: string, a: seq<string>, b: seq<string>) {
    multiset(a) == multiset(b) ==> job.reduce(k, a) == job.reduce(k, b)
  }

  /** Reduce does not look at the order of the values. */
  ghost predicate OrderFree(job: Job) {
    forall k, a, b :: OrderFreeOn(job, k, a, b)
  }

  predicate CombinerAgreesOn(job: Job, k: string, a: seq<string>, b: seq<string>) {
    job.combine.Some? && a != [] ==> job.reduce(k, job.combine.value(k, a) + b) == job.reduce(k, a + b)
  }

  /** Reduce does not notice that some of the values were combined first. */
  ghost predicate CombinerAgrees(job: Job) {
    forall k, a, b :: CombinerAgreesOn(job, k, a, b)
  }

  // ----- values per key -----

  function CombinedValues(job: Job, k: string, values: seq<string>): seq<string> {
    match job.combine
    case None => values
    case Some(c) => PerKey(c, k, values)
  }

  lemma RunFileValues(job: Job, run: seq<Record>, p: nat, numReducers: nat, k: string)
    ensures KeySorted(RunFile(job, run, p, numReducers))
    ensures Values(RunFile(job, run, p, numReducers), k) ==
            if job.partition(k, numReducers) == p then CombinedValues(job, k, Values(SortRecords(run), k)) else []
  {
    var sorted := SortRecords(run);
    SortRecordsSorts(run);
    PartSorted(job, sorted, p, numReducers);
    PartValues(job, sorted, p, numReducers, k);
    match job.combine {
      case None =>
      case Some(c) => GroupedValues(c, Part(job, sorted, p, numReducers), k);
    }
  }

  /** What the runs hold for a key after combining. */
  function Contribution(job: Job, runs: seq<seq<Record>>, k: string): seq<string> {
    if runs == [] then []
    else CombinedValues(job, k, Values(SortRecords(runs[0]), k)) + Contribution(job, runs[1..], k)
  }

  lemma {:induction false} ContributionAppend(job: Job, a: seq<seq<Record>>, b: seq<seq<Record>>, k: string)
    ensures Contribution(job, a + b, k) == Contribution(job, a, k) + Contribution(job, b, k)
  {
    if a == [] {
      assert a + b == b;
    } else {
      assert (a + b)[1..] == a[1..] + b;
      ContributionAppend(job, a[1..], b, k);
    }
  }

  lemma {:induction false} RunFilesValues(job: Job, runs: seq<seq<Record>>, p: nat, numReducers: nat, k: string)
    ensures Values(Flatten(RunFiles(job, runs, p, numReducers)), k) ==
            if job.partition(k, numReducers) == p then Contribution(job, runs, k) else []
  {
    if runs != [] {
      var files := RunFiles(job, runs, p, numReducers);
      assert files[1..] == RunFiles(job, runs[1..], p, numReducers);
      RunFilesValues(job, runs[1..], p, numReducers, k);
      RunFileValues(job, runs[0], p, numReducers, k);
      ValuesAppend(files[0], Flatten(files[1..]), k);
    }
  }

  lemma MapFileValues(job: Job, lines: seq<Line>, limit: nat, p: nat, numReducers: nat, k: string)
    ensures KeySorted(MapFile(job, lines, limit, p, numReducers))
    ensures Values(MapFile(job, lines, limit, p, numReducers), k) ==
            if job.partition(k, numReducers) == p
            then Contribution(job, Runs(Fill(Emitted(job, lines), limit)), k) else []
  {
    var b := Fill(Emitted(job, lines), limit);
    if b.full == [] {
      RunFileValues(job, b.open, p, numReducers, k);
      assert Runs(b) == [b.open];
      assert Contribution(job, [b.open], k) == CombinedValues(job, k, Values(SortRecords(b.open), k));
    } else {
      RunFilesValues(job, Runs(b), p, numReducers, k);
      StableSortSorts(Flatten(RunFiles(job, Runs(b), p, numReducers)));
    }
  }

  /** All the runs of all the map tasks. */
  function AllRuns(job: Job, tasks: seq<seq<Line>>, limit: nat): seq<seq<Record>> {
    if tasks == [] then [] else Runs(Fill(Emitted(job, tasks[0]), limit)) + AllRuns(job, tasks[1..], limit)
  }

  lemma {:induction false} MapFilesValues(job: Job, tasks: seq<seq<Line>>, limit: nat, p: nat, numReducers: nat,
                                          k: string)
    ensures Values(Flatten(MapFiles(job, tasks, limit, p, numReducers)), k) ==
            if job.partition(k, numReducers) == p then Contribution(job, AllRuns(job, tasks, limit), k) else []
  {
    if tasks != [] {
      var files := MapFiles(job, tasks, limit, p, numReducers);
      assert files[1..] == MapFiles(job, tasks[1..], limit, p, numReducers);
      MapFilesValues(job, tasks[1..], limit, p, numReducers, k);
      MapFileValues(job, tasks[0], limit, p, numReducers, k);
      ValuesAppend(files[0], Flatten(files[1..]), k);
      ContributionAppend(job, Runs(Fill(Emitted(job, tasks[0]), limit)), AllRuns(job, tasks[1..], limit), k);
    }
  }

  lemma {:induction false} EmittedAppend(job: Job, a: seq<Line>, b: seq<Line>)
    ensures Emitted(job, a + b) == Emitted(job, a) + Emitted(job, b)
  {
  }

  lemma {:induction false} AllRunsHoldAll(job: Job, tasks: seq<seq<Line>>, limit: nat)
    ensures Flatten(AllRuns(job, tasks, limit)) == Flatten(Emitted(job, Flatten(tasks)))
  {
    if tasks != [] {
      AllRunsHoldAll(job, tasks[1..], limit);
      FillKeepsAll(Emitted(job, tasks[0]), limit);
      FlattenAppend(Runs(Fill(Emitted(job, tasks[0]), limit)), AllRuns(job, tasks[1..], limit));
      EmittedAppend(job, tasks[0], Flatten(tasks[1..]));
      FlattenAppend(Emitted(job, tasks[0]), Emitted(job, Flatten(tasks[1..])));
    }
  }

  /** An output file holds each of its keys' results, reduced once, and no other key. */
  lemma OutputResults(job: Job, tasks: seq<seq<Line>>, limit: nat, r: nat, numReducers: nat, k: string)
    ensures Results(job, tasks, limit, r, numReducers, k) ==
            if job.partition(k, numReducers) == r
            then PerKey(job.reduce, k, Contribution(job, AllRuns(job, tasks, limit), k)) else []
    ensures KeySorted(Output(job, tasks, limit, r, numReducers))
    ensures StrictKeys(Groups(StableSort(Flatten(MapFiles(job, tasks, limit, r, numReducers)))))
  {
    var files := MapFiles(job, tasks, limit, r, numReducers);
    MapFilesValues(job, tasks, limit, r, numReducers, k);
    StableSortSorts(Flatten(files));
    GroupedValues(job.reduce, StableSort(Flatten(files)), k);
  }

  /** Map files and output files hold their keys in dictionary order, and each key is reduced once. */
  lemma FilesRise(job: Job, tasks: seq<seq<Line>>, limit: nat, p: nat, numReducers: nat)
    ensures KeysRise(Output(job, tasks, limit, p, numReducers))
    ensures forall m | 0 <= m < |tasks| :: KeysRise(MapFile(job, tasks[m], limit, p, numReducers))
    ensures var g := Groups(StableSort(Flatten(MapFiles(job, tasks, limit, p, numReducers))));
            forall i, j | 0 <= i < j < |g| :: Precedes(g[i].key, g[j].key)
  {
    OutputResults(job, tasks, limit, p, numReducers, []);
    KeySortedRises(Output(job, tasks, limit, p, numReducers));
    forall m | 0 <= m < |tasks| ensures KeysRise(MapFile(job, tasks[m], limit, p, numReducers)) {
      MapFileValues(job, tasks[m], limit, p, numReducers, []);
      KeySortedRises(MapFile(job, tasks[m], limit, p, numReducers));
    }
    var g := Groups(StableSort(Flatten(MapFiles(job, tasks, limit, p, numReducers))));
    forall i, j | 0 <= i < j < |g| ensures Precedes(g[i].key, g[j].key) {
      LessIsPrecedes(g[i].key, g[j].key);
    }
  }

  // ----- the answer -----

  /** Reducing combined runs gives what reducing the raw values gives. */
  lemma {:induction false} ReducedContribution(job: Job, runs: seq<seq<Record>>, k: string, tail: seq<string>)
    requires OrderFree(job) && CombinerAgrees(job)
    ensures job.reduce(k, Contribution(job, runs, k) + tail) == job.reduce(k, Values(Flatten(runs), k) + tail)
  {
    if runs != [] {
      var sorted, raw := Values(SortRecords(runs[0]), k), Values(runs[0], k);
      var later, rest := Contribution(job, runs[1..], k), Values(Flatten(runs[1..]), k);
      SortedValues(runs[0], k);
      ValuesAppend(runs[0], Flatten(runs[1..]), k);
      var combined := CombinedValues(job, k, sorted);
      Associate(combined, later, tail);
      Associate(raw, rest, tail);
      ReducedHead(job, k, sorted, raw, later + tail);
      ReducedContribution(job, runs[1..], k, raw + tail);
      Shuffle(job, k, raw, later, tail);
      Shuffle(job, k, raw, rest, tail);
    }
  }

  lemma SortedValues(run: seq<Record>, k: string)
    ensures multiset(Values(SortRecords(run), k)) == multiset(Values(run, k))
  {
    SortRecordsSorts(run);
    ValuesDependOnRecords(SortRecords(run), run, k);
  }

  lemma Shuffle(job: Job, k: string, a: seq<string>, b: seq<string>, c: seq<string>)
    requires OrderFree(job)
    ensures job.reduce(k, a + (b + c)) == job.reduce(k, b + (a + c))
  {
    assert OrderFreeOn(job, k, a + (b + c), b + (a + c));
  }

  /** One run's combined values may be replaced by the raw ones under Reduce. */
  lemma ReducedHead(job: Job, k: string, sorted: seq<string>, raw: seq<string>, rest: seq<string>)
    requires OrderFree(job) && CombinerAgrees(job) && multiset(sorted) == multiset(raw)
    ensures job.reduce(k, CombinedValues(job, k, sorted) + rest) == job.reduce(k, raw + rest)
  {
    SameBagSameLength(sorted, raw);
    assert CombinerAgreesOn(job, k, sorted, rest) && OrderFreeOn(job, k, sorted + rest, raw + rest);
  }

  /** The key occurs in the input but every combined run dropped it. */
  predicate Vanishes(job: Job, tasks: seq<seq<Line>>, limit: nat, k: string) {
    && Values(Flatten(Emitted(job, Flatten(tasks))), k) != []
    && Contribution(job, AllRuns(job, tasks, limit), k) == []
  }

  /**
   * A job's results for a key are the reference answer, for every spill limit and every number of map and
   * reduce tasks, exactly unless the combiner drops the key and Reduce of nothing is something.
   */
  lemma ResultsAreAnswer(job: Job, tasks: seq<seq<Line>>, limit: nat, numReducers: nat, k: string)
    requires OrderFree(job) && CombinerAgrees(job) && Routes(job) && numReducers > 0
    ensures Results(job, tasks, limit, job.partition(k, numReducers), numReducers, k) == Answer(job, Flatten(tasks), k)
            <==> (Vanishes(job, tasks, limit, k) ==> job.reduce(k, []) == [])
    ensures forall r | r != job.partition(k, numReducers) :: Results(job, tasks, limit, r, numReducers, k) == []
  {
    var runs := AllRuns(job, tasks, limit);
    var got, raw := Contribution(job, runs, k), Values(Flatten(runs), k);
    AllRunsHoldAll(job, tasks, limit);
    ReducedContribution(job, runs, k, []);
    assert got + [] == got && raw + [] == raw;
    OutputResults(job, tasks, limit, job.partition(k, numReducers), numReducers, k);
    if raw == [] {
      NothingContributed(job, runs, k);
    }
    forall r | r != job.partition(k, numReducers) ensures Results(job, tasks, limit, r, numReducers, k) == [] {
      OutputResults(job, tasks, limit, r, numReducers, k);
    }
  }

  lemma {:induction false} NothingContributed(job: Job, runs: seq<seq<Record>>, k: string)
    requires Values(Flatten(runs), k) == []
    ensures Contribution(job, runs, k) == []
  {
    if runs != [] {
      ValuesAppend(runs[0], Flatten(runs[1..]), k);
      SortedValues(runs[0], k);
      assert |multiset(Values(SortRecords(runs[0]), k))| == 0;
      NothingContributed(job, runs[1..], k);
    }
  }

  lemma {:induction false} EmittedBag(job: Job, a: seq<Line>, b: seq<Line>)
    requires multiset(a) == multiset(b)
    ensures multiset(Flatten(Emitted(job, a))) == multiset(Flatten(Emitted(job, b)))
  {
    SameBagSameLength(a, b);
    if a != [] {
      var j := FindInBag(a, b, 0);
      TailBag(a);
      RemoveAtBag(b, j);
      EmittedBag(job, a[1..], RemoveAt(b, j));
      assert Emitted(job, a)[1..] == Emitted(job, a[1..]);
      EmittedAppend(job, b[..j], b[j + 1..]);
      FlattenAppend(Emitted(job, b[..j]), Emitted(job, b[j + 1..]));
      FlattenSplit(Emitted(job, b), j);
      assert Emitted(job, b)[..j] == Emitted(job, b[..j]);
      assert Emitted(job, b)[j + 1..] == Emitted(job, b[j + 1..]);
    }
  }

  /** The answer does not depend on how the input is dealt out. */
  lemma AnswerOrderFree(job: Job, a: seq<Line>, b: seq<Line>, k: string)
    requires OrderFree(job) && multiset(a) == multiset(b)
    ensures Answer(job, a, k) == Answer(job, b, k)
  {
    EmittedBag(job, a, b);
    ValuesDependOnRecords(Flatten(Emitted(job, a)), Flatten(Emitted(job, b)), k);
    var v, w := Values(Flatten(Emitted(job, a)), k), Values(Flatten(Emitted(job, b)), k);
    SameBagSameLength(v, w);
    assert OrderFreeOn(job, k, v, w);
  }

  /** The combiner never turns a key's values into nothing, or Reduce makes nothing of nothing. */
  ghost predicate KeepsKeys(job: Job) {
    forall k :: job.reduce(k, []) == [] || CombinerKeeps(job, k)
  }

  ghost predicate CombinerKeeps(job: Job, k: string) {
    job.combine.Some? ==> forall values | values != [] :: job.combine.value(k, values) != []
  }

  lemma {:induction false} KeptContribution(job: Job, runs: seq<seq<Record>>, k: string)
    requires CombinerKeeps(job, k) && Contribution(job, runs, k) == []
    ensures Values(Flatten(runs), k) == []
  {
    if runs != [] {
      KeptContribution(job, runs[1..], k);
      ValuesAppend(runs[0], Flatten(runs[1..]), k);
      SortedValues(runs[0], k);
      SameBagSameLength(Values(SortRecords(runs[0]), k), Values(runs[0], k));
    }
  }

  lemma KeptKeysDoNotVanish(job: Job, tasks: seq<seq<Line>>, limit: nat, k: string)
    requires KeepsKeys(job)
    ensures Vanishes(job, tasks, limit, k) ==> job.reduce(k, []) == []
  {
    if Vanishes(job, tasks, limit, k) && CombinerKeeps(job, k) {
      AllRunsHoldAll(job, tasks, limit);
      KeptContribution(job, AllRuns(job, tasks, limit), k);
    }
  }

  /** Two ways of running the same job, with or without its combiner, give every key the same results. */
  lemma SameResults(job: Job, combine: Option<(string, seq<string>) -> seq<string>>,
                    tasksA: seq<seq<Line>>, limitA: nat, reducersA: nat,
                    tasksB: seq<seq<Line>>, limitB: nat, reducersB: nat, k: string)
    requires Routes(job) && reducersA > 0 && reducersB > 0
    requires OrderFree(job) && CombinerAgrees(job) && KeepsKeys(job)
    requires var other := job.(combine := combine); CombinerAgrees(other) && KeepsKeys(other)
    requires multiset(Flatten(tasksA)) == multiset(Flatten(tasksB))
    ensures var other := job.(combine := combine);
            Results(job, tasksA, limitA, job.partition(k, reducersA), reducersA, k) ==
            Results(other, tasksB, limitB, job.partition(k, reducersB), reducersB, k)
  {
    var other := job.(combine := combine);
    assert OrderFree(other) by {
      forall q, a, b ensures OrderFreeOn(other, q, a, b) {
        assert OrderFreeOn(job, q, a, b);
      }
    }
    assert Routes(other);
    KeptKeysDoNotVanish(job, tasksA, limitA, k);
    KeptKeysDoNotVanish(other, tasksB, limitB, k);
    ResultsAreAnswer(job, tasksA, limitA, reducersA, k);
    ResultsAreAnswer(other, tasksB, limitB, reducersB, k);
    AnswerOrderFree(job, Flatten(tasksA), Flatten(tasksB), k);
    assert Emitted(other, Flatten(tasksB)) == Emitted(job, Flatten(tasksB));
  }

  // ----- a combiner that drops a key -----

  function EchoLine(path: string, text: string): seq<Record> {
    [Record("k", text)]
  }

  function SawOne(k: string, values: seq<string>): seq<string> {
    if "1" in values then ["1"] else ["0"]
  }

  function KeepOnes(k: string, values: seq<string>): seq<string> {
    if "1" in values then ["1"] else []
  }

  function OnePart(k: string, numReducers: nat): nat {
    0
  }

  const DROPPING := Job(EchoLine, SawOne, Some(KeepOnes), OnePart)

  const ZERO := Record("k", "0")

  lemma DroppingObeysLaws()
    ensures OrderFree(DROPPING) && CombinerAgrees(DROPPING) && Routes(DROPPING)
  {
    forall k, a, b ensures OrderFreeOn(DROPPING, k, a, b) {
      assert multiset(a) == multiset(b) ==> ("1" in multiset(a) <==> "1" in multiset(b));
    }
    forall k, a, b ensures CombinerAgreesOn(DROPPING, k, a, b) {
      assert SawOne(k, KeepOnes(k, a) + b) == SawOne(k, a + b);
    }
  }

  lemma OneRecord(r: Record)
    ensures SortRecords([r]) == [r] && Values([r], r.key) == [r.value] && Flatten([[r]]) == [r]
  {
    assert [r][1..] == [] && [[r]][1..] == [];
    assert InsertRecord(r, []) == [r];
  }

  /** A single short record stays in the buffer. */
  lemma OneBatch(r: Record, limit: nat)
    requires RecordBytes(r) < limit
    ensures Runs(Fill([[r]], limit)) == [[r]]
  {
    assert [[r]][..0] == [] && [r][..0] == [] && [] + [r] == [r];
    assert Bytes([r]) == RecordBytes(r);
    assert Fill([], limit) == Buffers([], []);
    assert [] + [[r]] == [[r]];
  }

  lemma DroppingRuns(lines: seq<Line>)
    requires lines == [Line("in", "0")]
    ensures Emitted(DROPPING, lines) == [[ZERO]]
    ensures AllRuns(DROPPING, [lines], 1024) == [[ZERO]]
  {
    assert Emitted(DROPPING, lines)[0] == EchoLine("in", "0");
    assert Emitted(DROPPING, lines) == [[ZERO]];
    assert TextBytes("k") == 1 && TextBytes("0") == 1;
    OneBatch(ZERO, 1024);
    assert [lines][1..] == [] && [[ZERO]] + [] == [[ZERO]];
  }

  /** The laws alone do not make the combiner invisible: here it loses a key the reference reports. */
  lemma CombinerCanDropKey()
    ensures OrderFree(DROPPING) && CombinerAgrees(DROPPING) && Routes(DROPPING)
    ensures var tasks := [[Line("in", "0")]];
            Results(DROPPING, tasks, 1024, 0, 1, "k") != Answer(DROPPING, Flatten(tasks), "k")
  {
    DroppingObeysLaws();
    var lines := [Line("in", "0")];
    var tasks := [lines];
    DroppingRuns(lines);
    assert tasks[1..] == [] && Flatten(tasks) == lines + [] == lines;
    OneRecord(ZERO);
    assert [[ZERO]][1..] == [];
    assert Contribution(DROPPING, [[ZERO]], "k") == KeepOnes("k", ["0"]) + [] == [];
    ResultsAreAnswer(DROPPING, tasks, 1024, 1, "k");
  }
}
