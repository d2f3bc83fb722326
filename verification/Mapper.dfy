/** One map task: buffer, spill sorted runs, merge them into one file per partition. */
module Mapper {
  import opened Base
  import opened Records
  import opened StableSorting
  import opened Merge
  import opened Pipeline
  import opened JobFiles
  import opened Storage

  /** The lines a scanner finds in a text. */
  function TextLines(text: string): seq<string>
    decreases |text|
  {
    if text == [] then [] else
    var eol := Find(text, '\n');
    [DropReturn(text[..eol])] + TextLines(if eol == |text| then [] else text[eol + 1..])
  }

  function FileLines(name: string, text: string): (l: seq<Line>)
    ensures |l| == |TextLines(text)|
  {
    NamedLines(name, TextLines(text))
  }

  function NamedLines(name: string, texts: seq<string>): (l: seq<Line>)
    ensures |l| == |texts|
  {
    seq(|texts|, i requires 0 <= i < |texts| => Line(name, texts[i]))
  }

  /** A line ends with a line feed, with a carriage return before it or not. */
  lemma LineIsTaken(line: string, cr: bool, rest: string)
    requires '\n' !in line && (cr || line == [] || line[|line| - 1] != '\r')
    ensures TextLines(line + (if cr then "\r\n" else "\n") + rest) == [line] + TextLines(rest)
  {
    var whole := if cr then line + ['\r'] else line;
    var text := whole + ['\n'] + rest;
    assert line + (if cr then "\r\n" else "\n") + rest == text;
    assert Find(text, '\n') == |whole| && text[..|whole|] == whole && text[|whole| + 1..] == rest by {
      FindFirst(whole, '\n', rest);
    }
    assert DropReturn(whole) == line;
    hide DropReturn, Find;
  }

  /** The last line may end with the text. */
  lemma LastLineIsTaken(line: string, cr: bool)
    requires '\n' !in line && line != [] && (cr || line[|line| - 1] != '\r')
    ensures TextLines(line + if cr then "\r" else "") == [line] && TextLines([]) == []
  {
    var whole := if cr then line + ['\r'] else line;
    assert line + (if cr then "\r" else "") == whole;
    assert Find(whole, '\n') == |whole| && whole[..|whole|] == whole;
    assert DropReturn(whole) == line;
    hide DropReturn, Find;
  }

  function InputLines(files: Files, inputs: seq<string>): seq<Line> {
    if inputs == [] then [] else
    var n := |inputs| - 1;
    InputLines(files, inputs[..n])
    + if InputPath(inputs[n]) in files then FileLines(inputs[n], files[InputPath(inputs[n])]) else []
  }

  /** The file texts of a run, by partition. */
  function RunTexts(job: Job, run: seq<Record>, numReducers: nat): nat -> string {
    (p: nat) => Encode(RunFile(job, run, p, numReducers))
  }

  /** The texts of the final files, by partition. */
  function FinalTexts(job: Job, batches: seq<seq<Record>>, limit: nat, numReducers: nat): nat -> string {
    (p: nat) => Encode(BatchFile(job, batches, limit, p, numReducers))
  }

  function AtLeastKilobyte(spillBytes: int): nat {
    if spillBytes < 1024 then 1024 else spillBytes
  }

  /** The texts of the final files of a task with the given input, by partition. */
  function TaskTexts(job: Job, lines: seq<Line>, spillBytes: int, numReducers: nat): nat -> string {
    FinalTexts(job, Emitted(job, lines), AtLeastKilobyte(spillBytes), numReducers)
  }

  predicate SpillOf(path: Path, task: nat) {
    path.StagePath? && path.stage.Spilled? && path.stage.task == task
  }

  function SpillPaths(task: nat, n: nat, numReducers: nat): (s: seq<Path>)
    ensures |s| == numReducers
  {
    seq(numReducers, p requires 0 <= p < numReducers => SpillPath(task, n, p))
  }

  ghost predicate HoldsRun(files: Files, job: Job, task: nat, n: nat, run: seq<Record>, numReducers: nat) {
    forall p | 0 <= p < numReducers ::
      && SpillPath(task, n, p) in files
      && files[SpillPath(task, n, p)] == RunTexts(job, run, numReducers)(p)
  }

  /** The spill files on disk are those of the runs. */
  ghost predicate HoldsRuns(files: Files, spilled: seq<seq<Path>>, job: Job, task: nat, runs: seq<seq<Record>>,
                            numReducers: nat) {
    && |spilled| == |runs|
    && forall n | 0 <= n < |runs| ::
         spilled[n] == SpillPaths(task, n, numReducers) && HoldsRun(files, job, task, n, runs[n], numReducers)
  }

  /** No spill files but those of the first `n` runs. */
  predicate OnlySpills(files: Files, task: nat, n: nat, numReducers: nat) {
    forall path <- files | SpillOf(path, task) :: path.stage.run < n && path.partition < numReducers
  }

  lemma HeldText(files: Files, job: Job, task: nat, n: nat, run: seq<Record>, numReducers: nat, p: nat)
    requires HoldsRun(files, job, task, n, run, numReducers) && p < numReducers
    ensures SpillPath(task, n, p) in files && files[SpillPath(task, n, p)] == Encode(RunFile(job, run, p, numReducers))
  {
  }

  lemma HoldsOneMore(files: Files, spilled: seq<seq<Path>>, job: Job, task: nat, runs: seq<seq<Record>>,
                     run: seq<Record>, numReducers: nat)
    requires HoldsRuns(files, spilled, job, task, runs, numReducers)
    ensures HoldsRuns(WithParts(files, Spilled(task, |runs|), RunTexts(job, run, numReducers), numReducers),
                      spilled + [SpillPaths(task, |runs|, numReducers)], job, task, runs + [run], numReducers)
  {
    var after := WithParts(files, Spilled(task, |runs|), RunTexts(job, run, numReducers), numReducers);
    forall n | 0 <= n <= |runs| ensures HoldsRun(after, job, task, n, (runs + [run])[n], numReducers) {
      forall p | 0 <= p < numReducers
        ensures SpillPath(task, n, p) in after
        ensures after[SpillPath(task, n, p)] == RunTexts(job, (runs + [run])[n], numReducers)(p)
      {
        PartsWritten(files, Spilled(task, |runs|), RunTexts(job, run, numReducers), numReducers, SpillPath(task, n, p));
        assert n < |runs| ==> HoldsRun(files, job, task, n, runs[n], numReducers);
      }
    }
  }

  lemma SpillAdds(files: Files, task: nat, n: nat, text: nat -> string, numReducers: nat)
    requires OnlySpills(files, task, n, numReducers)
    ensures var after := WithParts(files, Spilled(task, n), text, numReducers);
            && OnlySpills(after, task, n + 1, numReducers)
            && forall path: Path | !SpillOf(path, task) :: SameAt(after, files, path)
  {
    var after := WithParts(files, Spilled(task, n), text, numReducers);
    forall path: Path
      ensures !SpillOf(path, task) ==> SameAt(after, files, path)
      ensures path in after && SpillOf(path, task) ==> path.stage.run < n + 1 && path.partition < numReducers
    {
      PartsWritten(files, Spilled(task, n), text, numReducers, path);
    }
  }

  class Runner {
    const fs: FileSystem
    const job: Job
    const task: nat
    const numReducers: nat
    const spillBytes: nat
    var buffer: seq<Record>
    var bytes: nat
    var spills: nat
    var spilled: seq<seq<Path>>
    /** What Map has emitted so far, line by line. */
    ghost var batches: seq<seq<Record>>

    constructor (fs: FileSystem, job: Job, task: nat, numReducers: nat, spillBytes: nat)
      requires spillBytes >= 1024 && numReducers >= 1
      requires forall path <- fs.files :: !SpillOf(path, task)
      ensures Valid() && batches == []
      ensures this.fs == fs && this.job == job && this.task == task
      ensures this.numReducers == numReducers && this.spillBytes == spillBytes
    {
      this.fs, this.job, this.task, this.numReducers, this.spillBytes := fs, job, task, numReducers, spillBytes;
      buffer, bytes, spills, spilled, batches := [], 0, 0, [], [];
    }

    ghost predicate Valid()
      reads this, fs
    {
      var b := Fill(batches, spillBytes);
      && numReducers >= 1 && spillBytes >= 1024
      && buffer == b.open && bytes == Bytes(buffer)
      && spills == |b.full|
      && HoldsRuns(fs.files, spilled, job, task, b.full, numReducers)
      && OnlySpills(fs.files, task, spills, numReducers)
    }

    method SortBuffer()
      modifies `buffer
      ensures buffer == SortRecords(old(buffer))
    {
      buffer := SortRecords(buffer);
    }

    method PartitionBuffer() returns (parts: seq<seq<Record>>)
      requires Routes(job) && numReducers >= 1
      ensures |parts| == numReducers
      ensures forall p | 0 <= p < numReducers :: parts[p] == Part(job, buffer, p, numReducers)
    {
      parts := seq(numReducers, _ => []);
      for i := 0 to |buffer|
        invariant |parts| == numReducers
        invariant forall p | 0 <= p < numReducers :: parts[p] == Part(job, buffer[..i], p, numReducers)
      {
        var p := job.partition(buffer[i].key, numReducers);
        forall q | 0 <= q < numReducers
          ensures Part(job, buffer[..i + 1], q, numReducers) ==
                  Part(job, buffer[..i], q, numReducers) + if q == p then [buffer[i]] else []
        {
          assert buffer[..i + 1] == buffer[..i] + [buffer[i]];
          PartAppend(job, buffer[..i], [buffer[i]], q, numReducers);
        }
        parts := parts[p := parts[p] + [buffer[i]]];
      }
      assert buffer[..|buffer|] == buffer;
    }

    method ApplyCombiner(records: seq<Record>) returns (out: seq<Record>)
      ensures out == Combined(job, records)
    {
      if job.combine.None? || records == [] {
        return records;
      }
      var combine := job.combine.value;
      hide Grouped, Apply, Emit;
      FirstRecord(combine, records);
      out := [];
      var current := records[0].key;
      var values: seq<string> := [];
      ghost var flushed: seq<Group> := [];
      for i := 0 to |records|
        invariant out == Apply(combine, flushed)
        invariant i == 0 ==> values == [] && flushed == [] && current == records[0].key
        invariant i > 0 ==> Grouped(records, i, flushed, current, values)
      {
        var rec := records[i];
        if i > 0 {
          NextRecord(combine, records, i, flushed, current, values);
        }
        if rec.key != current {
          out := out + Emit(current, combine(current, values));
          flushed := flushed + [Group(current, values)];
          values := [];
          current := rec.key;
        }
        assert [] + [rec.value] == [rec.value];
        values := values + [rec.value];
      }
      LastGroup(combine, records, flushed, current, values);
      out := out + Emit(current, combine(current, values));
    }

    /** Writes the buffer as the next run. */
    method Spill()
      requires Routes(job) && numReducers >= 1 && buffer != []
      modifies `buffer, `bytes, `spills, `spilled, fs
      ensures buffer == [] && bytes == 0 && spills == old(spills) + 1
      ensures spilled == old(spilled) + [SpillPaths(task, old(spills), numReducers)]
      ensures var texts := RunTexts(job, old(buffer), numReducers);
              fs.files == WithParts(old(fs.files), Spilled(task, old(spills)), texts, numReducers)
    {
      ghost var run := buffer;
      SortBuffer();
      var parts := PartitionBuffer();
      var paths := WriteRun(run, parts);
      spilled := spilled + [paths];
      spills := spills + 1;
      buffer := [];
      bytes := 0;
    }

    method WriteRun(ghost run: seq<Record>, parts: seq<seq<Record>>) returns (paths: seq<Path>)
      requires |parts| == numReducers
      requires forall p | 0 <= p < numReducers :: parts[p] == Part(job, SortRecords(run), p, numReducers)
      modifies fs
      ensures paths == SpillPaths(task, spills, numReducers)
      ensures fs.files == WithParts(old(fs.files), Spilled(task, spills), RunTexts(job, run, numReducers), numReducers)
    {
      paths := [];
      for p := 0 to numReducers
        invariant |paths| == p && forall q | 0 <= q < p :: paths[q] == SpillPath(task, spills, q)
        invariant fs.files == WithParts(old(fs.files), Spilled(task, spills), RunTexts(job, run, numReducers), p)
      {
        var records := ApplyCombiner(parts[p]);
        var path := SpillPath(task, spills, p);
        fs.WriteAtomic(path, Encode(records));
        paths := paths + [path];
      }
    }

    /** Passes one input line to Map and spills when the buffer is full. */
    method ConsumeLine(line: Line)
      requires Valid() && Routes(job)
      modifies this, fs
      ensures Valid() && batches == old(batches) + [job.mapLine(line.path, line.text)]
      ensures forall path: Path | !SpillOf(path, task) :: SameAt(fs.files, old(fs.files), path)
    {
      var emitted := job.mapLine(line.path, line.text);
      ghost var b := Fill(batches, spillBytes);
      EmitAll(emitted);
      batches := batches + [emitted];
      assert batches[..|batches| - 1] == old(batches);
      if bytes >= spillBytes {
        HoldsOneMore(fs.files, spilled, job, task, b.full, buffer, numReducers);
        SpillAdds(fs.files, task, spills, RunTexts(job, buffer, numReducers), numReducers);
        Spill();
      }
    }

    method EmitAll(emitted: seq<Record>)
      requires bytes == Bytes(buffer)
      modifies `buffer, `bytes
      ensures buffer == old(buffer) + emitted && bytes == Bytes(buffer)
    {
      for i := 0 to |emitted|
        invariant buffer == old(buffer) + emitted[..i] && bytes == Bytes(buffer)
      {
        assert emitted[..i + 1] == emitted[..i] + [emitted[i]];
        assert (buffer + [emitted[i]])[..|buffer|] == buffer;
        buffer := buffer + [emitted[i]];
        bytes := bytes + RecordBytes(emitted[i]);
      }
      assert emitted[..|emitted|] == emitted;
    }

    method WriteFinalFromBuffer()
      requires Valid() && Routes(job) && Fill(batches, spillBytes).full == []
      modifies `buffer, fs
      ensures var texts := FinalTexts(job, batches, spillBytes, numReducers);
              fs.files == WithParts(old(fs.files), Final(task), texts, numReducers)
    {
      SortBuffer();
      var parts := PartitionBuffer();
      for p := 0 to numReducers
        invariant var texts := FinalTexts(job, batches, spillBytes, numReducers);
                  fs.files == WithParts(old(fs.files), Final(task), texts, p)
      {
        var records := ApplyCombiner(parts[p]);
        fs.WriteAtomic(IntermediatePath(task, p), Encode(records));
      }
    }

    /** Opens every run's file for one partition. */
    method OpenRuns(p: nat, ghost runs: seq<seq<Record>>) returns (sources: seq<Source>)
      requires p < numReducers && HoldsRuns(fs.files, spilled, job, task, runs, numReducers)
      ensures |sources| == |runs|
      ensures forall i | 0 <= i < |sources| :: fresh(sources[i]) && !sources[i].broken
      ensures forall i | 0 <= i < |sources| :: sources[i].stream == RunFile(job, runs[i], p, numReducers)
      ensures forall i, j | 0 <= i < j < |sources| :: sources[i] != sources[j]
    {
      hide Decode, Encode, RunFile, HoldsRun;
      sources := [];
      for n := 0 to |spilled|
        invariant |sources| == n
        invariant forall i | 0 <= i < n :: fresh(sources[i]) && !sources[i].broken
        invariant forall i | 0 <= i < n :: sources[i].stream == RunFile(job, runs[i], p, numReducers)
        invariant forall i, j | 0 <= i < j < n :: sources[i] != sources[j]
      {
        HeldText(fs.files, job, task, n, runs[n], numReducers, p);
        assert spilled[n][p] == SpillPath(task, n, p);
        DecodeEncode(RunFile(job, runs[n], p, numReducers));
        var source := new Source.Open(fs.files[spilled[n][p]]);
        sources := sources + [source];
      }
    }

    method MergeRuns(p: nat, ghost runs: seq<seq<Record>>) returns (records: seq<Record>)
      requires p < numReducers && HoldsRuns(fs.files, spilled, job, task, runs, numReducers)
      ensures records == StableSort(Flatten(RunFiles(job, runs, p, numReducers)))
    {
      ghost var streams := RunFiles(job, runs, p, numReducers);
      var sources := OpenRuns(p, runs);
      forall i | 0 <= i < |runs| ensures KeySorted(streams[i]) {
        RunFileValues(job, runs[i], p, numReducers, []);
      }
      var merged := MergeSorted(sources, streams);
      return merged.value;
    }

    method WriteMerged(ghost runs: seq<seq<Record>>, ghost texts: nat -> string)
      requires HoldsRuns(fs.files, spilled, job, task, runs, numReducers)
      requires forall p | 0 <= p < numReducers ::
                 texts(p) == Encode(StableSort(Flatten(RunFiles(job, runs, p, numReducers))))
      modifies fs
      ensures fs.files == WithParts(old(fs.files), Final(task), texts, numReducers)
    {
      ghost var before := fs.files;
      for p := 0 to numReducers
        invariant HoldsRuns(fs.files, spilled, job, task, runs, numReducers)
        invariant fs.files == WithParts(before, Final(task), texts, p)
      {
        var records := MergeRuns(p, runs);
        HoldsAfterFinal(before, spilled, job, task, runs, numReducers, texts, p + 1);
        fs.WriteAtomic(IntermediatePath(task, p), Encode(records));
      }
    }

    /** Merges the runs into the final files and deletes the spills. */
    method MergeSpills(ghost runs: seq<seq<Record>>, ghost texts: nat -> string)
      requires HoldsRuns(fs.files, spilled, job, task, runs, numReducers) &&
               OnlySpills(fs.files, task, |runs|, numReducers)
      requires forall p | 0 <= p < numReducers ::
                 texts(p) == Encode(StableSort(Flatten(RunFiles(job, runs, p, numReducers))))
      modifies fs
      ensures forall path: Path ::
                if SpillOf(path, task) then path !in fs.files
                else SameAt(fs.files, WithParts(old(fs.files), Final(task), texts, numReducers), path)
    {
      FinalAddsNoSpills(fs.files, task, |runs|, numReducers, texts);
      WriteMerged(runs, texts);
      RemoveSpills(|runs|);
    }

    method RemoveSpills(ghost n: nat)
      requires |spilled| == n && forall i | 0 <= i < n :: spilled[i] == SpillPaths(task, i, numReducers)
      requires OnlySpills(fs.files, task, n, numReducers)
      modifies fs
      ensures forall path: Path ::
                if SpillOf(path, task) then path !in fs.files else SameAt(fs.files, old(fs.files), path)
    {
      for i := 0 to |spilled|
        invariant forall path <- fs.files | SpillOf(path, task) ::
                    i <= path.stage.run < n && path.partition < numReducers
        invariant forall path: Path | !SpillOf(path, task) :: SameAt(fs.files, old(fs.files), path)
      {
        var paths := spilled[i];
        for p := 0 to |paths|
          invariant forall path <- fs.files | SpillOf(path, task) ::
                      && i <= path.stage.run < n && path.partition < numReducers
                      && (path.stage.run == i ==> p <= path.partition)
          invariant forall path: Path | !SpillOf(path, task) :: SameAt(fs.files, old(fs.files), path)
        {
          assert paths[p] == SpillPath(task, i, p);
          fs.Remove(paths[p]);
        }
      }
    }

    /** Turns everything emitted into the final files. */
    method Complete()
      requires Valid() && Routes(job)
      modifies this, fs
      ensures var texts := FinalTexts(job, old(batches), spillBytes, numReducers);
              forall path: Path ::
                if SpillOf(path, task) then path !in fs.files
                else SameAt(fs.files, WithParts(old(fs.files), Final(task), texts, numReducers), path)
    {
      ghost var texts := FinalTexts(job, batches, spillBytes, numReducers);
      ghost var b := Fill(batches, spillBytes);
      ghost var before := fs.files;
      if |spilled| == 0 {
        WriteFinalFromBuffer();
        FinalAddsNoSpills(before, task, 0, numReducers, texts);
      } else {
        if buffer != [] {
          HoldsOneMore(fs.files, spilled, job, task, b.full, buffer, numReducers);
          SpillAdds(fs.files, task, spills, RunTexts(job, buffer, numReducers), numReducers);
          Spill();
        }
        OverwriteSame(before, fs.files, task, texts, numReducers);
        MergeSpills(Runs(b), texts);
      }
    }
  }

  /** Writing final files leaves the spills alone. */
  lemma HoldsAfterFinal(files: Files, spilled: seq<seq<Path>>, job: Job, task: nat, runs: seq<seq<Record>>,
                        numReducers: nat, texts: nat -> string, upto: nat)
    requires HoldsRuns(files, spilled, job, task, runs, numReducers)
    ensures HoldsRuns(WithParts(files, Final(task), texts, upto), spilled, job, task, runs, numReducers)
  {
    var after := WithParts(files, Final(task), texts, upto);
    forall n | 0 <= n < |runs| ensures HoldsRun(after, job, task, n, runs[n], numReducers) {
      assert HoldsRun(files, job, task, n, runs[n], numReducers);
      forall p | 0 <= p < numReducers ensures SameAt(after, files, SpillPath(task, n, p)) {
        PartsWritten(files, Final(task), texts, upto, SpillPath(task, n, p));
      }
    }
  }

  lemma FinalAddsNoSpills(files: Files, task: nat, n: nat, numReducers: nat, texts: nat -> string)
    requires OnlySpills(files, task, n, numReducers)
    ensures OnlySpills(WithParts(files, Final(task), texts, numReducers), task, n, numReducers)
  {
    forall path: Path | SpillOf(path, task)
      ensures SameAt(WithParts(files, Final(task), texts, numReducers), files, path)
    {
      PartsWritten(files, Final(task), texts, numReducers, path);
    }
  }

  /** Files that differ in spills only still do after the final files are written. */
  lemma OverwriteSame(a: Files, b: Files, task: nat, texts: nat -> string, numReducers: nat)
    requires forall path: Path | !SpillOf(path, task) :: SameAt(a, b, path)
    ensures forall path: Path | !SpillOf(path, task) ::
              SameAt(WithParts(a, Final(task), texts, numReducers), WithParts(b, Final(task), texts, numReducers), path)
  {
    forall path: Path | !SpillOf(path, task)
      ensures SameAt(WithParts(a, Final(task), texts, numReducers), WithParts(b, Final(task), texts, numReducers), path)
    {
      PartsWritten(a, Final(task), texts, numReducers, path);
      PartsWritten(b, Final(task), texts, numReducers, path);
    }
  }

  method RemoveStaleSpills(fs: FileSystem, task: nat)
    modifies fs
    ensures forall path :: if SpillOf(path, task) then path !in fs.files else SameAt(fs.files, old(fs.files), path)
  {
    var stale := set path <- fs.files | SpillOf(path, task);
    while stale != {}
      invariant forall path :: SpillOf(path, task) && path in fs.files ==> path in stale
      invariant forall path | !SpillOf(path, task) :: SameAt(fs.files, old(fs.files), path)
      invariant forall path <- stale :: SpillOf(path, task)
    {
      var path :| path in stale;
      fs.Remove(path);
      stale := stale - {path};
    }
  }

  /** Passes the lines of a text to Map. */
  method ConsumeText(r: Runner, name: string, text: string)
    requires r.Valid() && Routes(r.job)
    modifies r, r.fs
    ensures r.Valid() && r.batches == old(r.batches) + Emitted(r.job, FileLines(name, text))
    ensures forall path: Path | !SpillOf(path, r.task) :: SameAt(r.fs.files, old(r.fs.files), path)
  {
    var rest := text;
    ghost var first := r.batches;
    while rest != []
      invariant r.Valid()
      invariant first + Emitted(r.job, FileLines(name, text)) == r.batches + Emitted(r.job, FileLines(name, rest))
      invariant forall path: Path | !SpillOf(path, r.task) :: SameAt(r.fs.files, old(r.fs.files), path)
      decreases |rest|
    {
      var eol := Find(rest, '\n');
      var line := Line(name, DropReturn(rest[..eol]));
      FirstLine(r.job, name, rest, r.batches);
      rest := if eol == |rest| then [] else rest[eol + 1..];
      r.ConsumeLine(line);
    }
  }

  /** The text after its first line. */
  function AfterLine(text: string): string
    requires text != []
  {
    var eol := Find(text, '\n');
    if eol == |text| then [] else text[eol + 1..]
  }

  lemma LinesOf(name: string, text: string)
    requires text != []
    ensures FileLines(name, text) ==
            [Line(name, DropReturn(text[..Find(text, '\n')]))] + FileLines(name, AfterLine(text))
  {
    hide Find, DropReturn, TextLines, AfterLine;
    var first, rest := DropReturn(text[..Find(text, '\n')]), TextLines(AfterLine(text));
    assert TextLines(text) == [first] + rest by {
      TextLinesStep(text);
    }
    NamedAppend(name, first, rest);
  }

  lemma NamedAppend(name: string, first: string, rest: seq<string>)
    ensures NamedLines(name, [first] + rest) == [Line(name, first)] + NamedLines(name, rest)
  {
  }

  lemma TextLinesStep(text: string)
    requires text != []
    ensures TextLines(text) == [DropReturn(text[..Find(text, '\n')])] + TextLines(AfterLine(text))
  {
    hide DropReturn;
  }

  lemma FirstLine(job: Job, name: string, text: string, before: seq<seq<Record>>)
    requires text != []
    ensures before + Emitted(job, FileLines(name, text)) ==
            before + [job.mapLine(name, DropReturn(text[..Find(text, '\n')]))]
              + Emitted(job, FileLines(name, AfterLine(text)))
  {
    hide FileLines, Find, DropReturn, AfterLine;
    LinesOf(name, text);
    var line := Line(name, DropReturn(text[..Find(text, '\n')]));
    EmittedAppend(job, [line], FileLines(name, AfterLine(text)));
    assert Emitted(job, [line]) == [job.mapLine(line.path, line.text)];
    Associate(before, [job.mapLine(line.path, line.text)], Emitted(job, FileLines(name, AfterLine(text))));
  }

  /** Passes a whole input file to Map; fails when there is no such file. */
  method Consume(r: Runner, name: string) returns (ok: bool)
    requires r.Valid() && Routes(r.job)
    modifies r, r.fs
    ensures r.Valid()
    ensures ok <==> InputPath(name) in old(r.fs.files)
    ensures ok ==> r.batches == old(r.batches) + Emitted(r.job, FileLines(name, old(r.fs.files)[InputPath(name)]))
    ensures forall path: Path | !SpillOf(path, r.task) :: SameAt(r.fs.files, old(r.fs.files), path)
  {
    if InputPath(name) !in r.fs.files {
      return false;
    }
    ConsumeText(r, name, r.fs.files[InputPath(name)]);
    return true;
  }

  lemma OneMoreInput(job: Job, files: Files, inputs: seq<string>, i: nat)
    requires i < |inputs| && InputPath(inputs[i]) in files
    ensures Emitted(job, InputLines(files, inputs[..i + 1])) ==
            Emitted(job, InputLines(files, inputs[..i]))
              + Emitted(job, FileLines(inputs[i], files[InputPath(inputs[i])]))
  {
    hide FileLines;
    assert inputs[..i + 1][..i] == inputs[..i];
    EmittedAppend(job, InputLines(files, inputs[..i]), FileLines(inputs[i], files[InputPath(inputs[i])]));
  }

  /** Passes the input files to Map in order, up to the first that is missing. */
  method ConsumeAll(r: Runner, inputs: seq<string>, ghost files: Files) returns (ok: bool)
    requires r.Valid() && Routes(r.job) && r.batches == []
    requires forall path: Path | !SpillOf(path, r.task) :: SameAt(r.fs.files, files, path)
    modifies r, r.fs
    ensures r.Valid() && (ok <==> forall name <- inputs :: InputPath(name) in files)
    ensures ok ==> r.batches == Emitted(r.job, InputLines(files, inputs))
    ensures forall path: Path | !SpillOf(path, r.task) :: SameAt(r.fs.files, files, path)
  {
    hide Emitted, FileLines, InputLines;
    NoInput(r.job, files);
    for i := 0 to |inputs|
      invariant r.Valid()
      invariant r.batches == Emitted(r.job, InputLines(files, inputs[..i]))
      invariant forall j | 0 <= j < i :: InputPath(inputs[j]) in files
      invariant forall path: Path | !SpillOf(path, r.task) :: SameAt(r.fs.files, files, path)
    {
      assert SameAt(r.fs.files, files, InputPath(inputs[i]));
      ok := Consume(r, inputs[i]);
      if !ok {
        return false;
      }
      OneMoreInput(r.job, files, inputs, i);
    }
    assert inputs[..|inputs|] == inputs;
    return true;
  }

  lemma NoInput(job: Job, files: Files)
    ensures Emitted(job, InputLines(files, [])) == []
  {
  }

  /**
   * Runs a map task: fails when an input file is missing, and otherwise leaves exactly the task's final files,
   * whatever spills an earlier attempt left behind.
   */
  method Run(fs: FileSystem, job: Job, task: nat, inputs: seq<string>, numReducers: nat, spillBytes: int)
        returns (ok: bool)
    requires Routes(job)
    modifies fs
    ensures ok <==> (numReducers >= 1 && forall name <- inputs :: InputPath(name) in old(fs.files))
    ensures var texts := TaskTexts(job, InputLines(old(fs.files), inputs), spillBytes, numReducers);
            ok ==> forall path: Path ::
                     if SpillOf(path, task) then path !in fs.files
                     else SameAt(fs.files, WithParts(old(fs.files), Final(task), texts, numReducers), path)
    ensures !ok ==> forall path: Path | !SpillOf(path, task) :: SameAt(fs.files, old(fs.files), path)
  {
    if numReducers < 1 {
      return false;
    }
    RemoveStaleSpills(fs, task);
    var r := new Runner(fs, job, task, numReducers, AtLeastKilobyte(spillBytes));
    ok := ConsumeAll(r, inputs, old(fs.files));
    if ok {
      ghost var lines := InputLines(old(fs.files), inputs);
      OverwriteSame(old(fs.files), fs.files, task, TaskTexts(job, lines, spillBytes, numReducers), numReducers);
      r.Complete();
    }
  }
}
