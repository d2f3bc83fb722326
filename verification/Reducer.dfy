/** One reduce task: merge every map task's file of a partition, group, reduce. */
module Reducer {
  import opened Base
  import opened Records
  import opened StableSorting
  import opened Merge
  import opened Pipeline
  import opened JobFiles
  import opened Storage

  /** The texts of the map files of partition `r` that exist, in task order. */
  function Present(files: Files, numMappers: nat, r: nat): seq<string> {
    if numMappers == 0 then []
    else Present(files, numMappers - 1, r)
         + if IntermediatePath(numMappers - 1, r) in files then [files[IntermediatePath(numMappers - 1, r)]] else []
  }

  function Contents(texts: seq<string>): (s: seq<seq<Record>>)
    ensures |s| == |texts|
  {
    seq(|texts|, i requires 0 <= i < |texts| => Decode(texts[i]).records)
  }

  /** Reads that end in a broken record. */
  predicate Unreadable(texts: seq<string>) {
    exists t <- texts :: Decode(t).broken
  }

  method OpenSources(fs: FileSystem, numMappers: nat, r: nat) returns (sources: seq<Source>)
    ensures var texts := Present(fs.files, numMappers, r);
            && |sources| == |texts|
            && (forall i | 0 <= i < |sources| :: fresh(sources[i]))
            && (forall i, j | 0 <= i < j < |sources| :: sources[i] != sources[j])
            && forall i | 0 <= i < |sources| ::
                 sources[i].stream == Decode(texts[i]).records && sources[i].broken == Decode(texts[i]).broken
  {
    hide Decode;
    sources := [];
    for m := 0 to numMappers
      invariant var texts := Present(fs.files, m, r);
                && |sources| == |texts|
                && (forall i | 0 <= i < |sources| :: fresh(sources[i]))
                && (forall i, j | 0 <= i < j < |sources| :: sources[i] != sources[j])
                && forall i | 0 <= i < |sources| ::
                     sources[i].stream == Decode(texts[i]).records && sources[i].broken == Decode(texts[i]).broken
    {
      if IntermediatePath(m, r) in fs.files {
        var source := new Source.Open(fs.files[IntermediatePath(m, r)]);
        sources := sources + [source];
      }
    }
  }

  /** The grouping loop: each run of equal keys is reduced when the key changes or the stream ends. */
  method ReduceGroups(job: Job, merged: seq<Record>) returns (out: seq<Record>)
    ensures out == Apply(job.reduce, Groups(merged))
  {
    out := [];
    var key: string := [];
    var values: seq<string> := [];
    var have := false;
    ghost var flushed: seq<Group> := [];
    assert merged == [] ==> Apply(job.reduce, Groups(merged)) == [];
    assert Apply(job.reduce, []) == [];
    hide Grouped, Groups, Apply, Emit;
    for i := 0 to |merged|
      invariant have <==> i > 0
      invariant out == Apply(job.reduce, flushed)
      invariant !have ==> values == [] && flushed == []
      invariant have ==> Grouped(merged, i, flushed, key, values)
    {
      var next := merged[i];
      if !have {
        FirstRecord(job.reduce, merged);
        key, have := next.key, true;
      } else {
        NextRecord(job.reduce, merged, i, flushed, key, values);
        if next.key != key {
          out := out + Emit(key, job.reduce(key, values));
          flushed := flushed + [Group(key, values)];
          values := [];
          key := next.key;
        }
      }
      assert [] + [next.value] == [next.value];
      values := values + [next.value];
    }
    if have {
      LastGroup(job.reduce, merged, flushed, key, values);
      out := out + Emit(key, job.reduce(key, values));
    }
  }

  /** Fails without writing when a file cannot be read to its end; a missing file counts as empty. */
  method Run(fs: FileSystem, job: Job, r: nat, numMappers: nat) returns (ok: bool)
    modifies fs
    ensures var texts := Present(old(fs.files), numMappers, r);
            if numMappers < 1 || Unreadable(texts) then !ok && fs.files == old(fs.files)
            else
              var reduced := Apply(job.reduce, Groups(Drain(Contents(texts))));
              ok && fs.files == old(fs.files)[OutputPath(r) := Encode(reduced)]
  {
    if numMappers < 1 {
      return false;
    }
    hide Encode, Decode, Present, Drain, Groups, Apply;
    ghost var texts := Present(fs.files, numMappers, r);
    var sources := OpenSources(fs, numMappers, r);
    var merger := new Merger(sources);
    assert merger.pending == Contents(texts);
    ghost var broken := merger.broken;
    assert (exists b <- broken :: b) <==> Unreadable(texts) by {
      forall t | t in texts && Decode(t).broken ensures exists b <- broken :: b {
        var i :| 0 <= i < |texts| && texts[i] == t;
        assert broken[i] in broken;
      }
      if exists b <- broken :: b {
        var i :| 0 <= i < |broken| && broken[i];
        assert texts[i] in texts;
      }
    }
    var merged := TakeAll(merger);
    if merged.Err? {
      return false;
    }
    var out := ReduceGroups(job, merged.value);
    fs.WriteAtomic(OutputPath(r), Encode(out));
    return true;
  }

  /** Given the map tasks' files, a reduce task writes the output the job is defined by. */
  lemma RunWritesOutput(files: Files, job: Job, tasks: seq<seq<Line>>, limit: nat, r: nat, numReducers: nat)
    requires forall m | 0 <= m < |tasks| ::
               && IntermediatePath(m, r) in files
               && files[IntermediatePath(m, r)] == Encode(MapFile(job, tasks[m], limit, r, numReducers))
    ensures var texts := Present(files, |tasks|, r);
            && !Unreadable(texts)
            && Apply(job.reduce, Groups(Drain(Contents(texts)))) == Output(job, tasks, limit, r, numReducers)
  {
    var texts := Present(files, |tasks|, r);
    var expected := MapFiles(job, tasks, limit, r, numReducers);
    PresentAll(files, |tasks|, r, expected);
    forall i | 0 <= i < |texts| ensures Decode(texts[i]) == Stream(expected[i], false) && KeySorted(expected[i]) {
      DecodeEncode(expected[i]);
      MapFileValues(job, tasks[i], limit, r, numReducers, []);
    }
    assert Contents(texts) == expected;
    DrainIsStableSort(expected);
  }

  lemma {:induction false} PresentAll(files: Files, numMappers: nat, r: nat, expected: seq<seq<Record>>)
    requires numMappers <= |expected|
    requires forall m | 0 <= m < numMappers ::
               IntermediatePath(m, r) in files && files[IntermediatePath(m, r)] == Encode(expected[m])
    ensures |Present(files, numMappers, r)| == numMappers
    ensures forall m | 0 <= m < numMappers :: Present(files, numMappers, r)[m] == Encode(expected[m])
  {
    hide Encode;
    if numMappers > 0 {
      var n := numMappers - 1;
      PresentAll(files, n, r, expected);
      var before, last := Present(files, n, r), files[IntermediatePath(n, r)];
      assert Present(files, numMappers, r) == before + [last];
      hide Present;
      forall m | 0 <= m < numMappers ensures (before + [last])[m] == Encode(expected[m]) {
        assert m < n ==> (before + [last])[m] == before[m];
      }
    }
  }
}
