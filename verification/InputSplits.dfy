/** How the input files are dealt out to map tasks makes no difference to what the job answers. */
module InputSplits {
  import opened Base
  import opened StableSorting
  import opened Pipeline
  import opened JobFiles
  import opened Storage
  import opened Mapper

  /** The input lines of each task. */
  function TaskLines(files: Files, groups: seq<seq<string>>): (l: seq<seq<Line>>)
    ensures |l| == |groups|
  {
    seq(|groups|, i requires 0 <= i < |groups| => InputLines(files, groups[i]))
  }

  lemma {:induction false} InputLinesAppend(files: Files, a: seq<string>, b: seq<string>)
    ensures InputLines(files, a + b) == InputLines(files, a) + InputLines(files, b)
  {
    hide FileLines;
    if b == [] {
      assert a + b == a;
    } else {
      var n := |b| - 1;
      assert (a + b)[..|a + b| - 1] == a + b[..n];
      InputLinesAppend(files, a, b[..n]);
    }
  }

  lemma {:induction false} TaskLinesFlat(files: Files, groups: seq<seq<string>>)
    ensures Flatten(TaskLines(files, groups)) == InputLines(files, Flatten(groups))
  {
    hide InputLines;
    if groups == [] {
      NoLines(files);
    } else {
      assert TaskLines(files, groups)[1..] == TaskLines(files, groups[1..]);
      TaskLinesFlat(files, groups[1..]);
      InputLinesAppend(files, groups[0], Flatten(groups[1..]));
    }
  }

  lemma NoLines(files: Files)
    ensures InputLines(files, []) == []
  {
  }

  /** One file's lines and the others'. */
  lemma OneFilesLines(files: Files, b: seq<string>, j: nat)
    requires j < |b|
    ensures multiset(InputLines(files, b)) ==
            multiset(InputLines(files, [b[j]])) + multiset(InputLines(files, RemoveAt(b, j)))
  {
    hide InputLines;
    assert b == b[..j] + ([b[j]] + b[j + 1..]);
    InputLinesAppend(files, b[..j], [b[j]] + b[j + 1..]);
    InputLinesAppend(files, [b[j]], b[j + 1..]);
    InputLinesAppend(files, b[..j], b[j + 1..]);
  }

  /** The same input files in another order hold the same lines. */
  lemma {:induction false} InputLinesBag(files: Files, a: seq<string>, b: seq<string>)
    requires multiset(a) == multiset(b)
    ensures multiset(InputLines(files, a)) == multiset(InputLines(files, b))
  {
    hide InputLines;
    SameBagSameLength(a, b);
    if a != [] {
      var j := FindInBag(a, b, 0);
      RemoveAtBag(a, 0);
      RemoveAtBag(b, j);
      InputLinesBag(files, RemoveAt(a, 0), RemoveAt(b, j));
      OneFilesLines(files, a, 0);
      OneFilesLines(files, b, j);
    }
  }

  lemma SplitKeepsAll(inputs: seq<string>, wanted: int)
    ensures multiset(Flatten(Split(inputs, wanted))) == multiset(inputs)
  {
    if inputs != [] {
      DealKeepsAll(inputs, if wanted < 1 then 1 else if wanted > |inputs| then |inputs| else wanted);
    }
  }

  /** However many map tasks the input is split into, together they read the same lines. */
  lemma SplitsHoldTheInput(files: Files, inputs: seq<string>, wanted: int)
    ensures multiset(Flatten(TaskLines(files, Split(inputs, wanted)))) == multiset(InputLines(files, inputs))
  {
    TaskLinesFlat(files, Split(inputs, wanted));
    SplitKeepsAll(inputs, wanted);
    InputLinesBag(files, Flatten(Split(inputs, wanted)), inputs);
  }

  /**
   * Two ways of running the same job on the same input files give every key the same results, for any numbers of map
   * tasks asked for, spill limits and numbers of reducers, with or without a combiner.
   */
  lemma SameResultsForAnySplit(job: Job, combine: Option<(string, seq<string>) -> seq<string>>,
                               files: Files, inputs: seq<string>,
                               wantedA: int, limitA: nat, reducersA: nat,
                               wantedB: int, limitB: nat, reducersB: nat, k: string)
    requires Routes(job) && reducersA > 0 && reducersB > 0
    requires OrderFree(job) && CombinerAgrees(job) && KeepsKeys(job)
    requires var other := job.(combine := combine); CombinerAgrees(other) && KeepsKeys(other)
    ensures var a, b := TaskLines(files, Split(inputs, wantedA)), TaskLines(files, Split(inputs, wantedB));
            var other := job.(combine := combine);
            Results(job, a, limitA, job.partition(k, reducersA), reducersA, k) ==
            Results(other, b, limitB, job.partition(k, reducersB), reducersB, k)
  {
    var a, b := TaskLines(files, Split(inputs, wantedA)), TaskLines(files, Split(inputs, wantedB));
    SplitsHoldTheInput(files, inputs, wantedA);
    SplitsHoldTheInput(files, inputs, wantedB);
    SameResults(job, combine, a, limitA, reducersA, b, limitB, reducersB, k);
  }
}
