/** The shared directory of a job and the dealing of input files to map tasks. */
module Storage {
  import opened Base
  import opened Records
  import opened StableSorting

  /** A partitioned set of files: one of a map task's spilled runs, or its final output. */
  datatype Stage = Spilled(task: nat, run: nat) | Final(task: nat)

  datatype Path =
    | InputPath(name: string)
    | StagePath(stage: Stage, partition: nat)
    | OutputPath(partition: nat)

  function SpillPath(task: nat, run: nat, partition: nat): Path {
    StagePath(Spilled(task, run), partition)
  }

  function IntermediatePath(task: nat, partition: nat): Path {
    StagePath(Final(task), partition)
  }

  type Files = map<Path, string>

  predicate SameAt(a: Files, b: Files, path: Path) {
    (path in a <==> path in b) && (path in a ==> a[path] == b[path])
  }

  /** `files` after the texts of the first `upto` partitions of a stage have been written. */
  function WithParts(files: Files, stage: Stage, text: nat -> string, upto: nat): Files {
    if upto == 0 then files
    else WithParts(files, stage, text, upto - 1)[StagePath(stage, upto - 1) := text(upto - 1)]
  }

  lemma {:induction false} PartsWritten(files: Files, stage: Stage, text: nat -> string, upto: nat, path: Path)
    ensures var r := WithParts(files, stage, text, upto);
            if path.StagePath? && path.stage == stage && path.partition < upto
            then path in r && r[path] == text(path.partition) else SameAt(r, files, path)
  {
    if upto > 0 {
      PartsWritten(files, stage, text, upto - 1, path);
    }
  }

  class FileSystem {
    var files: Files

    /** A file appears whole or not at all. */
    method WriteAtomic(path: Path, text: string)
      modifies this
      ensures files == old(files)[path := text]
    {
      files := files[path := text];
    }

    method Remove(path: Path)
      modifies this
      ensures files == old(files) - {path}
    {
      files := files - {path};
    }
  }

  /** The hand that gets item `k` when `n` hands take turns. */
  function Hand(k: nat, n: nat): (h: nat)
    requires n > 0
    ensures h < n
  {
    if k == 0 || Hand(k - 1, n) == n - 1 then 0 else Hand(k - 1, n) + 1
  }

  /** `files` dealt out one at a time to `n` hands. */
  function Deal<T>(files: seq<T>, n: nat): (g: seq<seq<T>>)
    requires n > 0
    ensures |g| == n
  {
    if files == [] then seq(n, _ => []) else
    var last := |files| - 1;
    var g := Deal(files[..last], n);
    g[Hand(last, n) := g[Hand(last, n)] + [files[last]]]
  }

  /** The files of each map task, when `wanted` tasks are asked for: at least one task and at least one file each. */
  function Split(files: seq<string>, wanted: int): seq<seq<string>> {
    if files == [] then []
    else Deal(files, if wanted < 1 then 1 else if wanted > |files| then |files| else wanted)
  }

  method SplitFiles(files: seq<string>, wanted: int) returns (groups: seq<seq<string>>)
    ensures groups == Split(files, wanted)
  {
    var n := wanted;
    if n < 1 {
      n := 1;
    }
    if n > |files| {
      n := |files|;
    }
    groups := seq(n, _ => []);
    for i := 0 to |files|
      invariant |groups| == n && (n > 0 ==> groups == Deal(files[..i], n))
    {
      HandIsRemainder(i, n);
      groups := groups[i % n := groups[i % n] + [files[i]]];
      assert files[..i + 1][..i] == files[..i];
    }
    assert files[..|files|] == files;
  }

  lemma {:induction false} EmptyHands<T>(n: nat)
    ensures Flatten<T>(seq(n, _ => [])) == []
  {
    if n > 0 {
      var hands: seq<seq<T>> := seq(n, _ => []);
      assert hands[1..] == seq(n - 1, _ => []);
      EmptyHands<T>(n - 1);
    }
  }

  lemma FlattenGrow<T>(g: seq<seq<T>>, i: nat, x: T)
    requires i < |g|
    ensures multiset(Flatten(g[i := g[i] + [x]])) == multiset(Flatten(g)) + multiset{x}
  {
    var h := g[i := g[i] + [x]];
    FlattenSplit(g, i);
    FlattenSplit(h, i);
    assert h[..i] == g[..i] && h[i + 1..] == g[i + 1..];
  }

  /** Every file goes to exactly one map task. */
  lemma {:induction false} DealKeepsAll<T>(files: seq<T>, n: nat)
    requires n > 0
    ensures multiset(Flatten(Deal(files, n))) == multiset(files)
  {
    if files == [] {
      EmptyHands<T>(n);
    } else {
      var last := |files| - 1;
      DealKeepsAll(files[..last], n);
      FlattenGrow(Deal(files[..last], n), Hand(last, n), files[last]);
      assert files == files[..last] + [files[last]];
    }
  }

  /** Item `k` is the one in place `k / n` of hand `k % n`: the hands take turns. */
  lemma {:induction false} DealTakesTurns<T>(files: seq<T>, n: nat, k: nat)
    requires n > 0 && k < |files|
    ensures k / n < |Deal(files, n)[k % n]| && Deal(files, n)[k % n][k / n] == files[k]
  {
    var last := |files| - 1;
    var before := Deal(files[..last], n);
    HandIsRemainder(last, n);
    if k < last {
      DealTakesTurns(files[..last], n, k);
    } else {
      HandHolds(files[..last], n, last % n);
    }
  }

  /** A hand holds one item for each of its turns so far. */
  lemma {:induction false} HandHolds<T>(files: seq<T>, n: nat, h: nat)
    requires n > 0 && h < n
    ensures |Deal(files, n)[h]| == |files| / n + if h < |files| % n then 1 else 0
  {
    if files == [] {
      Divided(0, n, 0, 0);
    } else {
      var last := |files| - 1;
      HandHolds(files[..last], n, h);
      HandIsRemainder(last, n);
      NextTurn(last, n);
    }
  }

  lemma NextTurn(k: nat, n: nat)
    requires n > 0
    ensures (k + 1) / n == k / n + if k % n == n - 1 then 1 else 0
    ensures (k + 1) % n == if k % n == n - 1 then 0 else k % n + 1
  {
    var q, r := k / n, k % n;
    if r == n - 1 {
      assert n * (q + 1) == n * q + n;
      Divided(k + 1, n, q + 1, 0);
    } else {
      Divided(k + 1, n, q, r + 1);
    }
  }

  /** The hands already served in the current round hold one item more than the others. */
  predicate Fair<T>(g: seq<seq<T>>, next: nat) {
    forall i, j | 0 <= i < j < |g| :: |g[i]| == |g[j]| + (if i < next <= j then 1 else 0)
  }

  /** The map tasks' shares differ by at most one file. */
  lemma {:induction false} DealIsFair<T>(files: seq<T>, n: nat)
    requires n > 0
    ensures Fair(Deal(files, n), Hand(|files|, n))
  {
    if files != [] {
      var last := |files| - 1;
      DealIsFair(files[..last], n);
    }
  }

  lemma {:induction false} HandIsRemainder(k: nat, n: nat)
    requires n > 0
    ensures Hand(k, n) == k % n
  {
    if k == 0 {
      Divided(0, n, 0, 0);
    } else {
      HandIsRemainder(k - 1, n);
      NextTurn(k - 1, n);
    }
  }
}
