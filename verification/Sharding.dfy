/** How `parallelFor` splits a range of rows between the calling thread and the pool's workers. */
module Sharding {
  import opened Base

  datatype Range = Range(begin: nat, end: nat)

  /** Consecutive ranges of `chunk` rows from `begin` on, the last one cut off at `count`. */
  function Ranges(count: nat, chunk: nat, begin: nat): seq<Range>
    requires chunk > 0
    decreases if begin < count then count - begin else 0
  {
    if begin >= count then []
    else [Range(begin, if begin + chunk > count then count else begin + chunk)] + Ranges(count, chunk, begin + chunk)
  }

  /** The ranges tile `begin..count`: non-empty, each starting where the one before it ends. */
  predicate Tiles(ranges: seq<Range>, begin: nat, count: nat) {
    if ranges == [] then begin == count
    else ranges[0].begin == begin < ranges[0].end <= count && Tiles(ranges[1..], ranges[0].end, count)
  }

  lemma {:induction false} RangesTile(count: nat, chunk: nat, begin: nat)
    requires chunk > 0 && begin <= count
    ensures Tiles(Ranges(count, chunk, begin), begin, count)
    decreases count - begin
  {
    if begin < count && begin + chunk <= count {
      RangesTile(count, chunk, begin + chunk);
    }
  }

  predicate Inside(r: Range, row: nat) {
    r.begin <= row < r.end
  }

  /** Every row is in exactly one range. */
  lemma {:induction false} TilesCover(ranges: seq<Range>, begin: nat, count: nat, row: nat)
    requires Tiles(ranges, begin, count)
    ensures begin <= row < count ==> exists i :: 0 <= i < |ranges| && Inside(ranges[i], row)
    ensures forall i | 0 <= i < |ranges| :: Inside(ranges[i], row) ==> begin <= row < count
    ensures forall i, j | 0 <= i < j < |ranges| :: !(Inside(ranges[i], row) && Inside(ranges[j], row))
  {
    if ranges != [] {
      TilesCover(ranges[1..], ranges[0].end, count, row);
      if ranges[0].end <= row < count {
        var i :| 0 <= i < |ranges[1..]| && Inside(ranges[1..][i], row);
        assert Inside(ranges[i + 1], row);
      } else if begin <= row < count {
        assert Inside(ranges[0], row);
      }
      TilesOrdered(ranges, begin, count);
    }
  }

  lemma {:induction false} TilesOrdered(ranges: seq<Range>, begin: nat, count: nat)
    requires Tiles(ranges, begin, count)
    ensures begin <= count && forall i | 0 <= i < |ranges| :: begin <= ranges[i].begin < ranges[i].end <= count
    ensures forall i, j | 0 <= i < j < |ranges| :: ranges[i].end <= ranges[j].begin
  {
    if ranges != [] {
      TilesOrdered(ranges[1..], ranges[0].end, count);
    }
  }

  function ShardCount(count: nat, minChunk: nat, workers: nat): nat
    requires minChunk > 0
  {
    var maxShards := (count + minChunk - 1) / minChunk;
    if workers + 1 > maxShards then maxShards else workers + 1
  }

  /** The ranges `parallelFor` hands out; all of the range at once when it runs inline. */
  function Shards(count: nat, minChunk: nat, workers: nat, inside: bool): seq<Range> {
    if count == 0 then [] else
    var shards := ShardCount(count, if minChunk == 0 then 1 else minChunk, workers);
    if shards <= 1 || workers == 0 || inside then [Range(0, count)]
    else Ranges(count, (count + shards - 1) / shards, 0)
  }

  lemma RoundedUp(count: nat, shards: nat)
    requires shards > 0
    ensures var chunk := (count + shards - 1) / shards;
            chunk * shards >= count && (count > 0 ==> chunk > 0)
  {
    var n := count + shards - 1;
    assert n == n / shards * shards + n % shards;
  }

  // ----- how many ranges, and how long -----

  /** What is left after one more chunk leaves the same remainder. */
  lemma RemainderLess(rest: nat, chunk: nat)
    requires 0 < chunk <= rest
    ensures (rest - chunk) % chunk == rest % chunk
  {
    var q, r := (rest - chunk) / chunk, (rest - chunk) % chunk;
    assert rest == chunk * (q + 1) + r;
    Divided(rest, chunk, q + 1, r);
  }

  predicate AtLeast(ranges: seq<Range>, m: nat) {
    forall r <- ranges :: r.end - r.begin >= m
  }

  lemma {:induction false} RangesAtLeast(count: nat, chunk: nat, begin: nat, m: nat)
    requires chunk > 0 && begin < count
    ensures AtLeast(Ranges(count, chunk, begin), m) <==>
              var rest := count - begin;
              (rest >= chunk ==> chunk >= m) && (rest % chunk == 0 || rest % chunk >= m)
    decreases count - begin
  {
    var all, rest := Ranges(count, chunk, begin), count - begin;
    if rest <= chunk {
      assert Ranges(count, chunk, begin + chunk) == [];
      assert all == [Range(begin, count)];
      if rest == chunk {
        Divided(rest, chunk, 1, 0);
      } else {
        Divided(rest, chunk, 0, rest);
      }
      assert all[0] in all;
    } else {
      RangesAtLeast(count, chunk, begin + chunk, m);
      RemainderLess(rest, chunk);
      var tail := Ranges(count, chunk, begin + chunk);
      assert all == [Range(begin, begin + chunk)] + tail;
      assert AtLeast(all, m) <==> chunk >= m && AtLeast(tail, m) by {
        assert all[0] in all && forall r <- tail :: r in all;
      }
    }
  }

  /** The call takes the whole range itself. */
  predicate Inline(count: nat, minChunk: nat, workers: nat, inside: bool) {
    ShardCount(count, if minChunk == 0 then 1 else minChunk, workers) <= 1 || workers == 0 || inside
  }

  /** How long the ranges are, but for the last. */
  function ChunkOf(count: nat, minChunk: nat, workers: nat): nat
    requires count > 0
  {
    var m := if minChunk == 0 then 1 else minChunk;
    SomeShards(count, m);
    (count + ShardCount(count, m, workers) - 1) / ShardCount(count, m, workers)
  }

  lemma SomeShards(count: nat, m: nat)
    requires count > 0 && m > 0
    ensures (count + m - 1) / m >= 1
  {
    var q, r := (count + m - 1) / m, (count + m - 1) % m;
    assert count + m - 1 == m * q + r;
    assert q == 0 ==> m * q == 0;
  }

  /**
   * `minChunk` keeps ranges from being shorter exactly when the chunk is no shorter and neither is what is left
   * for the last range; when the call runs inline, exactly when there are that many rows.
   */
  lemma MinChunkIsKept(count: nat, minChunk: nat, workers: nat, inside: bool)
    requires count > 0
    ensures var m := if minChunk == 0 then 1 else minChunk;
            AtLeast(Shards(count, minChunk, workers, inside), m) <==>
              if Inline(count, minChunk, workers, inside) then count >= m
              else var chunk := ChunkOf(count, minChunk, workers);
                   chunk >= m && (count % chunk == 0 || count % chunk >= m)
  {
    var m := if minChunk == 0 then 1 else minChunk;
    var ranges := Shards(count, minChunk, workers, inside);
    SomeShards(count, m);
    if Inline(count, minChunk, workers, inside) {
      assert ranges == [Range(0, count)] && ranges[0] in ranges;
    } else {
      var shards, chunk := ShardCount(count, m, workers), ChunkOf(count, minChunk, workers);
      RoundedUp(count, shards);
      RangesAtLeast(count, chunk, 0, m);
    }
  }

  lemma {:induction false} RangesFew(count: nat, chunk: nat, begin: nat, k: nat)
    requires chunk > 0 && begin + chunk * k >= count
    ensures |Ranges(count, chunk, begin)| <= k
    decreases k
  {
    if begin < count {
      assert k == 0 ==> chunk * k == 0;
      OneFewer(chunk, k);
      RangesFew(count, chunk, begin + chunk, k - 1);
    }
  }

  /** What `minChunk` does bound: there are no more ranges than chunks of that length. */
  lemma MinChunkBoundsShards(count: nat, minChunk: nat, workers: nat, inside: bool)
    ensures var m := if minChunk == 0 then 1 else minChunk;
            |Shards(count, minChunk, workers, inside)| <= (count + m - 1) / m
  {
    var m := if minChunk == 0 then 1 else minChunk;
    if count > 0 {
      SomeShards(count, m);
      if !Inline(count, minChunk, workers, inside) {
        var shards := ShardCount(count, m, workers);
        RoundedUp(count, shards);
        RangesFew(count, (count + shards - 1) / shards, 0, shards);
      }
    }
  }

  // ----- the ranges themselves -----

  lemma {:induction false} RangesAre(count: nat, chunk: nat, begin: nat)
    requires chunk > 0 && begin < count
    ensures var ranges := Ranges(count, chunk, begin);
            && |ranges| > 0
            && begin + (|ranges| - 1) * chunk < count <= begin + |ranges| * chunk
            && forall i | 0 <= i < |ranges| :: ranges[i] ==
                 Range(begin + i * chunk, if i < |ranges| - 1 then begin + (i + 1) * chunk else count)
    decreases count - begin
  {
    var ranges := Ranges(count, chunk, begin);
    if begin + chunk >= count {
      assert Ranges(count, chunk, begin + chunk) == [];
    } else {
      var rest := Ranges(count, chunk, begin + chunk);
      RangesAre(count, chunk, begin + chunk);
      Multiples(chunk, |rest|);
      assert ranges == [Range(begin, begin + chunk)] + rest;
      forall i | 0 < i < |ranges|
        ensures ranges[i] == Range(begin + i * chunk, if i < |ranges| - 1 then begin + (i + 1) * chunk else count)
      {
        Multiples(chunk, i);
        assert ranges[i] == rest[i - 1];
      }
    }
  }

  lemma Multiples(chunk: nat, i: nat)
    ensures (i + 1) * chunk == chunk + i * chunk
    ensures i > 0 ==> i * chunk == chunk + (i - 1) * chunk
  {
  }

  /** `k` pieces of `d` are just enough for `n`. */
  predicate JustEnough(n: nat, d: nat, k: nat) {
    d * k >= n && (k > 0 ==> d * (k - 1) < n)
  }

  lemma EnoughIsQuotient(n: nat, d: nat, k: nat)
    requires n > 0 && d > 0 && JustEnough(n, d, k)
    ensures (n + d - 1) / d == k
  {
    assert k > 0;
    OneFewer(d, k);
    Divided(n + d - 1, d, k, n + d - 1 - d * k);
  }

  /** Range `i` begins at row `i * chunk`, and the last one ends with the rows. */
  predicate InChunks(ranges: seq<Range>, count: nat, chunk: nat) {
    && JustEnough(count, chunk, |ranges|)
    && forall i | 0 <= i < |ranges| :: ranges[i] ==
         Range(i * chunk, if i < |ranges| - 1 then (i + 1) * chunk else count)
  }

  lemma RangesInChunks(count: nat, chunk: nat)
    requires count > 0 && chunk > 0
    ensures InChunks(Ranges(count, chunk, 0), count, chunk)
  {
    RangesAre(count, chunk, 0);
  }

  lemma ShardsBy(count: nat, minChunk: nat, workers: nat, inside: bool, shards: nat, chunk: nat)
    requires count > 0 && shards > 0 && shards == ShardCount(count, if minChunk == 0 then 1 else minChunk, workers)
    requires chunk > 0 && chunk == (count + shards - 1) / shards
    ensures Shards(count, minChunk, workers, inside) ==
            if shards == 1 || workers == 0 || inside then [Range(0, count)] else Ranges(count, chunk, 0)
  {
    hide Ranges, ShardCount;
  }

  lemma FewerShards(count: nat, m: nat, workers: nat, k: nat)
    requires count > 0 && m > 0 && JustEnough(count, m, k)
    ensures k > 0 && ShardCount(count, m, workers) == if workers + 1 < k then workers + 1 else k
  {
    EnoughIsQuotient(count, m, k);
  }

  /**
   * With `k` pieces of `minChunk` just enough for the rows, there are as many shards as pieces or threads, whichever
   * is less. One shard is the whole range. More shards make the least chunk that is enough, and the ranges are these
   * chunks; there may be fewer of them than shards.
   */
  lemma ShardsExactly(count: nat, minChunk: nat, workers: nat, inside: bool, k: nat, chunk: nat)
    requires count > 0 && JustEnough(count, if minChunk == 0 then 1 else minChunk, k)
    requires JustEnough(count, if workers + 1 < k then workers + 1 else k, chunk)
    ensures var ranges := Shards(count, minChunk, workers, inside);
            if k == 1 || workers == 0 || inside then ranges == [Range(0, count)]
            else InChunks(ranges, count, chunk)
  {
    hide Shards, ShardCount, Ranges, InChunks;
    FewerShards(count, if minChunk == 0 then 1 else minChunk, workers, k);
    var shards := if workers + 1 < k then workers + 1 else k;
    EnoughIsQuotient(count, shards, chunk);
    SomeChunk(count, shards, chunk);
    hide JustEnough;
    ShardsBy(count, minChunk, workers, inside, shards, chunk);
    RangesInChunks(count, chunk);
  }

  lemma SomeChunk(count: nat, shards: nat, chunk: nat)
    requires count > 0 && JustEnough(count, shards, chunk)
    ensures chunk > 0
  {
  }

  // ----- the code -----

  method ParallelFor(count: nat, minChunk: nat, workers: nat, inside: bool) returns (ranges: seq<Range>)
    ensures ranges == Shards(count, minChunk, workers, inside)
    ensures Tiles(ranges, 0, count)
  {
    if count == 0 {
      return [];
    }
    var least := if minChunk == 0 then 1 else minChunk;
    var maxShards := (count + least - 1) / least;
    var shards := workers + 1;
    if shards > maxShards {
      shards := maxShards;
    }
    if shards <= 1 || workers == 0 || inside {
      return [Range(0, count)];
    }
    var chunk := (count + shards - 1) / shards;
    RoundedUp(count, shards);
    ranges := Split(count, chunk, shards);
    RangesTile(count, chunk, 0);
  }

  /** The length of `n` chunks. */
  function Span(chunk: nat, n: nat): nat {
    if n == 0 then 0 else chunk + Span(chunk, n - 1)
  }

  lemma {:induction false} SpanIsProduct(chunk: nat, n: nat)
    ensures Span(chunk, n) == chunk * n
  {
    if n > 0 {
      SpanIsProduct(chunk, n - 1);
      OneFewer(chunk, n);
    }
  }

  /** `s * chunk` for each shard `s`, which the loop carries along. */
  method Split(count: nat, chunk: nat, shards: nat) returns (ranges: seq<Range>)
    requires chunk > 0 && chunk * shards >= count
    ensures ranges == Ranges(count, chunk, 0)
  {
    SpanIsProduct(chunk, shards);
    ranges := [];
    var begin := 0;
    for s := 0 to shards
      invariant begin + Span(chunk, shards - s) >= count
      invariant ranges + Ranges(count, chunk, begin) == Ranges(count, chunk, 0)
    {
      if begin >= count {
        return;
      }
      var end := begin + chunk;
      if end > count {
        end := count;
      }
      ranges := ranges + [Range(begin, end)];
      begin := begin + chunk;
    }
  }

  lemma OneFewer(chunk: nat, k: nat)
    requires k > 0
    ensures chunk * k == chunk + chunk * (k - 1)
  {
  }

  lemma NineInThrees()
    ensures Ranges(9, 3, 0) == [Range(0, 3), Range(3, 6), Range(6, 9)]
  {
    assert Ranges(9, 3, 9) == [];
    assert Ranges(9, 3, 6) == [Range(6, 9)];
    assert Ranges(9, 3, 3) == [Range(3, 6), Range(6, 9)];
  }

  /** `minChunk` is no lower bound on the length of a range: nine rows in fours go out in threes. */
  lemma MinChunkIsNoLowerBound()
    ensures Shards(9, 4, 7, false) == [Range(0, 3), Range(3, 6), Range(6, 9)]
    ensures !AtLeast(Shards(9, 4, 7, false), 4)
  {
    var threes := [Range(0, 3), Range(3, 6), Range(6, 9)];
    ShardsBy(9, 4, 7, false, 3, 3);
    NineInThrees();
    hide Shards, Ranges;
    assert threes[0] in threes;
  }
}
