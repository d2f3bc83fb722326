/** The pooled arena allocator: chunks, size classes and free lists. Addresses are numbers. */
module Allocator {
  import opened Base

  const ALIGNMENT: nat := 64

  // ----- size classes -----

  function Rounded(bytes: nat): nat {
    (bytes + ALIGNMENT - 1) / ALIGNMENT * ALIGNMENT
  }

  /** `cls` doubled until it is at least `rounded`. */
  function Doubled(cls: nat, rounded: nat): nat
    requires cls > 0
    decreases if cls < rounded then rounded - cls else 0
  {
    if cls >= rounded then cls else Doubled(2 * cls, rounded)
  }

  function SizeClass(bytes: nat): nat {
    Doubled(ALIGNMENT, Rounded(bytes))
  }

  predicate Aligned(a: nat) {
    a % ALIGNMENT == 0
  }

  lemma RoundedUp(bytes: nat)
    ensures Aligned(Rounded(bytes)) && bytes <= Rounded(bytes) < bytes + ALIGNMENT
  {
  }

  lemma {:induction false} DoubledFits(cls: nat, rounded: nat, bytes: nat)
    requires cls > 0 && Aligned(cls) && Aligned(rounded) && bytes <= rounded < bytes + ALIGNMENT
    ensures Aligned(Doubled(cls, rounded)) && Doubled(cls, rounded) >= bytes
    ensures Doubled(cls, rounded) > cls ==> Doubled(cls, rounded) < 2 * bytes
    decreases if cls < rounded then rounded - cls else 0
  {
    if cls < rounded {
      DoubledFits(2 * cls, rounded, bytes);
    }
  }

  /** A block is aligned, large enough, and less than twice what was asked for beyond the smallest class. */
  lemma SizeClassFits(bytes: nat)
    ensures Aligned(SizeClass(bytes)) && SizeClass(bytes) >= ALIGNMENT
    ensures bytes <= SizeClass(bytes) && (bytes > ALIGNMENT ==> SizeClass(bytes) < 2 * bytes)
  {
    RoundedUp(bytes);
    DoubledFits(ALIGNMENT, Rounded(bytes), bytes);
    DoubledGrows(ALIGNMENT, Rounded(bytes));
  }

  lemma {:induction false} DoubledGrows(cls: nat, rounded: nat)
    requires cls > 0
    ensures Doubled(cls, rounded) >= cls
    decreases if cls < rounded then rounded - cls else 0
  {
    if cls < rounded {
      DoubledGrows(2 * cls, rounded);
    }
  }

  function PowerOfTwo(k: nat): (p: nat)
    ensures p >= 1
  {
    if k == 0 then 1 else 2 * PowerOfTwo(k - 1)
  }

  /** A class is 64 bytes times a power of two, the smallest such that holds what was asked for. */
  lemma SizeClassExactly(bytes: nat) returns (k: nat)
    ensures SizeClass(bytes) == 64 * PowerOfTwo(k) >= bytes && (k > 0 ==> 64 * PowerOfTwo(k - 1) < bytes)
  {
    RoundedUp(bytes);
    k := DoubledExactly(0, bytes);
  }

  /** A multiple of 64 below the rounded size is below the size. */
  lemma BelowRounded(p: nat, bytes: nat)
    requires 64 * p < Rounded(bytes)
    ensures 64 * p < bytes
  {
  }

  lemma {:induction false} DoubledExactly(j: nat, bytes: nat) returns (k: nat)
    requires j > 0 ==> 64 * PowerOfTwo(j - 1) < bytes
    ensures Doubled(64 * PowerOfTwo(j), Rounded(bytes)) == 64 * PowerOfTwo(k) >= bytes
    ensures k > 0 ==> 64 * PowerOfTwo(k - 1) < bytes
    decreases if 64 * PowerOfTwo(j) < Rounded(bytes) then Rounded(bytes) - 64 * PowerOfTwo(j) else 0
  {
    RoundedUp(bytes);
    var p, r := PowerOfTwo(j), Rounded(bytes);
    hide Rounded;
    if 64 * p >= r {
      return j;
    }
    BelowRounded(p, bytes);
    k := DoubledExactly(j + 1, bytes);
  }

  method ComputeSizeClass(bytes: nat) returns (cls: nat)
    ensures cls == SizeClass(bytes)
  {
    var rounded := (bytes + ALIGNMENT - 1) / ALIGNMENT * ALIGNMENT;
    cls := ALIGNMENT;
    while cls < rounded
      invariant cls > 0 && Doubled(cls, rounded) == SizeClass(bytes)
      decreases rounded - cls
    {
      cls := cls * 2;
    }
  }

  // ----- memory -----

  datatype Chunk = Chunk(addr: nat, size: nat)

  /** A block carved from a chunk, in use or on a free list. */
  datatype Block = Block(addr: nat, cls: nat, live: bool)

  predicate Apart(a: nat, aSize: nat, b: nat, bSize: nat) {
    a + aSize <= b || b + bSize <= a
  }

  predicate ChunksRight(chunks: seq<Chunk>) {
    && (forall i | 0 <= i < |chunks| :: Aligned(chunks[i].addr))
    && forall i, j | 0 <= i < j < |chunks| :: Apart(chunks[i].addr, chunks[i].size, chunks[j].addr, chunks[j].size)
  }

  predicate Within(b: Block, c: Chunk) {
    c.addr <= b.addr && b.addr + b.cls <= c.addr + c.size
  }

  predicate Placed(b: Block, chunks: seq<Chunk>) {
    Aligned(b.addr) && b.cls >= ALIGNMENT && Aligned(b.cls) && exists c <- chunks :: Within(b, c)
  }

  /** Every block is aligned, inside one chunk, and apart from every other. */
  predicate BlocksRight(blocks: seq<Block>, chunks: seq<Chunk>) {
    && (forall i | 0 <= i < |blocks| :: Placed(blocks[i], chunks))
    && forall i, j | 0 <= i < j < |blocks| :: Apart(blocks[i].addr, blocks[i].cls, blocks[j].addr, blocks[j].cls)
  }

  /** The uncarved end of the newest chunk. */
  predicate CursorRight(cursor: nat, remaining: nat, blocks: seq<Block>, chunks: seq<Chunk>) {
    && Aligned(cursor)
    && (chunks == [] ==> remaining == 0)
    && (chunks != [] ==> var c := chunks[|chunks| - 1]; c.addr <= cursor && cursor + remaining == c.addr + c.size)
    && forall i | 0 <= i < |blocks| :: Apart(blocks[i].addr, blocks[i].cls, cursor, remaining)
  }

  // ----- free lists -----

  function FreeOf(lists: map<nat, seq<nat>>, cls: nat): seq<nat> {
    if cls in lists then lists[cls] else []
  }

  predicate NoRepeats(s: seq<nat>) {
    forall i, j | 0 <= i < j < |s| :: s[i] != s[j]
  }

  /** A block is free exactly when its address is on its class's list, once. */
  ghost predicate ListsRight(lists: map<nat, seq<nat>>, blocks: seq<Block>) {
    && (forall cls: nat :: NoRepeats(FreeOf(lists, cls)))
    && (forall i | 0 <= i < |blocks| :: !blocks[i].live <==> blocks[i].addr in FreeOf(lists, blocks[i].cls))
    && forall cls: nat, a <- FreeOf(lists, cls) :: BlockAt(blocks, a, cls)
  }

  predicate BlockAt(blocks: seq<Block>, a: nat, cls: nat) {
    exists b <- blocks :: b.addr == a && b.cls == cls
  }

  // ----- counts -----

  function LiveSize(b: Block): int {
    if b.live then b.cls else 0
  }

  function LiveIn(cls: nat): Block -> int {
    (b: Block) => if b.live && b.cls == cls then 1 else 0
  }

  function CarvedIn(cls: nat): Block -> int {
    (b: Block) => if b.cls == cls then 1 else 0
  }

  function Higher(peak: int, live: int): int {
    if live > peak then live else peak
  }

  /** The most blocks of a class ever in use at once. */
  function PeakOf(peaks: map<nat, int>, cls: nat): int {
    if cls in peaks then peaks[cls] else 0
  }

  function Raised(peaks: map<nat, int>, cls: nat, live: int): map<nat, int> {
    peaks[cls := Higher(PeakOf(peaks, cls), live)]
  }

  /** As many blocks of a class were carved as were ever in use at once. */
  ghost predicate CountsRight(blocks: seq<Block>, peaks: map<nat, int>) {
    forall cls: nat :: CountRight(blocks, peaks, cls)
  }

  predicate CountRight(blocks: seq<Block>, peaks: map<nat, int>, cls: nat) {
    Sum(blocks, LiveIn(cls)) <= Sum(blocks, CarvedIn(cls)) == PeakOf(peaks, cls)
  }

  // ----- a new chunk -----

  predicate Fresh(chunk: Chunk, chunks: seq<Chunk>) {
    Aligned(chunk.addr) && forall c <- chunks :: Apart(c.addr, c.size, chunk.addr, chunk.size)
  }

  /** There is always room for another chunk. */
  function Beyond(chunks: seq<Chunk>): (a: nat)
    ensures Aligned(a) && forall c <- chunks :: c.addr + c.size <= a
  {
    if chunks == [] then 0 else
    var n := |chunks| - 1;
    var a := Beyond(chunks[..n]);
    RoundedUp(chunks[n].addr + chunks[n].size);
    assert chunks == chunks[..n] + [chunks[n]];
    if a < chunks[n].addr + chunks[n].size then Rounded(chunks[n].addr + chunks[n].size) else a
  }

  lemma NewChunkRight(blocks: seq<Block>, chunks: seq<Chunk>, c: Chunk)
    requires ChunksRight(chunks) && BlocksRight(blocks, chunks) && Fresh(c, chunks)
    ensures ChunksRight(chunks + [c]) && BlocksRight(blocks, chunks + [c]) &&
            CursorRight(c.addr, c.size, blocks, chunks + [c])
  {
    var more := chunks + [c];
    forall i | 0 <= i < |chunks| ensures Apart(chunks[i].addr, chunks[i].size, c.addr, c.size) {
      assert chunks[i] in chunks;
    }
    forall i | 0 <= i < |blocks|
      ensures Placed(blocks[i], more) && Apart(blocks[i].addr, blocks[i].cls, c.addr, c.size)
    {
      assert Placed(blocks[i], chunks);
      var k :| k in chunks && Within(blocks[i], k);
      assert k in more && Apart(k.addr, k.size, c.addr, c.size);
    }
  }

  // ----- carving -----

  lemma CarvePlaces(blocks: seq<Block>, chunks: seq<Chunk>, cursor: nat, remaining: nat, cls: nat)
    requires BlocksRight(blocks, chunks) && CursorRight(cursor, remaining, blocks, chunks)
    requires ALIGNMENT <= cls <= remaining && Aligned(cls)
    ensures var more := blocks + [Block(cursor, cls, true)];
            BlocksRight(more, chunks) && CursorRight(cursor + cls, remaining - cls, more, chunks)
  {
    var b := Block(cursor, cls, true);
    var more := blocks + [b];
    assert chunks[|chunks| - 1] in chunks && Within(b, chunks[|chunks| - 1]);
    forall i | 0 <= i < |blocks| ensures Apart(more[i].addr, more[i].cls, cursor, cls) {
      assert more[i] == blocks[i] && Apart(blocks[i].addr, blocks[i].cls, cursor, remaining);
    }
    forall i | 0 <= i < |more| ensures Placed(more[i], chunks) {
      assert i < |blocks| ==> Placed(blocks[i], chunks);
    }
  }

  lemma CarveLists(lists: map<nat, seq<nat>>, blocks: seq<Block>, b: Block)
    requires ListsRight(lists, blocks) && b.live && FreeOf(lists, b.cls) == []
    ensures ListsRight(lists, blocks + [b])
  {
    var more := blocks + [b];
    forall i | 0 <= i < |more| ensures !more[i].live <==> more[i].addr in FreeOf(lists, more[i].cls) {
      assert i < |blocks| ==> more[i] == blocks[i];
    }
    forall cls: nat, a | a in FreeOf(lists, cls) ensures BlockAt(more, a, cls) {
      var x :| x in blocks && x.addr == a && x.cls == cls;
      assert x in more;
    }
  }

  lemma {:induction false} AllInUse(blocks: seq<Block>, cls: nat)
    requires forall b <- blocks :: b.cls == cls ==> b.live
    ensures Sum(blocks, LiveIn(cls)) == Sum(blocks, CarvedIn(cls))
  {
    if blocks != [] {
      AllInUse(blocks[1..], cls);
    }
  }

  lemma {:induction false} LiveAmongCarved(blocks: seq<Block>, cls: nat, i: nat)
    requires i < |blocks| && blocks[i].cls == cls && !blocks[i].live
    ensures Sum(blocks, LiveIn(cls)) < Sum(blocks, CarvedIn(cls))
  {
    if i == 0 {
      LiveWithin(blocks[1..], cls);
    } else {
      LiveAmongCarved(blocks[1..], cls, i - 1);
    }
  }

  lemma {:induction false} LiveWithin(blocks: seq<Block>, cls: nat)
    ensures Sum(blocks, LiveIn(cls)) <= Sum(blocks, CarvedIn(cls))
  {
    if blocks != [] {
      LiveWithin(blocks[1..], cls);
    }
  }

  lemma AppendBlock(blocks: seq<Block>, b: Block, f: Block -> int)
    ensures Sum(blocks + [b], f) == Sum(blocks, f) + f(b)
  {
    SumAppend(blocks, [b], f);
    assert [b][1..] == [];
  }

  /** Carving happens only when every block of the class is in use, so it makes a new peak. */
  lemma CarveCounts(lists: map<nat, seq<nat>>, blocks: seq<Block>, peaks: map<nat, int>, b: Block)
    requires ListsRight(lists, blocks) && CountsRight(blocks, peaks) && b.live && FreeOf(lists, b.cls) == []
    ensures CountsRight(blocks + [b], Raised(peaks, b.cls, Sum(blocks + [b], LiveIn(b.cls))))
    ensures Sum(blocks + [b], LiveSize) == Sum(blocks, LiveSize) + b.cls
  {
    AppendBlock(blocks, b, LiveSize);
    forall x | x in blocks && x.cls == b.cls ensures x.live {
      var i :| 0 <= i < |blocks| && blocks[i] == x;
    }
    AllInUse(blocks, b.cls);
    forall cls: nat ensures CountRight(blocks + [b], Raised(peaks, b.cls, Sum(blocks + [b], LiveIn(b.cls))), cls) {
      AppendBlock(blocks, b, LiveIn(cls));
      AppendBlock(blocks, b, CarvedIn(cls));
      assert CountRight(blocks, peaks, cls) && CountRight(blocks, peaks, b.cls);
      AppendBlock(blocks, b, LiveIn(b.cls));
    }
  }

  // ----- taking from and giving to a free list -----

  /** One live block, equal to `b`, has been given back. */
  ghost predicate Freed(before: seq<Block>, after: seq<Block>, b: Block) {
    exists i :: 0 <= i < |before| && before[i] == b && after == Flipped(before, i)
  }

  function Flipped(blocks: seq<Block>, i: nat): seq<Block>
    requires i < |blocks|
  {
    blocks[i := blocks[i].(live := !blocks[i].live)]
  }

  lemma FlipPlaces(blocks: seq<Block>, chunks: seq<Chunk>, cursor: nat, remaining: nat, i: nat)
    requires BlocksRight(blocks, chunks) && CursorRight(cursor, remaining, blocks, chunks) && i < |blocks|
    ensures BlocksRight(Flipped(blocks, i), chunks) && CursorRight(cursor, remaining, Flipped(blocks, i), chunks)
  {
    var f := Flipped(blocks, i);
    forall k | 0 <= k < |f| ensures Placed(f[k], chunks) && Apart(f[k].addr, f[k].cls, cursor, remaining) {
      assert Placed(blocks[k], chunks) && Apart(blocks[k].addr, blocks[k].cls, cursor, remaining);
    }
    forall k, l | 0 <= k < l < |f| ensures Apart(f[k].addr, f[k].cls, f[l].addr, f[l].cls) {
      assert Apart(blocks[k].addr, blocks[k].cls, blocks[l].addr, blocks[l].cls);
    }
  }

  /** No two blocks start at the same address. */
  lemma AddressesDiffer(blocks: seq<Block>, chunks: seq<Chunk>, i: nat, k: nat)
    requires BlocksRight(blocks, chunks) && i < |blocks| && k < |blocks| && i != k
    ensures blocks[i].addr != blocks[k].addr
  {
    assert Placed(blocks[i], chunks) && Placed(blocks[k], chunks);
    assert if i < k then Apart(blocks[i].addr, blocks[i].cls, blocks[k].addr, blocks[k].cls)
           else Apart(blocks[k].addr, blocks[k].cls, blocks[i].addr, blocks[i].cls);
  }

  lemma FlipHolds(blocks: seq<Block>, i: nat, a: nat, cls: nat)
    requires i < |blocks| && BlockAt(blocks, a, cls)
    ensures BlockAt(Flipped(blocks, i), a, cls)
  {
    var b :| b in blocks && b.addr == a && b.cls == cls;
    var k :| 0 <= k < |blocks| && blocks[k] == b;
    assert Flipped(blocks, i)[k] in Flipped(blocks, i);
  }

  lemma ReuseLists(lists: map<nat, seq<nat>>, blocks: seq<Block>, chunks: seq<Chunk>, cls: nat, i: nat)
    requires ListsRight(lists, blocks) && BlocksRight(blocks, chunks) && FreeOf(lists, cls) != []
    requires i < |blocks| && blocks[i].cls == cls && blocks[i].addr == FreeOf(lists, cls)[|FreeOf(lists, cls)| - 1]
    ensures !blocks[i].live
    ensures ListsRight(lists[cls := FreeOf(lists, cls)[..|FreeOf(lists, cls)| - 1]], Flipped(blocks, i))
  {
    var list := FreeOf(lists, cls);
    var n := |list| - 1;
    var after, f := lists[cls := list[..n]], Flipped(blocks, i);
    assert blocks[i].addr in list;
    assert list == list[..n] + [list[n]];
    forall k | 0 <= k < |f| ensures !f[k].live <==> f[k].addr in FreeOf(after, f[k].cls) {
      if k != i {
        AddressesDiffer(blocks, chunks, i, k);
      }
    }
    forall c: nat, a | a in FreeOf(after, c) ensures BlockAt(f, a, c) {
      assert a in FreeOf(lists, c);
      FlipHolds(blocks, i, a, c);
    }
    forall c: nat ensures NoRepeats(FreeOf(after, c)) {
      assert NoRepeats(FreeOf(lists, c));
    }
  }

  lemma FreeLists(lists: map<nat, seq<nat>>, blocks: seq<Block>, chunks: seq<Chunk>, i: nat)
    requires ListsRight(lists, blocks) && BlocksRight(blocks, chunks) && i < |blocks| && blocks[i].live
    ensures var b := blocks[i]; ListsRight(lists[b.cls := FreeOf(lists, b.cls) + [b.addr]], Flipped(blocks, i))
  {
    var b, f := blocks[i], Flipped(blocks, i);
    var list := FreeOf(lists, b.cls);
    var after := lists[b.cls := list + [b.addr]];
    assert b.addr !in list;
    forall k | 0 <= k < |f| ensures !f[k].live <==> f[k].addr in FreeOf(after, f[k].cls) {
      if k != i {
        AddressesDiffer(blocks, chunks, i, k);
      }
    }
    forall c: nat, a | a in FreeOf(after, c) ensures BlockAt(f, a, c) {
      if a in FreeOf(lists, c) {
        FlipHolds(blocks, i, a, c);
      } else {
        assert f[i] in f;
      }
    }
    forall c: nat ensures NoRepeats(FreeOf(after, c)) {
      assert NoRepeats(FreeOf(lists, c));
    }
  }

  /** Reusing a block makes no new peak: the class has had all its blocks in use before. */
  lemma ReuseCounts(blocks: seq<Block>, peaks: map<nat, int>, i: nat)
    requires CountsRight(blocks, peaks) && i < |blocks| && !blocks[i].live
    ensures var f, cls := Flipped(blocks, i), blocks[i].cls;
            CountsRight(f, Raised(peaks, cls, Sum(f, LiveIn(cls)))) && Sum(f, LiveSize) == Sum(blocks, LiveSize) + cls
  {
    var f, b := Flipped(blocks, i), blocks[i];
    SumUpdate(blocks, LiveSize, i, f[i]);
    LiveAmongCarved(blocks, b.cls, i);
    forall cls: nat ensures CountRight(f, Raised(peaks, b.cls, Sum(f, LiveIn(b.cls))), cls) {
      SumUpdate(blocks, LiveIn(cls), i, f[i]);
      SumUpdate(blocks, CarvedIn(cls), i, f[i]);
      SumUpdate(blocks, LiveIn(b.cls), i, f[i]);
      assert CountRight(blocks, peaks, cls) && CountRight(blocks, peaks, b.cls);
    }
  }

  lemma FreeCounts(blocks: seq<Block>, peaks: map<nat, int>, i: nat)
    requires CountsRight(blocks, peaks) && i < |blocks| && blocks[i].live
    ensures CountsRight(Flipped(blocks, i), peaks) &&
            Sum(Flipped(blocks, i), LiveSize) == Sum(blocks, LiveSize) - blocks[i].cls
  {
    var f := Flipped(blocks, i);
    SumUpdate(blocks, LiveSize, i, f[i]);
    forall cls: nat ensures CountRight(f, peaks, cls) {
      SumUpdate(blocks, LiveIn(cls), i, f[i]);
      SumUpdate(blocks, CarvedIn(cls), i, f[i]);
      assert CountRight(blocks, peaks, cls);
    }
  }

  /** One free block has come into use and nothing else has changed. */
  ghost predicate Revived(before: seq<Block>, after: seq<Block>, a: nat, cls: nat) {
    exists i :: 0 <= i < |before| && before[i] == Block(a, cls, false) && after == Flipped(before, i)
  }

  /** Where the block at an address is recorded. */
  ghost function IndexOf(blocks: seq<Block>, a: nat, cls: nat): (i: nat)
    requires BlockAt(blocks, a, cls)
    ensures i < |blocks| && blocks[i].addr == a && blocks[i].cls == cls
  {
    var b :| b in blocks && b.addr == a && b.cls == cls;
    var i :| 0 <= i < |blocks| && blocks[i] == b;
    i
  }

  // ----- the allocator -----

  class PoolAllocator {
    const chunkBytes: nat
    var chunks: seq<Chunk>
    var cursor: nat
    var remaining: nat
    var freeLists: map<nat, seq<nat>>
    var arenaBytes: nat
    var liveBytes: int
    var peakLiveBytes: int
    var hits: nat
    var misses: nat
    /** Every block ever carved, in order, and whether it is in use. */
    ghost var blocks: seq<Block>
    /** For each class, the most blocks of it ever in use at once. */
    ghost var peaks: map<nat, int>

    constructor (chunkBytes: nat)
      ensures Valid() && this.chunkBytes == chunkBytes && blocks == [] && chunks == [] && freeLists == map[]
      ensures liveBytes == peakLiveBytes == 0 && hits == misses == arenaBytes == 0
    {
      this.chunkBytes := chunkBytes;
      chunks, cursor, remaining, freeLists := [], 0, 0, map[];
      arenaBytes, liveBytes, peakLiveBytes, hits, misses := 0, 0, 0, 0, 0;
      blocks, peaks := [], map[];
    }

    ghost predicate Valid()
      reads this
    {
      && ChunksRight(chunks) && BlocksRight(blocks, chunks) && CursorRight(cursor, remaining, blocks, chunks)
      && ListsRight(freeLists, blocks) && CountsRight(blocks, peaks)
      && liveBytes == Sum(blocks, LiveSize) && liveBytes <= peakLiveBytes
    }

    /** Reserves a fresh, aligned chunk somewhere and carves from it from now on. */
    method AddChunk(minimum: nat)
      requires Valid()
      modifies `chunks, `cursor, `remaining, `arenaBytes
      ensures Valid() && remaining == (if chunkBytes > minimum then chunkBytes else minimum)
      ensures chunks == old(chunks) + [Chunk(cursor, remaining)] && arenaBytes == old(arenaBytes) + remaining
    {
      hide ChunksRight, BlocksRight, CursorRight, ListsRight, CountsRight;
      var size := if chunkBytes > minimum then chunkBytes else minimum;
      assert Fresh(Chunk(Beyond(chunks), size), chunks);
      var chunk: Chunk :| chunk.size == size && Fresh(chunk, chunks);
      NewChunkRight(blocks, chunks, chunk);
      chunks := chunks + [chunk];
      cursor := chunk.addr;
      remaining := size;
      arenaBytes := arenaBytes + size;
    }

    /** Makes sure that a block of the class can be carved. */
    method MakeRoom(cls: nat)
      requires Valid()
      modifies `chunks, `cursor, `remaining, `arenaBytes
      ensures Valid() && remaining >= cls
      ensures if old(remaining) >= cls
              then cursor == old(cursor) && chunks == old(chunks) && arenaBytes == old(arenaBytes)
              else
                var size := if chunkBytes > cls then chunkBytes else cls;
                chunks == old(chunks) + [Chunk(cursor, size)] && arenaBytes == old(arenaBytes) + size
    {
      if remaining < cls {
        AddChunk(cls);
      }
    }

    method CountLive(cls: nat)
      modifies `liveBytes, `peakLiveBytes
      ensures liveBytes == old(liveBytes) + cls
      ensures peakLiveBytes == Higher(old(peakLiveBytes), liveBytes)
    {
      liveBytes := liveBytes + cls;
      if liveBytes > peakLiveBytes {
        peakLiveBytes := liveBytes;
      }
    }

    /** Hands out the block of the class that was freed last. */
    method Reuse(cls: nat) returns (a: nat)
      requires Valid() && FreeOf(freeLists, cls) != []
      modifies this
      ensures Valid() && liveBytes == old(liveBytes) + cls && peaks == Raised(old(peaks), cls, Sum(blocks, LiveIn(cls)))
      ensures Revived(old(blocks), blocks, a, cls)
      ensures FreeOf(old(freeLists), cls) == FreeOf(freeLists, cls) + [a]
      ensures forall c: nat | c != cls :: FreeOf(freeLists, c) == FreeOf(old(freeLists), c)
      ensures hits == old(hits) + 1 && misses == old(misses) && arenaBytes == old(arenaBytes) && chunks == old(chunks)
      ensures peakLiveBytes == Higher(old(peakLiveBytes), liveBytes)
    {
      hide ChunksRight, BlocksRight, CursorRight, ListsRight, CountsRight, Raised, LiveIn, Flipped;
      var list := FreeOf(freeLists, cls);
      a := list[|list| - 1];
      FreeIsBlock(freeLists, blocks, cls, a);
      ghost var i := IndexOf(blocks, a, cls);
      ReuseLists(freeLists, blocks, chunks, cls, i);
      ReuseCounts(blocks, peaks, i);
      FlipPlaces(blocks, chunks, cursor, remaining, i);
      freeLists := freeLists[cls := list[..|list| - 1]];
      hits := hits + 1;
      blocks := Flipped(blocks, i);
      peaks := Raised(peaks, cls, Sum(blocks, LiveIn(cls)));
      CountLive(cls);
    }

    /** Carves a new block of the class, from a new chunk if need be. */
    method Carve(cls: nat) returns (a: nat)
      requires Valid() && FreeOf(freeLists, cls) == [] && Aligned(cls) && cls >= ALIGNMENT
      modifies this
      ensures Valid() && liveBytes == old(liveBytes) + cls && peaks == Raised(old(peaks), cls, Sum(blocks, LiveIn(cls)))
      ensures blocks == old(blocks) + [Block(a, cls, true)]
      ensures freeLists == old(freeLists) && misses == old(misses) + 1 && hits == old(hits)
      ensures peakLiveBytes == Higher(old(peakLiveBytes), liveBytes)
      ensures if old(remaining) >= cls then a == old(cursor) && chunks == old(chunks) && arenaBytes == old(arenaBytes)
              else
                var size := if chunkBytes > cls then chunkBytes else cls;
                chunks == old(chunks) + [Chunk(a, size)] && arenaBytes == old(arenaBytes) + size
    {
      hide ChunksRight, BlocksRight, CursorRight, ListsRight, CountsRight, Raised, FreeOf, LiveIn;
      misses := misses + 1;
      MakeRoom(cls);
      a := cursor;
      ghost var b := Block(cursor, cls, true);
      hide Sum;
      CarvePlaces(blocks, chunks, cursor, remaining, cls);
      CarveLists(freeLists, blocks, b);
      CarveCounts(freeLists, blocks, peaks, b);
      blocks := blocks + [b];
      peaks := Raised(peaks, cls, Sum(blocks, LiveIn(cls)));
      cursor := cursor + cls;
      remaining := remaining - cls;
      CountLive(cls);
    }

    /** Hands out a block of the class: the one freed last, or else a new one. Nothing for zero bytes. */
    method Allocate(bytes: nat) returns (ptr: Option<nat>)
      requires Valid()
      modifies this
      ensures Valid()
      ensures bytes == 0 ==> ptr.None? && blocks == old(blocks) && liveBytes == old(liveBytes) && peaks == old(peaks)
      ensures bytes == 0 ==> hits == old(hits) && misses == old(misses) && arenaBytes == old(arenaBytes)
      ensures bytes > 0 ==>
                var cls := SizeClass(bytes);
                && ptr.Some? && liveBytes == old(liveBytes) + cls
                && peaks == Raised(old(peaks), cls, Sum(blocks, LiveIn(cls)))
                && peakLiveBytes == Higher(old(peakLiveBytes), liveBytes)
                && if FreeOf(old(freeLists), cls) == [] then
                     && blocks == old(blocks) + [Block(ptr.value, cls, true)] && freeLists == old(freeLists)
                     && misses == old(misses) + 1 && hits == old(hits)
                     && (old(remaining) >= cls ==> chunks == old(chunks) && arenaBytes == old(arenaBytes))
                     && (old(remaining) < cls ==>
                           var size := if chunkBytes > cls then chunkBytes else cls;
                           chunks == old(chunks) + [Chunk(ptr.value, size)] && arenaBytes == old(arenaBytes) + size)
                   else
                     && Revived(old(blocks), blocks, ptr.value, cls)
                     && FreeOf(old(freeLists), cls) == FreeOf(freeLists, cls) + [ptr.value]
                     && hits == old(hits) + 1 && misses == old(misses)
                     && chunks == old(chunks) && arenaBytes == old(arenaBytes)
    {
      if bytes == 0 {
        return None;
      }
      hide ChunksRight, BlocksRight, CursorRight, ListsRight, CountsRight, SizeClass;
      SizeClassFits(bytes);
      var cls := ComputeSizeClass(bytes);
      var a;
      if FreeOf(freeLists, cls) != [] {
        a := Reuse(cls);
      } else {
        a := Carve(cls);
      }
      return Some(a);
    }

    /** Takes back a block in use, given the size it was asked for with. */
    method Deallocate(ptr: Option<nat>, bytes: nat)
      requires Valid()
      requires ptr.Some? && bytes > 0 ==> Block(ptr.value, SizeClass(bytes), true) in blocks
      modifies this
      ensures Valid() && peaks == old(peaks)
      ensures ptr.None? || bytes == 0 ==> blocks == old(blocks) && liveBytes == old(liveBytes)
      ensures ptr.Some? && bytes > 0 ==>
                && liveBytes == old(liveBytes) - SizeClass(bytes)
                && Freed(old(blocks), blocks, Block(ptr.value, SizeClass(bytes), true))
                && FreeOf(freeLists, SizeClass(bytes)) == FreeOf(old(freeLists), SizeClass(bytes)) + [ptr.value]
      ensures hits == old(hits) && misses == old(misses) && arenaBytes == old(arenaBytes) && chunks == old(chunks)
      ensures peakLiveBytes == old(peakLiveBytes)
    {
      if ptr.None? || bytes == 0 {
        return;
      }
      hide Valid, SizeClass, Freed;
      var cls := ComputeSizeClass(bytes);
      Free(ptr.value, cls);
    }

    method Free(ptr: nat, cls: nat)
      requires Valid() && Block(ptr, cls, true) in blocks
      modifies this
      ensures Valid() && peaks == old(peaks) && liveBytes == old(liveBytes) - cls
      ensures Freed(old(blocks), blocks, Block(ptr, cls, true))
      ensures FreeOf(freeLists, cls) == FreeOf(old(freeLists), cls) + [ptr]
      ensures hits == old(hits) && misses == old(misses) && arenaBytes == old(arenaBytes) && chunks == old(chunks)
      ensures peakLiveBytes == old(peakLiveBytes)
    {
      hide ChunksRight, BlocksRight, CursorRight, ListsRight, CountsRight;
      ghost var i :| 0 <= i < |blocks| && blocks[i] == Block(ptr, cls, true);
      FreeLists(freeLists, blocks, chunks, i);
      FreeCounts(blocks, peaks, i);
      FlipPlaces(blocks, chunks, cursor, remaining, i);
      freeLists := freeLists[cls := FreeOf(freeLists, cls) + [ptr]];
      blocks := Flipped(blocks, i);
      liveBytes := liveBytes - cls;
    }
  }

  lemma FreeIsBlock(lists: map<nat, seq<nat>>, blocks: seq<Block>, cls: nat, a: nat)
    requires ListsRight(lists, blocks) && a in FreeOf(lists, cls)
    ensures BlockAt(blocks, a, cls)
  {
  }
}
