/** The k-way merger: one record per source waits in a min-heap. */
module Merge {
  import opened Base
  import opened Text
  import opened Records
  import opened StableSorting
  import opened Heaps

  datatype Entry = Entry(key: string, value: string, source: nat)

  predicate EntryLess(a: Entry, b: Entry) {
    if a.key != b.key then Less(a.key, b.key) else a.source < b.source
  }

  lemma EntryConsistent(a: Entry, b: Entry, c: Entry)
    ensures Consistent(EntryLess, a, b, c)
  {
    if a.key != b.key && Less(a.key, b.key) {
      Asymmetric(a.key, b.key);
    }
    if !EntryLess(b, a) && !EntryLess(c, b) {
      Irreflexive(a.key);
      Irreflexive(c.key);
      NotLessTransitive(a.key, b.key, c.key);
      if a.key == c.key && a.key != b.key {
        Antisymmetric(a.key, b.key);
      }
    }
  }

  lemma EntriesOrdered()
    ensures StrictWeakOrder(EntryLess)
  {
    forall a, b, c ensures Consistent(EntryLess, a, b, c) {
      EntryConsistent(a, b, c);
    }
  }

  function ToEntry(r: Record, i: nat): Entry {
    Entry(r.key, r.value, i)
  }

  /** The bag holds, once each, the records taken from the sources and not yet delivered. */
  ghost predicate Waiting(bag: multiset<Entry>, heads: seq<Option<Record>>) {
    forall e :: bag[e] ==
      if e.source < |heads| && heads[e.source] == Some(Record(e.key, e.value)) then 1 else 0
  }

  lemma NothingWaiting(items: seq<Entry>, heads: seq<Option<Record>>)
    requires Waiting(multiset(items), heads)
    ensures items == [] <==> forall i | 0 <= i < |heads| :: heads[i].None?
  {
    forall i | 0 <= i < |heads| && heads[i].Some? ensures items != [] {
      assert multiset(items)[ToEntry(heads[i].value, i)] == 1;
    }
    if items != [] {
      assert items[0] in multiset(items);
      assert multiset(items)[items[0]] > 0;
    }
  }

  datatype Outcome = Fault | Ended | Yield(record: Record, pending: seq<seq<Record>>)

  /** The next delivery, given what every source has still to deliver and which break at their end. */
  function Step(pending: seq<seq<Record>>, broken: seq<bool>): Outcome
    requires |broken| == |pending|
  {
    if exists i | 0 <= i < |pending| :: pending[i] == [] && broken[i] then Fault
    else if Exhausted(pending) then Ended
    else
      var i := NextSource(pending);
      if |pending[i]| == 1 && broken[i] then Fault else Yield(pending[i][0], Pop(pending, i))
  }

  lemma NextUnique(pending: seq<seq<Record>>, i: nat, j: nat)
    requires IsNext(pending, i) && IsNext(pending, j)
    ensures i == j
  {
    if i != j {
      var a, b := pending[i][0].key, pending[j][0].key;
      assert Before(a, i, b, j) && Before(b, j, a, i);
      if Less(a, b) {
        Asymmetric(a, b);
      }
      Irreflexive(a);
    }
  }

  predicate HeadsFirst(heads: seq<Option<Record>>, pending: seq<seq<Record>>) {
    && |heads| == |pending|
    && forall i | 0 <= i < |heads| ::
         if heads[i].Some? then pending[i] != [] && pending[i][0] == heads[i].value else pending[i] == []
  }

  /** A least heap entry belongs to the source whose first record goes first. */
  lemma LeastHeadIsNext(items: seq<Entry>, heads: seq<Option<Record>>, pending: seq<seq<Record>>, top: Entry)
    requires HeadsFirst(heads, pending)
    requires Waiting(multiset(items), heads)
    requires top in items && forall e <- items :: !EntryLess(e, top)
    ensures IsNext(pending, top.source) && !Exhausted(pending) && NextSource(pending) == top.source
    ensures pending[top.source][0] == Record(top.key, top.value)
  {
    var i := top.source;
    assert top in multiset(items);
    forall j: nat | j < |pending| && pending[j] != [] && j != i
      ensures Before(pending[i][0].key, i, pending[j][0].key, j)
    {
      var e := ToEntry(heads[j].value, j);
      assert multiset(items)[e] == 1;
      assert e in items;
      Text.Total(top.key, e.key);
    }
    assert pending[i] in pending;
    NextUnique(pending, i, NextSource(pending));
  }

  lemma FaultNeedsBroken(pending: seq<seq<Record>>, broken: seq<bool>)
    requires |broken| == |pending| && Step(pending, broken).Fault?
    ensures exists b <- broken :: b
  {
    if i :| 0 <= i < |pending| && pending[i] == [] && broken[i] {
      assert broken[i] in broken;
    } else {
      assert broken[NextSource(pending)] in broken;
    }
  }

  lemma EndedMeansUnbroken(pending: seq<seq<Record>>, broken: seq<bool>)
    requires |broken| == |pending| && Step(pending, broken).Ended?
    ensures forall b <- broken :: !b
  {
    forall i | 0 <= i < |broken| ensures !broken[i] {
      assert pending[i] in pending;
    }
  }

  /** A stream of records that ends or breaks. */
  class Source {
    var stream: seq<Record>
    const broken: bool

    constructor Open(text: string)
      ensures stream == Decode(text).records && broken == Decode(text).broken
    {
      stream := Decode(text).records;
      broken := Decode(text).broken;
    }

    method Next() returns (r: Result<Option<Record>>)
      modifies this
      ensures if old(stream) != [] then r == Ok(Some(old(stream)[0])) && stream == old(stream)[1..]
              else stream == [] && r == if broken then Err("unreadable record") else Ok(None)
    {
      if stream == [] {
        return if broken then Err("unreadable record") else Ok(None);
      }
      r := Ok(Some(stream[0]));
      stream := stream[1..];
    }
  }

  class Merger {
    const sources: seq<Source>
    const heap: MinHeap<Entry>
    var failed: bool
    var primed: bool
    /** The record each source has in the heap. */
    ghost var heads: seq<Option<Record>>
    /** What each source has still to contribute to the merged stream. */
    ghost var pending: seq<seq<Record>>
    /** Which sources break at their end. */
    ghost const broken: seq<bool>

    constructor (sources: seq<Source>)
      requires forall i, j | 0 <= i < j < |sources| :: sources[i] != sources[j]
      ensures Valid() && !failed && !primed && this.sources == sources && fresh(heap)
      ensures forall i | 0 <= i < |sources| :: pending[i] == sources[i].stream && broken[i] == sources[i].broken
    {
      this.sources := sources;
      heap := new MinHeap(EntryLess);
      failed, primed := false, false;
      heads := seq(|sources|, _ => None);
      pending := seq(|sources|, i requires 0 <= i < |sources| reads sources => sources[i].stream);
      broken := seq(|sources|, i requires 0 <= i < |sources| => sources[i].broken);
      new;
      assert forall i | 0 <= i < |sources| :: heads[i].None?;
    }

    ghost predicate Shaped()
      reads this, sources
    {
      && (forall i, j | 0 <= i < j < |sources| :: sources[i] != sources[j])
      && |heads| == |pending| == |broken| == |sources|
      && heap.less == EntryLess
      && forall i | 0 <= i < |sources| :: broken[i] == sources[i].broken
    }

    ghost predicate Tracks(i: nat)
      requires i < |heads| && i < |pending| && i < |sources|
      reads `heads, `pending, sources
    {
      pending[i] == (if heads[i].Some? then [heads[i].value] else []) + sources[i].stream
    }

    ghost predicate Valid()
      reads this, heap, sources
    {
      && Shaped()
      && (!failed ==>
            && (forall i | 0 <= i < |sources| :: Tracks(i))
            && (!primed ==> forall i | 0 <= i < |heads| :: heads[i].None?)
            && (primed ==>
                  && heap.Valid()
                  && Waiting(multiset(heap.items), heads)
                  && forall i | 0 <= i < |heads| :: heads[i].None? ==> sources[i].stream == [] && !sources[i].broken))
    }

    /** Takes the first record of every source. */
    method Prime()
      requires Valid() && !failed && !primed
      modifies this, heap, sources
      ensures Valid()
      ensures failed <==> exists i | 0 <= i < |sources| :: old(pending)[i] == [] && broken[i]
      ensures !failed ==> primed && pending == old(pending)
    {
      heap.items := [];
      for n := 0 to |sources|
        invariant Shaped() && !failed && !primed && pending == old(pending)
        invariant forall i | 0 <= i < |sources| :: Tracks(i)
        invariant Waiting(multiset(heap.items), heads)
        invariant forall i | n <= i < |sources| :: heads[i].None?
        invariant forall i | 0 <= i < n :: heads[i].None? ==> sources[i].stream == []
        invariant forall i | 0 <= i < n :: pending[i] != [] || !broken[i]
      {
        PrimeOne(n);
        if failed {
          return;
        }
      }
      EntriesOrdered();
      label before:
      heap.Init();
      primed := true;
      forall i | 0 <= i < |sources| ensures Tracks(i) && (heads[i].None? ==> !sources[i].broken) {
        assert old@before(Tracks(i));
      }
    }

    method PrimeOne(n: nat)
      requires n < |sources| && Shaped() && !failed && !primed
      requires forall i | 0 <= i < |sources| :: Tracks(i)
      requires Waiting(multiset(heap.items), heads)
      requires forall i | n <= i < |sources| :: heads[i].None?
      modifies this, heap, sources[n]
      ensures Shaped() && !primed && pending == old(pending)
      ensures forall i | 0 <= i < |sources| && i != n :: heads[i] == old(heads)[i]
      ensures forall i | 0 <= i < |sources| && i != n :: sources[i].stream == old(sources[i].stream)
      ensures failed <==> pending[n] == [] && broken[n]
      ensures !failed ==> (forall i | 0 <= i < |sources| :: Tracks(i)) && Waiting(multiset(heap.items), heads)
      ensures !failed && heads[n].None? ==> sources[n].stream == []
    {
      assert Tracks(n);
      label before:
      var r := sources[n].Next();
      if r.Err? {
        failed := true;
        return;
      }
      if r.value.Some? {
        heap.items := heap.items + [ToEntry(r.value.value, n)];
        heads := heads[n := r.value];
      }
      forall i | 0 <= i < |sources| ensures Tracks(i) {
        assert old@before(Tracks(i));
      }
    }

    lemma HeadsComeFirst()
      requires Valid() && !failed && primed
      ensures HeadsFirst(heads, pending)
      ensures forall i | 0 <= i < |pending| :: pending[i] == [] ==> !broken[i]
    {
      forall i | 0 <= i < |sources|
        ensures if heads[i].Some? then pending[i] != [] && pending[i][0] == heads[i].value
                else pending[i] == [] && !broken[i]
      {
        assert Tracks(i);
      }
    }

    /** Delivers the next record, reports the end, or fails for good. */
    method Next() returns (r: Result<Option<Record>>)
      requires Valid()
      modifies this, heap, sources
      ensures Valid() && (r.Err? <==> failed)
      ensures old(failed) ==> failed
      ensures !old(failed) ==>
                match Step(old(pending), broken)
                case Fault => failed
                case Ended => r == Ok(None) && pending == old(pending)
                case Yield(record, rest) => r == Ok(Some(record)) && pending == rest
    {
      if failed {
        return Err("merge failed earlier");
      }
      if !primed {
        Prime();
        if failed {
          return Err("unreadable record");
        }
      }
      r := Deliver();
    }

    method Deliver() returns (r: Result<Option<Record>>)
      requires Valid() && !failed && primed
      modifies this, heap, sources
      ensures Valid() && (r.Err? <==> failed)
      ensures match Step(old(pending), broken)
              case Fault => failed
              case Ended => r == Ok(None) && pending == old(pending)
              case Yield(record, rest) => r == Ok(Some(record)) && pending == rest
    {
      HeadsComeFirst();
      NothingWaiting(heap.items, heads);
      if heap.items == [] {
        return Ok(None);
      }
      ghost var items := heap.items;
      var top := heap.Pop();
      LeastHeadIsNext(items, heads, pending, top);
      assert pending[top.source] in pending;
      Advance(top);
      r := if failed then Err("unreadable record") else Ok(Some(Record(top.key, top.value)));
    }

    /** Replaces the record just taken off the heap by the next one of its source. */
    method Advance(top: Entry)
      requires Shaped() && !failed && primed && heap.Valid()
      requires forall i | 0 <= i < |sources| :: Tracks(i)
      requires forall i | 0 <= i < |heads| :: heads[i].None? ==> sources[i].stream == [] && !sources[i].broken
      requires top.source < |sources| && heads[top.source].Some? && pending[top.source] != []
      requires Waiting(multiset(heap.items), heads[top.source := None])
      modifies this, heap, sources
      ensures Valid()
      ensures failed <==> |old(pending)[top.source]| == 1 && broken[top.source]
      ensures !failed ==> pending == old(pending)[top.source := old(pending)[top.source][1..]]
    {
      var n := top.source;
      assert Tracks(n);
      assert pending[n][1..] == sources[n].stream;
      label before:
      var next := sources[n].Next();
      if next.Err? {
        failed := true;
        return;
      }
      if next.value.Some? {
        heap.Push(ToEntry(next.value.value, n));
        assert heads[n := None][n := next.value] == heads[n := next.value];
      }
      heads, pending := heads[n := next.value], pending[n := pending[n][1..]];
      forall i | 0 <= i < |sources| ensures Tracks(i) {
        assert old@before(Tracks(i));
      }
    }
  }

  /** Takes everything a merger delivers. */
  /** A record delivered is the first of those still to come. */
  lemma DrainNext(pending: seq<seq<Record>>, broken: seq<bool>)
    requires |broken| == |pending|
    ensures match Step(pending, broken)
            case Yield(r, rest) => Drain(pending) == [r] + Drain(rest) && |Flatten(rest)| < |Flatten(pending)|
            case Ended => Drain(pending) == []
            case Fault => true
  {
    if Step(pending, broken).Yield? {
      FlattenPop(pending, NextSource(pending));
    }
  }

  method TakeAll(m: Merger) returns (r: Result<seq<Record>>)
    requires m.Valid() && !m.failed
    modifies m, m.heap, m.sources
    ensures r.Err? <==> exists b <- m.broken :: b
    ensures r.Ok? ==> r.value == Drain(old(m.pending))
  {
    hide Drain, Step, Flatten, NextSource, IsNext;
    var taken := [];
    while true
      invariant m.Valid() && !m.failed
      invariant taken + Drain(m.pending) == Drain(old(m.pending))
      decreases |Flatten(m.pending)|
    {
      ghost var before := m.pending;
      var next := m.Next();
      if next.Err? {
        FaultNeedsBroken(before, m.broken);
        return Err(next.message);
      }
      if next.value.None? {
        EndedMeansUnbroken(before, m.broken);
        DrainNext(before, m.broken);
        return Ok(taken);
      }
      DrainNext(before, m.broken);
      taken := taken + [next.value.value];
    }
  }

  /** Merging key-sorted sources delivers exactly the stable sort by key of their concatenation. */
  method MergeSorted(sources: seq<Source>, ghost streams: seq<seq<Record>>) returns (r: Result<seq<Record>>)
    requires forall i, j | 0 <= i < j < |sources| :: sources[i] != sources[j]
    requires |streams| == |sources|
    requires forall i | 0 <= i < |sources| ::
               sources[i].stream == streams[i] && KeySorted(streams[i]) && !sources[i].broken
    modifies sources
    ensures r == Ok(StableSort(Flatten(streams))) && KeysRise(r.value)
    ensures forall k :: Values(r.value, k) == Values(Flatten(streams), k)
  {
    var m := new Merger(sources);
    assert m.pending == streams;
    DrainIsStableSort(streams);
    StableSortRises(Flatten(streams));
    r := TakeAll(m);
  }
}
