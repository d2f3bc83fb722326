/**
 * What a job computes: the contents of every intermediate and output file as functions of the input,
 * and the answer those files must amount to.
 *
 * Map, Reduce, Combine and the partition hash are the job's own functions.
 */
module Pipeline {
  import opened Base
  import opened Text
  import opened Records
  import opened StableSorting

  datatype Job = Job(
    mapLine: (string, string) -> seq<Record>,
    reduce: (string, seq<string>) -> seq<string>,
    combine: Option<(string, seq<string>) -> seq<string>>,
    partition: (string, nat) -> nat)

  ghost predicate Routes(job: Job) {
    forall k: string, r: nat | r > 0 :: job.partition(k, r) < r
  }

  // ----- sorting a buffer -----

  predicate RecordLess(a: Record, b: Record) {
    if a.key != b.key then Less(a.key, b.key) else Less(a.value, b.value)
  }

  function InsertRecord(r: Record, s: seq<Record>): seq<Record> {
    if s == [] || !RecordLess(s[0], r) then [r] + s else [s[0]] + InsertRecord(r, s[1..])
  }

  /** A buffer sorted by key, then value. */
  function SortRecords(s: seq<Record>): seq<Record> {
    if s == [] then [] else InsertRecord(s[0], SortRecords(s[1..]))
  }

  predicate RecordSorted(s: seq<Record>) {
    forall i, j | 0 <= i < j < |s| :: !RecordLess(s[j], s[i])
  }

  lemma RecordOrder(a: Record, b: Record, c: Record)
    ensures RecordLess(a, b) ==> !RecordLess(b, a)
    ensures !RecordLess(b, a) && !RecordLess(c, b) ==> !RecordLess(c, a)
    ensures !RecordLess(a, b) && !RecordLess(b, a) ==> a == b
    ensures !RecordLess(b, a) ==> !Less(b.key, a.key)
  {
    if a.key != b.key && Less(a.key, b.key) {
      Asymmetric(a.key, b.key);
    }
    if a.key == b.key && Less(a.value, b.value) {
      Asymmetric(a.value, b.value);
    }
    Irreflexive(a.key);
    Irreflexive(c.key);
    Total(a.key, b.key);
    Total(a.value, b.value);
    if !RecordLess(b, a) && !RecordLess(c, b) {
      NotLessTransitive(a.key, b.key, c.key);
      if a.key == c.key {
        if a.key != b.key {
          Antisymmetric(a.key, b.key);
        }
        NotLessTransitive(a.value, b.value, c.value);
      }
    }
  }

  lemma {:induction false} InsertRecordItems(r: Record, s: seq<Record>)
    ensures multiset(InsertRecord(r, s)) == multiset{r} + multiset(s)
    ensures forall x :: x in InsertRecord(r, s) ==> x == r || x in s
  {
    if s != [] {
      InsertRecordItems(r, s[1..]);
      assert s == [s[0]] + s[1..];
    }
  }

  lemma RecordSortedTail(s: seq<Record>)
    requires RecordSorted(s) && s != []
    ensures RecordSorted(s[1..]) && forall x <- s[1..] :: !RecordLess(x, s[0])
  {
    forall x | x in s[1..] ensures !RecordLess(x, s[0]) {
      var j :| 0 <= j < |s[1..]| && s[1..][j] == x;
      assert s[j + 1] == x;
    }
  }

  lemma {:induction false} InsertRecordSorts(r: Record, s: seq<Record>)
    requires RecordSorted(s)
    ensures RecordSorted(InsertRecord(r, s))
  {
    if s != [] {
      RecordSortedTail(s);
      if !RecordLess(s[0], r) {
        forall x | x in s ensures !RecordLess(x, r) {
          RecordOrder(r, s[0], x);
          assert s == [s[0]] + s[1..];
        }
      } else {
        InsertRecordSorts(r, s[1..]);
        InsertRecordItems(r, s[1..]);
        RecordOrder(s[0], r, r);
      }
    }
  }

  lemma {:induction false} SortRecordsSorts(s: seq<Record>)
    ensures RecordSorted(SortRecords(s)) && KeySorted(SortRecords(s))
    ensures multiset(SortRecords(s)) == multiset(s)
  {
    if s != [] {
      SortRecordsSorts(s[1..]);
      InsertRecordSorts(s[0], SortRecords(s[1..]));
      InsertRecordItems(s[0], SortRecords(s[1..]));
      assert s == [s[0]] + s[1..];
      var r := SortRecords(s);
      forall i, j | 0 <= i < j < |r| ensures !Less(r[j].key, r[i].key) {
        RecordOrder(r[i], r[j], r[j]);
      }
    }
  }

  /** A sorted buffer goes by key, and by value within a key, in dictionary order. */
  lemma SortRecordsRises(s: seq<Record>)
    ensures multiset(SortRecords(s)) == multiset(s)
    ensures var r := SortRecords(s);
            forall i, j | 0 <= i < j < |r| ::
              || Precedes(r[i].key, r[j].key)
              || (r[i].key == r[j].key && (r[i].value == r[j].value || Precedes(r[i].value, r[j].value)))
  {
    SortRecordsSorts(s);
    var r := SortRecords(s);
    forall i, j | 0 <= i < j < |r|
      ensures || Precedes(r[i].key, r[j].key)
              || (r[i].key == r[j].key && (r[i].value == r[j].value || Precedes(r[i].value, r[j].value)))
    {
      assert !RecordLess(r[j], r[i]);
      LessIsPrecedes(r[i].key, r[j].key);
      LessIsPrecedes(r[i].value, r[j].value);
      Total(r[i].key, r[j].key);
      Total(r[i].value, r[j].value);
    }
  }

  /** The library sort is not stable, but only one arrangement is sorted. */
  lemma {:induction false} SortedOnce(a: seq<Record>, b: seq<Record>)
    requires RecordSorted(a) && RecordSorted(b) && multiset(a) == multiset(b)
    ensures a == b
  {
    SameBagSameLength(a, b);
    if a != [] {
      var i := FindInBag(b, a, 0);
      var j := FindInBag(a, b, 0);
      RecordOrder(a[0], b[0], b[0]);
      RecordOrder(a[0], a[0], a[0]);
      assert a[0] == b[0];
      TailBag(a);
      TailBag(b);
      SortedOnce(a[1..], b[1..]);
      assert a == [a[0]] + a[1..] && b == [b[0]] + b[1..];
    }
  }

  lemma {:induction false} ValuesCount(s: seq<Record>, k: string, v: string)
    ensures multiset(Values(s, k))[v] == multiset(s)[Record(k, v)]
  {
    if s != [] {
      ValuesCount(s[1..], k, v);
      assert s == [s[0]] + s[1..];
      assert multiset(s)[Record(k, v)] == multiset(s[1..])[Record(k, v)] + if s[0] == Record(k, v) then 1 else 0;
    }
  }

  lemma ValuesDependOnRecords(a: seq<Record>, b: seq<Record>, k: string)
    requires multiset(a) == multiset(b)
    ensures multiset(Values(a, k)) == multiset(Values(b, k))
  {
    forall v ensures multiset(Values(a, k))[v] == multiset(Values(b, k))[v] {
      ValuesCount(a, k, v);
      ValuesCount(b, k, v);
    }
  }

  // ----- routing -----

  function Part(job: Job, s: seq<Record>, p: nat, numReducers: nat): seq<Record> {
    if s == [] then []
    else (if job.partition(s[0].key, numReducers) == p then [s[0]] else []) + Part(job, s[1..], p, numReducers)
  }

  lemma {:induction false} PartAppend(job: Job, a: seq<Record>, b: seq<Record>, p: nat, numReducers: nat)
    ensures Part(job, a + b, p, numReducers) == Part(job, a, p, numReducers) + Part(job, b, p, numReducers)
  {
    if a == [] {
      assert a + b == b;
    } else {
      assert (a + b)[1..] == a[1..] + b;
      PartAppend(job, a[1..], b, p, numReducers);
    }
  }

  /** A partition keeps all of its own keys' values and none of the others'. */
  lemma {:induction false} PartValues(job: Job, s: seq<Record>, p: nat, numReducers: nat, k: string)
    ensures Values(Part(job, s, p, numReducers), k) == if job.partition(k, numReducers) == p then Values(s, k) else []
    ensures forall r <- Part(job, s, p, numReducers) :: r in s
  {
    if s != [] {
      PartValues(job, s[1..], p, numReducers, k);
      var head := if job.partition(s[0].key, numReducers) == p then [s[0]] else [];
      ValuesAppend(head, Part(job, s[1..], p, numReducers), k);
      assert s == [s[0]] + s[1..];
    }
  }

  lemma {:induction false} PartSorted(job: Job, s: seq<Record>, p: nat, numReducers: nat)
    requires KeySorted(s)
    ensures KeySorted(Part(job, s, p, numReducers))
  {
    if s != [] {
      KeySortedTail(s);
      PartSorted(job, s[1..], p, numReducers);
      PartValues(job, s[1..], p, numReducers, s[0].key);
      if job.partition(s[0].key, numReducers) == p {
        KeySortedCons(s[0], Part(job, s[1..], p, numReducers));
      }
    }
  }

  // ----- grouping -----

  datatype Group = Group(key: string, values: seq<string>)

  /** One more record: it joins the last group or opens a new one. */
  function Grow(g: seq<Group>, r: Record): seq<Group> {
    if g != [] && g[|g| - 1].key == r.key
    then g[..|g| - 1] + [Group(r.key, g[|g| - 1].values + [r.value])]
    else g + [Group(r.key, [r.value])]
  }

  /** The runs of equal keys, as the combining and the reducing loops meet them. */
  function Groups(s: seq<Record>): (g: seq<Group>)
    ensures s != [] ==> g != [] && g[|g| - 1].key == s[|s| - 1].key
  {
    if s == [] then [] else
    var n := |s| - 1;
    Grow(Groups(s[..n]), s[n])
  }

  /** How the loops extend the groups: `flushed` are the finished ones, the last is still open. */
  lemma GrowOpen(flushed: seq<Group>, key: string, values: seq<string>, r: Record)
    ensures Grow(flushed + [Group(key, values)], r) ==
            if r.key == key then flushed + [Group(key, values + [r.value])]
            else flushed + [Group(key, values)] + [Group(r.key, [r.value])]
  {
    assert (flushed + [Group(key, values)])[..|flushed|] == flushed;
  }

  lemma GroupsOfPrefix(s: seq<Record>, i: nat)
    requires i < |s|
    ensures Groups(s[..i + 1]) == Grow(Groups(s[..i]), s[i])
  {
    assert s[..i + 1][..i] == s[..i];
  }

  predicate StrictKeys(g: seq<Group>) {
    forall i, j | 0 <= i < j < |g| :: Less(g[i].key, g[j].key)
  }

  /** Grouping a sorted sequence meets each key once, in increasing order. */
  lemma {:induction false} GroupsStrict(s: seq<Record>)
    requires KeySorted(s)
    ensures StrictKeys(Groups(s))
  {
    if s != [] {
      var n := |s| - 1;
      var g := Groups(s[..n]);
      GroupsStrict(s[..n]);
      if g != [] && g[|g| - 1].key != s[n].key {
        assert !Less(s[n].key, s[n - 1].key);
        Total(s[n].key, s[n - 1].key);
        forall i | 0 <= i < |g| - 1 ensures Less(g[i].key, s[n].key) {
          Transitive(g[i].key, g[|g| - 1].key, s[n].key);
        }
      }
    }
  }

  function Emit(k: string, values: seq<string>): seq<Record> {
    seq(|values|, i requires 0 <= i < |values| => Record(k, values[i]))
  }

  /** The records a per-key function makes of the groups. */
  function Apply(f: (string, seq<string>) -> seq<string>, g: seq<Group>): seq<Record> {
    if g == [] then [] else
    var n := |g| - 1;
    Apply(f, g[..n]) + Emit(g[n].key, f(g[n].key, g[n].values))
  }

  /** Flushing one more group. */
  lemma ApplyMore(f: (string, seq<string>) -> seq<string>, flushed: seq<Group>, key: string, values: seq<string>)
    ensures Apply(f, flushed + [Group(key, values)]) == Apply(f, flushed) + Emit(key, f(key, values))
  {
    assert (flushed + [Group(key, values)])[..|flushed|] == flushed;
  }

  /** After `i` records the groups in `flushed` are finished and the one of `key` is open. */
  predicate Grouped(s: seq<Record>, i: nat, flushed: seq<Group>, key: string, values: seq<string>) {
    i <= |s| && Groups(s[..i]) == flushed + [Group(key, values)]
  }

  /** One record more: it joins the open group, or the open group is flushed and it opens another. */
  lemma NextRecord(f: (string, seq<string>) -> seq<string>, s: seq<Record>, i: nat,
                   flushed: seq<Group>, key: string, values: seq<string>)
    requires i < |s| && Grouped(s, i, flushed, key, values)
    ensures if s[i].key == key then Grouped(s, i + 1, flushed, key, values + [s[i].value])
            else Grouped(s, i + 1, flushed + [Group(key, values)], s[i].key, [s[i].value])
    ensures Apply(f, flushed + [Group(key, values)]) == Apply(f, flushed) + Emit(key, f(key, values))
  {
    GroupsOfPrefix(s, i);
    GrowOpen(flushed, key, values, s[i]);
    ApplyMore(f, flushed, key, values);
  }

  lemma FirstRecord(f: (string, seq<string>) -> seq<string>, s: seq<Record>)
    requires s != []
    ensures Grouped(s, 1, [], s[0].key, [s[0].value]) && Apply(f, []) == []
  {
    assert s[..1][..0] == [];
    assert Groups([]) == [];
  }

  lemma LastGroup(f: (string, seq<string>) -> seq<string>, s: seq<Record>,
                  flushed: seq<Group>, key: string, values: seq<string>)
    requires Grouped(s, |s|, flushed, key, values)
    ensures Apply(f, Groups(s)) == Apply(f, flushed) + Emit(key, f(key, values))
  {
    assert s[..|s|] == s;
    ApplyMore(f, flushed, key, values);
  }

  function Same(k: string, values: seq<string>): seq<string> {
    values
  }

  lemma ApplyGrow(g: seq<Group>, r: Record)
    ensures Apply(Same, Grow(g, r)) == Apply(Same, g) + [r]
  {
    if g != [] && g[|g| - 1].key == r.key {
      var m := |g| - 1;
      assert Emit(r.key, g[m].values + [r.value]) == Emit(r.key, g[m].values) + [r];
    } else {
      assert Emit(r.key, [r.value]) == [r];
    }
  }

  /** Grouping loses nothing and reorders nothing, whatever the sequence. */
  lemma {:induction false} GroupsKeepAll(s: seq<Record>)
    ensures Apply(Same, Groups(s)) == s
  {
    if s != [] {
      assert s == s[..|s| - 1] + [s[|s| - 1]];
      GroupsKeepAll(s[..|s| - 1]);
      ApplyGrow(Groups(s[..|s| - 1]), s[|s| - 1]);
    }
  }

  lemma {:induction false} GroupsNonEmpty(s: seq<Record>)
    ensures forall x <- Groups(s) :: x.values != []
  {
    if s != [] {
      GroupsNonEmpty(s[..|s| - 1]);
    }
  }

  lemma {:induction false} EmitValues(k: string, values: seq<string>, q: string)
    ensures Values(Emit(k, values), q) == if q == k then values else []
  {
    if values != [] {
      assert Emit(k, values)[1..] == Emit(k, values[1..]);
      EmitValues(k, values[1..], q);
      assert values == [values[0]] + values[1..];
    }
  }

  /** The values grouped under `k`. */
  function GroupOf(g: seq<Group>, k: string): seq<string> {
    if g == [] then [] else
    var n := |g| - 1;
    if g[n].key == k then g[n].values else GroupOf(g[..n], k)
  }

  /** What a per-key function makes of a key's values: nothing for a key that never occurs. */
  function PerKey(f: (string, seq<string>) -> seq<string>, k: string, values: seq<string>): seq<string> {
    if values == [] then [] else f(k, values)
  }

  lemma {:induction false} AbsentGroup(g: seq<Group>, k: string)
    requires forall x <- g :: x.key != k
    ensures GroupOf(g, k) == []
  {
    if g != [] {
      var n := |g| - 1;
      assert g[n] in g && forall x <- g[..n] :: x in g;
      AbsentGroup(g[..n], k);
    }
  }

  lemma {:induction false} ApplyValues(f: (string, seq<string>) -> seq<string>, g: seq<Group>, k: string)
    requires StrictKeys(g) && forall x <- g :: x.values != []
    ensures Values(Apply(f, g), k) == PerKey(f, k, GroupOf(g, k))
  {
    if g != [] {
      var n := |g| - 1;
      assert g[n] in g && forall x <- g[..n] :: x in g;
      ApplyValues(f, g[..n], k);
      ValuesAppend(Apply(f, g[..n]), Emit(g[n].key, f(g[n].key, g[n].values)), k);
      EmitValues(g[n].key, f(g[n].key, g[n].values), k);
      if g[n].key == k {
        forall x | x in g[..n] ensures x.key != k {
          Irreflexive(k);
        }
        AbsentGroup(g[..n], k);
      }
    }
  }

  lemma {:induction false} ApplyBelow(f: (string, seq<string>) -> seq<string>, g: seq<Group>, k: string)
    requires forall x <- g :: Less(x.key, k)
    ensures forall r <- Apply(f, g) :: Less(r.key, k)
  {
    if g != [] {
      var n := |g| - 1;
      assert g[n] in g && forall x <- g[..n] :: x in g;
      ApplyBelow(f, g[..n], k);
    }
  }

  lemma {:induction false} ApplySorted(f: (string, seq<string>) -> seq<string>, g: seq<Group>)
    requires StrictKeys(g)
    ensures KeySorted(Apply(f, g))
  {
    if g != [] {
      var n := |g| - 1;
      var front, back := Apply(f, g[..n]), Emit(g[n].key, f(g[n].key, g[n].values));
      ApplySorted(f, g[..n]);
      ApplyBelow(f, g[..n], g[n].key);
      var all: seq<Record> := front + back;
      forall i, j | 0 <= i < j < |all| ensures !Less(all[j].key, all[i].key) {
        Irreflexive(g[n].key);
        if i < |front| <= j {
          assert front[i] in front;
          Asymmetric(front[i].key, g[n].key);
        }
      }
    }
  }

  /** Over a sorted stream a per-key function is applied once to each key, to all of its values. */
  lemma GroupedValues(f: (string, seq<string>) -> seq<string>, s: seq<Record>, k: string)
    requires KeySorted(s)
    ensures Values(Apply(f, Groups(s)), k) == PerKey(f, k, Values(s, k))
    ensures KeySorted(Apply(f, Groups(s))) && StrictKeys(Groups(s))
  {
    GroupsStrict(s);
    GroupsKeepAll(s);
    GroupsNonEmpty(s);
    ApplyValues(Same, Groups(s), k);
    ApplyValues(f, Groups(s), k);
    ApplySorted(f, Groups(s));
  }
}
