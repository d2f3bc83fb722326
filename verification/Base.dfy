/** Shared result types and a few facts about built-in collections. */
module Base {
  datatype Option<+T> = None | Some(value: T)

  datatype Result<+T> = Ok(value: T) | Err(message: string)

  /** The sum of `f` over a sequence. */
  function Sum<T>(s: seq<T>, f: T -> int): int {
    if s == [] then 0 else f(s[0]) + Sum(s[1..], f)
  }

  lemma {:induction false} SumUpdate<T>(s: seq<T>, f: T -> int, i: nat, t: T)
    requires i < |s|
    ensures Sum(s[i := t], f) == Sum(s, f) - f(s[i]) + f(t)
  {
    if i == 0 {
      assert s[i := t][1..] == s[1..];
    } else {
      assert s[i := t][1..] == s[1..][i - 1 := t];
      SumUpdate(s[1..], f, i - 1, t);
    }
  }

  lemma {:induction false} SumAppend<T>(s: seq<T>, t: seq<T>, f: T -> int)
    ensures Sum(s + t, f) == Sum(s, f) + Sum(t, f)
  {
    if s == [] {
      assert s + t == t;
    } else {
      assert (s + t)[1..] == s[1..] + t;
      SumAppend(s[1..], t, f);
    }
  }

  lemma {:induction false} SumBound<T>(s: seq<T>, f: T -> int, bound: int)
    requires forall t <- s :: f(t) <= bound
    ensures Sum(s, f) <= |s| * bound
  {
    if s != [] {
      SumBound(s[1..], f, bound);
    }
  }

  lemma TailBag<T>(s: seq<T>)
    requires s != []
    ensures multiset(s[1..]) == multiset(s) - multiset{s[0]}
  {
    assert s == [s[0]] + s[1..];
  }

  function RemoveAt<T>(s: seq<T>, i: nat): seq<T>
    requires i < |s|
  {
    s[..i] + s[i + 1..]
  }

  lemma RemoveAtBag<T>(s: seq<T>, i: nat)
    requires i < |s|
    ensures multiset(RemoveAt(s, i)) == multiset(s) - multiset{s[i]}
  {
    assert s == s[..i] + [s[i]] + s[i + 1..];
  }

  lemma SameBagSameLength<T>(a: seq<T>, b: seq<T>)
    requires multiset(a) == multiset(b)
    ensures |a| == |b|
  {
    assert |multiset(a)| == |a| && |multiset(b)| == |b|;
  }

  /** Where `b` holds a given item of a rearrangement of it. */
  lemma FindInBag<T>(a: seq<T>, b: seq<T>, i: nat) returns (j: nat)
    requires multiset(a) == multiset(b) && i < |a|
    ensures j < |b| && b[j] == a[i]
  {
    assert a[i] in multiset(b);
    j :| 0 <= j < |b| && b[j] == a[i];
  }

  lemma Associate<T>(a: seq<T>, b: seq<T>, c: seq<T>)
    ensures (a + b) + c == a + (b + c)
  {
  }

  // ----- division -----

  lemma AtLeastOnce(d: nat, e: nat)
    requires e >= 1
    ensures d * e >= d
  {
  }

  /** Quotient and remainder are determined by what they multiply back to. */
  lemma Divided(n: nat, d: nat, q: nat, r: nat)
    requires r < d && n == d * q + r
    ensures n / d == q && n % d == r
  {
    var p := n / d;
    if q > p {
      assert d * q == d * p + d * (q - p);
      AtLeastOnce(d, q - p);
    } else if q < p {
      assert d * p == d * q + d * (p - q);
      AtLeastOnce(d, p - q);
    }
  }
}
