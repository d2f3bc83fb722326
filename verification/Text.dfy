/** Dictionary order on text: on well-formed text it is the byte order the source compares keys with. */
module Text {
  predicate Less(a: string, b: string) {
    if b == [] then false
    else if a == [] then true
    else a[0] < b[0] || (a[0] == b[0] && Less(a[1..], b[1..]))
  }

  /** The texts agree up to place `i`, where the first ends or has the smaller character. */
  predicate DiffersAt(a: string, b: string, i: nat) {
    i <= |a| && i < |b| && a[..i] == b[..i] && (i == |a| || a[i] < b[i])
  }

  /** `a` comes before `b` in a dictionary. */
  predicate Precedes(a: string, b: string) {
    exists i | 0 <= i < |b| :: DiffersAt(a, b, i)
  }

  /** The order all sorting and merging goes by is the order of a dictionary. */
  lemma {:induction false} LessIsPrecedes(a: string, b: string)
    ensures Less(a, b) <==> Precedes(a, b)
  {
    if a == [] && b != [] {
      assert DiffersAt(a, b, 0);
    } else if b != [] {
      LessIsPrecedes(a[1..], b[1..]);
      if a[0] < b[0] {
        assert DiffersAt(a, b, 0);
      }
      if a[0] == b[0] && Precedes(a[1..], b[1..]) {
        var i :| 0 <= i < |b[1..]| && DiffersAt(a[1..], b[1..], i);
        SameStart(a, b, i);
        assert DiffersAt(a, b, i + 1);
      }
      if Precedes(a, b) && a[0] >= b[0] {
        var i :| 0 <= i < |b| && DiffersAt(a, b, i);
        assert i > 0 && a[..i][0] == b[..i][0];
        SameStart(a, b, i - 1);
        assert DiffersAt(a[1..], b[1..], i - 1);
      }
    }
  }

  lemma SameStart(a: string, b: string, i: nat)
    requires a != [] && b != [] && i < |a| && i < |b| && a[0] == b[0]
    ensures a[1..][..i] == b[1..][..i] <==> a[..i + 1] == b[..i + 1]
  {
    assert a[..i + 1] == [a[0]] + a[1..][..i] && b[..i + 1] == [b[0]] + b[1..][..i];
    assert a[..i + 1][1..] == a[1..][..i] && b[..i + 1][1..] == b[1..][..i];
  }

  lemma {:induction false} Irreflexive(a: string)
    ensures !Less(a, a)
  {
    if a != [] {
      Irreflexive(a[1..]);
    }
  }

  lemma {:induction false} Transitive(a: string, b: string, c: string)
    requires Less(a, b) && Less(b, c)
    ensures Less(a, c)
  {
    if a != [] && a[0] == b[0] == c[0] {
      Transitive(a[1..], b[1..], c[1..]);
    }
  }

  lemma {:induction false} Total(a: string, b: string)
    ensures Less(a, b) || Less(b, a) || a == b
  {
    if a != [] && b != [] && a[0] == b[0] {
      Total(a[1..], b[1..]);
      assert a == [a[0]] + a[1..] && b == [b[0]] + b[1..];
    }
  }

  /** `!Less` is a total preorder. */
  lemma NotLessTransitive(a: string, b: string, c: string)
    requires !Less(b, a) && !Less(c, b)
    ensures !Less(c, a)
  {
    if Less(c, a) {
      Total(a, b);
      if a != b {
        Transitive(c, a, b);
      }
    }
  }

  lemma Antisymmetric(a: string, b: string)
    requires !Less(a, b) && !Less(b, a)
    ensures a == b
  {
    Total(a, b);
  }

  lemma Asymmetric(a: string, b: string)
    requires Less(a, b)
    ensures !Less(b, a)
  {
    if Less(b, a) {
      Transitive(a, b, a);
      Irreflexive(a);
    }
  }
}
