/**
 * The model format from the reader's side: a file is read only if it is, up to what follows it, the file that would be
 * written for what was read.
 */
module FormatLaws {
  import opened Base
  import opened Programs
  import opened ModelFormat

  // ----- numbers -----

  lemma {:induction false} LittleFromLittle(b: Bytes)
    ensures FromLittle(b) < Pow256(|b|) && Little(FromLittle(b), |b|) == b
  {
    if b != [] {
      LittleFromLittle(b[1..]);
      var n := FromLittle(b);
      Divided(n, 256, FromLittle(b[1..]), b[0] as nat);
      assert b == [b[0]] + b[1..];
    }
  }

  /** Byte `j` of a number is its digit of weight 256 to the power of `j`. */
  lemma {:induction false} LittleDigits(n: nat, k: nat, j: nat)
    requires j < k
    ensures Pow256(j) > 0 && Little(n, k)[j] as nat == n / Pow256(j) % 256
  {
    if j > 0 {
      LittleDigits(n / 256, k - 1, j - 1);
      assert Little(n, k)[j] == Little(n / 256, k - 1)[j - 1];
      DivideTwice(n, 256, Pow256(j - 1));
    }
  }

  lemma DivideTwice(n: nat, a: nat, b: nat)
    requires a > 0 && b > 0
    ensures a * b > 0 && n / a / b == n / (a * b)
  {
    var q, r := n / a, n % a;
    var p, s := q / b, q % b;
    AtLeastOnce(a, b);
    assert n == a * q + r && q == b * p + s;
    assert a * q == a * (b * p) + a * s;
    assert a * (b * p) == (a * b) * p;
    Below(a, b, s, r);
    Divided(n, a * b, p, a * s + r);
  }

  lemma Below(a: nat, b: nat, s: nat, r: nat)
    requires s < b && r < a
    ensures a * s + r < a * b
  {
    assert a * b == a * s + a * (b - s);
    AtLeastOnce(a, b - s);
  }

  // ----- readers that read only what is written -----

  /** What the reader takes from a stream is what would be written for what it makes of it, and can be. */
  predicate ExactAt<T(==)>(write: T -> Bytes, read: Bytes -> Parse<T>, fits: T -> bool, s: Bytes) {
    match read(s)
    case None => true
    case Some((v, rest)) => fits(v) && s == write(v) + rest
  }

  ghost predicate Exact<T(!new)>(write: T -> Bytes, read: Bytes -> Parse<T>, fits: T -> bool) {
    forall s: Bytes :: ExactAt(write, read, fits, s)
  }

  lemma UnsignedExact(s: Bytes, k: nat)
    ensures ReadUnsigned(s, k).Some? <==> k <= |s|
    ensures k <= |s| ==>
              var read := ReadUnsigned(s, k).value;
              read.0 < Pow256(k) && s == Little(read.0, k) + read.1
  {
    if k <= |s| {
      LittleFromLittle(s[..k]);
    }
  }

  lemma {:induction false} AllExact<T(!new)>(n: nat, write: T -> Bytes, read: Bytes -> Parse<T>, fits: T -> bool,
                                             s: Bytes)
    requires Exact(write, read, fits)
    ensures match ReadAll(n, read, s)
            case None => true
            case Some((items, rest)) =>
              |items| == n && (forall item <- items :: fits(item)) && s == WriteAll(items, write) + rest
  {
    if n > 0 {
      AllExact(n - 1, write, read, fits, s);
      if ReadAll(n, read, s).Some? {
        var before, middle := ReadAll(n - 1, read, s).value.0, ReadAll(n - 1, read, s).value.1;
        assert ExactAt(write, read, fits, middle);
        var items, rest := ReadAll(n, read, s).value.0, ReadAll(n, read, s).value.1;
        assert items[..n - 1] == before;
        assert WriteAll(items, write) == WriteAll(before, write) + write(items[n - 1]);
        assert s == WriteAll(before, write) + (write(items[n - 1]) + rest);
      }
    }
  }

  lemma ListExact<T(!new)>(write: T -> Bytes, read: Bytes -> Parse<T>, fits: T -> bool, s: Bytes)
    requires Exact(write, read, fits)
    ensures match ReadList(read, s)
            case None => true
            case Some((items, rest)) =>
              FitsU32(|items|) && (forall item <- items :: fits(item)) && s == WriteList(items, write) + rest
  {
    UnsignedExact(s, U32);
    if ReadUnsigned(s, U32).Some? {
      var n, middle := ReadUnsigned(s, U32).value.0, ReadUnsigned(s, U32).value.1;
      AllExact(n, write, read, fits, middle);
      if ReadAll(n, read, middle).Some? {
        var items, rest := ReadAll(n, read, middle).value.0, ReadAll(n, read, middle).value.1;
        assert s == Little(n, U32) + (WriteAll(items, write) + rest);
        assert WriteList(items, write) + rest == Little(n, U32) + (WriteAll(items, write) + rest);
      }
    }
  }

  // ----- the pieces of a model -----

  lemma I64Exact()
    ensures Exact(WriteI64, ReadI64, FitsI64)
  {
    forall s: Bytes ensures ExactAt(WriteI64, ReadI64, FitsI64, s) {
      UnsignedExact(s, U64);
      if ReadUnsigned(s, U64).Some? {
        var n, rest := ReadUnsigned(s, U64).value.0, ReadUnsigned(s, U64).value.1;
        assert Unsigned(Signed(n)) == n;
      }
    }
  }

  predicate Any<T>(v: T) {
    true
  }

  lemma FloatExact()
    ensures Exact(WriteFloat, ReadFloat, Any<Float32>)
  {
    forall s: Bytes ensures ExactAt(WriteFloat, ReadFloat, Any<Float32>, s) {
      if |s| >= 4 {
        assert s == [s[0], s[1], s[2], s[3]] + s[4..];
      }
    }
  }

  predicate FitsU64(n: nat) {
    n < Pow256(U64)
  }

  lemma DimExact()
    ensures Exact(WriteDim, ReadDim, FitsU64)
  {
    forall s: Bytes ensures ExactAt(WriteDim, ReadDim, FitsU64, s) {
      UnsignedExact(s, U64);
    }
  }

  lemma StringExact()
    ensures Exact(WriteString, ReadString, IsText)
  {
    forall s: Bytes ensures ExactAt(WriteString, ReadString, IsText, s) {
      UnsignedExact(s, U32);
      if ReadString(s).Some? {
        var n, middle := ReadUnsigned(s, U32).value.0, ReadUnsigned(s, U32).value.1;
        var text, rest := middle[..n], middle[n..];
        assert ToBytes(FromBytes(text)) == text;
        assert middle == text + rest;
        assert s == Little(n, U32) + (text + rest);
      }
    }
  }

  lemma AttributeExact()
    ensures Exact(WriteAttribute, ReadAttribute, AttributeFits)
  {
    forall s: Bytes ensures ExactAt(WriteAttribute, ReadAttribute, AttributeFits, s) {
      if s != [] {
        AttributeExactAt(s);
      }
    }
  }

  lemma AttributeExactAt(s: Bytes)
    requires s != []
    ensures ExactAt(WriteAttribute, ReadAttribute, AttributeFits, s)
  {
    var rest := s[1..];
    assert s == [s[0]] + rest;
    hide WriteI64, ReadI64, WriteFloat, ReadFloat, WriteList, ReadList, FitsI64, FitsU32, Exact;
    if ReadAttribute(s).Some? {
      var left := ReadAttribute(s).value.1;
      if s[0] == 0 {
        I64ExactAt(rest);
        assert s == ([0] + WriteI64(ReadI64(rest).value.0)) + left;
      } else if s[0] == 1 {
        FloatExactAt(rest);
        assert s == ([1] + WriteFloat(ReadFloat(rest).value.0)) + left;
      } else {
        I64Exact();
        ListExact(WriteI64, ReadI64, FitsI64, rest);
        assert s == ([2] + WriteList(ReadList(ReadI64, rest).value.0, WriteI64)) + left;
      }
    }
  }

  lemma I64ExactAt(s: Bytes)
    ensures ExactAt(WriteI64, ReadI64, FitsI64, s)
  {
    I64Exact();
  }

  lemma FloatExactAt(s: Bytes)
    ensures ExactAt(WriteFloat, ReadFloat, Any<Float32>, s)
  {
    FloatExact();
  }

  predicate NamedAttributeFits(a: Named<Attribute>) {
    IsText(a.name) && AttributeFits(a.value)
  }

  lemma NamedAttributeExact()
    ensures Exact(WriteNamedAttribute, ReadNamedAttribute, NamedAttributeFits)
  {
    forall s: Bytes ensures ExactAt(WriteNamedAttribute, ReadNamedAttribute, NamedAttributeFits, s) {
      StringExactAt(s);
      if ReadString(s).Some? {
        AttributeExactHere(ReadString(s).value.1);
      }
      NamedAttributeExactAt(s);
    }
  }

  lemma AttributeExactHere(s: Bytes)
    ensures ExactAt(WriteAttribute, ReadAttribute, AttributeFits, s)
  {
    AttributeExact();
  }

  lemma NamedAttributeExactAt(s: Bytes)
    requires ExactAt(WriteString, ReadString, IsText, s)
    requires ReadString(s).Some? ==>
               ExactAt(WriteAttribute, ReadAttribute, AttributeFits, ReadString(s).value.1)
    ensures ExactAt(WriteNamedAttribute, ReadNamedAttribute, NamedAttributeFits, s)
  {
    hide ReadString, WriteString, ReadAttribute, WriteAttribute, IsText, AttributeFits;
    if ReadString(s).Some? {
      var name, middle := ReadString(s).value.0, ReadString(s).value.1;
      if ReadAttribute(middle).Some? {
        var a, rest := ReadAttribute(middle).value.0, ReadAttribute(middle).value.1;
        assert s == (WriteString(name) + WriteAttribute(a)) + rest;
      }
    }
  }

  predicate ReadableTensor(t: Tensor) {
    TensorFits(t) && t.shape != []
  }

  lemma TensorExact()
    ensures Exact(WriteTensor, ReadTensor, ReadableTensor)
  {
    DimExact();
    FloatExact();
    forall s: Bytes ensures ExactAt(WriteTensor, ReadTensor, ReadableTensor, s) {
      hide ReadList, WriteList, ReadFloat, WriteFloat;
      ListExact(WriteDim, ReadDim, FitsU64, s);
      if ReadTensor(s).Some? {
        var shape, middle := ReadList(ReadDim, s).value.0, ReadList(ReadDim, s).value.1;
        AllExact(Elements(shape), WriteFloat, ReadFloat, Any<Float32>, middle);
        var read := ReadAll(Elements(shape), ReadFloat, middle).value;
        var data, rest := read.0, read.1;
        assert forall d <- shape :: FitsU64(d);
        assert s == (WriteList(shape, WriteDim) + WriteAll(data, WriteFloat)) + rest;
      }
    }
  }

  predicate ReadableNamed(t: Named<Tensor>) {
    IsText(t.name) && ReadableTensor(t.value)
  }

  lemma NamedTensorExact()
    ensures Exact(WriteNamedTensor, ReadNamedTensor, ReadableNamed)
  {
    forall s: Bytes ensures ExactAt(WriteNamedTensor, ReadNamedTensor, ReadableNamed, s) {
      StringExactAt(s);
      if ReadString(s).Some? {
        TensorExactAt(ReadString(s).value.1);
      }
      NamedTensorExactAt(s);
    }
  }

  lemma TensorExactAt(s: Bytes)
    ensures ExactAt(WriteTensor, ReadTensor, ReadableTensor, s)
  {
    TensorExact();
  }

  lemma NamedTensorExactAt(s: Bytes)
    requires ExactAt(WriteString, ReadString, IsText, s)
    requires ReadString(s).Some? ==> ExactAt(WriteTensor, ReadTensor, ReadableTensor, ReadString(s).value.1)
    ensures ExactAt(WriteNamedTensor, ReadNamedTensor, ReadableNamed, s)
  {
    hide ReadString, WriteString, ReadTensor, WriteTensor, IsText, ReadableTensor;
    if ReadString(s).Some? {
      var name, middle := ReadString(s).value.0, ReadString(s).value.1;
      if ReadTensor(middle).Some? {
        var t, rest := ReadTensor(middle).value.0, ReadTensor(middle).value.1;
        assert s == (WriteString(name) + WriteTensor(t)) + rest;
      }
    }
  }

  lemma TextsExact(s: Bytes)
    ensures match ReadList(ReadString, s)
            case None => true
            case Some((names, rest)) => Texts(names) && s == WriteList(names, WriteString) + rest
  {
    StringExact();
    ListExact(WriteString, ReadString, IsText, s);
  }

  lemma NodeExact()
    ensures Exact(WriteNode, ReadNode, NodeFits)
  {
    StringExact();
    NamedAttributeExact();
    forall s: Bytes ensures ExactAt(WriteNode, ReadNode, NodeFits, s) {
      if ReadNode(s).Some? {
        NodeExactAt(s);
      }
    }
  }

  lemma NodeExactAt(s: Bytes)
    requires Exact(WriteString, ReadString, IsText) &&
             Exact(WriteNamedAttribute, ReadNamedAttribute, NamedAttributeFits)
    requires ReadNode(s).Some?
    ensures ExactAt(WriteNode, ReadNode, NodeFits, s)
  {
    hide ReadString, WriteString, ReadList, WriteList, IsText, AttributeFits, Exact;
    var name, s1 := ReadString(s).value.0, ReadString(s).value.1;
    var opText, s2 := ReadString(s1).value.0, ReadString(s1).value.1;
    var inputs, s3 := ReadList(ReadString, s2).value.0, ReadList(ReadString, s2).value.1;
    var outputs, s4 := ReadList(ReadString, s3).value.0, ReadList(ReadString, s3).value.1;
    var attributes, s5 := ReadList(ReadNamedAttribute, s4).value.0, ReadList(ReadNamedAttribute, s4).value.1;
    assert ExactAt(WriteString, ReadString, IsText, s) && ExactAt(WriteString, ReadString, IsText, s1) by {
      StringExactAt(s);
      StringExactAt(s1);
    }
    TextsExact(s2);
    TextsExact(s3);
    ListExact(WriteNamedAttribute, ReadNamedAttribute, NamedAttributeFits, s4);
    assert forall a <- attributes :: NamedAttributeFits(a);
    var n := NodeImage(name, opText, inputs, outputs, attributes);
    var w4 := WriteList(attributes, WriteNamedAttribute);
    var w3 := WriteList(outputs, WriteString);
    var w2 := WriteList(inputs, WriteString);
    assert s == WriteString(name) + (WriteString(opText) + (w2 + (w3 + (w4 + s5))));
    assert WriteNode(n) + s5 == WriteString(name) + (WriteString(opText) + (w2 + (w3 + (w4 + s5))));
  }

  lemma StringExactAt(s: Bytes)
    ensures ExactAt(WriteString, ReadString, IsText, s)
  {
    StringExact();
  }

  // ----- the whole file -----

  lemma BodyExact(s: Bytes)
    ensures match ReadBody(s)
            case None => true
            case Some((m, rest)) => ImageFits(m) && !HasScalar(m.tensors) && s == Body(m) + rest
  {
    NamedTensorExact();
    NodeExact();
    hide ReadList, WriteList, Exact, TensorFits, NodeFits, IsText;
    if ReadBody(s).Some? {
      var tensors, s1 := ReadList(ReadNamedTensor, s).value.0, ReadList(ReadNamedTensor, s).value.1;
      var nodes, s2 := ReadList(ReadNode, s1).value.0, ReadList(ReadNode, s1).value.1;
      var inputs, s3 := ReadList(ReadString, s2).value.0, ReadList(ReadString, s2).value.1;
      var outputs, s4 := ReadList(ReadString, s3).value.0, ReadList(ReadString, s3).value.1;
      ListExact(WriteNamedTensor, ReadNamedTensor, ReadableNamed, s);
      ListExact(WriteNode, ReadNode, NodeFits, s1);
      TextsExact(s2);
      TextsExact(s3);
      assert forall t <- tensors :: ReadableNamed(t);
      var m := Image(tensors, nodes, inputs, outputs);
      var w1, w2 := WriteList(tensors, WriteNamedTensor), WriteList(nodes, WriteNode);
      var w3, w4 := WriteList(inputs, WriteString), WriteList(outputs, WriteString);
      assert s == w1 + (w2 + (w3 + (w4 + s4)));
      assert Body(m) + s4 == w1 + (w2 + (w3 + (w4 + s4)));
    }
  }

  /**
   * A file is read as a model exactly when it starts with what is written for that model, which has no scalar. So a
   * file that is cut short, starts otherwise, is of another version or has an unknown attribute is refused.
   */
  lemma ReadExactly(s: Bytes, m: Image)
    ensures ReadImage(s) == Some(m) <==> ImageFits(m) && !HasScalar(m.tensors) && WriteImage(m) <= s
  {
    hide ReadBody, Body, ImageFits, HasScalar;
    if ReadImage(s) == Some(m) {
      UnsignedExact(s[4..], U32);
      var s2 := s[4..][U32..];
      BodyExact(s2);
      var rest := ReadBody(s2).value.1;
      assert s == MAGIC + (Little(VERSION, U32) + (Body(m) + rest));
      assert WriteImage(m) + rest == s;
    }
    if ImageFits(m) && !HasScalar(m.tensors) && WriteImage(m) <= s {
      ImageReads(m, s[|WriteImage(m)|..]);
      assert s == WriteImage(m) + s[|WriteImage(m)|..];
    }
  }

  // ----- the layout, byte by byte -----

  const WEIGHTS := Tensor([2], [Float32(0, 0, 128, 63), Float32(0, 0, 0, 64)])
  const SUM := NodeImage("n", "Add", ["x", "w"], ["y"],
                         [Named("i", IntValue(258)), Named("f", FloatValue(Float32(1, 2, 3, 4))),
                          Named("l", IntsValue([-1]))])
  const SAMPLE := Image([Named("w", WEIGHTS)], [SUM], ["x"], ["y"])

  lemma {:induction false} Zeros(k: nat)
    ensures Little(0, k) == seq(k, _ => 0)
  {
    if k > 0 {
      Zeros(k - 1);
      assert seq(k, _ => 0 as byte) == [0] + seq(k - 1, _ => 0 as byte);
    }
  }

  lemma Small(n: nat)
    requires n < 256
    ensures Little(n, 4) == [n as byte, 0, 0, 0] && Little(n, 8) == [n as byte, 0, 0, 0, 0, 0, 0, 0]
  {
    Zeros(3);
    Zeros(7);
    assert Little(n, 4) == [n as byte] + Little(0, 3) && Little(n, 8) == [n as byte] + Little(0, 7);
  }

  lemma OneItem<T>(x: T, write: T -> Bytes)
    ensures WriteList([x], write) == [1, 0, 0, 0] + write(x)
  {
    Small(1);
    assert [x][..0] == [];
    assert WriteAll([x], write) == [] + write(x);
  }

  lemma Letter(c: char)
    requires c as int < 256
    ensures WriteString([c]) == [1, 0, 0, 0, c as int as byte]
  {
    Small(1);
    assert ToBytes([c]) == [c as int as byte];
  }

  lemma {:induction false} AllOnes(k: nat)
    ensures Pow256(k) >= 1 && Little(Pow256(k) - 1, k) == seq(k, _ => 255)
  {
    if k > 0 {
      AllOnes(k - 1);
      Divided(Pow256(k) - 1, 256, Pow256(k - 1) - 1, 255);
      assert seq(k, _ => 255 as byte) == [255] + seq(k - 1, _ => 255 as byte);
    }
  }

  lemma IntBytes()
    ensures WriteAttribute(IntValue(258)) == [0, 2, 1, 0, 0, 0, 0, 0, 0]
  {
    Zeros(6);
    assert Little(258, 8) == [2] + Little(1, 7) && Little(1, 7) == [1] + Little(0, 6);
    hide Little;
    assert WriteI64(258) == [2] + ([1] + seq(6, _ => 0));
  }

  lemma MinusOneBytes()
    ensures WriteI64(-1) == [255, 255, 255, 255, 255, 255, 255, 255]
  {
    AllOnes(8);
    assert WriteI64(-1) == seq(8, _ => 255 as byte);
  }

  lemma IntsBytes()
    ensures WriteAttribute(IntsValue([-1])) == [2] + ([1, 0, 0, 0] + [255, 255, 255, 255, 255, 255, 255, 255])
  {
    OneItem(-1, WriteI64);
    MinusOneBytes();
  }

  lemma ThreeItems<T>(x: T, y: T, z: T, write: T -> Bytes)
    ensures WriteList([x, y, z], write) == [3, 0, 0, 0] + (write(x) + write(y) + write(z))
  {
    Small(3);
    assert [x, y, z][..2] == [x, y] && [x, y][..1] == [x] && [x][..0] == [];
    assert WriteAll([x], write) == [] + write(x);
    assert WriteAll([x, y], write) == write(x) + write(y);
    assert WriteAll([x, y, z], write) == WriteAll([x, y], write) + write(z);
  }

  lemma TwoItems<T>(x: T, y: T, write: T -> Bytes)
    ensures WriteList([x, y], write) == [2, 0, 0, 0] + (write(x) + write(y))
  {
    Small(2);
    assert [x, y][..1] == [x] && [x][..0] == [];
    assert WriteAll([x], write) == [] + write(x);
  }

  lemma TensorBytes()
    ensures WriteNamedTensor(Named("w", WEIGHTS)) ==
            [1, 0, 0, 0, 119]
            + (([1, 0, 0, 0] + [2, 0, 0, 0, 0, 0, 0, 0]) + ([0, 0, 128, 63] + [0, 0, 0, 64]))
  {
    Letter('w');
    Small(2);
    var two: nat := 2;
    OneItem(two, WriteDim);
    assert WEIGHTS.shape == [two];
    var data := WEIGHTS.data;
    assert data[..1] == [data[0]] && data[..1][..0] == [];
    assert WriteAll(data[..1], WriteFloat) == [] + WriteFloat(data[0]);
    assert WriteAll(data, WriteFloat) == [0, 0, 128, 63] + [0, 0, 0, 64];
    hide WriteList, WriteAll;
  }

  lemma AttributesBytes()
    ensures WriteList(SUM.attributes, WriteNamedAttribute) ==
            [3, 0, 0, 0]
            + (([1, 0, 0, 0, 105] + [0, 2, 1, 0, 0, 0, 0, 0, 0]) + ([1, 0, 0, 0, 102] + [1, 1, 2, 3, 4])
               + ([1, 0, 0, 0, 108] + ([2] + ([1, 0, 0, 0] + [255, 255, 255, 255, 255, 255, 255, 255]))))
  {
    Letter('i');
    Letter('f');
    Letter('l');
    IntBytes();
    IntsBytes();
    assert WriteAttribute(FloatValue(Float32(1, 2, 3, 4))) == [1, 1, 2, 3, 4];
    hide WriteString, WriteAttribute, WriteList;
    ThreeItems(SUM.attributes[0], SUM.attributes[1], SUM.attributes[2], WriteNamedAttribute);
  }

  lemma NodeBytes()
    ensures WriteNode(SUM) ==
            [1, 0, 0, 0, 110] + ([3, 0, 0, 0, 65, 100, 100]
            + (([2, 0, 0, 0] + ([1, 0, 0, 0, 120] + [1, 0, 0, 0, 119])) + (([1, 0, 0, 0] + [1, 0, 0, 0, 121])
            + ([3, 0, 0, 0]
               + (([1, 0, 0, 0, 105] + [0, 2, 1, 0, 0, 0, 0, 0, 0]) + ([1, 0, 0, 0, 102] + [1, 1, 2, 3, 4])
                  + ([1, 0, 0, 0, 108] + ([2] + ([1, 0, 0, 0] + [255, 255, 255, 255, 255, 255, 255, 255]))))))))
  {
    Letter('n');
    Letter('x');
    Letter('w');
    Letter('y');
    Small(3);
    assert ToBytes("Add") == [65, 100, 100];
    assert WriteString("Add") == [3, 0, 0, 0, 65, 100, 100];
    hide WriteString, WriteList;
    TwoItems("x", "w", WriteString);
    OneItem("y", WriteString);
    AttributesBytes();
  }

  /** A small model and its file: everything a file can hold, in the order and the form it is written. */
  lemma SampleBytes()
    ensures WriteImage(SAMPLE) ==
            // the mark and the version
            [79, 73, 69, 78] + ([1, 0, 0, 0]
            // one tensor: its name, its rank, its dimension and its numbers
            + (([1, 0, 0, 0] + ([1, 0, 0, 0, 119]
                + (([1, 0, 0, 0] + [2, 0, 0, 0, 0, 0, 0, 0]) + ([0, 0, 128, 63] + [0, 0, 0, 64]))))
            // one node: its name, its operator, its inputs and its output
            + (([1, 0, 0, 0] + ([1, 0, 0, 0, 110] + ([3, 0, 0, 0, 65, 100, 100]
                + (([2, 0, 0, 0] + ([1, 0, 0, 0, 120] + [1, 0, 0, 0, 119])) + (([1, 0, 0, 0] + [1, 0, 0, 0, 121])
                // its attributes: an integer, a float and a list of integers
                + ([3, 0, 0, 0]
                   + (([1, 0, 0, 0, 105] + [0, 2, 1, 0, 0, 0, 0, 0, 0]) + ([1, 0, 0, 0, 102] + [1, 1, 2, 3, 4])
                      + ([1, 0, 0, 0, 108] + ([2] + ([1, 0, 0, 0] + [255, 255, 255, 255, 255, 255, 255, 255])))))))))
            // the graph's input and output
            + (([1, 0, 0, 0] + [1, 0, 0, 0, 120]) + ([1, 0, 0, 0] + [1, 0, 0, 0, 121]))))))
  {
    Small(1);
    Letter('x');
    Letter('y');
    TensorBytes();
    NodeBytes();
    hide WriteNode, WriteNamedTensor, WriteList, WriteString, Little;
    OneItem(Named("w", WEIGHTS), WriteNamedTensor);
    OneItem(SUM, WriteNode);
    OneItem("x", WriteString);
    OneItem("y", WriteString);
  }
}
