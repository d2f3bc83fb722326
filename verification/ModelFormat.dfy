/** The binary model format: what a file holds, how it is written and how it is read. */
module ModelFormat {
  import opened Base
  import opened Programs

  type Bytes = seq<byte>

  /** Something read from the front of a stream and what is left; nothing when the stream cannot be read. */
  type Parse<T> = Option<(T, Bytes)>

  // ----- fixed-width integers -----

  function Pow256(k: nat): nat {
    if k == 0 then 1 else 256 * Pow256(k - 1)
  }

  /** The `k` low bytes of a number, lowest first; higher ones are lost. */
  function Little(n: nat, k: nat): (b: Bytes)
    ensures |b| == k
  {
    if k == 0 then [] else [(n % 256) as byte] + Little(n / 256, k - 1)
  }

  function FromLittle(b: Bytes): nat {
    if b == [] then 0 else (b[0] as nat) + 256 * FromLittle(b[1..])
  }

  lemma {:induction false} FromLittleLittle(n: nat, k: nat)
    requires n < Pow256(k)
    ensures FromLittle(Little(n, k)) == n
  {
    if k > 0 {
      FromLittleLittle(n / 256, k - 1);
      assert Little(n, k)[1..] == Little(n / 256, k - 1);
    }
  }

  function Take(s: Bytes, n: nat): Parse<Bytes> {
    if |s| < n then None else Some((s[..n], s[n..]))
  }

  function ReadUnsigned(s: Bytes, k: nat): Parse<nat> {
    match Take(s, k)
    case None => None
    case Some((b, rest)) => Some((FromLittle(b), rest))
  }

  lemma ReadUnsignedBack(n: nat, k: nat, rest: Bytes)
    requires n < Pow256(k)
    ensures ReadUnsigned(Little(n, k) + rest, k) == Some((n, rest))
  {
    FromLittleLittle(n, k);
  }

  const U32: nat := 4
  const U64: nat := 8

  /** A signed integer in two's complement. */
  function Unsigned(v: int): nat {
    if v >= 0 then v else if v + Pow256(U64) >= 0 then v + Pow256(U64) else 0
  }

  function Signed(n: nat): int {
    if 2 * n < Pow256(U64) then n else n - Pow256(U64)
  }

  predicate FitsI64(v: int) {
    0 <= 2 * v + Pow256(U64) && 2 * v < Pow256(U64)
  }

  predicate FitsU32(n: nat) {
    n < Pow256(U32)
  }

  function WriteI64(v: int): Bytes {
    Little(Unsigned(v), U64)
  }

  function ReadI64(s: Bytes): Parse<int> {
    match ReadUnsigned(s, U64)
    case None => None
    case Some((n, rest)) => Some((Signed(n), rest))
  }

  lemma ReadI64Back(v: int, rest: Bytes)
    requires FitsI64(v)
    ensures ReadI64(WriteI64(v) + rest) == Some((v, rest))
  {
    ReadUnsignedBack(Unsigned(v), U64, rest);
  }

  // ----- floats and strings -----

  function WriteFloat(f: Float32): Bytes {
    [f.b0, f.b1, f.b2, f.b3]
  }

  function ReadFloat(s: Bytes): Parse<Float32> {
    if |s| < 4 then None else Some((Float32(s[0], s[1], s[2], s[3]), s[4..]))
  }

  lemma ReadFloatBack(f: Float32, rest: Bytes)
    ensures ReadFloat(WriteFloat(f) + rest) == Some((f, rest))
  {
  }

  /** A string is its bytes. */
  predicate IsText(s: string) {
    FitsU32(|s|) && forall c <- s :: c as int < 256
  }

  function ToBytes(s: string): (b: Bytes)
    ensures |b| == |s|
  {
    seq(|s|, i requires 0 <= i < |s| => (s[i] as int % 256) as byte)
  }

  function FromBytes(b: Bytes): (s: string)
    ensures |s| == |b|
  {
    seq(|b|, i requires 0 <= i < |b| => b[i] as int as char)
  }

  function WriteString(s: string): Bytes {
    Little(|s|, U32) + ToBytes(s)
  }

  function ReadString(s: Bytes): Parse<string> {
    match ReadUnsigned(s, U32)
    case None => None
    case Some((n, rest)) =>
      match Take(rest, n)
      case None => None
      case Some((b, left)) => Some((FromBytes(b), left))
  }

  lemma ReadStringBack(s: string, rest: Bytes)
    requires IsText(s)
    ensures ReadString(WriteString(s) + rest) == Some((s, rest))
  {
    assert WriteString(s) + rest == Little(|s|, U32) + (ToBytes(s) + rest);
    ReadUnsignedBack(|s|, U32, ToBytes(s) + rest);
    TextBack(s);
  }

  lemma TextBack(s: string)
    requires IsText(s)
    ensures FromBytes(ToBytes(s)) == s
  {
    forall i | 0 <= i < |s| ensures FromBytes(ToBytes(s))[i] == s[i] {
      assert s[i] in s;
    }
  }

  // ----- lists -----

  function WriteAll<T>(items: seq<T>, write: T -> Bytes): Bytes {
    if items == [] then [] else WriteAll(items[..|items| - 1], write) + write(items[|items| - 1])
  }

  /** `n` items one after another. */
  function ReadAll<T>(n: nat, read: Bytes -> Parse<T>, s: Bytes): Parse<seq<T>> {
    if n == 0 then Some(([], s)) else
    match ReadAll(n - 1, read, s)
    case None => None
    case Some((items, rest)) =>
      match read(rest)
      case None => None
      case Some((item, left)) => Some((items + [item], left))
  }

  /** Reading gives back what was written, whatever follows. */
  ghost predicate Back<T(!new)>(write: T -> Bytes, read: Bytes -> Parse<T>, item: T) {
    forall rest: Bytes :: BackAt(write, read, item, rest)
  }

  predicate BackAt<T(==)>(write: T -> Bytes, read: Bytes -> Parse<T>, item: T, rest: Bytes) {
    read(write(item) + rest) == Some((item, rest))
  }

  lemma {:induction false} ReadAllBack<T(!new)>(items: seq<T>, write: T -> Bytes, read: Bytes -> Parse<T>, rest: Bytes)
    requires forall item <- items :: Back(write, read, item)
    ensures ReadAll(|items|, read, WriteAll(items, write) + rest) == Some((items, rest))
  {
    if items == [] {
      assert WriteAll(items, write) + rest == rest;
    } else {
      var n := |items| - 1;
      assert WriteAll(items, write) + rest == WriteAll(items[..n], write) + (write(items[n]) + rest);
      ReadAllBack(items[..n], write, read, write(items[n]) + rest);
      assert Back(write, read, items[n]);
      assert BackAt(write, read, items[n], rest);
      assert items[..n] + [items[n]] == items;
    }
  }

  /** A list with its length in front. */
  function WriteList<T>(items: seq<T>, write: T -> Bytes): Bytes {
    Little(|items|, U32) + WriteAll(items, write)
  }

  function ReadList<T>(read: Bytes -> Parse<T>, s: Bytes): Parse<seq<T>> {
    match ReadUnsigned(s, U32)
    case None => None
    case Some((n, rest)) => ReadAll(n, read, rest)
  }

  lemma ReadListBack<T(!new)>(items: seq<T>, write: T -> Bytes, read: Bytes -> Parse<T>, rest: Bytes)
    requires FitsU32(|items|) && forall item <- items :: Back(write, read, item)
    ensures ReadList(read, WriteList(items, write) + rest) == Some((items, rest))
  {
    assert WriteList(items, write) + rest == Little(|items|, U32) + (WriteAll(items, write) + rest);
    ReadUnsignedBack(|items|, U32, WriteAll(items, write) + rest);
    ReadAllBack(items, write, read, rest);
  }

  // ----- attributes, tensors and nodes -----

  function WriteAttribute(a: Attribute): Bytes {
    match a
    case IntValue(v) => [0] + WriteI64(v)
    case FloatValue(f) => [1] + WriteFloat(f)
    case IntsValue(vs) => [2] + WriteList(vs, WriteI64)
  }

  function ReadAttribute(s: Bytes): Parse<Attribute> {
    if s == [] then None
    else if s[0] == 0 then
      match ReadI64(s[1..]) case None => None case Some((v, rest)) => Some((IntValue(v), rest))
    else if s[0] == 1 then
      match ReadFloat(s[1..]) case None => None case Some((f, rest)) => Some((FloatValue(f), rest))
    else if s[0] == 2 then
      match ReadList(ReadI64, s[1..]) case None => None case Some((vs, rest)) => Some((IntsValue(vs), rest))
    else None
  }

  predicate AttributeFits(a: Attribute) {
    match a
    case IntValue(v) => FitsI64(v)
    case FloatValue(_) => true
    case IntsValue(vs) => FitsU32(|vs|) && forall v <- vs :: FitsI64(v)
  }

  lemma I64Back(v: int)
    requires FitsI64(v)
    ensures Back(WriteI64, ReadI64, v)
  {
    forall rest: Bytes ensures BackAt(WriteI64, ReadI64, v, rest) {
      ReadI64Back(v, rest);
    }
  }

  lemma AttributeBack(a: Attribute, rest: Bytes)
    requires AttributeFits(a)
    ensures ReadAttribute(WriteAttribute(a) + rest) == Some((a, rest))
  {
    hide WriteList, ReadList, WriteI64, ReadI64, WriteFloat, ReadFloat, FitsI64;
    var s := WriteAttribute(a) + rest;
    match a
    case IntValue(v) =>
      assert s[1..] == WriteI64(v) + rest;
      ReadI64Back(v, rest);
    case FloatValue(f) =>
      assert s[1..] == WriteFloat(f) + rest;
      ReadFloatBack(f, rest);
    case IntsValue(vs) =>
      assert s[1..] == WriteList(vs, WriteI64) + rest;
      forall v | v in vs ensures Back(WriteI64, ReadI64, v) {
        I64Back(v);
      }
      ReadListBack(vs, WriteI64, ReadI64, rest);
  }

  /** A named attribute or a named tensor. */
  datatype Named<T> = Named(name: string, value: T)

  function WriteNamedAttribute(a: Named<Attribute>): Bytes {
    WriteString(a.name) + WriteAttribute(a.value)
  }

  function ReadNamedAttribute(s: Bytes): Parse<Named<Attribute>> {
    match ReadString(s)
    case None => None
    case Some((name, rest)) =>
      match ReadAttribute(rest)
      case None => None
      case Some((a, left)) => Some((Named(name, a), left))
  }

  lemma NamedAttributeBack(a: Named<Attribute>)
    requires IsText(a.name) && AttributeFits(a.value)
    ensures Back(WriteNamedAttribute, ReadNamedAttribute, a)
  {
    forall rest: Bytes ensures BackAt(WriteNamedAttribute, ReadNamedAttribute, a, rest) {
      assert WriteNamedAttribute(a) + rest == WriteString(a.name) + (WriteAttribute(a.value) + rest);
      ReadStringBack(a.name, WriteAttribute(a.value) + rest);
      AttributeBack(a.value, rest);
    }
  }

  function WriteDim(d: nat): Bytes {
    Little(d, U64)
  }

  function ReadDim(s: Bytes): Parse<nat> {
    ReadUnsigned(s, U64)
  }

  function WriteTensor(t: Tensor): Bytes {
    WriteList(t.shape, WriteDim) + WriteAll(t.data, WriteFloat)
  }

  /** The reader takes the product of the dimensions, which is one at rank zero, and checks the size afterwards. */
  function ReadTensor(s: Bytes): Parse<Tensor> {
    match ReadList(ReadDim, s)
    case None => None
    case Some((shape, rest)) =>
      match ReadAll(Elements(shape), ReadFloat, rest)
      case None => None
      case Some((data, left)) => if |data| != Size(shape) then None else Some((Tensor(shape, data), left))
  }

  predicate TensorFits(t: Tensor) {
    |t.data| == Size(t.shape) && FitsU32(|t.shape|) && forall d <- t.shape :: d < Pow256(U64)
  }

  lemma {:induction false} ReadAllLength<T>(n: nat, read: Bytes -> Parse<T>, s: Bytes)
    ensures ReadAll(n, read, s).Some? ==> |ReadAll(n, read, s).value.0| == n
  {
    if n > 0 {
      ReadAllLength(n - 1, read, s);
    }
  }

  lemma ShapeBack(shape: seq<nat>, rest: Bytes)
    requires FitsU32(|shape|) && forall d <- shape :: d < Pow256(U64)
    ensures ReadList(ReadDim, WriteList(shape, WriteDim) + rest) == Some((shape, rest))
  {
    forall d | d in shape ensures Back(WriteDim, ReadDim, d) {
      forall tail: Bytes ensures BackAt(WriteDim, ReadDim, d, tail) {
        ReadUnsignedBack(d, U64, tail);
      }
    }
    ReadListBack(shape, WriteDim, ReadDim, rest);
  }

  /** A tensor reads back exactly when it has a rank of at least one; a scalar makes the reader fail. */
  lemma TensorBack(t: Tensor, rest: Bytes)
    requires TensorFits(t)
    ensures ReadTensor(WriteTensor(t) + rest) == if t.shape == [] then None else Some((t, rest))
  {
    var data := WriteAll(t.data, WriteFloat);
    assert WriteTensor(t) + rest == WriteList(t.shape, WriteDim) + (data + rest);
    ShapeBack(t.shape, data + rest);
    if t.shape == [] {
      ReadAllLength(1, ReadFloat, data + rest);
    } else {
      forall f | f in t.data ensures Back(WriteFloat, ReadFloat, f) {
        forall tail: Bytes ensures BackAt(WriteFloat, ReadFloat, f, tail) {
          ReadFloatBack(f, tail);
        }
      }
      ReadAllBack(t.data, WriteFloat, ReadFloat, rest);
    }
  }

  function WriteNamedTensor(t: Named<Tensor>): Bytes {
    WriteString(t.name) + WriteTensor(t.value)
  }

  function ReadNamedTensor(s: Bytes): Parse<Named<Tensor>> {
    match ReadString(s)
    case None => None
    case Some((name, rest)) =>
      match ReadTensor(rest)
      case None => None
      case Some((t, left)) => Some((Named(name, t), left))
  }

  /** A node with its attributes in the order they are written. */
  datatype NodeImage = NodeImage(name: string, opText: string, inputs: seq<string>, outputs: seq<string>,
                                 attributes: seq<Named<Attribute>>)

  function WriteNode(n: NodeImage): Bytes {
    WriteString(n.name) + (WriteString(n.opText) + (WriteList(n.inputs, WriteString)
      + (WriteList(n.outputs, WriteString) + WriteList(n.attributes, WriteNamedAttribute))))
  }

  function ReadNode(s: Bytes): Parse<NodeImage> {
    match ReadString(s) case None => None case Some((name, s1)) =>
    match ReadString(s1) case None => None case Some((opText, s2)) =>
    match ReadList(ReadString, s2) case None => None case Some((inputs, s3)) =>
    match ReadList(ReadString, s3) case None => None case Some((outputs, s4)) =>
    match ReadList(ReadNamedAttribute, s4) case None => None case Some((attributes, s5)) =>
      Some((NodeImage(name, opText, inputs, outputs, attributes), s5))
  }

  predicate Texts(names: seq<string>) {
    FitsU32(|names|) && forall s <- names :: IsText(s)
  }

  predicate NodeFits(n: NodeImage) {
    && IsText(n.name) && IsText(n.opText) && Texts(n.inputs) && Texts(n.outputs)
    && FitsU32(|n.attributes|) && forall a <- n.attributes :: IsText(a.name) && AttributeFits(a.value)
  }

  lemma TextsBack(names: seq<string>, rest: Bytes)
    requires Texts(names)
    ensures ReadList(ReadString, WriteList(names, WriteString) + rest) == Some((names, rest))
  {
    forall s | s in names ensures Back(WriteString, ReadString, s) {
      forall tail: Bytes ensures BackAt(WriteString, ReadString, s, tail) {
        ReadStringBack(s, tail);
      }
    }
    ReadListBack(names, WriteString, ReadString, rest);
  }

  lemma AttributesBack(attributes: seq<Named<Attribute>>, rest: Bytes)
    requires FitsU32(|attributes|) && forall a <- attributes :: IsText(a.name) && AttributeFits(a.value)
    ensures ReadList(ReadNamedAttribute, WriteList(attributes, WriteNamedAttribute) + rest) == Some((attributes, rest))
  {
    forall a | a in attributes ensures Back(WriteNamedAttribute, ReadNamedAttribute, a) {
      NamedAttributeBack(a);
    }
    ReadListBack(attributes, WriteNamedAttribute, ReadNamedAttribute, rest);
  }

  lemma NodeBack(n: NodeImage)
    requires NodeFits(n)
    ensures Back(WriteNode, ReadNode, n)
  {
    hide ReadString, WriteString, ReadList, WriteList, IsText;
    forall rest: Bytes ensures BackAt(WriteNode, ReadNode, n, rest) {
      var s4 := WriteList(n.attributes, WriteNamedAttribute) + rest;
      var s3 := WriteList(n.outputs, WriteString) + s4;
      var s2 := WriteList(n.inputs, WriteString) + s3;
      var s1 := WriteString(n.opText) + s2;
      assert WriteNode(n) + rest == WriteString(n.name) + s1;
      ReadStringBack(n.name, s1);
      ReadStringBack(n.opText, s2);
      TextsBack(n.inputs, s3);
      TextsBack(n.outputs, s4);
      AttributesBack(n.attributes, rest);
    }
  }

  // ----- the whole file -----

  /** What a file holds, in the order it holds it. */
  datatype Image = Image(tensors: seq<Named<Tensor>>, nodes: seq<NodeImage>, inputs: seq<string>, outputs: seq<string>)

  const MAGIC: Bytes := [79, 73, 69, 78]
  const VERSION: nat := 1

  function Body(m: Image): Bytes {
    WriteList(m.tensors, WriteNamedTensor) + (WriteList(m.nodes, WriteNode)
      + (WriteList(m.inputs, WriteString) + WriteList(m.outputs, WriteString)))
  }

  function WriteImage(m: Image): Bytes {
    MAGIC + (Little(VERSION, U32) + Body(m))
  }

  function ReadBody(s: Bytes): Parse<Image> {
    match ReadList(ReadNamedTensor, s) case None => None case Some((tensors, s1)) =>
    match ReadList(ReadNode, s1) case None => None case Some((nodes, s2)) =>
    match ReadList(ReadString, s2) case None => None case Some((inputs, s3)) =>
    match ReadList(ReadString, s3) case None => None case Some((outputs, s4)) =>
      Some((Image(tensors, nodes, inputs, outputs), s4))
  }

  /** Whatever follows the graph's outputs is ignored. */
  function ReadImage(s: Bytes): Option<Image> {
    match Take(s, 4) case None => None case Some((magic, s1)) =>
      if magic != MAGIC then None else
      match ReadUnsigned(s1, U32) case None => None case Some((version, s2)) =>
        if version != VERSION then None else
        match ReadBody(s2) case None => None case Some((m, _)) => Some(m)
  }

  predicate ImageFits(m: Image) {
    && FitsU32(|m.tensors|) && (forall t <- m.tensors :: IsText(t.name) && TensorFits(t.value))
    && FitsU32(|m.nodes|) && (forall n <- m.nodes :: NodeFits(n))
    && Texts(m.inputs) && Texts(m.outputs)
  }

  predicate HasScalar(tensors: seq<Named<Tensor>>) {
    exists t <- tensors :: t.value.shape == []
  }

  lemma NamedTensorReads(t: Named<Tensor>, rest: Bytes)
    requires IsText(t.name) && TensorFits(t.value)
    ensures ReadNamedTensor(WriteNamedTensor(t) + rest) == if t.value.shape == [] then None else Some((t, rest))
  {
    assert WriteNamedTensor(t) + rest == WriteString(t.name) + (WriteTensor(t.value) + rest);
    ReadStringBack(t.name, WriteTensor(t.value) + rest);
    TensorBack(t.value, rest);
  }

  /** A list of tensors reads back exactly when none of them is a scalar. */
  lemma {:induction false} TensorsRead(tensors: seq<Named<Tensor>>, rest: Bytes)
    requires forall t <- tensors :: IsText(t.name) && TensorFits(t.value)
    ensures ReadAll(|tensors|, ReadNamedTensor, WriteAll(tensors, WriteNamedTensor) + rest) ==
            if HasScalar(tensors) then None else Some((tensors, rest))
  {
    hide ReadNamedTensor, WriteNamedTensor, TensorFits, IsText;
    if tensors == [] {
      assert WriteAll(tensors, WriteNamedTensor) + rest == rest;
    } else {
      var n := |tensors| - 1;
      var last := WriteNamedTensor(tensors[n]);
      assert WriteAll(tensors, WriteNamedTensor) + rest == WriteAll(tensors[..n], WriteNamedTensor) + (last + rest);
      assert tensors == tensors[..n] + [tensors[n]];
      TensorsRead(tensors[..n], last + rest);
      NamedTensorReads(tensors[n], rest);
      assert HasScalar(tensors) <==> HasScalar(tensors[..n]) || tensors[n].value.shape == [];
    }
  }

  lemma BodyReads(m: Image, rest: Bytes)
    requires ImageFits(m)
    ensures ReadBody(Body(m) + rest) == if HasScalar(m.tensors) then None else Some((m, rest))
  {
    hide ReadNamedTensor, ReadNode, WriteNamedTensor, WriteNode, NodeFits, TensorFits, IsText, Little;
    var s3 := WriteList(m.outputs, WriteString) + rest;
    var s2 := WriteList(m.inputs, WriteString) + s3;
    var s1 := WriteList(m.nodes, WriteNode) + s2;
    var count, tensors := Little(|m.tensors|, U32), WriteAll(m.tensors, WriteNamedTensor);
    assert Body(m) + rest == count + (tensors + s1);
    ReadUnsignedBack(|m.tensors|, U32, tensors + s1);
    TensorsRead(m.tensors, s1);
    forall n | n in m.nodes ensures Back(WriteNode, ReadNode, n) {
      NodeBack(n);
    }
    ReadListBack(m.nodes, WriteNode, ReadNode, s2);
    TextsBack(m.inputs, s3);
    TextsBack(m.outputs, rest);
  }

  /** A written file reads back as what was written, exactly when no tensor in it is a scalar, whatever follows it. */
  lemma ImageReads(m: Image, rest: Bytes)
    requires ImageFits(m)
    ensures ReadImage(WriteImage(m) + rest) == if HasScalar(m.tensors) then None else Some(m)
  {
    hide ReadBody, Body, Little, ImageFits;
    assert VERSION < Pow256(U32) by {
      assert Pow256(4) == 256 * Pow256(3);
    }
    var s := WriteImage(m) + rest;
    assert s == MAGIC + (Little(VERSION, U32) + (Body(m) + rest));
    ReadUnsignedBack(VERSION, U32, Body(m) + rest);
    BodyReads(m, rest);
  }
}
