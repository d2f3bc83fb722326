/** Loading a model from a byte stream and saving one to it. */
module ModelLoader {
  import opened Base
  import opened Programs
  import opened ModelFormat
  import opened Edges
  import opened Graphs
  import opened Optimizer

  // ----- from a file's lists to a model's maps -----

  /** Later tensors of the same name replace earlier ones. */
  function TensorMap(tensors: seq<Named<Tensor>>): map<string, Tensor> {
    if tensors == [] then map[] else
    var n := |tensors| - 1;
    TensorMap(tensors[..n])[tensors[n].name := tensors[n].value]
  }

  /** The first attribute of a name stays. */
  function AttributeMap(attributes: seq<Named<Attribute>>): map<string, Attribute> {
    if attributes == [] then map[] else
    var n := |attributes| - 1;
    var before := AttributeMap(attributes[..n]);
    if attributes[n].name in before then before else before[attributes[n].name := attributes[n].value]
  }

  function NodeOf(n: NodeImage): Node {
    Node(n.name, n.opText, n.inputs, n.outputs, AttributeMap(n.attributes))
  }

  function NodesIn(images: seq<NodeImage>): (nodes: seq<Node>)
    ensures |nodes| == |images|
  {
    seq(|images|, i requires 0 <= i < |images| => NodeOf(images[i]))
  }

  function ProgramOf(m: Image): Program {
    Program(NodesIn(m.nodes), TensorMap(m.tensors), m.inputs, m.outputs)
  }

  /** What loading a file gives. */
  function Loaded(s: Bytes): Option<Program> {
    match ReadImage(s) case None => None case Some(m) => Some(ProgramOf(m))
  }

  // ----- which files a model can be saved as -----

  /** The attributes are those of the node, each once, in some order. */
  predicate ListsAttributes(attributes: seq<Named<Attribute>>, of: map<string, Attribute>) {
    && |attributes| == |of|
    && (forall a <- attributes :: a.name in of && of[a.name] == a.value)
    && AttributeMap(attributes) == of
  }

  predicate ListsTensors(tensors: seq<Named<Tensor>>, of: map<string, Tensor>) {
    && |tensors| == |of|
    && (forall t <- tensors :: t.name in of && of[t.name] == t.value)
    && TensorMap(tensors) == of
  }

  predicate ListsNode(n: NodeImage, of: Node) {
    && n.name == of.name && n.opText == of.opText && n.inputs == of.inputs && n.outputs == of.outputs
    && ListsAttributes(n.attributes, of.attributes)
  }

  /** The file holds the program, its maps in any order. */
  predicate Lists(m: Image, q: Program) {
    && ListsTensors(m.tensors, q.inits) && m.inputs == q.inputs && m.outputs == q.outputs
    && |m.nodes| == |q.nodes| && forall i | 0 <= i < |m.nodes| :: ListsNode(m.nodes[i], q.nodes[i])
  }

  /** Everything in the program has a place in the format. */
  predicate Fits(q: Program) {
    && FitsU32(|q.inits|) && (forall x <- q.inits :: IsText(x) && TensorFits(q.inits[x]))
    && FitsU32(|q.nodes|) && (forall n <- q.nodes :: NodeHasPlace(n))
    && Texts(q.inputs) && Texts(q.outputs)
  }

  predicate NodeHasPlace(n: Node) {
    && IsText(n.name) && IsText(n.opText) && Texts(n.inputs) && Texts(n.outputs)
    && FitsU32(|n.attributes|) && forall x <- n.attributes :: IsText(x) && AttributeFits(n.attributes[x])
  }

  predicate HasScalarInit(q: Program) {
    exists x <- q.inits :: q.inits[x].shape == []
  }

  lemma ListedProgram(m: Image, q: Program)
    requires Lists(m, q)
    ensures ProgramOf(m) == q
  {
    forall i | 0 <= i < |m.nodes| ensures NodesIn(m.nodes)[i] == q.nodes[i] {
      assert ListsNode(m.nodes[i], q.nodes[i]);
    }
  }

  lemma ListedFits(m: Image, q: Program)
    requires Lists(m, q) && Fits(q)
    ensures ImageFits(m)
  {
    forall n | n in m.nodes ensures NodeFits(n) {
      var i :| 0 <= i < |m.nodes| && m.nodes[i] == n;
      assert ListsNode(n, q.nodes[i]) && q.nodes[i] in q.nodes;
    }
  }

  lemma {:induction false} TensorMapHolds(tensors: seq<Named<Tensor>>, x: string)
    ensures x in TensorMap(tensors) ==> exists t <- tensors :: t.name == x && t.value == TensorMap(tensors)[x]
  {
    if tensors != [] {
      var n := |tensors| - 1;
      assert tensors == tensors[..n] + [tensors[n]];
      TensorMapHolds(tensors[..n], x);
    }
  }

  lemma ListedScalar(m: Image, q: Program)
    requires ListsTensors(m.tensors, q.inits)
    ensures HasScalar(m.tensors) <==> HasScalarInit(q)
  {
    if HasScalar(m.tensors) {
      var t :| t in m.tensors && t.value.shape == [];
      assert q.inits[t.name].shape == [];
    }
    if HasScalarInit(q) {
      var x :| x in q.inits && q.inits[x].shape == [];
      TensorMapHolds(m.tensors, x);
    }
  }

  /**
   * Loading a saved model gives the model back, in whatever order its maps were written, exactly when none of
   * its tensors is a scalar; with a scalar the file cannot be loaded.
   */
  lemma LoadSaved(m: Image, q: Program)
    requires Lists(m, q) && Fits(q)
    ensures Loaded(WriteImage(m)) == if HasScalarInit(q) then None else Some(q)
  {
    hide WriteImage, ReadImage;
    ListedProgram(m, q);
    ListedFits(m, q);
    ListedScalar(m, q);
    ImageReads(m, []);
    assert WriteImage(m) + [] == WriteImage(m);
  }

  /** Of several initializers of one name the last counts. */
  lemma {:induction false} LastTensorCounts(tensors: seq<Named<Tensor>>, i: nat)
    requires i < |tensors| && forall j | i < j < |tensors| :: tensors[j].name != tensors[i].name
    ensures tensors[i].name in TensorMap(tensors) && TensorMap(tensors)[tensors[i].name] == tensors[i].value
  {
    if i < |tensors| - 1 {
      LastTensorCounts(tensors[..|tensors| - 1], i);
    }
  }

  /** Of several attributes of one name the first counts. */
  lemma {:induction false} FirstAttributeCounts(attributes: seq<Named<Attribute>>, i: nat)
    requires i < |attributes| && forall j | 0 <= j < i :: attributes[j].name != attributes[i].name
    ensures attributes[i].name in AttributeMap(attributes)
    ensures AttributeMap(attributes)[attributes[i].name] == attributes[i].value
  {
    var n := |attributes| - 1;
    if i < n {
      FirstAttributeCounts(attributes[..n], i);
    } else {
      AttributeNames(attributes[..n], attributes[n].name);
    }
  }

  lemma {:induction false} AttributeNames(attributes: seq<Named<Attribute>>, x: string)
    ensures x in AttributeMap(attributes) <==> exists a <- attributes :: a.name == x
  {
    if attributes != [] {
      var n := |attributes| - 1;
      AttributeNames(attributes[..n], x);
      assert attributes == attributes[..n] + [attributes[n]];
    }
  }

  // ----- saving -----

  /** The part of a map that has been written. */
  function Written<V>(m: map<string, V>, left: set<string>): map<string, V> {
    map x <- m | x !in left :: m[x]
  }

  lemma WrittenMore<V>(m: map<string, V>, left: set<string>, x: string)
    requires x in left && x in m
    ensures Written(m, left - {x}) == Written(m, left)[x := m[x]] && x !in Written(m, left)
  {
  }

  lemma NothingWritten<V>(m: map<string, V>)
    ensures Written(m, m.Keys) == map[] && Written(m, {}) == m && AttributeMap([]) == map[] && TensorMap([]) == map[]
  {
  }

  lemma TensorMapMore(list: seq<Named<Tensor>>, t: Named<Tensor>)
    ensures TensorMap(list + [t]) == TensorMap(list)[t.name := t.value]
  {
    assert (list + [t])[..|list|] == list;
  }

  lemma AttributeMapMore(list: seq<Named<Attribute>>, a: Named<Attribute>)
    requires a.name !in AttributeMap(list)
    ensures AttributeMap(list + [a]) == AttributeMap(list)[a.name := a.value]
  {
    assert (list + [a])[..|list|] == list;
  }

  /** Writes a node's attributes in whatever order the map gives them. */
  method SaveAttributes(attributes: map<string, Attribute>) returns (out: Bytes, ghost list: seq<Named<Attribute>>)
    ensures ListsAttributes(list, attributes) && out == WriteList(list, WriteNamedAttribute)
  {
    hide WriteNamedAttribute, Little, AttributeMap, Written;
    out, list := [], [];
    var left := attributes.Keys;
    NothingWritten(attributes);
    while left != {}
      invariant left <= attributes.Keys && |list| + |left| == |attributes|
      invariant forall a <- list :: a.name in attributes && attributes[a.name] == a.value
      invariant AttributeMap(list) == Written(attributes, left)
      invariant out == WriteAll(list, WriteNamedAttribute)
    {
      var name: string :| name in left;
      var a := Named(name, attributes[name]);
      assert (list + [a])[..|list|] == list;
      WrittenMore(attributes, left, name);
      AttributeMapMore(list, a);
      out := out + WriteNamedAttribute(a);
      list := list + [a];
      left := left - {name};
    }
    out := Little(|attributes|, U32) + out;
  }

  /** Writes the initializers in whatever order the map gives them. */
  method SaveTensors(inits: map<string, Tensor>) returns (out: Bytes, ghost list: seq<Named<Tensor>>)
    ensures ListsTensors(list, inits) && out == WriteList(list, WriteNamedTensor)
  {
    hide WriteNamedTensor, Little, TensorMap, Written;
    out, list := [], [];
    var left := inits.Keys;
    NothingWritten(inits);
    while left != {}
      invariant left <= inits.Keys && |list| + |left| == |inits|
      invariant forall t <- list :: t.name in inits && inits[t.name] == t.value
      invariant TensorMap(list) == Written(inits, left)
      invariant out == WriteAll(list, WriteNamedTensor)
    {
      var name: string :| name in left;
      var t := Named(name, inits[name]);
      assert (list + [t])[..|list|] == list;
      WrittenMore(inits, left, name);
      TensorMapMore(list, t);
      out := out + WriteNamedTensor(t);
      list := list + [t];
      left := left - {name};
    }
    out := Little(|inits|, U32) + out;
  }

  method SaveNode(n: Node) returns (out: Bytes, ghost image: NodeImage)
    ensures ListsNode(image, n) && out == WriteNode(image)
  {
    hide ListsAttributes, WriteString, Little, WriteList;
    var attributes, listed := SaveAttributes(n.attributes);
    image := NodeImage(n.name, n.opText, n.inputs, n.outputs, listed);
    out := WriteString(n.name) + (WriteString(n.opText) + (WriteList(n.inputs, WriteString)
      + (WriteList(n.outputs, WriteString) + attributes)));
  }

  method SaveNodes(nodes: seq<Node>) returns (out: Bytes, ghost list: seq<NodeImage>)
    ensures |list| == |nodes| && forall i | 0 <= i < |list| :: ListsNode(list[i], nodes[i])
    ensures out == WriteList(list, WriteNode)
  {
    hide ListsNode, WriteNode, Little;
    out, list := [], [];
    for i := 0 to |nodes|
      invariant |list| == i && forall j | 0 <= j < i :: ListsNode(list[j], nodes[j])
      invariant out == WriteAll(list, WriteNode)
    {
      var bytes, image := SaveNode(nodes[i]);
      out := out + bytes;
      list := list + [image];
    }
    out := Little(|nodes|, U32) + out;
  }

  method SaveImage(q: Program) returns (out: Bytes, ghost image: Image)
    ensures Lists(image, q) && out == WriteImage(image)
  {
    hide Little, WriteList, ListsTensors, ListsNode;
    var tensors, t := SaveTensors(q.inits);
    var nodes, n := SaveNodes(q.nodes);
    image := Image(t, n, q.inputs, q.outputs);
    var interface := WriteList(q.inputs, WriteString) + WriteList(q.outputs, WriteString);
    out := MAGIC + (Little(VERSION, U32) + (tensors + (nodes + interface)));
  }

  /** Saves a program, its maps in some order. What is written loads again exactly when no tensor is a scalar. */
  method Save(q: Program) returns (out: Bytes)
    ensures exists image :: Lists(image, q) && out == WriteImage(image)
    ensures Fits(q) ==> Loaded(out) == if HasScalarInit(q) then None else Some(q)
  {
    hide WriteImage, Lists, Fits, Loaded, HasScalarInit;
    ghost var image;
    out, image := SaveImage(q);
    if Fits(q) {
      LoadSaved(image, q);
    }
  }

  // ----- loading -----

  lemma {:induction false} ReadAllFails<T>(n: nat, i: nat, read: Bytes -> Parse<T>, s: Bytes)
    requires i <= n && ReadAll(i, read, s) == None
    ensures ReadAll(n, read, s) == None
  {
    if i < n {
      ReadAllFails(n - 1, i, read, s);
    }
  }

  class ByteStream {
    var rest: Bytes

    constructor (bytes: Bytes)
      ensures rest == bytes
    {
      rest := bytes;
    }

    method ReadNumber(k: nat) returns (r: Option<nat>)
      modifies this
      ensures match ReadUnsigned(old(rest), k) case None => r == None case Some((v, s)) => r == Some(v) && rest == s
    {
      if |rest| < k {
        return None;
      }
      r := Some(FromLittle(rest[..k]));
      rest := rest[k..];
    }

    method ReadText() returns (r: Option<string>)
      modifies this
      ensures match ReadString(old(rest)) case None => r == None case Some((v, s)) => r == Some(v) && rest == s
    {
      var n := ReadNumber(U32);
      if n.None? || |rest| < n.value {
        return None;
      }
      r := Some(FromBytes(rest[..n.value]));
      rest := rest[n.value..];
    }

    method ReadTexts() returns (r: Option<seq<string>>)
      modifies this
      ensures match ReadList(ReadString, old(rest))
              case None => r == None
              case Some((v, s)) => r == Some(v) && rest == s
    {
      hide ReadString;
      var n := ReadNumber(U32);
      if n.None? {
        return None;
      }
      ghost var start := rest;
      var items := [];
      for i := 0 to n.value
        invariant ReadAll(i, ReadString, start) == Some((items, rest))
      {
        var item := ReadText();
        if item.None? {
          ReadAllFails(n.value, i + 1, ReadString, start);
          return None;
        }
        items := items + [item.value];
      }
      return Some(items);
    }

    method ReadSigneds() returns (r: Option<seq<int>>)
      modifies this
      ensures match ReadList(ReadI64, old(rest)) case None => r == None case Some((v, s)) => r == Some(v) && rest == s
    {
      var n := ReadNumber(U32);
      if n.None? {
        return None;
      }
      ghost var start := rest;
      var items := [];
      for i := 0 to n.value
        invariant ReadAll(i, ReadI64, start) == Some((items, rest))
      {
        var item := ReadNumber(U64);
        if item.None? {
          ReadAllFails(n.value, i + 1, ReadI64, start);
          return None;
        }
        items := items + [Signed(item.value)];
      }
      return Some(items);
    }

    method ReadAttributeValue() returns (r: Option<Attribute>)
      modifies this
      ensures match ReadAttribute(old(rest)) case None => r == None case Some((v, s)) => r == Some(v) && rest == s
    {
      hide ReadList, ReadUnsigned;
      if rest == [] {
        return None;
      }
      var tag := rest[0];
      rest := rest[1..];
      if tag == 0 {
        var v := ReadNumber(U64);
        return if v.None? then None else Some(IntValue(Signed(v.value)));
      }
      if tag == 1 {
        if |rest| < 4 {
          return None;
        }
        r := Some(FloatValue(Float32(rest[0], rest[1], rest[2], rest[3])));
        rest := rest[4..];
        return;
      }
      if tag == 2 {
        var vs := ReadSigneds();
        return if vs.None? then None else Some(IntsValue(vs.value));
      }
      return None;
    }

    method ReadAttributes() returns (r: Option<seq<Named<Attribute>>>)
      modifies this
      ensures match ReadList(ReadNamedAttribute, old(rest))
              case None => r == None
              case Some((v, s)) => r == Some(v) && rest == s
    {
      hide ReadString, ReadAttribute;
      var n := ReadNumber(U32);
      if n.None? {
        return None;
      }
      ghost var start := rest;
      var items := [];
      for i := 0 to n.value
        invariant ReadAll(i, ReadNamedAttribute, start) == Some((items, rest))
      {
        var name := ReadText();
        var value := None;
        if name.Some? {
          value := ReadAttributeValue();
        }
        if name.None? || value.None? {
          ReadAllFails(n.value, i + 1, ReadNamedAttribute, start);
          return None;
        }
        items := items + [Named(name.value, value.value)];
      }
      return Some(items);
    }

    method ReadNodeValue() returns (r: Option<NodeImage>)
      modifies this
      ensures match ReadNode(old(rest)) case None => r == None case Some((v, s)) => r == Some(v) && rest == s
    {
      hide ReadString, ReadList;
      var name := ReadText();
      if name.None? { return None; }
      var opText := ReadText();
      if opText.None? { return None; }
      var inputs := ReadTexts();
      if inputs.None? { return None; }
      var outputs := ReadTexts();
      if outputs.None? { return None; }
      var attributes := ReadAttributes();
      if attributes.None? { return None; }
      return Some(NodeImage(name.value, opText.value, inputs.value, outputs.value, attributes.value));
    }

    method ReadNodes() returns (r: Option<seq<NodeImage>>)
      modifies this
      ensures match ReadList(ReadNode, old(rest)) case None => r == None case Some((v, s)) => r == Some(v) && rest == s
    {
      hide ReadNode;
      var n := ReadNumber(U32);
      if n.None? {
        return None;
      }
      ghost var start := rest;
      var items := [];
      for i := 0 to n.value
        invariant ReadAll(i, ReadNode, start) == Some((items, rest))
      {
        var item := ReadNodeValue();
        if item.None? {
          ReadAllFails(n.value, i + 1, ReadNode, start);
          return None;
        }
        items := items + [item.value];
      }
      return Some(items);
    }

    /** Reads the dimensions and takes their product. */
    method ReadShape() returns (r: Option<(seq<nat>, nat)>)
      modifies this
      ensures match ReadList(ReadDim, old(rest))
              case None => r == None
              case Some((v, s)) => r == Some((v, Elements(v))) && rest == s
    {
      var n := ReadNumber(U32);
      if n.None? {
        return None;
      }
      ghost var start := rest;
      var dims: seq<nat>, total := [], 1;
      for i := 0 to n.value
        invariant ReadAll(i, ReadDim, start) == Some((dims, rest)) && total == Elements(dims)
      {
        var d := ReadNumber(U64);
        if d.None? {
          ReadAllFails(n.value, i + 1, ReadDim, start);
          return None;
        }
        assert (dims + [d.value])[..|dims|] == dims;
        total := total * d.value;
        dims := dims + [d.value];
      }
      return Some((dims, total));
    }

    method ReadFloats(count: nat) returns (r: Option<seq<Float32>>)
      modifies this
      ensures match ReadAll(count, ReadFloat, old(rest))
              case None => r == None
              case Some((v, s)) => r == Some(v) && rest == s
    {
      ghost var start := rest;
      var data := [];
      for e := 0 to count
        invariant ReadAll(e, ReadFloat, start) == Some((data, rest))
      {
        if |rest| < 4 {
          ReadAllFails(count, e + 1, ReadFloat, start);
          return None;
        }
        data := data + [Float32(rest[0], rest[1], rest[2], rest[3])];
        rest := rest[4..];
      }
      return Some(data);
    }

    method ReadTensorValue() returns (r: Option<Tensor>)
      modifies this
      ensures match ReadTensor(old(rest)) case None => r == None case Some((v, s)) => r == Some(v) && rest == s
    {
      hide ReadList, ReadAll, Elements;
      var shape := ReadShape();
      if shape.None? {
        return None;
      }
      var data := ReadFloats(shape.value.1);
      if data.None? || |data.value| != Size(shape.value.0) {
        return None;
      }
      return Some(Tensor(shape.value.0, data.value));
    }

    method ReadTensors() returns (r: Option<seq<Named<Tensor>>>)
      modifies this
      ensures match ReadList(ReadNamedTensor, old(rest))
              case None => r == None
              case Some((v, s)) => r == Some(v) && rest == s
    {
      hide ReadString, ReadTensor;
      var n := ReadNumber(U32);
      if n.None? {
        return None;
      }
      ghost var start := rest;
      var items := [];
      for i := 0 to n.value
        invariant ReadAll(i, ReadNamedTensor, start) == Some((items, rest))
      {
        var name := ReadText();
        var value := None;
        if name.Some? {
          value := ReadTensorValue();
        }
        if name.None? || value.None? {
          ReadAllFails(n.value, i + 1, ReadNamedTensor, start);
          return None;
        }
        items := items + [Named(name.value, value.value)];
      }
      return Some(items);
    }

    method ReadImageValue() returns (r: Option<Image>)
      modifies this
      ensures r == ReadImage(old(rest))
    {
      hide ReadList, ReadUnsigned;
      if |rest| < 4 || rest[..4] != MAGIC {
        return None;
      }
      rest := rest[4..];
      var version := ReadNumber(U32);
      if version.None? || version.value != VERSION {
        return None;
      }
      var tensors := ReadTensors();
      if tensors.None? { return None; }
      var nodes := ReadNodes();
      if nodes.None? { return None; }
      var inputs := ReadTexts();
      if inputs.None? { return None; }
      var outputs := ReadTexts();
      if outputs.None? { return None; }
      return Some(Image(tensors.value, nodes.value, inputs.value, outputs.value));
    }
  }

  /** Builds the model object a file describes. Node names must not repeat. */
  method Load(bytes: Bytes) returns (r: Result<Model>)
    requires Loaded(bytes).Some? ==> DistinctNames(Loaded(bytes).value.nodes)
    ensures r.Ok? <==> Loaded(bytes).Some?
    ensures r.Ok? ==> fresh(r.value) && r.value.Valid() && r.value.View() == Loaded(bytes).value
  {
    hide ReadImage, EdgesRight;
    var stream := new ByteStream(bytes);
    var image := stream.ReadImageValue();
    if image.None? {
      return Err("not a readable model file");
    }
    var model := new Model();
    var tensors := image.value.tensors;
    for i := 0 to |tensors|
      invariant model.Valid() && fresh(model) && fresh(model.graph)
      invariant model.View() == Program([], TensorMap(tensors[..i]), [], [])
    {
      assert tensors[..i + 1][..i] == tensors[..i];
      model.AddInitializer(tensors[i].name, tensors[i].value);
    }
    assert tensors[..|tensors|] == tensors;
    AddNodes(model, image.value.nodes);
    model.graph.SetInputs(image.value.inputs);
    model.graph.SetOutputs(image.value.outputs);
    return Ok(model);
  }

  predicate DistinctNames(nodes: seq<Node>) {
    forall i, j | 0 <= i < j < |nodes| :: nodes[i].name != nodes[j].name
  }

  lemma NewName(nodes: seq<Node>, i: nat, order: seq<string>)
    requires DistinctNames(nodes) && i < |nodes| && |order| == i && forall j | 0 <= j < i :: order[j] == nodes[j].name
    ensures nodes[i].name !in order
  {
  }

  method AddNodes(model: Model, images: seq<NodeImage>)
    requires model.Valid() && model.graph.order == [] && DistinctNames(NodesIn(images))
    modifies model.graph
    ensures model.Valid() && model.View() == old(model.View()).(nodes := NodesIn(images))
  {
    hide EdgesRight, AttributeMap, DistinctNames;
    ghost var nodes := NodesIn(images);
    for i := 0 to |images|
      invariant model.Valid() && model.View() == old(model.View()).(nodes := nodes[..i])
      invariant |model.graph.order| == i && forall j | 0 <= j < i :: model.graph.order[j] == nodes[j].name
    {
      var n := images[i];
      var node := Node(n.name, n.opText, n.inputs, n.outputs, AttributeMap(n.attributes));
      assert node == nodes[i];
      assert node.name !in model.graph.order by {
        NewName(nodes, i, model.graph.order);
      }
      model.graph.AddNode(node);
      assert nodes[..i + 1] == nodes[..i] + [nodes[i]];
    }
    assert nodes[..|nodes|] == nodes;
  }
}
