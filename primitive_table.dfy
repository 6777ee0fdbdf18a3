/** The primitive table built by Model::createVAOs, as functions of the
    document and the device state, and what they guarantee. Each function
    folds over a prefix (its last element is the one processed last), in the
    order the source's loops visit meshes, primitives and attributes. */
module PrimitiveTable {
  import opened Base
  import opened GL
  import opened Gltf

  /** GLPrimitive (Model.h). The source leaves `vbo` and `ebo` uninitialised
      when nothing is uploaded for them; the model uses 0 there. */
  datatype GLPrimitive = GLPrimitive(vao: nat, vbo: nat, ebo: nat, indexCount: int32)

  /** `primitiveMap`: mesh index -> the primitives built for that mesh. */
  type Table = map<int, seq<GLPrimitive>>

  /** The shader input slot of an attribute semantic: POSITION 0, NORMAL 1,
      TEXCOORD_0 2, and every other name falls back to slot 0. */
  function AttribSlot(name: string): (slot: nat)
    ensures slot <= 2
    ensures slot == 1 <==> name == "NORMAL"
    ensures slot == 2 <==> name == "TEXCOORD_0"
  {
    if name == "POSITION" then 0
    else if name == "NORMAL" then 1
    else if name == "TEXCOORD_0" then 2
    else 0
  }

  /** The number of components per vertex handed to glVertexAttribPointer:
      1 for a SCALAR accessor, otherwise tinygltf's type code itself. */
  function ComponentCount(elemType: int): (r: int)
    ensures elemType == TINYGLTF_TYPE_SCALAR ==> r == 1
    ensures elemType == TINYGLTF_TYPE_VEC2 ==> r == 2
    ensures elemType == TINYGLTF_TYPE_VEC3 ==> r == 3
    ensures elemType == TINYGLTF_TYPE_VEC4 ==> r == 4
    ensures elemType != TINYGLTF_TYPE_SCALAR ==> r == elemType
  {
    if elemType == TINYGLTF_TYPE_SCALAR then 1 else elemType
  }

  /** The glVertexAttribPointer call registered for attribute `name` whose
      chain resolved to `c`. */
  function AttribBinding(name: string, c: Chain): (r: Cmd)
    ensures r.VertexAttribPointer? && r.index == AttribSlot(name) && r.index <= 2
    ensures r.size == ComponentCount(c.accessor.elemType)
    ensures r.componentType == c.accessor.componentType && r.normalized == c.accessor.normalized
    ensures r.stride == c.view.byteStride && r.offset == c.accessor.byteOffset + c.view.byteOffset
  {
    VertexAttribPointer(AttribSlot(name), ComponentCount(c.accessor.elemType), c.accessor.componentType,
                        c.accessor.normalized, c.view.byteStride, c.accessor.byteOffset + c.view.byteOffset)
  }

  /** Model::createBuffer: a fresh buffer name, bound to `target` and filled
      with the whole payload. */
  function BufferCreated(g: GLState, data: seq<bv8>, target: int): (r: (nat, GLState))
    ensures r.0 == g.issued + 1 && r.1.issued == r.0 && r.1.errors == g.errors
    ensures r.1.trace == g.trace + [Gen(BufferObject, r.0), BindBuffer(target, r.0), BufferData(target, data, GL_STATIC_DRAW)]
  {
    var (name, g1) := GenName(g, BufferObject);
    (name, Append(g1, [BindBuffer(target, name), BufferData(target, data, GL_STATIC_DRAW)]))
  }

  /** One pass of the attribute loop: the device afterwards and the
      primitive's `vbo` afterwards. */
  function AttributeBound(doc: Document, attr: (string, int32), g: GLState, vbo: nat): (r: (GLState, nat))
    ensures r.0.issued >= g.issued && r.0.errors == g.errors
  {
    match Resolve(doc, attr.1)
    case None => (g, vbo)
    case Some(c) =>
      var (name, g1) := BufferCreated(g, c.buffer.data, GL_ARRAY_BUFFER);
      (Append(g1, [EnableVertexAttribArray(AttribSlot(attr.0)), AttribBinding(attr.0, c)]), name)
  }

  /** The whole attribute loop over `attrs`. */
  function AttributesBound(doc: Document, attrs: seq<(string, int32)>, g: GLState, vbo: nat): (r: (GLState, nat))
    ensures r.0.issued >= g.issued && r.0.errors == g.errors
    decreases |attrs|
  {
    if attrs == [] then (g, vbo)
    else
      var (g1, vbo1) := AttributesBound(doc, attrs[..|attrs| - 1], g, vbo);
      AttributeBound(doc, attrs[|attrs| - 1], g1, vbo1)
  }

  /** A primitive survives the index chain when it has no index accessor or
      its index accessor's chain resolves. */
  predicate IndexChainOk(doc: Document, prim: Primitive) {
    prim.indices < 0 || Resolve(doc, prim.indices).Some?
  }

  /** The first half of a primitive: a fresh VAO, bound, then the attribute
      loop with `vbo` starting at 0. */
  function VertexArrayFilled(doc: Document, prim: Primitive, g: GLState): (r: (GLState, nat))
    ensures r.0.issued > g.issued && r.0.errors == g.errors
  {
    var (vao, g1) := GenName(g, VertexArrayObject);
    AttributesBound(doc, prim.attributes, Append(g1, [BindVertexArray(vao)]), 0)
  }

  /** One pass of the primitive loop: the device afterwards, and the
      primitive to append, or None when the index chain failed and the loop
      `continue`d (leaving its VAO bound). */
  function PrimitiveBuilt(doc: Document, prim: Primitive, g: GLState): (r: (GLState, Option<GLPrimitive>))
    ensures r.0.issued > g.issued && r.0.errors == g.errors
    ensures r.1.Some? ==> r.1.value.vao == g.issued + 1
  {
    var vao := g.issued + 1;
    var (g2, vbo) := VertexArrayFilled(doc, prim, g);
    if prim.indices >= 0 then
      match Resolve(doc, prim.indices)
      case None => (g2, None)
      case Some(c) =>
        var (ebo, g3) := BufferCreated(g2, c.buffer.data, GL_ELEMENT_ARRAY_BUFFER);
        (Append(g3, [BindVertexArray(0)]), Some(GLPrimitive(vao, vbo, ebo, ToInt32(c.accessor.count))))
    else
      (Append(g2, [BindVertexArray(0)]), Some(GLPrimitive(vao, vbo, 0, 0)))
  }

  /** The entry of mesh `i`, empty when it has none. */
  function Entry(t: Table, i: int): seq<GLPrimitive> {
    if i in t then t[i] else []
  }

  /** `primitiveMap[i].push_back(p)`: operator[] creates a missing entry. */
  function Pushed(t: Table, i: int, p: GLPrimitive): Table {
    t[i := Entry(t, i) + [p]]
  }

  /** The primitive loop of mesh `i` over `prims`. */
  function PrimitivesBuilt(doc: Document, i: int, prims: seq<Primitive>, g: GLState, t: Table): (r: (GLState, Table))
    ensures r.0.issued >= g.issued && r.0.errors == g.errors
    decreases |prims|
  {
    if prims == [] then (g, t)
    else
      var (g1, t1) := PrimitivesBuilt(doc, i, prims[..|prims| - 1], g, t);
      var (g2, p) := PrimitiveBuilt(doc, prims[|prims| - 1], g1);
      (g2, if p.Some? then Pushed(t1, i, p.value) else t1)
  }

  /** The mesh loop over the first `n` meshes. */
  function MeshesBuilt(doc: Document, n: nat, g: GLState, t: Table): (r: (GLState, Table))
    requires n <= |doc.meshes|
    ensures r.0.issued >= g.issued && r.0.errors == g.errors
  {
    if n == 0 then (g, t)
    else
      var (g1, t1) := MeshesBuilt(doc, n - 1, g, t);
      PrimitivesBuilt(doc, n - 1, doc.meshes[n - 1].primitives, g1, t1)
  }

  // ---------------------------------------------------------------------
  // Reference definitions: what the builder should produce, stated on the
  // document alone.

  /** The attribute bindings `attrs` should register: one per attribute
      whose chain resolves, in order, none for the others. */
  function ExpectedBindings(doc: Document, attrs: seq<(string, int32)>): seq<Cmd>
    decreases |attrs|
  {
    if attrs == [] then []
    else
      var a := attrs[|attrs| - 1];
      ExpectedBindings(doc, attrs[..|attrs| - 1]) +
      match Resolve(doc, a.1)
      case None => []
      case Some(c) => [AttribBinding(a.0, c)]
  }

  /** The vertex payloads `attrs` should upload: the whole referenced buffer
      for each attribute whose chain resolves, in order. */
  function ExpectedVertexData(doc: Document, attrs: seq<(string, int32)>): seq<seq<bv8>>
    decreases |attrs|
  {
    if attrs == [] then []
    else
      ExpectedVertexData(doc, attrs[..|attrs| - 1]) +
      match Resolve(doc, attrs[|attrs| - 1].1)
      case None => []
      case Some(c) => [c.buffer.data]
  }

  /** The index count a surviving primitive should record: 0 without index
      accessor, else the index accessor's count cast to GLsizei. */
  function ExpectedIndexCount(doc: Document, prim: Primitive): int32
    requires IndexChainOk(doc, prim)
  {
    if prim.indices < 0 then 0 else ToInt32(Resolve(doc, prim.indices).value.accessor.count)
  }

  /** The index counts of the primitives of `prims` that should be appended,
      in document order. */
  function ExpectedCounts(doc: Document, prims: seq<Primitive>): seq<int32>
    decreases |prims|
  {
    if prims == [] then []
    else
      var p := prims[|prims| - 1];
      ExpectedCounts(doc, prims[..|prims| - 1]) +
      (if IndexChainOk(doc, p) then [ExpectedIndexCount(doc, p)] else [])
  }

  /** The index counts of built primitives, in order. */
  function Counts(ps: seq<GLPrimitive>): (r: seq<int32>)
    ensures |r| == |ps|
  {
    seq(|ps|, k requires 0 <= k < |ps| => ps[k].indexCount)
  }

  /** The glVertexAttribPointer calls of a trace, in order. */
  function Bindings(trace: seq<Cmd>): seq<Cmd>
    decreases |trace|
  {
    if trace == [] then []
    else
      Bindings(trace[..|trace| - 1]) +
      (if trace[|trace| - 1].VertexAttribPointer? then [trace[|trace| - 1]] else [])
  }

  /** The payloads given to glBufferData for `target` in a trace, in order. */
  function Uploads(trace: seq<Cmd>, target: int): seq<seq<bv8>>
    decreases |trace|
  {
    if trace == [] then []
    else
      var c := trace[|trace| - 1];
      Uploads(trace[..|trace| - 1], target) +
      (if c.BufferData? && c.target == target then [c.data] else [])
  }

  /** How the trace filters and the vertex-array binding move when one
      command is issued. */
  lemma FiltersSnoc(a: seq<Cmd>, c: Cmd)
    ensures Bindings(a + [c]) == Bindings(a) + (if c.VertexAttribPointer? then [c] else [])
    ensures forall target :: Uploads(a + [c], target) ==
              Uploads(a, target) + (if c.BufferData? && c.target == target then [c.data] else [])
    ensures BoundVertexArray(a + [c]) == if c.BindVertexArray? then c.vao else BoundVertexArray(a)
  {
    assert (a + [c])[..|a + [c]| - 1] == a;
  }

  lemma CountsSnoc(ps: seq<GLPrimitive>, p: GLPrimitive)
    ensures Counts(ps + [p]) == Counts(ps) + [p.indexCount]
  {
  }

  /** createBuffer issues one fresh name and uploads `data` to `target`
      only; it registers no binding and leaves the vertex array alone. */
  lemma BufferCreatedUploads(g: GLState, data: seq<bv8>, target: int)
    ensures var r := BufferCreated(g, data, target);
      && r.0 == g.issued + 1 && r.1.issued == r.0 && r.1.errors == g.errors
      && Bindings(r.1.trace) == Bindings(g.trace)
      && (forall t :: Uploads(r.1.trace, t) == Uploads(g.trace, t) + (if t == target then [data] else []))
      && BoundVertexArray(r.1.trace) == BoundVertexArray(g.trace)
  {
    var name := g.issued + 1;
    var t1 := g.trace + [Gen(BufferObject, name)];
    var t2 := t1 + [BindBuffer(target, name)];
    var t3 := t2 + [BufferData(target, data, GL_STATIC_DRAW)];
    assert BufferCreated(g, data, target).1.trace == t3;
    FiltersSnoc(g.trace, Gen(BufferObject, name));
    FiltersSnoc(t1, BindBuffer(target, name));
    FiltersSnoc(t2, BufferData(target, data, GL_STATIC_DRAW));
  }

  /** One attribute: when its chain fails at any hop nothing at all is
      issued and `vbo` is kept; otherwise its whole buffer is uploaded as a
      fresh vertex buffer, that buffer becomes `vbo`, and its binding is
      registered. */
  lemma AttributeBoundStep(doc: Document, a: (string, int32), g: GLState, vbo: nat)
    ensures var r := AttributeBound(doc, a, g, vbo);
      && r.0.errors == g.errors
      && BoundVertexArray(r.0.trace) == BoundVertexArray(g.trace)
      && (Resolve(doc, a.1).None? ==> r == (g, vbo))
      && (Resolve(doc, a.1).Some? ==>
            var c := Resolve(doc, a.1).value;
            && r.0.issued == g.issued + 1 && r.1 == r.0.issued
            && r.0.trace[|r.0.trace| - 2..] == [EnableVertexAttribArray(AttribSlot(a.0)), AttribBinding(a.0, c)]
            && Bindings(r.0.trace) == Bindings(g.trace) + [AttribBinding(a.0, c)]
            && (forall t :: Uploads(r.0.trace, t) ==
                  Uploads(g.trace, t) + (if t == GL_ARRAY_BUFFER then [c.buffer.data] else [])))
  {
    match Resolve(doc, a.1)
    case None =>
    case Some(c) =>
      BufferCreatedUploads(g, c.buffer.data, GL_ARRAY_BUFFER);
      var b := BufferCreated(g, c.buffer.data, GL_ARRAY_BUFFER).1;
      var enable := EnableVertexAttribArray(AttribSlot(a.0));
      FiltersSnoc(b.trace, enable);
      FiltersSnoc(b.trace + [enable], AttribBinding(a.0, c));
      assert AttributeBound(doc, a, g, vbo).0.trace == b.trace + [enable] + [AttribBinding(a.0, c)];
  }

  /** The attribute loop registers exactly the expected bindings and uploads
      exactly the expected vertex payloads: an attribute whose chain fails is
      skipped with neither, and the attributes after it are still processed.
      One buffer name is issued per accepted attribute, `vbo` ends as the
      buffer of the LAST accepted attribute (unchanged when none is
      accepted), no index buffer is uploaded and the vertex-array binding is
      untouched. */
  lemma {:induction false} AttributesBoundExactly(doc: Document, attrs: seq<(string, int32)>, g: GLState, vbo: nat)
    ensures var r := AttributesBound(doc, attrs, g, vbo);
      && r.0.errors == g.errors
      && Bindings(r.0.trace) == Bindings(g.trace) + ExpectedBindings(doc, attrs)
      && Uploads(r.0.trace, GL_ARRAY_BUFFER) == Uploads(g.trace, GL_ARRAY_BUFFER) + ExpectedVertexData(doc, attrs)
      && Uploads(r.0.trace, GL_ELEMENT_ARRAY_BUFFER) == Uploads(g.trace, GL_ELEMENT_ARRAY_BUFFER)
      && r.0.issued == g.issued + |ExpectedBindings(doc, attrs)|
      && r.1 == (if ExpectedBindings(doc, attrs) == [] then vbo else r.0.issued)
      && BoundVertexArray(r.0.trace) == BoundVertexArray(g.trace)
    decreases |attrs|
  {
    if attrs != [] {
      var prefix := attrs[..|attrs| - 1];
      AttributesBoundExactly(doc, prefix, g, vbo);
      var r1 := AttributesBound(doc, prefix, g, vbo);
      AttributeBoundStep(doc, attrs[|attrs| - 1], r1.0, r1.1);
    }
  }

  /** Which primitives are kept, and with what index count: a primitive is
      appended exactly when its index chain is acceptable, and then records
      0 without index accessor and otherwise the index accessor's count cast
      to GLsizei. */
  lemma PrimitiveKept(doc: Document, prim: Primitive, g: GLState)
    ensures var p := PrimitiveBuilt(doc, prim, g).1;
      && (p.Some? <==> IndexChainOk(doc, prim))
      && (p.Some? ==> p.value.indexCount == ExpectedIndexCount(doc, prim))
  {
  }

  /** The VAO half of a primitive: a fresh VAO, left bound, then the
      attribute loop. */
  lemma VertexArrayFilledCommands(doc: Document, prim: Primitive, g: GLState)
    ensures var r := VertexArrayFilled(doc, prim, g);
      var bindings := ExpectedBindings(doc, prim.attributes);
      && r.0.errors == g.errors
      && r.0.issued == g.issued + 1 + |bindings|
      && Bindings(r.0.trace) == Bindings(g.trace) + bindings
      && Uploads(r.0.trace, GL_ARRAY_BUFFER) == Uploads(g.trace, GL_ARRAY_BUFFER) + ExpectedVertexData(doc, prim.attributes)
      && Uploads(r.0.trace, GL_ELEMENT_ARRAY_BUFFER) == Uploads(g.trace, GL_ELEMENT_ARRAY_BUFFER)
      && BoundVertexArray(r.0.trace) == g.issued + 1
      && r.1 == (if bindings == [] then 0 else g.issued + 1 + |bindings|)
  {
    var vao := g.issued + 1;
    var g1 := GenName(g, VertexArrayObject).1;
    var g2 := Append(g1, [BindVertexArray(vao)]);
    assert VertexArrayFilled(doc, prim, g) == AttributesBound(doc, prim.attributes, g2, 0);
    FiltersSnoc(g.trace, Gen(VertexArrayObject, vao));
    FiltersSnoc(g1.trace, BindVertexArray(vao));
    assert g2.trace == g1.trace + [BindVertexArray(vao)];
    AttributesBoundExactly(doc, prim.attributes, g2, 0);
  }

  /** One primitive's commands. It always gets a fresh VAO and its
      attributes are handled as the attribute loop says; its `vbo` is the
      last accepted attribute's buffer (0 when none). Without index accessor
      no element buffer is made; with a valid index chain the index
      accessor's buffer is uploaded as a fresh element buffer, which becomes
      `ebo`. A dropped primitive leaves its VAO bound and uploads no element
      buffer; a kept one ends with the VAO unbound. */
  lemma PrimitiveBuiltCommands(doc: Document, prim: Primitive, g: GLState)
    ensures var r := PrimitiveBuilt(doc, prim, g);
      var bindings := ExpectedBindings(doc, prim.attributes);
      && r.0.errors == g.errors
      && Bindings(r.0.trace) == Bindings(g.trace) + bindings
      && Uploads(r.0.trace, GL_ARRAY_BUFFER) == Uploads(g.trace, GL_ARRAY_BUFFER) + ExpectedVertexData(doc, prim.attributes)
      && (r.1.None? ==>
            && BoundVertexArray(r.0.trace) == g.issued + 1
            && Uploads(r.0.trace, GL_ELEMENT_ARRAY_BUFFER) == Uploads(g.trace, GL_ELEMENT_ARRAY_BUFFER))
      && (r.1.Some? ==>
            && BoundVertexArray(r.0.trace) == 0
            && r.1.value.vao == g.issued + 1
            && r.1.value.vbo == (if bindings == [] then 0 else g.issued + 1 + |bindings|))
      && (prim.indices < 0 ==>
            && r.1.Some? && r.1.value.ebo == 0
            && Uploads(r.0.trace, GL_ELEMENT_ARRAY_BUFFER) == Uploads(g.trace, GL_ELEMENT_ARRAY_BUFFER))
      && (prim.indices >= 0 && r.1.Some? ==>
            && r.1.value.ebo == r.0.issued
            && Uploads(r.0.trace, GL_ELEMENT_ARRAY_BUFFER) ==
                 Uploads(g.trace, GL_ELEMENT_ARRAY_BUFFER) + [Resolve(doc, prim.indices).value.buffer.data])
  {
    VertexArrayFilledCommands(doc, prim, g);
    var g2 := VertexArrayFilled(doc, prim, g).0;
    if prim.indices >= 0 {
      match Resolve(doc, prim.indices)
      case None =>
      case Some(c) =>
        BufferCreatedUploads(g2, c.buffer.data, GL_ELEMENT_ARRAY_BUFFER);
        FiltersSnoc(BufferCreated(g2, c.buffer.data, GL_ELEMENT_ARRAY_BUFFER).1.trace, BindVertexArray(0));
    } else {
      FiltersSnoc(g2.trace, BindVertexArray(0));
    }
  }

  /** The primitive loop of mesh `i` touches only entry `i`; it creates that
      entry exactly when at least one primitive is kept, and appends the
      kept primitives in document order with their expected index counts. */
  lemma {:induction false} PrimitivesBuiltExactly(doc: Document, i: int, prims: seq<Primitive>, g: GLState, t: Table)
    ensures var r := PrimitivesBuilt(doc, i, prims, g, t);
      && r.1.Keys == (if ExpectedCounts(doc, prims) == [] then t.Keys else t.Keys + {i})
      && (forall k :: k in t && k != i ==> r.1[k] == t[k])
      && Counts(Entry(r.1, i)) == Counts(Entry(t, i)) + ExpectedCounts(doc, prims)
    decreases |prims|
  {
    if prims != [] {
      var prefix := prims[..|prims| - 1];
      var last := prims[|prims| - 1];
      PrimitivesBuiltExactly(doc, i, prefix, g, t);
      var r1 := PrimitivesBuilt(doc, i, prefix, g, t);
      var step := PrimitiveBuilt(doc, last, r1.0);
      PrimitiveKept(doc, last, r1.0);
      assert PrimitivesBuilt(doc, i, prims, g, t) ==
             (step.0, if step.1.Some? then Pushed(r1.1, i, step.1.value) else r1.1);
      assert ExpectedCounts(doc, prims) == ExpectedCounts(doc, prefix) +
             (if IndexChainOk(doc, last) then [ExpectedIndexCount(doc, last)] else []);
      if step.1.Some? {
        CountsSnoc(Entry(r1.1, i), step.1.value);
      }
    }
  }

  /** The mesh loop over mesh `n - 1`, on top of the table of the first
      `n - 1` meshes. */
  lemma MeshesBuiltStep(doc: Document, n: nat, g: GLState, t: Table)
    requires 0 < n <= |doc.meshes|
    ensures var r1 := MeshesBuilt(doc, n - 1, g, t);
      MeshesBuilt(doc, n, g, t) == PrimitivesBuilt(doc, n - 1, doc.meshes[n - 1].primitives, r1.0, r1.1)
  {
  }

  /** The primitive loop over `prims[..j + 1]`, on top of the loop over
      `prims[..j]`. */
  lemma PrimitivesBuiltStep(doc: Document, i: int, prims: seq<Primitive>, j: nat, g: GLState, t: Table)
    requires j < |prims|
    ensures var r1 := PrimitivesBuilt(doc, i, prims[..j], g, t);
      var s := PrimitiveBuilt(doc, prims[j], r1.0);
      PrimitivesBuilt(doc, i, prims[..j + 1], g, t) == (s.0, if s.1.Some? then Pushed(r1.1, i, s.1.value) else r1.1)
  {
    assert prims[..j + 1][..j] == prims[..j];
  }

  /** Entry `i` of `t` holds mesh `i`'s kept primitives with their expected
      index counts, in document order. */
  predicate EntryAsExpected(doc: Document, t: Table, i: int)
    requires 0 <= i < |doc.meshes|
  {
    Counts(Entry(t, i)) == ExpectedCounts(doc, doc.meshes[i].primitives)
  }

  /** Mesh `i` of the first `n` has an entry in `t` exactly when at least
      one of its primitives is kept, and no other key appears. */
  ghost predicate KeysAsExpected(doc: Document, n: nat, t: Table)
    requires n <= |doc.meshes|
  {
    forall i :: i in t <==> 0 <= i < n && ExpectedCounts(doc, doc.meshes[i].primitives) != []
  }

  /** Every entry of the first `n` meshes is as expected. */
  predicate EntriesAsExpected(doc: Document, n: nat, t: Table)
    requires n <= |doc.meshes|
  {
    forall i :: 0 <= i < n ==> EntryAsExpected(doc, t, i)
  }

  /** `t` is what the first `n` meshes should give. */
  ghost predicate TableAsExpected(doc: Document, n: nat, t: Table)
    requires n <= |doc.meshes|
  {
    KeysAsExpected(doc, n, t) && EntriesAsExpected(doc, n, t)
  }

  /** Adding mesh `n - 1` the way the primitive loop does keeps the keys as
      expected. */
  lemma KeysStep(doc: Document, n: nat, t1: Table, t: Table)
    requires 0 < n <= |doc.meshes|
    requires KeysAsExpected(doc, n - 1, t1)
    requires var e := ExpectedCounts(doc, doc.meshes[n - 1].primitives);
      t.Keys == (if e == [] then t1.Keys else t1.Keys + {n - 1})
    ensures KeysAsExpected(doc, n, t)
  {
    forall i
      ensures i in t <==> 0 <= i < n && ExpectedCounts(doc, doc.meshes[i].primitives) != []
    {
      if i in t1 {
        assert i in t;
      }
    }
  }

  /** Adding mesh `n - 1` the way the primitive loop does keeps the entries
      as expected. */
  lemma EntriesStep(doc: Document, n: nat, t1: Table, t: Table)
    requires 0 < n <= |doc.meshes|
    requires KeysAsExpected(doc, n - 1, t1) && EntriesAsExpected(doc, n - 1, t1)
    requires t.Keys == (if ExpectedCounts(doc, doc.meshes[n - 1].primitives) == [] then t1.Keys else t1.Keys + {n - 1})
    requires forall k :: k in t1 && k != n - 1 ==> t[k] == t1[k]
    requires Counts(Entry(t, n - 1)) == Counts(Entry(t1, n - 1)) + ExpectedCounts(doc, doc.meshes[n - 1].primitives)
    ensures EntriesAsExpected(doc, n, t)
  {
    assert n - 1 !in t1;
    forall i | 0 <= i < n
      ensures EntryAsExpected(doc, t, i)
    {
      if i < n - 1 {
        assert EntryAsExpected(doc, t1, i);
        if i in t1 {
          assert Entry(t, i) == Entry(t1, i);
        } else {
          assert i !in t;
        }
      } else {
        assert Entry(t1, i) == [];
      }
    }
  }

  /** The table built from an empty map over the first `n` meshes is as
      expected: a mesh whose primitives are all dropped, or that has none,
      gets NO entry, and each entry lists its mesh's kept primitives in
      document order with their expected index counts. */
  lemma {:induction false} MeshesBuiltExactly(doc: Document, n: nat, g: GLState)
    requires n <= |doc.meshes|
    ensures TableAsExpected(doc, n, MeshesBuilt(doc, n, g, map[]).1)
  {
    if n > 0 {
      MeshesBuiltExactly(doc, n - 1, g);
      var r1 := MeshesBuilt(doc, n - 1, g, map[]);
      MeshesBuiltStep(doc, n, g, map[]);
      MeshAdded(doc, n, r1.0, r1.1);
    }
  }

  /** The primitive loop of mesh `n - 1` turns a table as expected for the
      first `n - 1` meshes into one as expected for the first `n`. */
  lemma MeshAdded(doc: Document, n: nat, g: GLState, t1: Table)
    requires 0 < n <= |doc.meshes|
    requires TableAsExpected(doc, n - 1, t1)
    ensures TableAsExpected(doc, n, PrimitivesBuilt(doc, n - 1, doc.meshes[n - 1].primitives, g, t1).1)
  {
    var t := PrimitivesBuilt(doc, n - 1, doc.meshes[n - 1].primitives, g, t1).1;
    PrimitivesBuiltExactly(doc, n - 1, doc.meshes[n - 1].primitives, g, t1);
    KeysStep(doc, n, t1, t);
    EntriesStep(doc, n, t1, t);
  }

  // ---------------------------------------------------------------------
  // The vertex array objects of the built table.

  /** The records of the first `n` meshes' entries, in mesh order and, within
      an entry, in the order they were appended: the order draw visits them. */
  function Records(t: Table, n: nat): seq<GLPrimitive> {
    if n == 0 then [] else Records(t, n - 1) + Entry(t, n - 1)
  }

  /** The VAOs of `ps` strictly increase, so no two records share one. */
  predicate VaosIncrease(ps: seq<GLPrimitive>) {
    forall j, k :: 0 <= j < k < |ps| ==> ps[j].vao < ps[k].vao
  }

  /** Every VAO of `ps` is a name handed out after the first `lo` and no
      later than the `hi`-th. */
  predicate VaosWithin(ps: seq<GLPrimitive>, lo: nat, hi: nat) {
    forall k :: 0 <= k < |ps| ==> lo < ps[k].vao <= hi
  }

  lemma CountsAppend(a: seq<GLPrimitive>, b: seq<GLPrimitive>)
    ensures Counts(a + b) == Counts(a) + Counts(b)
  {
    assert forall k :: 0 <= k < |a + b| ==> Counts(a + b)[k] == (Counts(a) + Counts(b))[k];
  }

  /** Records made later, under names handed out later, follow in order. */
  lemma VaosConcat(a: seq<GLPrimitive>, b: seq<GLPrimitive>, lo: nat, mid: nat, hi: nat)
    requires VaosIncrease(a) && VaosWithin(a, lo, mid)
    requires VaosIncrease(b) && VaosWithin(b, mid, hi)
    requires lo <= mid <= hi
    ensures VaosIncrease(a + b) && VaosWithin(a + b, lo, hi)
  {
    forall j, k | 0 <= j < k < |a + b|
      ensures (a + b)[j].vao < (a + b)[k].vao
    {
      if k < |a| {
        assert (a + b)[j] == a[j] && (a + b)[k] == a[k];
      } else if j < |a| {
        assert (a + b)[j] == a[j] && (a + b)[k] == b[k - |a|];
      } else {
        assert (a + b)[j] == b[j - |a|] && (a + b)[k] == b[k - |a|];
      }
    }
    forall k | 0 <= k < |a + b|
      ensures lo < (a + b)[k].vao <= hi
    {
      if k < |a| {
        assert (a + b)[k] == a[k];
      } else {
        assert (a + b)[k] == b[k - |a|];
      }
    }
  }

  /** Tables that agree on the entries of the first `n` meshes have the same
      records there. */
  lemma {:induction false} RecordsAgree(t: Table, u: Table, n: nat)
    requires forall k :: 0 <= k < n ==> Entry(t, k) == Entry(u, k)
    ensures Records(t, n) == Records(u, n)
  {
    if n > 0 {
      RecordsAgree(t, u, n - 1);
    }
  }

  /** The primitive loop of mesh `i` appends records whose VAOs are the
      fresh names it hands out, in increasing order. */
  lemma {:induction false} PrimitivesBuiltVaos(doc: Document, i: int, prims: seq<Primitive>, g: GLState, t: Table, lo: nat)
    requires lo <= g.issued
    requires VaosIncrease(Entry(t, i)) && VaosWithin(Entry(t, i), lo, g.issued)
    ensures var r := PrimitivesBuilt(doc, i, prims, g, t);
      VaosIncrease(Entry(r.1, i)) && VaosWithin(Entry(r.1, i), lo, r.0.issued)
    decreases |prims|
  {
    if prims != [] {
      var prefix := prims[..|prims| - 1];
      PrimitivesBuiltVaos(doc, i, prefix, g, t, lo);
      var r1 := PrimitivesBuilt(doc, i, prefix, g, t);
      var step := PrimitiveBuilt(doc, prims[|prims| - 1], r1.0);
      if step.1.Some? {
        var p := step.1.value;
        assert Entry(Pushed(r1.1, i, p), i) == Entry(r1.1, i) + [p];
        VaosConcat(Entry(r1.1, i), [p], lo, r1.0.issued, step.0.issued);
      }
    }
  }

  /** The primitive loop of mesh `i` leaves the records of the meshes
      before it alone. */
  lemma RecordsKept(doc: Document, i: nat, prims: seq<Primitive>, g: GLState, t: Table)
    ensures Records(PrimitivesBuilt(doc, i, prims, g, t).1, i) == Records(t, i)
  {
    var u := PrimitivesBuilt(doc, i, prims, g, t).1;
    PrimitivesBuiltExactly(doc, i, prims, g, t);
    forall k | 0 <= k < i
      ensures Entry(u, k) == Entry(t, k)
    {
      if k in t {
        assert u[k] == t[k];
      }
    }
    RecordsAgree(u, t, i);
  }

  /** The primitive loop of mesh `n - 1`, run on a table with no entry for
      it, appends to the records of the first `n - 1` meshes records with
      fresh VAOs in increasing order. */
  lemma MeshVaosAdded(doc: Document, n: nat, g: GLState, t1: Table, lo: nat)
    requires 0 < n <= |doc.meshes| && lo <= g.issued
    requires n - 1 !in t1
    requires VaosIncrease(Records(t1, n - 1)) && VaosWithin(Records(t1, n - 1), lo, g.issued)
    ensures var r := PrimitivesBuilt(doc, n - 1, doc.meshes[n - 1].primitives, g, t1);
      VaosIncrease(Records(r.1, n)) && VaosWithin(Records(r.1, n), lo, r.0.issued)
  {
    var prims := doc.meshes[n - 1].primitives;
    var r := PrimitivesBuilt(doc, n - 1, prims, g, t1);
    assert Entry(t1, n - 1) == [];
    PrimitivesBuiltVaos(doc, n - 1, prims, g, t1, g.issued);
    RecordsKept(doc, n - 1, prims, g, t1);
    assert Records(r.1, n) == Records(t1, n - 1) + Entry(r.1, n - 1);
    VaosConcat(Records(t1, n - 1), Entry(r.1, n - 1), lo, g.issued, r.0.issued);
  }


  /** Every record the mesh loop builds from an empty map has its own VAO,
      handed out during the build, and in draw order the VAOs strictly
      increase: the records are the primitives in the order they were
      built. */
  lemma {:induction false} MeshesBuiltVaos(doc: Document, n: nat, g: GLState)
    requires n <= |doc.meshes|
    ensures var r := MeshesBuilt(doc, n, g, map[]);
      VaosIncrease(Records(r.1, n)) && VaosWithin(Records(r.1, n), g.issued, r.0.issued)
  {
    if n > 0 {
      var r1 := MeshesBuilt(doc, n - 1, g, map[]);
      assert n - 1 !in r1.1 by {
        MeshesBuiltExactly(doc, n - 1, g);
      }
      assert VaosIncrease(Records(r1.1, n - 1)) && VaosWithin(Records(r1.1, n - 1), g.issued, r1.0.issued) by {
        MeshesBuiltVaos(doc, n - 1, g);
      }
      MeshVaosAdded(doc, n, r1.0, r1.1, g.issued);
      MeshesBuiltStep(doc, n, g, map[]);
    }
  }
}
