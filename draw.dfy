/** The draw pass of Model::draw as a function of the primitive table: the
    commands it issues, and which counts reach OpenGL. */
module DrawDispatch {
  import opened Base
  import opened GL
  import opened Gltf
  import opened PrimitiveTable

  /** The draw calls of a trace, in order, each paired with the vertex array
      bound when it was issued and the count it was given. */
  function Draws(trace: seq<Cmd>): seq<(nat, int32)>
    decreases |trace|
  {
    if trace == [] then []
    else
      var prefix := trace[..|trace| - 1];
      var c := trace[|trace| - 1];
      Draws(prefix) + (if c.DrawElements? || c.DrawArrays? then [(BoundVertexArray(prefix), c.count)] else [])
  }

  /** What drawing the records `ps` in order should submit: each record's
      VAO with its index count. */
  function VaoCounts(ps: seq<GLPrimitive>): (r: seq<(nat, int32)>)
    ensures |r| == |ps|
  {
    seq(|ps|, k requires 0 <= k < |ps| => (ps[k].vao, ps[k].indexCount))
  }

  /** Every draw call of a pass is well formed as the draw pass promises:
      indexed draws get a positive count of unsigned shorts, non-indexed
      draws start at vertex 0 and never get a positive count, everything is
      drawn as triangles, and the last command leaves no VAO bound. */
  predicate DrawCallsSafe(cmds: seq<Cmd>) {
    && (forall k :: 0 <= k < |cmds| && cmds[k].DrawElements? ==>
          cmds[k].mode == GL_TRIANGLES && cmds[k].count > 0 && cmds[k].indexType == GL_UNSIGNED_SHORT)
    && (forall k :: 0 <= k < |cmds| && cmds[k].DrawArrays? ==>
          cmds[k].mode == GL_TRIANGLES && cmds[k].first == 0 && cmds[k].count <= 0)
    && (cmds != [] ==> cmds[|cmds| - 1] == BindVertexArray(0))
  }

  /** Once a trace goes on with a part that starts by binding a VAO, what
      came before no longer decides the binding. */
  lemma {:induction false} BoundAfterBind(a: seq<Cmd>, b: seq<Cmd>)
    requires b != [] && b[0].BindVertexArray?
    ensures BoundVertexArray(a + b) == BoundVertexArray(b)
    decreases |b|
  {
    var last := |b| - 1;
    assert (a + b)[|a + b| - 1] == b[last];
    if last > 0 && !b[last].BindVertexArray? {
      assert (a + b)[..|a + b| - 1] == a + b[..last];
      BoundAfterBind(a, b[..last]);
    }
  }

  /** The draws of a pass that starts by binding a VAO do not depend on what
      was issued before it. */
  lemma {:induction false} DrawsAppend(a: seq<Cmd>, b: seq<Cmd>)
    requires b == [] || b[0].BindVertexArray?
    ensures Draws(a + b) == Draws(a) + Draws(b)
    decreases |b|
  {
    if b == [] {
      assert a + b == a;
    } else {
      var last := |b| - 1;
      assert (a + b)[..|a + b| - 1] == a + b[..last];
      DrawsAppend(a, b[..last]);
      if last > 0 {
        BoundAfterBind(a, b[..last]);
      }
    }
  }

  lemma SafeAppend(a: seq<Cmd>, b: seq<Cmd>)
    requires DrawCallsSafe(a) && DrawCallsSafe(b)
    ensures DrawCallsSafe(a + b)
  {
    forall k | 0 <= k < |a + b|
      ensures (a + b)[k] == if k < |a| then a[k] else b[k - |a|]
    {
    }
  }

  lemma VaoCountsAppend(a: seq<GLPrimitive>, b: seq<GLPrimitive>)
    ensures VaoCounts(a + b) == VaoCounts(a) + VaoCounts(b)
  {
    assert forall k :: 0 <= k < |a + b| ==> VaoCounts(a + b)[k] == (VaoCounts(a) + VaoCounts(b))[k];
  }

  /** One primitive: bind its VAO, draw indexed triangles when its index
      count is positive and non-indexed triangles otherwise, unbind. */
  function PrimitiveDraw(p: GLPrimitive): (r: seq<Cmd>)
    ensures |r| == 3
  {
    [ BindVertexArray(p.vao),
      if p.indexCount > 0 then DrawElements(GL_TRIANGLES, p.indexCount, GL_UNSIGNED_SHORT)
      else DrawArrays(GL_TRIANGLES, 0, p.indexCount),
      BindVertexArray(0) ]
  }

  /** The inner loop over the entry `ps`: three commands per record. */
  function PrimitivesDraw(ps: seq<GLPrimitive>): (r: seq<Cmd>)
    ensures |r| == 3 * |ps|
    decreases |ps|
  {
    if ps == [] then [] else PrimitivesDraw(ps[..|ps| - 1]) + PrimitiveDraw(ps[|ps| - 1])
  }

  /** The mesh loop over the first `n` meshes; a mesh without entry is
      skipped. The commands come in whole bind, draw, unbind triples. */
  function MeshesDraw(t: Table, n: nat): (r: seq<Cmd>)
    ensures |r| % 3 == 0
  {
    if n == 0 then []
    else MeshesDraw(t, n - 1) + (if n - 1 in t then PrimitivesDraw(t[n - 1]) else [])
  }

  /** One primitive submits exactly one draw call, run with the primitive's
      own VAO bound and carrying its index count; the pass starts by binding
      that VAO. */
  lemma PrimitiveDrawSubmits(p: GLPrimitive)
    ensures PrimitiveDraw(p)[0] == BindVertexArray(p.vao)
    ensures Draws(PrimitiveDraw(p)) == [(p.vao, p.indexCount)]
    ensures DrawCallsSafe(PrimitiveDraw(p))
  {
    var cmds := PrimitiveDraw(p);
    assert cmds[..|cmds| - 1] == cmds[..2];
    assert cmds[..2][..1] == [cmds[0]];
    assert [cmds[0]][..0] == [];
    assert Draws([cmds[0]]) == [];
  }

  /** An entry submits one draw call per record, in order, each run with
      that record's VAO bound and carrying its index count; the pass starts
      by binding the first record's VAO. */
  lemma {:induction false} PrimitivesDrawSubmits(ps: seq<GLPrimitive>)
    ensures Draws(PrimitivesDraw(ps)) == VaoCounts(ps)
    ensures DrawCallsSafe(PrimitivesDraw(ps))
    ensures ps != [] ==> PrimitivesDraw(ps)[0] == BindVertexArray(ps[0].vao)
    decreases |ps|
  {
    if ps != [] {
      var prefix := ps[..|ps| - 1];
      var last := ps[|ps| - 1];
      PrimitivesDrawSubmits(prefix);
      PrimitiveDrawSubmits(last);
      DrawsAppend(PrimitivesDraw(prefix), PrimitiveDraw(last));
      SafeAppend(PrimitivesDraw(prefix), PrimitiveDraw(last));
      assert ps == prefix + [last];
      VaoCountsAppend(prefix, [last]);
    }
  }

  /** The draw pass over the first `n` meshes submits, in mesh order and
      skipping meshes without entry, one draw call per record of the table,
      each run with that record's VAO bound and carrying its index count,
      and every draw call is well formed; three commands per record. */
  lemma {:induction false} MeshesDrawSubmits(t: Table, n: nat)
    ensures |MeshesDraw(t, n)| == 3 * |Records(t, n)|
    ensures Draws(MeshesDraw(t, n)) == VaoCounts(Records(t, n))
    ensures DrawCallsSafe(MeshesDraw(t, n))
  {
    if n > 0 {
      MeshesDrawSubmits(t, n - 1);
      var more := if n - 1 in t then PrimitivesDraw(t[n - 1]) else [];
      if n - 1 in t {
        PrimitivesDrawSubmits(t[n - 1]);
      }
      DrawsAppend(MeshesDraw(t, n - 1), more);
      SafeAppend(MeshesDraw(t, n - 1), more);
      VaoCountsAppend(Records(t, n - 1), Entry(t, n - 1));
    }
  }

  /** The mesh loop over `n + 1` meshes, on top of the loop over `n`. */
  lemma MeshesDrawStep(t: Table, n: nat)
    ensures MeshesDraw(t, n + 1) == MeshesDraw(t, n) + (if n in t then PrimitivesDraw(t[n]) else [])
  {
  }

  /** The inner loop over `ps[..j + 1]`, on top of the loop over `ps[..j]`. */
  lemma PrimitivesDrawStep(ps: seq<GLPrimitive>, j: nat)
    requires j < |ps|
    ensures PrimitivesDraw(ps[..j + 1]) == PrimitivesDraw(ps[..j]) + PrimitiveDraw(ps[j])
  {
    assert ps[..j + 1][..j] == ps[..j];
  }

  /** The index counts the document's kept primitives should record, in mesh
      and primitive order. */
  function DocumentCounts(doc: Document, n: nat): seq<int32>
    requires n <= |doc.meshes|
  {
    if n == 0 then [] else DocumentCounts(doc, n - 1) + ExpectedCounts(doc, doc.meshes[n - 1].primitives)
  }

  /** Over a table as the builder leaves it, the index counts of the records
      are the document's expected counts. */
  lemma {:induction false} TableCountsAsExpected(doc: Document, total: nat, t: Table, n: nat)
    requires n <= total <= |doc.meshes|
    requires EntriesAsExpected(doc, total, t)
    ensures Counts(Records(t, n)) == DocumentCounts(doc, n)
  {
    if n > 0 {
      TableCountsAsExpected(doc, total, t, n - 1);
      assert EntryAsExpected(doc, t, n - 1);
      CountsAppend(Records(t, n - 1), Entry(t, n - 1));
    }
  }

  /** Building the table and then drawing it submits, in document order,
      one draw call per kept primitive. Each runs with the VAO built for that
      primitive bound, and carries the index count the primitive should
      record: so a primitive without index accessor is drawn with
      glDrawArrays and a count of 0, i.e. no vertices at all. The VAOs are
      distinct names handed out by the build, in increasing order. */
  lemma BuildThenDraw(doc: Document, g: GLState)
    ensures var r := MeshesBuilt(doc, |doc.meshes|, g, map[]);
      var records := Records(r.1, |doc.meshes|);
      && Draws(MeshesDraw(r.1, |doc.meshes|)) == VaoCounts(records)
      && Counts(records) == DocumentCounts(doc, |doc.meshes|)
      && VaosIncrease(records) && VaosWithin(records, g.issued, r.0.issued)
      && DrawCallsSafe(MeshesDraw(r.1, |doc.meshes|))
  {
    var t := MeshesBuilt(doc, |doc.meshes|, g, map[]).1;
    MeshesBuiltExactly(doc, |doc.meshes|, g);
    MeshesBuiltVaos(doc, |doc.meshes|, g);
    MeshesDrawSubmits(t, |doc.meshes|);
    TableCountsAsExpected(doc, |doc.meshes|, t, |doc.meshes|);
  }

  /** A single triangle soup without indices: one mesh, one primitive whose
      only attribute is a valid POSITION accessor of `vertices` vertices.
      Loading it and drawing it issues a glDrawArrays of zero vertices. */
  lemma NonIndexedMeshDrawsNothing(data: seq<bv8>, vertices: nat)
    ensures var doc := Document(
        [Mesh([Primitive([("POSITION", 0)], -1)])],
        [Accessor(0, 0, false, 0x1406, vertices, 3)],
        [BufferView(0, 0, 12)],
        [Buffer(data)],
        [], []);
      var t := MeshesBuilt(doc, 1, GLState(0, [], []), map[]).1;
      MeshesDraw(t, 1) == [BindVertexArray(1), DrawArrays(GL_TRIANGLES, 0, 0), BindVertexArray(0)]
  {
    var prim := Primitive([("POSITION", 0)], -1);
    var doc := Document(
        [Mesh([prim])],
        [Accessor(0, 0, false, 0x1406, vertices, 3)],
        [BufferView(0, 0, 12)],
        [Buffer(data)],
        [], []);
    var g := GLState(0, [], []);
    var built := PrimitiveBuilt(doc, prim, g);
    assert built.1 == Some(GLPrimitive(1, 2, 0, 0));
    assert [prim][..0] == [];
    assert PrimitivesBuilt(doc, 0, [prim][..0], g, map[]) == (g, map[]);
    var empty: Table := map[];
    assert Entry(empty, 0) + [GLPrimitive(1, 2, 0, 0)] == [GLPrimitive(1, 2, 0, 0)];
    assert Pushed(empty, 0, GLPrimitive(1, 2, 0, 0)) == map[0 := [GLPrimitive(1, 2, 0, 0)]];
    assert PrimitivesBuilt(doc, 0, [prim], g, map[]).1 == map[0 := [GLPrimitive(1, 2, 0, 0)]];
    assert MeshesBuilt(doc, 0, g, map[]) == (g, map[]);
    assert doc.meshes[0].primitives == [prim];
    var t := MeshesBuilt(doc, 1, g, map[]).1;
    assert t == map[0 := [GLPrimitive(1, 2, 0, 0)]];
    assert [GLPrimitive(1, 2, 0, 0)][..0] == [];
  }
}
