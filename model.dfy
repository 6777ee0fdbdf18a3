/** The Model class (Model.h, Model.cpp): a loaded glTF document and the
    table of OpenGL primitives built from it, driving a Device. Each method
    is proved to do exactly what the matching defining function of
    PrimitiveTable, DrawDispatch or Texture describes. */
module SceneModel {
  import opened Base
  import opened GL
  import opened Gltf
  import opened Loader
  import opened PrimitiveTable
  import opened DrawDispatch
  import opened Texture

  /** The image texture `textureIndex` of `doc` refers to, when both the
      texture index and the texture's image index are in range. */
  function TextureImage(doc: Document, textureIndex: int32): (r: Option<Image>)
    ensures r.Some? <==>
      && 0 <= textureIndex as int < |doc.textures|
      && 0 <= doc.textures[textureIndex].source as int < |doc.images|
    ensures r.Some? ==> r.value in doc.images
  {
    if textureIndex < 0 || textureIndex as int >= |doc.textures| then None
    else
      var texture := doc.textures[textureIndex];
      if texture.source < 0 || texture.source as int >= |doc.images| then None
      else Some(doc.images[texture.source])
  }

  /** loadTextureFromModel on device state `g`. A non-zero name comes back
      exactly when both indices are in range, the image passes
      createTexture's guard and glGetError reports nothing twice; a bad
      index issues no command at all. */
  function TextureFromModel(doc: Document, textureIndex: int32, g: GLState): (r: (nat, GLState))
    ensures r.0 != 0 <==>
      && 0 <= textureIndex as int < |doc.textures|
      && 0 <= doc.textures[textureIndex].source as int < |doc.images|
      && ValidImage(doc.images[doc.textures[textureIndex].source])
      && ErrorAt(g, 0) == GL_NO_ERROR && ErrorAt(g, 1) == GL_NO_ERROR
    ensures r.0 != 0 ==> r.0 == g.issued + 1
    ensures TextureImage(doc, textureIndex).None? ==> r == (0, g)
  {
    match TextureImage(doc, textureIndex)
    case None => (0, g)
    case Some(img) => TextureCreated(img, g)
  }

  class Model {
    /** The tinygltf model the decoder filled in. */
    var doc: Document
    /** `primitiveMap`: mesh index -> the primitives built for it. */
    var primitiveMap: Table

    /** Model(path): load the file, then build the primitive table from an
        empty map. */
    constructor (path: string, decode: (Container, string) -> Decoded, gl: Device)
      requires |path| < NPOS
      modifies gl
      ensures doc == decode(LoaderFor(path), path).doc
      ensures (gl.State(), primitiveMap) == MeshesBuilt(doc, |doc.meshes|, old(gl.State()), map[])
    {
      doc := Document([], [], [], [], [], []);
      primitiveMap := map[];
      new;
      LoadModel(path, decode);
      CreateVAOs(gl);
    }

    /** loadModel: decode the file with the container its extension picks.
        A failed decode is only reported, so the model keeps whatever the
        decoder left in the document. */
    method LoadModel(path: string, decode: (Container, string) -> Decoded)
      requires |path| < NPOS
      modifies this`doc
      ensures doc == decode(LoaderFor(path), path).doc
    {
      var decoded: Decoded;
      if Extension(path) == "glb" {
        decoded := decode(Binary, path);
      } else {
        decoded := decode(Ascii, path);
      }
      doc := decoded.doc;
    }

    /** createBuffer: a fresh buffer for `target` holding all of `data`. */
    method CreateBuffer(gl: Device, data: seq<bv8>, target: int) returns (buffer: nat)
      modifies gl
      ensures (buffer, gl.State()) == BufferCreated(old(gl.State()), data, target)
    {
      ghost var g0 := gl.State();
      buffer := gl.Gen(BufferObject);
      gl.Call(BindBuffer(target, buffer));
      gl.Call(BufferData(target, data, GL_STATIC_DRAW));
      assert gl.State() == Append(GenName(g0, BufferObject).1,
                                  [BindBuffer(target, buffer), BufferData(target, data, GL_STATIC_DRAW)]);
    }

    /** The attribute loop of createVAOs over `attrs`, with the current VAO
        bound: one vertex buffer and one attribute binding per attribute
        whose accessor chain resolves. Returns the last buffer made (0, for
        the source's uninitialised `vbo`, when none is). */
    method BindAttributes(gl: Device, attrs: seq<(string, int32)>) returns (vbo: nat)
      modifies gl
      ensures (gl.State(), vbo) == AttributesBound(doc, attrs, old(gl.State()), 0)
    {
      ghost var g1 := gl.State();
      vbo := 0;
      for k := 0 to |attrs|
        invariant (gl.State(), vbo) == AttributesBound(doc, attrs[..k], g1, 0)
      {
        assert attrs[..k + 1][..k] == attrs[..k];
        ghost var step := AttributeBound(doc, attrs[k], gl.State(), vbo);
        assert AttributesBound(doc, attrs[..k + 1], g1, 0) == step;
        var (name, index) := attrs[k];
        if OutOfRange(|doc.accessors|, index) {
          continue;
        }
        var accessor := doc.accessors[ToSize(index)];
        if OutOfRange(|doc.bufferViews|, accessor.bufferView) {
          continue;
        }
        var view := doc.bufferViews[ToSize(accessor.bufferView)];
        if OutOfRange(|doc.buffers|, view.buffer) {
          continue;
        }
        var buffer := doc.buffers[ToSize(view.buffer)];
        assert Resolve(doc, index) == Some(Chain(accessor, view, buffer));
        ghost var chain := Chain(accessor, view, buffer);
        vbo := CreateBuffer(gl, buffer.data, GL_ARRAY_BUFFER);
        ghost var gb := gl.State();
        var slot: nat := 0;
        if name == "POSITION" {
          slot := 0;
        } else if name == "NORMAL" {
          slot := 1;
        } else if name == "TEXCOORD_0" {
          slot := 2;
        }
        gl.Call(EnableVertexAttribArray(slot));
        gl.Call(VertexAttribPointer(slot, if accessor.elemType == TINYGLTF_TYPE_SCALAR then 1 else accessor.elemType,
                                    accessor.componentType, accessor.normalized, view.byteStride,
                                    accessor.byteOffset + view.byteOffset));
        assert gl.State() == Append(gb, [EnableVertexAttribArray(AttribSlot(name)), AttribBinding(name, chain)]);
      }
      assert attrs[..|attrs|] == attrs;
    }

    /** The body of createVAOs' primitive loop for `prim`: the primitive to
        append, or None where the source `continue`s. */
    method BuildPrimitive(gl: Device, prim: Primitive) returns (built: Option<GLPrimitive>)
      modifies gl
      ensures (gl.State(), built) == PrimitiveBuilt(doc, prim, old(gl.State()))
    {
      ghost var g0 := gl.State();
      var vao := gl.Gen(VertexArrayObject);
      gl.Call(BindVertexArray(vao));
      var vbo := BindAttributes(gl, prim.attributes);
      assert (gl.State(), vbo) == VertexArrayFilled(doc, prim, g0);
      ghost var g2 := gl.State();
      var ebo: nat := 0;
      var indexCount: int32;
      if prim.indices >= 0 {
        if OutOfRange(|doc.accessors|, prim.indices) {
          return None;
        }
        var accessor := doc.accessors[ToSize(prim.indices)];
        if OutOfRange(|doc.bufferViews|, accessor.bufferView) {
          return None;
        }
        var view := doc.bufferViews[ToSize(accessor.bufferView)];
        if OutOfRange(|doc.buffers|, view.buffer) {
          return None;
        }
        var buffer := doc.buffers[ToSize(view.buffer)];
        assert Resolve(doc, prim.indices) == Some(Chain(accessor, view, buffer));
        ebo := CreateBuffer(gl, buffer.data, GL_ELEMENT_ARRAY_BUFFER);
        indexCount := ToInt32(accessor.count);
      } else {
        indexCount := 0;
      }
      gl.Call(BindVertexArray(0));
      built := Some(GLPrimitive(vao, vbo, ebo, indexCount));
    }

    /** createVAOs: every primitive of every mesh, in document order, kept
        primitives appended to their mesh's entry. */
    method CreateVAOs(gl: Device)
      modifies this`primitiveMap, gl
      ensures (gl.State(), primitiveMap) == MeshesBuilt(doc, |doc.meshes|, old(gl.State()), old(primitiveMap))
    {
      ghost var g0 := gl.State();
      ghost var t0 := primitiveMap;
      for i := 0 to |doc.meshes|
        invariant (gl.State(), primitiveMap) == MeshesBuilt(doc, i, g0, t0)
      {
        MeshesBuiltStep(doc, i + 1, g0, t0);
        var prims := doc.meshes[i].primitives;
        ghost var g1 := gl.State();
        ghost var t1 := primitiveMap;
        for j := 0 to |prims|
          invariant (gl.State(), primitiveMap) == PrimitivesBuilt(doc, i, prims[..j], g1, t1)
        {
          PrimitivesBuiltStep(doc, i, prims, j, g1, t1);
          var built := BuildPrimitive(gl, prims[j]);
          if built.Some? {
            primitiveMap := primitiveMap[i := (if i in primitiveMap then primitiveMap[i] else []) + [built.value]];
          }
        }
        assert prims[..|prims|] == prims;
      }
    }

    /** draw: the draw pass over the table, mesh by mesh; a mesh without
        entry is reported and skipped. The shader program is not used. */
    method Draw(gl: Device, shaderProgram: nat)
      modifies gl
      ensures gl.State() == Append(old(gl.State()), MeshesDraw(primitiveMap, |doc.meshes|))
    {
      ghost var g0 := gl.State();
      var table := primitiveMap;
      for meshIdx := 0 to |doc.meshes|
        invariant gl.issued == g0.issued && gl.errors == g0.errors
        invariant gl.trace == g0.trace + MeshesDraw(table, meshIdx)
      {
        MeshesDrawStep(table, meshIdx);
        if meshIdx !in table {
          continue;
        }
        ghost var before := gl.trace;
        DrawPrimitives(gl, table[meshIdx]);
        assert gl.trace == before + PrimitivesDraw(table[meshIdx]);
      }
    }

    /** The inner loop of draw over one entry: per primitive, bind its VAO,
        issue the draw call its index count selects, unbind. */
    method DrawPrimitives(gl: Device, prims: seq<GLPrimitive>)
      modifies gl
      ensures gl.State() == Append(old(gl.State()), PrimitivesDraw(prims))
    {
      ghost var start := gl.trace;
      for j := 0 to |prims|
        invariant gl.issued == old(gl.issued) && gl.errors == old(gl.errors)
        invariant gl.trace == start + PrimitivesDraw(prims[..j])
      {
        PrimitivesDrawStep(prims, j);
        ghost var before := gl.trace;
        var p := prims[j];
        gl.Call(BindVertexArray(p.vao));
        if p.indexCount > 0 {
          gl.Call(DrawElements(GL_TRIANGLES, p.indexCount, GL_UNSIGNED_SHORT));
        } else {
          gl.Call(DrawArrays(GL_TRIANGLES, 0, p.indexCount));
        }
        gl.Call(BindVertexArray(0));
        assert gl.trace == before + PrimitiveDraw(p);
      }
      assert prims[..|prims|] == prims;
    }

    /** loadTextureFromModel: look the image up through the texture, then
        createTexture; 0 for either index out of range. */
    method LoadTextureFromModel(gl: Device, textureIndex: int32) returns (id: nat)
      modifies gl
      ensures (id, gl.State()) == TextureFromModel(doc, textureIndex, old(gl.State()))
    {
      if textureIndex < 0 || textureIndex as int >= |doc.textures| {
        return 0;
      }
      var texture := doc.textures[textureIndex];
      if texture.source < 0 || texture.source as int >= |doc.images| {
        return 0;
      }
      var image := doc.images[texture.source];
      id := CreateTexture(gl, image);
    }
  }
}
