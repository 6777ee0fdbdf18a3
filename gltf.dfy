/** The parsed glTF 2.0 document (tinygltf::Model), reduced to the fields the
    renderer reads, and the accessor -> bufferView -> buffer chain it walks
    (glTF 2.0, section 3.6 "Binary Data Storage"). */
module Gltf {
  import opened Base

  /** tinygltf's codes for the accessor types "VEC2", "VEC3", "VEC4" and
      "SCALAR" (64 + 1). */
  const TINYGLTF_TYPE_VEC2: int := 2
  const TINYGLTF_TYPE_VEC3: int := 3
  const TINYGLTF_TYPE_VEC4: int := 4
  const TINYGLTF_TYPE_SCALAR: int := 65

  /** `elemType` is tinygltf's `type` field: 2, 3, 4 for VEC2..VEC4, 65 for SCALAR. */
  datatype Accessor = Accessor(
    bufferView: int32,
    byteOffset: nat,
    normalized: bool,
    componentType: int,
    count: nat,
    elemType: int)

  datatype BufferView = BufferView(buffer: int32, byteOffset: nat, byteStride: nat)

  datatype Buffer = Buffer(data: seq<bv8>)

  /** `attributes` is tinygltf's `std::map<std::string, int>` from semantic
      name to accessor index, listed in the map's iteration order. */
  datatype Primitive = Primitive(attributes: seq<(string, int32)>, indices: int32)

  datatype Mesh = Mesh(primitives: seq<Primitive>)

  /** `component` is the number of channels per pixel. */
  datatype Image = Image(width: int32, height: int32, component: int32, pixels: seq<bv8>)

  datatype Texture = Texture(source: int32)

  datatype Document = Document(
    meshes: seq<Mesh>,
    accessors: seq<Accessor>,
    bufferViews: seq<BufferView>,
    buffers: seq<Buffer>,
    images: seq<Image>,
    textures: seq<Texture>)

  /** Every collection is a `std::vector`, so none is longer than its max_size. */
  predicate Sized(doc: Document) {
    && |doc.accessors| <= MAX_VECTOR_SIZE
    && |doc.bufferViews| <= MAX_VECTOR_SIZE
    && |doc.buffers| <= MAX_VECTOR_SIZE
  }

  /** The three objects an accessor index leads to. */
  datatype Chain = Chain(accessor: Accessor, view: BufferView, buffer: Buffer)

  /** Follow accessor -> bufferView -> buffer from accessor `index`, with the
      source's range check (`size <= i`, compared unsigned) at every hop;
      None when any hop fails. */
  function Resolve(doc: Document, index: int32): (r: Option<Chain>)
    ensures r.Some? ==> r.value.accessor in doc.accessors && r.value.view in doc.bufferViews
                        && r.value.buffer in doc.buffers
  {
    if OutOfRange(|doc.accessors|, index) then None
    else
      var accessor := doc.accessors[ToSize(index)];
      if OutOfRange(|doc.bufferViews|, accessor.bufferView) then None
      else
        var view := doc.bufferViews[ToSize(accessor.bufferView)];
        if OutOfRange(|doc.buffers|, view.buffer) then None
        else Some(Chain(accessor, view, doc.buffers[ToSize(view.buffer)]))
  }

  /** The chain resolves exactly when each index lies in [0, size) of the
      collection it indexes, and then it yields exactly those elements;
      negative indices fail. */
  lemma ResolveExactly(doc: Document, index: int32)
    requires Sized(doc)
    ensures Resolve(doc, index).Some? <==>
      && 0 <= index as int < |doc.accessors|
      && 0 <= doc.accessors[index].bufferView as int < |doc.bufferViews|
      && 0 <= doc.bufferViews[doc.accessors[index].bufferView].buffer as int < |doc.buffers|
    ensures Resolve(doc, index).Some? ==>
      var a := doc.accessors[index];
      var v := doc.bufferViews[a.bufferView];
      Resolve(doc, index).value == Chain(a, v, doc.buffers[v.buffer])
  {
    OutOfRangeExactly(|doc.accessors|, index);
    if 0 <= index as int < |doc.accessors| {
      var a := doc.accessors[index];
      OutOfRangeExactly(|doc.bufferViews|, a.bufferView);
      if 0 <= a.bufferView as int < |doc.bufferViews| {
        OutOfRangeExactly(|doc.buffers|, doc.bufferViews[a.bufferView].buffer);
      }
    }
  }
}
