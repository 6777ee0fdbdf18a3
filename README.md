# OpenGL renderer core: glTF primitives, draw pass and textures

This project models the asset-to-draw pipeline of a small OpenGL glTF
renderer and proves what it does:

- `Model::loadModel` picks the glTF container (binary GLB or JSON) from the
  text after the last `'.'` of the file name.
- `Model::createVAOs` walks every primitive of every mesh. It follows each
  attribute and the index accessor through accessor -> bufferView -> buffer
  (glTF 2.0, section 3.6), range-checking every hop. It uploads buffers,
  registers attribute bindings in a fresh vertex array object, and fills
  `primitiveMap`, the table from mesh index to the built
  `GLPrimitive {vao, vbo, ebo, indexCount}` records (`src/Model.h`).
- `Model::draw` walks the meshes in order and binds each primitive's VAO.
  It issues an indexed or a non-indexed triangle draw, then unbinds.
- `Model::loadTextureFromModel`, `createTexture` and `loadCubeMap` make 2D
  and cube-map textures, with a 0 failure sentinel and an error ladder
  driven by `glGetError`.

OpenGL is an abstract device (`GL.Device`). It has a name counter, so a new
name is never 0. It keeps the trace of commands issued. It holds a queue of
the codes `glGetError` will report; once the queue is empty the code is
`GL_NO_ERROR`. The glTF document is an immutable value (`Gltf.Document`).
The tinygltf decoders and `stbi_load` are function parameters (oracles).

Each imperative routine is a method of `SceneModel.Model` or `Texture`,
proved equal to a pure function that defines it. The functions are folds over
prefixes, in the order the source's loops run: `PrimitiveTable.MeshesBuilt`,
`DrawDispatch.MeshesDraw`, `Texture.TextureCreated`, `Texture.FaceUploads`.
Lemmas then relate those functions to reference definitions stated on the
document alone, such as `ExpectedBindings`, `ExpectedVertexData`,
`ExpectedCounts` and `DocumentCounts`.

Three consequences of the code are worth stating on their own:

- A mesh none of whose primitives is kept, or that has no primitives, gets
  no entry in `primitiveMap`; `draw` then skips it. `MeshesBuiltExactly`
  states this rule.
- A primitive without an index accessor records `indexCount = 0`. `draw`
  passes that 0 as the vertex count of `glDrawArrays(GL_TRIANGLES, 0, 0)`,
  so such a primitive draws nothing. `BuildThenDraw` and
  `NonIndexedMeshDrawsNothing` state this behaviour.
- A primitive whose index chain fails is dropped, and its VAO is left bound
  (`PrimitiveBuiltCommands`).

C++ conversions are modelled explicitly:

- `vector.size() <= i` with an `int` index compares unsigned, so a negative
  index wraps and fails the check (`Base.ToSize`, `Base.OutOfRange`).
- `static_cast<GLsizei>(accessor.count)` keeps the low 32 bits as a
  two's-complement value (`Base.ToInt32`).
- `find_last_of` returns npos, and npos + 1 wraps to 0 (`Loader.Extension`).

The source leaves `GLPrimitive.vbo` and `.ebo` uninitialised when nothing is
uploaded for them. The model uses 0 there.

## Model

| member | source | states |
|---|---|---|
| Base.ToInt32 | src/Model.cpp:174 | the `GLsizei` cast keeps values below 2^31, makes a count with bit 31 set negative, and always agrees with the count modulo 2^32 |
| Base.ToSize | src/Model.cpp:98 | converting an `int` index to `size_t` keeps non-negative values and wraps negative ones above 2^64 - 2^31 |
| Base.OutOfRangeExactly | src/Model.cpp:98-116 | for any vector size, the unsigned check `size <= i` fails exactly when `i` is not in `[0, size)`, negative indices included |
| Gltf.Resolve | src/Model.cpp:98-118 | the accessor -> bufferView -> buffer walk returns only elements of the document's collections |
| Gltf.ResolveExactly | src/Model.cpp:98-118 | the walk succeeds exactly when all three indices are in range, and then returns exactly the referenced accessor, view and buffer |
| Loader.FindLastOf | src/Model.cpp:46 | `find_last_of` gives npos exactly when the character is absent, and otherwise the last position holding it |
| Loader.Extension | src/Model.cpp:46 | `substr(find_last_of(".") + 1)` is the longest suffix of the name without a '.': the text after the last '.', or the whole name when it has none |
| Loader.GlbExtensionExactly | src/Model.cpp:46 | the extension is "glb" exactly for the name "glb" itself or a name ending in ".glb" (case-sensitive) |
| Loader.LoaderFor | src/Model.cpp:46-53 | the binary loader is chosen exactly for the name "glb" itself or a name ending in ".glb"; every other name goes to the JSON loader |
| SceneModel.Model.LoadModel | src/Model.cpp:39-66 | the document is what the loader chosen by the extension produced; a failed decode is only reported |
| SceneModel.Model.constructor | src/Model.cpp:5-9 | the model loads the file, then builds its primitive table from an empty map as `MeshesBuilt` describes |
| PrimitiveTable.BufferCreated | src/Model.cpp:76-83 | createBuffer hands out the next name, never 0, and issues exactly Gen, BindBuffer to the target and BufferData of the whole payload with `GL_STATIC_DRAW`; the error queue is untouched |
| SceneModel.Model.CreateBuffer | src/Model.cpp:76-83 | createBuffer issues a fresh name, binds it to the target and uploads the whole payload |
| PrimitiveTable.BufferCreatedUploads | src/Model.cpp:76-83 | createBuffer's name is the next one; it adds the payload to the uploads of its target only, registers no binding and leaves the VAO binding alone |
| PrimitiveTable.AttribSlot | src/Model.cpp:123-135 | POSITION goes to slot 0, NORMAL to 1, TEXCOORD_0 to 2, and every other name to 0 |
| PrimitiveTable.ComponentCount | src/Model.cpp:140 | the component count handed to `glVertexAttribPointer` is 1 for SCALAR, 2, 3 and 4 for VEC2, VEC3 and VEC4, and tinygltf's type code itself for every other type |
| PrimitiveTable.AttribBinding | src/Model.cpp:138-145 | the binding of an attribute goes to its slot (at most 2), with the accessor's component count, component type and normalized flag, the view's stride, and the accessor's offset plus the view's offset |
| PrimitiveTable.AttributeBoundStep | src/Model.cpp:96-145 | an attribute whose chain fails at any hop issues nothing and keeps `vbo`; otherwise its whole buffer becomes a fresh VBO, that VBO becomes `vbo`, its slot is enabled and right after that exactly its binding (slot, component count, component type, normalized, stride, summed offset) is registered |
| PrimitiveTable.AttributesBoundExactly | src/Model.cpp:96-146 | the attribute loop registers exactly the expected bindings and uploads exactly the expected vertex payloads in order; failed attributes are skipped and later ones still processed; `vbo` ends as the last accepted attribute's buffer; no index buffer is uploaded |
| SceneModel.Model.BindAttributes | src/Model.cpp:96-146 | the attribute loop, imperatively, does exactly what `AttributesBound` describes |
| PrimitiveTable.VertexArrayFilledCommands | src/Model.cpp:92-146 | each primitive gets a fresh VAO, left bound during the attribute loop, with the expected bindings and vertex uploads |
| PrimitiveTable.PrimitiveBuilt | src/Model.cpp:92-181 | one pass of the primitive loop hands out at least one name and consumes no error code; a primitive it keeps records the fresh VAO it made |
| PrimitiveTable.PrimitiveKept | src/Model.cpp:148-182 | a primitive is appended exactly when it has no index accessor or its index chain resolves; its index count is then 0 without indices, else the index accessor's count cast to `GLsizei` |
| PrimitiveTable.PrimitiveBuiltCommands | src/Model.cpp:92-181 | a dropped primitive leaves its VAO bound and uploads no element buffer; a kept one ends unbound, records its VAO and last VBO, has no EBO without indices and otherwise a fresh EBO holding the index buffer |
| SceneModel.Model.BuildPrimitive | src/Model.cpp:92-181 | the body of the primitive loop does exactly what `PrimitiveBuilt` describes, returning None where the source `continue`s |
| PrimitiveTable.PrimitivesBuilt | src/Model.cpp:90-183 | the primitive loop of one mesh only moves the name counter forward and consumes no error code |
| PrimitiveTable.PrimitivesBuiltExactly | src/Model.cpp:90-183 | the primitive loop of mesh `i` touches only entry `i`, creates it exactly when some primitive is kept, and appends the kept primitives in document order with their expected index counts |
| PrimitiveTable.MeshesBuilt | src/Model.cpp:85-185 | the mesh loop only moves the name counter forward and consumes no error code |
| PrimitiveTable.MeshesBuiltExactly | src/Model.cpp:85-185 | after the mesh loop, mesh `i` has an entry exactly when one of its primitives is kept, no other key exists, and each entry lists its mesh's kept primitives with their expected index counts |
| PrimitiveTable.MeshAdded | src/Model.cpp:87-184 | one pass of the mesh loop keeps the table as expected for one more mesh |
| PrimitiveTable.PrimitivesBuiltVaos | src/Model.cpp:90-183 | the primitive loop of a mesh appends records whose VAOs are names it hands out itself, in increasing order |
| PrimitiveTable.MeshVaosAdded | src/Model.cpp:87-184 | one pass of the mesh loop appends, after the records of the earlier meshes, records with fresh VAOs in increasing order |
| PrimitiveTable.MeshesBuiltVaos | src/Model.cpp:85-185 | in the order draw visits them, the records built from an empty map carry strictly increasing VAOs, all handed out during the build, so no two records share a VAO |
| SceneModel.Model.CreateVAOs | src/Model.cpp:85-185 | the nested mesh and primitive loops, with the in-place `push_back`, do exactly what `MeshesBuilt` describes |
| DrawDispatch.PrimitiveDraw | src/Model.cpp:23-34 | one primitive issues three commands: bind, draw, unbind |
| DrawDispatch.PrimitivesDraw | src/Model.cpp:21-35 | the inner draw loop issues three commands per record of the entry |
| DrawDispatch.MeshesDraw | src/Model.cpp:13-36 | the draw pass issues whole bind, draw, unbind triples, meshes without entry contributing none |
| DrawDispatch.PrimitiveDrawSubmits | src/Model.cpp:23-34 | one primitive starts by binding its own VAO and submits exactly one draw call, run with that VAO bound and carrying its index count; the call is well formed and the VAO is unbound at the end |
| DrawDispatch.PrimitivesDrawSubmits | src/Model.cpp:21-35 | an entry submits one draw call per record, in order, each run with that record's VAO bound and carrying its index count |
| DrawDispatch.MeshesDrawSubmits | src/Model.cpp:13-36 | the draw pass submits, mesh by mesh and skipping meshes without entry, one draw per table record (three commands each), run with that record's VAO bound and carrying its count; indexed draws get a positive count of unsigned shorts, non-indexed draws start at 0 with a count that is never positive |
| DrawDispatch.TableCountsAsExpected | src/Model.cpp:13-21 | over a table as the builder leaves it, the index counts of the records, in draw order, are the document's expected counts |
| DrawDispatch.BuildThenDraw | src/Model.cpp:11-37 | building the table and then drawing it submits, in document order, one draw per kept primitive, each run with the VAO built for that primitive bound (distinct names handed out by the build) and carrying the count that primitive should record, so a primitive without indices is drawn with a count of 0 |
| DrawDispatch.NonIndexedMeshDrawsNothing | src/Model.cpp:29-32 | a mesh with one non-indexed primitive with a valid POSITION accessor of any vertex count is drawn as `glDrawArrays(GL_TRIANGLES, 0, 0)` |
| SceneModel.Model.DrawPrimitives | src/Model.cpp:21-35 | the inner draw loop issues exactly `PrimitivesDraw` of the entry |
| SceneModel.Model.Draw | src/Model.cpp:11-37 | the draw pass issues exactly `MeshesDraw` of the table over all meshes and changes nothing else |
| SceneModel.TextureImage | src/Model.cpp:189-202 | an image is found exactly when the texture index and that texture's source are both in range, and it is one of the document's images |
| SceneModel.TextureFromModel | src/Model.cpp:187-204 | a non-zero texture comes back exactly when both indices are in range, the image is valid and `glGetError` reports nothing twice; it is then a fresh name; a bad index issues no command |
| SceneModel.Model.LoadTextureFromModel | src/Model.cpp:187-204 | the method does exactly what `TextureFromModel` describes |
| Texture.UploadFormat | src/Texture.cpp:25-29 | the format is RGB exactly for 3 channels and RGBA for every other channel count |
| Texture.TextureCreated | src/Texture.cpp:5-61 | 0 comes back exactly when the image is invalid or `glGetError` reports an error after the upload or after the parameters; otherwise a fresh, non-zero name |
| Texture.TextureCreatedCommands | src/Texture.cpp:8-57 | an invalid image issues nothing; otherwise one name and the upload, in the same format internally and externally; an upload error stops before mipmaps and sampler state, else mipmaps, REPEAT wrap, LINEAR_MIPMAP_LINEAR min and LINEAR mag follow |
| Texture.CreateTexture | src/Texture.cpp:5-61 | the method does exactly what `TextureCreated` describes |
| Texture.FaceUploads | src/Texture.cpp:70-86 | the face loop issues at most one upload per face |
| Texture.CubeSampler | src/Texture.cpp:87-91 | the cube sampler set-up is five parameter settings, all on the cube-map target |
| Texture.LoadCubeMap | src/Texture.cpp:63-94 | one fresh, non-zero cube texture is bound; every face that decodes is uploaded in list order; the sampler set-up follows; the name is returned whatever the faces did |
| Texture.CubeUploadsFromDecodedFaces | src/Texture.cpp:70-77 | every cube upload is the RGB upload of a face that decoded, to that face's own target `POSITIVE_X + i` |
| Texture.CubeUploadsInOrder | src/Texture.cpp:68-77 | cube uploads follow the face list, so their targets strictly increase |
| Texture.CubeDecodedFacesUploaded | src/Texture.cpp:70-86 | every face that decodes is uploaded, whatever happened to the faces before it |
| Texture.CubeFacesAreRgb | src/Texture.cpp:75-76 | every face upload uses RGB as internal and external format and unsigned bytes, whatever the channel count |

## Left out

- Logging: the messages written to `std::cout` and `std::cerr`, the decoder's warning and error strings, the debug listing of images after loading, and `stbi_failure_reason` are not modelled.
- Decoding: tinygltf (`LoadBinaryFromFile`, `LoadASCIIFromFile`) and `stb_image` are oracles given as function parameters. The decoders themselves are not part of this model.
- SceneModel.Model.LoadModel: the decoder's success flag is not used, because the source only reports a failure and keeps the document as the decoder left it.
- GPU semantics: what `glBufferData`, `glTexImage2D`, `glGenerateMipmap` and the draw calls do to device memory is not modelled. Only the command trace, the name counter and the `glGetError` codes are.
- GL.GenName: names are handed out as the next integer and never wrap at 2^32. No `glDelete*` exists in the source, so names are never reused.
- GL.Device.GetError: `glGetError` calls are not recorded in the command trace. Their codes come from the queue.
- The commands keep only their informative arguments. The mip level and border (0), the null index offset of `glDrawElements`, the count 1 of `glGen*` and the `GLsizei` cast of the buffer size in `glBufferData` are not recorded.
- PrimitiveTable.AttribBinding: the stride and the summed offset are kept as unbounded naturals. The conversion to `GLsizei` and to a pointer is not modelled.
- Attribute order: a primitive's attributes are a sequence in the iteration order of tinygltf's `std::map`. The model does not require that order to be sorted by name.
- Texture.LoadCubeMap: the face index is unbounded. The wrap-around of the `unsigned int` counter beyond 2^32 faces is not modelled. The decoded raster's channel count is ignored, as the source ignores it.
- PrimitiveTable.Table: mesh indices are used as map keys unchanged. The conversion of the `size_t` mesh index to the map's `int` key, which would wrap beyond 2^31 meshes, is not modelled.
- Shader program: `draw` receives a shader program and does not use it. The model does the same.
- Resource release: the source never deletes buffers, vertex arrays or textures, and the model adds nothing.
- `src/main.cpp` (window, UI, framebuffer, uniforms, the texture-binding loop over `createTexture`), `src/Camera.h` and `src/Shader.h` are not part of this model.
