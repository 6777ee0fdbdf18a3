/** Texture synthesis (Texture.cpp): a 2D texture from a decoded glTF image,
    and a cube map from image files decoded by an oracle (stb_image). */
module Texture {
  import opened Base
  import opened GL
  import opened Gltf

  /** What stbi_load returns for a file it can decode. */
  datatype Raster = Raster(width: int32, height: int32, channels: int32, pixels: seq<bv8>)

  /** createTexture's guard: positive width and height, and some pixel data. */
  predicate ValidImage(img: Image) {
    !(img.width <= 0 || img.height <= 0 || |img.pixels| == 0)
  }

  /** The format used both as internal and as external format: RGB for
      exactly three channels, RGBA for any other channel count. */
  function UploadFormat(component: int32): (f: int)
    ensures f == GL_RGB <==> component == 3
    ensures f == GL_RGBA <==> component != 3
  {
    if component == 3 then GL_RGB else GL_RGBA
  }

  /** Binding the 2D texture named `name` and filling it with `img`. */
  function Upload2D(name: nat, img: Image): seq<Cmd> {
    var format := UploadFormat(img.component);
    [ BindTexture(GL_TEXTURE_2D, name),
      TexImage2D(GL_TEXTURE_2D, format, img.width as int, img.height as int, format, GL_UNSIGNED_BYTE, img.pixels) ]
  }

  /** The fixed mipmap and sampler set-up of a 2D texture. */
  function Sampler2D(): seq<Cmd> {
    [ GenerateMipmap(GL_TEXTURE_2D),
      TexParameter(GL_TEXTURE_2D, GL_TEXTURE_WRAP_S, GL_REPEAT),
      TexParameter(GL_TEXTURE_2D, GL_TEXTURE_WRAP_T, GL_REPEAT),
      TexParameter(GL_TEXTURE_2D, GL_TEXTURE_MIN_FILTER, GL_LINEAR_MIPMAP_LINEAR),
      TexParameter(GL_TEXTURE_2D, GL_TEXTURE_MAG_FILTER, GL_LINEAR) ]
  }

  /** createTexture on device state `g`: the texture name returned and the
      device afterwards. 0 is the failure sentinel: it is returned exactly
      when the image is invalid or glGetError reports an error after the
      upload or after the parameters. On success the name is a fresh one,
      never 0. */
  function TextureCreated(img: Image, g: GLState): (r: (nat, GLState))
    ensures r.0 == 0 <==> !ValidImage(img) || ErrorAt(g, 0) != GL_NO_ERROR || ErrorAt(g, 1) != GL_NO_ERROR
    ensures r.0 != 0 ==> r.0 == g.issued + 1
  {
    if !ValidImage(img) then (0, g)
    else
      var (name, g1) := GenName(g, TextureObject);
      var g2 := Append(g1, Upload2D(name, img));
      var (e1, g3) := PollError(g2);
      if e1 != GL_NO_ERROR then (0, g3)
      else
        var g4 := Append(g3, Sampler2D());
        var (e2, g5) := PollError(g4);
        if e2 != GL_NO_ERROR then (0, g5) else (name, g5)
  }

  /** The commands createTexture issues: none at all for an invalid image;
      otherwise one fresh name and the upload, and, unless glGetError then
      reports an error, the mipmaps and sampler state after it. */
  lemma TextureCreatedCommands(img: Image, g: GLState)
    ensures var r := TextureCreated(img, g);
      && (!ValidImage(img) ==> r.1 == g)
      && (ValidImage(img) ==> r.1.issued == g.issued + 1)
      && (ValidImage(img) && ErrorAt(g, 0) != GL_NO_ERROR ==>
            r.1.trace == g.trace + [Gen(TextureObject, g.issued + 1)] + Upload2D(g.issued + 1, img))
      && (ValidImage(img) && ErrorAt(g, 0) == GL_NO_ERROR ==>
            r.1.trace == g.trace + [Gen(TextureObject, g.issued + 1)] + Upload2D(g.issued + 1, img) + Sampler2D())
  {
  }

  /** createTexture: the guard, the format choice, the upload and the
      early-return error ladder. */
  method CreateTexture(gl: Device, img: Image) returns (id: nat)
    modifies gl
    ensures (id, gl.State()) == TextureCreated(img, old(gl.State()))
  {
    if img.width <= 0 || img.height <= 0 || |img.pixels| == 0 {
      return 0;
    }
    ghost var g0 := gl.State();
    var textureID := gl.Gen(TextureObject);
    gl.Call(BindTexture(GL_TEXTURE_2D, textureID));
    var format := GL_RGBA;
    if img.component == 3 {
      format := GL_RGB;
    }
    gl.Call(TexImage2D(GL_TEXTURE_2D, format, img.width as int, img.height as int, format, GL_UNSIGNED_BYTE, img.pixels));
    assert format == UploadFormat(img.component);
    ghost var g2 := gl.State();
    assert g2 == Append(GenName(g0, TextureObject).1, Upload2D(textureID, img));
    var error := gl.GetError();
    ghost var g3 := gl.State();
    assert (error, g3) == PollError(g2);
    if error != GL_NO_ERROR {
      assert TextureCreated(img, g0) == (0, g3);
      return 0;
    }
    gl.Call(GenerateMipmap(GL_TEXTURE_2D));
    gl.Call(TexParameter(GL_TEXTURE_2D, GL_TEXTURE_WRAP_S, GL_REPEAT));
    gl.Call(TexParameter(GL_TEXTURE_2D, GL_TEXTURE_WRAP_T, GL_REPEAT));
    gl.Call(TexParameter(GL_TEXTURE_2D, GL_TEXTURE_MIN_FILTER, GL_LINEAR_MIPMAP_LINEAR));
    gl.Call(TexParameter(GL_TEXTURE_2D, GL_TEXTURE_MAG_FILTER, GL_LINEAR));
    ghost var g4 := gl.State();
    assert g4 == Append(g3, Sampler2D());
    error := gl.GetError();
    assert (error, gl.State()) == PollError(g4);
    if error != GL_NO_ERROR {
      assert TextureCreated(img, g0) == (0, gl.State());
      return 0;
    }
    assert TextureCreated(img, g0) == (textureID, gl.State());
    id := textureID;
  }

  /** The upload of decoded face `i` of a cube map: always RGB, to target
      GL_TEXTURE_CUBE_MAP_POSITIVE_X + i. */
  function FaceUpload(i: nat, r: Raster): Cmd {
    TexImage2D(GL_TEXTURE_CUBE_MAP_POSITIVE_X + i, GL_RGB, r.width as int, r.height as int,
               GL_RGB, GL_UNSIGNED_BYTE, r.pixels)
  }

  /** The uploads of the first `n` faces: one per face that decodes, none for
      a face that does not. */
  function FaceUploads(faces: seq<string>, load: string -> Option<Raster>, n: nat): (r: seq<Cmd>)
    requires n <= |faces|
    ensures |r| <= n
  {
    if n == 0 then []
    else
      FaceUploads(faces, load, n - 1) +
      match load(faces[n - 1])
      case None => []
      case Some(r) => [FaceUpload(n - 1, r)]
  }

  /** The fixed sampler set-up of a cube map. */
  function CubeSampler(): (r: seq<Cmd>)
    ensures |r| == 5
    ensures forall c :: c in r ==> c.TexParameter? && c.target == GL_TEXTURE_CUBE_MAP
  {
    [ TexParameter(GL_TEXTURE_CUBE_MAP, GL_TEXTURE_MIN_FILTER, GL_LINEAR),
      TexParameter(GL_TEXTURE_CUBE_MAP, GL_TEXTURE_MAG_FILTER, GL_LINEAR),
      TexParameter(GL_TEXTURE_CUBE_MAP, GL_TEXTURE_WRAP_S, GL_CLAMP_TO_EDGE),
      TexParameter(GL_TEXTURE_CUBE_MAP, GL_TEXTURE_WRAP_T, GL_CLAMP_TO_EDGE),
      TexParameter(GL_TEXTURE_CUBE_MAP, GL_TEXTURE_WRAP_R, GL_CLAMP_TO_EDGE) ]
  }

  /** loadCubeMap: one bound cube texture, a best-effort upload per face in
      list order, then its sampler state; the fresh name is returned whatever
      the faces did. The number of faces is not checked. */
  method LoadCubeMap(gl: Device, faces: seq<string>, load: string -> Option<Raster>) returns (id: nat)
    modifies gl
    ensures id != 0 && id == old(gl.issued) + 1 && gl.issued == id && gl.errors == old(gl.errors)
    ensures gl.trace == old(gl.trace) + [Gen(TextureObject, id), BindTexture(GL_TEXTURE_CUBE_MAP, id)]
                        + FaceUploads(faces, load, |faces|) + CubeSampler()
  {
    id := gl.Gen(TextureObject);
    gl.Call(BindTexture(GL_TEXTURE_CUBE_MAP, id));
    ghost var start := gl.trace;
    assert start == old(gl.trace) + [Gen(TextureObject, id), BindTexture(GL_TEXTURE_CUBE_MAP, id)];
    for i := 0 to |faces|
      invariant gl.issued == id && gl.errors == old(gl.errors)
      invariant gl.trace == start + FaceUploads(faces, load, i)
    {
      var data := load(faces[i]);
      if data.Some? {
        gl.Call(FaceUpload(i, data.value));
      }
    }
    ghost var uploaded := gl.trace;
    gl.Call(TexParameter(GL_TEXTURE_CUBE_MAP, GL_TEXTURE_MIN_FILTER, GL_LINEAR));
    gl.Call(TexParameter(GL_TEXTURE_CUBE_MAP, GL_TEXTURE_MAG_FILTER, GL_LINEAR));
    gl.Call(TexParameter(GL_TEXTURE_CUBE_MAP, GL_TEXTURE_WRAP_S, GL_CLAMP_TO_EDGE));
    gl.Call(TexParameter(GL_TEXTURE_CUBE_MAP, GL_TEXTURE_WRAP_T, GL_CLAMP_TO_EDGE));
    gl.Call(TexParameter(GL_TEXTURE_CUBE_MAP, GL_TEXTURE_WRAP_R, GL_CLAMP_TO_EDGE));
    assert gl.trace == uploaded + CubeSampler();
  }

  /** The face slot a cube-map upload targets. */
  function FaceSlot(c: Cmd): int
    requires c.TexImage2D?
  {
    c.target - GL_TEXTURE_CUBE_MAP_POSITIVE_X
  }

  /** Soundness: every upload among the first `n` faces is the RGB upload of
      a face that decoded, into that face's own slot. */
  lemma {:induction false} CubeUploadsFromDecodedFaces(faces: seq<string>, load: string -> Option<Raster>, n: nat)
    requires n <= |faces|
    ensures forall c :: c in FaceUploads(faces, load, n) ==>
      && c.TexImage2D?
      && 0 <= FaceSlot(c) < n
      && load(faces[FaceSlot(c)]).Some?
      && c == FaceUpload(FaceSlot(c), load(faces[FaceSlot(c)]).value)
  {
    if n > 0 {
      CubeUploadsFromDecodedFaces(faces, load, n - 1);
    }
  }

  /** Texture uploads whose targets strictly increase. */
  predicate TargetsIncrease(ups: seq<Cmd>) {
    forall j, k :: 0 <= j < k < |ups| ==> ups[j].TexImage2D? && ups[k].TexImage2D? && ups[j].target < ups[k].target
  }

  /** Order: uploads follow the face list, so their targets strictly increase. */
  lemma {:induction false} CubeUploadsInOrder(faces: seq<string>, load: string -> Option<Raster>, n: nat)
    requires n <= |faces|
    ensures TargetsIncrease(FaceUploads(faces, load, n))
  {
    if n > 0 {
      CubeUploadsInOrder(faces, load, n - 1);
      CubeUploadsFromDecodedFaces(faces, load, n - 1);
      var prev := FaceUploads(faces, load, n - 1);
      var ups := FaceUploads(faces, load, n);
      forall j, k | 0 <= j < k < |ups|
        ensures ups[j].TexImage2D? && ups[k].TexImage2D? && ups[j].target < ups[k].target
      {
        if k >= |prev| {
          assert ups[j] == prev[j] && prev[j] in prev;
          assert ups[k] == FaceUpload(n - 1, load(faces[n - 1]).value);
        } else {
          assert ups[j] == prev[j] && ups[k] == prev[k];
        }
      }
    }
  }

  /** Completeness: every face among the first `n` that decodes is uploaded,
      whatever happened to the faces before it. */
  lemma {:induction false} CubeDecodedFacesUploaded(faces: seq<string>, load: string -> Option<Raster>, n: nat)
    requires n <= |faces|
    ensures forall i :: 0 <= i < n && load(faces[i]).Some? ==>
              FaceUpload(i, load(faces[i]).value) in FaceUploads(faces, load, n)
  {
    if n > 0 {
      CubeDecodedFacesUploaded(faces, load, n - 1);
    }
  }

  /** Every face upload uses RGB for both formats and unsigned bytes, whatever
      the channel count of the decoded face. */
  lemma {:induction false} CubeFacesAreRgb(faces: seq<string>, load: string -> Option<Raster>, n: nat)
    requires n <= |faces|
    ensures forall c :: c in FaceUploads(faces, load, n) ==>
              c.TexImage2D? && c.internalFormat == GL_RGB && c.format == GL_RGB && c.pixelType == GL_UNSIGNED_BYTE
  {
    if n > 0 {
      CubeFacesAreRgb(faces, load, n - 1);
    }
  }
}
