/** OpenGL as an abstract device: the names it hands out, the commands it
    has been given, and the error codes `glGetError` will report. What the
    commands do to device memory is not modelled. */
module GL {
  import opened Base

  // Enumerants used by the renderer, with their OpenGL values.
  const GL_NO_ERROR: int := 0
  const GL_TRIANGLES: int := 0x0004
  const GL_UNSIGNED_BYTE: int := 0x1401
  const GL_UNSIGNED_SHORT: int := 0x1403
  const GL_ARRAY_BUFFER: int := 0x8892
  const GL_ELEMENT_ARRAY_BUFFER: int := 0x8893
  const GL_STATIC_DRAW: int := 0x88E4
  const GL_TEXTURE_2D: int := 0x0DE1
  const GL_TEXTURE_CUBE_MAP: int := 0x8513
  const GL_TEXTURE_CUBE_MAP_POSITIVE_X: int := 0x8515
  const GL_RGB: int := 0x1907
  const GL_RGBA: int := 0x1908
  const GL_TEXTURE_MAG_FILTER: int := 0x2800
  const GL_TEXTURE_MIN_FILTER: int := 0x2801
  const GL_TEXTURE_WRAP_S: int := 0x2802
  const GL_TEXTURE_WRAP_T: int := 0x2803
  const GL_TEXTURE_WRAP_R: int := 0x8072
  const GL_REPEAT: int := 0x2901
  const GL_CLAMP_TO_EDGE: int := 0x812F
  const GL_LINEAR: int := 0x2601
  const GL_LINEAR_MIPMAP_LINEAR: int := 0x2703

  datatype ObjectKind = VertexArrayObject | BufferObject | TextureObject

  /** One call into OpenGL. Arguments that the renderer always passes as
      constants and that carry no information (mip level 0, border 0, a null
      index offset, a count of 1 in glGen*) are not recorded. */
  datatype Cmd =
    | Gen(kind: ObjectKind, name: nat)
    | BindVertexArray(vao: nat)
    | BindBuffer(target: int, buffer: nat)
    | BufferData(target: int, data: seq<bv8>, usage: int)
    | EnableVertexAttribArray(index: nat)
    | VertexAttribPointer(index: nat, size: int, componentType: int, normalized: bool, stride: nat, offset: nat)
    | DrawElements(mode: int, count: int32, indexType: int)
    | DrawArrays(mode: int, first: int, count: int32)
    | BindTexture(target: int, texture: nat)
    | TexImage2D(target: int, internalFormat: int, width: int, height: int, format: int, pixelType: int, pixels: seq<bv8>)
    | GenerateMipmap(target: int)
    | TexParameter(target: int, pname: int, param: int)

  /** The device as a value: `issued` names handed out so far (a new name is
      the next integer, so no name is ever 0), the commands issued in order,
      and the error codes the next calls of glGetError will report. */
  datatype GLState = GLState(issued: nat, trace: seq<Cmd>, errors: seq<int>)

  /** glGen*(1, &name): a fresh, non-zero name. */
  function GenName(g: GLState, kind: ObjectKind): (r: (nat, GLState))
    ensures r.0 != 0 && r.0 > g.issued
    ensures r.1.issued == r.0 && r.1.errors == g.errors
    ensures r.1.trace == g.trace + [Gen(kind, r.0)]
  {
    var name := g.issued + 1;
    (name, g.(issued := name, trace := g.trace + [Gen(kind, name)]))
  }

  /** Issue commands that hand out no name. */
  function Append(g: GLState, cmds: seq<Cmd>): GLState {
    g.(trace := g.trace + cmds)
  }

  /** glGetError(): the oracle's next code, or GL_NO_ERROR once it is exhausted. */
  function PollError(g: GLState): (r: (int, GLState))
    ensures r.1.issued == g.issued && r.1.trace == g.trace
    ensures r.0 == ErrorAt(g, 0) && r.1.errors == if g.errors == [] then [] else g.errors[1..]
  {
    if g.errors == [] then (GL_NO_ERROR, g) else (g.errors[0], g.(errors := g.errors[1..]))
  }

  /** The code the k-th next call of glGetError reports. */
  function ErrorAt(g: GLState, k: nat): int {
    if k < |g.errors| then g.errors[k] else GL_NO_ERROR
  }

  /** The most recent vertex-array binding in a trace (0 when none). */
  function BoundVertexArray(trace: seq<Cmd>): nat {
    if trace == [] then 0
    else if trace[|trace| - 1].BindVertexArray? then trace[|trace| - 1].vao
    else BoundVertexArray(trace[..|trace| - 1])
  }

  /** The current OpenGL context, which the renderer reaches through global calls. */
  class Device {
    var issued: nat
    var trace: seq<Cmd>
    var errors: seq<int>

    constructor (pending: seq<int>)
      ensures issued == 0 && trace == [] && errors == pending
    {
      issued, trace, errors := 0, [], pending;
    }

    function State(): GLState
      reads this
    {
      GLState(issued, trace, errors)
    }

    method Gen(kind: ObjectKind) returns (name: nat)
      modifies this
      ensures (name, State()) == GenName(old(State()), kind)
    {
      issued := issued + 1;
      name := issued;
      trace := trace + [Cmd.Gen(kind, name)];
    }

    method Call(c: Cmd)
      modifies this
      ensures State() == Append(old(State()), [c])
    {
      trace := trace + [c];
    }

    method GetError() returns (e: int)
      modifies this
      ensures (e, State()) == PollError(old(State()))
    {
      if errors == [] {
        e := GL_NO_ERROR;
      } else {
        e := errors[0];
        errors := errors[1..];
      }
    }
  }
}
