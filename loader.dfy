/** Choice of glTF container by file name (Model::loadModel): the binary
    container (GLB, glTF 2.0 chapter 4) for names whose text after the last
    '.' is "glb", the JSON container otherwise. The decoders themselves are
    an oracle. */
module Loader {
  import opened Base
  import opened Gltf

  datatype Container = Binary | Ascii

  /** What tinygltf's LoadBinaryFromFile / LoadASCIIFromFile leave behind:
      whether they succeeded, and the document they filled in. */
  datatype Decoded = Decoded(ok: bool, doc: Document)

  /** `std::string::npos`. */
  const NPOS: nat := TWO_64 - 1

  /** `s.find_last_of(c)`: the last position holding `c`, or npos. */
  function FindLastOf(s: string, c: char): (r: nat)
    requires |s| < NPOS
    ensures r == NPOS <==> forall k :: 0 <= k < |s| ==> s[k] != c
    ensures r != NPOS ==> r < |s| && s[r] == c && forall k :: r < k < |s| ==> s[k] != c
  {
    if s == [] then NPOS
    else if s[|s| - 1] == c then |s| - 1
    else FindLastOf(s[..|s| - 1], c)
  }

  /** `path.substr(path.find_last_of(".") + 1)`: npos + 1 wraps to 0, so a
      name without '.' yields the whole name. */
  function Extension(path: string): (r: string)
    requires |path| < NPOS
    ensures |r| <= |path| && r == path[|path| - |r|..]
    ensures forall k :: 0 <= k < |r| ==> r[k] != '.'
    ensures |r| < |path| ==> path[|path| - |r| - 1] == '.'
  {
    var pos := (FindLastOf(path, '.') + 1) % TWO_64;
    path[pos..]
  }

  /** The container loadModel decodes `path` as: binary exactly for the
      name "glb" itself and for names ending in ".glb" (case-sensitive),
      JSON for every other name. */
  function LoaderFor(path: string): (c: Container)
    requires |path| < NPOS
    ensures c == Binary <==> path == "glb" || (|path| >= 4 && path[|path| - 4..] == ".glb")
  {
    GlbExtensionExactly(path);
    if Extension(path) == "glb" then Binary else Ascii
  }

  /** The extension is "glb" exactly for the name "glb" itself and for names
      ending in ".glb". */
  lemma GlbExtensionExactly(path: string)
    requires |path| < NPOS
    ensures Extension(path) == "glb" <==> path == "glb" || (|path| >= 4 && path[|path| - 4..] == ".glb")
  {
    var e := Extension(path);
    var m := |path| - |e|;
    if e == "glb" && m > 0 {
      assert path[m - 1..] == [path[m - 1]] + e;
    }
    if |path| >= 4 && path[|path| - 4..] == ".glb" {
      assert path[|path| - 4] == '.' && path[|path| - 3..] == "glb";
    }
  }
}
