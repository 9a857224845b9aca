/**
 * The element (index) buffer of one geometry group in the vendored Three.js WebGL
 * renderer (src/js/Three.js): initMeshBuffers counts the group's Face3 faces and
 * sizes a Uint16Array for three indices each (plus six per edge face), and
 * setMeshBuffers, when the elements are dirty, writes 0, 1, 2, ... into it, one
 * triangle of consecutive vertices per Face3. Face4 handling is commented out in
 * this copy of Three.js, so a Face4 contributes nothing to either.
 */
module ThreeBuffers {
  import opened ThreeGroups

  /** Uint16Array stores each written number modulo 2^16. */
  const Uint16Range := 0x1_0000

  /** The Face3 faces among the listed ones. */
  function Face3Count(faces: seq<Face>, chunk: seq<nat>): (n: nat)
    requires forall k :: 0 <= k < |chunk| ==> chunk[k] < |faces|
    ensures n <= |chunk|
  {
    if chunk == [] then 0
    else Face3Count(faces, chunk[..|chunk| - 1]) + (if faces[chunk[|chunk| - 1]].isFace3 then 1 else 0)
  }

  /** The counting loop of initMeshBuffers: three vertices, one triangle and three lines per Face3. */
  method CountGroup(faces: seq<Face>, chunk: seq<nat>) returns (nvertices: nat, ntris: nat, nlines: nat)
    requires forall k :: 0 <= k < |chunk| ==> chunk[k] < |faces|
    ensures ntris == Face3Count(faces, chunk)
    ensures nvertices == 3 * ntris && nlines == 3 * ntris
  {
    nvertices, ntris, nlines := 0, 0, 0;
    var f := 0;
    while f < |chunk|
      invariant 0 <= f <= |chunk|
      invariant ntris == Face3Count(faces, chunk[..f])
      invariant nvertices == 3 * ntris && nlines == 3 * ntris
    {
      assert chunk[..f + 1][..f] == chunk[..f];
      if faces[chunk[f]].isFace3 {
        nvertices := nvertices + 3;
        ntris := ntris + 1;
        nlines := nlines + 3;
      }
      f := f + 1;
    }
    assert chunk[..|chunk|] == chunk;
  }

  /** The size initMeshBuffers gives __faceArray: three per triangle and six per edge face. */
  function FaceArraySize(ntris: nat, edgeFaces: nat): (n: nat)
    ensures n >= 3 * ntris
    ensures edgeFaces == 0 ==> n == 3 * ntris
  {
    ntris * 3 + edgeFaces * 2 * 3
  }

  /**
   * initMeshBuffers for the element array: count the group's faces and allocate
   * __faceArray as a fresh zero-filled array of FaceArraySize entries.
   */
  method InitFaceArray(faces: seq<Face>, chunk: seq<nat>, edgeFaces: nat) returns (faceArray: array<int>)
    requires forall k :: 0 <= k < |chunk| ==> chunk[k] < |faces|
    ensures fresh(faceArray)
    ensures faceArray.Length == FaceArraySize(Face3Count(faces, chunk), edgeFaces)
    ensures forall k :: 0 <= k < faceArray.Length ==> faceArray[k] == 0
  {
    var nvertices, ntris, nlines := CountGroup(faces, chunk);
    faceArray := new int[FaceArraySize(ntris, edgeFaces)](_ => 0);
  }

  /**
   * The element writes of setMeshBuffers: with dirtyElements, slot k of the first
   * 3·(Face3 count) receives vertexIndex k as a 16-bit value; all later slots,
   * and the whole array without dirtyElements, keep what they held.
   */
  method FillFaceArray(faces: seq<Face>, chunk: seq<nat>, faceArray: array<int>, dirtyElements: bool)
    requires forall k :: 0 <= k < |chunk| ==> chunk[k] < |faces|
    requires faceArray.Length >= 3 * Face3Count(faces, chunk)
    modifies faceArray
    ensures dirtyElements ==> forall k :: 0 <= k < 3 * Face3Count(faces, chunk) ==> faceArray[k] == k % Uint16Range
    ensures dirtyElements ==> forall k :: 3 * Face3Count(faces, chunk) <= k < faceArray.Length ==> faceArray[k] == old(faceArray[k])
    ensures !dirtyElements ==> faceArray[..] == old(faceArray[..])
  {
    var vertexIndex := 0;
    var offsetFace := 0;
    var f := 0;
    while f < |chunk|
      invariant 0 <= f <= |chunk|
      invariant dirtyElements ==> offsetFace == 3 * Face3Count(faces, chunk[..f]) && vertexIndex == offsetFace
      invariant !dirtyElements ==> offsetFace == 0 && vertexIndex == 0
      invariant offsetFace <= 3 * Face3Count(faces, chunk)
      invariant forall k :: 0 <= k < offsetFace ==> faceArray[k] == k % Uint16Range
      invariant forall k :: offsetFace <= k < faceArray.Length ==> faceArray[k] == old(faceArray[k])
    {
      assert chunk[..f + 1][..f] == chunk[..f];
      Face3CountPrefix(faces, chunk, f + 1);
      if faces[chunk[f]].isFace3 && dirtyElements {
        faceArray[offsetFace] := vertexIndex % Uint16Range;
        faceArray[offsetFace + 1] := (vertexIndex + 1) % Uint16Range;
        faceArray[offsetFace + 2] := (vertexIndex + 2) % Uint16Range;
        offsetFace := offsetFace + 3;
        vertexIndex := vertexIndex + 3;
      }
      f := f + 1;
    }
    assert chunk[..|chunk|] == chunk;
  }

  /** A prefix of the chunk has no more Face3 faces than the whole chunk. */
  lemma {:induction false} Face3CountPrefix(faces: seq<Face>, chunk: seq<nat>, f: nat)
    requires forall k :: 0 <= k < |chunk| ==> chunk[k] < |faces|
    requires f <= |chunk|
    ensures Face3Count(faces, chunk[..f]) <= Face3Count(faces, chunk)
    decreases |chunk|
  {
    if f < |chunk| {
      var init := chunk[..|chunk| - 1];
      assert init[..f] == chunk[..f];
      Face3CountPrefix(faces, init, f);
    } else {
      assert chunk[..f] == chunk;
    }
  }

  /** Three indices per Face3 never exceed the group's vertex total. */
  lemma {:induction false} TrianglesWithinVertices(faces: seq<Face>, chunk: seq<nat>)
    requires forall k :: 0 <= k < |chunk| ==> chunk[k] < |faces|
    ensures 3 * Face3Count(faces, chunk) <= VertexSum(faces, chunk)
    decreases |chunk|
  {
    if chunk != [] {
      TrianglesWithinVertices(faces, chunk[..|chunk| - 1]);
    }
  }

  /**
   * For a group sortFacesByMaterial built (at most 65535 vertices), every index
   * written fits 16 bits, so the element array holds exactly 0, 1, 2, ...: the
   * 16-bit truncation never changes a value.
   */
  lemma GroupIndicesExact(faces: seq<Face>, g: Group, k: nat)
    requires GroupOk(faces, g)
    requires k < 3 * Face3Count(faces, g.faces)
    ensures k % Uint16Range == k
  {
    TrianglesWithinVertices(faces, g.faces);
  }
}
