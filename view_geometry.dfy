/**
 * The exact, non-floating-point parts of the viewer's geometry (src/js/libpannellum.js):
 * the cube's corner table, the 3x3 to 4x4 padding and the 4x4 transpose, and the
 * reduction of four corner out-codes to the verdict "the square may be in view".
 */
module ViewGeometry {
  /** The four corners (x, y, z) of face s, in the order f, b, u, d, l, r. */
  function CubeFace(s: nat): (v: seq<int>)
    requires s < 6
    ensures |v| == 12
  {
    if s == 0 then [-1,  1, -1,  1,  1, -1,  1, -1, -1, -1, -1, -1]
    else if s == 1 then [1,  1,  1, -1,  1,  1, -1, -1,  1,  1, -1,  1]
    else if s == 2 then [-1,  1,  1,  1,  1,  1,  1,  1, -1, -1,  1, -1]
    else if s == 3 then [-1, -1, -1,  1, -1, -1,  1, -1,  1, -1, -1,  1]
    else if s == 4 then [-1,  1,  1, -1,  1, -1, -1, -1, -1, -1, -1,  1]
    else [1,  1, -1,  1,  1,  1,  1, -1,  1,  1, -1, -1]
  }

  /** createCube: the six faces' corners, one after the other (72 numbers). */
  function CreateCube(): (v: seq<int>)
    ensures |v| == 72
  {
    CubeFace(0) + CubeFace(1) + CubeFace(2) + CubeFace(3) + CubeFace(4) + CubeFace(5)
  }

  /** The twelve numbers the root node of side s takes: vertices.slice(12 s, 12 s + 12). */
  function FaceVertices(s: nat): (v: seq<int>)
    requires s < 6
    ensures |v| == 12
  {
    CreateCube()[12 * s .. 12 * s + 12]
  }

  lemma SliceMiddle(x: seq<int>, y: seq<int>, z: seq<int>)
    ensures (x + y + z)[|x| .. |x| + |y|] == y
  {
  }

  /** Slice s of six twelve-number blocks laid end to end is block s. */
  lemma SliceOfSix(b0: seq<int>, b1: seq<int>, b2: seq<int>, b3: seq<int>, b4: seq<int>, b5: seq<int>, s: nat)
    requires |b0| == |b1| == |b2| == |b3| == |b4| == |b5| == 12 && s < 6
    ensures (b0 + b1 + b2 + b3 + b4 + b5)[12 * s .. 12 * s + 12] == [b0, b1, b2, b3, b4, b5][s]
  {
    var c := b0 + b1 + b2 + b3 + b4 + b5;
    if s == 0 {
      SliceMiddle([], b0, b1 + b2 + b3 + b4 + b5);
      assert c == [] + b0 + (b1 + b2 + b3 + b4 + b5);
    } else if s == 1 {
      SliceMiddle(b0, b1, b2 + b3 + b4 + b5);
      assert c == b0 + b1 + (b2 + b3 + b4 + b5);
    } else if s == 2 {
      SliceMiddle(b0 + b1, b2, b3 + b4 + b5);
      assert c == (b0 + b1) + b2 + (b3 + b4 + b5);
    } else if s == 3 {
      SliceMiddle(b0 + b1 + b2, b3, b4 + b5);
      assert c == (b0 + b1 + b2) + b3 + (b4 + b5);
    } else if s == 4 {
      SliceMiddle(b0 + b1 + b2 + b3, b4, b5);
    } else {
      SliceMiddle(b0 + b1 + b2 + b3 + b4, b5, []);
      assert c == c + [];
    }
  }

  /** The slice a root takes is exactly its face's corners. */
  lemma FaceVerticesAreFace(s: nat)
    requires s < 6
    ensures FaceVertices(s) == CubeFace(s)
  {
    SliceOfSix(CubeFace(0), CubeFace(1), CubeFace(2), CubeFace(3), CubeFace(4), CubeFace(5), s);
  }

  /** The axis (0 = x, 1 = y, 2 = z) a face is perpendicular to, and the side of it. */
  function FaceAxis(s: nat): nat
    requires s < 6
  {
    [2, 2, 1, 1, 0, 0][s]
  }

  function FaceSign(s: nat): int
    requires s < 6
  {
    [-1, 1, 1, -1, -1, 1][s]
  }

  /**
   * Each root tile (its corners are CubeFace(s), by FaceVerticesAreFace) lies on
   * its own face of the cube: all four corners share the
   * face's fixed coordinate (front z = -1, back z = 1, up y = 1, down y = -1,
   * left x = -1, right x = 1), and corners 0 and 2 are diagonally opposite on it.
   */
  lemma FaceVerticesOnFace(s: nat)
    requires s < 6
    ensures var v := CubeFace(s);
      forall k :: 0 <= k < 4 ==> v[3 * k + FaceAxis(s)] == FaceSign(s)
    ensures var v := CubeFace(s);
      forall a :: 0 <= a < 3 && a != FaceAxis(s) ==> v[a] == -v[6 + a]
  {
    var v, axis, sign := CubeFace(s), FaceAxis(s), FaceSign(s);
    if s == 0 {
      assert v == CubeFace(0) && axis == 2 && sign == -1;
    } else if s == 1 {
      assert v == CubeFace(1) && axis == 2 && sign == 1;
    } else if s == 2 {
      assert v == CubeFace(2) && axis == 1 && sign == 1;
    } else if s == 3 {
      assert v == CubeFace(3) && axis == 1 && sign == -1;
    } else if s == 4 {
      assert v == CubeFace(4) && axis == 0 && sign == -1;
    } else {
      assert v == CubeFace(5) && axis == 0 && sign == 1;
    }
    CornersOnFace(v, axis, sign);
  }

  /** Four corners with the same coordinate on one axis, corners 0 and 2 opposite on the others. */
  lemma CornersOnFace(v: seq<int>, axis: nat, sign: int)
    requires |v| == 12 && axis < 3
    requires v[axis] == sign && v[3 + axis] == sign && v[6 + axis] == sign && v[9 + axis] == sign
    requires (axis != 0 ==> v[0] == -v[6]) && (axis != 1 ==> v[1] == -v[7]) && (axis != 2 ==> v[2] == -v[8])
    ensures forall k :: 0 <= k < 4 ==> v[3 * k + axis] == sign
    ensures forall a :: 0 <= a < 3 && a != axis ==> v[a] == -v[6 + a]
  {
    forall k | 0 <= k < 4 ensures v[3 * k + axis] == sign {
      assert k == 0 || k == 1 || k == 2 || k == 3;
    }
  }

  // ---------------------------------------------------------------------------
  // Matrices, stored row by row in flat sequences
  // ---------------------------------------------------------------------------

  /** Entry (i, j) of a 4x4 and of a 3x3 matrix. */
  function Entry4(m: seq<real>, i: nat, j: nat): real
    requires |m| == 16 && i < 4 && j < 4
  {
    m[4 * i + j]
  }

  function Entry3(m: seq<real>, i: nat, j: nat): real
    requires |m| == 9 && i < 3 && j < 3
  {
    m[3 * i + j]
  }

  /** makeMatrix4: the 3x3 rotation in the upper left, zeros beside and below it, 1 in the corner. */
  function MakeMatrix4(m: seq<real>): (r: seq<real>)
    requires |m| == 9
    ensures |r| == 16
    ensures forall i: nat, j: nat :: i < 3 && j < 3 ==> Entry4(r, i, j) == Entry3(m, i, j)
    ensures r[3] == 0.0 && r[7] == 0.0 && r[11] == 0.0
    ensures r[12] == 0.0 && r[13] == 0.0 && r[14] == 0.0 && r[15] == 1.0
  {
    [m[0], m[1], m[2], 0.0,
     m[3], m[4], m[5], 0.0,
     m[6], m[7], m[8], 0.0,
     0.0,  0.0,  0.0,  1.0]
  }

  /** transposeMatrix4: entry (i, j) of the result is entry (j, i) of the argument. */
  function TransposeMatrix4(m: seq<real>): (r: seq<real>)
    requires |m| == 16
    ensures |r| == 16
    ensures forall i: nat, j: nat :: i < 4 && j < 4 ==> Entry4(r, i, j) == Entry4(m, j, i)
  {
    [m[0], m[4], m[8],  m[12],
     m[1], m[5], m[9],  m[13],
     m[2], m[6], m[10], m[14],
     m[3], m[7], m[11], m[15]]
  }

  /** The 3x3 transpose, as a reference. */
  function Transpose3(m: seq<real>): (r: seq<real>)
    requires |m| == 9
    ensures |r| == 9
    ensures forall i: nat, j: nat :: i < 3 && j < 3 ==> Entry3(r, i, j) == Entry3(m, j, i)
  {
    [m[0], m[3], m[6],
     m[1], m[4], m[7],
     m[2], m[5], m[8]]
  }

  lemma FlatIndex4(r: seq<real>, s: seq<real>)
    requires |r| == 16 && |s| == 16
    requires forall i: nat, j: nat :: i < 4 && j < 4 ==> Entry4(r, i, j) == Entry4(s, i, j)
    ensures r == s
  {
    forall k | 0 <= k < 16 ensures r[k] == s[k] {
      var i, j := k / 4, k % 4;
      assert k == 4 * i + j;
      assert Entry4(r, i, j) == Entry4(s, i, j);
    }
  }

  /** Transposing twice gives the matrix back. */
  lemma TransposeInvolution(m: seq<real>)
    requires |m| == 16
    ensures TransposeMatrix4(TransposeMatrix4(m)) == m
  {
    FlatIndex4(TransposeMatrix4(TransposeMatrix4(m)), m);
  }

  /** Padding commutes with transposition: the renderer uploads the padded transpose of the rotation. */
  lemma TransposePadded(m: seq<real>)
    requires |m| == 9
    ensures TransposeMatrix4(MakeMatrix4(m)) == MakeMatrix4(Transpose3(m))
  {
    var a := TransposeMatrix4(MakeMatrix4(m));
    var b := MakeMatrix4(Transpose3(m));
    forall i: nat, j: nat | i < 4 && j < 4 ensures Entry4(a, i, j) == Entry4(b, i, j) {
      if i < 3 && j < 3 {
        assert Entry4(a, i, j) == Entry4(MakeMatrix4(m), j, i) == Entry3(m, j, i);
      }
    }
    FlatIndex4(a, b);
  }

  // ---------------------------------------------------------------------------
  // Out-codes and the square-in-view verdict
  // ---------------------------------------------------------------------------

  /** checkInView's result: -1 left of/below the window, 1 right of/above it, 0 inside; z: 1 outside depth. */
  datatype OutCode = OutCode(x: int, y: int, z: int)

  predicate ValidCode(c: OutCode)
  {
    -1 <= c.x <= 1 && -1 <= c.y <= 1 && 0 <= c.z <= 1
  }

  /** checkInView from the window coordinates of a projected corner. */
  function InViewCode(winX: real, winY: real, winZ: real): (c: OutCode)
    ensures ValidCode(c)
    ensures c.x == -1 <==> winX < 0.0
    ensures c.x == 1 <==> winX > 1.0
    ensures c.y == -1 <==> winY < 0.0
    ensures c.y == 1 <==> winY > 1.0
    ensures c.z == 1 <==> winZ < 0.0 || winZ > 1.0
  {
    var x := if winX > 1.0 then 1 else if winX < 0.0 then -1 else 0;
    var y := if winY > 1.0 then 1 else if winY < 0.0 then -1 else 0;
    var z := if winZ < 0.0 || winZ > 1.0 then 1 else 0;
    OutCode(x, y, z)
  }

  /** checkSquareInView on the four corners' codes, summing each component. */
  function SquareInView(c1: OutCode, c2: OutCode, c3: OutCode, c4: OutCode): (r: bool)
    requires ValidCode(c1) && ValidCode(c2) && ValidCode(c3) && ValidCode(c4)
    ensures !r <==>
      (c1.x == c2.x == c3.x == c4.x != 0) ||
      (c1.y == c2.y == c3.y == c4.y != 0) ||
      (c1.z == c2.z == c3.z == c4.z == 1)
  {
    var testX := c1.x + c2.x + c3.x + c4.x;
    var testY := c1.y + c2.y + c3.y + c4.y;
    var testZ := c1.z + c2.z + c3.z + c4.z;
    !(testX == -4 || testX == 4 || testY == -4 || testY == 4 || testZ == 4)
  }

  /**
   * A tile is culled exactly when all four of its projected corners lie beyond the
   * same edge of the window (or all outside the depth range); a tile whose corners
   * straddle the window, or lie beyond different edges, is kept.
   */
  lemma CulledIffAllBeyondOneEdge(w: seq<real>)
    requires |w| == 12
    ensures var c1, c2, c3, c4 := InViewCode(w[0], w[1], w[2]), InViewCode(w[3], w[4], w[5]),
                                  InViewCode(w[6], w[7], w[8]), InViewCode(w[9], w[10], w[11]);
      !SquareInView(c1, c2, c3, c4) <==>
        (w[0] < 0.0 && w[3] < 0.0 && w[6] < 0.0 && w[9] < 0.0) ||
        (w[0] > 1.0 && w[3] > 1.0 && w[6] > 1.0 && w[9] > 1.0) ||
        (w[1] < 0.0 && w[4] < 0.0 && w[7] < 0.0 && w[10] < 0.0) ||
        (w[1] > 1.0 && w[4] > 1.0 && w[7] > 1.0 && w[10] > 1.0) ||
        ((w[2] < 0.0 || w[2] > 1.0) && (w[5] < 0.0 || w[5] > 1.0) &&
         (w[8] < 0.0 || w[8] > 1.0) && (w[11] < 0.0 || w[11] > 1.0))
  {
  }
}
