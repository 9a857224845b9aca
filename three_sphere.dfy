/**
 * The topology of THREE.Sphere in the vendored Three.js (src/js/Three.js): which
 * vertices are created, how the grid of rows refers to them, and which triangles
 * are built from the grid. Vertex positions, normals and texture coordinates are
 * floating point and not part of this model.
 */
module ThreeSphere {
  import opened Arith

  /** A triangle by its three vertex indices (THREE.Face3's a, b, c). */
  datatype Face3 = Face3(a: nat, b: nat, c: nat)

  /** `segments || 8` / `|| 6`: an absent or zero segment count takes the default. */
  function OrDefault(segments: int, default: int): int
  {
    if segments == 0 then default else segments
  }

  /**
   * The vertex index row j of the grid holds in column i: both poles (rows 0 and
   * iVer) are one shared vertex each, every other row has iHor vertices of its own.
   */
  function GridIndex(iHor: nat, iVer: nat, j: nat, i: nat): nat
    requires iHor >= 3 && iVer >= 2 && j <= iVer && i < iHor
  {
    if j == 0 then 0
    else if j == iVer then (iVer - 1) * iHor + 1
    else 1 + (j - 1) * iHor + i
  }

  /** The number of vertices created before row j. */
  function VerticesBefore(iHor: nat, iVer: nat, j: nat): nat
    requires iHor >= 3 && iVer >= 2 && j <= iVer + 1
  {
    if j == 0 then 0 else if j <= iVer then 1 + (j - 1) * iHor else (iVer - 1) * iHor + 2
  }

  /** Triangles band r adds: one per column above the bottom band, one per column below the top band. */
  function BandFaces(iHor: nat, iVer: nat, r: nat): nat
  {
    (if r < iVer then iHor else 0) + (if r > 1 then iHor else 0)
  }

  /** The number of triangles built before band j. */
  function FacesBefore(iHor: nat, iVer: nat, j: nat): nat
    requires j >= 1
    decreases j
  {
    if j == 1 then 0 else FacesBefore(iHor, iVer, j - 1) + BandFaces(iHor, iVer, j - 1)
  }

  lemma {:induction false} FacesBeforeClosed(iHor: nat, iVer: nat, j: nat)
    requires iVer >= 2 && 2 <= j <= iVer
    ensures FacesBefore(iHor, iVer, j) == (2 * j - 3) * iHor
    decreases j
  {
    if j > 2 {
      FacesBeforeClosed(iHor, iVer, j - 1);
      MulStep(2 * j - 5, iHor);
      MulStep(2 * j - 4, iHor);
    }
  }

  /** All bands together: two triangles per column for each of the iVer - 1 inner rows. */
  lemma FacesTotal(iHor: nat, iVer: nat)
    requires iVer >= 2
    ensures FacesBefore(iHor, iVer, iVer + 1) == 2 * iHor * (iVer - 1)
  {
    FacesBeforeClosed(iHor, iVer, iVer);
    MulStep(2 * iVer - 3, iHor);
    assert 2 * iHor * (iVer - 1) == (2 * iVer - 2) * iHor;
  }

  /** The next column round the row. */
  function Next(iHor: nat, i: nat): nat
    requires i < iHor
  {
    if i == iHor - 1 then 0 else i + 1
  }

  /** A triangle whose corners are three different existing vertices. */
  predicate ProperFace(f: Face3, vertexCount: nat)
  {
    f.a < vertexCount && f.b < vertexCount && f.c < vertexCount &&
    f.a != f.b && f.b != f.c && f.a != f.c
  }

  lemma MulStep(a: int, h: int)
    ensures a * h + h == (a + 1) * h
  {
  }

  /** An inner row's indices lie below the next row's first index. */
  lemma InnerRowBelow(iHor: nat, iVer: nat, j: nat, i: nat)
    requires iHor >= 3 && iVer >= 2 && 0 < j < iVer && i < iHor
    ensures GridIndex(iHor, iVer, j, i) < 1 + j * iHor
    ensures 1 + j * iHor <= 1 + (iVer - 1) * iHor
  {
    MulStep(j - 1, iHor);
    MulLe(j, iVer - 1, iHor);
  }

  /** Grid indices grow from row to row and differ within an inner row, and all are in range. */
  lemma GridOrder(iHor: nat, iVer: nat, j1: nat, i1: nat, j2: nat, i2: nat)
    requires iHor >= 3 && iVer >= 2 && j1 <= iVer && j2 <= iVer && i1 < iHor && i2 < iHor
    ensures GridIndex(iHor, iVer, j1, i1) < VerticesBefore(iHor, iVer, iVer + 1)
    ensures j1 < j2 ==> GridIndex(iHor, iVer, j1, i1) < GridIndex(iHor, iVer, j2, i2)
    ensures j1 == j2 && 0 < j1 < iVer && i1 != i2 ==> GridIndex(iHor, iVer, j1, i1) != GridIndex(iHor, iVer, j2, i2)
  {
    if 0 < j1 < iVer {
      InnerRowBelow(iHor, iVer, j1, i1);
      if j1 < j2 < iVer {
        MulLe(j1, j2 - 1, iHor);
      }
    }
  }

  /** The triangles of a band between rows j - 1 and j, column i, are proper. */
  lemma BandFacesProper(iHor: nat, iVer: nat, j: nat, i: nat)
    requires iHor >= 3 && iVer >= 2 && 1 <= j <= iVer && i < iHor
    ensures var vc := VerticesBefore(iHor, iVer, iVer + 1);
      var p1, p2 := GridIndex(iHor, iVer, j, Next(iHor, i)), GridIndex(iHor, iVer, j, i);
      var p3, p4 := GridIndex(iHor, iVer, j - 1, i), GridIndex(iHor, iVer, j - 1, Next(iHor, i));
      (j < iVer ==> ProperFace(Face3(p1, p2, p3), vc)) && (j > 1 ==> ProperFace(Face3(p1, p3, p4), vc))
  {
    var n := Next(iHor, i);
    GridOrder(iHor, iVer, j, n, j, i);
    GridOrder(iHor, iVer, j - 1, i, j, n);
    GridOrder(iHor, iVer, j - 1, i, j, i);
    GridOrder(iHor, iVer, j - 1, n, j, n);
    GridOrder(iHor, iVer, j - 1, i, j - 1, n);
    GridOrder(iHor, iVer, j, i, j, i);
    GridOrder(iHor, iVer, j - 1, i, j - 1, i);
    GridOrder(iHor, iVer, j - 1, n, j - 1, n);
    GridOrder(iHor, iVer, j, n, j, n);
  }

  /** The vertex grid aVtc: row j lists, for each column, the vertex used there. */
  method BuildGrid(iHor: nat, iVer: nat) returns (rows: seq<seq<nat>>, vertexCount: nat)
    requires iHor >= 3 && iVer >= 2
    ensures |rows| == iVer + 1 && vertexCount == (iVer - 1) * iHor + 2
    ensures forall j :: 0 <= j < |rows| ==> |rows[j]| == iHor
    ensures forall j, i :: 0 <= j < |rows| && 0 <= i < iHor ==> rows[j][i] == GridIndex(iHor, iVer, j, i)
  {
    rows := [];
    vertexCount := 0;
    var j := 0;
    while j < iVer + 1
      invariant 0 <= j <= iVer + 1 && |rows| == j
      invariant vertexCount == VerticesBefore(iHor, iVer, j)
      invariant forall jj :: 0 <= jj < j ==> |rows[jj]| == iHor
      invariant forall jj, i :: 0 <= jj < j && 0 <= i < iHor ==> rows[jj][i] == GridIndex(iHor, iVer, jj, i)
    {
      var row: seq<nat> := [];
      var oVtx := 0;
      var i := 0;
      while i < iHor
        invariant 0 <= i <= iHor && |row| == i
        invariant vertexCount == VerticesBefore(iHor, iVer, j) + (if (j == 0 || j == iVer) && i > 0 then 1 else i)
        invariant forall ii :: 0 <= ii < i ==> row[ii] == GridIndex(iHor, iVer, j, ii)
        invariant i > 0 ==> oVtx == row[i - 1]
      {
        if !((j == 0 || j == iVer) && i > 0) {
          vertexCount := vertexCount + 1;
          oVtx := vertexCount - 1;
        }
        row := row + [oVtx];
        i := i + 1;
      }
      rows := rows + [row];
      j := j + 1;
    }
  }

  /**
   * new THREE.Sphere(radius, segmentsWidth, segmentsHeight), topology only: with
   * iHor = max(3, segmentsWidth || 8) columns and iVer = max(2, segmentsHeight || 6)
   * bands, (iVer - 1)·iHor + 2 vertices and 2·iHor·(iVer - 1) triangles, each made
   * of three different existing vertices.
   */
  method Sphere(segmentsWidth: int, segmentsHeight: int) returns (vertexCount: nat, faces: seq<Face3>)
    ensures var iHor, iVer := Max(3, OrDefault(segmentsWidth, 8)), Max(2, OrDefault(segmentsHeight, 6));
      vertexCount == (iVer - 1) * iHor + 2 && |faces| == 2 * iHor * (iVer - 1)
    ensures forall k :: 0 <= k < |faces| ==> ProperFace(faces[k], vertexCount)
  {
    var iHor: nat := Max(3, OrDefault(segmentsWidth, 8));
    var iVer: nat := Max(2, OrDefault(segmentsHeight, 6));
    var rows;
    rows, vertexCount := BuildGrid(iHor, iVer);
    faces := [];
    var j := 1;
    while j < iVer + 1
      invariant 1 <= j <= iVer + 1
      invariant |faces| == FacesBefore(iHor, iVer, j)
      invariant forall k :: 0 <= k < |faces| ==> ProperFace(faces[k], vertexCount)
    {
      var i := 0;
      ghost var before := |faces|;
      while i < iHor
        invariant 0 <= i <= iHor
        invariant |faces| == before + (if 1 < j < iVer then 2 * i else i)
        invariant forall k :: 0 <= k < |faces| ==> ProperFace(faces[k], vertexCount)
      {
        var bEnd := i == iHor - 1;
        var p1 := rows[j][if bEnd then 0 else i + 1];
        var p2 := rows[j][if bEnd then iHor - 1 else i];
        var p3 := rows[j - 1][if bEnd then iHor - 1 else i];
        var p4 := rows[j - 1][if bEnd then 0 else i + 1];
        BandFacesProper(iHor, iVer, j, i);
        if j < iVer {
          faces := faces + [Face3(p1, p2, p3)];
        }
        if j > 1 {
          faces := faces + [Face3(p1, p3, p4)];
        }
        i := i + 1;
      }
      assert BandFaces(iHor, iVer, j) == if 1 < j < iVer then 2 * iHor else iHor;
      j := j + 1;
    }
    FacesTotal(iHor, iVer);
  }
}
