/**
 * The array-writing helpers of the vendored Three.js matrices (src/js/Three.js)
 * and the WebGL renderer's power-of-two test on texture sizes.
 */
module ThreeMatrix {
  import opened Arith

  /** Entry (row i, column j) of a 16-element array in column-major order. */
  function ColumnMajor(flat: seq<real>, i: nat, j: nat): real
    requires |flat| >= 16 && i < 4 && j < 4
  {
    flat[4 * j + i]
  }

  /** Entry (row i, column j) of a 9-element array in column-major order. */
  function ColumnMajor3(m: seq<real>, i: nat, j: nat): real
    requires |m| >= 9 && i < 3 && j < 3
  {
    m[3 * j + i]
  }

  class Matrix4 {
    var n11: real
    var n12: real
    var n13: real
    var n14: real
    var n21: real
    var n22: real
    var n23: real
    var n24: real
    var n31: real
    var n32: real
    var n33: real
    var n34: real
    var n41: real
    var n42: real
    var n43: real
    var n44: real

    /** The entry in row i and column j (the field n<i+1><j+1>). */
    function Entry(i: nat, j: nat): real
      requires i < 4 && j < 4
      reads this
    {
      if i == 0 then (if j == 0 then n11 else if j == 1 then n12 else if j == 2 then n13 else n14)
      else if i == 1 then (if j == 0 then n21 else if j == 1 then n22 else if j == 2 then n23 else n24)
      else if i == 2 then (if j == 0 then n31 else if j == 1 then n32 else if j == 2 then n33 else n34)
      else (if j == 0 then n41 else if j == 1 then n42 else if j == 2 then n43 else n44)
    }

    /** The sixteen entries column by column. */
    function Flattened(): (s: seq<real>)
      reads this
      ensures |s| == 16
      ensures forall i: nat, j: nat :: i < 4 && j < 4 ==> ColumnMajor(s, i, j) == Entry(i, j)
    {
      [n11, n21, n31, n41, n12, n22, n32, n42, n13, n23, n33, n43, n14, n24, n34, n44]
    }

    /**
     * flattenToArray: the first 16 slots of flat receive the matrix in column-major
     * order, the order WebGL's uniformMatrix4fv expects; later slots are untouched.
     */
    method FlattenToArray(flat: array<real>) returns (result: array<real>)
      requires flat.Length >= 16
      modifies flat
      ensures result == flat
      ensures flat[..16] == Flattened() && flat[16..] == old(flat[16..])
    {
      var want := Flattened();
      forall i | 0 <= i < 16 {
        flat[i] := want[i];
      }
      result := flat;
    }
  }

  class Matrix3 {
    /** The nine entries, in column-major order. */
    var m: array<real>

    /**
     * transposeIntoArray: the first nine slots of r receive the transpose of m, so
     * read in column-major order r holds m's entry (j, i) at (i, j); m is unchanged.
     * The renderer passes an array distinct from m.
     */
    method TransposeIntoArray(r: array<real>)
      requires m.Length >= 9 && r.Length >= 9 && r != m
      modifies r
      ensures forall i: nat, j: nat :: i < 3 && j < 3 ==> ColumnMajor3(r[..], i, j) == ColumnMajor3(m[..], j, i)
      ensures r[9..] == old(r[9..])
    {
      r[0] := m[0];
      r[1] := m[3];
      r[2] := m[6];
      r[3] := m[1];
      r[4] := m[4];
      r[5] := m[7];
      r[6] := m[2];
      r[7] := m[5];
      r[8] := m[8];
    }
  }

  /** Transposing twice by transposeIntoArray gives the original entries back. */
  lemma TransposeTwice(m: seq<real>, t: seq<real>, u: seq<real>)
    requires |m| >= 9 && |t| >= 9 && |u| >= 9
    requires forall i: nat, j: nat :: i < 3 && j < 3 ==> ColumnMajor3(t, i, j) == ColumnMajor3(m, j, i)
    requires forall i: nat, j: nat :: i < 3 && j < 3 ==> ColumnMajor3(u, i, j) == ColumnMajor3(t, j, i)
    ensures u[..9] == m[..9]
  {
    forall k | 0 <= k < 9 ensures u[k] == m[k] {
      var i, j := k % 3, k / 3;
      assert k == 3 * j + i;
      assert ColumnMajor3(u, i, j) == ColumnMajor3(t, j, i) == ColumnMajor3(m, i, j);
    }
  }

  // ---------------------------------------------------------------------------
  // isPowerOfTwo
  // ---------------------------------------------------------------------------

  /** Bitwise AND of two naturals, bit by bit from the lowest. */
  function BitAnd(a: nat, b: nat): nat
    decreases a
  {
    if a == 0 || b == 0 then 0
    else 2 * BitAnd(a / 2, b / 2) + (if a % 2 == 1 && b % 2 == 1 then 1 else 0)
  }

  /** ToUint32: the 32 bits JavaScript's bitwise operators see, read unsigned. */
  function ToUint32(x: int): (u: nat)
    ensures u < 0x1_0000_0000
  {
    x % 0x1_0000_0000
  }

  /** v is 2^k for some k >= 0. */
  predicate IsPow2(v: nat)
    decreases v
  {
    v == 1 || (v >= 2 && v % 2 == 0 && IsPow2(v / 2))
  }

  /**
   * isPowerOfTwo: `(value & (value - 1)) == 0`. The AND of two int32 values is
   * zero exactly when the AND of their unsigned readings is, so the test holds
   * exactly when the low 32 bits of value are 0 or a power of two (0 passes
   * because 0 & -1 is 0).
   */
  function IsPowerOfTwo(value: int): (b: bool)
    ensures b <==> ToUint32(value) == 0 || IsPow2(ToUint32(value))
  {
    var v := ToUint32(value);
    if v >= 1 then
      assert ToUint32(value - 1) == v - 1;
      BitAndPredecessor(v);
      BitAnd(v, ToUint32(value - 1)) == 0
    else
      BitAnd(v, ToUint32(value - 1)) == 0
  }

  lemma {:induction false} BitAndSelf(a: nat)
    ensures BitAnd(a, a) == a
    decreases a
  {
    if a != 0 {
      BitAndSelf(a / 2);
    }
  }

  /** For v >= 1, v & (v - 1) clears v's lowest set bit, so it is 0 exactly for powers of two. */
  lemma {:induction false} BitAndPredecessor(v: nat)
    requires v >= 1
    ensures BitAnd(v, v - 1) == 0 <==> IsPow2(v)
    decreases v
  {
    if v % 2 == 1 {
      var w := v / 2;
      if w > 0 {
        assert (v - 1) / 2 == w && (v - 1) % 2 == 0;
        BitAndSelf(w);
        assert BitAnd(v, v - 1) == 2 * w;
      }
    } else {
      var w := v / 2;
      assert w >= 1 && (v - 1) / 2 == w - 1 && (v - 1) % 2 == 1;
      BitAndPredecessor(w);
      assert BitAnd(v, v - 1) == 2 * BitAnd(w, w - 1);
    }
  }

  lemma {:induction false} Pow2IsPow2(k: nat)
    ensures IsPow2(Pow2(k))
  {
    if k > 0 {
      Pow2IsPow2(k - 1);
      assert Pow2(k) / 2 == Pow2(k - 1);
    }
  }

  /** Every power of two a texture edge can have passes the test. */
  lemma PowersOfTwoPass(k: nat)
    requires Pow2(k) < 0x1_0000_0000
    ensures IsPowerOfTwo(Pow2(k))
  {
    Pow2IsPow2(k);
    assert ToUint32(Pow2(k)) == Pow2(k);
  }
}
