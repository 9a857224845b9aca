/**
 * The quadtree child rule of the viewer (src/js/libpannellum.js, testMultiresNode):
 * which tiles of level + 1 a visible tile of a level spawns, with the pruning of the
 * last column and row, and how that rule lines up with the grids the generator writes.
 *
 * The viewer computes a level's edge as cubeResolution / 2^(maxLevel - level) in
 * floating point (exact here, a division by a power of two), while the generator
 * halves with floor at each level. AsWrittenParams follows the viewer's code;
 * CorrectedParams uses the generator's edge and a non-strict half-tile test, and
 * is the rule the renderer model uses.
 */
module TileChildren {
  import opened Arith
  import opened MultiresGenerate

  /** A tile coordinate inside one face and level: column x, row y. */
  datatype Cell = Cell(x: int, y: int)

  /** What the child rule needs to know about a level: the index of its last column/row and whether that one is small. */
  datatype ChildParams = ChildParams(numTiles: int, small: bool)

  /** Math.ceil on a real. */
  function Ceil(r: real): (n: int)
    ensures n as real >= r && (n as real) - 1.0 < r
  {
    -((-r).Floor)
  }

  /** Truncation toward zero, as JavaScript's % uses it. */
  function Trunc(r: real): int
  {
    if r >= 0.0 then r.Floor else -((-r).Floor)
  }

  /** JavaScript's % on numbers: the remainder takes the sign of the dividend. */
  function FMod(a: real, b: real): (m: real)
    requires b > 0.0
    ensures a >= 0.0 ==> 0.0 <= m < b
  {
    FModBound(a, b);
    a - b * Trunc(a / b) as real
  }

  lemma PositiveProduct(a: real, b: real)
    requires a > 0.0 && b >= 0.0
    ensures a * b >= 0.0 && (b > 0.0 ==> a * b > 0.0)
  {
  }

  lemma DivTimes(a: real, b: real)
    requires b > 0.0
    ensures b * (a / b) == a && (a >= 0.0 ==> a / b >= 0.0)
  {
  }

  lemma RemainderBounds(a: real, b: real, q: real, k: real)
    requires b > 0.0 && b * q == a && k <= q < k + 1.0
    ensures 0.0 <= a - b * k < b
  {
    var r := q - k;
    assert a - b * k == b * r;
    assert b - b * r == b * (1.0 - r);
    PositiveProduct(b, r);
    PositiveProduct(b, 1.0 - r);
  }

  lemma FModBound(a: real, b: real)
    requires b > 0.0
    ensures a >= 0.0 ==> 0.0 <= a - b * Trunc(a / b) as real < b
  {
    if a >= 0.0 {
      DivTimes(a, b);
      RemainderBounds(a, b, a / b, Trunc(a / b) as real);
    }
  }

  /** The viewer's edge length of a level: cubeResolution / Math.pow(2, maxLevel - level). */
  function ViewerLevelSize(cubeResolution: int, maxLevel: int, level: int): (size: real)
    requires level <= maxLevel
    ensures size * Pow2(maxLevel - level) as real == cubeResolution as real
    ensures cubeResolution >= 0 ==> size >= 0.0
  {
    cubeResolution as real / Pow2(maxLevel - level) as real
  }

  /** numTiles and the doubleTileSize < tileResolution test as the viewer computes them. */
  function AsWrittenParams(cubeResolution: int, maxLevel: int, tileResolution: int, level: int): (p: ChildParams)
    requires level <= maxLevel && tileResolution > 0
    ensures var r := ViewerLevelSize(cubeResolution, maxLevel, level) / tileResolution as real;
      p.numTiles as real < r <= (p.numTiles + 1) as real
    ensures var m := FMod(ViewerLevelSize(cubeResolution, maxLevel, level), tileResolution as real);
      p.small <==> m != 0.0 && 2.0 * m < tileResolution as real
  {
    var size := ViewerLevelSize(cubeResolution, maxLevel, level);
    var t := tileResolution as real;
    var doubled := FMod(size, t) * 2.0;
    var doubleTileSize := if doubled == 0.0 then 2.0 * t else doubled;
    ChildParams(Ceil(size / t) - 1, doubleTileSize < t)
  }

  /**
   * The children of tile (x, y) in the order the viewer creates them: (2x, 2y);
   * (2x+1, 2y) unless x is the last column and it is small; (2x+1, 2y+1) unless
   * either is cut; (2x, 2y+1) unless y is the last row and it is small.
   */
  function Children(x: int, y: int, p: ChildParams): (cs: seq<Cell>)
    ensures Cell(2 * x, 2 * y) in cs
    ensures Cell(2 * x + 1, 2 * y) in cs <==> !(x == p.numTiles && p.small)
    ensures Cell(2 * x, 2 * y + 1) in cs <==> !(y == p.numTiles && p.small)
    ensures Cell(2 * x + 1, 2 * y + 1) in cs <==> !(x == p.numTiles && p.small) && !(y == p.numTiles && p.small)
    ensures forall c :: c in cs ==> c.x / 2 == x && c.y / 2 == y
  {
    var cutX := x == p.numTiles && p.small;
    var cutY := y == p.numTiles && p.small;
    [Cell(2 * x, 2 * y)]
      + (if !cutX then [Cell(2 * x + 1, 2 * y)] else [])
      + (if !cutX && !cutY then [Cell(2 * x + 1, 2 * y + 1)] else [])
      + (if !cutY then [Cell(2 * x, 2 * y + 1)] else [])
  }

  /** The rule with the generator's floor-halved edge and a last tile of at most half a tile counted as small. */
  function CorrectedParams(cubeSize: nat, maxLevel: int, tileResolution: nat, level: int): (p: ChildParams)
    requires level <= maxLevel && tileResolution > 0
    ensures var size := LevelSize(cubeSize, maxLevel, level);
      size > 0 ==> 0 <= p.numTiles && p.numTiles * tileResolution < size <= (p.numTiles + 1) * tileResolution
    ensures var size := LevelSize(cubeSize, maxLevel, level);
      p.small <==> 2 * (if size % tileResolution == 0 then tileResolution else size % tileResolution) <= tileResolution
  {
    var size := LevelSize(cubeSize, maxLevel, level);
    GridCountBounds(size, tileResolution);
    LastTileIsRemainder(size, tileResolution);
    ChildParams(GridCount(size, tileResolution) - 1, 2 * LastTile(size, tileResolution) <= tileResolution)
  }

  /** Tile (x, y) exists in the generator's grid of the level. */
  predicate InGeneratedGrid(cubeSize: nat, maxLevel: int, tileSize: nat, level: int, c: Cell)
    requires tileSize > 0 && level <= maxLevel
  {
    var n := GridCount(LevelSize(cubeSize, maxLevel, level), tileSize);
    0 <= c.x < n && 0 <= c.y < n
  }

  /** A column whose start lies before the edge is inside the grid. */
  lemma BelowGrid(c: nat, t: nat, s2: nat)
    requires t > 0 && c * t < s2
    ensures c < GridCount(s2, t)
  {
    if c >= GridCount(s2, t) {
      MulLe(GridCount(s2, t), c, t);
    }
  }

  lemma ChildAxisSound(s: nat, s2: nat, t: nat, x: nat, small: bool, odd: bool)
    requires t > 0 && s == s2 / 2 && x < GridCount(s, t)
    requires small <==> 2 * LastTile(s, t) <= t
    requires odd ==> !(x == GridCount(s, t) - 1 && small)
    ensures 2 * x + (if odd then 1 else 0) < GridCount(s2, t)
  {
    var n := GridCount(s, t);
    var last := (n - 1) * t;
    var xt := x * t;
    MulLe(x, n - 1, t);
    assert xt <= last < s && 2 * s <= s2;
    if !odd {
      assert (2 * x) * t == 2 * xt;
      BelowGrid(2 * x, t, s2);
    } else {
      assert (2 * x + 1) * t == 2 * xt + t;
      if x < n - 1 {
        MulLe(x + 1, n - 1, t);
        assert (x + 1) * t == xt + t;
      } else {
        assert 2 * (s - last) > t;
      }
      BelowGrid(2 * x + 1, t, s2);
    }
  }

  /**
   * Soundness of the corrected rule: every child it creates for a tile inside the
   * generator's grid of a level is inside the generator's grid of the next level.
   */
  lemma CorrectedChildrenExist(cubeSize: nat, maxLevel: int, t: nat, level: int, parent: Cell, c: Cell)
    requires t > 0 && level < maxLevel
    requires InGeneratedGrid(cubeSize, maxLevel, t, level, parent)
    requires c in Children(parent.x, parent.y, CorrectedParams(cubeSize, maxLevel, t, level))
    ensures InGeneratedGrid(cubeSize, maxLevel, t, level + 1, c)
  {
    var s := LevelSize(cubeSize, maxLevel, level);
    var s2 := LevelSize(cubeSize, maxLevel, level + 1);
    LevelSizeHalves(cubeSize, maxLevel, level);
    var p := CorrectedParams(cubeSize, maxLevel, t, level);
    ChildAxisSound(s, s2, t, parent.x, p.small, c.x == 2 * parent.x + 1);
    ChildAxisSound(s, s2, t, parent.y, p.small, c.y == 2 * parent.y + 1);
  }

  lemma ChildAxisComplete(s: nat, s2: nat, t: nat, cx: nat, small: bool)
    requires t > 0 && s2 == 2 * s && cx < GridCount(s2, t)
    requires small <==> 2 * LastTile(s, t) <= t
    ensures cx / 2 < GridCount(s, t)
    ensures cx % 2 == 1 ==> !(cx / 2 == GridCount(s, t) - 1 && small)
  {
    var n := GridCount(s, t);
    var x := cx / 2;
    assert x * t < s by {
      TileStartBelow(s2, t, cx);
      HalfTileStart(cx, s, t);
    }
    if x >= n {
      MulLe(n, x, t);
    }
    if cx % 2 == 1 && x == n - 1 {
      OddLastChild(s, t, cx);
    }
  }

  /** Tile k of a grid starts inside the edge. */
  lemma TileStartBelow(size: nat, t: nat, k: nat)
    requires t > 0 && k < GridCount(size, t)
    ensures k * t < size
  {
    MulLe(k, GridCount(size, t) - 1, t);
  }

  /** A tile starting inside a doubled edge has its parent starting inside the edge. */
  lemma HalfTileStart(cx: nat, s: nat, t: nat)
    requires cx * t < 2 * s
    ensures (cx / 2) * t < s
  {
    var x := cx / 2;
    MulLe(2 * x, cx, t);
    assert 2 * (x * t) == (2 * x) * t;
  }

  /** The odd child of the last tile exists only when the last tile is more than half a tile. */
  lemma OddLastChild(s: nat, t: nat, cx: nat)
    requires t > 0 && cx < GridCount(2 * s, t)
    requires GridCount(s, t) >= 1 && cx == 2 * (GridCount(s, t) - 1) + 1
    ensures 2 * LastTile(s, t) > t
  {
    var n := GridCount(s, t);
    TileStartBelow(2 * s, t, cx);
    assert cx * t == 2 * ((n - 1) * t) + t;
  }


  /**
   * Completeness where every halving is exact (the next level's edge is twice this
   * level's): every tile the generator writes at level + 1 is a child, under the
   * corrected rule, of a tile the generator writes at the level.
   */
  lemma CorrectedChildrenCover(cubeSize: nat, maxLevel: int, t: nat, level: int, c: Cell)
    requires t > 0 && level < maxLevel
    requires LevelSize(cubeSize, maxLevel, level + 1) == 2 * LevelSize(cubeSize, maxLevel, level)
    requires InGeneratedGrid(cubeSize, maxLevel, t, level + 1, c)
    ensures InGeneratedGrid(cubeSize, maxLevel, t, level, Cell(c.x / 2, c.y / 2))
    ensures c in Children(c.x / 2, c.y / 2, CorrectedParams(cubeSize, maxLevel, t, level))
  {
    var s := LevelSize(cubeSize, maxLevel, level);
    var s2 := LevelSize(cubeSize, maxLevel, level + 1);
    var p := CorrectedParams(cubeSize, maxLevel, t, level);
    ChildAxisComplete(s, s2, t, c.x, p.small);
    ChildAxisComplete(s, s2, t, c.y, p.small);
    var x, y := c.x / 2, c.y / 2;
    assert c.x == 2 * x + c.x % 2 && c.y == 2 * y + c.y % 2;
  }

  lemma SignOfProduct(a: real, b: real)
    requires b > 0.0
    ensures a * b >= 0.0 <==> a >= 0.0
    ensures a * b > 0.0 <==> a > 0.0
  {
    if a >= 0.0 {
      PositiveProduct(b, a);
      assert a * b == b * a;
    } else {
      PositiveProduct(b, -a);
      assert a * b == -(b * -a);
    }
  }

  /** Comparing k with s / t in the reals is comparing k * t with s in the integers. */
  lemma RatioBounds(s: int, t: nat, k: int)
    requires t > 0
    ensures k * t <= s <==> k as real <= s as real / t as real
    ensures s < k * t <==> s as real / t as real < k as real
    ensures k * t < s <==> k as real < s as real / t as real
    ensures s <= k * t <==> s as real / t as real <= k as real
  {
    var r := s as real / t as real;
    assert r * t as real == s as real;
    assert (k * t) as real == k as real * t as real;
    assert (k as real - r) * t as real == (k * t) as real - s as real;
    SignOfProduct(k as real - r, t as real);
  }

  lemma FloorOfRatio(s: nat, t: nat)
    requires t > 0
    ensures (s as real / t as real).Floor == s / t
  {
    var q := s / t;
    DivMod(s, t);
    RatioBounds(s, t, q);
    assert (q + 1) * t == q * t + t;
    RatioBounds(s, t, q + 1);
  }

  lemma CeilOfRatio(s: nat, t: nat)
    requires t > 0
    ensures Ceil(s as real / t as real) == GridCount(s, t)
  {
    var n: int := GridCount(s, t);
    var r := s as real / t as real;
    RatioBounds(s, t, n);
    RatioBounds(s, t, n - 1);
    assert (n - 1) as real < r <= n as real;
    assert (-r).Floor == -n;
  }

  /**
   * Where 2^(maxLevel - level) divides the cube size, so that the viewer's division is
   * exact, the code's parameters and the corrected ones coincide except when the last
   * tile is exactly half a tile wide, which is where the strict test differs.
   */
  lemma AsWrittenMatchesCorrectedWhenExact(cubeSize: nat, maxLevel: int, t: nat, level: int)
    requires t > 0 && level <= maxLevel
    requires cubeSize % Pow2(maxLevel - level) == 0
    ensures AsWrittenParams(cubeSize, maxLevel, t, level) == CorrectedParams(cubeSize, maxLevel, t, level)
      <==> 2 * (LevelSize(cubeSize, maxLevel, level) % t) != t
  {
    var s := LevelSize(cubeSize, maxLevel, level);
    var aw := AsWrittenParams(cubeSize, maxLevel, t, level);
    var cp := CorrectedParams(cubeSize, maxLevel, t, level);
    assert ViewerLevelSize(cubeSize, maxLevel, level) == s as real by {
      ExactLevelSize(cubeSize, maxLevel - level);
    }
    assert aw.numTiles == cp.numTiles by {
      CeilOfRatio(s, t);
    }
    FModOfNats(s, t);
    assert cp.small <==> 2 * LastTile(s, t) <= t;
    LastTileIsRemainder(s, t);
    if s % t == 0 {
      assert !cp.small && !aw.small;
    } else {
      assert aw.small <==> 2 * (s % t) < t;
    }
  }

  lemma FModOfNats(s: nat, t: nat)
    requires t > 0
    ensures FMod(s as real, t as real) == (s % t) as real
  {
    FloorOfRatio(s, t);
    DivMod(s, t);
    var q := s / t;
    var r := s as real / t as real;
    assert r >= 0.0;
    assert Trunc(r) == q;
    assert FMod(s as real, t as real) == s as real - t as real * q as real;
    assert (t * q) as real == t as real * q as real;
    assert s == t * q + s % t;
  }

  /** Width of the last column of a grid. */
  function LastTile(s: nat, t: nat): int
    requires t > 0
  {
    s - (GridCount(s, t) - 1) * t
  }

  lemma LastTileIsRemainder(s: nat, t: nat)
    requires t > 0
    ensures LastTile(s, t) == if s % t == 0 then t else s % t
  {
    var q, r := s / t, s % t;
    DivMod(s, t);
    var n := if r == 0 then q else q + 1;
    assert (q + 1) * t == q * t + t;
    assert GridCount(s, t) == n by {
      DivUnique(s + t - 1, t, n);
    }
    assert (n - 1) * t == if r == 0 then q * t - t else q * t;
  }

  lemma ExactLevelSize(c: nat, k: nat)
    requires c % Pow2(k) == 0
    ensures c as real / Pow2(k) as real == HalvedSize(c, k) as real
  {
    var P := Pow2(k);
    var s := HalvedSize(c, k);
    assert c == s * P by {
      HalvedSizeIsDiv(c, k);
      DivMod(c, P);
    }
    ExactQuotient(s, P);
  }

  lemma ExactQuotient(s: nat, p: nat)
    requires p > 0
    ensures (s * p) as real / p as real == s as real
  {
    assert (s * p) as real == s as real * p as real;
  }
}
