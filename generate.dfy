/**
 * The multires tile-set generator (utils/multires/generate.py): input validation,
 * cube size and level count, the per-level tile grids and their crop boxes, tile
 * file names, the projection descriptor handed to nona, the fallback tiles and the
 * config.json text.
 *
 * Images are modelled by their sizes only. floor(width / pi) is a parameter
 * (widthOverPi) because pi is not representable here.
 */
module MultiresGenerate {
  import opened Wrappers
  import opened Strings
  import opened Arith

  /** Why a run stops; every case happens before the output directory is created. */
  datatype GenError =
    | NotTwoToOne      // width is not twice the height: message and exit status 1
    | ZeroDivision     // float division by a zero height or a zero tile size
    | MathDomainError  // math.log of a ratio that is not positive

  /**
   * How validation ends. BothNegative: --cubesize and --tilesize are both negative,
   * so math.log sees a positive ratio and the script carries on past os.makedirs
   * with a negative canvas; levels is ceil(log2(cubeSize / tileSize)) + 1 as usual.
   */
  datatype PlanOutcome =
    | Stopped(error: GenError)
    | Planned(geometry: Geometry)
    | BothNegative(cubeSize: int, tileSize: int, levels: int)

  /** What the run settles before touching the disk. */
  datatype Geometry = Geometry(cubeSize: nat, tileSize: nat, levels: int, extension: string)

  /** A crop box [left, upper, right, lower) in face pixels, as PIL's crop takes it. */
  datatype Box = Box(left: int, upper: int, right: int, lower: int)

  /** One tile file: face index, level, row i, column j and its crop box; FileName gives its path. */
  datatype Tile = Tile(face: nat, level: int, row: nat, col: nat, box: Box)

  /** A fallback image: its path below the output directory and its edge length. */
  datatype Fallback = Fallback(name: string, edge: nat)

  /** What a successful run leaves behind (the descriptor and the nona faces are deleted at the end). */
  datatype RunOutput = RunOutput(descriptor: string, tiles: seq<Tile>, fallbacks: seq<Fallback>, config: string)

  /**
   * How a run ends: halted before os.makedirs with nothing written, completed, or
   * past os.makedirs with cubic.pto written for a negative canvas, from where nona
   * and PIL take over.
   */
  datatype RunOutcome =
    | Halted(error: GenError)
    | Completed(output: RunOutput)
    | NegativeCanvas(descriptor: string)

  /** Face order shared with nona's output numbering and with the viewer: front, back, up, down, left, right. */
  const FaceLetters: seq<string> := ["f", "b", "u", "d", "l", "r"]

  const DefaultTileSize: nat := 512
  const FallbackEdge: nat := 1024

  // ---------------------------------------------------------------------------
  // Cube size and level count
  // ---------------------------------------------------------------------------

  /** An explicit non-zero --cubesize wins; otherwise 8 * int(width / pi / 8). */
  function CubeSizeFor(requested: int, widthOverPi: nat): (c: int)
    ensures requested != 0 ==> c == requested
    ensures requested == 0 ==> c >= 0 && c % 8 == 0 && c <= widthOverPi < c + 8
  {
    if requested != 0 then requested else 8 * (widthOverPi / 8)
  }

  /** c <= t * 2^k, read exactly; for negative k this is c * 2^(-k) <= t. */
  predicate Reaches(c: nat, t: nat, k: int)
  {
    if k >= 0 then c <= t * Pow2(k) else c * Pow2(-k) <= t
  }

  function Doublings(c: nat, t: nat): nat
    requires t > 0
    decreases if c <= t then 0 else c - t
  {
    if c <= t then 0 else 1 + Doublings(c, 2 * t)
  }

  function Halvings(c: nat, t: nat): nat
    requires 0 < c <= t
    decreases t - c
  {
    if 2 * c <= t then 1 + Halvings(2 * c, t) else 0
  }

  /** ceil(log2(c / t)) computed exactly: the least integer k with c <= t * 2^k. */
  function CeilLog2(c: nat, t: nat): int
    requires c > 0 && t > 0
  {
    if c > t then Doublings(c, t) as int else 0 - Halvings(c, t) as int
  }

  lemma {:induction false} DoublingsBound(c: nat, t: nat)
    requires t > 0
    ensures c <= t * Pow2(Doublings(c, t))
    ensures Doublings(c, t) > 0 ==> c > t * Pow2(Doublings(c, t) - 1)
    decreases if c <= t then 0 else c - t
  {
    if c > t {
      var k := Doublings(c, 2 * t);
      DoublingsBound(c, 2 * t);
      assert Pow2(k + 1) == 2 * Pow2(k);
      assert (2 * t) * Pow2(k) == t * Pow2(k + 1);
      if k > 0 {
        assert Pow2(k) == 2 * Pow2(k - 1);
        assert (2 * t) * Pow2(k - 1) == t * Pow2(k);
      }
    }
  }

  lemma {:induction false} HalvingsBound(c: nat, t: nat)
    requires 0 < c <= t
    ensures c * Pow2(Halvings(c, t)) <= t < c * Pow2(Halvings(c, t) + 1)
    decreases t - c
  {
    if 2 * c <= t {
      var m := Halvings(2 * c, t);
      HalvingsBound(2 * c, t);
      var p, q := Pow2(m), Pow2(m + 1);
      assert q == 2 * p && Pow2(m + 2) == 2 * q;
      DoubleFactor(c, p);
      DoubleFactor(c, q);
    } else {
      assert Pow2(0) == 1 && Pow2(1) == 2;
    }
  }

  lemma ReachesStep(c: nat, t: nat, k: int)
    requires Reaches(c, t, k)
    ensures Reaches(c, t, k + 1)
  {
    if k >= 0 {
      assert Pow2(k + 1) == 2 * Pow2(k);
      assert t * Pow2(k) <= t * Pow2(k + 1);
    } else if k == -1 {
      assert Pow2(1) == 2;
    } else {
      assert Pow2(-k) == 2 * Pow2(-k - 1);
      assert c * Pow2(-k - 1) <= c * Pow2(-k);
    }
  }

  lemma {:induction false} ReachesMonotone(c: nat, t: nat, j: int, k: int)
    requires j <= k && Reaches(c, t, j)
    ensures Reaches(c, t, k)
    decreases k - j
  {
    if j < k {
      ReachesStep(c, t, j);
      ReachesMonotone(c, t, j + 1, k);
    }
  }

  /** CeilLog2 is exactly the threshold: c <= t * 2^j holds for j at or above it and for no j below. */
  lemma CeilLog2Threshold(c: nat, t: nat, j: int)
    requires c > 0 && t > 0
    ensures Reaches(c, t, j) <==> j >= CeilLog2(c, t)
  {
    var k := CeilLog2(c, t);
    if c > t {
      DoublingsBound(c, t);
    } else {
      HalvingsBound(c, t);
    }
    assert Reaches(c, t, k) && !Reaches(c, t, k - 1);
    if j >= k {
      ReachesMonotone(c, t, k, j);
    } else if Reaches(c, t, j) {
      ReachesMonotone(c, t, j, k - 1);
    }
  }

  /**
   * Validation, cube size and level count, in the script's order. The aspect test
   * float(width) / height != 2 is exact for image sizes below 2^52.
   */
  function Plan(width: nat, height: nat, requestedCube: int, tileSize: int, widthOverPi: nat, png: bool): (r: PlanOutcome)
    ensures height == 0 ==> r == Stopped(ZeroDivision)
    ensures height > 0 && width != 2 * height ==> r == Stopped(NotTwoToOne)
    ensures height > 0 && width == 2 * height && tileSize == 0 ==> r == Stopped(ZeroDivision)
    ensures height > 0 && width == 2 * height && tileSize != 0 ==>
      (r == Stopped(MathDomainError) <==> CubeSizeFor(requestedCube, widthOverPi) * tileSize <= 0)
    ensures r.Planned? <==> height > 0 && width == 2 * height && tileSize > 0 && CubeSizeFor(requestedCube, widthOverPi) > 0
    ensures r.BothNegative? <==> height > 0 && width == 2 * height && tileSize < 0 && CubeSizeFor(requestedCube, widthOverPi) < 0
    ensures r.Planned? ==> r.geometry.cubeSize == CubeSizeFor(requestedCube, widthOverPi) && r.geometry.tileSize == tileSize
    ensures r.Planned? ==> r.geometry.extension == (if png then ".png" else ".jpg")
    ensures r.Planned? ==> forall j :: Reaches(r.geometry.cubeSize, r.geometry.tileSize, j) <==> j >= r.geometry.levels - 1
    ensures r.BothNegative? ==> r.cubeSize == CubeSizeFor(requestedCube, widthOverPi) && r.tileSize == tileSize
    ensures r.BothNegative? ==> LevelsOfRatio(-r.cubeSize, -r.tileSize, r.levels)
  {
    if height == 0 then Stopped(ZeroDivision)
    else if width != 2 * height then Stopped(NotTwoToOne)
    else
      var cube := CubeSizeFor(requestedCube, widthOverPi);
      if tileSize == 0 then Stopped(ZeroDivision)
      else if cube > 0 && tileSize > 0 then
        var levels := CeilLog2(cube, tileSize) + 1;
        LevelsThreshold(cube, tileSize, levels);
        Planned(Geometry(cube, tileSize, levels, if png then ".png" else ".jpg"))
      else if cube < 0 && tileSize < 0 then
        var levels := CeilLog2(-cube, -tileSize) + 1;
        LevelsThreshold(-cube, -tileSize, levels);
        BothNegative(cube, tileSize, levels)
      else
        ProductSign(cube, tileSize);
        Stopped(MathDomainError)
  }

  /**
   * A 3072x1536 panorama with --cubesize -1536 and --tilesize -512 passes validation:
   * the ratio is 3, so levels is 3, and the run reaches os.makedirs.
   */
  lemma NegativeSizesPassValidation()
    ensures Plan(3072, 1536, -1536, -512, 0, false) == BothNegative(-1536, -512, 3)
  {
    assert Doublings(1536, 2048) == 0;
    assert Doublings(1536, 512) == 2;
  }

  /** levels - 1 is the least j with c <= t * 2^j, read exactly. */
  ghost predicate LevelsOfRatio(c: int, t: int, levels: int)
  {
    c > 0 && t > 0 && forall j :: Reaches(c, t, j) <==> j >= levels - 1
  }

  /** levels = ceil(log2(c / t)) + 1 is the threshold at which c <= t * 2^(levels - 1) starts to hold. */
  lemma LevelsThreshold(c: nat, t: nat, levels: int)
    requires c > 0 && t > 0 && levels == CeilLog2(c, t) + 1
    ensures forall j :: Reaches(c, t, j) <==> j >= levels - 1
  {
    forall j ensures Reaches(c, t, j) <==> j >= levels - 1 {
      CeilLog2Threshold(c, t, j);
    }
  }

  /** A product is positive exactly when both factors are non-zero and share a sign. */
  lemma ProductSign(a: int, b: int)
    ensures a * b > 0 <==> (a > 0 && b > 0) || (a < 0 && b < 0)
  {
    if a > 0 && b < 0 {
      assert a * b == -(a * -b);
    } else if a < 0 && b > 0 {
      assert a * b == -(-a * b);
    } else if a < 0 && b < 0 {
      assert a * b == -a * -b;
    }
  }

  /** When the face is at least a tile wide, levels is the least L >= 1 with tileSize * 2^(L-1) >= cubeSize. */
  lemma LevelsLeastCover(g: Geometry, l: nat)
    requires g.tileSize > 0 && g.cubeSize >= g.tileSize
    requires forall j :: Reaches(g.cubeSize, g.tileSize, j) <==> j >= g.levels - 1
    requires l >= 1
    ensures g.levels >= 1
    ensures g.cubeSize <= g.tileSize * Pow2(l - 1) <==> l >= g.levels
  {
    assert Pow2(1) == 2;
    assert !Reaches(g.cubeSize, g.tileSize, -1);
    assert Reaches(g.cubeSize, g.tileSize, l - 1) <==> l - 1 >= g.levels - 1;
  }

  // ---------------------------------------------------------------------------
  // Levels, grids and crop boxes
  // ---------------------------------------------------------------------------

  /** The face edge after n halvings, each int(size / 2). */
  function HalvedSize(c: nat, n: nat): nat
  {
    if n == 0 then c else HalvedSize(c, n - 1) / 2
  }

  /** Face edge at a level: the finest level keeps cubeSize, each coarser one halves the previous edge. */
  function LevelSize(c: nat, levels: int, level: int): nat
    requires level <= levels
  {
    HalvedSize(c, levels - level)
  }

  lemma LevelSizeHalves(c: nat, levels: int, level: int)
    requires level < levels
    ensures LevelSize(c, levels, level) == LevelSize(c, levels, level + 1) / 2
    ensures LevelSize(c, levels, levels) == c
  {
  }

  /** Repeated floor halving is one floor division: a level's edge is floor(cubeSize / 2^(levels - level)). */
  lemma {:induction false} HalvedSizeIsDiv(c: nat, n: nat)
    ensures HalvedSize(c, n) == c / Pow2(n)
  {
    if n > 0 {
      HalvedSizeIsDiv(c, n - 1);
      DivDiv(c, Pow2(n - 1), 2);
      assert Pow2(n) == Pow2(n - 1) * 2;
    }
  }

  /** int(math.ceil(float(size) / tileSize)): rows and columns of a level's grid. */
  function GridCount(size: nat, t: nat): nat
    requires t > 0
  {
    (size + t - 1) / t
  }

  /** The grid covers the edge, and its last tile starts inside it. */
  lemma GridCountBounds(size: nat, t: nat)
    requires t > 0
    ensures GridCount(size, t) * t >= size
    ensures GridCount(size, t) > 0 ==> (GridCount(size, t) - 1) * t < size
  {
    var n := GridCount(size, t);
    DivMod(size + t - 1, t);
    assert (size + t - 1) % t < t;
    assert n * t == size + t - 1 - (size + t - 1) % t;
    if n > 0 {
      MulLe(1, n, t);
      assert (n - 1) * t == n * t - t;
    }
  }

  function CropBox(size: nat, t: nat, i: nat, j: nat): Box
  {
    Box(j * t, i * t, Min(j * t + t, size), Min(i * t + t, size))
  }

  predicate Contains(b: Box, x: int, y: int)
  {
    b.left <= x < b.right && b.upper <= y < b.lower
  }

  /** Every box of the grid is non-empty; only the last row and column can be narrower than a tile. */
  lemma CropBoxShape(size: nat, t: nat, i: nat, j: nat)
    requires t > 0 && i < GridCount(size, t) && j < GridCount(size, t)
    ensures var b := CropBox(size, t, i, j);
      && b.left < b.right <= size && b.upper < b.lower <= size
      && (j + 1 < GridCount(size, t) ==> b.right - b.left == t)
      && (i + 1 < GridCount(size, t) ==> b.lower - b.upper == t)
  {
    CropAxisShape(size, t, j);
    CropAxisShape(size, t, i);
  }

  /** One axis of a grid box: it starts inside the face and spans a whole tile unless it is the last. */
  lemma CropAxisShape(size: nat, t: nat, k: nat)
    requires t > 0 && k < GridCount(size, t)
    ensures k * t < Min(k * t + t, size) <= size
    ensures k + 1 < GridCount(size, t) ==> Min(k * t + t, size) - k * t == t
  {
    var n := GridCount(size, t);
    MulLe(k, n - 1, t);
    assert k * t < size;
    if k + 1 < n {
      MulLe(k + 1, n - 1, t);
      assert (k + 1) * t == k * t + t;
    }
  }

  lemma BoxAxis(size: nat, t: nat, k: nat, p: nat)
    requires t > 0 && p < size
    ensures (k * t <= p < Min(k * t + t, size)) <==> k == p / t
  {
    DivMod(p, t);
    if k * t <= p < k * t + t {
      DivUnique(p, t, k);
    }
  }

  /**
   * The boxes of one level tile the face exactly: a pixel of the size x size face
   * lies in box (i, j) if and only if i = y / t and j = x / t, and that box is in the grid.
   */
  lemma PixelInExactlyOneBox(size: nat, t: nat, x: nat, y: nat, i: nat, j: nat)
    requires t > 0 && x < size && y < size
    ensures Contains(CropBox(size, t, i, j), x, y) <==> i == y / t && j == x / t
    ensures y / t < GridCount(size, t) && x / t < GridCount(size, t)
  {
    BoxAxis(size, t, j, x);
    BoxAxis(size, t, i, y);
    var n := GridCount(size, t);
    GridCountBounds(size, t);
    DivMod(y, t);
    DivMod(x, t);
    if y / t >= n {
      MulLe(n, y / t, t);
    }
    if x / t >= n {
      MulLe(n, x / t, t);
    }
  }

  // ---------------------------------------------------------------------------
  // Tile names and the tile sequence, in the script's loop order
  // ---------------------------------------------------------------------------

  /** <level>/<faceLetter><i>_<j><ext>, below the output directory. */
  function TileName(level: int, face: nat, i: nat, j: nat, ext: string): string
    requires face < 6
  {
    TileStem(level, face, i, j) + ext
  }

  /** The path below the output directory that a tile is saved to. */
  function FileName(x: Tile, ext: string): string
    requires x.face < 6
  {
    TileName(x.level, x.face, x.row, x.col, ext)
  }

  /** The name without its extension. */
  function TileStem(level: int, face: nat, i: nat, j: nat): string
    requires face < 6
  {
    IntToString(level) + "/" + FaceLetters[face] + NatToString(i) + "_" + NatToString(j)
  }

  function MakeTile(face: nat, level: int, size: nat, t: nat, ext: string, i: nat, j: nat): Tile
    requires face < 6
  {
    Tile(face, level, i, j, CropBox(size, t, i, j))
  }

  /** Columns 0 .. m-1 of row i. */
  function Row(face: nat, level: int, size: nat, t: nat, ext: string, i: nat, m: nat): seq<Tile>
    requires face < 6
  {
    if m == 0 then [] else Row(face, level, size, t, ext, i, m - 1) + [MakeTile(face, level, size, t, ext, i, m - 1)]
  }

  /** Rows 0 .. rows-1 of a level's grid. */
  function Grid(face: nat, level: int, size: nat, t: nat, ext: string, rows: nat): seq<Tile>
    requires face < 6 && t > 0
  {
    if rows == 0 then []
    else Grid(face, level, size, t, ext, rows - 1) + Row(face, level, size, t, ext, rows - 1, GridCount(size, t))
  }

  /** The first k levels of one face, finest first: levels, levels-1, ..., levels-k+1. */
  function FacePyramid(face: nat, c: nat, t: nat, ext: string, levels: int, k: nat): seq<Tile>
    requires face < 6 && t > 0
  {
    if k == 0 then []
    else
      var size := HalvedSize(c, k - 1);
      FacePyramid(face, c, t, ext, levels, k - 1) + Grid(face, levels - (k - 1), size, t, ext, GridCount(size, t))
  }

  function LevelCount(levels: int): nat { if levels < 0 then 0 else levels }

  /** Every tile of the faces 0 .. faces-1. */
  function AllTiles(c: nat, t: nat, ext: string, levels: int, faces: nat): seq<Tile>
    requires t > 0 && faces <= 6
  {
    if faces == 0 then []
    else AllTiles(c, t, ext, levels, faces - 1) + FacePyramid(faces - 1, c, t, ext, levels, LevelCount(levels))
  }

  lemma {:induction false} InRow(face: nat, level: int, size: nat, t: nat, ext: string, i: nat, m: nat, x: Tile)
    requires face < 6
    ensures x in Row(face, level, size, t, ext, i, m) <==>
      x.row == i && x.col < m && x == MakeTile(face, level, size, t, ext, i, x.col)
  {
    if m > 0 {
      InRow(face, level, size, t, ext, i, m - 1, x);
    }
  }

  lemma {:induction false} InGrid(face: nat, level: int, size: nat, t: nat, ext: string, rows: nat, x: Tile)
    requires face < 6 && t > 0
    ensures x in Grid(face, level, size, t, ext, rows) <==>
      x.row < rows && x.col < GridCount(size, t) && x == MakeTile(face, level, size, t, ext, x.row, x.col)
  {
    if rows > 0 {
      var earlier := Grid(face, level, size, t, ext, rows - 1);
      var last := Row(face, level, size, t, ext, rows - 1, GridCount(size, t));
      assert x in earlier + last <==> x in earlier || x in last;
      InGrid(face, level, size, t, ext, rows - 1, x);
      InRow(face, level, size, t, ext, rows - 1, GridCount(size, t), x);
    }
  }

  predicate InLevelGrid(x: Tile, face: nat, c: nat, t: nat, ext: string, levels: int)
    requires face < 6 && t > 0
  {
    x.level <= levels &&
    var size := LevelSize(c, levels, x.level);
    x.row < GridCount(size, t) && x.col < GridCount(size, t) &&
    x == MakeTile(face, x.level, size, t, ext, x.row, x.col)
  }

  lemma InPyramid(face: nat, c: nat, t: nat, ext: string, levels: int, k: nat, x: Tile)
    requires face < 6 && t > 0
    ensures x in FacePyramid(face, c, t, ext, levels, k) <==>
      levels - k < x.level <= levels && InLevelGrid(x, face, c, t, ext, levels)
  {
    if x in FacePyramid(face, c, t, ext, levels, k) {
      PyramidSound(face, c, t, ext, levels, k, x);
    } else if levels - k < x.level <= levels && InLevelGrid(x, face, c, t, ext, levels) {
      PyramidComplete(face, c, t, ext, levels, k, x);
    }
  }

  lemma {:induction false} PyramidSound(face: nat, c: nat, t: nat, ext: string, levels: int, k: nat, x: Tile)
    requires face < 6 && t > 0 && x in FacePyramid(face, c, t, ext, levels, k)
    ensures levels - k < x.level <= levels && InLevelGrid(x, face, c, t, ext, levels)
  {
    PyramidSplit(face, c, t, ext, levels, k, x);
    if x in FacePyramid(face, c, t, ext, levels, k - 1) {
      PyramidSound(face, c, t, ext, levels, k - 1, x);
    } else {
      InLevel(face, c, t, ext, levels, k - 1, x);
    }
  }

  lemma {:induction false} PyramidComplete(face: nat, c: nat, t: nat, ext: string, levels: int, k: nat, x: Tile)
    requires face < 6 && t > 0
    requires levels - k < x.level <= levels && InLevelGrid(x, face, c, t, ext, levels)
    ensures x in FacePyramid(face, c, t, ext, levels, k)
  {
    PyramidSplit(face, c, t, ext, levels, k, x);
    if x.level == levels - (k - 1) {
      InLevel(face, c, t, ext, levels, k - 1, x);
    } else {
      PyramidComplete(face, c, t, ext, levels, k - 1, x);
    }
  }

  lemma PyramidSplit(face: nat, c: nat, t: nat, ext: string, levels: int, k: nat, x: Tile)
    requires face < 6 && t > 0 && k > 0
    ensures var size := HalvedSize(c, k - 1);
      x in FacePyramid(face, c, t, ext, levels, k) <==>
      x in FacePyramid(face, c, t, ext, levels, k - 1) || x in Grid(face, levels - (k - 1), size, t, ext, GridCount(size, t))
  {
  }

  /** The grid of one level holds exactly the tiles of that level in the generated grid. */
  lemma InLevel(face: nat, c: nat, t: nat, ext: string, levels: int, d: nat, x: Tile)
    requires face < 6 && t > 0
    ensures var size := HalvedSize(c, d);
      x in Grid(face, levels - d, size, t, ext, GridCount(size, t)) <==>
      x.level == levels - d && InLevelGrid(x, face, c, t, ext, levels)
  {
    var lv, size := levels - d, HalvedSize(c, d);
    InGrid(face, lv, size, t, ext, GridCount(size, t), x);
    if x.level == lv {
      assert LevelSize(c, levels, x.level) == size;
    } else {
      assert MakeTile(face, lv, size, t, ext, x.row, x.col).level == lv;
    }
  }

  /**
   * The tile set is exactly the grids: a tile is written if and only if its face is
   * one of the six, its level is in 1 .. levels, its row and column are inside that
   * level's ceil(size / tileSize) grid, and its box is the one for that cell.
   */
  lemma {:induction false} InAllTiles(c: nat, t: nat, ext: string, levels: int, faces: nat, x: Tile)
    requires t > 0 && faces <= 6
    ensures x in AllTiles(c, t, ext, levels, faces) <==>
      x.face < faces && 1 <= x.level <= levels && InLevelGrid(x, x.face, c, t, ext, levels)
  {
    if faces > 0 {
      InAllTiles(c, t, ext, levels, faces - 1, x);
      InPyramid(faces - 1, c, t, ext, levels, LevelCount(levels), x);
    }
  }

  lemma FaceLettersDistinct(a: nat, b: nat)
    requires a < 6 && b < 6 && FaceLetters[a][0] == FaceLetters[b][0]
    ensures a == b
  {
  }

  lemma NoSlashInNumber(l: int)
    ensures '/' !in IntToString(l)
  {
    var a := IntToString(l);
    assert forall k :: 0 <= k < |a| ==> a[k] == '-' || IsDigit(a[k]);
  }

  /** The name regrouped around its two separators. */
  lemma TileNameShape(l: int, f: nat, i: nat, j: nat, ext: string)
    requires f < 6
    ensures |FaceLetters[f]| == 1
    ensures TileName(l, f, i, j, ext)
      == IntToString(l) + ['/'] + ([FaceLetters[f][0]] + (NatToString(i) + ['_'] + (NatToString(j) + ext)))
  {
    var letter := FaceLetters[f];
    assert letter == [letter[0]] by {
      assert f == 0 || f == 1 || f == 2 || f == 3 || f == 4 || f == 5;
    }
    Regroup(IntToString(l), letter, NatToString(i), NatToString(j), ext);
  }

  /** Regrouping the pieces of a tile name. */
  lemma Regroup(number: string, letter: string, column: string, row: string, ext: string)
    ensures number + "/" + letter + column + "_" + row + ext
      == number + ['/'] + (letter + (column + ['_'] + (row + ext)))
  {
    assert "/" == ['/'] && "_" == ['_'];
  }

  lemma HeadCut<T>(c1: T, r1: seq<T>, c2: T, r2: seq<T>)
    requires [c1] + r1 == [c2] + r2
    ensures c1 == c2 && r1 == r2
  {
    assert r1 == ([c1] + r1)[1..];
    assert r2 == ([c2] + r2)[1..];
  }

  lemma SuffixCancel<T>(a: seq<T>, b: seq<T>, e: seq<T>)
    requires a + e == b + e
    ensures a == b
  {
    assert a == (a + e)[..|a|];
    assert b == (b + e)[..|b|];
  }

  lemma {:induction false} TileNameInjective(l1: int, f1: nat, i1: nat, j1: nat, l2: int, f2: nat, i2: nat, j2: nat, ext: string)
    requires f1 < 6 && f2 < 6
    requires TileName(l1, f1, i1, j1, ext) == TileName(l2, f2, i2, j2, ext)
    ensures l1 == l2 && f1 == f2 && i1 == i2 && j1 == j2
  {
    TileNameShape(l1, f1, i1, j1, ext);
    TileNameShape(l2, f2, i2, j2, ext);
    var r1 := NatToString(j1) + ext;
    var r2 := NatToString(j2) + ext;
    var b1 := NatToString(i1) + ['_'] + r1;
    var b2 := NatToString(i2) + ['_'] + r2;
    NoSlashInNumber(l1);
    NoSlashInNumber(l2);
    SeparatorCut(IntToString(l1), [FaceLetters[f1][0]] + b1, IntToString(l2), [FaceLetters[f2][0]] + b2, '/');
    IntToStringInjective(l1, l2);
    HeadCut(FaceLetters[f1][0], b1, FaceLetters[f2][0], b2);
    FaceLettersDistinct(f1, f2);
    DigitsLackChar(NatToString(i1), '_');
    DigitsLackChar(NatToString(i2), '_');
    SeparatorCut(NatToString(i1), r1, NatToString(i2), r2, '_');
    NatToStringInjective(i1, i2);
    SuffixCancel(NatToString(j1), NatToString(j2), ext);
    NatToStringInjective(j1, j2);
  }

  /** No two tiles of a run share a file name, so no tile overwrites another. */
  lemma TileNamesDistinct(c: nat, t: nat, ext: string, levels: int, x: Tile, y: Tile)
    requires t > 0
    requires x in AllTiles(c, t, ext, levels, 6) && y in AllTiles(c, t, ext, levels, 6)
    ensures x.face < 6 && y.face < 6
    ensures FileName(x, ext) == FileName(y, ext) ==> x == y
  {
    InAllTiles(c, t, ext, levels, 6, x);
    InAllTiles(c, t, ext, levels, 6, y);
    if FileName(x, ext) == FileName(y, ext) {
      TileNameInjective(x.level, x.face, x.row, x.col, y.level, y.face, y.row, y.col, ext);
    }
  }

  /**
   * The tile loops of the script: for each face, from the finest level down to level 1,
   * halving the face edge after each level, every row and every column of the grid.
   */
  method GenerateTiles(g: Geometry) returns (tiles: seq<Tile>)
    requires g.tileSize > 0
    ensures tiles == AllTiles(g.cubeSize, g.tileSize, g.extension, g.levels, 6)
  {
    tiles := [];
    for f := 0 to 6
      invariant tiles == AllTiles(g.cubeSize, g.tileSize, g.extension, g.levels, f)
    {
      var faceTiles := FaceTiles(g, f);
      tiles := tiles + faceTiles;
    }
  }

  /** The level loop for one face: from the finest level down to level 1, halving the edge after each. */
  method FaceTiles(g: Geometry, f: nat) returns (faceTiles: seq<Tile>)
    requires g.tileSize > 0 && f < 6
    ensures faceTiles == FacePyramid(f, g.cubeSize, g.tileSize, g.extension, g.levels, LevelCount(g.levels))
  {
    faceTiles := [];
    var size := g.cubeSize;
    var level := g.levels;
    while level > 0
      invariant level <= g.levels && (level < g.levels ==> level >= 0)
      invariant size == HalvedSize(g.cubeSize, g.levels - level)
      invariant faceTiles == FacePyramid(f, g.cubeSize, g.tileSize, g.extension, g.levels, g.levels - level)
    {
      var gridTiles := LevelTiles(f, level, size, g.tileSize, g.extension);
      faceTiles := faceTiles + gridTiles;
      size := size / 2;
      level := level - 1;
    }
    assert g.levels - level == LevelCount(g.levels);
  }

  /** The row and column loops of one level: every cell of the ceil(size / t) grid, row by row. */
  method LevelTiles(f: nat, level: int, size: nat, t: nat, ext: string) returns (gridTiles: seq<Tile>)
    requires t > 0 && f < 6
    ensures gridTiles == Grid(f, level, size, t, ext, GridCount(size, t))
  {
    var n := GridCount(size, t);
    gridTiles := [];
    for i := 0 to n
      invariant gridTiles == Grid(f, level, size, t, ext, i)
    {
      var rowTiles: seq<Tile> := [];
      for j := 0 to n
        invariant rowTiles == Row(f, level, size, t, ext, i, j)
      {
        rowTiles := rowTiles + [MakeTile(f, level, size, t, ext, i, j)];
      }
      gridTiles := gridTiles + rowTiles;
    }
  }

  // ---------------------------------------------------------------------------
  // Projection descriptor for nona, fallback tiles and config.json
  // ---------------------------------------------------------------------------

  /** (pitch, yaw) that nona uses to render face f; the order is f, b, u, d, l, r. */
  datatype Rotation = Rotation(pitch: int, yaw: int)

  function FaceRotation(f: nat): Rotation
    requires f < 6
  {
    [Rotation(0, 0), Rotation(0, 180), Rotation(-90, 0), Rotation(90, 0), Rotation(0, 90), Rotation(0, -90)][f]
  }

  function CanvasLine(cubeSize: int): string
  {
    "p E0 R0 f0 h" + IntToString(cubeSize) + " n\"TIFF_m\" u0 v90 w" + IntToString(cubeSize)
  }

  function ImageLine(width: nat, height: nat, file: string, pitch: int, yaw: int): string
  {
    "i a0 b0 c0 d0 e0 f4 h" + NatToString(height) + " n\"" + file + "\" p" + IntToString(pitch)
      + " r0 v360 w" + NatToString(width) + " y" + IntToString(yaw)
  }

  function FaceLine(width: nat, height: nat, file: string, f: nat): string
    requires f < 6
  {
    ImageLine(width, height, file, FaceRotation(f).pitch, FaceRotation(f).yaw)
  }

  lemma FaceLineClean(width: nat, height: nat, file: string, f: nat)
    requires f < 6 && '\n' !in file
    ensures '\n' !in FaceLine(width, height, file, f)
  {
    NoNewlineInNumbers(width, FaceRotation(f).pitch);
    NoNewlineInNumbers(height, FaceRotation(f).yaw);
  }

  function DescriptorLines(cubeSize: int, width: nat, height: nat, file: string): seq<string>
  {
    [ CanvasLine(cubeSize), "m g1 i0 m2 p0.00784314",
      FaceLine(width, height, file, 0), FaceLine(width, height, file, 1), FaceLine(width, height, file, 2),
      FaceLine(width, height, file, 3), FaceLine(width, height, file, 4), FaceLine(width, height, file, 5),
      "v", "*" ]
  }

  /** The PTO text: the lines joined with newlines. */
  function Descriptor(cubeSize: int, width: nat, height: nat, file: string): string
  {
    Join(DescriptorLines(cubeSize, width, height, file), '\n')
  }

  lemma NoNewlineInNumbers(n: nat, i: int)
    ensures '\n' !in NatToString(n) && '\n' !in IntToString(i)
  {
    var s := IntToString(i);
    assert forall k :: 0 <= k < |s| ==> s[k] == '-' || IsDigit(s[k]);
  }

  /**
   * Read back line by line, the descriptor is a cubeSize x cubeSize canvas with a
   * 90 degree view, then one image line per face in the order f, b, u, d, l, r with
   * pitch/yaw (0,0), (0,180), (-90,0), (90,0), (0,90), (0,-90), then "v" and "*".
   */
  lemma DescriptorLayout(cubeSize: int, width: nat, height: nat, file: string)
    requires '\n' !in file
    ensures var lines := Split(Descriptor(cubeSize, width, height, file), '\n');
      && |lines| == 10
      && lines[0] == "p E0 R0 f0 h" + IntToString(cubeSize) + " n\"TIFF_m\" u0 v90 w" + IntToString(cubeSize)
      && lines[1] == "m g1 i0 m2 p0.00784314"
      && lines[2] == ImageLine(width, height, file, 0, 0)
      && lines[3] == ImageLine(width, height, file, 0, 180)
      && lines[4] == ImageLine(width, height, file, -90, 0)
      && lines[5] == ImageLine(width, height, file, 90, 0)
      && lines[6] == ImageLine(width, height, file, 0, 90)
      && lines[7] == ImageLine(width, height, file, 0, -90)
      && lines[8] == "v" && lines[9] == "*"
  {
    var lines := DescriptorLines(cubeSize, width, height, file);
    assert Split(Descriptor(cubeSize, width, height, file), '\n') == lines by {
      DescriptorLinesClean(cubeSize, width, height, file);
      SplitJoin(lines, '\n');
    }
  }

  /** No line of the descriptor contains a newline. */
  lemma DescriptorLinesClean(cubeSize: int, width: nat, height: nat, file: string)
    requires '\n' !in file
    ensures var lines := DescriptorLines(cubeSize, width, height, file);
      forall k :: 0 <= k < |lines| ==> '\n' !in lines[k]
  {
    var lines := DescriptorLines(cubeSize, width, height, file);
    forall k | 0 <= k < |lines| ensures '\n' !in lines[k] {
      if k == 0 {
        CanvasLineClean(cubeSize);
      } else if k == 1 || k >= 8 {
        FixedDescriptorLinesClean();
      } else if k == 2 {
        FaceLineClean(width, height, file, 0);
      } else if k == 3 {
        FaceLineClean(width, height, file, 1);
      } else if k == 4 {
        FaceLineClean(width, height, file, 2);
      } else if k == 5 {
        FaceLineClean(width, height, file, 3);
      } else if k == 6 {
        FaceLineClean(width, height, file, 4);
      } else {
        FaceLineClean(width, height, file, 5);
      }
    }
  }

  lemma CanvasLineClean(cubeSize: int)
    ensures '\n' !in CanvasLine(cubeSize)
  {
    NoNewlineInNumbers(0, cubeSize);
  }

  lemma FixedDescriptorLinesClean()
    ensures '\n' !in "m g1 i0 m2 p0.00784314" && '\n' !in "v" && '\n' !in "*"
  {
  }

  /** The fallback loop: one 1024 x 1024 image per face at fallback/<letter><ext>. */
  method GenerateFallbacks(ext: string) returns (fallbacks: seq<Fallback>)
    ensures |fallbacks| == 6
    ensures forall f :: 0 <= f < 6 ==> fallbacks[f] == Fallback("fallback/" + FaceLetters[f] + ext, FallbackEdge)
  {
    fallbacks := [];
    for f := 0 to 6
      invariant |fallbacks| == f
      invariant forall k :: 0 <= k < f ==> fallbacks[k] == Fallback("fallback/" + FaceLetters[k] + ext, FallbackEdge)
    {
      fallbacks := fallbacks + [Fallback("fallback/" + FaceLetters[f] + ext, FallbackEdge)];
    }
  }

  /** The multiRes part of config.json, as the viewer reads it. */
  datatype MultiResConfig = MultiResConfig(
    path: string, fallbackPath: string, extension: string,
    tileResolution: int, maxLevel: int, cubeResolution: int)

  const TilePathTemplate := "/%l/%s%y_%x"

  /** What the script writes into config.json for a planned geometry. */
  function ConfigFor(g: Geometry): (cfg: MultiResConfig)
    requires |g.extension| >= 1
    ensures cfg.path == TilePathTemplate && cfg.fallbackPath == "/fallback/%s"
    ensures g.extension[0] == '.' ==> "." + cfg.extension == g.extension
    ensures cfg.tileResolution == g.tileSize && cfg.maxLevel == g.levels && cfg.cubeResolution == g.cubeSize
  {
    assert g.extension == [g.extension[0]] + g.extension[1..];
    MultiResConfig(TilePathTemplate, "/fallback/%s", g.extension[1..], g.tileSize, g.levels, g.cubeSize)
  }

  /** One member line of the multiRes object; every member but the last ends with a comma. */
  function MemberLine(key: string, value: string, last: bool): string
  {
    "        \"" + key + "\": " + value + (if last then "" else ",")
  }

  function Quoted(s: string): string { "\"" + s + "\"" }

  function ConfigLines(cfg: MultiResConfig): seq<string>
  {
    [ "{",
      "    \"type\": \"multires\",",
      "    ",
      "    \"multiRes\": {",
      MemberLine("path", Quoted(cfg.path), false),
      MemberLine("fallbackPath", Quoted(cfg.fallbackPath), false),
      MemberLine("extension", Quoted(cfg.extension), false),
      MemberLine("tileResolution", IntToString(cfg.tileResolution), false),
      MemberLine("maxLevel", IntToString(cfg.maxLevel), false),
      MemberLine("cubeResolution", IntToString(cfg.cubeResolution), true),
      "    }",
      "}" ]
  }

  function ConfigText(cfg: MultiResConfig): string
  {
    Join(ConfigLines(cfg), '\n')
  }

  lemma MemberLineClean(key: string, value: string, last: bool)
    requires '\n' !in key && '\n' !in value
    ensures '\n' !in MemberLine(key, value, last)
  {
  }

  lemma FixedConfigLinesClean()
    ensures '\n' !in "{" && '\n' !in "    \"type\": \"multires\"," && '\n' !in "    "
    ensures '\n' !in "    \"multiRes\": {" && '\n' !in "    }" && '\n' !in "}"
  {
  }

  lemma ConfigLinesClean(cfg: MultiResConfig)
    requires '\n' !in cfg.path && '\n' !in cfg.fallbackPath && '\n' !in cfg.extension
    ensures |ConfigLines(cfg)| == 12
    ensures forall k :: 0 <= k < 12 ==> '\n' !in ConfigLines(cfg)[k]
  {
    var lines := ConfigLines(cfg);
    NoNewlineInNumbers(0, cfg.tileResolution);
    NoNewlineInNumbers(0, cfg.maxLevel);
    NoNewlineInNumbers(0, cfg.cubeResolution);
    MemberLineClean("path", Quoted(cfg.path), false);
    MemberLineClean("fallbackPath", Quoted(cfg.fallbackPath), false);
    MemberLineClean("extension", Quoted(cfg.extension), false);
    MemberLineClean("tileResolution", IntToString(cfg.tileResolution), false);
    MemberLineClean("maxLevel", IntToString(cfg.maxLevel), false);
    MemberLineClean("cubeResolution", IntToString(cfg.cubeResolution), true);
    FixedConfigLinesClean();
  }

  lemma ConfigLinesSplit(cfg: MultiResConfig)
    requires '\n' !in cfg.path && '\n' !in cfg.fallbackPath && '\n' !in cfg.extension
    ensures Split(ConfigText(cfg), '\n') == ConfigLines(cfg)
  {
    ConfigLinesClean(cfg);
    SplitJoin(ConfigLines(cfg), '\n');
  }

  lemma FixedPathsClean()
    ensures '\n' !in TilePathTemplate && '\n' !in "/fallback/%s" && '\n' !in "png" && '\n' !in "jpg"
  {
  }

  /**
   * Line by line, config.json carries the tile template, "jpg" or "png", the tile size,
   * the level count and the cube size of the run.
   */
  lemma ConfigLayout(g: Geometry, png: bool)
    requires g.extension == (if png then ".png" else ".jpg")
    ensures var lines := Split(ConfigText(ConfigFor(g)), '\n');
      && |lines| == 12
      && lines[4] == MemberLine("path", Quoted(TilePathTemplate), false)
      && lines[6] == MemberLine("extension", Quoted(if png then "png" else "jpg"), false)
      && lines[7] == MemberLine("tileResolution", IntToString(g.tileSize), false)
      && lines[8] == MemberLine("maxLevel", IntToString(g.levels), false)
      && lines[9] == MemberLine("cubeResolution", IntToString(g.cubeSize), true)
  {
    var cfg := ConfigFor(g);
    assert cfg.extension == (if png then "png" else "jpg");
    assert '\n' !in cfg.path && '\n' !in cfg.fallbackPath && '\n' !in cfg.extension by {
      FixedPathsClean();
    }
    ConfigLinesSplit(cfg);
  }

  /**
   * The whole script: validate and plan, then write the descriptor, the tiles, the
   * fallbacks and config.json. A stop during validation leaves nothing on disk
   * because every stop precedes os.makedirs; with both sizes negative the script
   * writes cubic.pto for a negative canvas before handing it to nona.
   */
  method Run(width: nat, height: nat, requestedCube: int, tileSize: int, widthOverPi: nat, png: bool, file: string)
    returns (r: RunOutcome)
    ensures Plan(width, height, requestedCube, tileSize, widthOverPi, png).Stopped? ==>
      r == Halted(Plan(width, height, requestedCube, tileSize, widthOverPi, png).error)
    ensures Plan(width, height, requestedCube, tileSize, widthOverPi, png).BothNegative? ==>
      r == NegativeCanvas(Descriptor(CubeSizeFor(requestedCube, widthOverPi), width, height, file))
    ensures Plan(width, height, requestedCube, tileSize, widthOverPi, png).Planned? ==>
      var g := Plan(width, height, requestedCube, tileSize, widthOverPi, png).geometry;
      && r.Completed?
      && r.output.descriptor == Descriptor(g.cubeSize, width, height, file)
      && r.output.tiles == AllTiles(g.cubeSize, g.tileSize, g.extension, g.levels, 6)
      && |r.output.fallbacks| == 6
      && (forall f :: 0 <= f < 6 ==> r.output.fallbacks[f] == Fallback("fallback/" + FaceLetters[f] + g.extension, FallbackEdge))
      && r.output.config == ConfigText(ConfigFor(g))
  {
    var plan := Plan(width, height, requestedCube, tileSize, widthOverPi, png);
    match plan {
      case Stopped(error) =>
        return Halted(error);
      case BothNegative(cube, _, _) =>
        return NegativeCanvas(Descriptor(cube, width, height, file));
      case Planned(g) =>
        var descriptor := Descriptor(g.cubeSize, width, height, file);
        var tiles := GenerateTiles(g);
        var fallbacks := GenerateFallbacks(g.extension);
        var config := ConfigText(ConfigFor(g));
        r := Completed(RunOutput(descriptor, tiles, fallbacks, config));
    }
  }
}
