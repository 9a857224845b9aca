/**
 * Two inputs on which the viewer's child rule (src/js/libpannellum.js:367-463)
 * requests a tile that the generator (utils/multires/generate.py) never writes,
 * and the corrected rule on the same inputs.
 */
module TileFindings {
  import opened Wrappers
  import opened MultiresGenerate
  import opened TileChildren
  import opened Arith

  /** A cell outside the generator's grid of a level names no generated tile. */
  lemma OutsideGridNotWritten(c: nat, t: nat, ext: string, levels: int, f: nat, level: int, cell: Cell)
    requires t > 0 && f < 6 && cell.x >= 0 && cell.y >= 0 && level <= levels
    requires !InGeneratedGrid(c, levels, t, level, cell)
    ensures forall x :: x in AllTiles(c, t, ext, levels, 6) ==>
      x.face < 6 && FileName(x, ext) != TileName(level, f, cell.y, cell.x, ext)
  {
    forall x | x in AllTiles(c, t, ext, levels, 6)
      ensures x.face < 6 && FileName(x, ext) != TileName(level, f, cell.y, cell.x, ext)
    {
      InAllTiles(c, t, ext, levels, 6, x);
      if FileName(x, ext) == TileName(level, f, cell.y, cell.x, ext) {
        TileNameInjective(x.level, x.face, x.row, x.col, level, f, cell.y, cell.x, ext);
      }
    }
  }

  /**
   * A 3072 x 1536 panorama cut with --cubesize 1536 and the default 512-pixel tiles
   * has 3 levels. At level 2 (768 pixels) the last column is 256 pixels, exactly half
   * a tile, so the strict doubleTileSize < tileResolution test keeps the extra child:
   * the root spawns (1, 0) at level 2 and that spawns (3, 0) at level 3, requested as
   * /3/f0_3.jpg, while level 3 has only the columns 0 to 2.
   */
  lemma HalfTileColumnRequestedButNotWritten()
    ensures Plan(3072, 1536, 1536, 512, 0, false) == Planned(Geometry(1536, 512, 3, ".jpg"))
    ensures Cell(1, 0) in Children(0, 0, AsWrittenParams(1536, 3, 512, 1))
    ensures InGeneratedGrid(1536, 3, 512, 2, Cell(1, 0))
    ensures Cell(3, 0) in Children(1, 0, AsWrittenParams(1536, 3, 512, 2))
    ensures !InGeneratedGrid(1536, 3, 512, 3, Cell(3, 0))
    ensures forall x :: x in AllTiles(1536, 512, ".jpg", 3, 6) ==> x.face < 6 && FileName(x, ".jpg") != TileName(3, 0, 0, 3, ".jpg")
  {
    assert CeilLog2(1536, 512) == 2;
    assert HalvedSize(1536, 1) == 768;
    assert HalvedSize(1536, 2) == 384;
    assert GridCount(768, 512) == 2 && GridCount(1536, 512) == 3;
    assert !AsWrittenParams(1536, 3, 512, 1).small by {
      assert Pow2(2) == 4;
      assert ViewerLevelSize(1536, 3, 1) == 384.0;
      FModOfNats(384, 512);
    }
    assert !AsWrittenParams(1536, 3, 512, 2).small && AsWrittenParams(1536, 3, 512, 2).numTiles == 1 by {
      assert Pow2(1) == 2;
      assert ViewerLevelSize(1536, 3, 2) == 768.0;
      FModOfNats(768, 512);
      CeilOfRatio(768, 512);
    }
    OutsideGridNotWritten(1536, 512, ".jpg", 3, 0, 3, Cell(3, 0));
  }

  /** On the same input the corrected rule stops at column 2 of level 3. */
  lemma HalfTileColumnCorrected()
    ensures Cell(3, 0) !in Children(1, 0, CorrectedParams(1536, 3, 512, 2))
    ensures Cell(2, 0) in Children(1, 0, CorrectedParams(1536, 3, 512, 2))
  {
    assert HalvedSize(1536, 1) == 768;
    assert GridCount(768, 512) == 2;
    assert LastTile(768, 512) == 256;
  }

  /**
   * A 25762 x 12881 panorama (width / pi = 8200.3, so cubeSize 8200) with 512-pixel
   * tiles has 6 levels; the generator's level 1 is 256 pixels and level 2 is 512, one
   * tile. The viewer divides exactly: level 1 is 256.25, doubleTileSize 512.5 is not
   * below 512, and the root requests (1, 0) at level 2, which is outside the
   * generator's grid, so by OutsideGridNotWritten no file /2/f0_1 is written.
   */
  lemma InexactHalvingRequestedButNotWritten()
    ensures Plan(25762, 12881, 0, 512, 8200, false) == Planned(Geometry(8200, 512, 6, ".jpg"))
    ensures InGeneratedGrid(8200, 6, 512, 1, Cell(0, 0))
    ensures Cell(1, 0) in Children(0, 0, AsWrittenParams(8200, 6, 512, 1))
    ensures !InGeneratedGrid(8200, 6, 512, 2, Cell(1, 0))
  {
    assert CeilLog2(8200, 512) == 5;
    assert HalvedSize(8200, 4) == 512;
    assert HalvedSize(8200, 5) == 256;
    assert GridCount(512, 512) == 1 && GridCount(256, 512) == 1;
    var size := ViewerLevelSize(8200, 6, 1);
    assert Pow2(5) == 32;
    assert size == 256.25;
    assert Ceil(size / 512.0) == 1 by {
      assert (-(size / 512.0)).Floor == -1;
    }
    assert FMod(size, 512.0) == 256.25 by {
      assert (size / 512.0).Floor == 0;
    }
  }

  /** A level of one tile at most half a tile wide gives its tile the single child (0, 0). */
  lemma SingleSmallTileHasOneChild(p: ChildParams)
    requires p.numTiles == 0 && p.small
    ensures Children(0, 0, p) == [Cell(0, 0)]
  {
  }

  /**
   * The corrected rule uses the generator's 256-pixel level 1: its only tile is the
   * last one and it is small, so the root has the single child (0, 0).
   */
  lemma InexactHalvingCorrected()
    ensures CorrectedParams(8200, 6, 512, 1) == ChildParams(0, true)
  {
    assert CorrectedParams(8200, 6, 512, 1) == ChildParams(0, true) by {
      assert HalvedSize(8200, 5) == 256;
      assert GridCount(256, 512) == 1;
      assert LastTile(256, 512) == 256;
    }
  }
}
