/**
 * Tile addresses on the viewer side (src/js/libpannellum.js, MultiresNode): the
 * multiRes path template with its first %s, %l, %x and %y replaced, in that order,
 * by the cube side, the level and the tile column and row; and the agreement of the
 * resulting request with the file the generator writes for the same tile.
 */
module TilePaths {
  import opened Strings
  import opened MultiresGenerate

  /** path.replace('%s', side).replace('%l', level).replace('%x', x).replace('%y', y) */
  function NodePath(template: string, side: string, level: int, x: int, y: int): string
  {
    var s1 := ReplaceFirst(template, "%s", side);
    var s2 := ReplaceFirst(s1, "%l", IntToString(level));
    var s3 := ReplaceFirst(s2, "%x", IntToString(x));
    ReplaceFirst(s3, "%y", IntToString(y))
  }

  lemma FaceLetterShape(f: nat)
    requires f < 6
    ensures '%' !in FaceLetters[f]
  {
  }

  lemma NoPercentInNumber(i: int)
    ensures '%' !in IntToString(i)
  {
    var s := IntToString(i);
    assert forall k :: 0 <= k < |s| ==> s[k] == '-' || IsDigit(s[k]);
  }

  lemma TemplateScan()
    ensures NoOccurrenceBefore("/%l/" + "%s" + "%y_%x", "%s", 4)
    ensures NoOccurrenceBefore("%y_" + "%x", "%x", 3)
  {
    var s := "/%l/" + "%s" + "%y_%x";
    assert !OccursAt(s, "%s", 1) by { assert s[2] == 'l'; assert s[1..3][1] == s[2]; }
    assert forall k :: 0 <= k < 4 && k != 1 ==> s[k] != '%';
    forall k | 0 <= k < 4 ensures !OccursAt(s, "%s", k) {
      if k != 1 {
        assert s[k..k + 2][0] == s[k];
      }
    }
    var u := "%y_" + "%x";
    assert !OccursAt(u, "%x", 0) by { assert u[0..2][1] == u[1] == 'y'; }
    forall k | 0 <= k < 3 ensures !OccursAt(u, "%x", k) {
      if k > 0 {
        assert u[k..k + 2][0] == u[k] != '%';
      }
    }
  }

  lemma ExpandSide(side: string)
    ensures ReplaceFirst(TilePathTemplate, "%s", side) == "/%l/" + side + "%y_%x"
  {
    TemplateScan();
    assert TilePathTemplate == "/%l/" + "%s" + "%y_%x";
    ReplaceFirstAt("/%l/", "%s", "%y_%x", side);
  }

  lemma ExpandLevel(side: string, L: string)
    ensures ReplaceFirst("/%l/" + side + "%y_%x", "%l", L) == "/" + L + "/" + side + "%y_%x"
  {
    var b := "/" + side + "%y_%x";
    assert "/%l/" + side + "%y_%x" == "/" + "%l" + b;
    assert ReplaceFirst("/" + "%l" + b, "%l", L) == "/" + L + b by {
      NoOccurrenceWithoutHead("/", "%l", b);
      ReplaceFirstAt("/", "%l", b, L);
    }
    assert "/" + L + b == "/" + L + "/" + side + "%y_%x";
  }

  lemma ExpandColumn(p: string, X: string)
    requires '%' !in p
    ensures ReplaceFirst(p + "%y_%x", "%x", X) == p + "%y_" + X
  {
    TemplateScan();
    NoOccurrenceAfterPrefix(p, "%y_", "%x", "%x");
    assert p + "%y_%x" == (p + "%y_") + "%x" + "";
    assert p + "%y_" + "%x" == (p + "%y_") + "%x" + "";
    ReplaceFirstAt(p + "%y_", "%x", "", X);
  }

  lemma ExpandRow(p: string, X: string, Y: string)
    requires '%' !in p
    ensures ReplaceFirst(p + "%y_" + X, "%y", Y) == p + Y + "_" + X
  {
    assert p + "%y_" + X == p + "%y" + ("_" + X);
    NoOccurrenceWithoutHead(p, "%y", "_" + X);
    ReplaceFirstAt(p, "%y", "_" + X, Y);
  }

  /**
   * With the generator's template "/%l/%s%y_%x" the request path for face f is
   * "/<level>/<letter of f><y>_<x>", the generator's tile name without its extension.
   */
  lemma GeneratorTemplatePath(template: string, f: nat, level: int, x: nat, y: nat)
    requires template == TilePathTemplate && f < 6
    ensures NodePath(template, FaceLetters[f], level, x, y) == "/" + TileStem(level, f, y, x)
  {
    var side := FaceLetters[f];
    var L, X, Y := IntToString(level), NatToString(x), NatToString(y);
    var p := "/" + L + "/" + side;
    assert '%' !in p by {
      FaceLetterShape(f);
      NoPercentInNumber(level);
    }
    var s1 := ReplaceFirst(template, "%s", side);
    assert s1 == "/%l/" + side + "%y_%x" by {
      ExpandSide(side);
    }
    var s2 := ReplaceFirst(s1, "%l", L);
    assert s2 == p + "%y_%x" by {
      ExpandLevel(side, L);
    }
    var s3 := ReplaceFirst(s2, "%x", X);
    assert s3 == p + "%y_" + X by {
      ExpandColumn(p, X);
    }
    assert NodePath(template, side, level, x, y) == ReplaceFirst(s3, "%y", Y);
    ExpandRow(p, X, Y);
    assert TileStem(level, f, y, x) == L + "/" + side + Y + "_" + X;
    SlashInFront(L, side, Y, X);
  }

  lemma SlashInFront(L: string, side: string, Y: string, X: string)
    ensures "/" + L + "/" + side + Y + "_" + X == "/" + (L + "/" + side + Y + "_" + X)
  {
  }

  /**
   * The URL the viewer loads for tile (level, side f, column x, row y), that is the
   * node path, '.', and the configured extension, is "/" followed by the name under
   * which the generator wrote row y, column x of face f at that level.
   */
  lemma RequestMatchesGeneratedFile(g: Geometry, f: nat, level: int, x: nat, y: nat)
    requires f < 6 && |g.extension| >= 1 && g.extension[0] == '.'
    ensures NodePath(ConfigFor(g).path, FaceLetters[f], level, x, y) + "." + ConfigFor(g).extension
      == "/" + TileName(level, f, y, x, g.extension)
  {
    var cfg := ConfigFor(g);
    var stem := TileStem(level, f, y, x);
    assert NodePath(cfg.path, FaceLetters[f], level, x, y) == "/" + stem by {
      GeneratorTemplatePath(cfg.path, f, level, x, y);
    }
    assert "." + cfg.extension == g.extension;
    assert TileName(level, f, y, x, g.extension) == stem + g.extension;
    SlashAndDot(stem, cfg.extension);
  }

  lemma SlashAndDot(stem: string, e: string)
    ensures "/" + stem + "." + e == "/" + (stem + ("." + e))
  {
  }

  /** Different tiles are requested under different paths when the generator's template is used. */
  lemma NodePathInjective(template: string, f1: nat, l1: int, x1: nat, y1: nat, f2: nat, l2: int, x2: nat, y2: nat)
    requires template == TilePathTemplate && f1 < 6 && f2 < 6
    requires NodePath(template, FaceLetters[f1], l1, x1, y1) == NodePath(template, FaceLetters[f2], l2, x2, y2)
    ensures f1 == f2 && l1 == l2 && x1 == x2 && y1 == y2
  {
    GeneratorTemplatePath(template, f1, l1, x1, y1);
    GeneratorTemplatePath(template, f2, l2, x2, y2);
    var n1 := TileStem(l1, f1, y1, x1);
    var n2 := TileStem(l2, f2, y2, x2);
    assert n1 == ("/" + n1)[1..] == ("/" + n2)[1..] == n2;
    assert TileName(l1, f1, y1, x1, "") == n1 + "" == n1;
    assert TileName(l2, f2, y2, x2, "") == n2 + "" == n2;
    TileNameInjective(l1, f1, y1, x1, l2, f2, y2, x2, "");
  }
}
