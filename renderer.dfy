/**
 * The multires part of the viewer's renderer (src/js/libpannellum.js): the node cache
 * with its timestamps, the per-frame sort and trim of the cache, the quadtree walk
 * that collects the current nodes, the zoom-level choice and the loading test.
 *
 * Floating-point geometry is not modelled: whether a node's square is in view and its
 * angular distance from the view centre are parameters of the walk.
 */
module MultiresRenderer {
  import opened Wrappers
  import opened Arith
  import opened MultiresGenerate
  import opened TilePaths
  import opened TileChildren
  import opened NodeOrder

  /** The cache is cut back to this many entries ... */
  const CacheLimit := 200
  /** ... once it holds this many more than the current nodes. */
  const CacheSlack := 50

  /** A node whose path is the template expanded for its own side, level, column and row. */
  predicate NodeFor(template: string, n: Node)
  {
    n.side < 6 && n.path == NodePath(template, FaceLetters[n.side], n.level, n.x, n.y)
  }

  /** new MultiresNode(vertices, side, level, x, y, path), before its first visit. */
  function NewNode(template: string, side: nat, level: int, x: nat, y: nat): Node
    requires side < 6
  {
    Node(side, level, x, y, NodePath(template, FaceLetters[side], level, x, y), 0, 0.0, false)
  }

  /** A new node's path is its own expanded template. */
  lemma NewNodeFor(template: string, side: nat, level: int, x: nat, y: nat)
    requires side < 6
    ensures NodeFor(template, NewNode(template, side, level, x, y))
  {
  }

  /** The node names a tile the generator wrote for this geometry. */
  predicate AddressedIn(cubeSize: nat, maxLevel: int, tileSize: nat, n: Node)
  {
    tileSize > 0 && 1 <= n.level <= maxLevel &&
    InGeneratedGrid(cubeSize, maxLevel, tileSize, n.level, Cell(n.x, n.y))
  }

  // ---------------------------------------------------------------------------
  // Paths of a node list
  // ---------------------------------------------------------------------------

  function Paths(s: seq<Node>): set<string>
  {
    set n | n in s :: n.path
  }

  predicate DistinctPaths(s: seq<Node>)
  {
    forall i, j :: 0 <= i < j < |s| ==> s[i].path != s[j].path
  }

  /** The first position holding path p, if any. */
  function FindPath(s: seq<Node>, p: string): (r: Option<nat>)
    ensures r.None? <==> p !in Paths(s)
    ensures r.Some? ==>
      r.value < |s| && s[r.value].path == p && forall k :: 0 <= k < r.value ==> s[k].path != p
  {
    if s == [] then None
    else if s[0].path == p then Some(0)
    else
      var r := FindPath(s[1..], p);
      assert Paths(s) == {s[0].path} + Paths(s[1..]) by {
        assert s == [s[0]] + s[1..];
      }
      match r
      case None => None
      case Some(i) => Some(i + 1)
  }

  lemma UpdateKeepsPaths(s: seq<Node>, i: nat, x: Node)
    requires i < |s| && x.path == s[i].path
    ensures Paths(s[i := x]) == Paths(s)
    ensures DistinctPaths(s) ==> DistinctPaths(s[i := x])
  {
    var t := s[i := x];
    forall p ensures p in Paths(t) <==> p in Paths(s) {
      if p in Paths(t) {
        var m :| m in t && m.path == p;
        var k :| 0 <= k < |t| && t[k] == m;
        assert s[k].path == p;
      }
      if p in Paths(s) {
        var m :| m in s && m.path == p;
        var k :| 0 <= k < |s| && s[k] == m;
        assert t[k].path == p;
      }
    }
  }

  lemma AppendPaths(s: seq<Node>, x: Node)
    ensures Paths(s + [x]) == Paths(s) + {x.path}
    ensures DistinctPaths(s) && x.path !in Paths(s) ==> DistinctPaths(s + [x])
  {
    var t := s + [x];
    forall p ensures p in Paths(t) <==> p in Paths(s) + {x.path} {
      if p in Paths(t) {
        var m :| m in t && m.path == p;
        var k :| 0 <= k < |t| && t[k] == m;
        if k < |s| {
          assert s[k].path == p;
        }
      }
      if p in Paths(s) {
        var m :| m in s && m.path == p;
        var k :| 0 <= k < |s| && s[k] == m;
        assert t[k].path == p;
      }
    }
    if DistinctPaths(s) && x.path !in Paths(s) {
      forall i, j | 0 <= i < j < |t| ensures t[i].path != t[j].path {
        if j == |s| {
          assert t[i] == s[i];
          assert s[i] in s;
        }
      }
    }
  }

  lemma ConsPaths(x: Node, s: seq<Node>)
    ensures Paths([x] + s) == {x.path} + Paths(s)
    ensures DistinctPaths([x] + s) <==> x.path !in Paths(s) && DistinctPaths(s)
  {
    ConsPathSet(x, s);
    ConsDistinct(x, s);
  }

  lemma ConsPathSet(x: Node, s: seq<Node>)
    ensures Paths([x] + s) == {x.path} + Paths(s)
  {
    var t := [x] + s;
    forall p | p in Paths(t) ensures p in {x.path} + Paths(s) {
      var m :| m in t && m.path == p;
      if m != x {
        assert m in s;
      }
    }
    forall p | p in Paths(s) ensures p in Paths(t) {
      var m :| m in s && m.path == p;
      assert m in t;
    }
  }

  lemma ConsDistinct(x: Node, s: seq<Node>)
    ensures DistinctPaths([x] + s) <==> x.path !in Paths(s) && DistinctPaths(s)
  {
    var t := [x] + s;
    if x.path in Paths(s) {
      var m :| m in s && m.path == x.path;
      var k :| 0 <= k < |s| && s[k] == m;
      assert t[0].path == t[k + 1].path;
    }
    if DistinctPaths(t) {
      forall i, j | 0 <= i < j < |s| ensures s[i].path != s[j].path {
        assert t[i + 1].path != t[j + 1].path;
      }
    }
    if x.path !in Paths(s) && DistinctPaths(s) {
      forall i, j | 0 <= i < j < |t| ensures t[i].path != t[j].path {
        if i == 0 {
          assert t[j] == s[j - 1] && t[j] in s;
        } else {
          assert t[i] == s[i - 1] && t[j] == s[j - 1];
        }
      }
    }
  }

  /**
   * The cache invariant: no two entries share a path, every entry's path is its own
   * expanded template, and every timestamp was handed out before the counter.
   */
  predicate CacheInvariant(template: string, cache: seq<Node>, counter: int)
  {
    counter >= 0 && DistinctPaths(cache) &&
    (forall n :: n in cache ==> 0 <= n.timestamp < counter) && AllFor(template, cache)
  }

  /** The check that a node's path is its own expansion of the template. */
  function PathCheck(template: string): Node -> bool
  {
    n => NodeFor(template, n)
  }

  /** Every node of the list has its own expanded template as its path. */
  predicate AllFor(template: string, s: seq<Node>)
  {
    All(PathCheck(template), s)
  }

  /** Every node of the list passes the check. */
  predicate All(p: Node -> bool, s: seq<Node>)
    decreases |s|
  {
    s == [] || (p(s[0]) && All(p, s[1..]))
  }

  lemma {:induction false} AllAt(p: Node -> bool, s: seq<Node>, k: nat)
    requires All(p, s) && k < |s|
    ensures p(s[k])
  {
    if k > 0 {
      var rest := s[1..];
      assert All(p, rest) && rest[k - 1] == s[k];
      AllAt(p, rest, k - 1);
    }
  }

  lemma {:induction false} AllUpdate(p: Node -> bool, s: seq<Node>, i: nat, x: Node)
    requires All(p, s) && i < |s| && p(x)
    ensures All(p, s[i := x])
  {
    if i > 0 {
      AllUpdate(p, s[1..], i - 1, x);
      assert s[i := x][1..] == s[1..][i - 1 := x];
    }
  }

  lemma {:induction false} AllAppend(p: Node -> bool, s: seq<Node>, x: Node)
    requires All(p, s) && p(x)
    ensures All(p, s + [x])
  {
    if s != [] {
      AllAppend(p, s[1..], x);
      assert (s + [x])[1..] == s[1..] + [x];
    }
  }

  lemma {:induction false} AllPrefix(p: Node -> bool, s: seq<Node>, k: nat)
    requires All(p, s) && k <= |s|
    ensures All(p, s[..k])
  {
    if k > 0 {
      AllPrefix(p, s[1..], k - 1);
      assert s[..k][1..] == s[1..][..k - 1];
    }
  }

  lemma {:induction false} AllInsert(p: Node -> bool, x: Node, s: seq<Node>, before: (Node, Node) -> bool)
    requires All(p, s) && p(x)
    ensures All(p, Insert(x, s, before))
  {
    if s != [] && !before(x, s[0]) {
      AllInsert(p, x, s[1..], before);
      assert ([s[0]] + Insert(x, s[1..], before))[1..] == Insert(x, s[1..], before);
    } else {
      assert ([x] + s)[1..] == s;
    }
  }

  lemma {:induction false} AllSort(p: Node -> bool, s: seq<Node>, before: (Node, Node) -> bool)
    requires All(p, s)
    ensures All(p, SortBy(s, before))
  {
    if s != [] {
      AllSort(p, s[1..], before);
      AllInsert(p, s[0], SortBy(s[1..], before), before);
    }
  }

  /** A cache hit refreshes one entry's timestamp and diff: the invariant and the paths survive. */
  lemma HitKeepsInvariant(template: string, cache: seq<Node>, counter: int, i: nat, d: real)
    requires CacheInvariant(template, cache, counter) && i < |cache|
    ensures var hit := cache[i].(timestamp := counter, diff := d);
      CacheInvariant(template, cache[i := hit], counter + 1) && NodeFor(template, hit) &&
      Paths(cache[i := hit]) == Paths(cache)
  {
    var hit := cache[i].(timestamp := counter, diff := d);
    UpdateKeepsPaths(cache, i, hit);
    AllAt(PathCheck(template), cache, i);
    AllUpdate(PathCheck(template), cache, i, hit);
    var t := cache[i := hit];
    forall n | n in t ensures 0 <= n.timestamp < counter + 1 {
      var k :| 0 <= k < |t| && t[k] == n;
      if k != i {
        assert n == cache[k];
      }
    }
  }

  /** A miss appends the node with the next timestamp: the invariant survives and its path is added. */
  lemma MissKeepsInvariant(template: string, cache: seq<Node>, counter: int, n: Node)
    requires CacheInvariant(template, cache, counter) && NodeFor(template, n) && n.path !in Paths(cache)
    ensures var added := n.(timestamp := counter);
      CacheInvariant(template, cache + [added], counter + 1) &&
      Paths(cache + [added]) == Paths(cache) + {n.path}
  {
    var added := n.(timestamp := counter);
    AppendPaths(cache, added);
    AllAppend(PathCheck(template), cache, added);
    var t := cache + [added];
    forall m | m in t ensures 0 <= m.timestamp < counter + 1 {
      var k :| 0 <= k < |t| && t[k] == m;
      if k < |cache| {
        assert m == cache[k];
      }
    }
  }

  /** What a cache visit pushes to the current nodes: the refreshed cached entry, or the node itself. */
  function Pushed(cache: seq<Node>, n: Node, stamp: int): Node
  {
    match FindPath(cache, n.path)
    case Some(i) => cache[i].(timestamp := stamp, diff := n.diff)
    case None => n.(timestamp := stamp)
  }

  /**
   * One visit on values: the pushed node joins the current list and the cache in
   * the place of its entry or at the end, and the invariants are kept.
   */
  lemma VisitKeepsInvariant(template: string, cache: seq<Node>, current: seq<Node>, counter: int, n: Node)
    requires CacheInvariant(template, cache, counter) && AllFor(template, current) && NodeFor(template, n)
    ensures var x := Pushed(cache, n, counter);
      AllFor(template, current + [x]) &&
      match FindPath(cache, n.path)
      case Some(i) =>
        CacheInvariant(template, cache[i := x], counter + 1) && Paths(cache[i := x]) == Paths(cache) + {n.path}
      case None =>
        CacheInvariant(template, cache + [x], counter + 1) && Paths(cache + [x]) == Paths(cache) + {n.path}
  {
    var x := Pushed(cache, n, counter);
    match FindPath(cache, n.path)
    case Some(i) =>
      HitKeepsInvariant(template, cache, counter, i, n.diff);
      assert n.path in Paths(cache);
      AllAppend(PathCheck(template), current, x);
    case None =>
      MissKeepsInvariant(template, cache, counter, n);
      AllAppend(PathCheck(template), current, x);
  }

  /**
   * With the generator's template, the pushed node is the visited tile: a cached
   * entry with the same path has the same side, level, column and row.
   */
  lemma PushedSameTile(template: string, cache: seq<Node>, n: Node, stamp: int)
    requires template == TilePathTemplate && AllFor(template, cache) && NodeFor(template, n)
    ensures var x := Pushed(cache, n, stamp);
      x.path == n.path && x.side == n.side && x.level == n.level && x.x == n.x && x.y == n.y
  {
    match FindPath(cache, n.path)
    case Some(i) =>
      AllAt(PathCheck(template), cache, i);
      var c := cache[i];
      NodePathInjective(template, c.side, c.level, c.x, c.y, n.side, n.level, n.x, n.y);
    case None =>
  }

  /**
   * c1 extends c0, every added node's path is in paths and, when tracked, every
   * added node addresses a generated tile.
   */
  predicate Extends(c0: seq<Node>, c1: seq<Node>, paths: set<string>,
                    cube: nat, maxLevel: int, t: nat, tracked: bool)
  {
    |c0| <= |c1| && c1[..|c0|] == c0 &&
    forall k :: |c0| <= k < |c1| ==>
      c1[k].path in paths && (tracked ==> AddressedIn(cube, maxLevel, t, c1[k]))
  }

  /**
   * A child cell of a node under the corrected child rule has a natural column and
   * row, and addresses a generated tile whenever the node does.
   */
  lemma ChildCellAddressed(cube: nat, maxLevel: int, t: nat, n: Node, c: Cell, child: Node)
    requires t > 0 && 1 <= n.level < maxLevel
    requires c in Children(n.x, n.y, CorrectedParams(cube, maxLevel, t, n.level))
    requires child.level == n.level + 1 && child.x == c.x && child.y == c.y
    ensures AddressedIn(cube, maxLevel, t, n) ==> AddressedIn(cube, maxLevel, t, child)
  {
    if AddressedIn(cube, maxLevel, t, n) {
      CorrectedChildrenExist(cube, maxLevel, t, n.level, Cell(n.x, n.y), c);
    }
  }

  lemma ChildCellNatural(x: nat, y: nat, p: ChildParams, c: Cell)
    requires c in Children(x, y, p)
    ensures c.x >= 0 && c.y >= 0
  {
    assert c.x / 2 == x && c.y / 2 == y;
  }

  /** A list that extends another while tracked also extends it when tracking is weaker. */
  lemma ExtendsWeaken(c0: seq<Node>, c1: seq<Node>, paths: set<string>,
                      cube: nat, maxLevel: int, t: nat, a1: bool, a2: bool)
    requires Extends(c0, c1, paths, cube, maxLevel, t, a2) && (a1 ==> a2)
    ensures Extends(c0, c1, paths, cube, maxLevel, t, a1)
  {
  }

  /** The one node a cache step pushes is cached and, when tracked, addresses a generated tile. */
  lemma VisitExtends(template: string, cache: seq<Node>, cur: seq<Node>, n: Node, stamp: int,
                     cube: nat, maxLevel: int, t: nat, tracked: bool)
    requires AllFor(template, cache) && NodeFor(template, n)
    requires tracked ==> template == TilePathTemplate && AddressedIn(cube, maxLevel, t, n)
    ensures Extends(cur, cur + [Pushed(cache, n, stamp)], Paths(cache) + {n.path}, cube, maxLevel, t, tracked)
  {
    var c1 := cur + [Pushed(cache, n, stamp)];
    assert c1[..|cur|] == cur;
    if tracked {
      PushedSameTile(template, cache, n, stamp);
    }
  }

  lemma ExtendsTrans(c0: seq<Node>, c1: seq<Node>, c2: seq<Node>, p1: set<string>, p2: set<string>,
                     cube: nat, maxLevel: int, t: nat, a1: bool, a2: bool)
    requires Extends(c0, c1, p1, cube, maxLevel, t, a1)
    requires Extends(c1, c2, p2, cube, maxLevel, t, a2)
    requires p1 <= p2 && (a1 ==> a2)
    ensures Extends(c0, c2, p2, cube, maxLevel, t, a1)
  {
    assert c2[..|c0|] == c2[..|c1|][..|c0|];
    forall k | |c0| <= k < |c1| ensures c2[k] == c1[k] {
      assert c2[..|c1|][k] == c1[k];
    }
  }

  /**
   * Sorting the walked nodes by multiresNodeRenderSort keeps what the walk
   * established of each of them, and puts them in render order.
   */
  lemma RenderSortKeepsWalk(template: string, walked: seq<Node>, paths: set<string>,
                            cube: nat, maxLevel: int, t: nat, tracked: bool)
    requires AllFor(template, walked) && Extends([], walked, paths, cube, maxLevel, t, tracked)
    ensures var r := SortBy(walked, RenderBefore);
      AllFor(template, r) && Extends([], r, paths, cube, maxLevel, t, tracked) &&
      forall i, j :: 0 <= i < j < |r| ==>
        r[i].level <= r[j].level && (r[i].level == r[j].level ==> r[i].diff <= r[j].diff)
  {
    var r := SortBy(walked, RenderBefore);
    RenderSortOrder(walked);
    AllSort(PathCheck(template), walked, RenderBefore);
    forall k | 0 <= k < |r|
      ensures r[k].path in paths && (tracked ==> AddressedIn(cube, maxLevel, t, r[k]))
    {
      assert r[k] in multiset(walked);
      var w :| 0 <= w < |walked| && walked[w] == r[k];
    }
  }

  /** Sorting the cache and cutting it back keep the cache invariant. */
  lemma SortTrimKeepsInvariant(template: string, cache: seq<Node>, counter: int)
    requires CacheInvariant(template, cache, counter)
    ensures var sorted := SortBy(cache, CacheBefore);
      CacheInvariant(template, sorted, counter) &&
      (|sorted| > CacheLimit ==> CacheInvariant(template, sorted[..CacheLimit], counter))
  {
    var sorted := SortBy(cache, CacheBefore);
    SortPermutes(cache, CacheBefore);
    SortKeepsPaths(cache, CacheBefore);
    AllSort(PathCheck(template), cache, CacheBefore);
    forall n | n in sorted ensures 0 <= n.timestamp < counter {
      assert n in multiset(sorted);
    }
    if |sorted| > CacheLimit {
      TrimKeepsInvariant(template, sorted, counter);
    }
  }

  /** Keeping the first CacheLimit entries keeps the cache invariant. */
  lemma TrimKeepsInvariant(template: string, cache: seq<Node>, counter: int)
    requires CacheInvariant(template, cache, counter) && |cache| > CacheLimit
    ensures CacheInvariant(template, cache[..CacheLimit], counter)
  {
    AllPrefix(PathCheck(template), cache, CacheLimit);
    assert forall n :: n in cache[..CacheLimit] ==> n in cache;
  }

  /** Inserting into a sorted list adds exactly the inserted node's path. */
  lemma {:induction false} InsertKeepsPaths(x: Node, s: seq<Node>, before: (Node, Node) -> bool)
    ensures Paths(Insert(x, s, before)) == Paths(s) + {x.path}
    ensures DistinctPaths(s) && x.path !in Paths(s) ==> DistinctPaths(Insert(x, s, before))
  {
    if s == [] {
      ConsPaths(x, s);
    } else if before(x, s[0]) {
      ConsPaths(x, s);
    } else {
      var rest := Insert(x, s[1..], before);
      InsertKeepsPaths(x, s[1..], before);
      ConsPaths(s[0], s[1..]);
      ConsPaths(s[0], rest);
      assert s == [s[0]] + s[1..];
    }
  }

  /** Sorting keeps the set of paths, and keeps them distinct. */
  lemma {:induction false} SortKeepsPaths(s: seq<Node>, before: (Node, Node) -> bool)
    ensures Paths(SortBy(s, before)) == Paths(s)
    ensures DistinctPaths(s) ==> DistinctPaths(SortBy(s, before))
  {
    if s != [] {
      SortKeepsPaths(s[1..], before);
      InsertKeepsPaths(s[0], SortBy(s[1..], before), before);
      ConsPaths(s[0], s[1..]);
      assert s == [s[0]] + s[1..];
    }
  }

  /** The linear search of the cache: the first position holding path p, or |s| when there is none. */
  method LookupPath(s: seq<Node>, p: string) returns (i: nat)
    ensures i <= |s|
    ensures FindPath(s, p) == if i < |s| then Some(i) else None
  {
    i := 0;
    while i < |s| && s[i].path != p
      invariant i <= |s|
      invariant forall k :: 0 <= k < i ==> s[k].path != p
    {
      i := i + 1;
    }
  }

  // ---------------------------------------------------------------------------
  // What a frame's walk pushes
  // ---------------------------------------------------------------------------

  /** A tile of the cube: side, level, column and row. */
  datatype TileId = TileId(side: nat, level: int, x: nat, y: nat)

  /**
   * A current node as the frame draws it: the image it requests, its distance from
   * the view centre and, when paths name tiles one-to-one, the tile it covers.
   */
  datatype Shown = Shown(path: string, diff: real, tile: Option<TileId>)

  function ShownAs(x: Node, byTile: bool): Shown
  {
    Shown(x.path, x.diff, if byTile then Some(TileId(x.side, x.level, x.x, x.y)) else None)
  }

  function Shows(s: seq<Node>, byTile: bool): seq<Shown>
  {
    if s == [] then [] else [ShownAs(s[0], byTile)] + Shows(s[1..], byTile)
  }

  lemma {:induction false} ShowsAppend(a: seq<Node>, b: seq<Node>, byTile: bool)
    ensures Shows(a + b, byTile) == Shows(a, byTile) + Shows(b, byTile)
  {
    if a == [] {
      assert a + b == b;
    } else {
      assert (a + b)[1..] == a[1..] + b;
      ShowsAppend(a[1..], b, byTile);
    }
  }

  lemma {:induction false} ShowsInsert(x: Node, s: seq<Node>, before: (Node, Node) -> bool, byTile: bool)
    ensures multiset(Shows(Insert(x, s, before), byTile)) == multiset(Shows(s, byTile)) + multiset{ShownAs(x, byTile)}
  {
    if s == [] {
    } else if before(x, s[0]) {
      assert ([x] + s)[1..] == s;
    } else {
      ShowsInsert(x, s[1..], before, byTile);
      assert ([s[0]] + Insert(x, s[1..], before))[1..] == Insert(x, s[1..], before);
    }
  }

  /** Sorting the current nodes changes the order in which they are drawn, not what is drawn. */
  lemma {:induction false} ShowsSort(s: seq<Node>, before: (Node, Node) -> bool, byTile: bool)
    ensures multiset(Shows(SortBy(s, before), byTile)) == multiset(Shows(s, byTile))
  {
    if s != [] {
      ShowsSort(s[1..], before, byTile);
      ShowsInsert(s[0], SortBy(s[1..], before), before, byTile);
    }
  }

  /**
   * The node a cache step pushes is drawn as the visited node: same path, same diff
   * and, with the generator's template, the same tile.
   */
  lemma PushedShown(template: string, cache: seq<Node>, n: Node, stamp: int)
    requires AllFor(template, cache) && NodeFor(template, n)
    ensures var byTile := template == TilePathTemplate;
      Shows([Pushed(cache, n, stamp)], byTile) == [ShownAs(n, byTile)]
  {
    var x := Pushed(cache, n, stamp);
    if template == TilePathTemplate {
      PushedSameTile(template, cache, n, stamp);
    }
    assert [x][1..] == [];
  }

  /**
   * What a frame's walk depends on: the image's multiRes settings, the zoom level
   * and, for each node, whether its square is in view and its distance from the
   * view centre.
   */
  datatype Walker = Walker(template: string, cube: nat, maxLevel: int, tile: nat, level: int,
                           visible: Node -> bool, diffOf: Node -> real)

  predicate WalkerOk(w: Walker)
  {
    w.tile > 0 && w.level <= Max(1, w.maxLevel)
  }

  /** The node one level finer than n at cell c, as the walk creates it. */
  function ChildNode(template: string, n: Node, c: Cell): Node
    requires n.side < 6 && c.x >= 0 && c.y >= 0
  {
    NewNode(template, n.side, n.level + 1, c.x, c.y)
  }

  /** The child cells of n under the corrected child rule, in the order they are created. */
  function ChildCells(w: Walker, n: Node): (cs: seq<Cell>)
    requires WalkerOk(w) && 1 <= n.level < w.level
    ensures forall c :: c in cs ==> c.x >= 0 && c.y >= 0
  {
    Children(n.x, n.y, CorrectedParams(w.cube, w.maxLevel, w.tile, n.level))
  }

  /**
   * What testMultiresNode pushes, in order, for node n: nothing when its square is
   * out of view; otherwise n itself with its diff, followed, while n is coarser
   * than the zoom level, by the walks of its children.
   */
  function Walk(w: Walker, n: Node): seq<Shown>
    requires WalkerOk(w) && n.side < 6 && n.level >= 1
    decreases w.level - n.level, 1
  {
    if !w.visible(n) then []
    else
      [ShownAs(n.(diff := w.diffOf(n)), w.template == TilePathTemplate)] +
      if n.level < w.level then WalkBelow(w, n) else []
  }

  /** The walks of the children of n, which is coarser than the zoom level, one after the other. */
  function WalkBelow(w: Walker, n: Node): seq<Shown>
    requires WalkerOk(w) && n.side < 6 && 1 <= n.level < w.level
    decreases w.level - n.level, 0, 5
  {
    WalkChildren(w, n, |ChildCells(w, n)|)
  }

  /** The walks of the first k children of n, one after the other. */
  function WalkChildren(w: Walker, n: Node, k: nat): seq<Shown>
    requires WalkerOk(w) && n.side < 6 && 1 <= n.level < w.level
    requires k <= |ChildCells(w, n)|
    decreases w.level - n.level, 0, k
  {
    if k == 0 then []
    else WalkChildren(w, n, k - 1) + Walk(w, ChildNode(w.template, n, ChildCells(w, n)[k - 1]))
  }

  /**
   * A node in view: the cache step pushes a node drawn as n, and the children's
   * walks follow while n is coarser than the zoom level; together that is Walk.
   */
  lemma WalkVisited(w: Walker, n: Node, cache: seq<Node>, stamp: int, c0: seq<Node>, c1: seq<Node>, c2: seq<Node>)
    requires WalkerOk(w) && n.side < 6 && n.level >= 1 && w.visible(n)
    requires AllFor(w.template, cache) && NodeFor(w.template, n)
    requires c1 == c0 + [Pushed(cache, n.(diff := w.diffOf(n)), stamp)]
    requires var byTile := w.template == TilePathTemplate;
      if n.level < w.level then Shows(c2, byTile) == Shows(c1, byTile) + WalkBelow(w, n) else c2 == c1
    ensures Shows(c2, w.template == TilePathTemplate) == Shows(c0, w.template == TilePathTemplate) + Walk(w, n)
  {
    var byTile := w.template == TilePathTemplate;
    var m := n.(diff := w.diffOf(n));
    PushedShown(w.template, cache, m, stamp);
    ShowsAppend(c0, [Pushed(cache, m, stamp)], byTile);
  }

  /** Testing one more child appends that child's walk to what the earlier children pushed. */
  lemma WalkChildrenStep(w: Walker, n: Node, j: nat, c0: seq<Node>, c1: seq<Node>, c2: seq<Node>, byTile: bool)
    requires WalkerOk(w) && n.side < 6 && 1 <= n.level < w.level
    requires j < |ChildCells(w, n)|
    requires Shows(c1, byTile) == Shows(c0, byTile) + WalkChildren(w, n, j)
    requires Shows(c2, byTile) == Shows(c1, byTile) + Walk(w, ChildNode(w.template, n, ChildCells(w, n)[j]))
    ensures Shows(c2, byTile) == Shows(c0, byTile) + WalkChildren(w, n, j + 1)
  {
    ShownRegroup(Shows(c0, byTile), WalkChildren(w, n, j), Walk(w, ChildNode(w.template, n, ChildCells(w, n)[j])));
  }

  lemma ShownRegroup(a: seq<Shown>, b: seq<Shown>, c: seq<Shown>)
    ensures (a + b) + c == a + (b + c)
  {
  }

  /** The walks of the first k base tiles f, b, u, d, l, r, one after the other. */
  function WalkRoots(w: Walker, k: nat): seq<Shown>
    requires WalkerOk(w) && k <= 6
  {
    if k == 0 then [] else WalkRoots(w, k - 1) + Walk(w, NewNode(w.template, k - 1, 1, 0, 0))
  }

  // ---------------------------------------------------------------------------
  // The renderer
  // ---------------------------------------------------------------------------

  class Renderer {
    /** The image's multiRes settings: path template, cube edge, finest level, tile edge. */
    const template: string
    const cubeResolution: nat
    const maxLevel: int
    const tileResolution: nat

    /** program.level: the finest level to show, -1 until the first zoom check. */
    var level: int
    var nodeCache: seq<Node>
    var currentNodes: seq<Node>
    var nodeCacheTimestamp: int

    /**
     * The cache never holds two nodes with the same path, every timestamp handed
     * out is below the counter, and every node's path is its own expanded template.
     */
    predicate Valid()
      reads this
    {
      tileResolution > 0 && level <= Max(1, maxLevel) &&
      CacheInvariant(template, nodeCache, nodeCacheTimestamp) && AllFor(template, currentNodes)
    }

    /** The state init leaves behind. */
    constructor (template: string, cubeResolution: nat, maxLevel: int, tileResolution: nat)
      requires tileResolution > 0
      ensures Valid()
      ensures this.template == template && this.cubeResolution == cubeResolution
      ensures this.maxLevel == maxLevel && this.tileResolution == tileResolution
      ensures level == -1 && nodeCache == [] && currentNodes == [] && nodeCacheTimestamp == 0
    {
      this.template := template;
      this.cubeResolution := cubeResolution;
      this.maxLevel := maxLevel;
      this.tileResolution := tileResolution;
      level := -1;
      nodeCache := [];
      currentNodes := [];
      nodeCacheTimestamp := 0;
    }

    /**
     * The cache step of testMultiresNode: a node whose path is cached reuses the
     * cached entry, which gets a fresh timestamp and the new diff and is pushed to
     * the current nodes; any other node gets a fresh timestamp and is appended to
     * both lists.
     */
    method Visit(n: Node)
      requires Valid() && NodeFor(template, n)
      modifies this
      ensures Valid() && level == old(level)
      ensures nodeCacheTimestamp == old(nodeCacheTimestamp) + 1
      ensures Paths(nodeCache) == Paths(old(nodeCache)) + {n.path}
      ensures currentNodes == old(currentNodes) + [Pushed(old(nodeCache), n, old(nodeCacheTimestamp))]
      ensures match FindPath(old(nodeCache), n.path)
        case Some(i) => nodeCache == old(nodeCache)[i := Pushed(old(nodeCache), n, old(nodeCacheTimestamp))]
        case None => nodeCache == old(nodeCache) + [Pushed(old(nodeCache), n, old(nodeCacheTimestamp))]
    {
      var i := LookupPath(nodeCache, n.path);
      VisitKeepsInvariant(template, nodeCache, currentNodes, nodeCacheTimestamp, n);
      var stamp := nodeCacheTimestamp;
      nodeCacheTimestamp := nodeCacheTimestamp + 1;
      if i < |nodeCache| {
        var hit := nodeCache[i].(timestamp := stamp, diff := n.diff);
        nodeCache := nodeCache[i := hit];
        currentNodes := currentNodes + [hit];
      } else {
        var added := n.(timestamp := stamp);
        currentNodes := currentNodes + [added];
        nodeCache := nodeCache + [added];
      }
    }

    /** The zoom loop's test: at level l the screen is wider than the level's scaled edge. */
    predicate TooCoarse(canvasWidth: real, hfov: real, halfPi: real, l: int)
      requires l <= maxLevel && halfPi > 0.0
    {
      canvasWidth > ViewerLevelSize(cubeResolution, maxLevel, l) * hfov / halfPi * 0.9
    }

    /**
     * checkZoom: the first level from 1 up whose scaled edge covers the canvas width,
     * but never beyond maxLevel, and 1 when maxLevel is below 1.
     */
    method CheckZoom(canvasWidth: real, hfov: real, halfPi: real)
      requires halfPi > 0.0
      requires Valid()
      modifies this
      ensures Valid()
      ensures nodeCache == old(nodeCache) && currentNodes == old(currentNodes)
      ensures nodeCacheTimestamp == old(nodeCacheTimestamp)
      ensures 1 <= level <= Max(1, maxLevel)
      ensures forall l :: 1 <= l < level ==> TooCoarse(canvasWidth, hfov, halfPi, l)
      ensures level < maxLevel ==> !TooCoarse(canvasWidth, hfov, halfPi, level)
    {
      var newLevel := 1;
      while newLevel < maxLevel && TooCoarse(canvasWidth, hfov, halfPi, newLevel)
        invariant 1 <= newLevel <= Max(1, maxLevel)
        invariant forall l :: 1 <= l < newLevel ==> TooCoarse(canvasWidth, hfov, halfPi, l)
        decreases maxLevel - newLevel
      {
        newLevel := newLevel + 1;
      }
      level := newLevel;
    }

    /** isLoading: WebGL multires rendering with some current node still waiting for its texture. */
    method IsLoading(glAvailable: bool, multires: bool) returns (loading: bool)
      ensures loading <==>
        glAvailable && multires && exists k :: 0 <= k < |currentNodes| && !currentNodes[k].textureLoaded
    {
      if glAvailable && multires {
        var i := 0;
        while i < |currentNodes|
          invariant 0 <= i <= |currentNodes|
          invariant forall k :: 0 <= k < i ==> currentNodes[k].textureLoaded
        {
          if !currentNodes[i].textureLoaded {
            return true;
          }
          i := i + 1;
        }
      }
      return false;
    }

    /**
     * The cache housekeeping at the start of a multires frame: sort by
     * multiresNodeSort, then keep the first 200 entries only when the cache holds
     * more than 200 and more than 50 beyond the current nodes.
     */
    method SortAndTrimCache()
      requires Valid()
      modifies this
      ensures Valid()
      ensures var sorted := SortBy(old(nodeCache), CacheBefore);
        nodeCache == if |sorted| > CacheLimit && |sorted| > |currentNodes| + CacheSlack
                     then sorted[..CacheLimit] else sorted
      ensures currentNodes == old(currentNodes) && level == old(level)
      ensures nodeCacheTimestamp == old(nodeCacheTimestamp)
    {
      SortTrimKeepsInvariant(template, nodeCache, nodeCacheTimestamp);
      nodeCache := SortBy(nodeCache, CacheBefore);
      if |nodeCache| > CacheLimit && |nodeCache| > |currentNodes| + CacheSlack {
        nodeCache := nodeCache[..CacheLimit];
      }
    }

    /** The walk at zoom level level, with the frame's view test and distances. */
    function Walking(level: int, visible: Node -> bool, diffOf: Node -> real): Walker
    {
      Walker(template, cubeResolution, maxLevel, tileResolution, level, visible, diffOf)
    }

    /** The walk from n keeps to generated tiles: the generator's template, and n addresses a generated tile. */
    predicate Tracked(n: Node)
    {
      template == TilePathTemplate && AddressedIn(cubeResolution, maxLevel, tileResolution, n)
    }

    /**
     * testMultiresNode with the corrected child rule: a node in view is visited;
     * if it is coarser than the zoom level, its children are tested in turn.
     * What it appends to the current nodes is drawn exactly as Walk says. Every
     * node appended is cached and, when the template is the generator's and n
     * addresses a generated tile, addresses a generated tile too.
     */
    method TestNode(n: Node, visible: Node -> bool, diffOf: Node -> real)
      requires Valid() && NodeFor(template, n) && n.level >= 1
      modifies this
      ensures Valid() && level == old(level)
      ensures Paths(old(nodeCache)) <= Paths(nodeCache)
      ensures Extends(old(currentNodes), currentNodes, Paths(nodeCache),
                      cubeResolution, maxLevel, tileResolution, Tracked(n))
      ensures Shows(currentNodes, template == TilePathTemplate) ==
              Shows(old(currentNodes), template == TilePathTemplate) + Walk(Walking(level, visible, diffOf), n)
      decreases level - n.level, 2
    {
      if visible(n) {
        var m := n.(diff := diffOf(n));
        ghost var cache0, cur0, stamp0 := nodeCache, currentNodes, nodeCacheTimestamp;
        Visit(m);
        VisitExtends(template, cache0, cur0, m, stamp0, cubeResolution, maxLevel, tileResolution, Tracked(n));
        ghost var cur1, paths1 := currentNodes, Paths(nodeCache);
        if n.level < level {
          TestChildren(n, visible, diffOf);
          ExtendsTrans(cur0, cur1, currentNodes, paths1, Paths(nodeCache),
                       cubeResolution, maxLevel, tileResolution, Tracked(n), Tracked(n));
        }
        WalkVisited(Walking(level, visible, diffOf), n, cache0, stamp0, cur0, cur1, currentNodes);
      } else {
        assert currentNodes[..|old(currentNodes)|] == old(currentNodes);
      }
    }

    /**
     * The recursive step of testMultiresNode: each child of n, in order, is tested,
     * so the walks of the children are appended one after the other.
     */
    method TestChildren(n: Node, visible: Node -> bool, diffOf: Node -> real)
      requires Valid() && NodeFor(template, n) && 1 <= n.level < level
      modifies this
      ensures Valid() && level == old(level)
      ensures Paths(old(nodeCache)) <= Paths(nodeCache)
      ensures Extends(old(currentNodes), currentNodes, Paths(nodeCache),
                      cubeResolution, maxLevel, tileResolution, Tracked(n))
      ensures Shows(currentNodes, template == TilePathTemplate) ==
              Shows(old(currentNodes), template == TilePathTemplate) + WalkBelow(Walking(level, visible, diffOf), n)
      decreases level - n.level, 1
    {
      var params := CorrectedParams(cubeResolution, maxLevel, tileResolution, n.level);
      var children := Children(n.x, n.y, params);
      ghost var w := Walking(level, visible, diffOf);
      var j := 0;
      while j < |children|
        invariant 0 <= j <= |children|
        invariant Valid() && level == old(level)
        invariant Paths(old(nodeCache)) <= Paths(nodeCache)
        invariant Extends(old(currentNodes), currentNodes, Paths(nodeCache),
                          cubeResolution, maxLevel, tileResolution, Tracked(n))
        invariant Shows(currentNodes, template == TilePathTemplate) ==
                  Shows(old(currentNodes), template == TilePathTemplate) +
                  WalkChildren(w, n, j)
      {
        TestChild(n, children, j, visible, diffOf, old(currentNodes), Paths(old(nodeCache)));
        j := j + 1;
      }
      assert children == ChildCells(w, n) && w == Walking(level, visible, diffOf);
      assert WalkBelow(w, n) == WalkChildren(w, n, j);
    }

    /**
     * The loop body of the recursive step: child j of n is made at its cell one
     * level finer and tested. What the children of n have appended so far then
     * grows from the walks of children 0 to j - 1 to those of children 0 to j.
     */
    method TestChild(n: Node, children: seq<Cell>, j: nat, visible: Node -> bool, diffOf: Node -> real,
                     ghost c0: seq<Node>, ghost paths0: set<string>)
      requires Valid() && NodeFor(template, n) && 1 <= n.level < level
      requires children == Children(n.x, n.y, CorrectedParams(cubeResolution, maxLevel, tileResolution, n.level))
      requires j < |children|
      requires paths0 <= Paths(nodeCache)
      requires Extends(c0, currentNodes, Paths(nodeCache), cubeResolution, maxLevel, tileResolution, Tracked(n))
      requires Shows(currentNodes, template == TilePathTemplate) ==
               Shows(c0, template == TilePathTemplate) + WalkChildren(Walking(level, visible, diffOf), n, j)
      modifies this
      ensures Valid() && level == old(level)
      ensures paths0 <= Paths(nodeCache)
      ensures Extends(c0, currentNodes, Paths(nodeCache), cubeResolution, maxLevel, tileResolution, Tracked(n))
      ensures Shows(currentNodes, template == TilePathTemplate) ==
              Shows(c0, template == TilePathTemplate) + WalkChildren(Walking(level, visible, diffOf), n, j + 1)
      decreases level - n.level, 0
    {
      var c := children[j];
      ChildCellNatural(n.x, n.y, CorrectedParams(cubeResolution, maxLevel, tileResolution, n.level), c);
      var child := ChildNode(template, n, c);
      ChildCellAddressed(cubeResolution, maxLevel, tileResolution, n, c, child);
      NewNodeFor(template, n.side, n.level + 1, c.x, c.y);
      ghost var tracked := Tracked(n);
      ghost var cur0, paths1 := currentNodes, Paths(nodeCache);
      TestNode(child, visible, diffOf);
      ExtendsWeaken(cur0, currentNodes, Paths(nodeCache), cubeResolution, maxLevel, tileResolution, tracked, Tracked(child));
      ExtendsTrans(c0, cur0, currentNodes, paths1, Paths(nodeCache),
                   cubeResolution, maxLevel, tileResolution, tracked, tracked);
      WalkChildrenStep(Walking(level, visible, diffOf), n, j, c0, cur0, currentNodes, template == TilePathTemplate);
    }

    /** The roots' cell addresses a generated tile: the finest level is at least 1 and level 1 is not empty. */
    predicate RootsAddressed()
    {
      tileResolution > 0 && 1 <= maxLevel &&
      InGeneratedGrid(cubeResolution, maxLevel, tileResolution, 1, Cell(0, 0))
    }

    /**
     * The multires branch of render: choose the level, sort and trim the cache,
     * walk the six base tiles f, b, u, d, l, r, and sort the current nodes by
     * multiresNodeRenderSort. Afterwards every current node is cached, the current
     * nodes run from coarse to fine and, within a level, from the centre outwards,
     * and when the base level is not empty every current node addresses a tile the
     * generator wrote.
     */
    method RenderFrame(canvasWidth: real, fov: real, halfPi: real, visible: Node -> bool, diffOf: Node -> real)
      requires halfPi > 0.0
      requires Valid()
      modifies this
      ensures Valid()
      ensures 1 <= level <= Max(1, maxLevel)
      ensures forall k :: 0 <= k < |currentNodes| ==> currentNodes[k].path in Paths(nodeCache)
      ensures forall i, j :: 0 <= i < j < |currentNodes| ==>
        currentNodes[i].level <= currentNodes[j].level &&
        (currentNodes[i].level == currentNodes[j].level ==> currentNodes[i].diff <= currentNodes[j].diff)
      ensures template == TilePathTemplate && RootsAddressed() ==>
        forall k :: 0 <= k < |currentNodes| ==> AddressedIn(cubeResolution, maxLevel, tileResolution, currentNodes[k])
      ensures multiset(Shows(currentNodes, template == TilePathTemplate)) ==
              multiset(WalkRoots(Walking(level, visible, diffOf), 6))
    {
      CheckZoom(canvasWidth, fov, halfPi);
      SortAndTrimCache();
      currentNodes := [];
      var s := 0;
      while s < 6
        invariant 0 <= s <= 6
        invariant Valid() && 1 <= level <= Max(1, maxLevel)
        invariant Extends([], currentNodes, Paths(nodeCache), cubeResolution, maxLevel, tileResolution,
                          template == TilePathTemplate && RootsAddressed())
        invariant Shows(currentNodes, template == TilePathTemplate) == WalkRoots(Walking(level, visible, diffOf), s)
      {
        var root := NewNode(template, s, 1, 0, 0);
        ghost var cur1, paths1 := currentNodes, Paths(nodeCache);
        TestNode(root, visible, diffOf);
        ExtendsTrans([], cur1, currentNodes, paths1, Paths(nodeCache), cubeResolution, maxLevel, tileResolution,
                     template == TilePathTemplate && RootsAddressed(), Tracked(root));
        s := s + 1;
      }
      var walked := currentNodes;
      RenderSortKeepsWalk(template, walked, Paths(nodeCache), cubeResolution, maxLevel, tileResolution,
                          template == TilePathTemplate && RootsAddressed());
      ShowsSort(walked, RenderBefore, template == TilePathTemplate);
      currentNodes := SortBy(walked, RenderBefore);
    }
  }

  /**
   * Every node the renderer can request for a generated tile set names a file the
   * generator wrote: with the configuration written for geometry g, a node that
   * addresses a cell of the generator's grid requests "/" + the name of a tile in
   * the generated set, followed by '.' and the configured extension.
   */
  lemma RequestedTileWasWritten(g: Geometry, n: Node)
    requires g.tileSize > 0 && |g.extension| >= 1 && g.extension[0] == '.'
    requires NodeFor(ConfigFor(g).path, n)
    requires AddressedIn(g.cubeSize, g.levels, g.tileSize, n)
    ensures var tile := MakeTile(n.side, n.level, LevelSize(g.cubeSize, g.levels, n.level), g.tileSize, g.extension, n.y, n.x);
      tile in AllTiles(g.cubeSize, g.tileSize, g.extension, g.levels, 6) &&
      n.path + "." + ConfigFor(g).extension == "/" + FileName(tile, g.extension)
  {
    var size := LevelSize(g.cubeSize, g.levels, n.level);
    var tile := MakeTile(n.side, n.level, size, g.tileSize, g.extension, n.y, n.x);
    InAllTiles(g.cubeSize, g.tileSize, g.extension, g.levels, 6, tile);
    RequestMatchesGeneratedFile(g, n.side, n.level, n.x, n.y);
  }
}
