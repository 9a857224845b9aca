/**
 * The viewer's tile nodes and the two orders it sorts them by (src/js/libpannellum.js,
 * multiresNodeSort and multiresNodeRenderSort), with the sort itself modelled as a
 * stable insertion sort by the "may come first" relation the comparator induces.
 */
module NodeOrder {
  /**
   * A tile node as the cache keeps it: cube side (index into f, b, u, d, l, r), level,
   * column x, row y, the expanded request path, the cache timestamp, the angular
   * distance from the view centre, and whether its texture has arrived.
   */
  datatype Node = Node(side: nat, level: int, x: nat, y: nat, path: string,
                       timestamp: int, diff: real, textureLoaded: bool)

  // ---------------------------------------------------------------------------
  // The comparators, as written (negative: a first; positive: b first)
  // ---------------------------------------------------------------------------

  /** multiresNodeSort: base-level nodes first, then the most recently used first. */
  function CacheCompare(a: Node, b: Node): int
  {
    if a.level == 1 && b.level != 1 then -1
    else if b.level == 1 && a.level != 1 then 1
    else b.timestamp - a.timestamp
  }

  /** multiresNodeRenderSort: coarser levels first, then the nodes nearer the view centre. */
  function RenderCompare(a: Node, b: Node): real
  {
    if a.level != b.level then (a.level - b.level) as real else a.diff - b.diff
  }

  // ---------------------------------------------------------------------------
  // Independent reference orders: lexicographic keys
  // ---------------------------------------------------------------------------

  /** Base tiles rank 0, all others 1; ties broken by the negated timestamp. */
  function CacheRank(n: Node): int { if n.level == 1 then 0 else 1 }

  predicate CacheKeyLess(a: Node, b: Node)
  {
    CacheRank(a) < CacheRank(b) || (CacheRank(a) == CacheRank(b) && a.timestamp > b.timestamp)
  }

  predicate CacheKeyEqual(a: Node, b: Node)
  {
    CacheRank(a) == CacheRank(b) && a.timestamp == b.timestamp
  }

  predicate RenderKeyLess(a: Node, b: Node)
  {
    a.level < b.level || (a.level == b.level && a.diff < b.diff)
  }

  predicate RenderKeyEqual(a: Node, b: Node)
  {
    a.level == b.level && a.diff == b.diff
  }

  /**
   * multiresNodeSort's sign is the order of the key (rank, -timestamp): negative
   * exactly when a's key is smaller, zero exactly when the keys agree.
   */
  lemma CacheCompareIsKeyOrder(a: Node, b: Node)
    ensures CacheCompare(a, b) < 0 <==> CacheKeyLess(a, b)
    ensures CacheCompare(a, b) == 0 <==> CacheKeyEqual(a, b)
    ensures CacheCompare(a, b) > 0 <==> CacheKeyLess(b, a)
  {
  }

  /** multiresNodeRenderSort's sign is the order of the key (level, diff). */
  lemma RenderCompareIsKeyOrder(a: Node, b: Node)
    ensures RenderCompare(a, b) < 0.0 <==> RenderKeyLess(a, b)
    ensures RenderCompare(a, b) == 0.0 <==> RenderKeyEqual(a, b)
    ensures RenderCompare(a, b) > 0.0 <==> RenderKeyLess(b, a)
  {
  }

  /** "a may come before b" under each comparator. */
  predicate CacheBefore(a: Node, b: Node) { CacheCompare(a, b) <= 0 }

  predicate RenderBefore(a: Node, b: Node) { RenderCompare(a, b) <= 0.0 }

  /** Both comparators are consistent: total, antisymmetric in sign, and transitive. */
  lemma CacheCompareConsistent(a: Node, b: Node, c: Node)
    ensures CacheBefore(a, b) || CacheBefore(b, a)
    ensures CacheCompare(a, b) < 0 <==> CacheCompare(b, a) > 0
    ensures CacheBefore(a, b) && CacheBefore(b, c) ==> CacheBefore(a, c)
  {
  }

  lemma RenderCompareConsistent(a: Node, b: Node, c: Node)
    ensures RenderBefore(a, b) || RenderBefore(b, a)
    ensures RenderCompare(a, b) < 0.0 <==> RenderCompare(b, a) > 0.0
    ensures RenderBefore(a, b) && RenderBefore(b, c) ==> RenderBefore(a, c)
  {
  }

  // ---------------------------------------------------------------------------
  // Sorting by a "may come before" relation
  // ---------------------------------------------------------------------------

  ghost predicate Total(before: (Node, Node) -> bool)
  {
    forall a: Node, b: Node :: before(a, b) || before(b, a)
  }

  ghost predicate Transitive(before: (Node, Node) -> bool)
  {
    forall a: Node, b: Node, c: Node :: before(a, b) && before(b, c) ==> before(a, c)
  }

  /** Each node may come before its successor. */
  predicate SortedBy(s: seq<Node>, before: (Node, Node) -> bool)
  {
    forall i :: 0 <= i < |s| - 1 ==> before(s[i], s[i + 1])
  }

  /** Each node may come before every later one. */
  predicate PairwiseSortedBy(s: seq<Node>, before: (Node, Node) -> bool)
  {
    forall i, j :: 0 <= i < j < |s| ==> before(s[i], s[j])
  }

  function Insert(x: Node, s: seq<Node>, before: (Node, Node) -> bool): seq<Node>
  {
    if s == [] then [x]
    else if before(x, s[0]) then [x] + s
    else [s[0]] + Insert(x, s[1..], before)
  }

  function SortBy(s: seq<Node>, before: (Node, Node) -> bool): seq<Node>
  {
    if s == [] then [] else Insert(s[0], SortBy(s[1..], before), before)
  }

  lemma {:induction false} InsertPermutes(x: Node, s: seq<Node>, before: (Node, Node) -> bool)
    ensures multiset(Insert(x, s, before)) == multiset(s) + multiset{x}
  {
    if s != [] && !before(x, s[0]) {
      InsertPermutes(x, s[1..], before);
      assert s == [s[0]] + s[1..];
    }
  }

  lemma {:induction false} InsertSorted(x: Node, s: seq<Node>, before: (Node, Node) -> bool)
    requires Total(before) && SortedBy(s, before)
    ensures SortedBy(Insert(x, s, before), before)
    ensures s != [] ==> Insert(x, s, before)[0] == x || Insert(x, s, before)[0] == s[0]
  {
    if s != [] && !before(x, s[0]) {
      var rest := s[1..];
      assert SortedBy(rest, before);
      InsertSorted(x, rest, before);
      var r := Insert(x, rest, before);
      assert before(s[0], x);
      if rest != [] {
        assert before(s[0], rest[0]);
      }
      assert before(s[0], r[0]);
      assert Insert(x, s, before) == [s[0]] + r;
    }
  }

  /** The sorted sequence is a permutation of the input ... */
  lemma {:induction false} SortPermutes(s: seq<Node>, before: (Node, Node) -> bool)
    ensures multiset(SortBy(s, before)) == multiset(s)
  {
    if s != [] {
      SortPermutes(s[1..], before);
      InsertPermutes(s[0], SortBy(s[1..], before), before);
      assert s == [s[0]] + s[1..];
    }
  }

  /** ... and, for a total relation, in order. */
  lemma {:induction false} SortSorted(s: seq<Node>, before: (Node, Node) -> bool)
    requires Total(before)
    ensures SortedBy(SortBy(s, before), before)
  {
    if s != [] {
      SortSorted(s[1..], before);
      InsertSorted(s[0], SortBy(s[1..], before), before);
    }
  }

  /** For a transitive relation, adjacent order is order between any two positions. */
  lemma {:induction false} SortedPairwise(s: seq<Node>, before: (Node, Node) -> bool)
    requires Transitive(before) && SortedBy(s, before)
    ensures PairwiseSortedBy(s, before)
  {
    forall i, j | 0 <= i < j < |s| ensures before(s[i], s[j]) {
      SortedStep(s, before, i, j);
    }
  }

  lemma {:induction false} SortedStep(s: seq<Node>, before: (Node, Node) -> bool, i: int, j: int)
    requires Transitive(before) && SortedBy(s, before) && 0 <= i < j < |s|
    ensures before(s[i], s[j])
    decreases j - i
  {
    if j > i + 1 {
      SortedStep(s, before, i + 1, j);
      assert before(s[i], s[i + 1]);
    }
  }

  lemma CacheBeforeIsOrder()
    ensures Total(CacheBefore) && Transitive(CacheBefore)
  {
    forall a: Node, b: Node, c: Node ensures (CacheBefore(a, b) || CacheBefore(b, a)) &&
      (CacheBefore(a, b) && CacheBefore(b, c) ==> CacheBefore(a, c))
    {
      CacheCompareConsistent(a, b, c);
    }
  }

  lemma RenderBeforeIsOrder()
    ensures Total(RenderBefore) && Transitive(RenderBefore)
  {
    forall a: Node, b: Node, c: Node ensures (RenderBefore(a, b) || RenderBefore(b, a)) &&
      (RenderBefore(a, b) && RenderBefore(b, c) ==> RenderBefore(a, c))
    {
      RenderCompareConsistent(a, b, c);
    }
  }

  /**
   * After multiresNodeSort every base-level node precedes every other node, and
   * among nodes of the same rank the more recently used one comes first.
   */
  lemma CacheSortOrder(s: seq<Node>)
    ensures multiset(SortBy(s, CacheBefore)) == multiset(s)
    ensures var r := SortBy(s, CacheBefore);
      forall i, j :: 0 <= i < j < |r| ==>
        CacheRank(r[i]) <= CacheRank(r[j]) &&
        (CacheRank(r[i]) == CacheRank(r[j]) ==> r[i].timestamp >= r[j].timestamp)
  {
    CacheBeforeIsOrder();
    SortPermutes(s, CacheBefore);
    SortSorted(s, CacheBefore);
    SortedPairwise(SortBy(s, CacheBefore), CacheBefore);
  }

  /**
   * After multiresNodeRenderSort levels never decrease, and within a level the
   * distance from the view centre never decreases.
   */
  lemma RenderSortOrder(s: seq<Node>)
    ensures multiset(SortBy(s, RenderBefore)) == multiset(s)
    ensures var r := SortBy(s, RenderBefore);
      forall i, j :: 0 <= i < j < |r| ==>
        r[i].level <= r[j].level && (r[i].level == r[j].level ==> r[i].diff <= r[j].diff)
  {
    RenderBeforeIsOrder();
    SortPermutes(s, RenderBefore);
    SortSorted(s, RenderBefore);
    SortedPairwise(SortBy(s, RenderBefore), RenderBefore);
  }
}
