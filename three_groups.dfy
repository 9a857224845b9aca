/**
 * How the vendored Three.js WebGL renderer (src/js/Three.js) splits a geometry's
 * faces into buffer groups: sortFacesByMaterial groups faces by their material
 * list and opens a further group for the same materials whenever the current one
 * would pass 65535 vertices; initMeshBuffers sizes a group's 16-bit element array
 * and setMeshBuffers fills it.
 */
module ThreeGroups {
  import opened Wrappers
  import opened Strings

  const MaxGroupVertices := 65535

  /** A face: its material list (None for an undefined slot) and whether it is a Face3 (else a Face4). */
  datatype Face = Face(materials: seq<Option<nat>>, isFace3: bool)

  /** A geometry group: the indices of its faces, the materials of its first face, its vertex total. */
  datatype Group = Group(faces: seq<nat>, materials: seq<Option<nat>>, vertices: nat)

  /** The key of geometryGroups: the material hash and the overflow counter for it. */
  datatype GroupKey = GroupKey(hash: string, counter: nat)

  function FaceVertices(f: Face): nat
  {
    if f.isFace3 then 3 else 4
  }

  /** materialHash: the material ids, "undefined" for an empty slot, joined by '_'. */
  function MaterialHash(materials: seq<Option<nat>>): string
  {
    Join(seq(|materials|, k requires 0 <= k < |materials| =>
      match materials[k] case Some(id) => NatToString(id) case None => "undefined"), '_')
  }

  /** The group name ghash: the material hash, '_', and the counter in decimal. */
  function GroupName(k: GroupKey): string
  {
    k.hash + "_" + NatToString(k.counter)
  }

  /** The length of the run of digits at the end of s. */
  function TrailingDigits(s: string): nat
    decreases |s|
  {
    if s == [] || !IsDigit(s[|s| - 1]) then 0 else 1 + TrailingDigits(s[..|s| - 1])
  }

  lemma {:induction false} TrailingDigitsAfterSeparator(a: string, d: string)
    requires AllDigits(d)
    ensures TrailingDigits(a + "_" + d) == |d|
    decreases |d|
  {
    var s := a + "_" + d;
    if d == [] {
      assert s[|s| - 1] == '_';
    } else {
      assert s[..|s| - 1] == a + "_" + d[..|d| - 1];
      TrailingDigitsAfterSeparator(a, d[..|d| - 1]);
    }
  }

  /** The decimal suffix after the last '_' decides both parts, so different keys name different groups. */
  lemma GroupNameInjective(k1: GroupKey, k2: GroupKey)
    requires GroupName(k1) == GroupName(k2)
    ensures k1 == k2
  {
    var d1, d2 := NatToString(k1.counter), NatToString(k2.counter);
    var s := GroupName(k1);
    TrailingDigitsAfterSeparator(k1.hash, d1);
    TrailingDigitsAfterSeparator(k2.hash, d2);
    assert |d1| == |d2|;
    assert d1 == s[|s| - |d1|..] == d2;
    assert k1.hash == s[..|s| - |d1| - 1] == k2.hash;
    NatToStringInjective(k1.counter, k2.counter);
  }

  /** The hash of face x. */
  function HashOf(faces: seq<Face>, x: nat): string
    requires x < |faces|
  {
    MaterialHash(faces[x].materials)
  }

  /** The vertices of the listed faces. */
  function VertexSum(faces: seq<Face>, idx: seq<nat>): nat
    requires forall k :: 0 <= k < |idx| ==> idx[k] < |faces|
  {
    if idx == [] then 0 else VertexSum(faces, idx[..|idx| - 1]) + FaceVertices(faces[idx[|idx| - 1]])
  }

  /** The faces among the first n whose material hash is h, in increasing order. */
  function FacesWithHash(faces: seq<Face>, n: nat, h: string): (r: seq<nat>)
    requires n <= |faces|
    ensures forall a :: 0 <= a < |r| ==> r[a] < n
  {
    if n == 0 then [] else FacesWithHash(faces, n - 1, h) + (if HashOf(faces, n - 1) == h then [n - 1] else [])
  }

  /** The faces of a hash's groups, group after group. */
  function Concat(gs: seq<Group>): seq<nat>
  {
    if gs == [] then [] else Concat(gs[..|gs| - 1]) + gs[|gs| - 1].faces
  }

  /** A group of the geometry's faces: non-empty, with its first face's materials and at most 65535 vertices. */
  predicate GroupOk(faces: seq<Face>, g: Group)
  {
    g.faces != [] && (forall a :: 0 <= a < |g.faces| ==> g.faces[a] < |faces|) &&
    g.materials == faces[g.faces[0]].materials &&
    g.vertices == VertexSum(faces, g.faces) && g.vertices <= MaxGroupVertices
  }

  /** prev could not take next's first face. */
  predicate Overflowed(faces: seq<Face>, prev: Group, next: Group)
  {
    next.faces != [] && next.faces[0] < |faces| && prev.vertices + FaceVertices(faces[next.faces[0]]) > MaxGroupVertices
  }

  /** Group c of the list was opened because group c - 1 could not take its first face. */
  predicate OpenedAt(faces: seq<Face>, gs: seq<Group>, c: int)
    requires 0 < c < |gs|
  {
    Overflowed(faces, gs[c - 1], gs[c])
  }

  /**
   * The groups of hash h after the first n faces, in counter order: at least one;
   * each well formed; read in order, exactly the faces with hash h in increasing
   * order; and group c > 0 opened because group c - 1 had no room for its first face.
   */
  predicate HashGrouped(faces: seq<Face>, n: nat, h: string, gs: seq<Group>)
    requires n <= |faces|
  {
    |gs| >= 1 &&
    (forall c :: 0 <= c < |gs| ==> GroupOk(faces, gs[c])) &&
    Concat(gs) == FacesWithHash(faces, n, h) &&
    (forall c :: 0 < c < |gs| ==> OpenedAt(faces, gs, c))
  }

  /**
   * geometryGroups after the first n faces, held per material hash as the list
   * of its groups in counter order (group c of hash h is the one named
   * GroupName(GroupKey(h, c))): every listed hash's groups are as above, and
   * every face's hash is listed.
   */
  ghost predicate Grouped(faces: seq<Face>, n: nat, groups: map<string, seq<Group>>)
    requires n <= |faces|
  {
    (forall h :: h in groups ==> HashGrouped(faces, n, h, groups[h])) &&
    (forall x :: 0 <= x < n ==> HashOf(faces, x) in groups)
  }

  lemma VertexSumAppend(faces: seq<Face>, idx: seq<nat>, x: nat)
    requires forall k :: 0 <= k < |idx| ==> idx[k] < |faces|
    requires x < |faces|
    ensures VertexSum(faces, idx + [x]) == VertexSum(faces, idx) + FaceVertices(faces[x])
  {
    assert (idx + [x])[..|idx|] == idx;
  }

  /** A hash that is not listed has no faces yet. */
  lemma {:induction false} UnlistedHasNoFaces(faces: seq<Face>, n: nat, h: string)
    requires n <= |faces| && forall x :: 0 <= x < n ==> HashOf(faces, x) != h
    ensures FacesWithHash(faces, n, h) == []
  {
    if n > 0 {
      UnlistedHasNoFaces(faces, n - 1, h);
    }
  }

  /** The groups of a hash other than face n's are unaffected by face n. */
  lemma OtherHashGrows(faces: seq<Face>, n: nat, h: string, gs: seq<Group>)
    requires n < |faces| && HashOf(faces, n) != h && HashGrouped(faces, n, h, gs)
    ensures HashGrouped(faces, n + 1, h, gs)
  {
    assert FacesWithHash(faces, n + 1, h) == FacesWithHash(faces, n, h);
  }

  /** The first face of a hash opens group 0 of it. */
  lemma NewHashStep(faces: seq<Face>, n: nat, h: string, gs: seq<Group>)
    requires n < |faces| && h == HashOf(faces, n)
    requires forall x :: 0 <= x < n ==> HashOf(faces, x) != h
    requires gs == [Group([n], faces[n].materials, FaceVertices(faces[n]))]
    ensures HashGrouped(faces, n + 1, h, gs)
  {
    UnlistedHasNoFaces(faces, n, h);
    var idx := gs[0].faces;
    assert VertexSum(faces, idx) == FaceVertices(faces[n]) by {
      assert idx[..|idx| - 1] == [];
    }
    assert Concat(gs) == idx by {
      assert gs[..|gs| - 1] == [];
    }
  }

  /** A face that does not fit the hash's last group opens the next one. */
  lemma OpenStep(faces: seq<Face>, n: nat, gs: seq<Group>, list: seq<Group>)
    requires n < |faces| && HashGrouped(faces, n, HashOf(faces, n), gs)
    requires gs[|gs| - 1].vertices + FaceVertices(faces[n]) > MaxGroupVertices
    requires list == gs + [Group([n], faces[n].materials, FaceVertices(faces[n]))]
    ensures HashGrouped(faces, n + 1, HashOf(faces, n), list)
  {
    var single := list[|gs|];
    assert VertexSum(faces, single.faces) == FaceVertices(faces[n]) by {
      assert single.faces[..0] == [];
    }
    assert list[..|list| - 1] == gs;
    forall c | 0 <= c < |list| ensures GroupOk(faces, list[c]) {
      if c < |gs| {
        assert list[c] == gs[c];
      }
    }
    forall c | 0 < c < |list| ensures OpenedAt(faces, list, c) {
      if c < |gs| {
        assert OpenedAt(faces, gs, c);
      }
    }
  }

  /** A face that fits goes into the hash's last group. */
  lemma PushStep(faces: seq<Face>, n: nat, gs: seq<Group>, pushed: Group, list: seq<Group>)
    requires n < |faces| && HashGrouped(faces, n, HashOf(faces, n), gs)
    requires gs[|gs| - 1].vertices + FaceVertices(faces[n]) <= MaxGroupVertices
    requires var last := gs[|gs| - 1];
      pushed == Group(last.faces + [n], last.materials, last.vertices + FaceVertices(faces[n]))
    requires list == gs[|gs| - 1 := pushed]
    ensures HashGrouped(faces, n + 1, HashOf(faces, n), list)
  {
    PushedFaces(faces, n, gs, pushed, list);
    PushedGroupOk(faces, n, gs[|gs| - 1]);
    PushedOk(faces, gs, pushed, list);
    PushedOverflowed(faces, gs, pushed, list);
  }

  /** Face n joins the end of its hash's faces, and so the end of the last group. */
  lemma PushedFaces(faces: seq<Face>, n: nat, gs: seq<Group>, pushed: Group, list: seq<Group>)
    requires n < |faces| && |gs| >= 1 && Concat(gs) == FacesWithHash(faces, n, HashOf(faces, n))
    requires pushed.faces == gs[|gs| - 1].faces + [n] && list == gs[|gs| - 1 := pushed]
    ensures Concat(list) == FacesWithHash(faces, n + 1, HashOf(faces, n))
  {
    ConcatPushed(gs, n, pushed);
  }

  /** The last group with face n added is still well formed. */
  lemma PushedGroupOk(faces: seq<Face>, n: nat, last: Group)
    requires n < |faces| && GroupOk(faces, last)
    requires last.vertices + FaceVertices(faces[n]) <= MaxGroupVertices
    ensures GroupOk(faces, Group(last.faces + [n], last.materials, last.vertices + FaceVertices(faces[n])))
  {
    VertexSumAppend(faces, last.faces, n);
    assert (last.faces + [n])[0] == last.faces[0];
  }

  /** Adding face n to the last group adds it at the end of the hash's faces. */
  lemma ConcatPushed(gs: seq<Group>, n: nat, pushed: Group)
    requires |gs| >= 1 && pushed.faces == gs[|gs| - 1].faces + [n]
    ensures Concat(gs[|gs| - 1 := pushed]) == Concat(gs) + [n]
  {
    var list := gs[|gs| - 1 := pushed];
    assert list[..|list| - 1] == gs[..|gs| - 1];
  }

  /** Every group stays well formed when the last one is replaced by a well-formed one. */
  lemma PushedOk(faces: seq<Face>, gs: seq<Group>, pushed: Group, list: seq<Group>)
    requires |gs| >= 1 && list == gs[|gs| - 1 := pushed]
    requires forall c :: 0 <= c < |gs| ==> GroupOk(faces, gs[c])
    requires GroupOk(faces, pushed)
    ensures forall c :: 0 <= c < |list| ==> GroupOk(faces, list[c])
  {
  }

  /** Replacing the last group by one with the same first face keeps every overflow reason. */
  lemma PushedOverflowed(faces: seq<Face>, gs: seq<Group>, pushed: Group, list: seq<Group>)
    requires |gs| >= 1 && list == gs[|gs| - 1 := pushed]
    requires forall c :: 0 < c < |gs| ==> OpenedAt(faces, gs, c)
    requires gs[|gs| - 1].faces != [] && pushed.faces != [] && pushed.faces[0] == gs[|gs| - 1].faces[0]
    ensures forall c :: 0 < c < |list| ==> OpenedAt(faces, list, c)
  {
    forall c | 0 < c < |list| ensures OpenedAt(faces, list, c) {
      assert OpenedAt(faces, gs, c);
    }
  }

  /** Replacing face n's hash's groups by a valid next state keeps the whole grouping valid. */
  lemma StepKeepsGrouped(faces: seq<Face>, n: nat, groups: map<string, seq<Group>>, list: seq<Group>)
    requires n < |faces| && Grouped(faces, n, groups)
    requires HashGrouped(faces, n + 1, HashOf(faces, n), list)
    ensures Grouped(faces, n + 1, groups[HashOf(faces, n) := list])
  {
    var h := HashOf(faces, n);
    var m := n + 1;
    var next := groups[h := list];
    forall h2 | h2 in next ensures HashGrouped(faces, m, h2, next[h2]) {
      if h2 != h {
        OtherHashGrows(faces, n, h2, groups[h2]);
      }
    }
    forall x | 0 <= x < m ensures HashOf(faces, x) in next {
      if x < n {
        assert HashOf(faces, x) in groups;
      }
    }
  }

  /**
   * A hash's groups after face f joins them: the first face of a hash opens group
   * 0; a face that does not fit the last group opens the next one; otherwise it
   * goes into the last group.
   */
  function Placed(list: seq<Group>, f: nat, face: Face): (r: seq<Group>)
    ensures |r| >= 1
  {
    var single := Group([f], face.materials, FaceVertices(face));
    if list == [] then [single]
    else
      var last := list[|list| - 1];
      if last.vertices + FaceVertices(face) > MaxGroupVertices then list + [single]
      else list[|list| - 1 := Group(last.faces + [f], last.materials, last.vertices + FaceVertices(face))]
  }

  /** The groups held for hash h, none when h is not listed yet. */
  function GroupsOf(groups: map<string, seq<Group>>, h: string): seq<Group>
  {
    if h in groups then groups[h] else []
  }

  /** One face placed: the grouping of the first n faces becomes that of the first n + 1. */
  lemma GroupedStep(faces: seq<Face>, n: nat, groups: map<string, seq<Group>>)
    requires n < |faces| && Grouped(faces, n, groups)
    ensures var h := HashOf(faces, n);
      Grouped(faces, n + 1, groups[h := Placed(GroupsOf(groups, h), n, faces[n])])
  {
    var h := HashOf(faces, n);
    var placed := Placed(GroupsOf(groups, h), n, faces[n]);
    if h !in groups {
      NewHashStep(faces, n, h, placed);
    } else {
      assert HashGrouped(faces, n, h, groups[h]);
      PlacedStep(faces, n, groups[h]);
    }
    StepKeepsGrouped(faces, n, groups, placed);
  }

  /** Placing face n into its hash's groups keeps them valid. */
  lemma PlacedStep(faces: seq<Face>, n: nat, gs: seq<Group>)
    requires n < |faces| && HashGrouped(faces, n, HashOf(faces, n), gs)
    ensures HashGrouped(faces, n + 1, HashOf(faces, n), Placed(gs, n, faces[n]))
  {
    var last := gs[|gs| - 1];
    var placed := Placed(gs, n, faces[n]);
    if last.vertices + FaceVertices(faces[n]) > MaxGroupVertices {
      OpenStep(faces, n, gs, placed);
    } else {
      var pushed := Group(last.faces + [n], last.materials, last.vertices + FaceVertices(faces[n]));
      assert placed == gs[|gs| - 1 := pushed];
      PushStep(faces, n, gs, pushed, placed);
    }
  }

  /**
   * The body of sortFacesByMaterial's loop for one face f, on the groups of its
   * hash (in counter order) and the hash's counter: create the counter's group if
   * it is missing; if the face would push it past 65535 vertices, bump the
   * counter and create that group; then add the face to the counter's group.
   */
  method PlaceFace(list: seq<Group>, counter: nat, f: nat, face: Face) returns (list': seq<Group>, counter': nat)
    requires if list == [] then counter == 0 else counter == |list| - 1
    ensures list' == Placed(list, f, face) && counter' == |list'| - 1
  {
    list' := list;
    counter' := counter;
    if counter' >= |list'| {
      // geometryGroups[ghash] is undefined: a new empty group
      list' := list' + [Group([], face.materials, 0)];
    }
    var vertices := FaceVertices(face);
    if list'[counter'].vertices + vertices > MaxGroupVertices {
      counter' := counter' + 1;
      if counter' >= |list'| {
        list' := list' + [Group([], face.materials, 0)];
      }
    }
    assert [] + [f] == [f];
    list' := list'[counter' := Group(list'[counter'].faces + [f], list'[counter'].materials,
                                     list'[counter'].vertices + vertices)];
  }

  /**
   * sortFacesByMaterial, with geometryGroups held per material hash: reading a
   * hash's groups in counter order gives exactly the faces with that hash, in
   * increasing order; every face's hash has groups; each group is non-empty,
   * carries its first face's materials and holds at most 65535 vertices; and
   * group c > 0 of a hash exists only because group c - 1 could not take its
   * first face.
   */
  method SortFacesByMaterial(faces: seq<Face>) returns (groups: map<string, seq<Group>>)
    ensures Grouped(faces, |faces|, groups)
  {
    groups := map[];
    var hashMap: map<string, nat> := map[];
    assert Grouped(faces, 0, groups) && Counters(hashMap, groups);
    var f: nat := 0;
    while f < |faces|
      invariant f <= |faces|
      invariant Grouped(faces, f, groups)
      invariant Counters(hashMap, groups)
    {
      groups, hashMap := AddFace(faces, f, groups, hashMap);
      f := f + 1;
    }
  }

  /** hash_map holds, for every listed hash, the counter of its last group. */
  predicate Counters(hashMap: map<string, nat>, groups: map<string, seq<Group>>)
  {
    hashMap.Keys == groups.Keys && forall h :: h in hashMap ==> hashMap[h] + 1 == |groups[h]|
  }

  /** One iteration of sortFacesByMaterial's loop: face f placed under its material hash. */
  method AddFace(faces: seq<Face>, f: nat, groups: map<string, seq<Group>>, hashMap: map<string, nat>)
    returns (groups': map<string, seq<Group>>, hashMap': map<string, nat>)
    requires f < |faces| && Grouped(faces, f, groups) && Counters(hashMap, groups)
    ensures Grouped(faces, f + 1, groups') && Counters(hashMap', groups')
  {
    var mhash := MaterialHash(faces[f].materials);
    hashMap' := hashMap;
    if mhash !in hashMap' {
      hashMap' := hashMap'[mhash := 0];
    }
    var list := GroupsOf(groups, mhash);
    assert if list == [] then hashMap'[mhash] == 0 else hashMap'[mhash] == |list| - 1;
    var counter;
    list, counter := PlaceFace(list, hashMap'[mhash], f, faces[f]);
    hashMap' := hashMap'[mhash := counter];
    groups' := groups[mhash := list];
    assert Grouped(faces, f + 1, groups') by {
      assert mhash == HashOf(faces, f);
      GroupedStep(faces, f, groups);
    }
    assert Counters(hashMap', groups') by {
      CountersStep(hashMap, groups, mhash, counter, list);
    }
  }

  lemma CountersStep(hashMap: map<string, nat>, groups: map<string, seq<Group>>, h: string, counter: nat, list: seq<Group>)
    requires Counters(hashMap, groups) && counter + 1 == |list|
    ensures Counters(hashMap[h := counter], groups[h := list])
  {
  }
}
