/**
 * The scene graph of the vendored Three.js (src/js/Three.js): Object3D.addChild
 * links a parentless child under an object and, when the object's topmost
 * ancestor is a Scene, lets that scene register the child's subtree;
 * Scene.addChildRecurse walks a subtree in pre-order and lists every object that
 * is not a Camera in objects and __objectsAdded, skipping objects already listed.
 *
 * The heap's shape is described by ghost values: a Tree that unfolds an
 * object's children (so the walk is finite) and the chain of an object's
 * parents up to the one without a parent.
 */
module ThreeScene {
  /** The constructors that matter here: Scene has the object lists, Camera is never listed. */
  datatype Kind = Plain | Camera | Scene

  class Object3D {
    const kind: Kind
    /** undefined is null. */
    var parent: Object3D?
    var children: seq<Object3D>
    /** Only meaningful for a Scene: objects and __objectsAdded. */
    var objects: seq<Object3D>
    var objectsAdded: seq<Object3D>

    /** THREE.Object3D / THREE.Camera / THREE.Scene: no parent, no children, empty lists. */
    constructor (kind: Kind)
      ensures this.kind == kind && parent == null && children == []
      ensures objects == [] && objectsAdded == []
    {
      this.kind := kind;
      parent := null;
      children := [];
      objects := [];
      objectsAdded := [];
    }

    /**
     * Object3D.addChild. A child already among the children changes nothing. A
     * child that has a parent throws a TypeError before anything changes: the
     * call to child.parent.removeChild finds no such method, its definition being
     * commented out. Otherwise the child gets this as parent and is appended to
     * the children, and if the topmost ancestor of this (the last of its parent
     * chain) is a Scene, that scene's addChildRecurse registers the child's
     * subtree. The ghost parameters describe the heap; the source needs the child
     * not to be an ancestor of this, or the walk up the parents would not end.
     */
    method AddChild(child: Object3D, ghost ancestors: seq<Object3D>, ghost t: Tree) returns (threw: bool)
      requires ParentChain(ancestors) && ancestors[0] == this
      requires t.root == child && Describes(t)
      requires child !in children && child.parent == null ==> child !in ancestors && this !in TreeObjects(t)
      modifies this`children, child`parent
      modifies Top(ancestors)`objects, Top(ancestors)`objectsAdded
      ensures var root := Top(ancestors);
        if child in old(children) || old(child.parent) != null then
          threw == (child !in old(children)) &&
          children == old(children) && child.parent == old(child.parent) &&
          root.objects == old(root.objects) && root.objectsAdded == old(root.objectsAdded)
        else
          !threw && children == old(children) + [child] && child.parent == this &&
          if root.kind == Scene then
            root.objects == old(root.objects) + Added(old(root.objects), Preorder(t)) &&
            root.objectsAdded == old(root.objectsAdded) + Added(old(root.objects), Preorder(t))
          else
            root.objects == old(root.objects) && root.objectsAdded == old(root.objectsAdded)
    {
      threw := false;
      if child !in children {
        if child.parent != null {
          // child.parent.removeChild is undefined
          return true;
        }
        NodesAllocated(t);
        child.parent := this;
        children := children + [child];
        assert ParentChain(ancestors);
        var scene := this;
        ghost var i := 0;
        while scene.parent != null
          invariant 0 <= i < |ancestors| && scene == ancestors[i] && ParentChain(ancestors)
          invariant i < |ancestors| - 1 ==> scene.parent == ancestors[i + 1]
          decreases |ancestors| - i
        {
          scene := scene.parent;
          i := i + 1;
        }
        assert scene == Top(ancestors);
        if scene.kind == Scene {
          scene.AddChildRecurse(child, t);
        }
      }
    }

    /**
     * Scene.addChild: Object3D.addChild on the scene, then, unless that threw,
     * addChildRecurse on the child from the scene itself. Whatever the topmost
     * ancestor, the scene ends up having listed the child's subtree exactly once:
     * when it is its own topmost ancestor the second walk adds nothing. A topmost
     * ancestor above the scene that is itself a Scene lists the subtree too.
     */
    method SceneAddChild(child: Object3D, ghost ancestors: seq<Object3D>, ghost t: Tree) returns (threw: bool)
      requires kind == Scene
      requires ParentChain(ancestors) && ancestors[0] == this
      requires t.root == child && Describes(t)
      requires child !in children && child.parent == null ==> child !in ancestors && this !in TreeObjects(t)
      modifies this`children, child`parent, this`objects, this`objectsAdded
      modifies Top(ancestors)`objects, Top(ancestors)`objectsAdded
      ensures threw <==> child !in old(children) && old(child.parent) != null
      ensures threw ==> children == old(children) && objects == old(objects) && objectsAdded == old(objectsAdded)
      ensures !threw ==> children == (if child in old(children) then old(children) else old(children) + [child])
      ensures !threw ==> objects == old(objects) + Added(old(objects), Preorder(t))
      ensures !threw ==> objectsAdded == old(objectsAdded) + Added(old(objects), Preorder(t))
      ensures !threw && child !in old(children) ==> child.parent == this
      ensures threw || child in old(children) ==> child.parent == old(child.parent)
      ensures |ancestors| > 1 ==> var root := Top(ancestors);
        if !threw && child !in old(children) && root.kind == Scene then
          root.objects == old(root.objects) + Added(old(root.objects), Preorder(t)) &&
          root.objectsAdded == old(root.objectsAdded) + Added(old(root.objects), Preorder(t))
        else
          root.objects == old(root.objects) && root.objectsAdded == old(root.objectsAdded)
    {
      NodesAllocated(t);
      assert |ancestors| > 1 ==> parent == ancestors[1] && Top(ancestors) != this;
      threw := AddChild(child, ancestors, t);
      if !threw {
        AddChildRecurse(child, t);
        if |ancestors| == 1 && child !in old(children) {
          // this is the topmost ancestor: the first walk already listed the subtree
          WalkTwice(old(objects), Preorder(t));
        }
      }
    }

    /**
     * Scene.addChildRecurse: the subtree's objects in pre-order that are not
     * cameras and not yet listed are appended, in that order, to both objects and
     * __objectsAdded; nothing else changes.
     */
    method AddChildRecurse(child: Object3D, ghost t: Tree)
      requires kind == Scene && t.root == child && Describes(t)
      modifies this`objects, this`objectsAdded
      ensures objects == old(objects) + Added(old(objects), Preorder(t))
      ensures objectsAdded == old(objectsAdded) + Added(old(objects), Preorder(t))
      decreases t, 1
    {
      AddedAppend(objects, [child], PreorderAll(t.subtrees));
      assert [child][1..] == [];
      if child.kind != Camera && child !in objects {
        objects := objects + [child];
        objectsAdded := objectsAdded + [child];
      }
      AddChildrenRecurse(child, t);
    }

    /** The loop of addChildRecurse: each child's subtree in turn. */
    method AddChildrenRecurse(child: Object3D, ghost t: Tree)
      requires kind == Scene && t.root == child && Describes(t)
      modifies this`objects, this`objectsAdded
      ensures objects == old(objects) + Added(old(objects), PreorderAll(t.subtrees))
      ensures objectsAdded == old(objectsAdded) + Added(old(objects), PreorderAll(t.subtrees))
      decreases t, 0
    {
      NodesAllocated(t);
      ghost var listed := objects;
      ghost var walked: seq<Object3D> := [];
      var c := 0;
      while c < |child.children|
        invariant 0 <= c <= |child.children| && Describes(t)
        invariant walked == PreorderAll(t.subtrees[..c])
        invariant objects == listed + Added(listed, walked)
        invariant objectsAdded == old(objectsAdded) + Added(listed, walked)
      {
        DescribesSubtree(t, c);
        ghost var before, beforeAdded := objects, objectsAdded;
        AddChildRecurse(child.children[c], t.subtrees[c]);
        WalkStep(listed, t.subtrees, c);
        AppendStep(listed, walked, Preorder(t.subtrees[c]), listed, before, objects);
        AppendStep(listed, walked, Preorder(t.subtrees[c]), old(objectsAdded), beforeAdded, objectsAdded);
        walked := walked + Preorder(t.subtrees[c]);
        c := c + 1;
      }
      assert t.subtrees[..|t.subtrees|] == t.subtrees;
    }
  }

  /** The parent chain of chain[0]: each entry's parent is the next, the last has none. */
  predicate ParentChain(chain: seq<Object3D>)
    reads (set o | o in chain)`parent
  {
    |chain| >= 1 && chain[|chain| - 1].parent == null &&
    forall i :: 0 <= i < |chain| - 1 ==> chain[i].parent == chain[i + 1]
  }

  /** The topmost ancestor: the last of a parent chain. */
  function Top(chain: seq<Object3D>): Object3D
    requires |chain| >= 1
  {
    chain[|chain| - 1]
  }

  /** A finite unfolding of an object and, recursively, its children. */
  datatype Tree = Tree(root: Object3D, subtrees: seq<Tree>)

  /** Every subtree of t, t included. */
  function Nodes(t: Tree): set<Tree>
    decreases t
  {
    {t} + NodesAll(t.subtrees)
  }

  function NodesAll(ts: seq<Tree>): set<Tree>
    decreases ts
  {
    if ts == [] then {} else NodesAll(ts[..|ts| - 1]) + Nodes(ts[|ts| - 1])
  }

  /** The objects a tree mentions. */
  function TreeObjects(t: Tree): set<Object3D>
  {
    set n | n in Nodes(t) :: n.root
  }

  /** The roots of a list of trees. */
  function Roots(ts: seq<Tree>): (r: seq<Object3D>)
    ensures |r| == |ts| && forall k :: 0 <= k < |ts| ==> r[k] == ts[k].root
  {
    seq(|ts|, k requires 0 <= k < |ts| => ts[k].root)
  }

  /** t unfolds the heap: at every node, the object's children are exactly the subtrees' roots, in order. */
  predicate Describes(t: Tree)
    reads TreeObjects(t)`children
  {
    forall n :: n in Nodes(t) ==> n.root.children == Roots(n.subtrees)
  }

  /** The nodes of each tree of a list are nodes of the list. */
  lemma {:induction false} NodesAllContains(ts: seq<Tree>, k: nat)
    requires k < |ts|
    ensures Nodes(ts[k]) <= NodesAll(ts)
  {
    if k < |ts| - 1 {
      NodesAllContains(ts[..|ts| - 1], k);
    }
  }

  /** Every object a tree names is allocated (the tree is, so is all it holds). */
  lemma {:induction false} NodesAllocated(t: Tree)
    ensures forall n :: n in Nodes(t) ==> allocated(n.root)
    decreases t
  {
    forall k | 0 <= k < |t.subtrees| {
      NodesAllocated(t.subtrees[k]);
    }
    NodesAllCover(t.subtrees);
  }

  /** A node of a list of trees is a node of one of them. */
  lemma {:induction false} NodesAllCover(ts: seq<Tree>)
    ensures forall n :: n in NodesAll(ts) ==> exists k :: 0 <= k < |ts| && n in Nodes(ts[k])
  {
    if ts != [] {
      NodesAllCover(ts[..|ts| - 1]);
      forall n | n in NodesAll(ts) ensures exists k :: 0 <= k < |ts| && n in Nodes(ts[k]) {
        var init := ts[..|ts| - 1];
        if n in NodesAll(init) {
          var k :| 0 <= k < |init| && n in Nodes(init[k]);
          assert init[k] == ts[k];
        } else {
          assert n in Nodes(ts[|ts| - 1]);
        }
      }
    }
  }

  /** A subtree of a tree that unfolds the heap unfolds it too. */
  lemma DescribesSubtree(t: Tree, k: nat)
    requires Describes(t) && k < |t.subtrees|
    ensures Describes(t.subtrees[k]) && t.root.children[k] == t.subtrees[k].root
  {
    assert t in Nodes(t);
    NodesAllContains(t.subtrees, k);
  }

  /** The objects of a tree in pre-order: the root, then each child's subtree in turn. */
  function Preorder(t: Tree): seq<Object3D>
    decreases t
  {
    [t.root] + PreorderAll(t.subtrees)
  }

  function PreorderAll(ts: seq<Tree>): seq<Object3D>
    decreases ts
  {
    if ts == [] then [] else PreorderAll(ts[..|ts| - 1]) + Preorder(ts[|ts| - 1])
  }

  /**
   * What the walk appends, given the objects already listed: each object of
   * objs in turn that is not a camera and is neither listed nor appended before.
   */
  function Added(listed: seq<Object3D>, objs: seq<Object3D>): seq<Object3D>
    decreases |objs|
  {
    if objs == [] then []
    else if objs[0].kind != Camera && objs[0] !in listed then [objs[0]] + Added(listed + [objs[0]], objs[1..])
    else Added(listed, objs[1..])
  }

  /** Walking one more subtree appends what it adds after what came before. */
  lemma WalkStep(listed: seq<Object3D>, ts: seq<Tree>, c: nat)
    requires c < |ts|
    ensures PreorderAll(ts[..c + 1]) == PreorderAll(ts[..c]) + Preorder(ts[c])
  {
    assert ts[..c + 1][..c] == ts[..c];
  }

  /** A list that has received the walk of `walked` and then the walk of p has received the walk of walked + p. */
  lemma AppendStep(listed: seq<Object3D>, walked: seq<Object3D>, p: seq<Object3D>,
                   base: seq<Object3D>, cur: seq<Object3D>, next: seq<Object3D>)
    requires cur == base + Added(listed, walked)
    requires next == cur + Added(listed + Added(listed, walked), p)
    ensures next == base + Added(listed, walked + p)
  {
    AddedAppend(listed, walked, p);
  }

  lemma {:induction false} AddedAppend(listed: seq<Object3D>, a: seq<Object3D>, b: seq<Object3D>)
    ensures Added(listed, a + b) == Added(listed, a) + Added(listed + Added(listed, a), b)
    decreases |a|
  {
    if a != [] {
      assert (a + b)[1..] == a[1..] + b;
      if a[0].kind != Camera && a[0] !in listed {
        AddedAppend(listed + [a[0]], a[1..], b);
        assert listed + [a[0]] + Added(listed + [a[0]], a[1..]) == listed + Added(listed, a);
      } else {
        AddedAppend(listed, a[1..], b);
      }
    } else {
      assert a + b == b && listed + [] == listed;
    }
  }

  /** No object appears twice. */
  predicate NoDuplicates(xs: seq<Object3D>)
  {
    forall i, j :: 0 <= i < j < |xs| ==> xs[i] != xs[j]
  }

  /** What the walk appends are objects of the walk that are not cameras and were not listed. */
  lemma {:induction false} AddedFresh(listed: seq<Object3D>, objs: seq<Object3D>)
    ensures forall x :: x in Added(listed, objs) ==> x !in listed && x.kind != Camera && x in objs
    decreases |objs|
  {
    if objs != [] {
      var o := objs[0];
      var a := Added(listed, objs);
      if o.kind != Camera && o !in listed {
        var rest := Added(listed + [o], objs[1..]);
        AddedFresh(listed + [o], objs[1..]);
        assert a == [o] + rest;
        forall x | x in a
          ensures x !in listed && x.kind != Camera && x in objs
        {
          if x != o {
            assert x in rest;
            assert x !in listed + [o] && x in objs[1..];
          }
        }
      } else {
        AddedFresh(listed, objs[1..]);
        assert a == Added(listed, objs[1..]);
        forall x | x in a
          ensures x in objs
        {
          assert x in objs[1..];
        }
      }
    }
  }

  /** Each object is appended at most once: a list without repeats stays without repeats. */
  lemma {:induction false} AddedKeepsDistinct(listed: seq<Object3D>, objs: seq<Object3D>)
    requires NoDuplicates(listed)
    ensures NoDuplicates(listed + Added(listed, objs))
    decreases |objs|
  {
    if objs != [] {
      var o := objs[0];
      if o.kind != Camera && o !in listed {
        var grown := listed + [o];
        assert NoDuplicates(grown) by {
          forall i, j | 0 <= i < j < |grown|
            ensures grown[i] != grown[j]
          {
            assert grown[i] == listed[i] && listed[i] in listed;
            if j == |listed| {
              assert grown[j] == o;
            } else {
              assert grown[j] == listed[j];
            }
          }
        }
        AddedKeepsDistinct(grown, objs[1..]);
        assert listed + Added(listed, objs) == grown + Added(grown, objs[1..]);
      } else {
        AddedKeepsDistinct(listed, objs[1..]);
        assert Added(listed, objs) == Added(listed, objs[1..]);
      }
    } else {
      assert listed + [] == listed;
    }
  }

  /** After the walk every object of it that is not a camera is listed. */
  lemma {:induction false} AddedCovers(listed: seq<Object3D>, objs: seq<Object3D>)
    ensures forall k :: 0 <= k < |objs| && objs[k].kind != Camera ==> objs[k] in listed + Added(listed, objs)
    decreases |objs|
  {
    if objs != [] {
      var o := objs[0];
      if o.kind != Camera && o !in listed {
        AddedCovers(listed + [o], objs[1..]);
        assert listed + Added(listed, objs) == (listed + [o]) + Added(listed + [o], objs[1..]);
      } else {
        AddedCovers(listed, objs[1..]);
      }
      forall k | 0 <= k < |objs| && objs[k].kind != Camera ensures objs[k] in listed + Added(listed, objs) {
        if k > 0 {
          assert objs[k] == objs[1..][k - 1];
        }
      }
    }
  }

  /** A walk over objects that are all listed or cameras adds nothing. */
  lemma {:induction false} AddedNothing(listed: seq<Object3D>, objs: seq<Object3D>)
    requires forall k :: 0 <= k < |objs| && objs[k].kind != Camera ==> objs[k] in listed
    ensures Added(listed, objs) == []
    decreases |objs|
  {
    if objs != [] {
      forall k | 0 <= k < |objs[1..]| && objs[1..][k].kind != Camera ensures objs[1..][k] in listed {
        assert objs[1..][k] == objs[k + 1];
      }
      AddedNothing(listed, objs[1..]);
    }
  }

  /** Walking the same objects a second time adds nothing: the second addChildRecurse of Scene.addChild is idle. */
  lemma WalkTwice(listed: seq<Object3D>, objs: seq<Object3D>)
    ensures Added(listed + Added(listed, objs), objs) == []
  {
    AddedCovers(listed, objs);
    AddedNothing(listed + Added(listed, objs), objs);
  }
}
