/** `find_path_by_position` of work.py: the names of the nodes whose span
    contains a cursor offset, found by a recursive walk that appends to one
    shared list. `Traverse` is the walk over `TreeNode` objects; `Collect`
    is its specification on the `Tree` a node stands for. The lemmas say
    which nodes are listed (exactly those contained along with all their
    ancestors), in which order (pre-order), and what the root contributes. */
module PositionLookup {
  import opened JsonTree

  /** `node.start_pos <= position <= node.end_pos`: both ends inclusive. */
  predicate Contains(t: Tree, pos: int) {
    t.start <= pos <= t.end
  }

  /** The names `traverse(t, pos)` appends, in the order it appends them. */
  function Collect(t: Tree, pos: int): seq<string>
    decreases t, 1
  {
    if Contains(t, pos) then [t.name] + CollectKids(t, 0, pos) else []
  }

  /** The names appended by the walk over children `i..` of `t`. */
  function CollectKids(t: Tree, i: nat, pos: int): seq<string>
    requires i <= |t.kids|
    decreases t, 0, |t.kids| - i
  {
    if i == |t.kids| then [] else Collect(t.kids[i], pos) + CollectKids(t, i + 1, pos)
  }

  // ---------------------------------------------------------------------------
  // traverse and find_path_by_position
  // ---------------------------------------------------------------------------

  lemma {:induction false} AppendBlock(path: seq<string>, block: seq<string>, rest: seq<string>, todo: seq<string>, all: seq<string>)
    requires path + todo == all && todo == block + rest
    ensures (path + block) + rest == all
  {
    assert (path + block) + rest == path + (block + rest);
  }

  /** `traverse(node, position)`: when the node contains the position, append
      its name and walk its children in order. `path` is the shared list as
      it was before the call; the result is the list after it. */
  method Traverse(node: TreeNode, position: int, path: seq<string>) returns (path': seq<string>)
    requires node.Valid()
    ensures path' == path + Collect(node.Model, position)
    decreases node.Repr
  {
    path' := path;
    if node.startPos <= position <= node.endPos {
      path' := path' + [node.name];
      ghost var all := path + Collect(node.Model, position);
      ghost var todo := CollectKids(node.Model, 0, position);
      var i := 0;
      while i < |node.children|
        invariant 0 <= i <= |node.children|
        invariant todo == CollectKids(node.Model, i, position)
        invariant path' + todo == all
      {
        var child := node.children[i];
        ghost var before := path';
        path' := Traverse(child, position, path');
        AppendBlock(before, Collect(child.Model, position), CollectKids(node.Model, i + 1, position), todo, all);
        todo := CollectKids(node.Model, i + 1, position);
        i := i + 1;
      }
    }
  }

  /** `find_path_by_position(node, position)`. */
  method FindPathByPosition(root: TreeNode, position: int) returns (path: seq<string>)
    requires root.Valid()
    ensures path == Collect(root.Model, position)
  {
    path := Traverse(root, position, []);
  }

  // ---------------------------------------------------------------------------
  // Which nodes are listed, and in which order
  // ---------------------------------------------------------------------------

  /** `a` is the address of a node of `t`: the child index to take at each
      level, from the top. */
  predicate IsAddr(t: Tree, a: seq<nat>)
    decreases a
  {
    a == [] || (a[0] < |t.kids| && IsAddr(t.kids[a[0]], a[1..]))
  }

  function NodeAt(t: Tree, a: seq<nat>): Tree
    requires IsAddr(t, a)
    decreases a
  {
    if a == [] then t else NodeAt(t.kids[a[0]], a[1..])
  }

  /** The node at `a` and every node above it contain `pos`. */
  predicate ContainedAlong(t: Tree, a: seq<nat>, pos: int)
    requires IsAddr(t, a)
    decreases a
  {
    Contains(t, pos) && (a == [] || ContainedAlong(t.kids[a[0]], a[1..], pos))
  }

  /** Every address of `addrs`, one level down below child `i`. */
  function Below(i: nat, addrs: seq<seq<nat>>): seq<seq<nat>> {
    seq(|addrs|, k requires 0 <= k < |addrs| => [i] + addrs[k])
  }

  /** The addresses of the nodes `traverse(t, pos)` appends, in the order it
      appends them. */
  function Visit(t: Tree, pos: int): seq<seq<nat>>
    decreases t, 1
  {
    if Contains(t, pos) then [[]] + VisitKids(t, 0, pos) else []
  }

  function VisitKids(t: Tree, i: nat, pos: int): seq<seq<nat>>
    requires i <= |t.kids|
    decreases t, 0, |t.kids| - i
  {
    if i == |t.kids| then [] else Below(i, Visit(t.kids[i], pos)) + VisitKids(t, i + 1, pos)
  }

  lemma {:induction false} AddrBelow(t: Tree, i: nat, a: seq<nat>, pos: int)
    requires i < |t.kids|
    ensures IsAddr(t, [i] + a) <==> IsAddr(t.kids[i], a)
    ensures IsAddr(t.kids[i], a) ==>
      NodeAt(t, [i] + a) == NodeAt(t.kids[i], a) &&
      (ContainedAlong(t, [i] + a, pos) <==> Contains(t, pos) && ContainedAlong(t.kids[i], a, pos))
  {
    assert ([i] + a)[1..] == a;
  }

  /** The `k`-th name appended is the name of the `k`-th node visited. */
  lemma {:induction false} CollectNames(t: Tree, pos: int)
    ensures |Collect(t, pos)| == |Visit(t, pos)|
    ensures forall k :: 0 <= k < |Visit(t, pos)| ==>
      IsAddr(t, Visit(t, pos)[k]) && NodeAt(t, Visit(t, pos)[k]).name == Collect(t, pos)[k]
    decreases t, 1
  {
    if Contains(t, pos) {
      CollectKidsNames(t, 0, pos);
    }
  }

  lemma {:induction false} CollectKidsNames(t: Tree, i: nat, pos: int)
    requires i <= |t.kids|
    ensures |CollectKids(t, i, pos)| == |VisitKids(t, i, pos)|
    ensures forall k :: 0 <= k < |VisitKids(t, i, pos)| ==>
      IsAddr(t, VisitKids(t, i, pos)[k]) && NodeAt(t, VisitKids(t, i, pos)[k]).name == CollectKids(t, i, pos)[k]
    decreases t, 0, |t.kids| - i
  {
    if i < |t.kids| {
      var kid := t.kids[i];
      CollectNames(kid, pos);
      CollectKidsNames(t, i + 1, pos);
      var head := Below(i, Visit(kid, pos));
      var names := Collect(kid, pos);
      var v := VisitKids(t, i, pos);
      var c := CollectKids(t, i, pos);
      assert v == head + VisitKids(t, i + 1, pos);
      assert c == names + CollectKids(t, i + 1, pos);
      forall k | 0 <= k < |v|
        ensures IsAddr(t, v[k]) && NodeAt(t, v[k]).name == c[k]
      {
        if k < |head| {
          AddrBelow(t, i, Visit(kid, pos)[k], pos);
        }
      }
    }
  }

  /** An address is visited exactly when it names a node that contains the
      position and all of whose ancestors contain it too. */
  lemma {:induction false} VisitIff(t: Tree, a: seq<nat>, pos: int)
    ensures a in Visit(t, pos) <==> IsAddr(t, a) && ContainedAlong(t, a, pos)
    decreases t, 1
  {
    if Contains(t, pos) && a != [] {
      VisitKidsIff(t, 0, a, pos);
    }
  }

  lemma {:induction false} VisitKidsIff(t: Tree, i: nat, a: seq<nat>, pos: int)
    requires i <= |t.kids|
    ensures a in VisitKids(t, i, pos) <==>
      a != [] && i <= a[0] < |t.kids| && IsAddr(t.kids[a[0]], a[1..]) && ContainedAlong(t.kids[a[0]], a[1..], pos)
    decreases t, 0, |t.kids| - i
  {
    if i < |t.kids| {
      var kid := t.kids[i];
      var head := Below(i, Visit(kid, pos));
      assert VisitKids(t, i, pos) == head + VisitKids(t, i + 1, pos);
      VisitKidsIff(t, i + 1, a, pos);
      if a != [] && a[0] == i {
        VisitIff(kid, a[1..], pos);
        if a[1..] in Visit(kid, pos) {
          var k :| 0 <= k < |Visit(kid, pos)| && Visit(kid, pos)[k] == a[1..];
          assert head[k] == a;
        }
        if a in head {
          var k :| 0 <= k < |head| && head[k] == a;
          assert Visit(kid, pos)[k] == a[1..];
        }
      }
    }
  }

  /** `a` comes before `b` in pre-order: `a` is a proper prefix of `b`, or
      `a` takes a smaller child index where they first differ. */
  predicate PreOrderBefore(a: seq<nat>, b: seq<nat>)
    decreases a
  {
    b != [] && (a == [] || a[0] < b[0] || (a[0] == b[0] && PreOrderBefore(a[1..], b[1..])))
  }

  predicate InPreOrder(addrs: seq<seq<nat>>) {
    forall k, l :: 0 <= k < l < |addrs| ==> PreOrderBefore(addrs[k], addrs[l])
  }

  lemma {:induction false} BelowInPreOrder(i: nat, addrs: seq<seq<nat>>)
    requires InPreOrder(addrs)
    ensures InPreOrder(Below(i, addrs))
  {
    var bs := Below(i, addrs);
    forall k, l | 0 <= k < l < |bs|
      ensures PreOrderBefore(bs[k], bs[l])
    {
      assert bs[k][1..] == addrs[k] && bs[l][1..] == addrs[l];
    }
  }

  lemma {:induction false} VisitKidsFrom(t: Tree, i: nat, pos: int)
    requires i <= |t.kids|
    ensures forall b :: b in VisitKids(t, i, pos) ==> b != [] && b[0] >= i
    decreases |t.kids| - i
  {
    if i < |t.kids| {
      VisitKidsFrom(t, i + 1, pos);
      assert VisitKids(t, i, pos) == Below(i, Visit(t.kids[i], pos)) + VisitKids(t, i + 1, pos);
    }
  }

  /** The nodes are listed in pre-order: a node before its descendants,
      and the subtree of a child before that of any later child. */
  lemma {:induction false} VisitInPreOrder(t: Tree, pos: int)
    ensures InPreOrder(Visit(t, pos))
    decreases t, 1
  {
    if Contains(t, pos) {
      VisitKidsInPreOrder(t, 0, pos);
      VisitKidsFrom(t, 0, pos);
      var v := Visit(t, pos);
      forall k, l | 0 <= k < l < |v|
        ensures PreOrderBefore(v[k], v[l])
      {
        if k > 0 {
          assert v[k] == VisitKids(t, 0, pos)[k - 1] && v[l] == VisitKids(t, 0, pos)[l - 1];
        } else {
          assert v[l] in VisitKids(t, 0, pos);
        }
      }
    }
  }

  lemma {:induction false} VisitKidsInPreOrder(t: Tree, i: nat, pos: int)
    requires i <= |t.kids|
    ensures InPreOrder(VisitKids(t, i, pos))
    decreases t, 0, |t.kids| - i
  {
    if i < |t.kids| {
      var head := Below(i, Visit(t.kids[i], pos));
      var rest := VisitKids(t, i + 1, pos);
      VisitInPreOrder(t.kids[i], pos);
      BelowInPreOrder(i, Visit(t.kids[i], pos));
      VisitKidsInPreOrder(t, i + 1, pos);
      VisitKidsFrom(t, i + 1, pos);
      var v := head + rest;
      assert VisitKids(t, i, pos) == v;
      forall k, l | 0 <= k < l < |v|
        ensures PreOrderBefore(v[k], v[l])
      {
        if l < |head| {
          assert v[k] == head[k] && v[l] == head[l];
        } else if k >= |head| {
          assert v[k] == rest[k - |head|] && v[l] == rest[l - |head|];
        } else {
          assert v[k] == head[k] && v[l] == rest[l - |head|] && v[l] in rest;
        }
      }
    }
  }

  /** The result is empty exactly when the node does not contain the
      position; otherwise the node's own name comes first. For the tree of
      `parse_json_to_tree`, that name is `root`, and any position outside
      `[0, len(json_str)]` gives the empty list. */
  lemma {:induction false} CollectRoot(s: string, data: JsonValue.Json, pos: int)
    ensures var p := Collect(ParseTree(s, data), pos);
      (p != [] <==> 0 <= pos <= |s|) && (p != [] ==> p[0] == "root")
  {
  }
}
