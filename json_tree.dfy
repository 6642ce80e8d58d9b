/** `parse_json_to_tree` of work.py: walk the decoded value alongside the raw
    text and give every node the span `[start_pos, end_pos]` of its value in
    that text. `TreeOf` is the specification; `BuildTree` is the recursive
    method with its two loops, which builds `TreeNode` objects in place and
    is proved to build exactly `TreeOf`. */
module JsonTree {
  import opened JsonValue
  import opened PyStr
  import opened ValueScan

  /** The value of one node: what `TreeNode` holds once it is built. */
  datatype Tree = Tree(name: string, value: Json, start: int, end: int, kids: seq<Tree>)

  /** `f'"{k}"'`: the text searched for to find a key. */
  function KeyLiteral(k: string): string {
    "\"" + k + "\""
  }

  /** `f'[{i}]'`: the name of the `i`-th list element. */
  function IndexName(i: nat): string {
    "[" + Decimal(i) + "]"
  }

  // ---------------------------------------------------------------------------
  // Specification of build_tree
  // ---------------------------------------------------------------------------

  /** The node that `build_tree(name, v, start, end)` builds. The value of a
      container node is Python's `None`, written `JNull` here, as is the value
      of a JSON `null`. */
  function TreeOf(s: string, name: string, v: Json, start: nat, end: int): (t: Tree)
    requires end <= |s|
    decreases v, 1, 0
  {
    match v
    case JObject(_) => Tree(name, JNull, start, end, ObjectKids(s, v, 0, start, end))
    case JArray(_) => Tree(name, JNull, start, end, ArrayKids(s, v, 0, start, end))
    case _ => Tree(name, v, start, end, [])
  }

  /** The children of an object, from member `i` on, when the previous child
      ended at `last`. Each key is searched for from `last`, then the next `:`
      anywhere after the key, then the value's start and end. */
  function ObjectKids(s: string, v: Json, i: nat, last: int, end: int): (r: seq<Tree>)
    requires v.JObject? && i <= |v.members| && end <= |s|
    decreases v, 0, |v.members| - i
  {
    if i == |v.members| then []
    else
      var key := v.members[i].0;
      var keyPos := Find(s, KeyLiteral(key), last, end);
      var colon := FindChar(s, ':', keyPos, |s|) + 1;
      var childStart := ValueStart(s, colon, end);
      var childEnd := ValueEnd(s, childStart, end);
      [TreeOf(s, key, v.members[i].1, childStart, childEnd)] + ObjectKids(s, v, i + 1, childEnd, end)
  }

  /** The character that ends list element `i` of `n`: `,` except for the last. */
  function Delimiter(n: nat, i: nat): char {
    if i < n - 1 then ',' else ']'
  }

  /** The children of a list, from element `i` on, when the scan resumes at
      `current`. A non-last element ends at the next `,`, the last one at the
      next `]`; neither search knows about nesting. */
  function ArrayKids(s: string, v: Json, i: nat, current: nat, end: int): (r: seq<Tree>)
    requires v.JArray? && i <= |v.items| && end <= |s|
    decreases v, 0, |v.items| - i
  {
    if i == |v.items| then []
    else
      var itemStart := ValueStart(s, current, end);
      var itemEnd := FindChar(s, Delimiter(|v.items|, i), itemStart, end);
      [TreeOf(s, IndexName(i), v.items[i], itemStart, itemEnd)] + ArrayKids(s, v, i + 1, itemEnd + 1, end)
  }

  /** The tree `parse_json_to_tree(s)` returns once `json.loads(s)` gave `data`. */
  function ParseTree(s: string, data: Json): (t: Tree)
    ensures t.name == "root" && t.start == 0 && t.end == |s|
  {
    TreeOf(s, "root", data, 0, |s|)
  }

  // ---------------------------------------------------------------------------
  // TreeNode and build_tree
  // ---------------------------------------------------------------------------

  class TreeNode {
    const name: string
    var value: Json
    const startPos: int
    const endPos: int
    var children: seq<TreeNode>

    /** The tree this node and its descendants stand for. */
    ghost var Model: Tree
    /** This node and all its descendants. */
    ghost var Repr: set<object>

    ghost predicate Valid()
      reads this, Repr
      decreases Repr
    {
      this in Repr &&
      Model.name == name && Model.value == value &&
      Model.start == startPos && Model.end == endPos &&
      |Model.kids| == |children| &&
      forall i :: 0 <= i < |children| ==>
        children[i] in Repr && children[i].Repr <= Repr && this !in children[i].Repr &&
        children[i].Model == Model.kids[i] && children[i].Valid()
    }

    constructor (name: string, value: Json, startPos: int, endPos: int)
      ensures Valid() && fresh(Repr)
      ensures Model == Tree(name, value, startPos, endPos, [])
    {
      this.name := name;
      this.value := value;
      this.startPos := startPos;
      this.endPos := endPos;
      children := [];
      Model := Tree(name, value, startPos, endPos, []);
      Repr := {this};
    }

    /** `add_child`: append `child` to the children, in place. */
    method AddChild(child: TreeNode)
      requires Valid() && child.Valid() && this !in child.Repr
      modifies this
      ensures Valid()
      ensures children == old(children) + [child]
      ensures Model == old(Model).(kids := old(Model.kids) + [child.Model])
      ensures Repr == old(Repr) + child.Repr
    {
      children := children + [child];
      Model := Model.(kids := Model.kids + [child.Model]);
      Repr := Repr + child.Repr;
    }
  }

  lemma {:induction false} ObjectKidsUnfold(s: string, v: Json, i: nat, last: int, end: int)
    requires v.JObject? && i < |v.members| && end <= |s|
    ensures var key := v.members[i].0;
      var colon := FindChar(s, ':', Find(s, KeyLiteral(key), last, end), |s|) + 1;
      var childStart := ValueStart(s, colon, end);
      var childEnd := ValueEnd(s, childStart, end);
      ObjectKids(s, v, i, last, end) ==
        [TreeOf(s, key, v.members[i].1, childStart, childEnd)] + ObjectKids(s, v, i + 1, childEnd, end)
  {
  }

  lemma {:induction false} ArrayKidsUnfold(s: string, v: Json, i: nat, current: nat, end: int)
    requires v.JArray? && i < |v.items| && end <= |s|
    ensures var itemStart := ValueStart(s, current, end);
      var itemEnd := FindChar(s, Delimiter(|v.items|, i), itemStart, end);
      ArrayKids(s, v, i, current, end) ==
        [TreeOf(s, IndexName(i), v.items[i], itemStart, itemEnd)] + ArrayKids(s, v, i + 1, itemEnd + 1, end)
  {
  }

  /** The bookkeeping of one loop turn: moving the next child from the
      children still to build to those built keeps their concatenation. */
  lemma {:induction false} AppendOne(done: seq<Tree>, t: Tree, rest: seq<Tree>, todo: seq<Tree>, all: seq<Tree>)
    requires done + todo == all && todo == [t] + rest
    ensures (done + [t]) + rest == all
  {
    assert (done + [t]) + rest == done + ([t] + rest);
  }

  /** `build_tree(name, value, start_pos, end_pos)`: a node whose value is
      set for a scalar, or whose children are added by one of the two loops. */
  method BuildTree(s: string, name: string, v: Json, start: nat, end: int) returns (node: TreeNode)
    requires end <= |s|
    ensures fresh(node.Repr) && node.Valid()
    ensures node.Model == TreeOf(s, name, v, start, end)
    decreases v, 2
  {
    if v.JObject? {
      node := BuildObject(s, name, v, start, end);
    } else if v.JArray? {
      node := BuildArray(s, name, v, start, end);
    } else {
      node := new TreeNode(name, JNull, start, end);
      node.value := v;
      node.Model := node.Model.(value := v);
    }
  }

  /** The `dict` branch of `build_tree`: one child per member, in order. */
  method BuildObject(s: string, name: string, v: Json, start: nat, end: int) returns (node: TreeNode)
    requires v.JObject? && end <= |s|
    ensures fresh(node.Repr) && node.Valid()
    ensures node.Model == TreeOf(s, name, v, start, end)
    decreases v, 1
  {
    node := new TreeNode(name, JNull, start, end);
    ghost var all := ObjectKids(s, v, 0, start, end);
    assert TreeOf(s, name, v, start, end) == Tree(name, JNull, start, end, all);
    var lastEnd := start;
    var i := 0;
    ghost var todo := all;
    while i < |v.members|
      invariant 0 <= i <= |v.members|
      invariant fresh(node.Repr) && node.Valid()
      invariant node.Model == Tree(name, JNull, start, end, node.Model.kids)
      invariant todo == ObjectKids(s, v, i, lastEnd, end)
      invariant node.Model.kids + todo == all
    {
      ghost var done := node.Model.kids;
      ghost var kid;
      lastEnd, kid := AddMember(s, node, v, i, lastEnd, end);
      AppendOne(done, kid, ObjectKids(s, v, i + 1, lastEnd, end), todo, all);
      todo := ObjectKids(s, v, i + 1, lastEnd, end);
      i := i + 1;
    }
  }

  /** One turn of the `dict` loop: find member `i`'s key from `lastEnd`, the
      `:` after it and the value's span, build the child and append it.
      Returns the child's end, the next `last_end_pos`. */
  method AddMember(s: string, node: TreeNode, v: Json, i: nat, lastEnd: int, end: int)
    returns (childEnd: int, ghost kid: Tree)
    requires v.JObject? && i < |v.members| && end <= |s|
    requires node.Valid()
    modifies node
    ensures node.Valid() && fresh(node.Repr - old(node.Repr))
    ensures node.Model == old(node.Model).(kids := old(node.Model.kids) + [kid])
    ensures ObjectKids(s, v, i, lastEnd, end) == [kid] + ObjectKids(s, v, i + 1, childEnd, end)
    decreases v, 0
  {
    var key := v.members[i].0;
    var childStart := Find(s, KeyLiteral(key), lastEnd, end);
    childStart := FindChar(s, ':', childStart, |s|) + 1;
    childStart := FindValueStart(s, childStart, end);
    childEnd := FindValueEnd(s, childStart, end);
    assert v.members[i] in v.members;
    var child := BuildTree(s, key, v.members[i].1, childStart, childEnd);
    node.AddChild(child);
    kid := child.Model;
    ObjectKidsUnfold(s, v, i, lastEnd, end);
  }

  /** The `list` branch of `build_tree`: one child per element, in order. */
  method BuildArray(s: string, name: string, v: Json, start: nat, end: int) returns (node: TreeNode)
    requires v.JArray? && end <= |s|
    ensures fresh(node.Repr) && node.Valid()
    ensures node.Model == TreeOf(s, name, v, start, end)
    decreases v, 1
  {
    node := new TreeNode(name, JNull, start, end);
    ghost var all := ArrayKids(s, v, 0, start, end);
    assert TreeOf(s, name, v, start, end) == Tree(name, JNull, start, end, all);
    var current := start;
    var i := 0;
    ghost var todo := all;
    while i < |v.items|
      invariant 0 <= i <= |v.items| && 0 <= current
      invariant fresh(node.Repr) && node.Valid()
      invariant node.Model == Tree(name, JNull, start, end, node.Model.kids)
      invariant todo == ArrayKids(s, v, i, current, end)
      invariant node.Model.kids + todo == all
    {
      ghost var done := node.Model.kids;
      ghost var kid;
      var itemEnd;
      itemEnd, kid := AddItem(s, node, v, i, current, end);
      AppendOne(done, kid, ArrayKids(s, v, i + 1, itemEnd + 1, end), todo, all);
      todo := ArrayKids(s, v, i + 1, itemEnd + 1, end);
      current := itemEnd + 1;
      i := i + 1;
    }
  }

  /** One turn of the `list` loop: skip whitespace from `current`, end the
      element at the next `,` (or `]` for the last one), build the child and
      append it. Returns the element's end. */
  method AddItem(s: string, node: TreeNode, v: Json, i: nat, current: nat, end: int)
    returns (itemEnd: int, ghost kid: Tree)
    requires v.JArray? && i < |v.items| && end <= |s|
    requires node.Valid()
    modifies node
    ensures node.Valid() && fresh(node.Repr - old(node.Repr))
    ensures -1 <= itemEnd < |s|
    ensures node.Model == old(node.Model).(kids := old(node.Model.kids) + [kid])
    ensures ArrayKids(s, v, i, current, end) == [kid] + ArrayKids(s, v, i + 1, itemEnd + 1, end)
    decreases v, 0
  {
    var itemStart := FindValueStart(s, current, end);
    if i < |v.items| - 1 {
      itemEnd := FindChar(s, ',', itemStart, end);
    } else {
      itemEnd := FindChar(s, ']', itemStart, end);
    }
    var child := BuildTree(s, IndexName(i), v.items[i], itemStart, itemEnd);
    node.AddChild(child);
    kid := child.Model;
    ArrayKidsUnfold(s, v, i, current, end);
  }

  /** `parse_json_to_tree(json_str)`, given what `json.loads(json_str)`
      returned. */
  method ParseJsonToTree(s: string, data: Json) returns (root: TreeNode)
    ensures fresh(root.Repr) && root.Valid()
    ensures root.Model == ParseTree(s, data)
  {
    root := BuildTree(s, "root", data, 0, |s|);
  }
}
