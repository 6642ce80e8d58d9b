/** What `build_tree` promises about the tree it builds: the shape and the
    names of the nodes, where list elements end, and that every span stays
    inside the text. Stated on `TreeOf`, which `BuildTree` is proved to
    build. */
module TreeFacts {
  import opened JsonValue
  import opened PyStr
  import opened ValueScan
  import opened JsonTree

  /** One child of an object and the rest, with the two positions the
      child was given left unnamed. */
  lemma {:induction false} ObjectKidsStep(s: string, v: Json, i: nat, last: int, end: int)
    returns (childStart: nat, childEnd: int)
    requires v.JObject? && i < |v.members| && end <= |s|
    ensures childStart <= |s| && childEnd <= end && (-1 <= end ==> -1 <= childEnd)
    ensures ObjectKids(s, v, i, last, end) ==
      [TreeOf(s, v.members[i].0, v.members[i].1, childStart, childEnd)] + ObjectKids(s, v, i + 1, childEnd, end)
  {
    var colon := FindChar(s, ':', Find(s, KeyLiteral(v.members[i].0), last, end), |s|) + 1;
    childStart := ValueStart(s, colon, end);
    childEnd := ValueEnd(s, childStart, end);
    ObjectKidsUnfold(s, v, i, last, end);
  }

  /** One element of a list and the rest, likewise; the element ends where
      the search for its delimiter stops. */
  lemma {:induction false} ArrayKidsStep(s: string, v: Json, i: nat, current: nat, end: int)
    returns (itemStart: nat, itemEnd: int)
    requires v.JArray? && i < |v.items| && end <= |s|
    ensures (current <= |s| ==> itemStart <= |s|) && itemEnd == FindChar(s, Delimiter(|v.items|, i), itemStart, end)
    ensures ArrayKids(s, v, i, current, end) ==
      [TreeOf(s, IndexName(i), v.items[i], itemStart, itemEnd)] + ArrayKids(s, v, i + 1, itemEnd + 1, end)
  {
    itemStart := ValueStart(s, current, end);
    itemEnd := FindChar(s, Delimiter(|v.items|, i), itemStart, end);
    ArrayKidsUnfold(s, v, i, current, end);
  }

  /** Where the search for a list delimiter can stop. */
  lemma {:induction false} DelimiterSearch(s: string, c: char, start: nat, end: int)
    requires end <= |s|
    ensures var r := FindChar(s, c, start, end);
      -1 <= r < |s| && (end >= 0 ==> r < end)
  {
  }

  lemma {:induction false} ConsParts(t: Tree, rest: seq<Tree>)
    ensures |[t] + rest| == |rest| + 1 && ([t] + rest)[0] == t && ([t] + rest)[1..] == rest
  {
  }

  /** The names of a sequence of nodes, in order. */
  function Names(ts: seq<Tree>): seq<string> {
    if ts == [] then [] else [ts[0].name] + Names(ts[1..])
  }

  lemma {:induction false} NamesCons(t: Tree, rest: seq<Tree>)
    ensures Names([t] + rest) == [t.name] + Names(rest)
  {
    assert ([t] + rest)[1..] == rest;
  }

  /** The keys of a dict, in iteration order. */
  function Keys(ms: seq<(string, Json)>): seq<string> {
    if ms == [] then [] else [ms[0].0] + Keys(ms[1..])
  }

  /** The names `[i]`, `[i+1]`, ..., `[n-1]`. */
  function IndexNames(i: nat, n: nat): seq<string>
    decreases n - i
  {
    if i >= n then [] else [IndexName(i)] + IndexNames(i + 1, n)
  }

  lemma {:induction false} TreeOfHead(s: string, name: string, v: Json, start: nat, end: int)
    requires end <= |s|
    ensures var t := TreeOf(s, name, v, start, end);
      t.name == name && t.start == start && t.end == end
  {
  }

  lemma {:induction false} IndexNamesCons(t: Tree, rest: seq<Tree>, i: nat, n: nat)
    requires i < n && t.name == IndexName(i) && Names(rest) == IndexNames(i + 1, n)
    ensures Names([t] + rest) == IndexNames(i, n)
  {
    NamesCons(t, rest);
  }

  lemma {:induction false} ObjectKidsNames(s: string, v: Json, i: nat, last: int, end: int)
    requires v.JObject? && i <= |v.members| && end <= |s|
    ensures Names(ObjectKids(s, v, i, last, end)) == Keys(v.members[i..])
    decreases |v.members| - i
  {
    if i < |v.members| {
      var childStart, childEnd := ObjectKidsStep(s, v, i, last, end);
      var first := TreeOf(s, v.members[i].0, v.members[i].1, childStart, childEnd);
      TreeOfHead(s, v.members[i].0, v.members[i].1, childStart, childEnd);
      ObjectKidsNames(s, v, i + 1, childEnd, end);
      NamesCons(first, ObjectKids(s, v, i + 1, childEnd, end));
      assert v.members[i..][1..] == v.members[i + 1..];
    }
  }

  lemma {:induction false} ArrayKidsNames(s: string, v: Json, i: nat, current: nat, end: int)
    requires v.JArray? && i <= |v.items| && end <= |s|
    ensures Names(ArrayKids(s, v, i, current, end)) == IndexNames(i, |v.items|)
    decreases |v.items| - i
  {
    if i < |v.items| {
      var itemStart, itemEnd := ArrayKidsStep(s, v, i, current, end);
      var first := TreeOf(s, IndexName(i), v.items[i], itemStart, itemEnd);
      TreeOfHead(s, IndexName(i), v.items[i], itemStart, itemEnd);
      ArrayKidsNames(s, v, i + 1, itemEnd + 1, end);
      IndexNamesCons(first, ArrayKids(s, v, i + 1, itemEnd + 1, end), i, |v.items|);
    }
  }

  /** `build_tree` sets the value of a scalar node and gives it no children;
      a container node keeps `None` as its value; an object gets one child
      per key, named by the key, in the dict's order; a list gets one child
      per element, named `[0]`, `[1]`, ..., in order. */
  lemma {:induction false} BuildTreeShape(s: string, name: string, v: Json, start: nat, end: int)
    requires end <= |s|
    ensures var t := TreeOf(s, name, v, start, end);
      t.name == name && t.start == start && t.end == end &&
      (IsScalar(v) ==> t.value == v && t.kids == []) &&
      (!IsScalar(v) ==> t.value == JNull) &&
      (v.JObject? ==> Names(t.kids) == Keys(v.members)) &&
      (v.JArray? ==> Names(t.kids) == IndexNames(0, |v.items|))
  {
    if v.JObject? {
      ObjectKidsNames(s, v, 0, start, end);
      assert v.members[0..] == v.members;
    } else if v.JArray? {
      ArrayKidsNames(s, v, 0, start, end);
    }
  }

  /** Each node ends at the first occurrence of its delimiter at or after its
      own start, or at -1 when there is none before `hi`: element `i` of `n`
      looks for `Delimiter(n, i)`. */
  ghost predicate EndsAtDelimiters(s: string, ts: seq<Tree>, n: nat, i: nat, hi: nat)
    requires hi <= |s|
  {
    ts == [] ||
    (0 <= ts[0].start && IsFirstChar(s, Delimiter(n, i), ts[0].start, hi, ts[0].end) &&
     EndsAtDelimiters(s, ts[1..], n, i + 1, hi))
  }

  lemma {:induction false} EndsCons(s: string, t: Tree, rest: seq<Tree>, n: nat, i: nat, hi: nat)
    requires hi <= |s|
    requires 0 <= t.start && IsFirstChar(s, Delimiter(n, i), t.start, hi, t.end)
    requires EndsAtDelimiters(s, rest, n, i + 1, hi)
    ensures EndsAtDelimiters(s, [t] + rest, n, i, hi)
  {
    ConsParts(t, rest);
  }

  /** A list element that is not the last ends at the first `,` after its
      start and the last one at the first `]`, whatever nesting lies in
      between; -1 when there is none. The search stops at the parent's end as
      `str.find` adjusts it, so a parent end of -1 leaves out the text's last
      character. */
  lemma {:induction false} ArrayKidsEnds(s: string, v: Json, i: nat, current: nat, end: int)
    requires v.JArray? && i <= |v.items| && end <= |s|
    ensures EndsAtDelimiters(s, ArrayKids(s, v, i, current, end), |v.items|, i, ClampEnd(end, |s|))
    decreases |v.items| - i
  {
    if i < |v.items| {
      var itemStart, itemEnd := ArrayKidsStep(s, v, i, current, end);
      FindCharIsFirst(s, Delimiter(|v.items|, i), itemStart, end);
      var first := TreeOf(s, IndexName(i), v.items[i], itemStart, itemEnd);
      TreeOfHead(s, IndexName(i), v.items[i], itemStart, itemEnd);
      ArrayKidsEnds(s, v, i + 1, itemEnd + 1, end);
      EndsCons(s, first, ArrayKids(s, v, i + 1, itemEnd + 1, end), |v.items|, i, ClampEnd(end, |s|));
    }
  }

  /** Every node starts inside the text and ends inside it or at -1 (a
      failed search); a child never ends after its parent, unless the
      parent's own end is -1. */
  ghost predicate Bounded(t: Tree, n: nat)
    decreases t
  {
    0 <= t.start <= n && -1 <= t.end <= n && KidsWithin(t.kids, n, t.end)
  }

  /** Every node of `ts` is bounded and none ends after `e`, unless `e` is -1. */
  ghost predicate KidsWithin(ts: seq<Tree>, n: nat, e: int)
    decreases ts
  {
    ts == [] ||
    ((e >= 0 ==> ts[0].end <= e) && Bounded(ts[0], n) && KidsWithin(ts[1..], n, e))
  }

  lemma {:induction false} KidsWithinCons(t: Tree, rest: seq<Tree>, n: nat, e: int)
    requires (e >= 0 ==> t.end <= e) && Bounded(t, n) && KidsWithin(rest, n, e)
    ensures KidsWithin([t] + rest, n, e)
  {
    ConsParts(t, rest);
  }

  /** Every span `build_tree` computes is bounded as `Bounded` says. */
  lemma {:induction false} TreeBounded(s: string, name: string, v: Json, start: nat, end: int)
    requires start <= |s| && -1 <= end <= |s|
    ensures Bounded(TreeOf(s, name, v, start, end), |s|)
    decreases v, 1, 0
  {
    var t := TreeOf(s, name, v, start, end);
    TreeOfHead(s, name, v, start, end);
    if v.JObject? {
      ObjectKidsBounded(s, v, 0, start, end);
    } else if v.JArray? {
      ArrayKidsBounded(s, v, 0, start, end);
    }
  }

  lemma {:induction false} ObjectKidsBounded(s: string, v: Json, i: nat, last: int, end: int)
    requires v.JObject? && i <= |v.members| && -1 <= end <= |s|
    ensures KidsWithin(ObjectKids(s, v, i, last, end), |s|, end)
    decreases v, 0, |v.members| - i
  {
    if i < |v.members| {
      var childStart, childEnd := ObjectKidsStep(s, v, i, last, end);
      var first := TreeOf(s, v.members[i].0, v.members[i].1, childStart, childEnd);
      assert v.members[i] in v.members;
      TreeOfHead(s, v.members[i].0, v.members[i].1, childStart, childEnd);
      TreeBounded(s, v.members[i].0, v.members[i].1, childStart, childEnd);
      ObjectKidsBounded(s, v, i + 1, childEnd, end);
      KidsWithinCons(first, ObjectKids(s, v, i + 1, childEnd, end), |s|, end);
    }
  }

  lemma {:induction false} ArrayKidsBounded(s: string, v: Json, i: nat, current: nat, end: int)
    requires v.JArray? && i <= |v.items| && current <= |s| && -1 <= end <= |s|
    ensures KidsWithin(ArrayKids(s, v, i, current, end), |s|, end)
    decreases v, 0, |v.items| - i
  {
    if i < |v.items| {
      var itemStart, itemEnd := ArrayKidsStep(s, v, i, current, end);
      DelimiterSearch(s, Delimiter(|v.items|, i), itemStart, end);
      var first := TreeOf(s, IndexName(i), v.items[i], itemStart, itemEnd);
      TreeOfHead(s, IndexName(i), v.items[i], itemStart, itemEnd);
      TreeBounded(s, IndexName(i), v.items[i], itemStart, itemEnd);
      ArrayKidsBounded(s, v, i + 1, itemEnd + 1, end);
      KidsWithinCons(first, ArrayKids(s, v, i + 1, itemEnd + 1, end), |s|, end);
    }
  }
}
