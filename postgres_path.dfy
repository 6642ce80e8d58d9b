/** The Sublime command of CopyPostgresJsonPathCommand.py without its editor
    plumbing: `find_path` searches the decoded value for the word under the
    cursor, depth first, and the path it returns is rendered with
    PostgreSQL's JSON operators, `->` for every hop but the last and `->>`
    for the last one. `str()` of a decoded value is the parameter `show`. */
module PostgresPath {
  import opened JsonValue
  import opened PyStr

  /** One hop of a path: a dict key or a list index. */
  datatype Segment = Key(key: string) | Index(index: nat)

  // ---------------------------------------------------------------------------
  // find_path
  // ---------------------------------------------------------------------------

  /** A member is a hit when its key or `str(value)` is the word. */
  predicate MemberHit(m: (string, Json), word: string, show: Json -> string) {
    m.0 == word || show(m.1) == word
  }

  /** `find_path(json_content, word, path_segments)`. */
  function FindPath(j: Json, word: string, show: Json -> string, prefix: seq<Segment>): (r: Option<seq<Segment>>)
    ensures IsScalar(j) ==> r == None
    ensures r.Some? ==> |r.value| > |prefix| && r.value[..|prefix|] == prefix
    decreases j, 1
  {
    match j
    case JObject(_) => FindInMembers(j, 0, word, show, prefix)
    case JArray(_) => FindInItems(j, 0, word, show, prefix)
    case _ => None
  }

  /** The `for key, value in json_content.items()` loop from member `i` on. */
  function FindInMembers(j: Json, i: nat, word: string, show: Json -> string, prefix: seq<Segment>): (r: Option<seq<Segment>>)
    requires j.JObject? && i <= |j.members|
    ensures r.Some? ==> |r.value| > |prefix| && r.value[..|prefix|] == prefix
    decreases j, 0, |j.members| - i
  {
    if i == |j.members| then None
    else
      var p := prefix + [Key(j.members[i].0)];
      if MemberHit(j.members[i], word, show) then Some(p)
      else
        var below := FindPath(j.members[i].1, word, show, p);
        if below.Some? then below else FindInMembers(j, i + 1, word, show, prefix)
  }

  /** The `for index, item in enumerate(json_content)` loop from item `i` on. */
  function FindInItems(j: Json, i: nat, word: string, show: Json -> string, prefix: seq<Segment>): (r: Option<seq<Segment>>)
    requires j.JArray? && i <= |j.items|
    ensures r.Some? ==> |r.value| > |prefix| && r.value[..|prefix|] == prefix
    decreases j, 0, |j.items| - i
  {
    if i == |j.items| then None
    else
      var p := prefix + [Index(i)];
      if show(j.items[i]) == word then Some(p)
      else
        var below := FindPath(j.items[i], word, show, p);
        if below.Some? then below else FindInItems(j, i + 1, word, show, prefix)
  }

  // ---------------------------------------------------------------------------
  // Navigating a value along a path
  // ---------------------------------------------------------------------------

  /** `d[key]` on a dict given as its items: the value of the first member
      with that key (the only one, in a decoded value). */
  function MemberValue(ms: seq<(string, Json)>, key: string): (r: Option<Json>)
    ensures r.Some? ==> exists m :: m in ms && m.0 == key && m.1 == r.value
  {
    if ms == [] then None
    else if ms[0].0 == key then Some(ms[0].1)
    else MemberValue(ms[1..], key)
  }

  /** One hop: a key of the current dict or an in-range index of the current
      list; anything else does not navigate. */
  function Hop(j: Json, seg: Segment): Option<Json> {
    match seg
    case Key(k) => if j.JObject? then MemberValue(j.members, k) else None
    case Index(n) => if j.JArray? && n < |j.items| then Some(j.items[n]) else None
  }

  /** The value reached from `j` along `q`, if every hop navigates. */
  function At(j: Json, q: seq<Segment>): Option<Json>
    decreases q
  {
    if q == [] then Some(j)
    else
      var next := Hop(j, q[0]);
      if next.None? then None else At(next.value, q[1..])
  }

  /** `q` leads to an element that `find_path` accepts: its last hop is a dict
      key equal to the word, or the value it reaches prints as the word. */
  predicate HitAt(j: Json, q: seq<Segment>, word: string, show: Json -> string) {
    q != [] && At(j, q).Some? && (q[|q| - 1] == Key(word) || show(At(j, q).value) == word)
  }

  lemma {:induction false} MemberValueUnique(ms: seq<(string, Json)>, i: nat)
    requires i < |ms|
    requires forall a, b :: 0 <= a < b < |ms| ==> ms[a].0 != ms[b].0
    ensures MemberValue(ms, ms[i].0) == Some(ms[i].1)
    decreases i
  {
    if i > 0 {
      MemberValueUnique(ms[1..], i - 1);
    }
  }

  lemma {:induction false} AtCons(j: Json, seg: Segment, c: Json, q: seq<Segment>)
    requires Hop(j, seg) == Some(c)
    ensures At(j, [seg] + q) == At(c, q)
  {
    assert ([seg] + q)[1..] == q;
  }

  lemma {:induction false} LastCons(seg: Segment, q: seq<Segment>)
    requires q != []
    ensures ([seg] + q)[|[seg] + q| - 1] == q[|q| - 1]
  {
  }

  /** Every path `find_path` returns navigates the input: it is the prefix
      followed by hops that are keys of the dicts and in-range indices of the
      lists on the way, ending at an element that matches the word. */
  lemma {:induction false} FindPathNavigates(j: Json, word: string, show: Json -> string, prefix: seq<Segment>)
    requires UniqueKeys(j)
    ensures var r := FindPath(j, word, show, prefix);
      r.Some? ==> HitAt(j, r.value[|prefix|..], word, show)
    decreases j, 1
  {
    match j
    case JObject(_) => FindInMembersNavigates(j, 0, word, show, prefix);
    case JArray(_) => FindInItemsNavigates(j, 0, word, show, prefix);
    case _ =>
  }

  lemma {:induction false} FindInMembersNavigates(j: Json, i: nat, word: string, show: Json -> string, prefix: seq<Segment>)
    requires j.JObject? && i <= |j.members| && UniqueKeys(j)
    ensures var r := FindInMembers(j, i, word, show, prefix);
      r.Some? ==> HitAt(j, r.value[|prefix|..], word, show)
    decreases j, 0, |j.members| - i
  {
    var r := FindInMembers(j, i, word, show, prefix);
    if i < |j.members| && r.Some? {
      var m := j.members[i];
      var seg := Key(m.0);
      var p := prefix + [seg];
      MemberValueUnique(j.members, i);
      assert Hop(j, seg) == Some(m.1);
      if MemberHit(m, word, show) {
        assert r.value[|prefix|..] == [seg];
        AtCons(j, seg, m.1, []);
      } else if FindPath(m.1, word, show, p).Some? {
        FindPathNavigates(m.1, word, show, p);
        var q := r.value[|p|..];
        assert r.value[|prefix|..] == [seg] + q;
        AtCons(j, seg, m.1, q);
        LastCons(seg, q);
      } else {
        FindInMembersNavigates(j, i + 1, word, show, prefix);
      }
    }
  }

  lemma {:induction false} FindInItemsNavigates(j: Json, i: nat, word: string, show: Json -> string, prefix: seq<Segment>)
    requires j.JArray? && i <= |j.items| && UniqueKeys(j)
    ensures var r := FindInItems(j, i, word, show, prefix);
      r.Some? ==> HitAt(j, r.value[|prefix|..], word, show)
    decreases j, 0, |j.items| - i
  {
    var r := FindInItems(j, i, word, show, prefix);
    if i < |j.items| && r.Some? {
      var item := j.items[i];
      var seg := Index(i);
      var p := prefix + [seg];
      assert Hop(j, seg) == Some(item);
      if show(item) == word {
        assert r.value[|prefix|..] == [seg];
        AtCons(j, seg, item, []);
      } else if FindPath(item, word, show, p).Some? {
        FindPathNavigates(item, word, show, p);
        var q := r.value[|p|..];
        assert r.value[|prefix|..] == [seg] + q;
        AtCons(j, seg, item, q);
        LastCons(seg, q);
      } else {
        FindInItemsNavigates(j, i + 1, word, show, prefix);
      }
    }
  }

  // ---------------------------------------------------------------------------
  // Completeness and first match
  // ---------------------------------------------------------------------------

  /** When the search of members `i..` fails, none of them is a hit and none
      holds a hit below it. */
  lemma {:induction false} FindInMembersNone(j: Json, i: nat, word: string, show: Json -> string, prefix: seq<Segment>, m: nat)
    requires j.JObject? && i <= m < |j.members|
    requires FindInMembers(j, i, word, show, prefix).None?
    ensures !MemberHit(j.members[m], word, show)
    ensures FindPath(j.members[m].1, word, show, prefix + [Key(j.members[m].0)]).None?
    decreases m - i
  {
    if i < m {
      FindInMembersNone(j, i + 1, word, show, prefix, m);
    }
  }

  lemma {:induction false} FindInItemsNone(j: Json, i: nat, word: string, show: Json -> string, prefix: seq<Segment>, m: nat)
    requires j.JArray? && i <= m < |j.items|
    requires FindInItems(j, i, word, show, prefix).None?
    ensures show(j.items[m]) != word
    ensures FindPath(j.items[m], word, show, prefix + [Index(m)]).None?
    decreases m - i
  {
    if i < m {
      FindInItemsNone(j, i + 1, word, show, prefix, m);
    }
  }

  /** The index of the member `MemberValue` picks. */
  lemma {:induction false} MemberValueIndex(ms: seq<(string, Json)>, key: string) returns (m: nat)
    requires MemberValue(ms, key).Some?
    ensures m < |ms| && ms[m].0 == key && ms[m].1 == MemberValue(ms, key).value
  {
    if ms[0].0 == key {
      m := 0;
    } else {
      m := MemberValueIndex(ms[1..], key);
      m := m + 1;
    }
  }

  /** The search misses nothing: whenever some path leads to an element that
      matches the word, `find_path` returns a path. */
  lemma {:induction false} FindPathComplete(j: Json, word: string, show: Json -> string, prefix: seq<Segment>, q: seq<Segment>)
    requires HitAt(j, q, word, show)
    ensures FindPath(j, word, show, prefix).Some?
    decreases q
  {
    var seg := q[0];
    var c := Hop(j, seg).value;
    var rest := q[1..];
    AtCons(j, seg, c, rest);
    assert q == [seg] + rest;
    if rest != [] {
      LastCons(seg, rest);
      assert HitAt(c, rest, word, show);
    }
    match seg
    case Key(k) =>
      var m := MemberValueIndex(j.members, k);
      if FindInMembers(j, 0, word, show, prefix).None? {
        FindInMembersNone(j, 0, word, show, prefix, m);
        if rest != [] {
          FindPathComplete(c, word, show, prefix + [Key(k)], rest);
        }
      }
    case Index(n) =>
      if FindInItems(j, 0, word, show, prefix).None? {
        FindInItemsNone(j, 0, word, show, prefix, n);
        if rest != [] {
          FindPathComplete(c, word, show, prefix + [Index(n)], rest);
        }
      }
  }

  /** First match wins among a dict's members: the path goes through some
      member `k`; every member before it is neither a hit nor holds one; and
      when member `k` is a hit itself, the path stops there without looking
      into its value. */
  lemma {:induction false} FindInMembersFirst(j: Json, i: nat, word: string, show: Json -> string, prefix: seq<Segment>)
    requires j.JObject? && i <= |j.members|
    requires FindInMembers(j, i, word, show, prefix).Some?
    ensures var p := FindInMembers(j, i, word, show, prefix).value;
      exists k :: i <= k < |j.members| && p[|prefix|] == Key(j.members[k].0) &&
        (forall m :: i <= m < k ==> (!MemberHit(j.members[m], word, show) &&
           FindPath(j.members[m].1, word, show, prefix + [Key(j.members[m].0)]).None?)) &&
        (MemberHit(j.members[k], word, show) ==> p == prefix + [Key(j.members[k].0)])
    decreases |j.members| - i
  {
    var p := FindInMembers(j, i, word, show, prefix).value;
    var seg := Key(j.members[i].0);
    if MemberHit(j.members[i], word, show) {
      assert p == prefix + [seg];
    } else if FindPath(j.members[i].1, word, show, prefix + [seg]).Some? {
      assert p[..|prefix| + 1] == prefix + [seg];
      assert p[|prefix|] == (prefix + [seg])[|prefix|];
    } else {
      FindInMembersFirst(j, i + 1, word, show, prefix);
    }
  }

  /** First match wins among a list's elements, which are compared by
      `str(item)` only: the path goes through some index `k`; every element
      before it is neither a hit nor holds one; and when element `k` prints as
      the word, the path stops there. */
  lemma {:induction false} FindInItemsFirst(j: Json, i: nat, word: string, show: Json -> string, prefix: seq<Segment>)
    requires j.JArray? && i <= |j.items|
    requires FindInItems(j, i, word, show, prefix).Some?
    ensures var p := FindInItems(j, i, word, show, prefix).value;
      exists k :: i <= k < |j.items| && p[|prefix|] == Index(k) &&
        (forall m :: i <= m < k ==> (show(j.items[m]) != word &&
           FindPath(j.items[m], word, show, prefix + [Index(m)]).None?)) &&
        (show(j.items[k]) == word ==> p == prefix + [Index(k)])
    decreases |j.items| - i
  {
    var p := FindInItems(j, i, word, show, prefix).value;
    var seg := Index(i);
    if show(j.items[i]) == word {
      assert p == prefix + [seg];
    } else if FindPath(j.items[i], word, show, prefix + [seg]).Some? {
      assert p[..|prefix| + 1] == prefix + [seg];
      assert p[|prefix|] == (prefix + [seg])[|prefix|];
    } else {
      FindInItemsFirst(j, i + 1, word, show, prefix);
    }
  }

  // ---------------------------------------------------------------------------
  // format_segment and the rendered path
  // ---------------------------------------------------------------------------

  /** `format_segment`: an index as its decimal digits, a key between single
      quotes, with any quote inside the key left as it is. */
  function FormatSegment(seg: Segment): string {
    match seg
    case Index(n) => Decimal(n)
    case Key(k) => "'" + k + "'"
  }

  /** Reads a rendered segment back. */
  function ParseSegment(text: string): Option<Segment> {
    if |text| >= 2 && text[0] == '\'' && text[|text| - 1] == '\'' then Some(Key(text[1..|text| - 1]))
    else if |text| >= 1 && AllDigits(text) && (text[0] != '0' || |text| == 1) then Some(Index(DecimalValue(text)))
    else None
  }

  /** A rendered segment is never empty, an index renders without quotes and
      a key inside them, so every segment can be read back. */
  lemma {:induction false} FormatSegmentRoundTrip(seg: Segment)
    ensures ParseSegment(FormatSegment(seg)) == Some(seg)
  {
    match seg
    case Index(n) =>
      DecimalRoundTrip(n);
      DecimalDigits(n);
      assert IsDigit(Decimal(n)[|Decimal(n)| - 1]);
    case Key(k) =>
      var t := "'" + k + "'";
      assert t[1..|t| - 1] == k;
  }

  function FormatAll(path: seq<Segment>): (r: seq<string>)
    ensures |r| == |path|
  {
    if path == [] then [] else [FormatSegment(path[0])] + FormatAll(path[1..])
  }

  /** The string `run` builds from a non-empty path: for one segment `->>`
      and the segment; for more, `->` followed by the leading segments joined
      with `->`, then `->>` and the last segment. */
  function PathExpression(path: seq<Segment>): (r: string)
    requires |path| >= 1
  {
    var last := FormatSegment(path[|path| - 1]);
    if |path| > 1 then "->" + Join(FormatAll(path[..|path| - 1]), "->") + "->>" + last
    else "->>" + last
  }

  /** The same string hop by hop: `->` and the segment for every hop but the
      last, `->>` and the segment for the last. */
  function Hops(path: seq<Segment>): string
    requires |path| >= 1
  {
    if |path| == 1 then "->>" + FormatSegment(path[0])
    else "->" + FormatSegment(path[0]) + Hops(path[1..])
  }

  /** `"->" + "->".join(parts)` puts `->` in front of every part. */
  lemma {:induction false} ArrowJoin(parts: seq<string>)
    requires parts != []
    ensures "->" + Join(parts, "->") == Arrows(parts)
    decreases |parts|
  {
    if |parts| > 1 {
      ArrowJoin(parts[1..]);
      assert "->" + Join(parts, "->") == "->" + parts[0] + ("->" + Join(parts[1..], "->"));
    }
  }

  function Arrows(parts: seq<string>): string {
    if parts == [] then "" else "->" + parts[0] + Arrows(parts[1..])
  }

  lemma {:induction false} HopsArrows(front: seq<Segment>, last: Segment)
    ensures Hops(front + [last]) == Arrows(FormatAll(front)) + "->>" + FormatSegment(last)
    decreases |front|
  {
    if front != [] {
      var path := front + [last];
      HopsArrows(front[1..], last);
      assert path[1..] == front[1..] + [last];
      assert Hops(path) == "->" + FormatSegment(front[0]) + Hops(front[1..] + [last]);
    }
  }

  /** The expression `run` builds uses `->` for every hop but the last and
      `->>` for the last one. */
  lemma {:induction false} PathExpressionHops(path: seq<Segment>)
    requires |path| >= 1
    ensures PathExpression(path) == Hops(path)
  {
    var front := path[..|path| - 1];
    var last := path[|path| - 1];
    assert front + [last] == path;
    HopsArrows(front, last);
    if |path| > 1 {
      ArrowJoin(FormatAll(front));
      assert PathExpression(path) == "->" + Join(FormatAll(front), "->") + "->>" + FormatSegment(last);
    } else {
      assert front == [];
    }
  }

  /** The hop-by-hop rendering begins with `->` and ends with `->>` and the
      formatted last segment. */
  lemma {:induction false} HopsEnds(path: seq<Segment>)
    requires |path| >= 1
    ensures var last := "->>" + FormatSegment(path[|path| - 1]);
      Hops(path)[..2] == "->" && |Hops(path)| >= |last| && Hops(path)[|Hops(path)| - |last|..] == last
    decreases |path|
  {
    if |path| > 1 {
      HopsEnds(path[1..]);
      var h := Hops(path[1..]);
      var front := "->" + FormatSegment(path[0]);
      assert Hops(path) == front + h;
      assert (front + h)[|front + h| - |h|..] == h;
    }
  }

  // ---------------------------------------------------------------------------
  // What run does with the outcome
  // ---------------------------------------------------------------------------

  /** What `run` ends with: an error for text that does not decode, "Element
      not found" when the search fails, or the rendered path, which is shown
      and copied to the clipboard. */
  datatype Outcome = InvalidJson | ElementNotFound | Copied(text: string)

  /** `run` after the editor has supplied the decoded text (`None` when
      `json.loads` fails) and the word under the cursor. */
  function Run(decoded: Option<Json>, word: string, show: Json -> string): Outcome {
    if decoded.None? then InvalidJson
    else
      var path := FindPath(decoded.value, word, show, []);
      if path.Some? && |path.value| > 0 then Copied(PathExpression(path.value))
      else ElementNotFound
  }

  /** A decoded value gives "Element not found" exactly when no path leads to
      a matching element, and otherwise copies the rendering of a path that
      does. */
  lemma {:induction false} RunOutcome(decoded: Option<Json>, word: string, show: Json -> string)
    requires decoded.Some? ==> UniqueKeys(decoded.value)
    ensures decoded.None? <==> Run(decoded, word, show) == InvalidJson
    ensures decoded.Some? ==>
      (Run(decoded, word, show) == ElementNotFound <==> forall q :: !HitAt(decoded.value, q, word, show))
    ensures Run(decoded, word, show).Copied? ==>
      exists q :: HitAt(decoded.value, q, word, show) && Run(decoded, word, show).text == PathExpression(q)
  {
    if decoded.Some? {
      var j := decoded.value;
      var r := FindPath(j, word, show, []);
      FindPathNavigates(j, word, show, []);
      if r.Some? {
        assert r.value[0..] == r.value;
        assert HitAt(j, r.value, word, show);
      } else {
        forall q | HitAt(j, q, word, show)
          ensures false
        {
          FindPathComplete(j, word, show, [], q);
        }
      }
    }
  }
}
