/** The two text scanners of the tree builder in work.py: `find_value_start`
    skips whitespace, `find_value_end` finds where a value ends with a
    bracket stack and an "inside a string" flag. Each is a method with its
    loop, proved equal to a specification function whose properties are
    proved as lemmas. */
module ValueScan {
  import opened PyStr

  // ---------------------------------------------------------------------------
  // find_value_start
  // ---------------------------------------------------------------------------

  /** The first index at or after `i` that is not whitespace, or `end` when
      every character of `[i, end)` is whitespace (`i` itself if `i > end`). */
  function FirstNonSpace(s: string, i: nat, end: int): (r: int)
    requires end <= |s|
    ensures i <= r && (i < r ==> r <= end)
    decreases end - i
  {
    if i >= end then i
    else if !IsSpace(s[i]) then i
    else FirstNonSpace(s, i + 1, end)
  }

  /** Value of `find_value_start(json_str, start, end)`. */
  function ValueStart(s: string, start: nat, end: int): (r: int)
    requires end <= |s|
    ensures r == start || start < r < end
  {
    var f := FirstNonSpace(s, start, end);
    if f < end then f else start
  }

  lemma {:induction false} FirstNonSpaceSkipsSpace(s: string, i: nat, end: int)
    requires end <= |s|
    ensures var r := FirstNonSpace(s, i, end);
      (r < end ==> !IsSpace(s[r])) && forall k :: i <= k < r ==> IsSpace(s[k])
    decreases end - i
  {
    if i < end && IsSpace(s[i]) {
      FirstNonSpaceSkipsSpace(s, i + 1, end);
    }
  }

  /** `find_value_start` returns the first non-whitespace index of
      `[start, end)`, every index before it being whitespace; when there is
      none it returns `start` unchanged. */
  lemma {:induction false} ValueStartIsFirstNonSpace(s: string, start: nat, end: int)
    requires end <= |s|
    ensures var r := ValueStart(s, start, end);
      (start <= r < end && !IsSpace(s[r]) && forall k :: start <= k < r ==> IsSpace(s[k])) ||
      (r == start && forall k :: start <= k < end ==> IsSpace(s[k]))
  {
    FirstNonSpaceSkipsSpace(s, start, end);
  }

  method FindValueStart(s: string, start: nat, end: int) returns (r: int)
    requires end <= |s|
    ensures r == ValueStart(s, start, end)
  {
    var i := start;
    while i < end
      invariant start <= i
      invariant FirstNonSpace(s, i, end) == FirstNonSpace(s, start, end)
    {
      if !IsSpace(s[i]) {
        r := i;
        return;
      }
      i := i + 1;
    }
    r := start;
  }

  // ---------------------------------------------------------------------------
  // find_value_end
  // ---------------------------------------------------------------------------

  /** The scanner's state between two characters: the bracket stack and
      whether it believes it is inside a string literal. */
  datatype Scan = Scan(stack: seq<char>, inString: bool)

  const Initial := Scan([], false)

  /** A `"` not directly preceded by a backslash. The test looks only at the
      previous character, so the closing quote of `"a\\"` counts as escaped. */
  predicate UnescapedQuote(s: string, i: nat)
    requires i < |s|
  {
    s[i] == '"' && (i == 0 || s[i - 1] != '\\')
  }

  /** The string flag once character `i` has been seen. */
  function InStringAt(s: string, i: nat, st: Scan): bool
    requires i < |s|
  {
    if UnescapedQuote(s, i) then !st.inString else st.inString
  }

  /** `stack.pop()` guarded by `if stack:`. */
  function Pop(stack: seq<char>): seq<char>
  {
    if |stack| > 0 then stack[..|stack| - 1] else stack
  }

  /** Whether the scan returns at character `i`: outside a string, a closing
      bracket that leaves the stack empty (or finds it empty), or a comma
      with an empty stack. */
  predicate StopsAt(s: string, i: nat, st: Scan)
    requires i < |s|
  {
    !InStringAt(s, i, st) &&
    ((s[i] in "}]" && Pop(st.stack) == []) || (s[i] == ',' && st.stack == []))
  }

  /** What the scan returns when it stops at `i`: the comma's own index, or
      one past the closing bracket. */
  function StopIndex(s: string, i: nat): int
    requires i < |s|
  {
    if s[i] == ',' then i else i + 1
  }

  /** The state after character `i` when the scan does not stop there. */
  function Step(s: string, i: nat, st: Scan): Scan
    requires i < |s|
  {
    var inString := InStringAt(s, i, st);
    if inString then Scan(st.stack, inString)
    else if s[i] in "{[" then Scan(st.stack + [s[i]], inString)
    else if s[i] in "}]" then Scan(Pop(st.stack), inString)
    else Scan(st.stack, inString)
  }

  /** The rest of the scan from index `i` in state `st`. */
  function ScanEnd(s: string, i: nat, end: int, st: Scan): (r: int)
    requires end <= |s|
    ensures i <= end ==> i <= r <= end
    ensures i > end ==> r == end
    decreases end - i
  {
    if i >= end then end
    else if StopsAt(s, i, st) then StopIndex(s, i)
    else ScanEnd(s, i + 1, end, Step(s, i, st))
  }

  /** Value of `find_value_end(json_str, start, end)`. */
  function ValueEnd(s: string, start: nat, end: int): (r: int)
    requires end <= |s|
    ensures start <= end ==> start <= r <= end
    ensures start > end ==> r == end
  {
    ScanEnd(s, start, end, Initial)
  }

  method FindValueEnd(s: string, start: nat, end: int) returns (r: int)
    requires end <= |s|
    ensures r == ValueEnd(s, start, end)
  {
    var stack: seq<char> := [];
    var inString := false;
    var i := start;
    while i < end
      invariant start <= i
      invariant ScanEnd(s, i, end, Scan(stack, inString)) == ValueEnd(s, start, end)
    {
      if s[i] == '"' && (i == 0 || s[i - 1] != '\\') {
        inString := !inString;
      }
      if !inString {
        if s[i] in "{[" {
          stack := stack + [s[i]];
        } else if s[i] in "}]" {
          if |stack| > 0 {
            stack := stack[..|stack| - 1];
          }
          if |stack| == 0 {
            r := i + 1;
            return;
          }
        } else if s[i] == ',' && |stack| == 0 {
          r := i;
          return;
        }
      }
      i := i + 1;
    }
    r := end;
  }

  // ---------------------------------------------------------------------------
  // Properties of the scan
  // ---------------------------------------------------------------------------

  /** The scanner's state just before index `i`, when it started at `start`
      and has not stopped yet. */
  function StateBefore(s: string, start: nat, i: nat): Scan
    requires start <= i <= |s|
    decreases i - start
  {
    if i == start then Initial else Step(s, i - 1, StateBefore(s, start, i - 1))
  }

  lemma {:induction false} ScanReaches(s: string, start: nat, end: int, i: nat)
    requires start <= i <= end <= |s|
    requires forall k :: start <= k < i ==> !StopsAt(s, k, StateBefore(s, start, k))
    ensures ValueEnd(s, start, end) == ScanEnd(s, i, end, StateBefore(s, start, i))
    decreases i - start
  {
    if i > start {
      ScanReaches(s, start, end, i - 1);
    }
  }

  /** When no character of `[start, end)` stops the scan, it falls back to `end`. */
  lemma {:induction false} ValueEndNoStop(s: string, start: nat, end: int)
    requires start <= end <= |s|
    requires forall k :: start <= k < end ==> !StopsAt(s, k, StateBefore(s, start, k))
    ensures ValueEnd(s, start, end) == end
  {
    ScanReaches(s, start, end, end);
  }

  /** The scan returns at the first character that stops it. */
  lemma {:induction false} ValueEndFirstStop(s: string, start: nat, end: int, k: nat)
    requires start <= k < end <= |s|
    requires StopsAt(s, k, StateBefore(s, start, k))
    requires forall j :: start <= j < k ==> !StopsAt(s, j, StateBefore(s, start, j))
    ensures ValueEnd(s, start, end) == StopIndex(s, k)
  {
    ScanReaches(s, start, end, k);
  }

  /** Inside a string, brackets and commas neither touch the stack nor stop
      the scan; only an unescaped quote flips the flag. */
  lemma {:induction false} InsideStringInert(s: string, i: nat, st: Scan)
    requires i < |s|
    ensures InStringAt(s, i, st) ==> !StopsAt(s, i, st) && Step(s, i, st).stack == st.stack
    ensures Step(s, i, st).inString != st.inString <==> UnescapedQuote(s, i)
  {
  }

  /** The escaped-backslash misreading: in `"a\\",1` the string ends at
      index 4 and the value at the comma (index 5), but the quote at index 4
      follows a backslash, so the scan stays "inside the string", skips the
      comma and runs to the end. */
  lemma {:induction false} EscapedBackslashMisread()
    ensures ValueEnd("\"a\\\\\",1", 0, 7) == 7
  {
    var s := "\"a\\\\\",1";
    assert !UnescapedQuote(s, 4);
    var st1 := Step(s, 0, Initial);
    assert st1 == Scan([], true);
    assert ScanEnd(s, 5, 7, Scan([], true)) == 7;
  }
}
