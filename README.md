# JSON cursor paths for PostgreSQL, modelled in Dafny

The system is a Sublime Text helper that finds where the cursor sits inside a
JSON document. It then renders the path to that element with PostgreSQL's
JSON operators (`->'address'->>'city'`). Two pieces of its code are modelled
here.

- **work.py**:
  - `parse_json_to_tree` walks the decoded value alongside the raw text. It builds a tree of `TreeNode` objects, each holding the character span of its value in the text.
  - `find_value_start` and `find_value_end` are the two text scanners it uses.
  - `find_path_by_position` lists the names of the nodes whose span contains a cursor offset.
- **CopyPostgresJsonPathCommand.py**:
  - `find_path` is a depth-first, first-match search of the decoded value for the word under the cursor.
  - `format_segment` and the expression built in `run` render the path found.

The modules:

| file | module | what it holds |
|---|---|---|
| `json_value.dfy` | `JsonValue` | The decoded value (`Json`) that `json.loads` hands to both files, and `Option`. |
| `py_str.dfy` | `PyStr` | The Python built-ins the code relies on. `str.find` follows Python's slice-index conventions, including a negative start. `str.isspace` uses CPython's whitespace table. Also `str(n)` for a non-negative `int` and `str.join`. |
| `value_scan.dfy` | `ValueScan` | `find_value_start` and `find_value_end`. Each is a method with its loop, proved equal to a specification function, with lemmas about that function. |
| `json_tree.dfy` | `JsonTree` | `TreeNode` as a class whose `children` are appended in place. `build_tree` is a recursive method with the source's two loops, proved to build exactly the tree `TreeOf` describes. Also `parse_json_to_tree`. |
| `tree_facts.dfy` | `TreeFacts` | What `build_tree` promises about that tree: names and order of the children, where list elements end, and spans inside the text. |
| `position_lookup.dfy` | `PositionLookup` | `find_path_by_position`. `traverse` is a method proved against `Collect`. Lemmas say which nodes are listed and in what order. |
| `postgres_path.dfy` | `PostgresPath` | `find_path` as recursive functions, navigation, completeness and first-match lemmas. Also `format_segment` with its inverse, the rendered path expression, and the outcome of `run`. |

Lookups that fail are modelled as the code runs them, not excluded by preconditions.

- **A key that is not found.** `find` returns -1, and -1 becomes the start of the search for `:`. Python reads a negative start as counting from the end of the text.
- **A list delimiter that is not found.** The element ends at -1, and the next element's search restarts at 0.

The escaped-backslash misreading of `find_value_end` is preserved: a quote after a backslash never counts as a string delimiter, even when that backslash is itself escaped. `ValueScan.EscapedBackslashMisread` exhibits it on a concrete input.

### Where the design description and the code differ

The model follows the code in every case.

- `find_path_by_position` includes the root's name `root`, which the design description says is left out.
- `run` renders only the path, with no `= 'value'` suffix.
- A non-last list element ends at the first `,` after its start, with no regard for nesting.
- The `:` after a key is searched for up to the end of the whole text, not the parent's span.

So the code does not guarantee that children's spans are disjoint and nested strictly inside their parent's. `TreeFacts.TreeBounded` proves the bound that does hold: every span lies inside the text, and no child ends after its parent unless the parent's end is -1.

## Model

| member | source | states |
|---|---|---|
| PyStr.ClampStart | work.py:21-22 | A non-negative start is kept as it is. A negative start, such as the -1 of a failed key search, becomes an index below the length (or 0). |
| PyStr.ClampEnd | work.py:33-35 | The end of the searched slice never exceeds the text's length, and an in-range end is kept. |
| PyStr.Find | work.py:21 | `str.find` returns -1 or an index where the needle fits inside the adjusted slice. |
| PyStr.FindIsFirst | work.py:21 | `str.find` returns the first occurrence of the needle in the adjusted slice, or -1 when there is none. |
| PyStr.FindChar | work.py:22 | A one-character search returns -1 or an index inside the adjusted slice. |
| PyStr.FindCharIsFind | work.py:33-35 | The one-character search agrees with `str.find` on a one-character string. |
| PyStr.FindCharIsFirst | work.py:33-35 | The one-character search returns the first occurrence of the character in the slice, or -1 when it is absent. |
| PyStr.Decimal | work.py:36 | `str(n)` is never empty. |
| PyStr.DecimalDigits | CopyPostgresJsonPathCommand.py:63 | `str(n)` has only decimal digits, and starts with `0` exactly when `n` is 0. |
| PyStr.DecimalRoundTrip | CopyPostgresJsonPathCommand.py:63 | Reading `str(n)` back as a decimal number gives `n`. |
| ValueScan.FirstNonSpace | work.py:44-46 | The first non-whitespace index lies at or after the search start and, when it moved, no later than the end. |
| ValueScan.ValueStart | work.py:43-47 | `find_value_start` returns its start or an index strictly between start and end. |
| ValueScan.ValueStartIsFirstNonSpace | work.py:43-47 | The result is the first non-whitespace index of `[start, end)`, with only whitespace before it; when there is none, the start is returned unchanged. |
| ValueScan.FindValueStart | work.py:43-47 | The loop returns exactly `ValueStart`. |
| ValueScan.ScanEnd | work.py:52-65 | From index `i` the scan ends inside `[i, end]`, or at `end` when `i` is already past it. |
| ValueScan.ValueEnd | work.py:49-65 | When start <= end, `find_value_end` returns a value in `[start, end]`; otherwise it returns `end`. |
| ValueScan.FindValueEnd | work.py:49-65 | The loop, with its stack and string flag, returns exactly `ValueEnd`. |
| ValueScan.ValueEndNoStop | work.py:65 | If no character stops the scan, it returns `end`. |
| ValueScan.ValueEndFirstStop | work.py:55-64 | The scan returns at the first character that stops it. That is a `,` with an empty stack (the comma's index) or a closing bracket that empties the stack or finds it empty (one past the bracket). |
| ValueScan.InsideStringInert | work.py:53-55 | Inside a string, brackets and commas neither stop the scan nor change the stack. The flag flips exactly at a quote not preceded by a backslash. |
| ValueScan.EscapedBackslashMisread | work.py:53 | For the text `"a\\",1` the scan skips the comma after the string and returns the end: the escaped backslash is misread. |
| JsonTree.ParseTree | work.py:67-68 | The root is named `root` and spans `(0, len(json_str))`. |
| JsonTree.TreeNode.constructor | work.py:4-9 | A new node has the given name, value and span, and no children. |
| JsonTree.TreeNode.AddChild | work.py:11-12 | `add_child` appends the child at the end of `children` and changes nothing else. |
| JsonTree.BuildTree | work.py:15-41 | The node built, with all its descendants, is exactly `TreeOf` of the arguments, and it is made of fresh objects. |
| JsonTree.BuildObject | work.py:16-27 | The `dict` loop adds the children `ObjectKids` describes, in member order. |
| JsonTree.AddMember | work.py:19-27 | One turn of the `dict` loop appends the next child of `ObjectKids` and returns its end as the next `last_end_pos`. |
| JsonTree.BuildArray | work.py:28-38 | The `list` loop adds the children `ArrayKids` describes, in element order. |
| JsonTree.AddItem | work.py:30-38 | One turn of the `list` loop appends the next child of `ArrayKids`; the element's end is -1 or an index of the text. |
| JsonTree.ParseJsonToTree | work.py:14-69 | `parse_json_to_tree` returns a fresh tree equal to `ParseTree`. |
| TreeFacts.DelimiterSearch | work.py:33-35 | The search for a list delimiter ends at -1 or at an index of the text before the parent's end. |
| TreeFacts.ObjectKidsNames | work.py:19-27 | An object's children are named by its keys, one per member, in `dict.items()` order. |
| TreeFacts.ArrayKidsNames | work.py:30-37 | A list's children are named `[i]`, `[i+1]`, ..., one per element, in order. |
| TreeFacts.BuildTreeShape | work.py:15-41 | A node keeps its name and span. A scalar node gets the value and no children; a container node keeps `None`. An object has one child per key, a list one per element named `[0]`, `[1]`, ... |
| TreeFacts.ArrayKidsEnds | work.py:31-38 | A non-last list element ends at the first `,` at or after its start, and the last at the first `]`, whatever nesting lies between; -1 when there is none. |
| TreeFacts.TreeBounded | work.py:15-41 | Every node starts inside the text and ends inside it or at -1. No child ends after its parent, unless the parent's end is -1. |
| TreeFacts.ObjectKidsBounded | work.py:19-27 | The children of an object are bounded, and none ends after the object. |
| TreeFacts.ArrayKidsBounded | work.py:30-38 | The children of a list are bounded, and none ends after the list. |
| PositionLookup.Traverse | work.py:83-87 | `traverse` appends to the shared list exactly the names `Collect` gives, after what was already there. |
| PositionLookup.FindPathByPosition | work.py:80-90 | `find_path_by_position` returns `Collect` of the root. |
| PositionLookup.CollectNames | work.py:84-87 | The k-th name appended is the name of the k-th node visited. |
| PositionLookup.CollectKidsNames | work.py:86-87 | The same, for the walk over the children from index i on. |
| PositionLookup.VisitIff | work.py:84-87 | A node is listed if and only if its span contains the position, both ends inclusive, and so does every ancestor's. |
| PositionLookup.VisitKidsIff | work.py:86-87 | The walk over children from i on lists exactly the contained nodes below those children. |
| PositionLookup.VisitKidsFrom | work.py:86-87 | The walk over children from i on lists only nodes below child i or a later child. |
| PositionLookup.VisitInPreOrder | work.py:84-87 | Nodes are listed in pre-order: a node before its descendants, and an earlier child's subtree before a later child's. |
| PositionLookup.VisitKidsInPreOrder | work.py:86-87 | The walk over the children keeps pre-order. |
| PositionLookup.CollectRoot | work.py:68 | For the tree of `parse_json_to_tree`, the result is non-empty exactly when `0 <= position <= len(json_str)`, and then starts with `root`. |
| PostgresPath.FindPath | CopyPostgresJsonPathCommand.py:43-60 | A scalar gives `None`. A path found is the prefix extended by at least one segment. |
| PostgresPath.FindInMembers | CopyPostgresJsonPathCommand.py:44-51 | A path found among a dict's members extends the prefix by at least one segment. |
| PostgresPath.FindInItems | CopyPostgresJsonPathCommand.py:52-59 | A path found among a list's elements extends the prefix by at least one segment. |
| PostgresPath.FindPathNavigates | CopyPostgresJsonPathCommand.py:43-60 | Each segment of a path returned is a key of the current dict or an in-range index of the current list. The path ends at an element whose key is the word or whose `str()` is the word. |
| PostgresPath.FindInMembersNavigates | CopyPostgresJsonPathCommand.py:44-51 | The same, for a path found among a dict's members. |
| PostgresPath.FindInItemsNavigates | CopyPostgresJsonPathCommand.py:52-59 | The same, for a path found among a list's elements. |
| PostgresPath.FindInMembersNone | CopyPostgresJsonPathCommand.py:44-51 | When the dict loop returns nothing, no member is a hit and none holds a hit below it. |
| PostgresPath.FindInItemsNone | CopyPostgresJsonPathCommand.py:52-59 | When the list loop returns nothing, no element prints as the word and none holds a hit below it. |
| PostgresPath.FindPathComplete | CopyPostgresJsonPathCommand.py:43-60 | If any path leads to a matching element, `find_path` returns a path. |
| PostgresPath.FindInMembersFirst | CopyPostgresJsonPathCommand.py:44-51 | First match wins among members, in insertion order. Members before the chosen one neither match nor hold a match. A matching member is returned before its value is searched. |
| PostgresPath.FindInItemsFirst | CopyPostgresJsonPathCommand.py:52-59 | First match wins among elements, in index order, compared by `str(item)` only. Earlier elements neither match nor hold a match. A matching element is returned before it is searched. |
| PostgresPath.FormatSegmentRoundTrip | CopyPostgresJsonPathCommand.py:62-63 | An index renders as its decimal digits and a key between single quotes, so each rendered segment reads back as the segment. |
| PostgresPath.FormatAll | CopyPostgresJsonPathCommand.py:35 | Formatting the segments gives one string per segment. |
| PostgresPath.ArrowJoin | CopyPostgresJsonPathCommand.py:35 | `"->" + "->".join(parts)` puts `->` in front of every part. |
| PostgresPath.HopsArrows | CopyPostgresJsonPathCommand.py:35 | The hop-by-hop rendering is `->` before every leading segment, then `->>` and the last one. |
| PostgresPath.PathExpressionHops | CopyPostgresJsonPathCommand.py:29-37 | For one segment and for several, the expression `run` builds uses `->` for every hop but the last and `->>` for the last. |
| PostgresPath.HopsEnds | CopyPostgresJsonPathCommand.py:31-37 | The expression begins with `->` and ends with `->>` followed by the formatted last segment. |
| PostgresPath.RunOutcome | CopyPostgresJsonPathCommand.py:18-41 | Text that does not decode gives the error. A decoded value gives "Element not found" exactly when no path leads to a match; otherwise the rendering of a matching path is copied. |

## Left out

- `json.loads` (work.py:67, CopyPostgresJsonPathCommand.py:20) is a foreign decoder. Its result is an input; in `Run`, `None` stands for a decode error.
- Numbers are modelled as integers; Python floats are not modelled.
- `str()` of a decoded value (CopyPostgresJsonPathCommand.py:47, 55) is the parameter `show`, so no particular rendering of dicts, lists, booleans or floats is assumed.
- The editor plumbing of `run` is not modelled: reading the selection, `view.word`, `view.substr`, `error_message`, `message_dialog` and `set_clipboard`. `Run` returns which of the three outcomes is shown and the text that would be copied.
- Console output is not modelled: the debug `print` loop in `run`, `print_tree`, and the demo under `__main__` in work.py.
- A node's `value` of `None` is written `JNull`, the same as a JSON `null`, because Python does not tell them apart there either.
- JsonTree.TreeOf, JsonTree.BuildTree, ValueScan.ValueStart, ValueScan.ValueEnd: these require a non-negative start and an end no larger than the text. Every call in `parse_json_to_tree` meets both, so Python's negative indexing and `IndexError` past the end are not modelled.
- PostgresPath.FindPathNavigates: requires that no dict repeats a key. A decoded Python dict guarantees this, and without it `d[key]` would pick another member.
- tests/CopyPostgresJsonPathTest.py is not part of this model. It exercises classes that are not in the code modelled here, and expects a root-less path with a value suffix.
- `format_segment` does not escape a quote inside a key. The model keeps this, so a rendered path is not always readable back as a whole; only single segments are.
