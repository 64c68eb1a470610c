# sr_audit data shaping, modelled in Dafny

`sr_audit.py` exports the audit trail of OpenSpecimen specimen requirements
and turns each narrow export into a wide table with one row per revision.
This project models the data-shaping core of that pipeline and proves what
it does:

- `split_changes` cuts a "Change Log" cell into `field=value` fragments.
  A comma cuts only where the running bracket depth is exactly 0.
  (`tokenizer.dfy`, module `Tokenizer`; the character loop is the method
  `SplitChanges`.)
- `convert_id_to_pv` turns a changed value into a label (`resolver.dfy`,
  module `Resolver`). It tries three branches in order:
  - every `{id=<digits>}` reference, scanned in `idscan.dfy`;
  - a literal list of `{'id': …}` dicts, or a single such dict;
  - otherwise the raw text.

  Labels come from the `pv_maps` cache, the class `PvCache`. On a miss
  they are fetched from the server, an oracle that may fail.
- `transform_csv` groups the rows by (Timestamp, User, Operation). A later
  write of a field overwrites an earlier one. The union of the field names,
  minus a denylist and sorted, is the column schema. It emits one row per
  key (`pivot.dfy`, module `Pivot`).
- `flatten_requirements` is the pre-order flattening of the requirement tree
  (`requirements.dfy`).
- The label-preference rule reads `value`, else `attributeValue`, else
  `str(id)`, with Python truthiness (`labels.dfy`).

`text.dfy` gives Python's `str.strip`, `str.join`, `str(int)`, `int(str)` and
string ordering the meaning the rest relies on. `wrappers.dfy` holds `Option`.

The state-changing parts are methods over the state they change:
- the scanner loop of `split_changes`;
- the `pv_maps` cache class and its lookup loops;
- the `grouped` / `all_fields` loops of `transform_csv`, which take the cache
  along.

Each method is proved against a specification function of its inputs and
the old state: `Fragments`, `Convert`, `ConvertAll`, `Keys`, `Group`,
`FieldNames`, `Flatten`. The properties are proved as lemmas about those
functions.

## Model

| member | source | states |
|---|---|---|
| Tokenizer.SplitChanges | sr_audit.py:92-104 | the character loop returns exactly `Fragments(log)`: the stripped pieces of the scan, where an empty unfinished last piece is not emitted |
| Tokenizer.DepthRule | sr_audit.py:94-101 | the pieces are exactly the substrings between the cut positions, and a position is a cut if and only if it holds a comma at bracket depth 0 |
| Tokenizer.CutsExactly | sr_audit.py:95 | a position is recorded as a cut exactly when it holds a comma and the running depth there is 0 |
| Tokenizer.PiecesJoin | sr_audit.py:93-101 | joining the unstripped pieces with "," gives back the scanned text, so the splitter loses nothing but separator commas |
| Tokenizer.ClosedCount | sr_audit.py:95-97 | one piece is closed per cut, and there are never more cuts than commas scanned |
| Tokenizer.CutsBracketFree | sr_audit.py:95-100 | without brackets the depth stays 0, so every comma is a cut |
| Tokenizer.FragmentsCount | sr_audit.py:95-103 | one fragment per cut, plus one when the unfinished last piece is non-empty; so at most the commas plus one; without brackets every comma is a cut |
| Tokenizer.EmptyLog | sr_audit.py:102-104 | the empty log gives no fragment |
| Tokenizer.FragmentsStripped | sr_audit.py:96-103 | every fragment is whitespace-stripped: no whitespace at either end |
| Tokenizer.PiecesSplit | sr_audit.py:95-97 | a comma at depth 0 splits the unstripped pieces into the pieces before it followed by the pieces after it |
| Tokenizer.FragmentsSplit | sr_audit.py:95-97 | a comma at depth 0 splits the log into the fragments of the text before it, stripped, followed by the fragments of the text after it |
| Tokenizer.LeadingComma | sr_audit.py:95-97 | a leading comma emits an empty first fragment |
| Tokenizer.TrailingComma | sr_audit.py:102-103 | a trailing comma at depth 0 adds no fragment: the result is the stripped pieces of the text before it |
| Tokenizer.DoubledComma | sr_audit.py:95-97 | a doubled comma at depth 0 emits an empty fragment between the two halves |
| Tokenizer.OnePiece | sr_audit.py:94-101 | a text with no comma at depth 0 is one piece |
| Tokenizer.OneFragment | sr_audit.py:94-104 | a text with no comma at depth 0 gives one stripped fragment, or none when empty |
| Tokenizer.TwoFragments | sr_audit.py:94-104 | a balanced text, one comma and a text with no comma at depth 0 give exactly the two stripped halves |
| Tokenizer.NoCutFromSound | sr_audit.py:95-100 | a forward re-scan that meets no comma at depth 0 proves that no position in that stretch is a cut, and gives the final depth |
| Tokenizer.NoCutFromConcat | sr_audit.py:99-100 | re-scanning a concatenation is re-scanning its first part, then its second part from the depth the first leaves |
| Tokenizer.PlainRescan | sr_audit.py:95-101 | text without commas or brackets never cuts and leaves the depth unchanged |
| Tokenizer.Bracketed | sr_audit.py:99-100 | plain text between an opening and a closing bracket never cuts at any depth and restores the depth |
| Tokenizer.PlainThen | sr_audit.py:94-101 | plain text followed by a balanced text with no cut has no separator comma and ends at depth 0 |
| Tokenizer.ExampleFirstHalf | sr_audit.py:94-101 | `siteId={id=5}` has no separator comma and ends at depth 0 |
| Tokenizer.ExampleList | sr_audit.py:94-101 | the comma inside `[{id=1},{id=2}]` sits at depth 1 and does not cut; the list ends at depth 0 |
| Tokenizer.ExampleSecondHalf | sr_audit.py:94-101 | `specimens=[{id=1},{id=2}]` has no separator comma |
| Tokenizer.SplitExample | sr_audit.py:92-104 | `siteId={id=5},specimens=[{id=1},{id=2}]` gives exactly the two fragments `siteId={id=5}` and `specimens=[{id=1},{id=2}]` |
| Tokenizer.NegativeDepthExample | sr_audit.py:100 | the depth goes negative and nothing rejects it: in `]a,b` the comma sits at depth -1, so the log is one fragment |
| Text.StripLeftSuffix | sr_audit.py:96 | lstrip keeps a suffix, removes only whitespace and stops at a non-space character |
| Text.StripRightPrefix | sr_audit.py:96 | rstrip keeps a prefix, removes only whitespace and stops at a non-space character |
| Text.StripMiddle | sr_audit.py:96 | strip keeps a contiguous middle of the text, with only whitespace removed on both sides and no whitespace at either end of the result |
| Text.StripTrimmed | sr_audit.py:96 | a text with no whitespace at either end is left unchanged by strip |
| Text.StripIdempotent | sr_audit.py:96 | strip is idempotent |
| Text.JoinLength | sr_audit.py:124 | a join is as long as all parts plus one separator between each two |
| Text.JoinSnoc | sr_audit.py:124 | one more part adds a separator and the part at the end |
| Text.NatDecimal | sr_audit.py:122-123 | `str(n)` of a non-negative int is a non-empty digit string with no leading zero unless n is 0 |
| Text.DecimalRoundTrip | sr_audit.py:115-123 | `int(str(n)) == n` |
| Text.LessTransitive | sr_audit.py:183 | the string order used by `sorted` is transitive |
| Text.LessTotal | sr_audit.py:183 | any two distinct strings are ordered one way or the other |
| Text.LessIrreflexive | sr_audit.py:183 | no string precedes itself |
| Text.LessAsymmetric | sr_audit.py:183 | at most one of two strings precedes the other |
| Labels.Label | sr_audit.py:41 | the label is never empty, and it is `value`, `attributeValue` or `str(id)` |
| Labels.LabelPreference | sr_audit.py:41 | the label is the first truthy element of [value, attributeValue, str(id)], as the `or` chain evaluates it; each later choice is used exactly when the earlier ones are falsy |
| Labels.FirstTruthy | sr_audit.py:41 | the first truthy choice is truthy and one of the choices, and there is none exactly when every choice is falsy |
| Labels.EmptyFallsThrough | sr_audit.py:41 | an empty `value` falls through to `attributeValue`, and both empty or absent fall through to the id |
| Labels.CatalogKeys | sr_audit.py:34 | the catalog fetch_pvs builds has exactly the entries' ids as keys |
| Labels.CatalogLast | sr_audit.py:34 | an id maps to the non-empty label of the last entry that carries it |
| IdScan.DigitRun | sr_audit.py:111 | the run of digits at a position is maximal: all digits, followed by a non-digit or the end |
| IdScan.FindFromDigits | sr_audit.py:111 | every captured group is a non-empty string of digits |
| IdScan.FindFromEmpty | sr_audit.py:111-112 | the scan finds nothing exactly when the pattern matches nowhere |
| IdScan.FindShift | sr_audit.py:111 | the scan of a suffix does not depend on the text before it |
| IdScan.FindTokens | sr_audit.py:111 | round trip: the references `{id=d}` written out with a brace-free separator are found again, all and in order |
| Resolver.LookupAllCache | sr_audit.py:114-122 | the cache after a sequence of lookups is the old cache plus the successful fetches of the missing ids |
| Resolver.GrownStep | sr_audit.py:116-120 | one more lookup stores exactly what a successful fetch returned |
| Resolver.GrownExtends | sr_audit.py:116-122 | no old cache entry changes, and each new entry is the label the server returned for an id that was looked up with token and field name |
| Resolver.LookupAllFound | sr_audit.py:116-122 | each lookup found the final cache's label when the id ends up cached, a failed fetch when a fetch was allowed, and nothing otherwise |
| Resolver.LookupAllAttempts | sr_audit.py:117 | an id is sent to the server if and only if it is looked up, missing from the old cache, and token and field name are both truthy |
| Resolver.FetchedOnce | sr_audit.py:116-120 | within one conversion, an id the server answered for is sent at most once |
| Resolver.ParseDecimal | sr_audit.py:132-138 | `int(str(n)) == n` for any integer, negative ones too |
| Resolver.PassDisciplined | sr_audit.py:116-122 | a pass only adds fetched labels, keeps old entries and fetches each id at most once, only on a miss with token and field name |
| Resolver.ConvertDisciplined | sr_audit.py:106-153 | in every branch the cache only grows, by labels the server returned; fetches happen only on misses with token and field name; an id the server answered for is stored and sent at most once |
| Resolver.ConvertIdRefs | sr_audit.py:111-124 | with a reference present, the result is the labels of all references in order joined by ", ", where a missing or empty label shows `str(int(digits))`; the cache and the fetched ids are as above |
| Resolver.ListFound | sr_audit.py:130-139 | each id value in the list shows its cached or fetched label, its id on a failed fetch, or None on a miss without a fetch |
| Resolver.OfflinePass | sr_audit.py:117-146 | without token or field name nothing is fetched and the cache is unchanged |
| Resolver.ConvertListPass | sr_audit.py:128-151 | a list whose id values are all integers gives the joined labels, or the raw text when some entry is None and the join raises |
| Resolver.ConvertListRejected | sr_audit.py:128-151 | when `int()` rejects an id value of the list, the raw text is returned |
| Resolver.ConvertListStops | sr_audit.py:128-151 | the list loop stops at the first rejected id value: the lookups before it still change the cache, and the raw text is returned |
| Resolver.ConvertListFetched | sr_audit.py:128-140 | with a fetch allowed, every id value of the list shows its label, or `str(id)` when the fetch fails |
| Resolver.FetchedList | sr_audit.py:130-139 | with a fetch allowed, every looked-up id value has a string to show |
| Resolver.ConvertListOffline | sr_audit.py:128-151 | without token or field name the cache is untouched; the result is the joined labels when all ids are cached, and the raw text otherwise |
| Resolver.OfflineList | sr_audit.py:130-139 | without a fetch, an id value shows a label exactly when its id is cached |
| Resolver.ConvertDict | sr_audit.py:141-149 | a single dict gives its one label unjoined, `str(id)` after a failed fetch, None on a miss without a fetch, and the raw text when `int()` rejects the id |
| Resolver.ConvertOther | sr_audit.py:126-153 | anything that has no reference and is neither a list nor a dict with `'id'` comes back unchanged, with the cache untouched |
| Resolver.ListWithoutIds | sr_audit.py:128-140 | a list with no dict carrying `'id'` gives the empty string, not the raw text |
| Resolver.BoolIdExample | sr_audit.py:141-149 | `{'id': True}` is the id 1: its cached label is returned and nothing is fetched |
| Resolver.FloatIdExample | sr_audit.py:128-140 | `[{'id': 5.0}]` resolves the id 5, since `int()` truncates the float |
| Resolver.PlainNumberExample | sr_audit.py:126-153 | `"5"`, which parses to a number, comes back as `"5"` |
| Resolver.ZeroSevenRefs | sr_audit.py:111-115 | `{id=007}` references the id 7 |
| Resolver.LeadingZerosExample | sr_audit.py:111-124 | `{id=007}` with an empty cache and no token shows `"7"`: the leading zeros are lost |
| Resolver.ConvertibleStop | sr_audit.py:130-132 | the list loop runs up to the first id value that `int()` rejects |
| Resolver.PvCache.Lookup | sr_audit.py:116-122 | `pv_maps.get`, then a fetch on a miss with token and field name: stores only a successful fetch's label and records the attempt |
| Resolver.PvCache.ResolveRefs | sr_audit.py:113-124 | the reference loop returns the joined labels of the lookups in order and leaves the cache as the lookups leave it |
| Resolver.PvCache.ResolveList | sr_audit.py:128-151 | the list loop returns what `Convert` specifies for the list branch and leaves the cache as `Convert` says |
| Resolver.PvCache.ConvertIdToPv | sr_audit.py:106-153 | the result and the new cache are exactly those of `Convert` on the old cache |
| Pivot.EqIndexFirst | sr_audit.py:176 | the split point is the first `=` |
| Pivot.ParseAssignmentKept | sr_audit.py:174-177 | a fragment is kept if and only if it holds a `=`, and the field name never holds one |
| Pivot.ParseAssignmentRoundTrip | sr_audit.py:176-177 | a stripped field name without `=`, then `=`, then a stripped value, parses back into that field and value |
| Pivot.KeptExact | sr_audit.py:173-177 | the kept assignments are exactly the parses of the fragments that hold a `=` |
| Pivot.KeysMembers | sr_audit.py:164-171 | a key is grouped if and only if some row with a non-empty change log carries it |
| Pivot.KeysDistinct | sr_audit.py:170-171 | the grouped keys are distinct |
| Pivot.KeysPrefix | sr_audit.py:170-171 | the keys are in first-appearance order: those of a prefix of the rows come first |
| Pivot.EmptyLogsSkipped | sr_audit.py:164-166 | rows with an empty change log contribute neither a key nor an assignment |
| Pivot.FieldsDomain | sr_audit.py:179 | a key's fields are exactly the fields written under that key |
| Pivot.LastWriteWins | sr_audit.py:179 | a field's value under a key is the value of its last write under that key |
| Pivot.FieldsUnwritten | sr_audit.py:170-171 | a key nothing was written under has no fields |
| Pivot.TargetsComplete | sr_audit.py:163-180 | every kept assignment of a row with a non-empty change log is grouped under that row's key |
| Pivot.TargetsSound | sr_audit.py:163-180 | every grouped assignment comes from a row with a non-empty change log |
| Pivot.TargetsKeyed | sr_audit.py:168-180 | every assignment is grouped under a key of `grouped` |
| Pivot.TargetsPrefix | sr_audit.py:163-180 | the assignments of earlier rows come first |
| Pivot.GroupNewKey | sr_audit.py:170-171 | a new key is added with no fields and changes nothing else |
| Pivot.ConvertAllDisciplined | sr_audit.py:163-180 | across all the conversions of an export, a cached id keeps its label and is never sent to the server; an id the server answers for is sent at most once and then stays cached |
| Pivot.ConvertAllAppend | sr_audit.py:163-180 | converting two stretches of assignments in turn threads the cache: the second starts from the cache the first leaves |
| Pivot.NeverRefetched | sr_audit.py:116-120 | once an id is in the cache, no later conversion sends it to the server again |
| Pivot.RowsNeverRefetch | sr_audit.py:163-180 | an id cached while grouping the first rows is never fetched for a later row |
| Pivot.MergeStep | sr_audit.py:178-180 | one assignment converts its value with the cache so far, updates one field of one key, and adds the field name |
| Pivot.Insert | sr_audit.py:183 | inserting a name into a sorted list of distinct names keeps it sorted, one longer and with the same names plus the new one |
| Pivot.IncreasingUnique | sr_audit.py:183 | two sorted lists of distinct names with the same members are equal |
| Pivot.SchemaUnique | sr_audit.py:182-183 | the column list is determined by the set of field names |
| Pivot.SortedColumns | sr_audit.py:182-183 | the columns are the field names minus the four denylisted ones, sorted and without repeats |
| Pivot.RowCellWritten | sr_audit.py:190-191 | a row has 5 plus one cell per column, and a written field's cell holds its last value under that key |
| Pivot.RowCellUnwritten | sr_audit.py:191 | a field never written under a key gives an empty cell |
| Pivot.MergeLog | sr_audit.py:173-180 | the fragment loop leaves `grouped`, `all_fields` and the cache as the specification of all assignments so far |
| Pivot.MergeFragment | sr_audit.py:174-180 | a fragment without `=` changes nothing; otherwise one assignment is merged |
| Pivot.MergeAssignment | sr_audit.py:177-180 | one stripped assignment is converted and written |
| Pivot.AddRow | sr_audit.py:163-180 | a row with an empty log is skipped; otherwise its key is added when new, and its assignments are merged |
| Pivot.GroupRows | sr_audit.py:163-180 | the row loop leaves the keys in first-appearance order, `grouped` as the last writes per key and field, `all_fields` as the written names, and the cache as the conversions leave it |
| Pivot.RenderRows | sr_audit.py:190-192 | one row per key, in order |
| Pivot.TransformRows | sr_audit.py:155-192 | the header is the five fixed columns then the schema; there is one body row per distinct key in first-appearance order, built from that key's last writes |
| Requirements.FlattenLength | sr_audit.py:56-63 | the output has one entry per node of the tree |
| Requirements.FlattenAppend | sr_audit.py:58-62 | siblings keep their order: flattening a concatenation is the concatenation of the flattenings |
| Requirements.Subtree | sr_audit.py:58-62 | pre-order: a node's entry comes right after everything before it, and its subtree right after it |
| Requirements.FlattenMembers | sr_audit.py:59 | an entry appears if and only if it is the (id, eventLabel) of a node of the tree |
| Requirements.FlattenRequirements | sr_audit.py:56-63 | the loop with its recursive call returns exactly the pre-order flattening |

## Left out

- HTTP: `get_token`, the request halves of `fetch_pvs` and `fetch_pv_by_id`,
  `get_cp_events`, `get_specimen_requirements` and
  `export_specimen_req_audit` are network I/O. The fetch is an oracle from
  (token, field name, id) to an optional permissible value. A raised request
  error is `None`.
- Label fetches: the oracle may depend on the field name, while
  `fetch_pv_by_id` itself ignores it. A fetched label is `Labels.Label` of
  the returned value (sr_audit.py:41), so it is never empty.
- `wait_for_file` (polling with `time.sleep`), `download_csv`'s zip
  extraction, `merge_csvs` (`pandas.concat` over `os.listdir`) and `main`
  are orchestration and I/O.
- The file plumbing of `transform_csv` is left out: opening the files,
  skipping 7 lines, `csv.DictReader` and `csv.writer`. The model takes the
  rows as a sequence of records and returns the header and the rows.
- Missing CSV columns are read as empty strings. Short rows that would
  yield `None` are not modelled.
- `pd.isna(cell)` is left out: the values that reach `convert_id_to_pv`
  from `transform_csv` are always strings.
- `ast.literal_eval` is an oracle from the text to a small result type:
  - a list of items;
  - a dict with or without `'id'`;
  - any other literal;
  - a parse error.

  Python's literal grammar is not modelled.
- Python's `int()` accepts Unicode digits and underscores, and `re`'s `\d`
  matches any Unicode digit. The model accepts ASCII digits, with
  surrounding whitespace and a sign for strings.
- An `'id'` value is an int, a str, a bool (`int()` gives 1 or 0), a float
  or some other value. A float is given by its truncation toward zero
  (none for inf and nan) and its `str()` form; its binary value is not
  modelled.
- A bytes `'id'` value falls in the "other" case, which `int()` rejects.
  So the model returns the raw text for `{'id': b'7'}`, where the source
  parses the bytes like a str and resolves id 7.
- `token=None` is modelled as the empty string. Both are falsy, and both
  suppress the fetch.
- `PvCache.attempts`, the ids sent to the server, is a ghost record. The
  source keeps no such list.
- Resolver.PvCache.Lookup, ResolveRefs, ResolveList, ConvertIdToPv,
  Pivot.MergeLog, MergeFragment, MergeAssignment, AddRow, GroupRows and
  TransformRows: their contracts relate the new state to the old one. What
  the source promises about that state is proved as lemmas about the
  specification functions they are tied to.
