# Flow-log tagger, modelled in Dafny

The tool reads an AWS VPC flow log and a lookup table. The table maps
`(dstport, protocol)` to a tag. For each record the tool resolves the
protocol number to its keyword and classifies the record through the table,
falling back to `Untagged`. It counts records by tag and by
`(port, protocol)` pair, and writes both tables as a CSV report: tags in
string order, port/protocol pairs in order of `(int(port), protocol)`.

The model follows `flow_log_parser.py` function by function:

- `Text`: the parts of Python's `str` the tool relies on, for ASCII text.
  That is `strip()`, `lower()`, `split()`, string comparison, `int()` in
  base 10 and `str()` of a count.
- `Protocol`: `map_protocol_number`.
- `Lookup`: the row loop of `read_lookup_table`. It is a method with a
  `for` loop, proved equal to the fold `BuildTable`, and `BuildTable` is
  then characterised: its key set, last row wins, and where every value
  comes from.
- `Tally`: the `d[k] = d.get(k, 0) + 1` update, and the sum of a table's
  values.
- `FlowLog`: the line loop of `parse_flow_log`. It is a method with a `for`
  loop and the same two `continue` exits, proved equal to the fold
  `Aggregate`. The lemmas about `Aggregate` state the counting invariants.
- `Sorting`: the `sorted()` calls of `write_output`. An insertion sort of a
  dictionary's keys under a total preorder, proved sorted and a permutation
  of the keys.
- `Report`: the rows `write_output` hands to the CSV writer, including the
  exception `int()` raises on a port that is not an integer.

The dictionaries of the source are local variables, not object fields,
so the model has no classes. The methods keep local `map` variables and
return them.

## Model

| member | source | states |
|---|---|---|
| Text.Strip | flow_log_parser.py:14-16 | `strip()` leaves no whitespace at either end, and gives back unchanged a string with none there |
| Text.StripPadded | flow_log_parser.py:14-16 | `strip()` removes exactly the whitespace around text that neither starts nor ends with whitespace |
| Text.StripIsSlice | flow_log_parser.py:33 | `strip()` keeps a contiguous part of the string and drops only whitespace on either side of it |
| Text.Lower | flow_log_parser.py:15 | `lower()` keeps the length, turns each upper-case letter into the same letter in lower case, and keeps every other character |
| Text.Split | flow_log_parser.py:33 | every field `split()` yields is non-empty and holds no whitespace |
| Text.SplitWord | flow_log_parser.py:33 | a word followed by nothing or by text starting with whitespace is the first field, and the rest is split on its own |
| Text.SplitLeadingSpace | flow_log_parser.py:33 | leading whitespace does not change the fields |
| Text.SplitAllSpace | flow_log_parser.py:33 | whitespace alone has no fields |
| Text.SplitConcat | flow_log_parser.py:33 | any non-empty whitespace run separates fields: the fields of `a + w + b` are those of `a` followed by those of `b`; with SplitWord and SplitAllSpace this fixes `split()` on every string |
| Text.SplitPadded | flow_log_parser.py:33 | whitespace on either side of a string, such as a line's trailing line feed, does not change its fields |
| Text.SplitStrip | flow_log_parser.py:33 | `line.strip().split()` equals `line.split()` on every line |
| Text.SplitJoinSpace | flow_log_parser.py:33 | splitting words joined by single spaces gives exactly those words back |
| Text.StrLe | flow_log_parser.py:88 | a prefix never comes after the string it starts, and at a differing first character the smaller character decides |
| Text.StrLeAtFirstDifference | flow_log_parser.py:88 | at the first position where two strings differ, the smaller character decides their order |
| Text.StrLeTotal | flow_log_parser.py:88 | any two strings are comparable under Python's string ordering |
| Text.StrLeTransitive | flow_log_parser.py:88 | Python's string ordering is transitive |
| Text.IntStrip | flow_log_parser.py:95 | the trim `int()` applies leaves no space or control 9 to 13 at either end, and keeps a string with none there unchanged; separators 28 to 31 are not trimmed |
| Text.IntStripPadded | flow_log_parser.py:95 | the trim `int()` applies removes exactly the spaces and controls 9 to 13 around text that neither starts nor ends with one |
| Text.PyIntAccepts | flow_log_parser.py:95 | `int()` succeeds only on text that is, once trimmed of spaces and controls 9 to 13, a non-empty run of digits and underscores with at most a leading sign, ending in a digit, with at most 4300 digits; on every other port it raises |
| Text.PyIntOfDigits | flow_log_parser.py:95 | `int()` of a non-empty run of at most 4300 digits, with any spaces and controls 9 to 13 before and after it, is its decimal value |
| Text.PyIntTooManyDigits | flow_log_parser.py:95 | `int()` of a run of more than 4300 digits raises, whatever spaces and controls 9 to 13 surround it |
| Text.PyIntRejects | flow_log_parser.py:95 | `int()` rejects the empty string, a bare sign, `8a`, `1__0`, `_1`, `1_`, `- 5`, a digit after the separator character 28, which `str.isspace()` accepts but `int()` does not skip, and 4301 ones |
| Text.NatToString | flow_log_parser.py:89 | `str()` of a count is a non-empty run of digits, with no leading zero unless the count is 0 |
| Text.DecimalValueOfNatToString | flow_log_parser.py:89 | reading the digits of `str(n)` in base 10 gives `n` |
| Text.PyIntOfNatToString | flow_log_parser.py:95 | `int(str(n)) == n` for every count of at most 4300 digits, so a count in the report reads back as itself |
| Protocol.MapProtocolNumber | flow_log_parser.py:64-77 | total; the result is one of the ten keywords, never empty and already lower case; it is `unknown` exactly when the code is not one of the nine keys |
| Protocol.KnownProtocolNumbers | flow_log_parser.py:66-76 | the nine codes resolve to icmp, igmp, tcp, udp, gre, esp, ah, ospf and sctp |
| Protocol.CodesMatchedAsText | flow_log_parser.py:77 | the code is matched as text: `06` and ` 6` are 6 to `int()` and still resolve to `unknown` |
| Tally.Get | flow_log_parser.py:52 | `.get(k, 0)` is the stored count of a present key, and 0 for an absent one |
| Tally.Bump | flow_log_parser.py:52 | the update raises the entry for its key by one, adding the key if it was missing, and leaves every other entry unchanged |
| Tally.BumpTallies | flow_log_parser.py:52-55 | if a table counts how often each key occurs, it still does after one more occurrence is added |
| Tally.SumBump | flow_log_parser.py:52-55 | one update raises the sum of the table's values by exactly one |
| Lookup.ReadLookupTable | flow_log_parser.py:13-18 | the row loop builds the same table as storing the rows one after another |
| Lookup.BuildTableKeys | flow_log_parser.py:13-18 | the table's keys are exactly the rows' normalised keys: port trimmed, protocol trimmed and lower-cased |
| Lookup.BuildTableLastWins | flow_log_parser.py:17-18 | a row with no later row under the same key is present, with its trimmed tag |
| Lookup.BuildTableValues | flow_log_parser.py:14-18 | every stored tag is the trimmed tag of the last row under that key |
| Lookup.MixedCaseRow | flow_log_parser.py:13-18 | a row whose protocol is written ` TCP ` is stored under `tcp`, and a table of that row alone maps `(80, tcp)` to `web` |
| Lookup.PaddedRow | flow_log_parser.py:14-17 | a row with blanks around port and tag and protocol `Udp` is stored under the trimmed port and `udp`, with the trimmed tag |
| FlowLog.Fields | flow_log_parser.py:33 | a line's fields are its whitespace-separated words, the `strip()` before `split()` changing nothing |
| FlowLog.Classify | flow_log_parser.py:50 | the tag is the table's value for a present key and `Untagged` for an absent one, so always `Untagged` or a table value |
| FlowLog.ParseLine | flow_log_parser.py:33-48 | a line is rejected exactly when it has fewer than 14 fields, or when field 6 or 7 is `-`; an accepted line's key is field 6 with the resolved keyword of field 7 |
| FlowLog.Step | flow_log_parser.py:33-55 | a rejected line changes neither table; an accepted one adds one to its tag's entry (the lookup value, or `Untagged`) and one to its key's entry, and changes no other entry |
| FlowLog.ParseFlowLog | flow_log_parser.py:32-55 | the line loop, with both `continue` exits, builds the same two tables as folding the lines one after another |
| FlowLog.AggregateTallies | flow_log_parser.py:50-55 | each table counts, per key or tag, exactly the accepted lines with that key or tag, and holds nothing else |
| FlowLog.AggregateTotals | flow_log_parser.py:52-55 | the counts of each table add up to the number of accepted lines |
| FlowLog.AggregatePositive | flow_log_parser.py:52-55 | no stored count is zero |
| FlowLog.AggregateTagsKnown | flow_log_parser.py:50-52 | every tag counted is `Untagged` or a value of the lookup table |
| FlowLog.JoinedLine | flow_log_parser.py:33-46 | a line of at least 14 space-separated words, with any whitespace before and after, is rejected only for a `-` port or protocol; otherwise its key is its port and the keyword of its protocol field |
| FlowLog.TaggedLineScenario | flow_log_parser.py:32-55 | with the table row `80, TCP ,web`, a line ending in a line feed with port 80 and protocol 6 gives `web: 1` and `(80, tcp): 1` |
| FlowLog.UntaggedLineScenario | flow_log_parser.py:32-55 | with an empty table, a line ending in a line feed with port 443 and protocol 17 gives `Untagged: 1` and `(443, udp): 1` |
| FlowLog.MissingPortScenario | flow_log_parser.py:42-44 | a line ending in a line feed whose port is `-` is not counted |
| Sorting.Insert | flow_log_parser.py:88 | inserting into a sorted sequence keeps it sorted and adds exactly the new element |
| Sorting.SortSet | flow_log_parser.py:88 | the keys come out sorted under the sort key and as a permutation of the dictionary's keys |
| Sorting.SequenceOfSet | flow_log_parser.py:88 | a permutation of a key set lists every key exactly once |
| Report.StrLeTotalPreorder | flow_log_parser.py:88 | sorting by tag uses a total, transitive order |
| Report.PortOrderTotalPreorder | flow_log_parser.py:95 | Python's `<=` on `(int(port), protocol)` tuples, the sort key of the port/protocol rows, is a total, transitive order |
| Report.TagRowsOfSortedKeys | flow_log_parser.py:88-89 | one `[tag, count]` row per sorted tag gives one row per tag, strictly ascending, each with its count |
| Report.PortRowsOfSortedKeys | flow_log_parser.py:95-96 | one `[port, protocol, count]` row per sorted key gives one row per key, non-decreasing by `(int(port), protocol)`, each with its count |
| Report.TagSection | flow_log_parser.py:88-89 | the tag rows: one per tag, tags strictly ascending, each count the tag's count |
| Report.PortSection | flow_log_parser.py:95-96 | when every port is an integer: one row per key, non-decreasing by `(int(port), protocol)`, with pairwise different keys and each count the key's count |
| Report.WriteOutput | flow_log_parser.py:81-99 | the rows are two headers, the tag rows, a blank row and two more headers, then the port rows. Writing completes exactly when every port is read by `int()`; otherwise nothing follows the second header pair |

## Left out

- File I/O is not modelled. The lookup rows and log lines are parameters, and the report is returned as rows.
- ASCII decoding is not modelled, and neither are the exceptions caught at lines 20-22 and 58-60 (unreadable file, undecodable byte) or the `print` and `sys.exit(1)` around them.
- Of the exceptions caught at lines 97-99, only the `ValueError` from `int()` at line 95 is modelled. It appears as `ok == false`, with the rows up to the second column header. Failing to open or write the output file (line 82), where no rows are written, is not modelled.
- `csv.DictReader` is not modelled: header matching, quoting, and a row with a missing column giving `None`. Rows are taken with their three columns already read.
- `csv.writer` quoting is not modelled. Report rows are lists of cells, and a count cell is `str()` of the count.
- The per-line `print` calls at lines 36 and 43 are not modelled. Only their effect is: the line is skipped.
- `main` (lines 101 onwards) is not part of this model: argument count, file-existence checks and the call sequence.
- Text is modelled only as ASCII. Unicode whitespace, case mapping and digits are not modelled. `lower()` changes only `A`-`Z`. Two whitespace sets are modelled:
  - `strip()` and `split()` use Python's ASCII `isspace()` set: space, controls 9 to 13, separators 28 to 31.
  - `int()` skips only the space and controls 9 to 13 around a number.
- Sorting.SortSet: it stands for Python's library `sorted()`, which is a stable merge sort. The model proves the promised result (sorted, a permutation of the keys), not Timsort's steps.
- Report.PortSection: does not fix the order of two keys that tie on `(int(port), protocol)`, such as `("80", "tcp")` and `("080", "tcp")`. In the source their order follows dictionary insertion order through a stable sort, and the model's maps carry no order.
- Report.WriteOutput: for the same reason, the order of port rows whose keys tie on `(int(port), protocol)`, such as `("80", "tcp")` and `("080", "tcp")`, is not fixed. Which keys get a row, the count in each row and the non-decreasing sort key are fixed.
- Text.PyInt: the limit on the digits `int()` converts is CPython's default of 4300, in force from 3.11 and in 3.10.7, 3.9.14, 3.8.14 and 3.7.14. Older versions have no limit. Changing it through `sys.set_int_max_str_digits` or `PYTHONINTMAXSTRDIGITS` is not modelled.
- Text.PyIntOfNatToString: it is stated for counts of at most 4300 digits. `str()` of a longer integer raises `ValueError` under the same limit, and the model does not represent that; no count of log lines comes near it.

Two behaviours of the code are easy to miss:

- Ports are never checked: only `-` is rejected at line 42. So `int()` at line 95 can raise, also on a port of more than 4300 digits, and the report then stops after the second pair of headers (Report.WriteOutput, Text.PyIntAccepts).
- Protocol codes are matched as text, so `06` and ` 6` are `unknown` (Protocol.CodesMatchedAsText).
