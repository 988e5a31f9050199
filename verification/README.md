# Flow-log analyzer, modelled in Dafny

`log_analyzer.py` reads network flow logs in the version-2 record format
and counts them in two ways: by tag, through a lookup table keyed by
(destination port, protocol), and by (destination port, protocol) pair. It
has three stages.

1. `load_lookup_table` reads a CSV file of `destination_port,protocol,tag`
   rows into a dict. The header is skipped and the protocol is lower-cased.
2. `parse_flow_logs` splits each log line on whitespace and checks that the
   version field is `"2"`. It reads the destination port (field 5) and the
   protocol number (field 7), resolves the number to a name through
   `protocol_map`, and tags the pair ("Untagged" on a miss). Then it bumps
   two `defaultdict(int)` counters. A bad line aborts the whole parse.
3. `save_results` writes the report:
   - a tag block sorted by count, with "Untagged" last;
   - a blank row;
   - the (port, protocol) block in counting order.

`main` runs the last two stages only when the table is non-empty.

The model works on the file contents as values:
- the lookup file is a sequence of already-split CSV rows (`seq<seq<string>>`);
- the log is a sequence of lines;
- the report is the sequence of rows handed to the CSV writer, each row a
  sequence of cells (`Str` text or `Num` count).

Python's insertion-ordered `dict` is `Dicts.Dict`: a key sequence in
insertion order together with a `map`.

Modules:
- `Dicts` (`dicts.dfy`): ordered dicts, `d[k] = v` (`Put`), `c[k] += 1` on a
  counter (`Inc`), counting a sequence (`CountAll`).
- `Text` (`text.dfy`): `str.split()` (`Split`) and `str.lower()` (`Lower`).
- `Protocols` (`protocols.dfy`): `protocol_map` and its lookup (`Resolve`).
- `Lookup` (`lookup.dfy`): `load_lookup_table` (`LoadLookupTable`).
- `FlowLog` (`flowlog.dfy`): `parse_flow_logs`, both as a pure function
  (`Aggregate`) and as its `for line in logfile` loop (`ParseFlowLogs`).
- `Report` (`report.dfy`): `save_results` as a row sequence (`SaveResults`).
- `Pipeline` (`pipeline.dfy`): the gate in `main` (`Analyze`) and an
  end-to-end example.

## Edge cases, as the code handles them

- **Loader on a bad row.** Any row that does not unpack into exactly three
  values stops the loop: fewer than 3 fields, more than 3, or a blank row.
  `except Exception` swallows the `ValueError`, and the entries stored so far
  are returned. An empty file is the same case: `next(reader)` raises
  `StopIteration`, which is swallowed too, so the table is empty.
- **Empty table.** `if lookup_table:` skips processing for every empty
  table. A file with no entries and a file that could not be loaded are not
  told apart.
- **Tag ties.** `sorted` is stable, so tags with equal counts keep the
  counter's insertion order, which is the order of first appearance in the
  log. The model proves this.
- **Short log line.** In a line with fewer than 8 fields, `fields[5]` or
  `fields[7]` raises `IndexError`; an empty line already fails at
  `fields[0]`. The handler re-raises it. The model makes this a fatal
  `MissingField` error, checked after the version, so a short line with
  version "3" is reported as an unsupported version. Lines with more than 8
  fields are accepted.

## Model

| member | source | states |
|---|---|---|
| Protocols.Resolve | log_analyzer.py:77 | The result is "unknown" exactly when the code is not in the table, and otherwise the table's name. It is always lower-case, so it can match a lower-cased lookup-table protocol. |
| Protocols.ResolveKnownCodes | log_analyzer.py:9-21 | Each of the eleven listed numbers resolves to its name ("6" to "tcp", "17" to "udp", …). "999", "06" and "" resolve to "unknown". |
| Protocols.ResolveInjective | log_analyzer.py:9-21 | Two different known codes never resolve to the same name. |
| Text.SplitJoin | log_analyzer.py:66 | Splitting a line whose whitespace-free fields are written with single spaces gives back exactly those fields, with or without a trailing newline. |
| Text.SplitKeepsNonSpace | log_analyzer.py:66 | Concatenating the fields of a split line gives exactly its non-whitespace characters, in order: splitting drops whitespace and nothing else. |
| Text.SplitSpaced | log_analyzer.py:66 | Splitting cuts exactly at runs of whitespace. Fields written with any non-empty whitespace runs between them, and any whitespace before the first and after the last, split back to exactly those fields. |
| Text.Lower | log_analyzer.py:39 | Lowering keeps the length and leaves no capital letter. Capitals become their lower-case letter and every other character is unchanged. |
| Text.LowerFixesLowerCase | log_analyzer.py:39 | Lowering leaves lower-case text unchanged, so applying it twice equals applying it once. |
| Lookup.Accepted | log_analyzer.py:38 | Every row before the returned position unpacks into three values, and the row at that position (if any) does not. |
| Lookup.StoreRows | log_analyzer.py:38-39 | Every key of the result was already in the table or is the key of an unpacked row. |
| Lookup.LoadLookupTable | log_analyzer.py:33-45 | An empty file or a header alone gives the empty table. Every stored protocol is lower-case. |
| Lookup.StoreRowsLast | log_analyzer.py:38-39 | The key of the last unpacked row that stores it holds that row's tag. |
| Lookup.StoreRowsUntouched | log_analyzer.py:38-39 | A key that no unpacked row stores keeps its earlier value. |
| Lookup.LoadLastWriteWins | log_analyzer.py:37-39 | After the skipped header, each key written by an unpacked row holds the tag of the last row writing it, and no other key is present. |
| Lookup.LoadStopsAtBadRow | log_analyzer.py:34-45 | A row without exactly three fields ends the load without failing. The result equals the table built from the rows before it, whatever follows. |
| Lookup.LoadExample | log_analyzer.py:39 | The row (80, TCP, web) is stored under (80, tcp), and (81, tcp) is absent. |
| FlowLog.ParseFields | log_analyzer.py:66-74 | A line is accepted exactly when it has at least 8 fields and field 0 is "2", giving fields 5 and 7. An empty line, or a version-2 line with fewer than 8 fields, is a missing field. Any other first field is an unsupported version carrying that field. |
| FlowLog.ParseRecordLine | log_analyzer.py:66-74 | A written 14-field record parses to its port and protocol code when its version is "2", and to an unsupported-version error naming its version otherwise. |
| FlowLog.FlowKeyResolves | log_analyzer.py:73-77 | The counted key has the line's destination port. Its protocol is the name `protocol_map` gives the line's code, or "unknown" when the map lacks the code. |
| FlowLog.UntaggedCount | log_analyzer.py:76-81 | On success, the "Untagged" count is the number of lines whose (port, resolved protocol) pair the lookup table does not list, or lists with the tag "Untagged" itself. |
| FlowLog.TaggedCount | log_analyzer.py:76-81 | On success, the count of any other tag is the number of lines whose (port, resolved protocol) pair the lookup table maps to that tag. |
| FlowLog.ParseAllOkIff | log_analyzer.py:65-74 | The parse succeeds exactly when every line parses, and then flow i is what line i parses to. |
| FlowLog.AbortPersists | log_analyzer.py:86-88 | Once a prefix of the log has failed, later lines do not change the outcome. |
| FlowLog.RecordCounts | log_analyzer.py:81-82 | Bumping both counters for one more flow gives the counts of the longer flow list. |
| FlowLog.ParseFlowLogs | log_analyzer.py:47-90 | The `for line in logfile` loop, which counts line by line and returns at the first bad line, computes exactly `Aggregate`: the error of the first bad line, or the counts of all lines. |
| FlowLog.AggregateFirstError | log_analyzer.py:66-88 | If line i is the first bad line, the parse fails with line i's error and returns no counts, however many valid lines came before it and whatever follows. |
| FlowLog.AggregateSpec | log_analyzer.py:60-90 | On success every line parsed. The count of each tag and each (port, protocol) is its number of occurrences among the lines. The counted keys are exactly those seen, listed in order of first appearance. Every count is positive, and both totals equal the number of lines. |
| Dicts.Put | log_analyzer.py:39 | `d[k] = v` maps k to v and leaves other keys alone. An existing key keeps its position and a new key is appended. |
| Dicts.Inc | log_analyzer.py:81-82 | `c[k] += 1` raises k's count by one (from 0 when absent) and leaves other counts unchanged. The total grows by exactly one, a new key is appended, and positivity is preserved. |
| Dicts.CountAllSpec | log_analyzer.py:81-82 | Counting a sequence gives each key its number of occurrences, counts exactly the elements, keeps counts positive, totals the length, and lists keys in order of first occurrence. |
| Dicts.CountAllDistinct | log_analyzer.py:82 | Counting distinct keys lists each one, in order. |
| Report.SortByCountDesc | log_analyzer.py:108-112 | The sorted tags are a permutation of the input with non-increasing counts and the same total. |
| Report.SortByCountDescStable | log_analyzer.py:108-112 | For every count, the items with that count keep their input order: the sort is stable. |
| Report.Insert | log_analyzer.py:108-112 | Inserting into a non-increasing list keeps it non-increasing and adds exactly the one item. |
| Report.TaggedItemsContents | log_analyzer.py:109 | The filtered items are exactly the counter's non-"Untagged" entries, each once with its count. |
| Report.TaggedItemsSum | log_analyzer.py:109-113 | Filtering out "Untagged" removes exactly its count from the total. |
| Report.RankedTagsTagged | log_analyzer.py:109 | No sorted tag row is "Untagged". |
| Report.RankedTagsStable | log_analyzer.py:108-112 | Tags with equal counts appear in the counter's insertion order. |
| Report.TagBlockOrder | log_analyzer.py:113-120 | "Untagged" appears at most once, only as the last tag row, with its count. It appears exactly when that count is above zero, and the counts before it never increase. |
| Report.TagBlockContents | log_analyzer.py:108-120 | Every non-"Untagged" tag of the counter is listed exactly once with its count, and no other tag is listed. |
| Report.TagBlockTotal | log_analyzer.py:113-120 | The counts in the tag block add up to the counter's total. |
| Report.SaveResults | log_analyzer.py:104-126 | The rows are: the tag caption and header, the tag block, a blank row, the pair caption and header, and one row per counted pair in insertion order with its count. |
| Report.TagBlockExample | log_analyzer.py:107-120 | Tags a, "Untagged", b counted in that order are reported by count with ties in counting order, and "Untagged" comes last whatever its count. |
| Pipeline.Analyze | log_analyzer.py:152-158 | A run is skipped exactly when the loaded table is empty. It produces a report exactly when the table is non-empty and every log line parses; otherwise it halts. |
| Pipeline.AnalyzeAccountsForEveryLine | log_analyzer.py:155-156 | The rows a saved run writes are the report of the whole log's counts: caption and header rows, the tag block, a blank row, then one row per (port, protocol) pair. The tag counts in that block add up to the number of log lines. The pair counts do too, and the pairs listed are exactly the pairs seen in the log. |
| Pipeline.AnalyzeHaltsAtFirstBadLine | log_analyzer.py:153-158 | With a non-empty table, a run halts with the error of the first bad line. |
| Pipeline.SampleRecordParses | log_analyzer.py:66-74 | A concrete version-2 record line parses to its port and protocol code. |
| Pipeline.EndToEndExample | log_analyzer.py:151-156 | Against the table {(25, tcp): email}, three lines are counted: one tagged, one with an unknown protocol code, one with an unlisted port. The result is email 1, Untagged 2, and three distinct pairs in line order, the second under "unknown". |

## Left out

- File opening, reading and writing, and the `FileNotFoundError` branches
  (log_analyzer.py:41-42, 84-85). A missing lookup file yields the empty
  table, which is already the `Skipped` outcome. The log arrives as a
  sequence of lines.
- Logging calls. They have no effect on the results.
- CSV quoting, escaping and the decimal rendering of counts in `csv.reader`
  and `csv.writer`. These are library behaviour. Rows are pre-split
  sequences of strings, and counts are `Num` cells.
- Failures of the report writer (log_analyzer.py:129-130). These are I/O.
- Reading `config.ini` and building file names from `datetime.now()`
  (log_analyzer.py:136-149). Configuration and the clock are outside the
  pipeline.
- `generate_data.py`, which generates random test data. It is not part of
  the pipeline.
- Exceptions other than the unpacking, indexing and version errors (for
  example, undecodable bytes). They come from the I/O layer.
- Text.Lower: lower-cases only ASCII capitals. Python's `str.lower()` also
  maps non-ASCII capitals, some of them to ASCII letters (U+212A KELVIN SIGN
  becomes "k"). A table row whose protocol contains such a character can
  therefore get a different key in the model: "UN\u212ANOWN" matches
  "unknown" in the code but not in the model.
- Pipeline.Analyze: `Halted` merges two source behaviours. For an
  unsupported version, `main` catches the `ValueError` and logs. For a short
  line, the `IndexError` escapes `main`. In both cases no report is written,
  and the model does not tell them apart.
