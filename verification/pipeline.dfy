/** The processing step of `main`: load the table, parse the log if the
    table is non-empty, and produce the report rows unless the parse aborts.
    Reading the configuration, naming files after the current date and the
    file I/O itself are not part of this model. */
module Pipeline {
  import opened Dicts
  import opened Lookup
  import opened FlowLog
  import opened Report
  import Text
  import Protocols

  /** How a run ends: skipped because the lookup table is empty, halted by a
      parse error with no report written, or with the report rows. */
  datatype Outcome = Skipped | Halted(error: ParseError) | Saved(rows: seq<Row>)

  /** The run, given the rows of the lookup-table file and the lines of the
      flow log. An empty table skips processing, whether the file held no
      entries or could not be read. A run ends with a report exactly when the
      table is non-empty and every log line is a valid record. */
  function Analyze(tableRows: seq<seq<string>>, logLines: seq<string>): (o: Outcome)
    ensures o.Skipped? <==> LoadLookupTable(tableRows) == map[]
    ensures o.Saved? <==> LoadLookupTable(tableRows) != map[]
                          && forall i :: 0 <= i < |logLines| ==> ParseLine(logLines[i]).Ok?
  {
    var table := LoadLookupTable(tableRows);
    ParseAllOkIff(logLines);
    if table == map[] then Skipped
    else
      match Aggregate(logLines, table)
      case Err(e) => Halted(e)
      case Ok(a) => Saved(SaveResults(a.tagCounts, a.portProtocolCounts))
  }

  lemma {:induction false} SavedTagTotal(tableRows: seq<seq<string>>, logLines: seq<string>)
    ensures Analyze(tableRows, logLines).Saved? ==>
      var a := Aggregate(logLines, LoadLookupTable(tableRows)).value;
      SumItems(TagBlockItems(a.tagCounts)) == |logLines|
  {
    var table := LoadLookupTable(tableRows);
    if Analyze(tableRows, logLines).Saved? {
      var flows := ParseAll(logLines).value;
      var a := Aggregate(logLines, table).value;
      assert a == Tally(flows, table);
      CountAllTotal(FlowTags(flows, table));
      TagBlockTotal(a.tagCounts);
    }
  }

  lemma {:induction false} SavedPairTotal(tableRows: seq<seq<string>>, logLines: seq<string>)
    ensures Analyze(tableRows, logLines).Saved? ==>
      var a := Aggregate(logLines, LoadLookupTable(tableRows)).value;
      Total(a.portProtocolCounts) == |logLines|
  {
    var table := LoadLookupTable(tableRows);
    if Analyze(tableRows, logLines).Saved? {
      var flows := ParseAll(logLines).value;
      assert Aggregate(logLines, table).value == Tally(flows, table);
      CountAllTotal(FlowKeys(flows));
    }
  }

  lemma {:induction false} SavedPairKeys(tableRows: seq<seq<string>>, logLines: seq<string>)
    ensures Analyze(tableRows, logLines).Saved? ==>
      var a := Aggregate(logLines, LoadLookupTable(tableRows)).value;
      forall k :: k in a.portProtocolCounts.entries <==> k in FlowKeys(ParseAll(logLines).value)
  {
    var table := LoadLookupTable(tableRows);
    if Analyze(tableRows, logLines).Saved? {
      var flows := ParseAll(logLines).value;
      assert Aggregate(logLines, table).value == Tally(flows, table);
      CountAllMembers(FlowKeys(flows));
    }
  }

  /** The rows of a saved run are the report of the aggregates of the whole log. */
  lemma {:induction false} SavedRows(tableRows: seq<seq<string>>, logLines: seq<string>)
    ensures Analyze(tableRows, logLines).Saved? ==>
      var a := Aggregate(logLines, LoadLookupTable(tableRows)).value;
      IsReport(Analyze(tableRows, logLines).rows, TagBlockItems(a.tagCounts), Items(a.portProtocolCounts))
  {
    if Analyze(tableRows, logLines).Saved? {
      var a := Aggregate(logLines, LoadLookupTable(tableRows)).value;
      assert Analyze(tableRows, logLines).rows == SaveResults(a.tagCounts, a.portProtocolCounts);
    }
  }

  /** A saved report accounts for every line: its rows lay out the tag block
      and the (port, protocol) items of the aggregates; the tag counts listed
      add up to the number of log lines, there is one (port, protocol) row per
      distinct pair seen, and the pair counts add up to the number of lines
      too. */
  lemma {:induction false} AnalyzeAccountsForEveryLine(tableRows: seq<seq<string>>, logLines: seq<string>)
    ensures Analyze(tableRows, logLines).Saved? ==>
      var a := Aggregate(logLines, LoadLookupTable(tableRows)).value;
      && SumItems(TagBlockItems(a.tagCounts)) == |logLines|
      && Total(a.portProtocolCounts) == |logLines|
      && (forall k :: k in a.portProtocolCounts.entries <==> k in FlowKeys(ParseAll(logLines).value))
      && IsReport(Analyze(tableRows, logLines).rows, TagBlockItems(a.tagCounts), Items(a.portProtocolCounts))
  {
    SavedRows(tableRows, logLines);
    SavedTagTotal(tableRows, logLines);
    SavedPairTotal(tableRows, logLines);
    SavedPairKeys(tableRows, logLines);
  }

  /** A halted run reports the error of the first line that is not a valid
      record. */
  lemma AnalyzeHaltsAtFirstBadLine(tableRows: seq<seq<string>>, logLines: seq<string>, i: nat)
    requires LoadLookupTable(tableRows) != map[]
    requires i < |logLines| && ParseLine(logLines[i]).Err?
    requires forall j :: 0 <= j < i ==> ParseLine(logLines[j]).Ok?
    ensures Analyze(tableRows, logLines) == Halted(ParseLine(logLines[i]).error)
  {
    AggregateFirstError(logLines, LoadLookupTable(tableRows), i);
  }

  /** A version-2 record with the given destination port and protocol code,
      the other fields fixed. */
  function SampleRecord(port: string, code: string): FlowRecord {
    FlowRecord("2", "123456789012", "eni-a1b2", "10.0.1.201", "198.51.100.2", port, "49153",
               code, "25", "20000", "1620140761", "1620140821", "ACCEPT", "OK")
  }

  lemma SampleHeadFields()
    ensures Text.IsField("2") && Text.IsField("123456789012") && Text.IsField("eni-a1b2")
  {
  }

  lemma SampleAddressFields()
    ensures Text.IsField("10.0.1.201") && Text.IsField("198.51.100.2") && Text.IsField("49153")
  {
  }

  lemma SampleCountFields()
    ensures Text.IsField("25") && Text.IsField("20000") && Text.IsField("1620140761")
  {
  }

  lemma SampleTailFields()
    ensures Text.IsField("1620140821") && Text.IsField("ACCEPT") && Text.IsField("OK")
  {
  }

  lemma SampleFields(port: string, code: string)
    requires Text.IsField(port) && Text.IsField(code)
    ensures forall i :: 0 <= i < 14 ==> Text.IsField(RecordFields(SampleRecord(port, code))[i])
  {
    SampleHeadFields();
    SampleAddressFields();
    SampleCountFields();
    SampleTailFields();
  }

  lemma SampleRecordParses(port: string, code: string)
    requires Text.IsField(port) && Text.IsField(code)
    ensures ParseLine(FormatRecord(SampleRecord(port, code))) == Ok(Flow(port, code))
  {
    SampleFields(port, code);
    ParseRecordLine(SampleRecord(port, code));
  }

  const ExampleTableRows: seq<seq<string>> := [["destination_port", "protocol", "tag"], ["25", "tcp", "email"]]

  /** The three lines of the example log: one flow tagged through the
      table, one with an unknown protocol code, one whose port the table does
      not list. `SampleRecordParses` gives such lines. */
  predicate ExampleLog(lines: seq<string>) {
    && |lines| == 3
    && ParseLine(lines[0]) == Ok(Flow("25", "6"))
    && ParseLine(lines[1]) == Ok(Flow("80", "99"))
    && ParseLine(lines[2]) == Ok(Flow("443", "6"))
  }

  lemma ExampleTable()
    ensures LoadLookupTable(ExampleTableRows) == map[Key("25", "tcp") := "email"]
  {
    assert Text.Lower("tcp") == "tcp";
    assert ExampleTableRows[1..] == [["25", "tcp", "email"]];
  }

  lemma ExampleFlows(lines: seq<string>)
    requires ExampleLog(lines)
    ensures ParseAll(lines) == Ok([Flow("25", "6"), Flow("80", "99"), Flow("443", "6")])
  {
    ParseAllOkIff(lines);
    var flows := ParseAll(lines).value;
    assert flows[0] == Flow("25", "6") && flows[1] == Flow("80", "99") && flows[2] == Flow("443", "6");
    assert flows == [flows[0], flows[1], flows[2]];
  }

  lemma ExampleCounts(flows: seq<Flow>, table: Table)
    requires flows == [Flow("25", "6"), Flow("80", "99"), Flow("443", "6")]
    requires table == map[Key("25", "tcp") := "email"]
    ensures FlowTags(flows, table) == ["email", Untagged, Untagged]
    ensures FlowKeys(flows) == [Key("25", "tcp"), Key("80", Protocols.Unknown), Key("443", "tcp")]
  {
    assert Protocols.Resolve("6") == "tcp" && Protocols.Resolve("99") == Protocols.Unknown;
  }

  /** The example log against a table mapping (25, tcp) to "email": one
      "email", two "Untagged", and three distinct (port, protocol) pairs in
      line order, the second under the protocol name "unknown". */
  lemma EndToEndExample(lines: seq<string>)
    requires ExampleLog(lines)
    ensures Analyze(ExampleTableRows, lines).Saved?
    ensures var a := Aggregate(lines, LoadLookupTable(ExampleTableRows)).value;
      && Get(a.tagCounts, "email", 0) == 1 && Get(a.tagCounts, Untagged, 0) == 2
      && a.tagCounts.keys == ["email", Untagged]
      && a.portProtocolCounts.keys == [Key("25", "tcp"), Key("80", Protocols.Unknown), Key("443", "tcp")]
  {
    ExampleTable();
    ExampleFlows(lines);
    ParseAllOkIff(lines);
    var table := LoadLookupTable(ExampleTableRows);
    var flows := ParseAll(lines).value;
    ExampleCounts(flows, table);
    CountOneThenTwo("email", Untagged);
    CountThreeDistinct(Key("25", "tcp"), Key("80", Protocols.Unknown), Key("443", "tcp"));
  }
}
