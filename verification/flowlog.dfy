/** Parsing of version-2 flow-log lines and aggregation into tag counts and
    (port, protocol) counts. */
module FlowLog {
  import opened Dicts
  import opened Text
  import opened Protocols
  import opened Lookup

  /** Why a parse aborts: a first field other than "2" (`parse_flow_logs`
      raises ValueError), or a line too short to hold a field it reads
      (indexing `fields` raises IndexError, which `parse_flow_logs` re-raises). */
  datatype ParseError = UnsupportedVersion(version: string) | MissingField

  datatype Result<T> = Ok(value: T) | Err(error: ParseError)

  /** The only flow-log version accepted. */
  const Version: string := "2"

  /** The tag of a flow whose (port, protocol) is not in the lookup table. */
  const Untagged: string := "Untagged"

  /** The two fields of a record the analysis consumes. */
  datatype Flow = Flow(dstPort: string, protocolCode: string)

  /** A full version-2 record, fields in their on-line order. */
  datatype FlowRecord = FlowRecord(
    version: string, accountId: string, interfaceId: string,
    srcAddr: string, dstAddr: string, dstPort: string, srcPort: string,
    protocol: string, packets: string, bytes: string,
    start: string, end: string, action: string, logStatus: string)

  function RecordFields(r: FlowRecord): seq<string> {
    [r.version, r.accountId, r.interfaceId, r.srcAddr, r.dstAddr, r.dstPort, r.srcPort,
     r.protocol, r.packets, r.bytes, r.start, r.end, r.action, r.logStatus]
  }

  /** A record written as one line: fields separated by spaces, ending in a newline. */
  function FormatRecord(r: FlowRecord): string {
    Join(RecordFields(r)) + "\n"
  }

  /** The checks applied to the fields of one line, in the order `parse_flow_logs`
      indexes them: field 0 (so an empty line fails), the version, then
      fields 5 and 7. Extra fields beyond the eighth are ignored. */
  function ParseFields(fields: seq<string>): (r: Result<Flow>)
    ensures r.Ok? <==> |fields| >= 8 && fields[0] == Version
    ensures r.Ok? ==> r.value.dstPort == fields[5] && r.value.protocolCode == fields[7]
    ensures r == Err(MissingField) <==> |fields| == 0 || (fields[0] == Version && |fields| < 8)
    ensures r.Err? && r.error.UnsupportedVersion? ==> |fields| > 0 && r.error.version == fields[0]
  {
    if |fields| == 0 then Err(MissingField)
    else if fields[0] != Version then Err(UnsupportedVersion(fields[0]))
    else if |fields| < 8 then Err(MissingField)
    else Ok(Flow(fields[5], fields[7]))
  }

  function ParseLine(line: string): Result<Flow> {
    ParseFields(Split(line))
  }

  /** A well-formed record line parses to its destination port and protocol
      code; with another version it is rejected, naming that version. */
  lemma {:induction false} ParseRecordLine(r: FlowRecord)
    requires forall i :: 0 <= i < 14 ==> IsField(RecordFields(r)[i])
    ensures r.version == Version ==> ParseLine(FormatRecord(r)) == Ok(Flow(r.dstPort, r.protocol))
    ensures r.version != Version ==> ParseLine(FormatRecord(r)) == Err(UnsupportedVersion(r.version))
  {
    SplitJoin(RecordFields(r));
  }

  /** The lookup key of a flow: its port and its resolved protocol name. */
  function FlowKey(f: Flow): (k: Key)
    ensures k.port == f.dstPort
    ensures k.protocol == Unknown <==> f.protocolCode !in ProtocolMap
  {
    Key(f.dstPort, Resolve(f.protocolCode))
  }

  /** The key of a flow names its destination port and the protocol that
      `protocol_map` gives its code, or "unknown" for a code the map lacks. */
  lemma FlowKeyResolves(f: Flow)
    ensures FlowKey(f).port == f.dstPort
    ensures f.protocolCode in ProtocolMap ==> FlowKey(f).protocol == ProtocolMap[f.protocolCode]
    ensures f.protocolCode !in ProtocolMap ==> FlowKey(f).protocol == Unknown
  {
  }

  /** `lookup_table.get(key, "Untagged")`. */
  function TagOf(table: Table, k: Key): (tag: string)
    ensures k in table ==> tag == table[k]
    ensures k !in table ==> tag == Untagged
  {
    if k in table then table[k] else Untagged
  }

  /** The two aggregates of a parse: counts per tag and per (port, protocol). */
  datatype Aggregates = Aggregates(tagCounts: Counter<string>, portProtocolCounts: Counter<Key>)

  /** The lines parsed in order; the first line that fails decides the error. */
  function ParseAll(lines: seq<string>): (r: Result<seq<Flow>>)
    ensures r.Ok? ==> |r.value| == |lines|
  {
    if |lines| == 0 then Ok([])
    else
      match ParseAll(lines[..|lines| - 1])
      case Err(e) => Err(e)
      case Ok(flows) =>
        match ParseLine(lines[|lines| - 1])
        case Err(e) => Err(e)
        case Ok(f) => Ok(flows + [f])
  }

  /** The tag each flow is counted under. */
  function FlowTags(flows: seq<Flow>, table: Table): (tags: seq<string>)
    ensures |tags| == |flows|
    ensures forall i :: 0 <= i < |flows| ==> tags[i] == TagOf(table, FlowKey(flows[i]))
  {
    seq(|flows|, i requires 0 <= i < |flows| => TagOf(table, FlowKey(flows[i])))
  }

  /** The (port, protocol) key each flow is counted under. */
  function FlowKeys(flows: seq<Flow>): (keys: seq<Key>)
    ensures |keys| == |flows|
    ensures forall i :: 0 <= i < |flows| ==> keys[i] == FlowKey(flows[i])
  {
    seq(|flows|, i requires 0 <= i < |flows| => FlowKey(flows[i]))
  }

  /** What `parse_flow_logs` computes: if every line parses, the tags and the
      (port, protocol) keys of the flows counted; otherwise the error of the
      first line that does not parse, and no aggregates at all. */
  function Aggregate(lines: seq<string>, table: Table): (r: Result<Aggregates>)
    ensures r.Ok? ==> r.value.tagCounts.Valid() && r.value.portProtocolCounts.Valid()
  {
    match ParseAll(lines)
    case Err(e) => Err(e)
    case Ok(flows) => Ok(Tally(flows, table))
  }

  /** The flows counted: by tag and by (port, protocol). */
  function Tally(flows: seq<Flow>, table: Table): (a: Aggregates)
    ensures a.tagCounts.Valid() && a.portProtocolCounts.Valid()
  {
    Aggregates(CountAll(FlowTags(flows, table)), CountAll(FlowKeys(flows)))
  }

  /** Bumping both counters for one parsed flow: the body of the `for line in logfile` loop of `parse_flow_logs`. */
  function Record(a: Aggregates, table: Table, f: Flow): Aggregates
    requires a.tagCounts.Valid() && a.portProtocolCounts.Valid()
  {
    var k := FlowKey(f);
    Aggregates(Inc(a.tagCounts, TagOf(table, k)), Inc(a.portProtocolCounts, k))
  }

  /** Once a prefix has failed, no further lines change the outcome. */
  lemma {:induction false} AbortPersists(prefix: seq<string>, more: seq<string>)
    requires ParseAll(prefix).Err?
    ensures ParseAll(prefix + more) == ParseAll(prefix)
    decreases |more|
  {
    if |more| > 0 {
      var init := prefix + more[..|more| - 1];
      AbortPersists(prefix, more[..|more| - 1]);
      assert (prefix + more)[..|prefix + more| - 1] == init;
    } else {
      assert prefix + more == prefix;
    }
  }

  /** Counting one more flow is bumping both counters once. */
  lemma {:induction false} RecordCounts(flows: seq<Flow>, table: Table, f: Flow)
    ensures Record(Tally(flows, table), table, f) == Tally(flows + [f], table)
  {
    var tags := FlowTags(flows + [f], table);
    var keys := FlowKeys(flows + [f]);
    assert tags[..|flows|] == FlowTags(flows, table);
    assert keys[..|flows|] == FlowKeys(flows);
  }

  /** One more line of the loop: a line that parses extends the parsed prefix. */
  lemma ParseStepOk(lines: seq<string>, i: nat, flows: seq<Flow>)
    requires i < |lines| && ParseAll(lines[..i]) == Ok(flows)
    requires ParseLine(lines[i]).Ok?
    ensures ParseAll(lines[..i + 1]) == Ok(flows + [ParseLine(lines[i]).value])
  {
    var p := lines[..i + 1];
    assert p[..|p| - 1] == lines[..i];
    assert p[|p| - 1] == lines[i];
  }

  /** One more line of the loop: a line that fails makes the whole parse fail
      with its error. */
  lemma {:induction false} ParseStepErr(lines: seq<string>, i: nat, flows: seq<Flow>)
    requires i < |lines| && ParseAll(lines[..i]) == Ok(flows)
    requires ParseLine(lines[i]).Err?
    ensures ParseAll(lines) == Err(ParseLine(lines[i]).error)
  {
    var p := lines[..i + 1];
    assert p[..|p| - 1] == lines[..i];
    assert p[|p| - 1] == lines[i];
    assert ParseAll(p) == Err(ParseLine(lines[i]).error);
    AbortPersists(p, lines[i + 1..]);
    assert p + lines[i + 1..] == lines;
  }

  /** The loop of `parse_flow_logs`: each line is split and checked, and its
      tag and (port, protocol) counters are bumped before the next line is
      read; the first failing line aborts with its error. */
  method ParseFlowLogs(lines: seq<string>, table: Table) returns (r: Result<Aggregates>)
    ensures r == Aggregate(lines, table)
  {
    var acc := Aggregates(Empty(), Empty());
    ghost var flows: seq<Flow> := [];
    var i := 0;
    while i < |lines|
      invariant 0 <= i <= |lines|
      invariant ParseAll(lines[..i]) == Ok(flows)
      invariant acc == Tally(flows, table)
    {
      var parsed := ParseLine(lines[i]);
      if parsed.Err? {
        ParseStepErr(lines, i, flows);
        return Err(parsed.error);
      }
      var f := parsed.value;
      ParseStepOk(lines, i, flows);
      RecordCounts(flows, table, f);
      acc := Record(acc, table, f);
      flows := flows + [f];
      i := i + 1;
    }
    assert lines[..i] == lines;
    r := Ok(acc);
  }

  /** The parse succeeds exactly when every line is a valid record, and then
      flow `i` is what line `i` parses to. */
  lemma {:induction false} ParseAllOkIff(lines: seq<string>)
    ensures ParseAll(lines).Ok? <==> forall i :: 0 <= i < |lines| ==> ParseLine(lines[i]).Ok?
    ensures ParseAll(lines).Ok? ==> forall i :: 0 <= i < |lines| ==> ParseAll(lines).value[i] == ParseLine(lines[i]).value
  {
    if |lines| > 0 {
      var init := lines[..|lines| - 1];
      ParseAllOkIff(init);
      assert forall i :: 0 <= i < |init| ==> init[i] == lines[i];
    }
  }

  /** The first bad line decides the error, however many valid lines precede
      it and whatever follows it; no aggregates are returned. */
  lemma AggregateFirstError(lines: seq<string>, table: Table, i: nat)
    requires i < |lines| && ParseLine(lines[i]).Err?
    requires forall j :: 0 <= j < i ==> ParseLine(lines[j]).Ok?
    ensures Aggregate(lines, table) == Err(ParseLine(lines[i]).error)
  {
    var prefix := lines[..i + 1];
    ParseAllOkIff(prefix[..i]);
    assert prefix[..i] == lines[..i];
    assert ParseAll(prefix) == Err(ParseLine(lines[i]).error);
    AbortPersists(prefix, lines[i + 1..]);
    assert prefix + lines[i + 1..] == lines;
  }

  /** What a successful parse returns, in terms of the lines alone: every line
      parsed; the count of each tag is the number of lines classified under
      it and the count of each (port, protocol) the number of lines carrying
      it; both counters list their keys in order of first appearance; and
      both sum to the number of lines. */
  lemma {:induction false} AggregateSpec(lines: seq<string>, table: Table)
    requires Aggregate(lines, table).Ok?
    ensures forall i :: 0 <= i < |lines| ==> ParseLine(lines[i]).Ok?
    ensures var a, flows := Aggregate(lines, table).value, ParseAll(lines).value;
      var tags, keys := FlowTags(flows, table), FlowKeys(flows);
      && (forall i :: 0 <= i < |lines| ==> flows[i] == ParseLine(lines[i]).value)
      && (forall t :: Get(a.tagCounts, t, 0) == multiset(tags)[t])
      && (forall k :: Get(a.portProtocolCounts, k, 0) == multiset(keys)[k])
      && (forall t :: t in a.tagCounts.entries <==> t in tags)
      && (forall k :: k in a.portProtocolCounts.entries <==> k in keys)
      && FirstSeenOrder(tags, a.tagCounts.keys)
      && FirstSeenOrder(keys, a.portProtocolCounts.keys)
      && Positive(a.tagCounts) && Positive(a.portProtocolCounts)
      && Total(a.tagCounts) == |lines| && Total(a.portProtocolCounts) == |lines|
  {
    ParseAllOkIff(lines);
    var flows := ParseAll(lines).value;
    assert Aggregate(lines, table).value == Tally(flows, table);
    CountAllSpec(FlowTags(flows, table));
    CountAllSpec(FlowKeys(flows));
  }

  /** The positions counted as "Untagged": flows whose key the table does not
      list, or lists with the tag "Untagged" itself. */
  lemma {:induction false} UntaggedPositions(flows: seq<Flow>, table: Table)
    ensures Occurrences(FlowTags(flows, table), Untagged) ==
      set i | 0 <= i < |flows| && (FlowKey(flows[i]) !in table || table[FlowKey(flows[i])] == Untagged)
  {
    var tags := FlowTags(flows, table);
    var unlisted := set i | 0 <= i < |flows| && (FlowKey(flows[i]) !in table || table[FlowKey(flows[i])] == Untagged);
    forall i
      ensures i in Occurrences(tags, Untagged) <==> i in unlisted
    {
      if 0 <= i < |flows| {
        assert tags[i] == TagOf(table, FlowKey(flows[i]));
      }
    }
  }

  /** The positions counted under another tag: flows whose key the table maps to it. */
  lemma {:induction false} TaggedPositions(flows: seq<Flow>, table: Table, t: string)
    requires t != Untagged
    ensures Occurrences(FlowTags(flows, table), t) ==
      set i | 0 <= i < |flows| && FlowKey(flows[i]) in table && table[FlowKey(flows[i])] == t
  {
    var tags := FlowTags(flows, table);
    var listed := set i | 0 <= i < |flows| && FlowKey(flows[i]) in table && table[FlowKey(flows[i])] == t;
    forall i
      ensures i in Occurrences(tags, t) <==> i in listed
    {
      if 0 <= i < |flows| {
        assert tags[i] == TagOf(table, FlowKey(flows[i]));
      }
    }
  }

  /** The "Untagged" count of a successful parse is the number of lines whose
      (port, resolved protocol) pair the table does not list, or lists with
      the tag "Untagged" itself. */
  lemma {:induction false} UntaggedCount(lines: seq<string>, table: Table)
    requires Aggregate(lines, table).Ok?
    ensures var a, flows := Aggregate(lines, table).value, ParseAll(lines).value;
      Get(a.tagCounts, Untagged, 0) ==
        |set i | 0 <= i < |flows| && (FlowKey(flows[i]) !in table || table[FlowKey(flows[i])] == Untagged)|
  {
    var flows := ParseAll(lines).value;
    var tags := FlowTags(flows, table);
    assert Aggregate(lines, table).value == Tally(flows, table);
    CountAllCounts(tags);
    OccurrencesCount(tags, Untagged);
    UntaggedPositions(flows, table);
  }

  /** The count of any other tag is the number of lines whose (port, resolved
      protocol) pair the table maps to that tag. */
  lemma {:induction false} TaggedCount(lines: seq<string>, table: Table, t: string)
    requires Aggregate(lines, table).Ok? && t != Untagged
    ensures var a, flows := Aggregate(lines, table).value, ParseAll(lines).value;
      Get(a.tagCounts, t, 0) == |set i | 0 <= i < |flows| && FlowKey(flows[i]) in table && table[FlowKey(flows[i])] == t|
  {
    var flows := ParseAll(lines).value;
    var tags := FlowTags(flows, table);
    assert Aggregate(lines, table).value == Tally(flows, table);
    CountAllCounts(tags);
    OccurrencesCount(tags, t);
    TaggedPositions(flows, table, t);
  }
}
