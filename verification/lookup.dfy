/** Construction of the lookup table from the rows of a CSV file whose first
    row is the header `destination_port,protocol,tag`. */
module Lookup {
  import opened Text

  /** A (destination port, protocol name) pair: the lookup-table key and also
      the key of the port/protocol counts. */
  datatype Key = Key(port: string, protocol: string)

  type Table = map<Key, string>

  /** A row the `for dstport, protocol, tag in reader` loop can unpack. */
  predicate IsEntry(row: seq<string>) {
    |row| == 3
  }

  /** The key an entry row is stored under: the protocol is lower-cased. */
  function RowKey(row: seq<string>): Key
    requires IsEntry(row)
  {
    Key(row[0], Lower(row[1]))
  }

  /** How many rows, from the start of `rows`, the loop unpacks before it
      meets a row of another arity (or the end). */
  function Accepted(rows: seq<seq<string>>): (n: nat)
    ensures n <= |rows|
    ensures forall i :: 0 <= i < n ==> IsEntry(rows[i])
    ensures n < |rows| ==> !IsEntry(rows[n])
  {
    if |rows| == 0 || !IsEntry(rows[0]) then 0 else 1 + Accepted(rows[1..])
  }

  /** Row `i` is the last of the first `n` rows that stores key `RowKey(rows[i])`. */
  predicate IsLastFor(rows: seq<seq<string>>, n: nat, i: nat)
    requires i < n <= |rows|
    requires forall j :: 0 <= j < n ==> IsEntry(rows[j])
  {
    forall j :: i < j < n ==> RowKey(rows[j]) != RowKey(rows[i])
  }

  /** The loop body run on the rows after the header: each entry row is stored
      under its key, overwriting an earlier value, and the first row that does
      not unpack ends the loop (its ValueError is swallowed) with what has been
      stored so far. */
  function StoreRows(table: Table, rows: seq<seq<string>>): (r: Table)
    ensures forall k :: k in r ==> k in table || exists i :: 0 <= i < Accepted(rows) && RowKey(rows[i]) == k
    decreases |rows|
  {
    if |rows| == 0 || !IsEntry(rows[0]) then table
    else StoreRows(table[RowKey(rows[0]) := rows[0][2]], rows[1..])
  }

  /** `load_lookup_table`, on the rows of the file. An empty file makes
      `next(reader)` fail, which is swallowed too, giving the empty table.
      Every stored protocol is lower-case. */
  function LoadLookupTable(rows: seq<seq<string>>): (table: Table)
    ensures |rows| <= 1 ==> table == map[]
    ensures forall k :: k in table ==> IsLowerCase(k.protocol)
  {
    if |rows| == 0 then map[] else StoreRows(map[], rows[1..])
  }

  /** A key that no unpacked row stores keeps the value it had before the loop. */
  lemma {:induction false} StoreRowsUntouched(table: Table, rows: seq<seq<string>>, k: Key)
    requires k in table
    requires forall j :: 0 <= j < Accepted(rows) ==> RowKey(rows[j]) != k
    ensures var r := StoreRows(table, rows); k in r && r[k] == table[k]
    decreases |rows|
  {
    if |rows| > 0 && IsEntry(rows[0]) {
      var tail := rows[1..];
      assert RowKey(rows[0]) != k;
      forall j | 0 <= j < Accepted(tail)
        ensures RowKey(tail[j]) != k
      {
        assert tail[j] == rows[j + 1];
      }
      StoreRowsUntouched(table[RowKey(rows[0]) := rows[0][2]], tail, k);
    }
  }

  /** The key of the last unpacked row that stores it holds that row's tag. */
  lemma {:induction false} StoreRowsLast(table: Table, rows: seq<seq<string>>, i: nat)
    requires i < Accepted(rows) && IsLastFor(rows, Accepted(rows), i)
    ensures var r := StoreRows(table, rows); RowKey(rows[i]) in r && r[RowKey(rows[i])] == rows[i][2]
    decreases |rows|
  {
    var k0 := RowKey(rows[0]);
    var t := table[k0 := rows[0][2]];
    var tail := rows[1..];
    var n := Accepted(rows);
    assert Accepted(tail) == n - 1;
    assert StoreRows(table, rows) == StoreRows(t, tail);
    if i == 0 {
      forall j | 0 <= j < n - 1
        ensures RowKey(tail[j]) != k0
      {
        assert tail[j] == rows[j + 1];
      }
      StoreRowsUntouched(t, tail, k0);
    } else {
      assert tail[i - 1] == rows[i];
      forall j | i - 1 < j < n - 1
        ensures RowKey(tail[j]) != RowKey(tail[i - 1])
      {
        assert tail[j] == rows[j + 1];
      }
      assert IsLastFor(tail, n - 1, i - 1);
      StoreRowsLast(t, tail, i - 1);
    }
  }

  /** What a load returns: the header is skipped; every key some unpacked row
      stores is present with the tag of the LAST such row; no other key is
      present. */
  lemma LoadLastWriteWins(rows: seq<seq<string>>)
    requires |rows| > 0
    ensures var table, body := LoadLookupTable(rows), rows[1..];
      var n := Accepted(body);
      && (forall i :: 0 <= i < n && IsLastFor(body, n, i) ==> RowKey(body[i]) in table && table[RowKey(body[i])] == body[i][2])
      && (forall k :: k in table ==> exists i :: 0 <= i < n && RowKey(body[i]) == k)
  {
    var body := rows[1..];
    var n := Accepted(body);
    forall i | 0 <= i < n && IsLastFor(body, n, i)
      ensures RowKey(body[i]) in LoadLookupTable(rows)
      ensures LoadLookupTable(rows)[RowKey(body[i])] == body[i][2]
    {
      StoreRowsLast(map[], body, i);
    }
  }

  lemma {:induction false} StoreRowsStops(table: Table, good: seq<seq<string>>, bad: seq<string>, rest: seq<seq<string>>)
    requires forall i :: 0 <= i < |good| ==> IsEntry(good[i])
    requires !IsEntry(bad)
    ensures StoreRows(table, good + [bad] + rest) == StoreRows(table, good)
    decreases |good|
  {
    if |good| == 0 {
      assert (good + [bad] + rest)[0] == bad;
    } else {
      assert (good + [bad] + rest)[1..] == good[1..] + [bad] + rest;
      StoreRowsStops(table[RowKey(good[0]) := good[0][2]], good[1..], bad, rest);
    }
  }

  /** A row that does not have exactly three fields ends the load: the result
      is exactly the table built from the rows before it, whatever follows. */
  lemma LoadStopsAtBadRow(header: seq<string>, good: seq<seq<string>>, bad: seq<string>, rest: seq<seq<string>>)
    requires forall i :: 0 <= i < |good| ==> IsEntry(good[i])
    requires !IsEntry(bad)
    ensures LoadLookupTable([header] + good + [bad] + rest) == LoadLookupTable([header] + good)
  {
    assert ([header] + good + [bad] + rest)[1..] == good + [bad] + rest;
    assert ([header] + good)[1..] == good;
    StoreRowsStops(map[], good, bad, rest);
  }

  /** Loading a table with the single entry (80, TCP, web): the protocol is
      matched after lower-casing, and a different port misses. */
  lemma LoadExample()
    ensures var table := LoadLookupTable([["destination_port", "protocol", "tag"], ["80", "TCP", "web"]]);
      && Key("80", "tcp") in table && table[Key("80", "tcp")] == "web"
      && Key("81", "tcp") !in table
  {
    var rows := [["destination_port", "protocol", "tag"], ["80", "TCP", "web"]];
    assert Lower("TCP") == "tcp";
    assert rows[1..] == [["80", "TCP", "web"]];
  }
}
