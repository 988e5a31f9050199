/** The two string operations the analyzer relies on: `str.split()` with no
    argument, which cuts a flow-log line into fields, and `str.lower()`, which
    normalises the protocol column of the lookup table. */
module Text {

  /** The characters `str.split()` treats as whitespace. */
  predicate IsSpace(c: char) {
    || c == ' ' || c == '\t' || c == '\n' || c == '\r'
    || c == '\U{000B}' || c == '\U{000C}'
    || ('\U{001C}' <= c <= '\U{001F}')
    || c == '\U{0085}' || c == '\U{00A0}' || c == '\U{1680}'
    || ('\U{2000}' <= c <= '\U{200A}')
    || c == '\U{2028}' || c == '\U{2029}' || c == '\U{202F}' || c == '\U{205F}' || c == '\U{3000}'
  }

  /** A field: a non-empty run of non-whitespace characters. */
  predicate IsField(w: string) {
    |w| > 0 && forall i :: 0 <= i < |w| ==> !IsSpace(w[i])
  }

  /** Length of the run of non-whitespace characters at the start of `s`. */
  function FieldLength(s: string): (n: nat)
    ensures n <= |s|
    ensures forall i :: 0 <= i < n ==> !IsSpace(s[i])
    ensures n < |s| ==> IsSpace(s[n])
  {
    if |s| == 0 || IsSpace(s[0]) then 0 else 1 + FieldLength(s[1..])
  }

  /** `s.split()`: the maximal runs of non-whitespace characters, in order;
      leading, trailing and repeated whitespace produce no empty fields. */
  function Split(s: string): (fields: seq<string>)
    ensures forall i :: 0 <= i < |fields| ==> IsField(fields[i])
    decreases |s|
  {
    if |s| == 0 then []
    else if IsSpace(s[0]) then Split(s[1..])
    else
      var n := FieldLength(s);
      [s[..n]] + Split(s[n..])
  }

  /** The fields written out separated by single spaces, as a flow-log line is. */
  function Join(fields: seq<string>): string {
    if |fields| == 0 then ""
    else if |fields| == 1 then fields[0]
    else fields[0] + " " + Join(fields[1..])
  }

  /** All the non-whitespace characters of `s`, in order. */
  function NonSpace(s: string): string {
    if |s| == 0 then ""
    else if IsSpace(s[0]) then NonSpace(s[1..])
    else [s[0]] + NonSpace(s[1..])
  }

  function Concat(ws: seq<string>): string {
    if |ws| == 0 then "" else ws[0] + Concat(ws[1..])
  }

  lemma {:induction false} FieldLengthOfField(w: string, t: string)
    requires IsField(w) || |w| == 0
    requires |t| == 0 || IsSpace(t[0])
    ensures FieldLength(w + t) == |w|
  {
    if |w| > 0 {
      assert (w + t)[1..] == w[1..] + t;
      FieldLengthOfField(w[1..], t);
    } else {
      assert w + t == t;
    }
  }

  /** A field followed by whitespace (or nothing) splits off as one field. */
  lemma {:induction false} SplitField(w: string, t: string)
    requires IsField(w)
    requires |t| == 0 || IsSpace(t[0])
    ensures Split(w + t) == [w] + Split(t)
  {
    FieldLengthOfField(w, t);
    assert (w + t)[..|w|] == w;
    assert (w + t)[|w|..] == t;
  }

  /** A field followed by a single space splits off as one field. */
  lemma SplitFieldSpace(w: string, r: string)
    requires IsField(w)
    ensures Split(w + " " + r) == [w] + Split(r)
  {
    var spaced := " " + r;
    assert w + " " + r == w + spaced;
    SplitField(w, spaced);
    assert spaced[1..] == r;
  }

  lemma {:induction false} SplitJoinThen(fields: seq<string>, t: string)
    requires forall i :: 0 <= i < |fields| ==> IsField(fields[i])
    requires |t| == 0 || IsSpace(t[0])
    ensures Split(Join(fields) + t) == fields + Split(t)
  {
    if |fields| == 0 {
      assert Join(fields) + t == t;
    } else if |fields| == 1 {
      SplitField(fields[0], t);
    } else {
      var head, tail := fields[0], fields[1..];
      var rest := Join(tail) + t;
      calc {
        Split(Join(fields) + t);
        { assert Join(fields) + t == head + " " + rest; }
        Split(head + " " + rest);
        { SplitFieldSpace(head, rest); }
        [head] + Split(rest);
        { SplitJoinThen(tail, t); }
        [head] + (tail + Split(t));
        { assert fields == [head] + tail; }
        fields + Split(t);
      }
    }
  }

  /** Splitting undoes joining with single spaces, with or without a line end. */
  lemma {:induction false} SplitJoin(fields: seq<string>)
    requires forall i :: 0 <= i < |fields| ==> IsField(fields[i])
    ensures Split(Join(fields)) == fields
    ensures Split(Join(fields) + "\n") == fields
  {
    SplitJoinThen(fields, "");
    assert Join(fields) + "" == Join(fields);
    SplitJoinThen(fields, "\n");
    assert Split("\n") == Split("\n"[1..]);
  }

  /** Text made only of whitespace. */
  predicate IsBlank(s: string) {
    forall i :: 0 <= i < |s| ==> IsSpace(s[i])
  }

  /** Each field followed by its own run of whitespace. */
  function Spaced(fields: seq<string>, gaps: seq<string>): string
    requires |gaps| == |fields|
  {
    if |fields| == 0 then "" else fields[0] + gaps[0] + Spaced(fields[1..], gaps[1..])
  }

  /** Whitespace in front of the text produces no fields. */
  lemma {:induction false} SplitBlank(b: string, r: string)
    requires IsBlank(b)
    ensures Split(b + r) == Split(r)
    decreases |b|
  {
    if |b| > 0 {
      assert (b + r)[1..] == b[1..] + r;
      SplitBlank(b[1..], r);
    } else {
      assert b + r == r;
    }
  }

  lemma {:induction false} SplitSpacedFields(fields: seq<string>, gaps: seq<string>)
    requires |gaps| == |fields|
    requires forall i :: 0 <= i < |fields| ==> IsField(fields[i]) && IsBlank(gaps[i])
    requires forall i :: 0 <= i < |fields| - 1 ==> |gaps[i]| > 0
    ensures Split(Spaced(fields, gaps)) == fields
  {
    if |fields| > 0 {
      var rest := Spaced(fields[1..], gaps[1..]);
      var t := gaps[0] + rest;
      assert Spaced(fields, gaps) == fields[0] + t;
      assert |t| == 0 || IsSpace(t[0]);
      SplitField(fields[0], t);
      SplitBlank(gaps[0], rest);
      SplitSpacedFields(fields[1..], gaps[1..]);
      assert fields == [fields[0]] + fields[1..];
    }
  }

  /** Splitting cuts exactly at whitespace runs: fields written with any
      non-empty runs of whitespace between them, and any whitespace before
      the first and after the last, split back to those fields. */
  lemma SplitSpaced(lead: string, fields: seq<string>, gaps: seq<string>)
    requires IsBlank(lead) && |gaps| == |fields|
    requires forall i :: 0 <= i < |fields| ==> IsField(fields[i]) && IsBlank(gaps[i])
    requires forall i :: 0 <= i < |fields| - 1 ==> |gaps[i]| > 0
    ensures Split(lead + Spaced(fields, gaps)) == fields
  {
    SplitBlank(lead, Spaced(fields, gaps));
    SplitSpacedFields(fields, gaps);
  }

  lemma {:induction false} NonSpaceAppend(a: string, b: string)
    ensures NonSpace(a + b) == NonSpace(a) + NonSpace(b)
  {
    if |a| == 0 {
      assert a + b == b;
    } else {
      assert (a + b)[1..] == a[1..] + b;
      NonSpaceAppend(a[1..], b);
    }
  }

  lemma {:induction false} NonSpaceOfField(w: string)
    requires forall i :: 0 <= i < |w| ==> !IsSpace(w[i])
    ensures NonSpace(w) == w
  {
    if |w| > 0 {
      NonSpaceOfField(w[1..]);
      assert w == [w[0]] + w[1..];
    }
  }

  /** Splitting loses exactly the whitespace: the fields put back together
      are the non-whitespace characters of the line. */
  lemma {:induction false} SplitKeepsNonSpace(s: string)
    ensures Concat(Split(s)) == NonSpace(s)
    decreases |s|
  {
    if |s| > 0 {
      if IsSpace(s[0]) {
        SplitKeepsNonSpace(s[1..]);
      } else {
        var n := FieldLength(s);
        SplitKeepsNonSpace(s[n..]);
        assert s == s[..n] + s[n..];
        NonSpaceAppend(s[..n], s[n..]);
        NonSpaceOfField(s[..n]);
        assert ([s[..n]] + Split(s[n..]))[1..] == Split(s[n..]);
      }
    }
  }

  predicate IsUpper(c: char) {
    'A' <= c <= 'Z'
  }

  /** No ASCII capital letters. */
  predicate IsLowerCase(s: string) {
    forall i :: 0 <= i < |s| ==> !IsUpper(s[i])
  }

  function LowerChar(c: char): char {
    if IsUpper(c) then (c as int + 32) as char else c
  }

  /** `s.lower()`, restricted to ASCII letters. */
  function Lower(s: string): (r: string)
    ensures |r| == |s|
    ensures IsLowerCase(r)
    ensures forall i :: 0 <= i < |s| && !IsUpper(s[i]) ==> r[i] == s[i]
    ensures forall i :: 0 <= i < |s| && IsUpper(s[i]) ==> r[i] as int == s[i] as int + 32
  {
    if |s| == 0 then "" else [LowerChar(s[0])] + Lower(s[1..])
  }

  /** Lowering leaves lower-case text alone, so it is idempotent. */
  lemma LowerFixesLowerCase(s: string)
    ensures IsLowerCase(s) ==> Lower(s) == s
    ensures Lower(Lower(s)) == Lower(s)
  {
  }
}
