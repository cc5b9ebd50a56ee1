// The two-column CSV codec of the character sheet: escapeCsv on the way out,
// the quote-aware two-column line splitter on the way in.

module CsvCodec {
  import opened Options
  import opened JavaText

  // ---------------------------------------------------------------------------
  // Encoding
  // ---------------------------------------------------------------------------

  /** escapeCsv quotes a value exactly when it holds one of these characters. */
  predicate NeedsQuotes(s: string) {
    ',' in s || '"' in s || '\n' in s || '\r' in s
  }

  /** s.replace("\"", "\"\""): every quote doubled. */
  function DoubleQuotes(s: string): (r: string)
    ensures |r| == |s| + Count(s, '"')
    ensures '"' !in s ==> r == s
    ensures |s| == 1 ==> r == (if s[0] == '"' then "\"\"" else s)
  {
    if s == [] then []
    else (if s[0] == '"' then "\"\"" else [s[0]]) + DoubleQuotes(s[1..])
  }

  /** Doubling works char by char: the doubled text of a + b is that of a followed by that of b. */
  lemma {:induction false} DoubleQuotesAppend(a: string, b: string)
    ensures DoubleQuotes(a + b) == DoubleQuotes(a) + DoubleQuotes(b)
  {
    if a != [] {
      assert (a + b)[0] == a[0];
      assert (a + b)[1..] == a[1..] + b;
      DoubleQuotesAppend(a[1..], b);
      var h: string := if a[0] == '"' then "\"\"" else [a[0]];
      assert h + (DoubleQuotes(a[1..]) + DoubleQuotes(b)) == h + DoubleQuotes(a[1..]) + DoubleQuotes(b);
    } else {
      assert a + b == b;
    }
  }

  /** s.replace("\"\"", "\""): pairs found from left to right, without overlap, become one quote. */
  function CollapseQuotes(s: string): (r: string)
    ensures |r| <= |s|
    ensures r == [] <==> s == []
  {
    if |s| >= 2 && s[0] == '"' && s[1] == '"' then "\"" + CollapseQuotes(s[2..])
    else if s == [] then []
    else [s[0]] + CollapseQuotes(s[1..])
  }

  /** Collapsing undoes doubling. */
  lemma {:induction false} CollapseDouble(s: string)
    ensures CollapseQuotes(DoubleQuotes(s)) == s
  {
    if s != [] {
      CollapseDouble(s[1..]);
      var rest := DoubleQuotes(s[1..]);
      if s[0] == '"' {
        assert DoubleQuotes(s) == "\"\"" + rest;
        assert ("\"\"" + rest)[2..] == rest;
      } else {
        assert DoubleQuotes(s) == [s[0]] + rest;
        assert ([s[0]] + rest)[1..] == rest;
      }
    }
  }

  /** The parser's test for a column wrapped in quotes (lines 260 and 263). */
  predicate IsQuoted(s: string) {
    |s| >= 2 && s[0] == '"' && s[|s| - 1] == '"'
  }

  /** The parser's post-processing of a trimmed column: strip one pair of wrapping quotes and collapse pairs. */
  function Unquote(s: string): string {
    if IsQuoted(s) then CollapseQuotes(s[1..|s| - 1]) else s
  }

  /**
   * escapeCsv. A null string becomes empty; every other string is wrapped in
   * quotes exactly when it holds a comma, a quote or a line break, and its
   * quotes are doubled.
   */
  function EscapeCsv(s: Option<string>): (r: string)
    ensures s.None? ==> r == ""
    ensures s.Some? ==> (IsQuoted(r) <==> NeedsQuotes(s.value))
    ensures s.Some? && !NeedsQuotes(s.value) ==> r == s.value
    ensures s.Some? && NeedsQuotes(s.value) ==> r == "\"" + DoubleQuotes(s.value) + "\""
  {
    match s
    case None => ""
    case Some(text) =>
      var v := DoubleQuotes(text);
      if NeedsQuotes(text) then "\"" + v + "\"" else v
  }

  /** Stripping the wrapping quotes and collapsing pairs gives back what escapeCsv was given. */
  lemma UnquoteEscape(s: string)
    ensures Unquote(EscapeCsv(Some(s))) == s
  {
    CollapseDouble(s);
    var v := DoubleQuotes(s);
    if NeedsQuotes(s) {
      var r := "\"" + v + "\"";
      assert r[1..|r| - 1] == v;
    }
  }

  // ---------------------------------------------------------------------------
  // Decoding: what the scanner of parseCsvLineTwoColumns computes
  // ---------------------------------------------------------------------------

  /**
   * The characters the scanner appends to one column while it reads line[i..j]
   * starting in quote state q. A quote toggles the state and is dropped, except
   * that a quote which opens a quoted run and is followed by another quote
   * yields one literal quote and leaves the state "in quotes".
   */
  function Decode(line: string, i: nat, j: nat, q: bool): string
    requires i <= j <= |line|
    decreases j - i
  {
    if i == j then []
    else if line[i] == '"' then
      if !q && i + 1 < j && line[i + 1] == '"' then "\"" + Decode(line, i + 2, j, true)
      else Decode(line, i + 1, j, !q)
    else [line[i]] + Decode(line, i + 1, j, q)
  }

  /**
   * The scanner's quote state when it arrives at index k, having started at i
   * in state q: a quote toggles the state, except that a quote opening a run
   * and followed by another quote leaves the state "in quotes" and makes the
   * scanner step over the second one, whose index it never arrives at (None).
   */
  function StateAt(line: string, i: nat, q: bool, k: nat): Option<bool>
    requires i <= k <= |line|
    decreases k - i
  {
    if i == k then Some(q)
    else if line[i] == '"' then
      if !q && i + 1 < |line| && line[i + 1] == '"' then
        if k == i + 1 then None else StateAt(line, i + 2, true, k)
      else StateAt(line, i + 1, !q, k)
    else StateAt(line, i + 1, q, k)
  }

  /** The index of the first comma outside quotes, reading line from i in quote state q. */
  function SplitFrom(line: string, i: nat, q: bool): (p: Option<nat>)
    requires i <= |line|
    ensures p.Some? ==> i <= p.value < |line| && line[p.value] == ','
    decreases |line| - i
  {
    if i == |line| then None
    else if line[i] == '"' then
      if !q && i + 1 < |line| && line[i + 1] == '"' then SplitFrom(line, i + 2, true)
      else SplitFrom(line, i + 1, !q)
    else if line[i] == ',' && !q then Some(i)
    else SplitFrom(line, i + 1, q)
  }

  /**
   * The split point is the first comma outside quotes: a comma the scanner
   * reaches outside quotes, with every earlier comma inside quotes; there is
   * none exactly when every comma from i on is inside quotes.
   */
  lemma {:induction false} SplitFromIsFirstUnquotedComma(line: string, i: nat, q: bool)
    requires i <= |line|
    ensures SplitFrom(line, i, q).Some? ==> StateAt(line, i, q, SplitFrom(line, i, q).value) == Some(false)
    ensures SplitFrom(line, i, q).Some? ==>
      forall k :: i <= k < SplitFrom(line, i, q).value && line[k] == ',' ==> StateAt(line, i, q, k) == Some(true)
    ensures SplitFrom(line, i, q).None? ==>
      forall k :: i <= k < |line| && line[k] == ',' ==> StateAt(line, i, q, k) == Some(true)
    decreases |line| - i
  {
    if i < |line| {
      if line[i] == '"' {
        if !q && i + 1 < |line| && line[i + 1] == '"' {
          SplitFromIsFirstUnquotedComma(line, i + 2, true);
        } else {
          SplitFromIsFirstUnquotedComma(line, i + 1, !q);
        }
      } else if !(line[i] == ',' && !q) {
        SplitFromIsFirstUnquotedComma(line, i + 1, q);
      }
    }
  }

  /** The comma at which the line is split into key and value, if any. */
  function SplitPoint(line: string): Option<nat> {
    SplitFrom(line, 0, false)
  }

  /**
   * The two raw columns: the line splits only at its first comma outside
   * quotes, and every later character, commas included, belongs to the value.
   */
  function Columns(line: string): (string, string) {
    match SplitPoint(line)
    case None => (Decode(line, 0, |line|, false), "")
    case Some(p) => (Decode(line, 0, p, false), Decode(line, p + 1, |line|, false))
  }

  /** parseCsvLineTwoColumns: None where the Java code returns null. */
  function ParseLine(line: string): Option<(string, string)> {
    var cols := Columns(line);
    var k := Unquote(Trim(cols.0));
    var v := Unquote(Trim(cols.1));
    if k == [] then None else Some((k, v))
  }

  // ---------------------------------------------------------------------------
  // The scanner itself
  // ---------------------------------------------------------------------------

  /** The scanner's loop written as a recursion over its state (second == "cur is b"). */
  ghost function Scan(line: string, i: nat, q: bool, second: bool, a: string, b: string): (string, string)
    requires i <= |line|
    decreases |line| - i
  {
    if i == |line| then (a, b)
    else if line[i] == '"' then
      if !q && i + 1 < |line| && line[i + 1] == '"' then
        if second then Scan(line, i + 2, true, second, a, b + "\"")
        else Scan(line, i + 2, true, second, a + "\"", b)
      else Scan(line, i + 1, !q, second, a, b)
    else if line[i] == ',' && !q && !second then Scan(line, i + 1, q, true, a, b)
    else if second then Scan(line, i + 1, q, second, a, b + [line[i]])
    else Scan(line, i + 1, q, second, a + [line[i]], b)
  }

  lemma {:induction false} ScanSecond(line: string, i: nat, q: bool, a: string, b: string)
    requires i <= |line|
    ensures Scan(line, i, q, true, a, b) == (a, b + Decode(line, i, |line|, q))
    decreases |line| - i
  {
    if i == |line| {
      assert b + [] == b;
    } else {
      if line[i] == '"' {
        if !q && i + 1 < |line| && line[i + 1] == '"' {
          ScanSecond(line, i + 2, true, a, b + "\"");
          assert b + "\"" + Decode(line, i + 2, |line|, true) == b + ("\"" + Decode(line, i + 2, |line|, true));
        } else {
          ScanSecond(line, i + 1, !q, a, b);
        }
      } else {
        ScanSecond(line, i + 1, q, a, b + [line[i]]);
        assert b + [line[i]] + Decode(line, i + 1, |line|, q) == b + ([line[i]] + Decode(line, i + 1, |line|, q));
      }
    }
  }

  /** What the scanner yields from position i while still in the key column. */
  ghost function FirstColumnsFrom(line: string, i: nat, q: bool, a: string): (string, string)
    requires i <= |line|
  {
    match SplitFrom(line, i, q)
    case None => (a + Decode(line, i, |line|, q), "")
    case Some(p) => (a + Decode(line, i, p, q), Decode(line, p + 1, |line|, false))
  }

  lemma {:induction false} ScanFirst(line: string, i: nat, q: bool, a: string)
    requires i <= |line|
    ensures Scan(line, i, q, false, a, "") == FirstColumnsFrom(line, i, q, a)
    decreases |line| - i
  {
    if i == |line| {
      assert a + [] == a;
    } else if line[i] == '"' {
      if !q && i + 1 < |line| && line[i + 1] == '"' {
        ScanFirst(line, i + 2, true, a + "\"");
        FirstQuotePair(line, i, a);
      } else {
        ScanFirst(line, i + 1, !q, a);
        FirstQuote(line, i, q, a);
      }
    } else if line[i] == ',' && !q {
      ScanSecond(line, i + 1, q, a, "");
      FirstComma(line, i, a);
    } else {
      ScanFirst(line, i + 1, q, a + [line[i]]);
      FirstPlain(line, i, q, a);
    }
  }

  lemma FirstQuotePair(line: string, i: nat, a: string)
    requires i + 1 < |line| && line[i] == '"' && line[i + 1] == '"'
    ensures FirstColumnsFrom(line, i, false, a) == FirstColumnsFrom(line, i + 2, true, a + "\"")
  {
    var p := SplitFrom(line, i + 2, true);
    assert SplitFrom(line, i, false) == p;
    if p.Some? {
      var d := Decode(line, i + 2, p.value, true);
      assert Decode(line, i, p.value, false) == "\"" + d;
      assert a + "\"" + d == a + ("\"" + d);
    } else {
      var d := Decode(line, i + 2, |line|, true);
      assert a + "\"" + d == a + ("\"" + d);
    }
  }

  lemma FirstQuote(line: string, i: nat, q: bool, a: string)
    requires i < |line| && line[i] == '"' && !(!q && i + 1 < |line| && line[i + 1] == '"')
    ensures FirstColumnsFrom(line, i, q, a) == FirstColumnsFrom(line, i + 1, !q, a)
  {
    var p := SplitFrom(line, i + 1, !q);
    assert SplitFrom(line, i, q) == p;
  }

  lemma FirstComma(line: string, i: nat, a: string)
    requires i < |line| && line[i] == ','
    ensures FirstColumnsFrom(line, i, false, a) == (a, "" + Decode(line, i + 1, |line|, false))
  {
    assert SplitFrom(line, i, false) == Some(i);
    assert a + [] == a;
    assert "" + Decode(line, i + 1, |line|, false) == Decode(line, i + 1, |line|, false);
  }

  lemma FirstPlain(line: string, i: nat, q: bool, a: string)
    requires i < |line| && line[i] != '"' && !(line[i] == ',' && !q)
    ensures FirstColumnsFrom(line, i, q, a) == FirstColumnsFrom(line, i + 1, q, a + [line[i]])
  {
    var p := SplitFrom(line, i + 1, q);
    assert SplitFrom(line, i, q) == p;
    var d := if p.Some? then Decode(line, i + 1, p.value, q) else Decode(line, i + 1, |line|, q);
    assert a + [line[i]] + d == a + ([line[i]] + d);
  }

  lemma ScanColumns(line: string)
    ensures Scan(line, 0, false, false, "", "") == Columns(line)
  {
    ScanFirst(line, 0, false, "");
    var p := SplitPoint(line);
    var d := if p.Some? then Decode(line, 0, p.value, false) else Decode(line, 0, |line|, false);
    assert [] + d == d;
  }

  /**
   * parseCsvLineTwoColumns: a character loop with an inQuotes flag and two
   * builders, then trimming and unquoting of both columns; null (None) when
   * the key comes out empty. It accepts every line, an unterminated quoted
   * run included.
   */
  method ParseCsvLineTwoColumns(line: string) returns (r: Option<(string, string)>)
    ensures r == ParseLine(line)
  {
    var inQuotes := false;
    var a, b := "", "";
    var second := false;
    var i := 0;
    while i < |line|
      invariant 0 <= i <= |line|
      invariant Scan(line, i, inQuotes, second, a, b) == Scan(line, 0, false, false, "", "")
    {
      var c := line[i];
      if c == '"' {
        inQuotes := !inQuotes;
        if inQuotes && i + 1 < |line| && line[i + 1] == '"' {
          if second { b := b + "\""; } else { a := a + "\""; }
          i := i + 1;
          inQuotes := true;
        }
      } else if c == ',' && !inQuotes && !second {
        second := true;
      } else {
        if second { b := b + [c]; } else { a := a + [c]; }
      }
      i := i + 1;
    }
    ScanColumns(line);
    var k := TrimColumn(a);
    var v := TrimColumn(b);
    if k == [] {
      return None;
    }
    return Some((k, v));
  }

  /** The column post-processing: trim, then strip one pair of wrapping quotes and collapse pairs. */
  method TrimColumn(column: string) returns (t: string)
    ensures t == Unquote(Trim(column))
  {
    t := Trim(column);
    if IsQuoted(t) {
      t := CollapseQuotes(t[1..|t| - 1]);
    }
  }

  // ---------------------------------------------------------------------------
  // Properties of the parser
  // ---------------------------------------------------------------------------

  /** The parser returns null exactly when the trimmed key column is empty or is a bare pair of quotes. */
  lemma ParseLineNull(line: string)
    ensures ParseLine(line).None? <==> (Trim(Columns(line).0) == [] || Trim(Columns(line).0) == "\"\"")
  {
    UnquoteEmpty(Trim(Columns(line).0));
  }

  /** Unquoting gives the empty string only for the empty string and a bare pair of quotes. */
  lemma UnquoteEmpty(k: string)
    ensures Unquote(k) == [] <==> (k == [] || k == "\"\"")
  {
    if IsQuoted(k) && |k| == 2 {
      assert k == "\"\"";
    }
  }

  function WithoutQuotes(s: string): string {
    if s == [] then [] else (if s[0] == '"' then [] else [s[0]]) + WithoutQuotes(s[1..])
  }

  lemma {:induction false} CountAppend(s: string, t: string, c: char)
    ensures Count(s + t, c) == Count(s, c) + Count(t, c)
  {
    if s == [] {
      assert s + t == t;
    } else {
      assert (s + t)[0] == s[0];
      assert (s + t)[1..] == s[1..] + t;
      CountAppend(s[1..], t, c);
    }
  }

  lemma {:induction false} CountWithoutQuotes(s: string)
    ensures Count(WithoutQuotes(s), ',') == Count(s, ',')
  {
    if s != [] {
      CountWithoutQuotes(s[1..]);
      CountAppend(if s[0] == '"' then [] else [s[0]], WithoutQuotes(s[1..]), ',');
    }
  }

  lemma {:induction false} WithoutQuotesAppend(s: string, t: string)
    ensures WithoutQuotes(s + t) == WithoutQuotes(s) + WithoutQuotes(t)
  {
    if s == [] {
      assert s + t == t;
    } else {
      assert (s + t)[0] == s[0];
      assert (s + t)[1..] == s[1..] + t;
      WithoutQuotesAppend(s[1..], t);
      var h := if s[0] == '"' then [] else [s[0]];
      assert h + (WithoutQuotes(s[1..]) + WithoutQuotes(t)) == h + WithoutQuotes(s[1..]) + WithoutQuotes(t);
    }
  }

  /** Decoding drops quote characters and nothing else. */
  lemma {:induction false} DecodeKeepsAllButQuotes(line: string, i: nat, j: nat, q: bool)
    requires i <= j <= |line|
    ensures WithoutQuotes(Decode(line, i, j, q)) == WithoutQuotes(line[i..j])
    decreases j - i
  {
    if i < j {
      assert line[i..j] == [line[i]] + line[i + 1..j];
      WithoutQuotesAppend([line[i]], line[i + 1..j]);
      if line[i] == '"' {
        if !q && i + 1 < j && line[i + 1] == '"' {
          DecodeKeepsAllButQuotes(line, i + 2, j, true);
          assert line[i + 1..j] == [line[i + 1]] + line[i + 2..j];
          WithoutQuotesAppend([line[i + 1]], line[i + 2..j]);
          WithoutQuotesAppend("\"", Decode(line, i + 2, j, true));
        } else {
          DecodeKeepsAllButQuotes(line, i + 1, j, !q);
        }
      } else {
        DecodeKeepsAllButQuotes(line, i + 1, j, q);
        WithoutQuotesAppend([line[i]], Decode(line, i + 1, j, q));
      }
    }
  }

  /**
   * Only the first comma outside quotes splits: the value column keeps every
   * comma that follows it, the key column every comma before it, and a line
   * without such a comma has an empty value column.
   */
  lemma ColumnsKeepCommas(line: string)
    ensures SplitPoint(line).None? ==> Columns(line).1 == []
    ensures SplitPoint(line).Some? ==>
      var p := SplitPoint(line).value;
      Count(Columns(line).0, ',') == Count(line[..p], ',') &&
      Count(Columns(line).1, ',') == Count(line[p + 1..], ',')
  {
    if SplitPoint(line).Some? {
      var p := SplitPoint(line).value;
      DecodeKeepsAllButQuotes(line, 0, p, false);
      DecodeKeepsAllButQuotes(line, p + 1, |line|, false);
      assert line[0..p] == line[..p];
      assert line[p + 1..|line|] == line[p + 1..];
      CountWithoutQuotes(Decode(line, 0, p, false));
      CountWithoutQuotes(line[..p]);
      CountWithoutQuotes(Decode(line, p + 1, |line|, false));
      CountWithoutQuotes(line[p + 1..]);
    }
  }

  /** A line with no comma at all has an empty value. */
  lemma NoCommaNoValue(line: string)
    requires ',' !in line
    ensures ParseLine(line).Some? ==> ParseLine(line).value.1 == []
  {
    assert forall k :: 0 <= k < |line| ==> line[k] != ',';
    assert SplitPoint(line).None?;
    assert Columns(line).1 == [];
    assert Trim([]) == [];
  }

  // ---------------------------------------------------------------------------
  // The restricted round trip
  // ---------------------------------------------------------------------------

  /** A field that survives encoding and decoding of one line unchanged. */
  predicate SafeField(s: string) {
    '"' !in s && '\n' !in s && '\r' !in s && HasTrimmedEdges(s)
  }

  lemma {:induction false} DecodePlain(line: string, i: nat, j: nat, q: bool)
    requires i <= j <= |line|
    requires forall k :: i <= k < j ==> line[k] != '"'
    ensures Decode(line, i, j, q) == line[i..j]
    decreases j - i
  {
    if i < j {
      DecodePlain(line, i + 1, j, q);
      assert line[i..j] == [line[i]] + line[i + 1..j];
    }
  }

  lemma {:induction false} SplitFromPlain(line: string, i: nat, p: nat)
    requires i <= p < |line| && line[p] == ','
    requires forall k :: i <= k < p ==> line[k] != '"' && line[k] != ','
    ensures SplitFrom(line, i, false) == Some(p)
    decreases p - i
  {
    if i < p {
      SplitFromPlain(line, i + 1, p);
    }
  }

  /** The encoder's line for one pair, as export writes it: key, comma, value. */
  function EncodeLine(key: string, value: string): string {
    EscapeCsv(Some(key)) + "," + EscapeCsv(Some(value))
  }

  lemma KeyColumn(line: string, key: string)
    requires |key| < |line| && line[..|key|] == key && line[|key|] == ','
    requires '"' !in key && ',' !in key
    ensures SplitPoint(line) == Some(|key|)
    ensures Decode(line, 0, |key|, false) == key
  {
    var n := |key|;
    forall k | 0 <= k < n ensures line[k] != '"' && line[k] != ',' {
      assert line[k] == key[k];
    }
    SplitFromPlain(line, 0, n);
    DecodePlain(line, 0, n, false);
    assert line[0..n] == key;
  }

  lemma ValueColumn(line: string, i: nat, value: string)
    requires i <= |line| && line[i..] == EscapeCsv(Some(value)) && '"' !in value
    ensures Decode(line, i, |line|, false) == value
  {
    var m := |line|;
    if NeedsQuotes(value) {
      assert line[i..] == "\"" + value + "\"";
      assert line[i] == '"' && line[m - 1] == '"';
      forall k | i + 1 <= k < m - 1 ensures line[k] != '"' {
        assert line[k] == value[k - i - 1];
      }
      DecodeLastQuote(line, i + 1, m, true);
      assert line[i + 1..m - 1] == value;
      if i + 1 < m - 1 {
        assert line[i + 1] == value[0];
      }
    } else {
      assert line[i..] == value;
      forall k | i <= k < m ensures line[k] != '"' {
        assert line[k] == value[k - i];
      }
      DecodePlain(line, i, m, false);
      assert line[i..m] == value;
    }
  }

  /**
   * For a non-empty key without commas and a value, both free of quotes and
   * line breaks and without surrounding spaces, the parser gives back exactly
   * the pair, whether or not the value holds commas. The line also survives
   * the trim that import applies first.
   */
  lemma RoundTripLine(key: string, value: string)
    requires SafeField(key) && SafeField(value) && key != [] && ',' !in key
    ensures Trim(EncodeLine(key, value)) == EncodeLine(key, value)
    ensures ParseLine(EncodeLine(key, value)) == Some((key, value))
  {
    EncodedColumns(key, value);
    EncodedEdges(key, value);
    PlainIsUnquoted(key);
    PlainIsUnquoted(value);
  }

  lemma PlainIsUnquoted(s: string)
    requires '"' !in s
    ensures Unquote(s) == s
  {
    if |s| >= 2 {
      assert s[0] != '"';
    }
  }

  lemma EncodedColumns(key: string, value: string)
    requires !NeedsQuotes(key) && '"' !in value
    ensures Columns(EncodeLine(key, value)) == (key, value)
  {
    var ev := EscapeCsv(Some(value));
    var line := key + "," + ev;
    assert EncodeLine(key, value) == line;
    assert line[..|key|] == key;
    KeyColumn(line, key);
    assert line[|key| + 1..] == ev;
    ValueColumn(line, |key| + 1, value);
  }

  lemma EncodedEdges(key: string, value: string)
    requires SafeField(key) && SafeField(value) && key != [] && ',' !in key
    ensures HasTrimmedEdges(EncodeLine(key, value))
  {
    var ev := EscapeCsv(Some(value));
    var line := key + "," + ev;
    assert !NeedsQuotes(key);
    assert EncodeLine(key, value) == line;
    assert line[0] == key[0];
    if ev != [] {
      assert line[|line| - 1] == ev[|ev| - 1];
      if NeedsQuotes(value) {
        assert ev[|ev| - 1] == '"';
      } else {
        assert ev == value;
      }
    }
  }

  /** A quote-free run closed by one final quote decodes to the run. */
  lemma {:induction false} DecodeLastQuote(line: string, i: nat, m: nat, q: bool)
    requires i < m <= |line| && line[m - 1] == '"'
    requires forall k :: i <= k < m - 1 ==> line[k] != '"'
    ensures Decode(line, i, m, q) == line[i..m - 1]
    decreases m - i
  {
    if i < m - 1 {
      DecodeLastQuote(line, i + 1, m, q);
      assert line[i..m - 1] == [line[i]] + line[i + 1..m - 1];
    }
  }

  lemma EscapeEmbeddedQuote()
    ensures EscapeCsv(Some("x\"y")) == "\"x\"\"y\""
  {
    assert DoubleQuotes("x\"y") == "x\"\"y" by {
      assert "x\"y"[1..] == "\"y";
      assert "\"y"[1..] == "y";
      assert DoubleQuotes("y") == "y";
    }
    assert NeedsQuotes("x\"y") by { assert "x\"y"[1] == '"'; }
  }

  lemma ParseEmbeddedQuote(line: string)
    requires line == "k,\"x\"\"y\""
    ensures ParseLine(line) == Some(("k", "xy"))
  {
    KeyColumn(line, "k");
    assert Decode(line, 3, 8, true) == "xy" by {
      assert Decode(line, 8, 8, false) == "";
      assert Decode(line, 7, 8, true) == "";
      assert Decode(line, 6, 8, true) == "y";
      assert Decode(line, 5, 8, false) == "y";
      assert Decode(line, 4, 8, true) == "y";
    }
    assert Decode(line, 2, 8, false) == "xy";
    assert Columns(line) == ("k", "xy");
    assert HasTrimmedEdges("xy") && HasTrimmedEdges("k");
  }

  /** A quote inside a value does not survive: `"x""y"` comes back as xy. */
  lemma EmbeddedQuoteIsLost()
    ensures EncodeLine("k", "x\"y") == "k,\"x\"\"y\""
    ensures ParseLine(EncodeLine("k", "x\"y")) == Some(("k", "xy"))
  {
    EscapeEmbeddedQuote();
    assert EscapeCsv(Some("k")) == "k";
    ParseEmbeddedQuote(EncodeLine("k", "x\"y"));
  }

  /**
   * A quoted run that is never closed is read to the end of the line: the
   * opening quote is dropped and the rest, commas included, is the value.
   */
  lemma UnterminatedQuote(key: string, value: string)
    requires SafeField(key) && key != [] && ',' !in key && '"' !in value
    ensures ParseLine(key + ",\"" + value) == Some((key, Trim(value)))
  {
    var line := key + ",\"" + value;
    var n := |key|;
    assert line[..n] == key;
    KeyColumn(line, key);
    assert line[n + 1] == '"';
    forall k | n + 2 <= k < |line| ensures line[k] != '"' {
      assert line[k] == value[k - n - 2];
    }
    DecodePlain(line, n + 2, |line|, true);
    assert line[n + 2..|line|] == value;
    if value != [] {
      assert line[n + 2] == value[0];
    }
    assert Decode(line, n + 1, |line|, false) == value;
    assert Columns(line) == (key, value);
    PlainIsUnquoted(key);
    TrimKeepsChars(value);
    PlainIsUnquoted(Trim(value));
  }

  // ---------------------------------------------------------------------------
  // Last occurrence of a key
  // ---------------------------------------------------------------------------

  /** The value of the last entry with the given key. */
  function LastValue(entries: seq<(string, string)>, key: string): Option<string> {
    if entries == [] then None
    else if entries[|entries| - 1].0 == key then Some(entries[|entries| - 1].1)
    else LastValue(entries[..|entries| - 1], key)
  }

  /** Appending at most one entry: its value if it has the key, else the earlier answer. */
  lemma LastValueSnoc(es: seq<(string, string)>, e: seq<(string, string)>, name: string)
    requires |e| <= 1
    ensures LastValue(es + e, name) == if e != [] && e[0].0 == name then Some(e[0].1) else LastValue(es, name)
  {
    if e == [] {
      assert es + e == es;
    } else {
      assert (es + e)[..|es|] == es;
    }
  }

  /** Both directions: no entry has the key, or the result is the value of the last one that does. */
  lemma {:induction false} LastValueIsLastOccurrence(entries: seq<(string, string)>, key: string)
    ensures LastValue(entries, key).None? <==> forall j :: 0 <= j < |entries| ==> entries[j].0 != key
    ensures LastValue(entries, key).Some? ==>
      exists j :: 0 <= j < |entries| && entries[j] == (key, LastValue(entries, key).value)
        && forall j' :: j < j' < |entries| ==> entries[j'].0 != key
  {
    if entries != [] {
      var n := |entries| - 1;
      var init := entries[..n];
      LastValueIsLastOccurrence(init, key);
      if entries[n].0 == key {
        assert LastValue(entries, key) == Some(entries[n].1);
        assert entries[n] == (key, entries[n].1);
      } else {
        assert LastValue(entries, key) == LastValue(init, key);
        assert forall j :: 0 <= j < n ==> entries[j] == init[j];
        if LastValue(init, key).Some? {
          var j :| 0 <= j < |init| && init[j] == (key, LastValue(init, key).value)
            && forall j' :: j < j' < |init| ==> init[j'].0 != key;
          assert entries[j] == init[j];
        }
      }
    }
  }
}
