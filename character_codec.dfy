// The character save format: the `fxid,value` header and four key/value lines
// on export; header skipping, blank-line skipping and last-occurrence-wins key
// dispatch on import.

module CharacterCodec {
  import opened Options
  import opened JavaText
  import opened CsvCodec

  const Header: string := "fxid,value"
  const PlayerKey: string := "player_name"
  const CharacterKey: string := "character_name"
  const ClassKey: string := "class_selection"
  const LevelKey: string := "level_display_field"

  // ---------------------------------------------------------------------------
  // Export
  // ---------------------------------------------------------------------------

  /** String.valueOf of the class selector's value: no selection prints as "null". */
  function ClassText(cls: Option<string>): string {
    match cls
    case None => "null"
    case Some(c) => c
  }

  /** The map export builds, in its insertion order. */
  function ExportEntries(player: string, character: string, cls: Option<string>, level: string): seq<(string, string)> {
    [(PlayerKey, player), (CharacterKey, character), (ClassKey, ClassText(cls)), (LevelKey, level)]
  }

  /** Export's loop over the entries: one escaped key/value line per entry, in order. */
  function EncodeAll(entries: seq<(string, string)>): (lines: seq<string>)
    ensures |lines| == |entries|
    ensures forall i :: 0 <= i < |lines| ==> lines[i] == EncodeLine(entries[i].0, entries[i].1)
  {
    if entries == [] then []
    else [EncodeLine(entries[0].0, entries[0].1)] + EncodeAll(entries[1..])
  }

  // ---------------------------------------------------------------------------
  // The file between export and import
  // ---------------------------------------------------------------------------

  predicate IsLineBreak(c: char) { c == '\n' || c == '\r' }

  predicate NoLineBreak(s: string) {
    '\n' !in s && '\r' !in s
  }

  /** The text BufferedWriter produces: every line followed by newLine(), taken to be "\n". */
  function FileText(lines: seq<string>): string {
    if lines == [] then [] else lines[0] + "\n" + FileText(lines[1..])
  }

  /** The end of the line that starts at i: the next line break, or the end of the text. */
  function LineEnd(t: string, i: nat): (e: nat)
    requires i <= |t|
    ensures i <= e <= |t|
    ensures e < |t| ==> IsLineBreak(t[e])
    ensures forall k :: i <= k < e ==> !IsLineBreak(t[k])
    decreases |t| - i
  {
    if i == |t| || IsLineBreak(t[i]) then i else LineEnd(t, i + 1)
  }

  /** Files.readAllLines: lines end at "\n", "\r" or "\r\n"; a last line without a break is kept. */
  function ReadAllLines(t: string): seq<string>
    decreases |t|
  {
    if t == [] then []
    else
      var e := LineEnd(t, 0);
      if e == |t| then [t]
      else
        var next := if t[e] == '\r' && e + 1 < |t| && t[e + 1] == '\n' then e + 2 else e + 1;
        [t[..e]] + ReadAllLines(t[next..])
  }

  lemma {:induction false} LineEndAt(t: string, n: nat)
    requires n < |t| && IsLineBreak(t[n])
    requires forall k :: 0 <= k < n ==> !IsLineBreak(t[k])
    ensures LineEnd(t, 0) == n
  {
  }

  /** Reading the written file gives back the lines, as long as none holds a line break. */
  lemma {:induction false} ReadBackFile(lines: seq<string>)
    requires forall k :: 0 <= k < |lines| ==> NoLineBreak(lines[k])
    ensures ReadAllLines(FileText(lines)) == lines
  {
    if lines != [] {
      var l := lines[0];
      var rest := FileText(lines[1..]);
      var t := l + "\n" + rest;
      assert FileText(lines) == t;
      forall k | 0 <= k < |l| ensures !IsLineBreak(t[k]) {
        assert t[k] == l[k];
        assert l[k] in l;
      }
      LineEndAt(t, |l|);
      assert t[..|l|] == l;
      assert t[|l| + 1..] == rest;
      ReadBackFile(lines[1..]);
      assert [l] + lines[1..] == lines;
    }
  }

  // ---------------------------------------------------------------------------
  // Import
  // ---------------------------------------------------------------------------

  /** Import skips the first line only when, lower-cased, it starts with "fxid". */
  function BodyStart(lines: seq<string>): (start: nat)
    ensures start <= |lines| && start <= 1
    ensures start == 1 <==>
      |lines| > 0 && |lines[0]| >= 4 && forall i :: 0 <= i < 4 ==> LowerChar(lines[0][i]) == "fxid"[i]
  {
    assert |lines| > 0 && |lines[0]| >= 4 ==>
      ((forall i :: 0 <= i < 4 ==> LowerChar(lines[0][i]) == "fxid"[i]) <==> Lower(lines[0])[..4] == "fxid");
    if |lines| > 0 && StartsWith(Lower(lines[0]), "fxid") then 1 else 0
  }

  /** What one line contributes: nothing when it is blank after trimming or the parser rejects it. */
  function LineEntry(line: string): seq<(string, string)> {
    var t := Trim(line);
    if t == [] then []
    else
      match ParseLine(t)
      case None => []
      case Some(kv) => [kv]
  }

  /** The pairs the import loop sees, in file order. */
  function Entries(lines: seq<string>): seq<(string, string)> {
    if lines == [] then []
    else Entries(lines[..|lines| - 1]) + LineEntry(lines[|lines| - 1])
  }

  /** The four nullable locals the import loop fills; None stands for null. */
  datatype Imported = Imported(player: Option<string>, character: Option<string>, cls: Option<string>, level: Option<string>)

  /** The values import collects: for each known key, the value of its last line. */
  function ImportedValues(lines: seq<string>): Imported {
    Collected(Entries(lines[BodyStart(lines)..]))
  }

  /** For each known key, the value of its last entry. */
  function Collected(es: seq<(string, string)>): Imported {
    Imported(LastValue(es, PlayerKey), LastValue(es, CharacterKey), LastValue(es, ClassKey), LastValue(es, LevelKey))
  }

  predicate IsKnownKey(k: string) {
    k == PlayerKey || k == CharacterKey || k == ClassKey || k == LevelKey
  }

  /** A line whose key is not one of the four (or that yields no pair) changes nothing. */
  lemma UnknownKeyIgnored(lines: seq<string>, line: string)
    requires |lines| > 0
    requires LineEntry(line) == [] || !IsKnownKey(LineEntry(line)[0].0)
    ensures ImportedValues(lines + [line]) == ImportedValues(lines)
  {
    var all := lines + [line];
    var b := BodyStart(lines);
    assert all[0] == lines[0];
    assert BodyStart(all) == b;
    assert all[b..] == lines[b..] + [line];
    assert all[b..][..|all[b..]| - 1] == lines[b..];
    var es := Entries(lines[b..]);
    assert Entries(all[b..]) == es + LineEntry(line);
    if LineEntry(line) == [] {
      assert es + LineEntry(line) == es;
    } else {
      assert (es + LineEntry(line))[..|es|] == es;
    }
  }

  // ---------------------------------------------------------------------------
  // Export followed by import
  // ---------------------------------------------------------------------------

  lemma {:induction false} DoubleQuotesNoBreak(s: string)
    requires NoLineBreak(s)
    ensures NoLineBreak(DoubleQuotes(s))
  {
    if s != [] {
      var h := if s[0] == '"' then "\"\"" else [s[0]];
      assert s[0] in s;
      assert NoLineBreak(h);
      assert NoLineBreak(s[1..]) by {
        assert forall c :: c in s[1..] ==> c in s;
      }
      DoubleQuotesNoBreak(s[1..]);
      assert DoubleQuotes(s) == h + DoubleQuotes(s[1..]);
    }
  }

  lemma EncodeLineNoBreak(key: string, value: string)
    requires NoLineBreak(key) && NoLineBreak(value)
    ensures NoLineBreak(EncodeLine(key, value))
  {
    DoubleQuotesNoBreak(key);
    DoubleQuotesNoBreak(value);
    assert NoLineBreak(EscapeCsv(Some(key)));
    assert NoLineBreak(EscapeCsv(Some(value)));
  }

  lemma HeaderIsSkipped(lines: seq<string>)
    requires |lines| > 0 && lines[0] == Header
    ensures BodyStart(lines) == 1
  {
    assert Header[..4] == "fxid";
    LowerKeepsLowercasePrefix(lines[0], "fxid");
  }

  /**
   * A file whose first line is one of export's key lines (a file written
   * without the header) loses no line: import starts at its first line.
   */
  lemma KeyLineIsKept(lines: seq<string>, key: string, value: string)
    requires key == PlayerKey || key == CharacterKey || key == ClassKey || key == LevelKey
    requires |lines| > 0 && lines[0] == EncodeLine(key, value)
    ensures BodyStart(lines) == 0
  {
    KeyStart(key);
    assert lines[0] == key + "," + EscapeCsv(Some(value));
    assert lines[0][0] == key[0];
    FirstCharNotF(lines);
  }

  lemma KeyStart(key: string)
    requires key == PlayerKey || key == CharacterKey || key == ClassKey || key == LevelKey
    ensures key != [] && EscapeCsv(Some(key)) == key
    ensures key[0] == 'p' || key[0] == 'c' || key[0] == 'l'
  {
    KeysAreSafe();
    if key == PlayerKey {
      assert PlayerKey[0] == 'p';
    } else if key == LevelKey {
      assert LevelKey[0] == 'l';
    } else if key == ClassKey {
      assert ClassKey[0] == 'c';
    } else {
      assert CharacterKey[0] == 'c';
    }
  }

  lemma FirstCharNotF(lines: seq<string>)
    requires |lines| > 0 && |lines[0]| > 0
    requires lines[0][0] == 'p' || lines[0][0] == 'c' || lines[0][0] == 'l'
    ensures BodyStart(lines) == 0
  {
    var c := lines[0][0];
    assert LowerChar(c) == c;
    assert "fxid"[0] == 'f';
  }

  /** Lower-casing leaves a prefix of lower-case letters in place. */
  lemma LowerKeepsLowercasePrefix(s: string, prefix: string)
    requires StartsWith(s, prefix)
    requires forall i :: 0 <= i < |prefix| ==> 'a' <= prefix[i] <= 'z'
    ensures StartsWith(Lower(s), prefix)
  {
    var l := Lower(s);
    forall i | 0 <= i < |prefix| ensures l[i] == prefix[i] {
      assert s[i] == prefix[i];
    }
  }

  lemma LineEntryOfEncoded(key: string, value: string)
    requires SafeField(key) && SafeField(value) && key != [] && ',' !in key
    ensures LineEntry(EncodeLine(key, value)) == [(key, value)]
  {
    RoundTripLine(key, value);
  }

  /** Entries that could each be written and read back give themselves back. */
  predicate Restorable(entries: seq<(string, string)>) {
    forall k :: 0 <= k < |entries| ==>
      SafeField(entries[k].0) && SafeField(entries[k].1) && entries[k].0 != [] && ',' !in entries[k].0
  }

  lemma EntriesSnoc(lines: seq<string>, line: string)
    ensures Entries(lines + [line]) == Entries(lines) + LineEntry(line)
  {
    assert (lines + [line])[..|lines|] == lines;
  }

  lemma {:induction false} EncodeAllSnoc(entries: seq<(string, string)>, e: (string, string))
    ensures EncodeAll(entries + [e]) == EncodeAll(entries) + [EncodeLine(e.0, e.1)]
    decreases |entries|
  {
    if entries == [] {
      assert [] + [e] == [e];
      assert [e][1..] == [];
    } else {
      assert (entries + [e])[1..] == entries[1..] + [e];
      EncodeAllSnoc(entries[1..], e);
    }
  }

  lemma {:induction false} EntriesOfEncoded(entries: seq<(string, string)>)
    requires Restorable(entries)
    ensures Entries(EncodeAll(entries)) == entries
  {
    if entries != [] {
      var n := |entries| - 1;
      var front, e := entries[..n], entries[n];
      assert front + [e] == entries;
      assert Restorable(front) by {
        forall k | 0 <= k < |front| ensures front[k] == entries[k] { }
      }
      EntriesOfEncoded(front);
      EncodeAllSnoc(front, e);
      EntriesSnoc(EncodeAll(front), EncodeLine(e.0, e.1));
      LineEntryOfEncoded(e.0, e.1);
    }
  }

  lemma {:induction false} EncodeAllNoBreak(entries: seq<(string, string)>)
    requires forall k :: 0 <= k < |entries| ==> NoLineBreak(entries[k].0) && NoLineBreak(entries[k].1)
    ensures forall k :: 0 <= k < |entries| ==> NoLineBreak(EncodeAll(entries)[k])
  {
    if entries != [] {
      var n := |entries| - 1;
      var front, e := entries[..n], entries[n];
      assert front + [e] == entries;
      EncodeAllNoBreak(front);
      EncodeAllSnoc(front, e);
      EncodeLineNoBreak(e.0, e.1);
    }
  }

  predicate EntriesNoBreak(entries: seq<(string, string)>) {
    forall k :: 0 <= k < |entries| ==> NoLineBreak(entries[k].0) && NoLineBreak(entries[k].1)
  }

  /** The text a save writes for the given pairs. */
  function SavedText(entries: seq<(string, string)>): string {
    FileText([Header] + EncodeAll(entries))
  }

  /** A saved file is read back line for line, and import skips its header. */
  lemma ReadSaved(entries: seq<(string, string)>)
    requires EntriesNoBreak(entries)
    ensures ReadAllLines(SavedText(entries)) == [Header] + EncodeAll(entries)
    ensures BodyStart([Header] + EncodeAll(entries)) == 1
  {
    var lines := [Header] + EncodeAll(entries);
    SavedLinesNoBreak(entries);
    ReadBackFile(lines);
    HeaderIsSkipped(lines);
  }

  lemma SavedLinesNoBreak(entries: seq<(string, string)>)
    requires EntriesNoBreak(entries)
    ensures forall k :: 0 <= k < |[Header] + EncodeAll(entries)| ==> NoLineBreak(([Header] + EncodeAll(entries))[k])
  {
    EncodeAllNoBreak(entries);
    assert NoLineBreak(Header);
    PrependNoBreak(Header, EncodeAll(entries));
  }

  lemma PrependNoBreak(first: string, lines: seq<string>)
    requires NoLineBreak(first)
    requires forall k :: 0 <= k < |lines| ==> NoLineBreak(lines[k])
    ensures forall k :: 0 <= k < |[first] + lines| ==> NoLineBreak(([first] + lines)[k])
  {
    var all := [first] + lines;
    forall k | 0 <= k < |all| ensures NoLineBreak(all[k]) {
      if k > 0 {
        assert all[k] == lines[k - 1];
      }
    }
  }

  /** The values import takes from a saved file: the last value saved under each key. */
  lemma ImportSaved(entries: seq<(string, string)>)
    requires EntriesNoBreak(entries)
    ensures ImportedValues(ReadAllLines(SavedText(entries))) ==
      var es := Entries(EncodeAll(entries));
      Imported(LastValue(es, PlayerKey), LastValue(es, CharacterKey), LastValue(es, ClassKey), LastValue(es, LevelKey))
  {
    ReadSaved(entries);
    assert ([Header] + EncodeAll(entries))[1..] == EncodeAll(entries);
  }

  predicate SafeKey(k: string) {
    SafeField(k) && k != [] && ',' !in k
  }

  lemma KeysAreSafe()
    ensures SafeKey(PlayerKey) && SafeKey(CharacterKey) && SafeKey(ClassKey) && SafeKey(LevelKey)
  {
    IdentifierIsSafe(PlayerKey);
    IdentifierIsSafe(CharacterKey);
    IdentifierIsSafe(ClassKey);
    IdentifierIsSafe(LevelKey);
  }

  /** A non-empty run of lower-case letters and underscores is a safe key. */
  lemma IdentifierIsSafe(k: string)
    requires k != [] && forall i :: 0 <= i < |k| ==> 'a' <= k[i] <= 'z' || k[i] == '_'
    ensures SafeKey(k)
  {
  }

  lemma RestorableFour(a: (string, string), b: (string, string), c: (string, string), d: (string, string))
    requires SafeKey(a.0) && SafeKey(b.0) && SafeKey(c.0) && SafeKey(d.0)
    requires SafeField(a.1) && SafeField(b.1) && SafeField(c.1) && SafeField(d.1)
    ensures Restorable([a, b, c, d])
  {
  }

  lemma KeysAreDistinct()
    ensures PlayerKey != CharacterKey && PlayerKey != ClassKey && PlayerKey != LevelKey
    ensures CharacterKey != ClassKey && CharacterKey != LevelKey && ClassKey != LevelKey
  {
  }

  /** With four distinct keys, each key's last value is its own. */
  lemma LastOfFour(a: (string, string), b: (string, string), c: (string, string), d: (string, string))
    requires a.0 != b.0 && a.0 != c.0 && a.0 != d.0 && b.0 != c.0 && b.0 != d.0 && c.0 != d.0
    ensures LastValue([a, b, c, d], a.0) == Some(a.1) && LastValue([a, b, c, d], b.0) == Some(b.1)
    ensures LastValue([a, b, c, d], c.0) == Some(c.1) && LastValue([a, b, c, d], d.0) == Some(d.1)
  {
    assert [a, b, c, d][..3] == [a, b, c];
    assert [a, b, c][..2] == [a, b];
    assert [a, b][..1] == [a];
    assert LastValue([a, b, c], b.0) == Some(b.1);
    assert LastValue([a, b], a.0) == Some(a.1);
    assert LastValue([a, b, c], a.0) == Some(a.1);
  }

  /** Import finds, for each key, the last value saved under it. */
  lemma ImportRestorable(entries: seq<(string, string)>)
    requires Restorable(entries)
    ensures ImportedValues(ReadAllLines(SavedText(entries))) ==
      Imported(LastValue(entries, PlayerKey), LastValue(entries, CharacterKey), LastValue(entries, ClassKey), LastValue(entries, LevelKey))
  {
    assert EntriesNoBreak(entries);
    ImportSaved(entries);
    EntriesOfEncoded(entries);
  }

  /** What import reads from a file that export wrote. */
  function Reloaded(player: string, character: string, cls: Option<string>, level: string): Imported {
    ImportedValues(ReadAllLines(SavedText(ExportEntries(player, character, cls, level))))
  }

  /**
   * Saving and loading a sheet whose two names, class and level text are free
   * of quotes and line breaks and have no surrounding spaces restores all four
   * fields, commas included.
   */
  lemma ExportImportRoundTrip(player: string, character: string, cls: string, level: string)
    requires SafeField(player) && SafeField(character) && SafeField(cls) && SafeField(level)
    ensures Reloaded(player, character, Some(cls), level) == Imported(Some(player), Some(character), Some(cls), Some(level))
  {
    var entries := ExportEntries(player, character, Some(cls), level);
    KeysAreSafe();
    RestorableFour((PlayerKey, player), (CharacterKey, character), (ClassKey, cls), (LevelKey, level));
    ImportRestorable(entries);
    KeysAreDistinct();
    LastOfFour((PlayerKey, player), (CharacterKey, character), (ClassKey, cls), (LevelKey, level));
  }

  /** A class name holding a comma is written quoted and read back whole, comma kept and quotes stripped. */
  lemma QuotedCommaClass(value: string)
    requires value == "Warrior, the Brave"
    ensures NeedsQuotes(value)
    ensures LineEntry(EncodeLine(ClassKey, value)) == [(ClassKey, value)]
  {
    assert value[7] == ',';
    assert SafeField(value) by {
      forall k | 0 <= k < |value| ensures value[k] != '"' && value[k] != '\n' && value[k] != '\r' { }
    }
    KeysAreSafe();
    LineEntryOfEncoded(ClassKey, value);
  }

  /** A sheet saved with no class selected loads back with the class "null". */
  lemma UnselectedClassLoadsAsNull(player: string, character: string, level: string)
    requires SafeField(player) && SafeField(character) && SafeField(level)
    ensures Reloaded(player, character, None, level).cls == Some("null")
  {
    assert ExportEntries(player, character, None, level) == ExportEntries(player, character, Some("null"), level);
    ExportImportRoundTrip(player, character, "null", level);
  }

  lemma EncodeAllCons(e: (string, string), rest: seq<(string, string)>)
    ensures EncodeAll([e] + rest) == [EncodeLine(e.0, e.1)] + EncodeAll(rest)
  {
    assert ([e] + rest)[1..] == rest;
  }

  /** A first pair whose value holds a quote is read back without it. */
  lemma QuotedFirstValue(key: string, value: string, rest: seq<(string, string)>)
    requires value == "x\"y"
    requires SafeKey(key) && Restorable(rest)
    ensures Entries(EncodeAll([(key, value)] + rest)) == [(key, "xy")] + rest
  {
    EncodeAllCons((key, value), rest);
    EncodeQuotedPair(key, value);
    EntriesOfEncoded(rest);
    FirstEntry(EncodeLine(key, value), EncodeAll(rest), (key, "xy"), rest);
  }

  lemma FirstEntry(line: string, lines: seq<string>, e: (string, string), es: seq<(string, string)>)
    requires LineEntry(line) == [e] && Entries(lines) == es
    ensures Entries([line] + lines) == [e] + es
  {
    EntriesPrepend(line, lines);
  }

  lemma EncodeQuotedPair(key: string, value: string)
    requires value == "x\"y" && SafeKey(key)
    ensures LineEntry(EncodeLine(key, value)) == [(key, "xy")]
  {
    EscapeEmbeddedQuote();
    assert EscapeCsv(Some(key)) == key;
    assert EncodeLine(key, value) == key + ",\"x\"\"y\"";
    ParseEmbeddedQuotePair(key);
  }

  /** A player name holding a quote is not restored: the quote is dropped. */
  lemma QuotedNameIsNotRestored(player: string, character: string, cls: string, level: string)
    requires player == "x\"y"
    requires SafeField(character) && SafeField(cls) && SafeField(level)
    ensures Reloaded(player, character, Some(cls), level).player == Some("xy")
  {
    var rest := [(CharacterKey, character), (ClassKey, cls), (LevelKey, level)];
    assert ExportEntries(player, character, Some(cls), level) == [(PlayerKey, player)] + rest;
    KeysAreSafe();
    KeysAreDistinct();
    RestorableThree((CharacterKey, character), (ClassKey, cls), (LevelKey, level));
    assert forall k :: 0 <= k < |rest| ==> rest[k].0 != PlayerKey;
    QuotedPlayerReload(player, rest);
  }

  lemma QuotedPlayerReload(player: string, rest: seq<(string, string)>)
    requires player == "x\"y"
    requires Restorable(rest) && forall k :: 0 <= k < |rest| ==> rest[k].0 != PlayerKey
    ensures ImportedValues(ReadAllLines(SavedText([(PlayerKey, player)] + rest))).player == Some("xy")
  {
    KeysAreSafe();
    ReloadQuotedFirst(PlayerKey, player, rest);
    LastValueOfSoleKey((PlayerKey, "xy"), rest);
  }

  lemma {:induction false} LastValueOfSoleKey(e: (string, string), rest: seq<(string, string)>)
    requires forall k :: 0 <= k < |rest| ==> rest[k].0 != e.0
    ensures LastValue([e] + rest, e.0) == Some(e.1)
    decreases |rest|
  {
    if rest == [] {
      assert [e] + rest == [e];
    } else {
      var n := |rest| - 1;
      assert ([e] + rest)[..|rest|] == [e] + rest[..n];
      LastValueOfSoleKey(e, rest[..n]);
    }
  }

  lemma RestorableThree(b: (string, string), c: (string, string), d: (string, string))
    requires SafeKey(b.0) && SafeKey(c.0) && SafeKey(d.0)
    requires SafeField(b.1) && SafeField(c.1) && SafeField(d.1)
    ensures Restorable([b, c, d])
  {
  }

  lemma ReloadQuotedFirst(key: string, value: string, rest: seq<(string, string)>)
    requires value == "x\"y"
    requires SafeKey(key) && Restorable(rest)
    ensures ImportedValues(ReadAllLines(SavedText([(key, value)] + rest))) ==
      var es := [(key, "xy")] + rest;
      Imported(LastValue(es, PlayerKey), LastValue(es, CharacterKey), LastValue(es, ClassKey), LastValue(es, LevelKey))
  {
    var entries := [(key, value)] + rest;
    assert EntriesNoBreak(entries) by {
      forall k | 1 <= k < |entries| ensures entries[k] == rest[k - 1] { }
    }
    ImportSaved(entries);
    QuotedFirstValue(key, value, rest);
  }

  lemma {:induction false} EntriesPrepend(line: string, rest: seq<string>)
    ensures Entries([line] + rest) == LineEntry(line) + Entries(rest)
    decreases |rest|
  {
    if rest == [] {
      EntriesSnoc([], line);
      assert [] + [line] == [line] + rest;
    } else {
      var n := |rest| - 1;
      var init := rest[..n];
      var x := rest[n];
      EntriesPrepend(line, init);
      EntriesSnoc([line] + init, x);
      EntriesSnoc(init, x);
      PrependInit(line, rest);
      ConcatAssoc(LineEntry(line), Entries(init), LineEntry(x));
    }
  }

  lemma PrependInit(line: string, rest: seq<string>)
    requires rest != []
    ensures ([line] + rest[..|rest| - 1]) + [rest[|rest| - 1]] == [line] + rest
    ensures rest[..|rest| - 1] + [rest[|rest| - 1]] == rest
  {
  }

  /** The quoted run "x""y" at the end of a line decodes to xy. */
  lemma DecodeQuotedXY(line: string, i: nat)
    requires i <= |line| && line[i..] == "\"x\"\"y\""
    ensures Decode(line, i, |line|, false) == "xy"
  {
    var m := |line|;
    assert m == i + 6;
    assert line[i] == '"' && line[i + 1] == 'x' && line[i + 2] == '"';
    assert line[i + 3] == '"' && line[i + 4] == 'y' && line[i + 5] == '"';
    assert Decode(line, i + 5, m, true) == "";
    assert Decode(line, i + 4, m, true) == "y";
    assert Decode(line, i + 3, m, false) == "y";
    assert Decode(line, i + 2, m, true) == "y";
    assert Decode(line, i + 1, m, true) == "xy";
  }

  /** The value column of `key,"x""y"` comes out as xy. */
  lemma ParseEmbeddedQuotePair(key: string)
    requires SafeField(key) && key != [] && ',' !in key
    ensures LineEntry(key + ",\"x\"\"y\"") == [(key, "xy")]
  {
    var line := key + ",\"x\"\"y\"";
    var n := |key|;
    assert line[..n] == key;
    KeyColumn(line, key);
    assert line[n + 1..] == "\"x\"\"y\"";
    DecodeQuotedXY(line, n + 1);
    assert Columns(line) == (key, "xy");
    assert HasTrimmedEdges(line) by {
      assert line[0] == key[0];
      assert line[|line| - 1] == '"';
    }
    EntryFromColumns(line, key, "xy");
  }

  /** A line already trimmed whose raw columns need no unquoting is read as exactly those columns. */
  lemma EntryFromColumns(line: string, k: string, v: string)
    requires Columns(line) == (k, v) && k != []
    requires HasTrimmedEdges(line) && HasTrimmedEdges(k) && HasTrimmedEdges(v)
    requires !IsQuoted(k) && !IsQuoted(v)
    ensures LineEntry(line) == [(k, v)]
  {
  }
}
