// The small pieces of java.lang.String and java.lang.Integer behaviour that the
// character sheet relies on, stated over Dafny strings (sequences of char).

module Options {
  datatype Option<+T> = None | Some(value: T)
}

module JavaText {
  import opened Options

  // ---------------------------------------------------------------------------
  // 32-bit int arithmetic
  // ---------------------------------------------------------------------------

  const IntMin: int := -0x8000_0000
  const IntMax: int := 0x7FFF_FFFF
  const Modulus: int := 0x1_0000_0000

  predicate IsInt32(x: int) { IntMin <= x <= IntMax }

  /** The value Java's `int` arithmetic yields for the mathematical result x. */
  function Wrap32(x: int): (r: int)
    ensures IsInt32(r)
    ensures IsInt32(x) ==> r == x
    ensures x == IntMax + 1 ==> r == IntMin
  {
    (x - IntMin) % Modulus + IntMin
  }

  /** Wrapping after every addition is the same as wrapping once at the end. */
  lemma WrapAdd(x: int, d: int)
    ensures Wrap32(Wrap32(x) + d) == Wrap32(x + d)
  {
    var q := (x - IntMin) / Modulus;
    assert Wrap32(x) == x - q * Modulus;
    ModShift(x + d - IntMin, q);
  }

  lemma ModShift(y: int, q: int)
    ensures (y - q * Modulus) % Modulus == y % Modulus
  {
    var r := y % Modulus;
    var k := y / Modulus;
    assert y == k * Modulus + r;
    assert y - q * Modulus == (k - q) * Modulus + r;
  }

  // ---------------------------------------------------------------------------
  // Characters
  // ---------------------------------------------------------------------------

  /** String.trim removes every leading and trailing char at or below U+0020. */
  predicate IsTrimmable(c: char) { c <= ' ' }

  /** Character.isWhitespace, which String.isBlank tests every char against. */
  predicate IsWhitespace(c: char) {
    ('\t' <= c <= '\r') || ('\U{1C}' <= c <= ' ')
    || c == '\U{1680}' || ('\U{2000}' <= c <= '\U{2006}') || ('\U{2008}' <= c <= '\U{200A}')
    || c == '\U{2028}' || c == '\U{2029}' || c == '\U{205F}' || c == '\U{3000}'
  }

  /** The regular-expression class \s: [ \t\n\x0B\f\r]. */
  predicate IsRegexSpace(c: char) { c == ' ' || ('\t' <= c <= '\r') }

  predicate IsDigit(c: char) { '0' <= c <= '9' }

  function LowerChar(c: char): char {
    if 'A' <= c <= 'Z' then (c as int + 32) as char else c
  }

  function UpperChar(c: char): char {
    if 'a' <= c <= 'z' then (c as int - 32) as char else c
  }

  // ---------------------------------------------------------------------------
  // String operations
  // ---------------------------------------------------------------------------

  predicate IsBlank(s: string) {
    forall i :: 0 <= i < |s| ==> IsWhitespace(s[i])
  }

  /** The edges of s are not trimmable, so String.trim leaves it alone. */
  predicate HasTrimmedEdges(s: string) {
    s == [] || (!IsTrimmable(s[0]) && !IsTrimmable(s[|s| - 1]))
  }

  function TrimStart(s: string): (r: string)
    ensures |r| <= |s| && r == s[|s| - |r|..]
    ensures r == [] || !IsTrimmable(r[0])
    ensures forall i :: 0 <= i < |s| - |r| ==> IsTrimmable(s[i])
  {
    if s != [] && IsTrimmable(s[0]) then TrimStart(s[1..]) else s
  }

  function TrimEnd(s: string): (r: string)
    ensures |r| <= |s| && r == s[..|r|]
    ensures r == [] || !IsTrimmable(r[|r| - 1])
    ensures forall i :: |r| <= i < |s| ==> IsTrimmable(s[i])
  {
    if s != [] && IsTrimmable(s[|s| - 1]) then TrimEnd(s[..|s| - 1]) else s
  }

  /** String.trim. */
  function Trim(s: string): (r: string)
    ensures HasTrimmedEdges(r)
    ensures HasTrimmedEdges(s) ==> r == s
    ensures r == [] <==> forall i :: 0 <= i < |s| ==> IsTrimmable(s[i])
  {
    var t := TrimStart(s);
    assert t == [] ==> forall i :: 0 <= i < |s| ==> IsTrimmable(s[i]);
    TrimEnd(t)
  }

  /** String.trim removes trimmable chars from both ends of s and nothing else. */
  lemma TrimIsSlice(s: string)
    ensures HasTrimmedEdges(Trim(s))
    ensures |Trim(s)| <= |s|
    ensures exists a ::
              && 0 <= a <= |s| - |Trim(s)| && Trim(s) == s[a..][..|Trim(s)|]
              && (forall i :: 0 <= i < a ==> IsTrimmable(s[i]))
              && (forall i :: a + |Trim(s)| <= i < |s| ==> IsTrimmable(s[i]))
  {
    var t := TrimStart(s);
    var a := |s| - |t|;
    var r := TrimEnd(t);
    assert r == Trim(s);
    assert s[a..] == t;
    assert r == s[a..][..|r|];
    forall i | a + |r| <= i < |s| ensures IsTrimmable(s[i]) {
      assert s[i] == t[i - a];
    }
    assert forall i :: 0 <= i < a ==> IsTrimmable(s[i]);
    assert 0 <= a <= |s| - |r|;
  }

  /** Trimming adds no character. */
  lemma TrimKeepsChars(s: string)
    ensures forall c :: c in Trim(s) ==> c in s
  {
    var t := TrimStart(s);
    var r := TrimEnd(t);
    assert r == Trim(s);
    forall c | c in r ensures c in s {
      var j :| 0 <= j < |r| && r[j] == c;
      assert r[j] == t[j];
      assert t[j] == s[|s| - |t| + j];
    }
  }

  /** String.toLowerCase, for the ASCII letters. */
  function Lower(s: string): (r: string)
    ensures |r| == |s|
    ensures forall i :: 0 <= i < |s| ==> r[i] == LowerChar(s[i])
  {
    if s == [] then [] else [LowerChar(s[0])] + Lower(s[1..])
  }

  predicate StartsWith(s: string, prefix: string) {
    |prefix| <= |s| && s[..|prefix|] == prefix
  }

  predicate EndsWith(s: string, suffix: string) {
    |suffix| <= |s| && s[|s| - |suffix|..] == suffix
  }

  /** String.replace(char, char). */
  function ReplaceChar(s: string, from: char, to: char): (r: string)
    ensures |r| == |s|
    ensures forall i :: 0 <= i < |s| ==> r[i] == (if s[i] == from then to else s[i])
  {
    if s == [] then [] else [if s[0] == from then to else s[0]] + ReplaceChar(s[1..], from, to)
  }

  /** String.lastIndexOf(char): the last index holding c, or -1. */
  function LastIndexOf(s: string, c: char): (r: int)
    ensures -1 <= r < |s|
    ensures r >= 0 ==> s[r] == c
    ensures forall j :: r < j < |s| ==> s[j] != c
  {
    if s == [] then -1
    else if s[|s| - 1] == c then |s| - 1
    else LastIndexOf(s[..|s| - 1], c)
  }

  function Count(s: string, c: char): nat {
    if s == [] then 0 else (if s[0] == c then 1 else 0) + Count(s[1..], c)
  }

  /** String.split with a one-char separator and limit -1: every field is kept. */
  function Split(s: string, sep: char): (parts: seq<string>)
    ensures |parts| == Count(s, sep) + 1
    ensures forall k :: 0 <= k < |parts| ==> sep !in parts[k]
  {
    if s == [] then [[]]
    else
      var rest := Split(s[1..], sep);
      if s[0] == sep then [[]] + rest else [[s[0]] + rest[0]] + rest[1..]
  }

  function Join(parts: seq<string>, sep: char): string
    requires |parts| > 0
  {
    if |parts| == 1 then parts[0] else parts[0] + [sep] + Join(parts[1..], sep)
  }

  /** Split keeps every character: joining the fields back gives the input. */
  lemma {:induction false} SplitJoin(s: string, sep: char)
    ensures Join(Split(s, sep), sep) == s
  {
    if s != [] {
      SplitJoin(s[1..], sep);
      var rest := Split(s[1..], sep);
      if s[0] == sep {
        assert Split(s, sep)[1..] == rest;
      } else {
        var parts := Split(s, sep);
        if |rest| == 1 {
          assert parts == [[s[0]] + rest[0]];
        } else {
          assert parts[1..] == rest[1..];
          assert Join(rest, sep) == rest[0] + [sep] + Join(rest[1..], sep);
        }
      }
    }
  }

  /** A field without the separator splits off in front of the remaining text. */
  lemma {:induction false} SplitCons(field: string, rest: string, sep: char)
    requires sep !in field
    ensures Split(field + [sep] + rest, sep) == [field] + Split(rest, sep)
  {
    if field == [] {
      assert field + [sep] + rest == [sep] + rest;
      assert ([sep] + rest)[1..] == rest;
    } else {
      assert (field + [sep] + rest)[1..] == field[1..] + [sep] + rest;
      SplitCons(field[1..], rest, sep);
      assert [field[0]] + field[1..] == field;
    }
  }

  /** Splitting two texts joined by the separator gives the fields of the first, then those of the second. */
  lemma {:induction false} SplitAppend(a: string, b: string, sep: char)
    ensures Split(a + [sep] + b, sep) == Split(a, sep) + Split(b, sep)
    decreases |a|
  {
    if sep !in a {
      SplitCons(a, b, sep);
      SplitNoSeparator(a, sep);
    } else {
      var k :| 0 <= k < |a| && a[k] == sep;
      var f, g := a[..k], a[k + 1..];
      assert a == f + [sep] + g;
      assert a + [sep] + b == f + [sep] + (g + [sep] + b);
      SplitAppend(f, g + [sep] + b, sep);
      SplitAppend(g, b, sep);
      SplitAppend(f, g, sep);
      ConcatAssoc(Split(f, sep), Split(g, sep), Split(b, sep));
    }
  }

  lemma ConcatAssoc<T>(x: seq<T>, y: seq<T>, z: seq<T>)
    ensures x + (y + z) == x + y + z
  {
  }

  lemma {:induction false} SplitNoSeparator(s: string, sep: char)
    requires sep !in s
    ensures Split(s, sep) == [s]
  {
    if s != [] {
      assert sep !in s[1..] by {
        forall c | c in s[1..] ensures c != sep { assert c in s; }
      }
      SplitNoSeparator(s[1..], sep);
      assert [s[0]] + s[1..] == s;
    }
  }

  // ---------------------------------------------------------------------------
  // Integer.parseInt and Integer.toString
  // ---------------------------------------------------------------------------

  predicate AllDigits(s: string) {
    forall i :: 0 <= i < |s| ==> IsDigit(s[i])
  }

  function DigitValue(c: char): nat
    requires IsDigit(c)
  {
    c as int - '0' as int
  }

  function DigitsValue(s: string): nat
    requires AllDigits(s)
  {
    if s == [] then 0 else DigitsValue(s[..|s| - 1]) * 10 + DigitValue(s[|s| - 1])
  }

  predicate IsSign(c: char) { c == '-' || c == '+' }

  /** The text Integer.parseInt accepts: an optional sign, then one or more ASCII digits. */
  predicate IntText(s: string) {
    s != [] && (IsDigit(s[0]) || (IsSign(s[0]) && |s| >= 2))
    && forall i :: 1 <= i < |s| ==> IsDigit(s[i])
  }

  /** The number such a text denotes, before any range check. */
  function SignedValue(s: string): int
    requires IntText(s)
  {
    if IsDigit(s[0]) then DigitsValue(s)
    else if s[0] == '-' then -(DigitsValue(s[1..]) as int)
    else DigitsValue(s[1..])
  }

  /**
   * Integer.parseInt over ASCII digits: an optional sign, at least one digit,
   * and a value inside the int range; anything else (the empty text, a bare
   * sign, any other char, an out-of-range value) is a NumberFormatException.
   */
  function ParseInt(s: string): (r: Option<int>)
    ensures r.Some? ==> IsInt32(r.value)
    ensures r.Some? ==> s != [] && (IsDigit(s[0]) || s[0] == '-' || s[0] == '+')
    ensures AllDigits(s) && s != [] && DigitsValue(s) <= IntMax ==> r == Some(DigitsValue(s))
  {
    if s == [] then None
    else
      var digits := if s[0] == '-' || s[0] == '+' then s[1..] else s;
      if digits == [] || !AllDigits(digits) then None
      else
        var v: int := DigitsValue(digits);
        var n := if s[0] == '-' then -v else v;
        if IsInt32(n) then Some(n) else None
  }

  /**
   * parseInt succeeds exactly on an optionally signed digit run whose value
   * fits in an int, and then yields that value; any other char after the
   * first one makes it fail, and a minus sign negates the digits.
   */
  lemma ParseIntSpec(s: string)
    ensures ParseInt(s).Some? <==> IntText(s) && IsInt32(SignedValue(s))
    ensures ParseInt(s).Some? ==> ParseInt(s).value == SignedValue(s)
    ensures (exists i :: 1 <= i < |s| && !IsDigit(s[i])) ==> ParseInt(s).None?
    ensures s != [] && s[0] == '-' && |s| >= 2 && AllDigits(s[1..]) ==>
      ParseInt(s) == (if DigitsValue(s[1..]) <= -IntMin then Some(-(DigitsValue(s[1..]) as int)) else None)
  {
    if s != [] && IsSign(s[0]) && |s| >= 2 {
      assert AllDigits(s[1..]) <==> forall i :: 1 <= i < |s| ==> IsDigit(s[i]) by {
        forall i | 1 <= i < |s| ensures s[1..][i - 1] == s[i] { }
      }
    }
  }

  function DigitChar(d: nat): (c: char)
    requires d < 10
    ensures IsDigit(c) && DigitValue(c) == d
  {
    ('0' as int + d) as char
  }

  function NatToString(n: nat): (s: string)
    ensures s != [] && AllDigits(s)
    decreases n
  {
    if n < 10 then [DigitChar(n)] else NatToString(n / 10) + [DigitChar(n % 10)]
  }

  /** Integer.toString (and String.valueOf(int)). */
  function IntToString(n: int): (s: string)
    ensures s != []
    ensures forall i :: 0 <= i < |s| ==> IsDigit(s[i]) || (i == 0 && s[i] == '-')
  {
    if n < 0 then "-" + NatToString(-n) else NatToString(n)
  }

  lemma {:induction false} NatToStringValue(n: nat)
    ensures DigitsValue(NatToString(n)) == n
    decreases n
  {
    if n >= 10 {
      NatToStringValue(n / 10);
      var s := NatToString(n);
      assert s[..|s| - 1] == NatToString(n / 10);
    }
  }

  /** parseInt reads back what toString wrote, for every int. */
  lemma ParseIntToString(n: int)
    requires IsInt32(n)
    ensures ParseInt(IntToString(n)) == Some(n)
    ensures Trim(IntToString(n)) == IntToString(n)
  {
    var s := IntToString(n);
    if n < 0 {
      NatToStringValue(-n);
      assert s[1..] == NatToString(-n);
    } else {
      NatToStringValue(n);
    }
    assert !IsTrimmable(s[0]) && !IsTrimmable(s[|s| - 1]);
  }

  // ---------------------------------------------------------------------------
  // The two total parsers of the controller
  // ---------------------------------------------------------------------------

  /** parseOrZero: the trimmed text as an int, or 0 when parseInt throws. */
  function ParseOrZero(s: string): (r: int)
    ensures IsInt32(r)
    ensures ParseInt(Trim(s)).None? ==> r == 0
    ensures ParseInt(Trim(s)).Some? ==> r == ParseInt(Trim(s)).value
  {
    match ParseInt(Trim(s))
    case Some(n) => n
    case None => 0
  }

  /**
   * parseOrZero in terms of the text: the number the trimmed text denotes when
   * it is an optionally signed digit run inside the int range, 0 for any other.
   */
  lemma ParseOrZeroText(s: string)
    ensures IntText(Trim(s)) && IsInt32(SignedValue(Trim(s))) ==> ParseOrZero(s) == SignedValue(Trim(s))
    ensures !(IntText(Trim(s)) && IsInt32(SignedValue(Trim(s)))) ==> ParseOrZero(s) == 0
  {
    ParseIntSpec(Trim(s));
  }

  /** A run of digits that fits in an int is read as its value. */
  lemma ParseOrZeroDigits(s: string)
    requires s != [] && AllDigits(s) && DigitsValue(s) <= IntMax
    ensures ParseOrZero(s) == DigitsValue(s)
  {
    assert HasTrimmedEdges(s) by {
      assert IsDigit(s[0]) && IsDigit(s[|s| - 1]);
    }
  }

  /** parseLevel applied to the level field's text: the int it holds, or 1. */
  function LevelOf(text: string): (r: int)
    ensures IsInt32(r)
    ensures ParseInt(Trim(text)).None? ==> r == 1
    ensures ParseInt(Trim(text)).Some? ==> r == ParseInt(Trim(text)).value
  {
    match ParseInt(Trim(text))
    case Some(n) => n
    case None => 1
  }

  /**
   * parseLevel in terms of the text: the number the trimmed text denotes when
   * it is an optionally signed digit run inside the int range, 1 for any other.
   */
  lemma LevelOfText(text: string)
    ensures IntText(Trim(text)) && IsInt32(SignedValue(Trim(text))) ==> LevelOf(text) == SignedValue(Trim(text))
    ensures !(IntText(Trim(text)) && IsInt32(SignedValue(Trim(text)))) ==> LevelOf(text) == 1
  {
    ParseIntSpec(Trim(text));
  }

  /** The level field shows exactly the number last written into it. */
  lemma LevelOfToString(n: int)
    requires IsInt32(n)
    ensures LevelOf(IntToString(n)) == n
  {
    ParseIntToString(n);
  }
}
