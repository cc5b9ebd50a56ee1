// The two per-class tables behind the displayed attributes: the base-stats
// table (attribute name, value) and the level-bonus table (threshold level and
// five deltas), with Java int arithmetic for every sum.

module StatTables {
  import opened Options
  import opened JavaText
  import opened CsvCodec

  /** The five attributes, in the order the sheet shows them. */
  datatype Stats = Stats(str: int, dex: int, intel: int, luck: int, power: int)

  const Zero: Stats := Stats(0, 0, 0, 0, 0)

  predicate IsStats32(s: Stats) {
    IsInt32(s.str) && IsInt32(s.dex) && IsInt32(s.intel) && IsInt32(s.luck) && IsInt32(s.power)
  }

  /** Componentwise unbounded sum. */
  function Plus(a: Stats, b: Stats): Stats {
    Stats(a.str + b.str, a.dex + b.dex, a.intel + b.intel, a.luck + b.luck, a.power + b.power)
  }

  /** Every component reduced to a Java int. */
  function Wrapped(s: Stats): (r: Stats)
    ensures IsStats32(r)
    ensures IsStats32(s) ==> r == s
  {
    Stats(Wrap32(s.str), Wrap32(s.dex), Wrap32(s.intel), Wrap32(s.luck), Wrap32(s.power))
  }

  /** Componentwise Java int addition, the `+` and `+=` of the source. */
  function Add(a: Stats, b: Stats): (r: Stats)
    ensures IsStats32(r)
  {
    Wrapped(Plus(a, b))
  }

  /** Adding after wrapping is wrapping after adding. */
  lemma AddWrapped(a: Stats, b: Stats)
    ensures Add(Wrapped(a), b) == Wrapped(Plus(a, b))
  {
    WrapAdd(a.str, b.str);
    WrapAdd(a.dex, b.dex);
    WrapAdd(a.intel, b.intel);
    WrapAdd(a.luck, b.luck);
    WrapAdd(a.power, b.power);
  }

  // ---------------------------------------------------------------------------
  // Base stats
  // ---------------------------------------------------------------------------

  const StrengthName: string := "strength"
  const DexterityName: string := "dexterity"
  const IntelligenceName: string := "intelligence"
  const LuckName: string := "luck"
  const PowerName: string := "power"

  /** The data rows of a resource read line by line: everything after the header line. */
  function DataRows(lines: seq<string>): (rows: seq<string>)
    ensures |lines| > 0 ==> rows == lines[1..]
    ensures |lines| == 0 ==> rows == []
  {
    if |lines| == 0 then [] else lines[1..]
  }

  /** The (attribute, value text) pair a base-stats row gives, if it has at least two fields. */
  function StatEntry(row: string): seq<(string, string)> {
    var parts := Split(row, ',');
    if |parts| < 2 then [] else [(Lower(Trim(parts[0])), Trim(parts[1]))]
  }

  /** The switch on the attribute name: a known name sets its attribute, any other name nothing. */
  function Assign(s: Stats, name: string, v: int): Stats {
    if name == StrengthName then s.(str := v)
    else if name == DexterityName then s.(dex := v)
    else if name == IntelligenceName then s.(intel := v)
    else if name == LuckName then s.(luck := v)
    else if name == PowerName then s.(power := v)
    else s
  }

  /** One pass of the loop: a row with at least two fields goes through the switch. */
  function ApplyStatRow(s: Stats, row: string): Stats {
    var e := StatEntry(row);
    if e == [] then s else Assign(s, e[0].0, ParseOrZero(e[0].1))
  }

  lemma BaseStatsSnoc(rows: seq<string>, i: nat)
    requires i < |rows|
    ensures BaseStats(rows[..i + 1]) == ApplyStatRow(BaseStats(rows[..i]), rows[i])
  {
    assert rows[..i + 1][..i] == rows[..i];
  }

  /** The base values after reading the rows in order, starting from zeros. */
  function BaseStats(rows: seq<string>): Stats {
    if rows == [] then Zero else ApplyStatRow(BaseStats(rows[..|rows| - 1]), rows[|rows| - 1])
  }

  /** The pairs of all rows with at least two fields, in order. */
  function StatEntries(rows: seq<string>): seq<(string, string)> {
    if rows == [] then [] else StatEntries(rows[..|rows| - 1]) + StatEntry(rows[|rows| - 1])
  }

  /** The reference reading of one attribute: its last row's value, 0 when no row names it. */
  function BaseValue(rows: seq<string>, name: string): (v: int)
    ensures IsInt32(v)
  {
    match LastValue(StatEntries(rows), name)
    case None => 0
    case Some(text) => ParseOrZero(text)
  }

  /**
   * Every attribute takes the value of the last row naming it, parsed with
   * parseOrZero; rows naming no attribute and rows with fewer than two fields
   * change nothing, and an attribute no row names stays 0.
   */
  lemma {:induction false} BaseStatsLastRowWins(rows: seq<string>)
    ensures BaseStats(rows) == Stats(BaseValue(rows, StrengthName), BaseValue(rows, DexterityName),
      BaseValue(rows, IntelligenceName), BaseValue(rows, LuckName), BaseValue(rows, PowerName))
  {
    if rows != [] {
      var n := |rows| - 1;
      BaseStatsLastRowWins(rows[..n]);
      var e := StatEntry(rows[n]);
      assert StatEntries(rows) == StatEntries(rows[..n]) + e;
      LastValueSnoc(StatEntries(rows[..n]), e, StrengthName);
      LastValueSnoc(StatEntries(rows[..n]), e, DexterityName);
      LastValueSnoc(StatEntries(rows[..n]), e, IntelligenceName);
      LastValueSnoc(StatEntries(rows[..n]), e, LuckName);
      LastValueSnoc(StatEntries(rows[..n]), e, PowerName);
    }
  }

  /** Base values are Java ints. */
  lemma BaseStatsInRange(rows: seq<string>)
    ensures IsStats32(BaseStats(rows))
  {
    BaseStatsLastRowWins(rows);
  }

  /** The loop of loadStatsForClass over the rows after the header. */
  method ReadBaseStats(rows: seq<string>) returns (base: Stats)
    ensures base == BaseStats(rows)
  {
    base := Zero;
    var i := 0;
    while i < |rows|
      invariant 0 <= i <= |rows|
      invariant base == BaseStats(rows[..i])
    {
      var entry := StatEntry(rows[i]);
      if entry != [] {
        var (attribute, text) := entry[0];
        base := Assign(base, attribute, ParseOrZero(text));
      }
      BaseStatsSnoc(rows, i);
      i := i + 1;
    }
    assert rows[..i] == rows;
  }

  // ---------------------------------------------------------------------------
  // Level bonuses
  // ---------------------------------------------------------------------------

  /** What one bonus row does to the running sums. */
  datatype RowOutcome =
    | Skip                                // fewer than six fields
    | Abort                               // the level field is not an int: parseInt throws
    | Grant(level: int, delta: Stats)     // a threshold and its five deltas

  /**
   * One row of a bonus table: split at every comma; fewer than six fields
   * skip the row, a level field that parseInt rejects stops the scan, and
   * otherwise the first six fields give a threshold and five deltas.
   */
  function BonusRow(row: string): (o: RowOutcome)
    ensures o.Grant? ==> IsInt32(o.level) && IsStats32(o.delta)
  {
    var parts := Split(row, ',');
    if |parts| < 6 then Skip
    else
      match ParseInt(Trim(parts[0]))
      case None => Abort
      case Some(l) =>
        Grant(l, Stats(ParseOrZero(parts[1]), ParseOrZero(parts[2]), ParseOrZero(parts[3]),
                       ParseOrZero(parts[4]), ParseOrZero(parts[5])))
  }

  /**
   * The three outcomes of a row: skipped exactly when it has fewer than six
   * fields, stopping the scan exactly when its trimmed level field is not an
   * optionally signed int, and otherwise granting at that level.
   */
  lemma BonusRowOutcome(row: string)
    ensures BonusRow(row).Skip? <==> |Split(row, ',')| < 6
    ensures BonusRow(row).Abort? <==>
      |Split(row, ',')| >= 6 && !(IntText(Trim(Split(row, ',')[0])) && IsInt32(SignedValue(Trim(Split(row, ',')[0]))))
    ensures BonusRow(row).Grant? ==> BonusRow(row).level == SignedValue(Trim(Split(row, ',')[0]))
  {
    var parts := Split(row, ',');
    if |parts| >= 6 {
      ParseIntSpec(Trim(parts[0]));
    }
  }

  /** A row with at least six fields reads only its first six: text after a further comma is ignored. */
  lemma ExtraFieldsIgnored(row: string, extra: string)
    requires |Split(row, ',')| >= 6
    ensures BonusRow(row + "," + extra) == BonusRow(row)
  {
    SplitAppend(row, extra, ',');
    var parts := Split(row + "," + extra, ',');
    assert parts[..6] == Split(row, ',')[..6];
    assert parts[0] == Split(row, ',')[0] && parts[1] == Split(row, ',')[1] && parts[2] == Split(row, ',')[2];
    assert parts[3] == Split(row, ',')[3] && parts[4] == Split(row, ',')[4] && parts[5] == Split(row, ',')[5];
  }

  /** The index of the first row whose level field does not parse, or the number of rows. */
  function FirstAbort(rows: seq<string>): (k: nat)
    ensures k <= |rows|
    ensures forall j :: 0 <= j < k ==> !BonusRow(rows[j]).Abort?
    ensures k < |rows| ==> BonusRow(rows[k]).Abort?
  {
    if rows == [] then 0
    else if BonusRow(rows[0]).Abort? then 0
    else 1 + FirstAbort(rows[1..])
  }

  /** The delta a row adds at the given level: its deltas if it grants at or below the level. */
  function Granted(row: string, lvl: int): Stats {
    match BonusRow(row)
    case Grant(l, d) => if l <= lvl then d else Zero
    case _ => Zero
  }

  /** Java int sums, in row order, of the deltas granted at the level. */
  function Applicable(rows: seq<string>, lvl: int): (r: Stats)
    ensures IsStats32(r)
  {
    if rows == [] then Zero else Add(Applicable(rows[..|rows| - 1], lvl), Granted(rows[|rows| - 1], lvl))
  }

  lemma FirstAbortPast(rows: seq<string>, i: nat)
    requires i <= FirstAbort(rows) && i < |rows| && !BonusRow(rows[i]).Abort?
    ensures i + 1 <= FirstAbort(rows)
  {
  }

  lemma ApplicableSnoc(rows: seq<string>, i: nat, lvl: int)
    requires i < |rows|
    ensures Applicable(rows[..i + 1], lvl) == Add(Applicable(rows[..i], lvl), Granted(rows[i], lvl))
  {
    assert rows[..i + 1][..i] == rows[..i];
  }

  /** The cumulative bonus at a level: the granted deltas of the rows before the first bad level. */
  function LevelBonus(rows: seq<string>, lvl: int): (r: Stats)
    ensures IsStats32(r)
  {
    Applicable(rows[..FirstAbort(rows)], lvl)
  }

  /** The same sums over the integers. */
  function RawApplicable(rows: seq<string>, lvl: int): Stats {
    if rows == [] then Zero else Plus(RawApplicable(rows[..|rows| - 1], lvl), Granted(rows[|rows| - 1], lvl))
  }

  /** Summing in Java ints is summing over the integers and wrapping once at the end. */
  lemma {:induction false} ApplicableIsWrappedRaw(rows: seq<string>, lvl: int)
    ensures Applicable(rows, lvl) == Wrapped(RawApplicable(rows, lvl))
  {
    if rows != [] {
      var n := |rows| - 1;
      ApplicableIsWrappedRaw(rows[..n], lvl);
      AddWrapped(RawApplicable(rows[..n], lvl), Granted(rows[n], lvl));
    }
  }

  predicate NonNegative(s: Stats) {
    s.str >= 0 && s.dex >= 0 && s.intel >= 0 && s.luck >= 0 && s.power >= 0
  }

  /** Componentwise a <= b. */
  predicate AtMost(a: Stats, b: Stats) {
    a.str <= b.str && a.dex <= b.dex && a.intel <= b.intel && a.luck <= b.luck && a.power <= b.power
  }

  /** Rows whose granted deltas are never negative. */
  predicate NonNegativeDeltas(rows: seq<string>) {
    forall j :: 0 <= j < |rows| ==> BonusRow(rows[j]).Grant? ==> NonNegative(BonusRow(rows[j]).delta)
  }

  /**
   * With non-negative deltas, the integer sums of the bonuses never decrease
   * as the level rises; the Java int sums agree with them while they fit.
   */
  lemma {:induction false} RawBonusMonotone(rows: seq<string>, lo: int, hi: int)
    requires lo <= hi && NonNegativeDeltas(rows)
    ensures AtMost(RawApplicable(rows, lo), RawApplicable(rows, hi))
    ensures NonNegative(RawApplicable(rows, lo))
  {
    if rows != [] {
      var n := |rows| - 1;
      assert NonNegativeDeltas(rows[..n]) by {
        forall j | 0 <= j < n ensures rows[..n][j] == rows[j] { }
      }
      RawBonusMonotone(rows[..n], lo, hi);
      assert BonusRow(rows[n]).Grant? ==> NonNegative(BonusRow(rows[n]).delta);
    }
  }

  /** Rows whose every field is what a well-formed bonus table holds, and whose sums fit in an int. */
  lemma BonusMonotone(rows: seq<string>, lo: int, hi: int)
    requires lo <= hi && NonNegativeDeltas(rows)
    requires IsStats32(RawApplicable(rows[..FirstAbort(rows)], hi))
    ensures AtMost(LevelBonus(rows, lo), LevelBonus(rows, hi))
  {
    var pre := rows[..FirstAbort(rows)];
    assert NonNegativeDeltas(pre) by {
      forall j | 0 <= j < |pre| ensures pre[j] == rows[j] { }
    }
    RawBonusMonotone(pre, lo, hi);
    RawBonusMonotone(pre, lo, lo);
    ApplicableIsWrappedRaw(pre, lo);
    ApplicableIsWrappedRaw(pre, hi);
    var l, h := RawApplicable(pre, lo), RawApplicable(pre, hi);
    assert IsStats32(l) by {
      assert 0 <= l.str <= h.str && 0 <= l.dex <= h.dex && 0 <= l.intel <= h.intel;
      assert 0 <= l.luck <= h.luck && 0 <= l.power <= h.power;
    }
  }

  /** A row whose level does not parse ends the table: nothing after it counts. */
  lemma RowsAfterAbortIgnored(rows: seq<string>, bad: string, rest: seq<string>, lvl: int)
    requires FirstAbort(rows) == |rows| && BonusRow(bad).Abort?
    ensures LevelBonus(rows + [bad] + rest, lvl) == Applicable(rows, lvl)
  {
    var all := rows + [bad] + rest;
    assert all[|rows|] == bad;
    assert forall j :: 0 <= j < |rows| ==> all[j] == rows[j];
    assert FirstAbort(all) == |rows|;
    assert all[..|rows|] == rows;
  }

  /** A row granting above the level adds nothing at that level. */
  lemma HigherThresholdIgnored(rows: seq<string>, row: string, lvl: int)
    requires BonusRow(row).Grant? && BonusRow(row).level > lvl
    ensures Applicable(rows + [row], lvl) == Applicable(rows, lvl)
  {
    assert (rows + [row])[..|rows|] == rows;
    BaseIsFixedPoint(Applicable(rows, lvl));
  }

  lemma BaseIsFixedPoint(s: Stats)
    requires IsStats32(s)
    ensures Add(s, Zero) == s
  {
  }

  /** One row of the bonus loop, for a row whose level field parses or that is skipped. */
  lemma BonusStep(rows: seq<string>, i: nat, lvl: int, sum: Stats)
    requires i < |rows| && i <= FirstAbort(rows) && sum == Applicable(rows[..i], lvl)
    requires !BonusRow(rows[i]).Abort?
    ensures i + 1 <= FirstAbort(rows)
    ensures Applicable(rows[..i + 1], lvl) ==
      match BonusRow(rows[i])
      case Grant(l, d) => if l <= lvl then Add(sum, d) else sum
      case _ => sum
  {
    FirstAbortPast(rows, i);
    ApplicableSnoc(rows, i, lvl);
    BaseIsFixedPoint(sum);
  }

  /** The loop of refreshDisplayedStats: sums stop at the first row whose level does not parse. */
  method SumLevelBonuses(rows: seq<string>, lvl: int) returns (sum: Stats)
    ensures sum == LevelBonus(rows, lvl)
  {
    sum := Zero;
    var i := 0;
    assert rows[..0] == [];
    while i < |rows|
      invariant 0 <= i <= FirstAbort(rows)
      invariant sum == Applicable(rows[..i], lvl)
    {
      var outcome := BonusRow(rows[i]);
      if outcome.Abort? {
        break;
      }
      BonusStep(rows, i, lvl, sum);
      if outcome.Grant? && outcome.level <= lvl {
        sum := Add(sum, outcome.delta);
      }
      i := i + 1;
    }
    assert rows[..i] == rows[..FirstAbort(rows)];
  }

  // ---------------------------------------------------------------------------
  // Well-formed rows
  // ---------------------------------------------------------------------------

  predicate LowerWord(w: string) {
    w != [] && forall k :: 0 <= k < |w| ==> 'a' <= w[k] <= 'z'
  }

  predicate SmallNumber(d: string) {
    d != [] && AllDigits(d) && DigitsValue(d) <= IntMax
  }

  /** A row `name,digits` with a lower-case name sets that attribute to the number (an unknown name sets nothing). */
  lemma StatRowSets(s: Stats, name: string, d: string)
    requires LowerWord(name) && SmallNumber(d)
    ensures ApplyStatRow(s, name + "," + d) == Assign(s, name, DigitsValue(d))
  {
    assert ',' !in name by {
      forall k | 0 <= k < |name| ensures name[k] != ',' { }
    }
    assert ',' !in d by {
      forall k | 0 <= k < |d| ensures d[k] != ',' { assert IsDigit(d[k]); }
    }
    SplitCons(name, d, ',');
    SplitNoSeparator(d, ',');
    assert name + "," + d == name + [','] + d;
    assert HasTrimmedEdges(name);
    assert Lower(name) == name;
    assert HasTrimmedEdges(d) by {
      assert IsDigit(d[0]) && IsDigit(d[|d| - 1]);
    }
    ParseOrZeroDigits(d);
  }

  /** Six fields, each a number that fits in an int. */
  predicate NumericRow(parts: seq<string>) {
    |parts| == 6 && SmallNumber(parts[0]) && SmallNumber(parts[1]) && SmallNumber(parts[2])
    && SmallNumber(parts[3]) && SmallNumber(parts[4]) && SmallNumber(parts[5])
  }

  /** A row whose six fields are numbers grants the last five at the level the first one names. */
  lemma BonusRowGrants(row: string)
    requires NumericRow(Split(row, ','))
    ensures BonusRow(row) == Grant(DigitsValue(Split(row, ',')[0]), Stats(DigitsValue(Split(row, ',')[1]),
      DigitsValue(Split(row, ',')[2]), DigitsValue(Split(row, ',')[3]), DigitsValue(Split(row, ',')[4]), DigitsValue(Split(row, ',')[5])))
  {
    var parts := Split(row, ',');
    ParseOrZeroDigits(parts[0]);
    ParseOrZeroDigits(parts[1]);
    ParseOrZeroDigits(parts[2]);
    ParseOrZeroDigits(parts[3]);
    ParseOrZeroDigits(parts[4]);
    ParseOrZeroDigits(parts[5]);
  }

  /** The displayed attributes: base plus cumulative bonus, in Java ints. */
  function Shown(base: Stats, bonus: Stats): (r: Stats)
    ensures IsStats32(r)
    ensures IsStats32(Plus(base, bonus)) ==> r == Plus(base, bonus)
  {
    Add(base, bonus)
  }
}
