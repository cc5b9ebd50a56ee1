// The character sheet itself: the controller's state (names, class, level
// text, base and displayed attributes, skill-slot visibility and icons) and
// the handlers that change it.

module CharacterSheet {
  import opened Options
  import opened JavaText
  import opened CsvCodec
  import opened CharacterCodec
  import opened StatTables
  import opened SkillIcons

  // ---------------------------------------------------------------------------
  // Skill slots
  // ---------------------------------------------------------------------------

  const UnlockSlot2: int := 5
  const UnlockSlot3: int := 10
  const UnlockSlot4: int := 15

  /** Whether each of the four skill slots is visible. */
  datatype Slots = Slots(one: bool, two: bool, three: bool, four: bool)

  /** resetSkillSlotsVisibility: only the first slot. */
  const DefaultSlots: Slots := Slots(true, false, false, false)

  /** updateSkillSlotVisibilityByLevel: slots two to four follow their unlock levels; slot one is left alone. */
  function SlotsForLevel(s: Slots, lvl: int): (r: Slots)
    ensures r.one == s.one
    ensures (r.two <==> lvl >= UnlockSlot2) && (r.three <==> lvl >= UnlockSlot3) && (r.four <==> lvl >= UnlockSlot4)
  {
    s.(two := lvl >= UnlockSlot2, three := lvl >= UnlockSlot3, four := lvl >= UnlockSlot4)
  }

  /** A higher level never hides a slot a lower level shows, and a later slot is shown only with the earlier ones. */
  lemma SlotsMonotone(s: Slots, lo: int, hi: int)
    requires lo <= hi
    ensures SlotsForLevel(s, lo).two ==> SlotsForLevel(s, hi).two
    ensures SlotsForLevel(s, lo).three ==> SlotsForLevel(s, hi).three
    ensures SlotsForLevel(s, lo).four ==> SlotsForLevel(s, hi).four
    ensures SlotsForLevel(s, hi).four ==> SlotsForLevel(s, hi).three
    ensures SlotsForLevel(s, hi).three ==> SlotsForLevel(s, hi).two
  {
  }

  // ---------------------------------------------------------------------------
  // Resources
  // ---------------------------------------------------------------------------

  /**
   * The resources the controller reads: the lines of each text resource by
   * the path it is opened with, and the file names listed under each icon
   * directory.
   */
  datatype Resources = Resources(texts: map<string, seq<string>>, listings: map<string, seq<string>>)

  /** The lines of a text resource; a missing resource reads as no lines. */
  function TextLines(res: Resources, path: string): seq<string> {
    if path in res.texts then res.texts[path] else []
  }

  /** The names listed under a directory; a missing directory lists nothing. */
  function Listing(res: Resources, dir: string): seq<string> {
    if dir in res.listings then res.listings[dir] else []
  }

  /** The base-stats resource of a class: lower-cased, spaces as underscores. */
  function StatsPath(cls: string): string {
    "stats/" + ReplaceChar(Lower(cls), ' ', '_') + "_stats.csv"
  }

  /** The level-bonus resource of a class: only lower-cased. */
  function BonusPath(cls: string): string {
    "/com/level bonuses/" + Lower(cls) + "_level_bonuses.csv"
  }

  /** The icon directory of a class. */
  function IconDir(cls: string): string {
    "skill_icons/" + Lower(cls) + "/"
  }

  predicate IsChosen(cls: Option<string>) {
    cls.Some? && !IsBlank(cls.value)
  }

  /** Math.max(1, level). */
  function AtLeastOne(level: int): (r: int)
    ensures r >= 1 && r >= level
    ensures level >= 1 ==> r == level
    ensures level < 1 ==> r == 1
  {
    if level >= 1 then level else 1
  }

  /** The base attributes loadStatsForClass leaves: zero, unless a class is chosen and its table names them. */
  function BaseFor(res: Resources, cls: Option<string>): Stats {
    if IsChosen(cls) then BaseStats(DataRows(TextLines(res, StatsPath(cls.value)))) else Zero
  }

  /** The attributes refreshDisplayedStats shows; with no class chosen, what was shown before. */
  function Displayed(res: Resources, cls: Option<string>, base: Stats, level: int, previous: Stats): Stats {
    if IsChosen(cls) then Shown(base, LevelBonus(DataRows(TextLines(res, BonusPath(cls.value))), AtLeastOne(level)))
    else previous
  }

  /** A class with no stats or bonus resource gets base 0 and no bonuses, so it shows all zeros. */
  lemma UnknownClassShowsZero(res: Resources, cls: string, level: int, previous: Stats)
    requires !IsBlank(cls) && StatsPath(cls) !in res.texts && BonusPath(cls) !in res.texts
    ensures BaseFor(res, Some(cls)) == Zero
    ensures Displayed(res, Some(cls), BaseFor(res, Some(cls)), level, previous) == Zero
  {
    var none: seq<string> := [];
    assert DataRows(none) == none && FirstAbort(none) == 0 && none[..0] == none;
  }

  /** With no class chosen the bases are reset to 0 but the attributes shown stay as they were. */
  lemma BlankClassKeepsShown(res: Resources, cls: Option<string>, base: Stats, level: int, previous: Stats)
    requires !IsChosen(cls)
    ensures BaseFor(res, cls) == Zero
    ensures Displayed(res, cls, base, level, previous) == previous
  {
  }

  /** Refreshing twice with the class, bases and level unchanged shows what refreshing once did. */
  lemma RefreshIdempotent(res: Resources, cls: Option<string>, base: Stats, level: int, previous: Stats)
    ensures Displayed(res, cls, base, level, Displayed(res, cls, base, level, previous)) == Displayed(res, cls, base, level, previous)
  {
  }

  /** The four icons a class shows; none without a class. */
  function IconsFor(res: Resources, cls: Option<string>): (icons: seq<Option<string>>)
    ensures |icons| == 4
  {
    if IsChosen(cls) then
      var dir := IconDir(cls.value);
      var order := IconOrder(Listing(res, dir));
      [SlotIcon(dir, order, 0), SlotIcon(dir, order, 1), SlotIcon(dir, order, 2), SlotIcon(dir, order, 3)]
    else [None, None, None, None]
  }

  // ---------------------------------------------------------------------------
  // The level field
  // ---------------------------------------------------------------------------

  /** The text the level-up button writes for a field reading as current. */
  function LevelUpText(current: int): string {
    IntToString(Wrap32(current + 1))
  }

  /** Level up reads back as one more, below the int maximum. */
  lemma LevelUpIncrements(current: int)
    requires IsInt32(current) && current < IntMax
    ensures LevelOf(LevelUpText(current)) == current + 1
  {
    var next := current + 1;
    assert LevelUpText(current) == IntToString(next);
    LevelOfToString(next);
  }

  /** A field that does not parse counts as level 1, so level up writes 2. */
  lemma NonNumericLevelUp(text: string)
    requires ParseInt(Trim(text)).None?
    ensures LevelUpText(LevelOf(text)) == "2"
  {
    assert NatToString(2) == "2";
  }

  /** Level down reads back as one less. */
  lemma LevelDownDecrements(current: int)
    requires 1 < current && IsInt32(current)
    ensures LevelOf(IntToString(current - 1)) == current - 1
  {
    LevelOfToString(current - 1);
  }

  /**
   * Level down undoes level up: from every level the up button can raise
   * without overflow, the raised level passes the down button's guard and
   * one less is the level read before.
   */
  lemma LevelUpThenDown(current: int)
    requires 1 <= current < IntMax
    ensures LevelOf(LevelUpText(current)) > 1
    ensures LevelOf(LevelUpText(current)) - 1 == current
  {
    LevelUpIncrements(current);
  }

  /** After a class change the level is 1 again and only the first slot is shown. */
  lemma ClassChangeSlots()
    ensures LevelOf("1") == 1
    ensures SlotsForLevel(DefaultSlots, LevelOf("1")) == DefaultSlots
  {
    assert IntToString(1) == "1";
    LevelOfToString(1);
  }

  // ---------------------------------------------------------------------------
  // The sheet
  // ---------------------------------------------------------------------------

  class Sheet {
    const res: Resources
    var playerName: string
    var characterName: string
    var classValue: Option<string>
    var levelText: string
    var base: Stats
    var shown: Stats
    var slots: Slots
    var icons: seq<Option<string>>

    /** initialize: a blank level field becomes "1". */
    constructor(resources: Resources, initialLevel: string)
      ensures res == resources && playerName == "" && characterName == "" && classValue == None
      ensures levelText == if IsBlank(initialLevel) then "1" else initialLevel
      ensures base == Zero && shown == Zero && slots == DefaultSlots && icons == [None, None, None, None]
    {
      res := resources;
      playerName, characterName := "", "";
      classValue := None;
      levelText := if IsBlank(initialLevel) then "1" else initialLevel;
      base, shown := Zero, Zero;
      slots := DefaultSlots;
      icons := [None, None, None, None];
    }

    /** parseLevel. */
    function Level(): int
      reads this`levelText
    {
      LevelOf(levelText)
    }

    method UpdateSkillSlotVisibilityByLevel()
      modifies this`slots
      ensures slots == SlotsForLevel(old(slots), Level())
    {
      var lvl := Level();
      slots := slots.(two := lvl >= UnlockSlot2);
      slots := slots.(three := lvl >= UnlockSlot3);
      slots := slots.(four := lvl >= UnlockSlot4);
    }

    method ResetSkillSlotsVisibility()
      modifies this`slots
      ensures slots == DefaultSlots
    {
      slots := slots.(one := true);
      slots := slots.(two := false, three := false, four := false);
    }

    method RefreshDisplayedStats()
      modifies this`shown
      ensures shown == Displayed(res, classValue, base, Level(), old(shown))
    {
      var cls := classValue;
      if cls.None? || IsBlank(cls.value) {
        return;
      }
      var lvl := AtLeastOne(Level());
      var rows := DataRows(TextLines(res, BonusPath(cls.value)));
      var sum := SumLevelBonuses(rows, lvl);
      shown := Shown(base, sum);
    }

    method LoadStatsForClass(className: Option<string>)
      modifies this`base, this`shown
      ensures base == BaseFor(res, className)
      ensures shown == Displayed(res, classValue, base, Level(), old(shown))
    {
      base := Zero;
      if className.Some? && !IsBlank(className.value) {
        var rows := DataRows(TextLines(res, StatsPath(className.value)));
        base := ReadBaseStats(rows);
      }
      RefreshDisplayedStats();
    }

    /** The three steps of every level change: the new text, then the slots, then the attributes. */
    method ShowLevel(text: string)
      modifies this`levelText, this`slots, this`shown
      ensures levelText == text
      ensures slots == SlotsForLevel(old(slots), LevelOf(text))
      ensures shown == Displayed(res, classValue, base, LevelOf(text), old(shown))
    {
      levelText := text;
      UpdateSkillSlotVisibilityByLevel();
      RefreshDisplayedStats();
    }

    method HandleLevelUp()
      modifies this`levelText, this`slots, this`shown
      ensures levelText == LevelUpText(old(Level()))
      ensures slots == SlotsForLevel(old(slots), Level())
      ensures shown == Displayed(res, classValue, base, Level(), old(shown))
    {
      var current := Level();
      ShowLevel(LevelUpText(current));
    }

    /** Level down only above level 1; the new text is one less, which cannot overflow. */
    method HandleLevelDown()
      modifies this`levelText, this`slots, this`shown
      ensures old(Level()) > 1 ==> levelText == IntToString(old(Level()) - 1)
      ensures old(Level()) > 1 ==> slots == SlotsForLevel(old(slots), Level())
      ensures old(Level()) > 1 ==> shown == Displayed(res, classValue, base, Level(), old(shown))
      ensures old(Level()) <= 1 ==> levelText == old(levelText) && slots == old(slots) && shown == old(shown)
    {
      var current := Level();
      if current > 1 {
        ShowLevel(IntToString(current - 1));
      }
    }

    /** The icons of a class, then the default visibility. */
    method UpdateSkillIconsForClass(className: string)
      requires !IsBlank(className)
      modifies this`icons, this`slots
      ensures icons == IconsFor(res, Some(className)) && slots == DefaultSlots
    {
      var dir := IconDir(className);
      var chosen := ChooseIcons(dir, Listing(res, dir));
      icons := [chosen[0], chosen[1], chosen[2], chosen[3]];
      ResetSkillSlotsVisibility();
    }

    /**
     * The class selector's action handler, run for the value it holds: stats
     * for the class at the level shown so far, then its icons, then level 1
     * and the default slots.
     */
    method OnClassAction()
      modifies this`base, this`shown, this`icons, this`slots, this`levelText
      ensures base == BaseFor(res, classValue)
      ensures shown == Displayed(res, classValue, base, old(Level()), old(shown))
      ensures icons == IconsFor(res, classValue)
      ensures levelText == "1" && slots == DefaultSlots
    {
      var choice := classValue;
      LoadStatsForClass(choice);
      FinishClassChange(choice);
    }

    /** After the stats: the class's icons, then level 1 with the default slots. */
    method FinishClassChange(choice: Option<string>)
      modifies this`icons, this`slots, this`levelText
      ensures icons == IconsFor(res, choice)
      ensures levelText == "1" && slots == DefaultSlots
    {
      ShowClassIcons(choice);
      ResetLevel();
    }

    /** The icons of the chosen class; with no class, no icons and the default slots. */
    method ShowClassIcons(choice: Option<string>)
      modifies this`icons, this`slots
      ensures icons == IconsFor(res, choice) && slots == DefaultSlots
    {
      if choice.Some? && !IsBlank(choice.value) {
        UpdateSkillIconsForClass(choice.value);
      } else {
        icons := [None, None, None, None];
        ResetSkillSlotsVisibility();
      }
    }

    /** The end of the class handler: level 1, then the default slots, then the unlock rules, which leave them as they are. */
    method ResetLevel()
      modifies this`levelText, this`slots
      ensures levelText == "1" && slots == DefaultSlots
    {
      levelText := "1";
      ResetSkillSlotsVisibility();
      ClassChangeSlots();
      UpdateSkillSlotVisibilityByLevel();
    }

    /** The user picks a class: the selector takes the value and its handler runs. */
    method SelectClass(choice: Option<string>)
      modifies this`classValue, this`base, this`shown, this`icons, this`slots, this`levelText
      ensures classValue == choice
      ensures base == BaseFor(res, choice)
      ensures shown == Displayed(res, choice, base, old(Level()), old(shown))
      ensures icons == IconsFor(res, choice)
      ensures levelText == "1" && slots == DefaultSlots
    {
      classValue := choice;
      OnClassAction();
    }

    /** The lines export writes: the header, then the four fields in order. */
    method ExportCsv() returns (lines: seq<string>)
      ensures lines == [Header] + EncodeAll(ExportEntries(playerName, characterName, classValue, levelText))
    {
      lines := WriteLines(ExportEntries(playerName, characterName, classValue, levelText));
    }

    /**
     * Import of the lines read from a file: the last value of each known key
     * is collected, then applied.
     */
    method ImportCsv(lines: seq<string>)
      modifies this`playerName, this`characterName, this`classValue, this`levelText, this`slots, this`shown
      ensures var v := ImportedValues(lines);
        && playerName == (if v.player.Some? then v.player.value else old(playerName))
        && characterName == (if v.character.Some? then v.character.value else old(characterName))
        && classValue == (if IsChosen(v.cls) then v.cls else old(classValue))
      ensures var v := ImportedValues(lines);
        if IsChosen(v.level) then
          levelText == v.level.value && slots == SlotsForLevel(old(slots), Level())
          && shown == Displayed(res, classValue, base, Level(), old(shown))
        else
          levelText == old(levelText) && slots == old(slots) && shown == old(shown)
    {
      var v := CollectImported(lines);
      ApplyImported(v);
    }

    /**
     * The collected values applied to the form: names whenever present, the
     * class only when not blank (without running the class handler), and a
     * non-blank level followed by the slot and attribute updates.
     */
    method ApplyImported(v: Imported)
      modifies this`playerName, this`characterName, this`classValue, this`levelText, this`slots, this`shown
      ensures playerName == (if v.player.Some? then v.player.value else old(playerName))
      ensures characterName == (if v.character.Some? then v.character.value else old(characterName))
      ensures classValue == (if IsChosen(v.cls) then v.cls else old(classValue))
      ensures IsChosen(v.level) ==>
        levelText == v.level.value && slots == SlotsForLevel(old(slots), Level())
        && shown == Displayed(res, classValue, base, Level(), old(shown))
      ensures !IsChosen(v.level) ==> levelText == old(levelText) && slots == old(slots) && shown == old(shown)
    {
      if v.player.Some? {
        playerName := v.player.value;
      }
      if v.character.Some? {
        characterName := v.character.value;
      }
      if v.cls.Some? && !IsBlank(v.cls.value) {
        classValue := v.cls;
      }
      if v.level.Some? && !IsBlank(v.level.value) {
        ShowLevel(v.level.value);
      }
    }
  }

  // ---------------------------------------------------------------------------
  // The import loop
  // ---------------------------------------------------------------------------

  /** One more line read: the collected values take that line's entry into account. */
  lemma ImportStep(lines: seq<string>, start: nat, i: nat)
    requires start <= i < |lines|
    ensures Collected(Entries(lines[start..i + 1])) == Absorb(Collected(Entries(lines[start..i])), LineEntry(lines[i]))
  {
    assert lines[start..i + 1] == lines[start..i] + [lines[i]];
    EntriesSnoc(lines[start..i], lines[i]);
    CollectedSnoc(Entries(lines[start..i]), LineEntry(lines[i]));
  }

  /** One step of the export loop. */
  lemma ExportStep(data: seq<(string, string)>, k: nat)
    requires k < |data|
    ensures EncodeAll(data[..k + 1]) == EncodeAll(data[..k]) + [EncodeLine(data[k].0, data[k].1)]
  {
    assert data[..k + 1] == data[..k] + [data[k]];
    EncodeAllSnoc(data[..k], data[k]);
  }

  /** The writer loop of exportCharacterToCsv: the header line, then one escaped line per entry. */
  method WriteLines(data: seq<(string, string)>) returns (lines: seq<string>)
    ensures lines == [Header] + EncodeAll(data)
  {
    lines := [Header];
    for k := 0 to |data|
      invariant lines == [Header] + EncodeAll(data[..k])
    {
      ExportStep(data, k);
      var line := EscapeCsv(Some(data[k].0)) + "," + EscapeCsv(Some(data[k].1));
      assert line == EncodeLine(data[k].0, data[k].1);
      ConcatAssoc([Header], EncodeAll(data[..k]), [line]);
      lines := lines + [line];
    }
    WholePrefix(data);
  }

  lemma WholePrefix<T>(s: seq<T>)
    ensures s[..|s|] == s
  {
  }

  /** What one line does to the collected values: the local for its key takes its value; other keys change nothing. */
  function Absorb(p: Imported, e: seq<(string, string)>): Imported {
    if e == [] then p
    else
      var (k, v) := e[0];
      if k == PlayerKey then p.(player := Some(v))
      else if k == CharacterKey then p.(character := Some(v))
      else if k == ClassKey then p.(cls := Some(v))
      else if k == LevelKey then p.(level := Some(v))
      else p
  }

  /** The loop's step agrees with taking the last value of each key. */
  lemma CollectedSnoc(es: seq<(string, string)>, e: seq<(string, string)>)
    requires |e| <= 1
    ensures Collected(es + e) == Absorb(Collected(es), e)
  {
    KeysAreDistinct();
    LastValueSnoc(es, e, PlayerKey);
    LastValueSnoc(es, e, CharacterKey);
    LastValueSnoc(es, e, ClassKey);
    LastValueSnoc(es, e, LevelKey);
  }

  /**
   * The body of the import loop for one line read from the file: blank and
   * rejected lines are skipped. If the values so far are the last values of
   * the pairs es, afterwards they are those of es followed by this line's pair.
   */
  method ImportLine(ghost es: seq<(string, string)>, raw: string, p: Imported) returns (q: Imported)
    requires p == Collected(es)
    ensures q == Collected(es + LineEntry(raw))
    ensures q == Absorb(p, LineEntry(raw))
  {
    CollectedSnoc(es, LineEntry(raw));
    var line := Trim(raw);
    if line == [] {
      return p;
    }
    var kv := ParseCsvLineTwoColumns(line);
    if kv.None? {
      return p;
    }
    q := StoreValue(es, p, kv.value.0, kv.value.1);
  }

  /**
   * The key dispatch of the import loop: if the values so far are the last
   * values of the pairs es, afterwards they are those of es + [(key, val)].
   */
  method StoreValue(ghost es: seq<(string, string)>, p: Imported, key: string, val: string) returns (q: Imported)
    requires p == Collected(es)
    ensures q == Collected(es + [(key, val)])
    ensures q == Absorb(p, [(key, val)])
  {
    CollectedSnoc(es, [(key, val)]);
    q := p;
    if key == PlayerKey {
      q := q.(player := Some(val));
    } else if key == CharacterKey {
      q := q.(character := Some(val));
    } else if key == ClassKey {
      q := q.(cls := Some(val));
    } else if key == LevelKey {
      q := q.(level := Some(val));
    }
  }

  /** The loop of importCharacterFromCsv: the header check, then every later line in order. */
  method CollectImported(lines: seq<string>) returns (v: Imported)
    ensures v == ImportedValues(lines)
  {
    var start := BodyStart(lines);
    v := Imported(None, None, None, None);
    var i := start;
    assert lines[start..start] == [];
    while i < |lines|
      invariant start <= i <= |lines|
      invariant v == Collected(Entries(lines[start..i]))
    {
      ImportStep(lines, start, i);
      v := ImportLine(Entries(lines[start..i]), lines[i], v);
      i := i + 1;
    }
    WholePrefix(lines[start..]);
    assert lines[start..i] == lines[start..];
  }
}
