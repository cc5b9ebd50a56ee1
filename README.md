# Character sheet engine

A Dafny model of the logic inside the JavaFX controller of a simplified
D&D-style character creation sheet (`PrimaryController`). Under the GUI
calls the controller holds a small engine:

- a two-column CSV codec (`escapeCsv` and the quote-aware
  `parseCsvLineTwoColumns`), used to save and load a sheet as a
  `fxid,value` file with four keys;
- two per-class tables: base stats (`name,value` rows) and level bonuses
  (`level,Δstr,Δdex,Δint,Δluck,Δpower` rows), combined into the five
  displayed attributes;
- the sheet's state machine: level text, class, the two names, base and
  displayed attributes, and four skill-slot visibility flags, changed by
  level up/down, class selection and import;
- two helpers for the skill icons: which four image files a class shows
  and the tooltip name `prettyFileName` derives from a path.

Modules, one per component:

| file | module | what it holds |
|---|---|---|
| `java_text.dfy` | `Options`, `JavaText` | `Option`; the `String`/`Integer` behaviour the controller relies on (`trim`, `isBlank`, ASCII `toLowerCase`, `split(",", -1)`, `Integer.parseInt`, `Integer.toString`, 32-bit wrap-around), `parseOrZero` and `parseLevel` |
| `csv_codec.dfy` | `CsvCodec` | `escapeCsv`, the two-column line parser (as a loop and as a reference function), the restricted round trip, last-occurrence-wins lookup |
| `character_codec.dfy` | `CharacterCodec` | export entries and lines, the written file read back by `Files.readAllLines`, header skipping, import key collection, export-then-import |
| `stat_tables.dfy` | `StatTables` | base-stats reading, bonus summing with its early stop, Java `int` sums |
| `skill_icons.dfy` | `SkillIcons` | icon filter, natural-order sort, padding to four, `prettyFileName` |
| `character_sheet.dfy` | `CharacterSheet` | slot thresholds, resource paths, the class `Sheet` with the controller's fields and handlers, the export and import loops |

Text resources (stats tables, bonus tables) and icon directory listings are
passed in as a `Resources` value: a map from the resource path the
controller opens to its lines, and a map from an icon directory to its file
names. A missing entry reads as a missing resource.

Behaviour of the code worth knowing, all of it kept by the model:

- A quote inside a field does not survive a save and load. The `""` check
  of the parser fires only when a quote opens a quoted run, so
  `"x""y"` reads back as `xy` (`CsvCodec.EmbeddedQuoteIsLost`,
  `CharacterCodec.QuotedNameIsNotRestored`). Fields are also trimmed on
  import. The round trip is proved only for fields without quotes, line
  breaks or surrounding whitespace (commas are fine).
- A bonus row whose level field is not an integer stops the bonus scan
  (`Integer.parseInt` throws, the surrounding catch swallows it) and the
  partial sums are still shown (`StatTables.FirstAbort`, `StatTables.RowsAfterAbortIgnored`).
- With no class (or a blank one) selected, the attributes shown are left as
  they were; the bases are reset to 0. An unknown class shows all zeros.
- Selecting a class refreshes the attributes before the level is reset to
  "1", so they are computed at the previous level.
- `parseLevel` may return 0 or a negative number. The slots use that value;
  the bonus sum uses `max(1, level)`. Level down does nothing at or below 1.
- Exporting with no class selected writes the text `null`
  (`String.valueOf(null)`), which loads back as a class named `null`.
- In the model, importing a class sets the class without running the class
  handler; only an imported non-blank level triggers the slot and attribute
  refresh (see "Left out" on `ComboBox.setValue`).

## Model

| member | source | states |
|---|---|---|
| `JavaText.TrimIsSlice` | src/main/java/com/example/PrimaryController.java:173 | `String.trim`: the result is the input with trimmable chars (at or below U+0020) removed from both ends and nothing else, and its own ends are not trimmable |
| `JavaText.Split` | src/main/java/com/example/PrimaryController.java:315 | `split(",", -1)` yields one more field than there are separators and no field holds the separator |
| `JavaText.SplitJoin` | src/main/java/com/example/PrimaryController.java:603 | splitting keeps every character: joining the fields with the separator gives the row back |
| `JavaText.ParseIntSpec` | src/main/java/com/example/PrimaryController.java:387 | `Integer.parseInt` succeeds exactly on an optional sign followed by one or more ASCII digits whose value fits in an int, and yields that value; a non-digit after the first char, a bare sign or empty text fails, and a leading `-` negates the digits |
| `JavaText.ParseIntToString` | src/main/java/com/example/PrimaryController.java:359 | the text `String.valueOf` writes for any int is trimmed already and is parsed back to that int |
| `JavaText.ParseOrZeroText` | src/main/java/com/example/PrimaryController.java:660-666 | `parseOrZero`: the value of the trimmed text when it is an optionally signed digit run inside the int range, and 0 for every other text (blank, non-numeric, out of range) |
| `JavaText.ParseOrZeroDigits` | src/main/java/com/example/PrimaryController.java:660-666 | a non-empty run of ASCII digits that fits in an int is read as its decimal value |
| `JavaText.LevelOfText` | src/main/java/com/example/PrimaryController.java:385-391 | `parseLevel`: the value of the trimmed level text when it is an optionally signed digit run inside the int range, so zero and negative values come back as they are, and 1 for every other text |
| `JavaText.LevelOfToString` | src/main/java/com/example/PrimaryController.java:373 | the level field reads back exactly the number last written into it |
| `JavaText.Wrap32` | src/main/java/com/example/PrimaryController.java:359 | Java `int` arithmetic: the result is a 32-bit int, equal to the mathematical one when that fits, and `MAX_VALUE + 1` wraps to `MIN_VALUE` |
| `JavaText.WrapAdd` | src/main/java/com/example/PrimaryController.java:612-616 | wrapping after every addition equals wrapping once after the whole sum |
| `JavaText.LastIndexOf` | src/main/java/com/example/PrimaryController.java:533 | `lastIndexOf`: -1 or an index holding the char, with no later occurrence |
| `CsvCodec.EscapeCsv` | src/main/java/com/example/PrimaryController.java:133-140 | null becomes empty; text with a comma, quote, `\n` or `\r` becomes a quote, the text with every quote doubled, and a quote; any other text comes back unchanged |
| `CsvCodec.DoubleQuotes` | src/main/java/com/example/PrimaryController.java:138 | `replace("\"", "\"\"")` on one char: a quote becomes two quotes, any other char stays; the length grows by the number of quotes |
| `CsvCodec.DoubleQuotesAppend` | src/main/java/com/example/PrimaryController.java:138 | the replacement works char by char: the doubled form of `a + b` is that of `a` followed by that of `b` |
| `CsvCodec.CollapseDouble` | src/main/java/com/example/PrimaryController.java:261 | replacing `""` by `"` undoes the doubling of quotes |
| `CsvCodec.UnquoteEscape` | src/main/java/com/example/PrimaryController.java:260-265 | stripping the wrapping quotes and collapsing pairs recovers exactly what `escapeCsv` was given |
| `CsvCodec.ParseCsvLineTwoColumns` | src/main/java/com/example/PrimaryController.java:234-270 | the character loop with the `inQuotes` flag and two builders returns what the reference `ParseLine` (split at the first unquoted comma, trim, unquote, null for an empty key) returns, for every line; its column step `TrimColumn` is the trim-then-unquote of 257-265 |
| `CsvCodec.SplitFromIsFirstUnquotedComma` | src/main/java/com/example/PrimaryController.java:238-256 | the split point is a comma the scanner reaches outside quotes, every earlier comma being inside quotes; there is none exactly when every comma is inside quotes |
| `CsvCodec.ParseLineNull` | src/main/java/com/example/PrimaryController.java:266-268 | the parser returns null exactly when the trimmed first column is empty or is a bare pair of quotes |
| `CsvCodec.ColumnsKeepCommas` | src/main/java/com/example/PrimaryController.java:251-255 | around that first unquoted comma, the key column keeps every comma before it and the value column every comma after it; without one the value column is empty |
| `CsvCodec.DecodeKeepsAllButQuotes` | src/main/java/com/example/PrimaryController.java:241-256 | the scanner drops quote characters and nothing else |
| `CsvCodec.NoCommaNoValue` | src/main/java/com/example/PrimaryController.java:238 | a line without a comma gives an empty value |
| `CsvCodec.UnterminatedQuote` | src/main/java/com/example/PrimaryController.java:243-250 | for a plain key and any quote-free value, `key,"value` (quote never closed) parses to the key and the trimmed value, commas included |
| `CsvCodec.RoundTripLine` | src/main/java/com/example/PrimaryController.java:102-109 | for a non-empty comma-free key and a value, both free of quotes and line breaks and already trimmed, parsing the written line `escapeCsv(k),escapeCsv(v)` gives `(k, v)`, commas in the value included; the line also survives the import's trim |
| `CsvCodec.EmbeddedQuoteIsLost` | src/main/java/com/example/PrimaryController.java:246 | the value `x"y` is written as `"x""y"` and read back as `xy` |
| `CsvCodec.LastValueIsLastOccurrence` | src/main/java/com/example/PrimaryController.java:184-195 | the lookup is None exactly when no entry has the key, and otherwise the value of an entry with that key after which no entry has it |
| `CharacterCodec.EncodeAll` | src/main/java/com/example/PrimaryController.java:104-108 | export's loop writes one line per entry, in order, each the escaped key, a comma and the escaped value |
| `CharacterCodec.ReadBackFile` | src/main/java/com/example/PrimaryController.java:162 | the lines written one per line are read back by `readAllLines` unchanged, as long as none holds a line break |
| `CharacterCodec.BodyStart` | src/main/java/com/example/PrimaryController.java:165 | import starts at line 1 exactly when there is a first line whose first four chars, lower-cased, are `fxid`; otherwise at line 0 |
| `CharacterCodec.HeaderIsSkipped` | src/main/java/com/example/PrimaryController.java:165 | a file starting with the `fxid,value` header has its first line skipped |
| `CharacterCodec.KeyLineIsKept` | src/main/java/com/example/PrimaryController.java:165 | a file whose first line is one of the four key lines written by export keeps that line |
| `CharacterCodec.UnknownKeyIgnored` | src/main/java/com/example/PrimaryController.java:193-194 | a line whose key is not one of the four, or that yields no pair, changes none of the collected values |
| `CharacterCodec.EntriesOfEncoded` | src/main/java/com/example/PrimaryController.java:104-109 | the lines written for restorable pairs are read back as exactly those pairs, in order |
| `CharacterCodec.ImportRestorable` | src/main/java/com/example/PrimaryController.java:162-196 | import of a saved file finds, for each known key, the last value saved under it |
| `CharacterCodec.ExportImportRoundTrip` | src/main/java/com/example/PrimaryController.java:83-87 | saving and loading restores the two names, the class and the level text when each is free of quotes and line breaks and already trimmed |
| `CharacterCodec.UnselectedClassLoadsAsNull` | src/main/java/com/example/PrimaryController.java:86 | a sheet saved with no class loads back with the class text `null` |
| `CharacterCodec.QuotedNameIsNotRestored` | src/main/java/com/example/PrimaryController.java:243-250 | a player name `x"y` is loaded back as `xy` |
| `CharacterCodec.QuotedCommaClass` | src/main/java/com/example/PrimaryController.java:137 | the class `Warrior, the Brave` needs quotes and its written line is read back as that exact pair |
| `StatTables.ReadBaseStats` | src/main/java/com/example/PrimaryController.java:313-337 | the row loop of `loadStatsForClass` computes the reference `BaseStats` of the data rows |
| `StatTables.BaseStatsLastRowWins` | src/main/java/com/example/PrimaryController.java:315-336 | each base attribute is `parseOrZero` of the value of the last row naming it (trimmed, lower-cased), 0 when no row does; short rows and other names change nothing |
| `StatTables.BaseStatsInRange` | src/main/java/com/example/PrimaryController.java:323 | base values are 32-bit ints |
| `StatTables.StatRowSets` | src/main/java/com/example/PrimaryController.java:322-336 | a row `name,digits` with a lower-case name sets that attribute to the number and, for any other name, nothing |
| `StatTables.BonusRowOutcome` | src/main/java/com/example/PrimaryController.java:603-611 | a row is skipped exactly when it has fewer than six fields, stops the scan exactly when its trimmed level field is not an optionally signed int in range, and otherwise grants at that level |
| `StatTables.ExtraFieldsIgnored` | src/main/java/com/example/PrimaryController.java:603-616 | a row with at least six fields gives the same outcome whatever follows a further comma |
| `StatTables.BonusRow` | src/main/java/com/example/PrimaryController.java:610-616 | a granting row carries a 32-bit level and 32-bit deltas |
| `StatTables.BonusRowGrants` | src/main/java/com/example/PrimaryController.java:610-616 | a row of six numeric fields grants its last five numbers at the level its first one names |
| `StatTables.FirstAbort` | src/main/java/com/example/PrimaryController.java:610 | the index of the first row whose level field does not parse: no row before it aborts, the row at it does |
| `StatTables.SumLevelBonuses` | src/main/java/com/example/PrimaryController.java:601-623 | the bonus loop computes the reference `LevelBonus`: the Java-int sums of the deltas of rows with level at most the target, stopping at the first unparsable level |
| `StatTables.ApplicableIsWrappedRaw` | src/main/java/com/example/PrimaryController.java:612-616 | the running Java-int sums equal the integer sums wrapped once at the end |
| `StatTables.BonusMonotone` | src/main/java/com/example/PrimaryController.java:611 | with non-negative deltas and sums that fit, the cumulative bonus never decreases as the level rises |
| `StatTables.RawBonusMonotone` | src/main/java/com/example/PrimaryController.java:611 | over the integers, with non-negative deltas, the bonus sums are non-negative and monotone in the level |
| `StatTables.RowsAfterAbortIgnored` | src/main/java/com/example/PrimaryController.java:621-623 | rows after one with an unparsable level add nothing |
| `StatTables.HigherThresholdIgnored` | src/main/java/com/example/PrimaryController.java:611 | a row granting above the level adds nothing |
| `StatTables.Shown` | src/main/java/com/example/PrimaryController.java:626-632 | the attributes shown are base plus bonus, as Java ints |
| `SkillIcons.IconFiles` | src/main/java/com/example/PrimaryController.java:433-436 | exactly the listed names whose lower-cased form ends in `.png`, `.jpg` or `.jpeg`, each as often as the listing holds it and no other name |
| `SkillIcons.Sort` | src/main/java/com/example/PrimaryController.java:439 | the result is sorted by `String.compareTo` and a permutation of the input |
| `SkillIcons.SortedPermutationIsUnique` | src/main/java/com/example/PrimaryController.java:439 | two sorted permutations of the same names are equal, so the icon order does not depend on the sort used |
| `SkillIcons.PadToFour` | src/main/java/com/example/PrimaryController.java:440-442 | the padding loop keeps the names in front and appends nulls up to four entries |
| `SkillIcons.ChooseIcons` | src/main/java/com/example/PrimaryController.java:438-446 | four slot paths: the k-th filtered name in natural order prefixed with the directory, or null when there are fewer |
| `SkillIcons.ShownIconsComeFirst` | src/main/java/com/example/PrimaryController.java:443-446 | an icon file left out of the four slots comes after every shown one in natural order |
| `SkillIcons.ShownIconsAreListed` | src/main/java/com/example/PrimaryController.java:443-446 | every icon shown is the directory plus a listed icon file |
| `SkillIcons.BaseName` | src/main/java/com/example/PrimaryController.java:533-534 | the part of the path after its last `/`: a `/`-free suffix preceded by a `/`, or the whole path when it has no `/` |
| `SkillIcons.Stem` | src/main/java/com/example/PrimaryController.java:535-538 | the name cut before its last dot when that dot is not the first char; the whole name when it has no dot after the first char |
| `SkillIcons.AppendWords` | src/main/java/com/example/PrimaryController.java:542-552 | the builder loop appends each non-empty part capitalized and followed by a space |
| `SkillIcons.PrettyFileName` | src/main/java/com/example/PrimaryController.java:531-554 | the method computes the reference `PrettyName` of the path |
| `SkillIcons.PrettyNameHasNoSeparators` | src/main/java/com/example/PrimaryController.java:539 | the tooltip name holds no underscore, hyphen or slash |
| `SkillIcons.TwoWordName` | src/main/java/com/example/PrimaryController.java:525-526 | a path `dir/w1_w2.ext` (or with `-` or a space) gives the two words capitalized with one space, e.g. `skill_icons/bard/fire_ball.png` gives `Fire Ball` |
| `CharacterSheet.SlotsForLevel` | src/main/java/com/example/PrimaryController.java:404-410 | slot 2, 3, 4 visible if and only if the level is at least 5, 10, 15; slot 1 untouched |
| `CharacterSheet.SlotsMonotone` | src/main/java/com/example/PrimaryController.java:67-69 | a higher level never hides a slot, and a later slot is shown only with the earlier ones |
| `CharacterSheet.AtLeastOne` | src/main/java/com/example/PrimaryController.java:593 | `Math.max(1, level)`: the level when it is at least 1, and 1 otherwise |
| `CharacterSheet.UnknownClassShowsZero` | src/main/java/com/example/PrimaryController.java:339-341 | a class without a stats or bonus resource has base 0 and shows all zeros |
| `CharacterSheet.BlankClassKeepsShown` | src/main/java/com/example/PrimaryController.java:589-591 | with no class chosen, the bases are 0 and the attributes shown stay as they were |
| `CharacterSheet.RefreshIdempotent` | src/main/java/com/example/PrimaryController.java:587-633 | refreshing twice with unchanged class, bases and level shows what refreshing once did |
| `CharacterSheet.LevelUpIncrements` | src/main/java/com/example/PrimaryController.java:358-359 | below the int maximum, level up writes a text that reads as one more |
| `CharacterSheet.NonNumericLevelUp` | src/main/java/com/example/PrimaryController.java:388-389 | a level field that does not parse counts as 1, so level up writes `2` |
| `CharacterSheet.LevelDownDecrements` | src/main/java/com/example/PrimaryController.java:372-373 | above level 1, level down writes a text that reads as one less |
| `CharacterSheet.LevelUpThenDown` | src/main/java/com/example/PrimaryController.java:357-377 | from any level from 1 up to the int maximum, the raised level passes the down button's guard and one less is the level before |
| `CharacterSheet.ClassChangeSlots` | src/main/java/com/example/PrimaryController.java:721-724 | the level `1` leaves the default slots (only slot 1) as they are |
| `CharacterSheet.Sheet.constructor` | src/main/java/com/example/PrimaryController.java:670-673 | a blank level field starts as `1`, any other level text is kept; the other fields take the initial state listed under "Left out" |
| `CharacterSheet.Sheet.UpdateSkillSlotVisibilityByLevel` | src/main/java/com/example/PrimaryController.java:404-410 | the slots become `SlotsForLevel` of the level read from the field |
| `CharacterSheet.Sheet.ResetSkillSlotsVisibility` | src/main/java/com/example/PrimaryController.java:416-422 | only slot 1 is visible |
| `CharacterSheet.Sheet.RefreshDisplayedStats` | src/main/java/com/example/PrimaryController.java:587-633 | with a chosen class the attributes become base plus the bonus at `max(1, level)`; otherwise unchanged |
| `CharacterSheet.Sheet.LoadStatsForClass` | src/main/java/com/example/PrimaryController.java:302-347 | the bases become those of the class's table (0 without a class) and the attributes are refreshed |
| `CharacterSheet.Sheet.HandleLevelUp` | src/main/java/com/example/PrimaryController.java:357-362 | the level text becomes `parseLevel() + 1` (wrapping), then slots and attributes follow the new level |
| `CharacterSheet.Sheet.HandleLevelDown` | src/main/java/com/example/PrimaryController.java:370-377 | above level 1 the text becomes one less and slots and attributes follow; otherwise nothing changes |
| `CharacterSheet.Sheet.UpdateSkillIconsForClass` | src/main/java/com/example/PrimaryController.java:431-449 | the icons become the class's four chosen icons and only slot 1 is visible |
| `CharacterSheet.Sheet.OnClassAction` | src/main/java/com/example/PrimaryController.java:700-727 | bases of the chosen class, attributes at the level shown before, the class's icons, then level text `1` with only slot 1 visible |
| `CharacterSheet.Sheet.SelectClass` | src/main/java/com/example/PrimaryController.java:700-702 | the class takes the chosen value, then the handler runs with the effects of `OnClassAction` |
| `CharacterSheet.Sheet.ExportCsv` | src/main/java/com/example/PrimaryController.java:81-109 | the written lines are the header, then the four keys in fixed order with escaped values |
| `CharacterSheet.Sheet.ImportCsv` | src/main/java/com/example/PrimaryController.java:149-223 | names applied whenever imported, the class only if non-blank, and a non-blank level followed by the slot and attribute update; nothing else changes |
| `CharacterSheet.Sheet.ApplyImported` | src/main/java/com/example/PrimaryController.java:198-218 | the collected values are applied: names when present, class when not blank, level with slots and attributes when not blank |
| `CharacterSheet.WriteLines` | src/main/java/com/example/PrimaryController.java:101-109 | the writer loop yields the header then one escaped `key,value` line per entry |
| `CharacterSheet.CollectImported` | src/main/java/com/example/PrimaryController.java:162-196 | the import loop collects, for each known key, the value of its last line after the optional header |
| `CharacterSheet.ImportLine` | src/main/java/com/example/PrimaryController.java:172-195 | one line of the loop: if the values so far are the last values per key of some pairs, afterwards they are those of the same pairs followed by this line's pair, with blank and rejected lines adding none |
| `CharacterSheet.StoreValue` | src/main/java/com/example/PrimaryController.java:184-195 | the key dispatch: if the values so far are the last values per key of some pairs, afterwards they are those of the pairs followed by `(key, value)` |
| `CharacterSheet.CollectedSnoc` | src/main/java/com/example/PrimaryController.java:184-195 | the loop's step agrees with taking the last value of each key |

## Left out

- JavaFX controls, images, tooltips, alerts, `Platform.exit` and the file
  chooser dialogs (a cancelled dialog returns before anything happens).
- File and resource I/O: the stats and bonus tables and icon listings are
  a `Resources` parameter; the export writes lines and the import takes
  lines. `listResourceFiles` (file and jar protocol walking) and
  `setPortraitForClass` with its fallback image are not modelled.
- `loadClassList` (the class roster read at start-up) is not modelled.
- `setSkillIcon` is modelled only as the path each slot gets; whether that
  resource exists is not.
- `CharacterSheet.Sheet.SelectClass`: the model runs the class handler on
  every selection; a JavaFX `ComboBox` fires `onAction` only when the value
  changes, so re-picking the current class does nothing in the program.
- Whether `ComboBox.setValue` during import fires the class handler is
  library behaviour: the model sets the class without running it.
- `CharacterSheet.Sheet.ExportCsv`: the platform line separator written by
  `newLine()` is taken to be `\n`.
- `JavaText.Lower`: `toLowerCase`/`toUpperCase` are modelled for ASCII
  letters only.
- `JavaText.ParseInt`: only ASCII digits are accepted; Java also accepts
  other Unicode decimal digits.
- `CharacterSheet.LevelUpThenDown`: stated for levels below the int
  maximum; at the maximum level up wraps to the minimum.
- `StatTables.BonusMonotone`: assumes non-negative deltas and sums that fit
  in an int, since the code itself wraps around.
- A null text field (`safeText`) is not modelled: the names and level are
  always strings.
- The initial state of the sheet other than the level text comes from the
  FXML layout, which is not part of this model: the constructor assumes
  empty names, no class, zero bases and attributes, no icons and only
  skill slot 1 visible.
- `SkillIcons.Below` compares strings char by char as Unicode code points,
  while `String.compareTo` compares UTF-16 code units; the two orders differ
  only for characters above U+FFFF.
- Exceptions are modelled only by their effect: zero defaults and the early
  stop of the bonus scan.
