// The skill-icon helpers of the character sheet: which four image files a
// class shows (filter, natural order, pad to four) and the tooltip name
// prettyFileName derives from an image path.

module SkillIcons {
  import opened Options
  import opened JavaText

  // ---------------------------------------------------------------------------
  // Choosing the icons
  // ---------------------------------------------------------------------------

  /** The listing filter: the lower-cased name ends in .png, .jpg or .jpeg. */
  predicate IsIconFile(name: string) {
    var low := Lower(name);
    EndsWith(low, ".png") || EndsWith(low, ".jpg") || EndsWith(low, ".jpeg")
  }

  /** The names of a directory listing that pass the filter, in listing order. */
  function IconFiles(listing: seq<string>): (r: seq<string>)
    ensures forall n :: n in r <==> n in listing && IsIconFile(n)
    ensures forall n :: multiset(r)[n] == if IsIconFile(n) then multiset(listing)[n] else 0
    ensures |r| <= |listing|
  {
    assert listing != [] ==> listing == [listing[0]] + listing[1..];
    if listing == [] then []
    else (if IsIconFile(listing[0]) then [listing[0]] else []) + IconFiles(listing[1..])
  }

  /** String.compareTo(a, b) <= 0: character by character, a proper prefix first. */
  predicate Below(a: string, b: string) {
    a == [] || (b != [] && (a[0] < b[0] || (a[0] == b[0] && Below(a[1..], b[1..]))))
  }

  lemma {:induction false} BelowTotal(a: string, b: string)
    ensures Below(a, b) || Below(b, a)
  {
    if a != [] && b != [] && a[0] == b[0] {
      BelowTotal(a[1..], b[1..]);
    }
  }

  lemma {:induction false} BelowAntisymmetric(a: string, b: string)
    requires Below(a, b) && Below(b, a)
    ensures a == b
  {
    if a != [] && b != [] {
      BelowAntisymmetric(a[1..], b[1..]);
      assert a == [a[0]] + a[1..] && b == [b[0]] + b[1..];
    }
  }

  lemma {:induction false} BelowTransitive(a: string, b: string, c: string)
    requires Below(a, b) && Below(b, c)
    ensures Below(a, c)
  {
    if a != [] && b != [] && c != [] && a[0] == b[0] && b[0] == c[0] {
      BelowTransitive(a[1..], b[1..], c[1..]);
    }
  }

  predicate Sorted(s: seq<string>) {
    forall i, j :: 0 <= i < j < |s| ==> Below(s[i], s[j])
  }

  /** Insertion of one name into a sorted list, before the first name it is below. */
  function Insert(x: string, s: seq<string>): (r: seq<string>)
    ensures multiset(r) == multiset(s) + multiset{x}
    ensures forall y :: y in r <==> y == x || y in s
    ensures |r| == |s| + 1
  {
    if s == [] then [x]
    else if Below(x, s[0]) then [x] + s
    else
      var tail := Insert(x, s[1..]);
      assert s == [s[0]] + s[1..];
      [s[0]] + tail
  }

  lemma {:induction false} InsertSorted(x: string, s: seq<string>)
    requires Sorted(s)
    ensures Sorted(Insert(x, s))
  {
    if s != [] && !Below(x, s[0]) {
      var tail := s[1..];
      InsertSorted(x, tail);
      BelowTotal(x, s[0]);
      var t := Insert(x, tail);
      forall k | 0 <= k < |t| ensures Below(s[0], t[k]) {
        assert t[k] in t;
        if t[k] != x {
          var m :| 0 <= m < |tail| && tail[m] == t[k];
          assert s[m + 1] == t[k];
        }
      }
      ConsSorted(s[0], t);
    } else if s != [] {
      forall k | 0 <= k < |s| ensures Below(x, s[k]) {
        if k > 0 {
          BelowTransitive(x, s[0], s[k]);
        }
      }
      ConsSorted(x, s);
    }
  }

  lemma ConsSorted(h: string, t: seq<string>)
    requires Sorted(t) && forall k :: 0 <= k < |t| ==> Below(h, t[k])
    ensures Sorted([h] + t)
  {
    var r := [h] + t;
    forall i, j | 0 <= i < j < |r| ensures Below(r[i], r[j]) {
      assert r[j] == t[j - 1];
      if i > 0 {
        assert r[i] == t[i - 1];
      }
    }
  }

  lemma {:induction false} BelowReflexive(a: string)
    ensures Below(a, a)
  {
    if a != [] {
      BelowReflexive(a[1..]);
    }
  }

  /** icons.sort(Comparator.naturalOrder()): the names in natural order. */
  function Sort(s: seq<string>): (r: seq<string>)
    ensures multiset(r) == multiset(s)
    ensures forall y :: y in r <==> y in s
    ensures Sorted(r)
  {
    if s == [] then []
    else
      var rest := Sort(s[1..]);
      InsertSorted(s[0], rest);
      assert s == [s[0]] + s[1..];
      Insert(s[0], rest)
  }

  /**
   * The natural order is total and antisymmetric, so a sorted permutation is
   * unique: any sort the list could use yields Sort's result.
   */
  lemma {:induction false} SortedPermutationIsUnique(a: seq<string>, b: seq<string>)
    requires Sorted(a) && Sorted(b) && multiset(a) == multiset(b)
    ensures a == b
  {
    if a != [] {
      assert b != [] by {
        assert a[0] in multiset(a);
      }
      assert a[0] in multiset(b);
      var j :| 0 <= j < |b| && b[j] == a[0];
      assert b[0] in multiset(a);
      var i :| 0 <= i < |a| && a[i] == b[0];
      BelowReflexive(a[0]);
      assert Below(b[0], a[0]) by {
        if j > 0 {
          assert Below(b[0], b[j]);
        }
      }
      assert Below(a[0], b[0]) by {
        if i > 0 {
          assert Below(a[0], a[i]);
        }
      }
      BelowAntisymmetric(a[0], b[0]);
      MultisetTail(a);
      MultisetTail(b);
      SortedPermutationIsUnique(a[1..], b[1..]);
    }
  }

  lemma MultisetTail(a: seq<string>)
    requires a != []
    ensures multiset(a[1..]) == multiset(a) - multiset{a[0]}
  {
    assert a == [a[0]] + a[1..];
  }

  /** The list after the padding loop: every name, then nulls up to four entries. */
  method PadToFour(names: seq<Option<string>>) returns (padded: seq<Option<string>>)
    ensures |padded| == if |names| < 4 then 4 else |names|
    ensures padded[..|names|] == names
    ensures forall k :: |names| <= k < |padded| ==> padded[k] == None
  {
    padded := names;
    while |padded| < 4
      invariant |names| <= |padded| <= if |names| < 4 then 4 else |names|
      invariant padded[..|names|] == names
      invariant forall k :: |names| <= k < |padded| ==> padded[k] == None
      decreases 4 - |padded|
    {
      padded := padded + [None];
    }
  }

  /** The icon the k-th slot shows for a directory and its sorted icon names. */
  function SlotIcon(dir: string, sorted: seq<string>, k: nat): Option<string> {
    if k < |sorted| then Some(dir + sorted[k]) else None
  }

  /**
   * The four icon paths of updateSkillIconsForClass: the filtered listing in
   * natural order, padded with null to four, the first four prefixed with the
   * directory.
   */
  method ChooseIcons(dir: string, listing: seq<string>) returns (icons: seq<Option<string>>)
    ensures |icons| == 4
    ensures forall k :: 0 <= k < 4 ==> icons[k] == SlotIcon(dir, IconOrder(listing), k)
  {
    icons := FillSlots(dir, IconOrder(listing));
  }

  /** The padding and slot loop over the names in slot order. */
  method FillSlots(dir: string, names: seq<string>) returns (icons: seq<Option<string>>)
    ensures |icons| == 4
    ensures forall k :: 0 <= k < 4 ==> icons[k] == SlotIcon(dir, names, k)
  {
    var wrapped := seq(|names|, k requires 0 <= k < |names| => Some(names[k]));
    var padded := PadToFour(wrapped);
    icons := [];
    var k := 0;
    while k < 4
      invariant 0 <= k <= 4 && |icons| == k
      invariant forall m :: 0 <= m < k ==> icons[m] == SlotIcon(dir, names, m)
    {
      if k < |wrapped| {
        assert padded[k] == padded[..|wrapped|][k];
      }
      var icon := if padded[k] == None then None else Some(dir + padded[k].value);
      icons := icons + [icon];
      k := k + 1;
    }
  }

  /** The icon files of a listing in the order the slots take them. */
  function IconOrder(listing: seq<string>): (r: seq<string>)
    ensures Sorted(r) && multiset(r) == multiset(IconFiles(listing))
    ensures forall n :: n in r <==> n in listing && IsIconFile(n)
  {
    Sort(IconFiles(listing))
  }

  /** An icon file left out of the four slots comes, in natural order, after every one shown. */
  lemma ShownIconsComeFirst(listing: seq<string>, k: nat, name: string)
    requires k < 4 && k < |IconOrder(listing)|
    requires name in listing && IsIconFile(name)
    requires forall m :: 0 <= m < 4 && m < |IconOrder(listing)| ==> IconOrder(listing)[m] != name
    ensures Below(IconOrder(listing)[k], name)
  {
    var sorted := IconOrder(listing);
    assert name in sorted;
    var j :| 0 <= j < |sorted| && sorted[j] == name;
    assert k < j;
  }

  /** Every icon shown is an icon file of the listed directory. */
  lemma ShownIconsAreListed(dir: string, listing: seq<string>, k: nat)
    requires SlotIcon(dir, IconOrder(listing), k).Some?
    ensures exists name :: name in listing && IsIconFile(name) && SlotIcon(dir, IconOrder(listing), k) == Some(dir + name)
  {
    var name := IconOrder(listing)[k];
    assert name in IconOrder(listing);
  }

  // ---------------------------------------------------------------------------
  // prettyFileName
  // ---------------------------------------------------------------------------

  /** The part of the path after its last '/'. */
  function BaseName(path: string): (file: string)
    ensures '/' !in file
    ensures |file| <= |path| && file == path[|path| - |file|..]
    ensures '/' in path ==> |file| < |path| && path[|path| - |file| - 1] == '/'
    ensures '/' !in path ==> file == path
  {
    var slash := LastIndexOf(path, '/');
    if slash >= 0 then path[slash + 1..] else path
  }

  /** The file name without its extension; a name whose only dot leads it keeps the dot. */
  function Stem(file: string): (r: string)
    ensures |r| <= |file| && r == file[..|r|]
    ensures |r| < |file| ==> |r| > 0 && file[|r|] == '.' && forall j :: |r| < j < |file| ==> file[j] != '.'
    ensures (exists j :: 0 < j < |file| && file[j] == '.') ==> |r| < |file|
    ensures (forall j :: 0 < j < |file| ==> file[j] != '.') ==> r == file
  {
    var dot := LastIndexOf(file, '.');
    if dot > 0 then file[..dot] else file
  }

  /** Underscores and hyphens become spaces. */
  function Spaced(s: string): string {
    ReplaceChar(ReplaceChar(s, '_', ' '), '-', ' ')
  }

  /** The first \s character at or after i, or the end. */
  function SpaceFrom(s: string, i: nat): (k: nat)
    requires i <= |s|
    ensures i <= k <= |s|
    ensures k < |s| ==> IsRegexSpace(s[k])
    ensures forall j :: i <= j < k ==> !IsRegexSpace(s[j])
    decreases |s| - i
  {
    if i == |s| || IsRegexSpace(s[i]) then i else SpaceFrom(s, i + 1)
  }

  /** The first character that is not \s at or after i, or the end. */
  function RunEnd(s: string, i: nat): (k: nat)
    requires i <= |s|
    ensures i <= k <= |s|
    ensures k < |s| ==> !IsRegexSpace(s[k])
    ensures forall j :: i <= j < k ==> IsRegexSpace(s[j])
    decreases |s| - i
  {
    if i == |s| || !IsRegexSpace(s[i]) then i else RunEnd(s, i + 1)
  }

  /** The fields between runs of \s, leading and trailing empty fields included. */
  function Fields(s: string): (parts: seq<string>)
    ensures |parts| >= 1
    decreases |s|
  {
    var k := SpaceFrom(s, 0);
    if k == |s| then [s]
    else [s[..k]] + Fields(s[RunEnd(s, k)..])
  }

  function DropTrailingEmpty(parts: seq<string>): (r: seq<string>)
    ensures |r| <= |parts| && r == parts[..|r|]
    ensures r == [] || r[|r| - 1] != []
  {
    if parts != [] && parts[|parts| - 1] == [] then DropTrailingEmpty(parts[..|parts| - 1]) else parts
  }

  /**
   * String.split("\\s+"): a string without \s is its own only field; otherwise
   * the fields between runs of \s, with trailing empty fields removed (a leading
   * empty field stays).
   */
  function SplitWs(s: string): seq<string> {
    if SpaceFrom(s, 0) == |s| then [s] else DropTrailingEmpty(Fields(s))
  }

  /** One word as the loop appends it: its first character upper-cased, then the rest. */
  function Capitalized(p: string): string
    requires p != []
  {
    [UpperChar(p[0])] + p[1..]
  }

  /** What the builder holds after the loop has seen parts: each non-empty part capitalized and followed by a space. */
  function Joined(parts: seq<string>): string {
    if parts == [] then []
    else
      var p := parts[|parts| - 1];
      Joined(parts[..|parts| - 1]) + (if p == [] then [] else Capitalized(p) + " ")
  }

  lemma JoinedStep(parts: seq<string>, i: nat)
    requires i < |parts|
    ensures Joined(parts[..i + 1]) == Joined(parts[..i]) + (if parts[i] == [] then [] else Capitalized(parts[i]) + " ")
  {
    assert parts[..i + 1][..i] == parts[..i];
  }

  /** The tooltip text for an image path. */
  function PrettyName(path: string): string {
    Trim(Joined(SplitWs(Spaced(Stem(BaseName(path))))))
  }

  /** The StringBuilder loop of prettyFileName over the split parts. */
  method AppendWords(parts: seq<string>) returns (sb: string)
    ensures sb == Joined(parts)
  {
    sb := "";
    var i := 0;
    while i < |parts|
      invariant 0 <= i <= |parts|
      invariant sb == Joined(parts[..i])
    {
      var p := parts[i];
      JoinedStep(parts, i);
      if p != [] {
        var before := sb;
        sb := sb + [UpperChar(p[0])];
        if |p| > 1 {
          sb := sb + p[1..];
        }
        sb := sb + " ";
        assert sb == before + (Capitalized(p) + " ");
      }
      i := i + 1;
    }
    assert parts[..i] == parts;
  }

  method PrettyFileName(resourcePath: string) returns (r: string)
    ensures r == PrettyName(resourcePath)
  {
    var slash := LastIndexOf(resourcePath, '/');
    var file := if slash >= 0 then resourcePath[slash + 1..] else resourcePath;
    ghost var base := file;
    assert base == BaseName(resourcePath);
    var dot := LastIndexOf(file, '.');
    if dot > 0 {
      file := file[..dot];
    }
    assert file == Stem(base);
    file := ReplaceChar(ReplaceChar(file, '_', ' '), '-', ' ');
    var parts := SplitWs(file);
    var sb := AppendWords(parts);
    r := Trim(sb);
  }

  // ---------------------------------------------------------------------------
  // Properties of the tooltip name
  // ---------------------------------------------------------------------------

  predicate IsSeparator(c: char) { c == '_' || c == '-' || c == '/' }

  /** No underscore, hyphen or slash anywhere. */
  predicate Clean(s: string) {
    forall k :: 0 <= k < |s| ==> !IsSeparator(s[k])
  }

  lemma SpacedIsClean(s: string)
    requires '/' !in s
    ensures Clean(Spaced(s))
  {
    var t := ReplaceChar(s, '_', ' ');
    assert forall k :: 0 <= k < |t| ==> t[k] != '/' && t[k] != '_' by {
      forall k | 0 <= k < |t| ensures t[k] != '/' && t[k] != '_' {
        assert s[k] in s;
      }
    }
  }

  lemma {:induction false} FieldsAreClean(s: string)
    requires Clean(s)
    ensures forall k :: 0 <= k < |Fields(s)| ==> Clean(Fields(s)[k])
    decreases |s|
  {
    var i := SpaceFrom(s, 0);
    if i < |s| {
      var rest := s[RunEnd(s, i)..];
      FieldsAreClean(rest);
      var parts := Fields(s);
      assert parts == [s[..i]] + Fields(rest);
      forall k | 0 <= k < |parts| ensures Clean(parts[k]) {
        if k > 0 {
          assert parts[k] == Fields(rest)[k - 1];
        }
      }
    }
  }

  lemma SplitIsClean(s: string)
    requires Clean(s)
    ensures forall k :: 0 <= k < |SplitWs(s)| ==> Clean(SplitWs(s)[k])
  {
    if SpaceFrom(s, 0) < |s| {
      FieldsAreClean(s);
      var parts := Fields(s);
      var r := DropTrailingEmpty(parts);
      forall k | 0 <= k < |r| ensures Clean(r[k]) {
        assert r[k] == parts[k];
      }
    }
  }

  lemma CapitalizedIsClean(p: string)
    requires p != [] && Clean(p)
    ensures Clean(Capitalized(p))
  {
    var c := Capitalized(p);
    forall k | 0 <= k < |c| ensures !IsSeparator(c[k]) {
      if k > 0 {
        assert c[k] == p[k];
      } else {
        assert !IsSeparator(p[0]);
      }
    }
  }

  lemma {:induction false} JoinedIsClean(parts: seq<string>)
    requires forall k :: 0 <= k < |parts| ==> Clean(parts[k])
    ensures Clean(Joined(parts))
  {
    if parts != [] {
      var n := |parts| - 1;
      var front := parts[..n];
      JoinedIsClean(front);
      var p := parts[n];
      if p != [] {
        CapitalizedIsClean(p);
        var piece := Capitalized(p) + " ";
        assert Clean(piece);
        CleanAppend(Joined(front), piece);
      } else {
        assert Joined(parts) == Joined(front) + [];
      }
    }
  }

  lemma CleanAppend(a: string, b: string)
    requires Clean(a) && Clean(b)
    ensures Clean(a + b)
  {
    var c := a + b;
    forall k | 0 <= k < |c| ensures !IsSeparator(c[k]) {
      if k < |a| {
        assert c[k] == a[k];
      } else {
        assert c[k] == b[k - |a|];
      }
    }
  }

  lemma TrimIsClean(s: string)
    requires Clean(s)
    ensures Clean(Trim(s))
  {
    var t := TrimStart(s);
    assert Clean(t) by {
      forall k | 0 <= k < |t| ensures !IsSeparator(t[k]) {
        assert t[k] == s[|s| - |t| + k];
      }
    }
    var r := TrimEnd(t);
    assert Trim(s) == r;
    forall k | 0 <= k < |r| ensures !IsSeparator(r[k]) {
      assert r[k] == t[k];
    }
  }

  /** The tooltip name holds no underscore, hyphen or slash. */
  lemma PrettyNameHasNoSeparators(path: string)
    ensures '_' !in PrettyName(path) && '-' !in PrettyName(path) && '/' !in PrettyName(path)
  {
    var base := BaseName(path);
    var stem := Stem(base);
    assert '/' !in stem by {
      assert forall k :: 0 <= k < |stem| ==> stem[k] == base[k];
    }
    SpacedIsClean(stem);
    var parts := SplitWs(Spaced(stem));
    SplitIsClean(Spaced(stem));
    JoinedIsClean(parts);
    TrimIsClean(Joined(parts));
    var r := PrettyName(path);
    assert r == Trim(Joined(parts));
    assert forall c :: c in r ==> !IsSeparator(c) by {
      forall c | c in r ensures !IsSeparator(c) {
        var k :| 0 <= k < |r| && r[k] == c;
      }
    }
  }

  /** A run of ASCII letters and digits. */
  predicate Word(w: string) {
    w != [] && forall k :: 0 <= k < |w| ==> 'a' <= w[k] <= 'z' || 'A' <= w[k] <= 'Z' || '0' <= w[k] <= '9'
  }

  lemma BaseNameAfterSlash(dir: string, file: string)
    requires '/' !in file
    ensures BaseName(dir + "/" + file) == file
  {
    var path := dir + "/" + file;
    var r := LastIndexOf(path, '/');
    assert path[|dir|] == '/';
    assert forall k :: |dir| < k < |path| ==> path[k] == file[k - |dir| - 1];
    assert r == |dir|;
    assert path[|dir| + 1..] == file;
  }

  lemma StemBeforeDot(stem: string, ext: string)
    requires stem != [] && '.' !in ext
    ensures Stem(stem + "." + ext) == stem
  {
    var file := stem + "." + ext;
    var r := LastIndexOf(file, '.');
    assert file[|stem|] == '.';
    assert forall k :: |stem| < k < |file| ==> file[k] == ext[k - |stem| - 1];
    assert r == |stem|;
    assert file[..|stem|] == stem;
  }

  lemma SpacedWords(w1: string, sep: char, w2: string)
    requires Word(w1) && Word(w2) && (sep == '_' || sep == '-' || sep == ' ')
    ensures Spaced(w1 + [sep] + w2) == w1 + " " + w2
  {
    var s := w1 + [sep] + w2;
    var t := w1 + " " + w2;
    var r := Spaced(s);
    assert |r| == |t|;
    forall k | 0 <= k < |r| ensures r[k] == t[k] {
      if k < |w1| {
        assert s[k] == w1[k] && t[k] == w1[k];
      } else if k > |w1| {
        assert s[k] == w2[k - |w1| - 1] && t[k] == w2[k - |w1| - 1];
      }
    }
  }

  lemma SplitTwoWords(w1: string, w2: string)
    requires Word(w1) && Word(w2)
    ensures SplitWs(w1 + " " + w2) == [w1, w2]
  {
    var s := w1 + " " + w2;
    var n := |w1|;
    assert forall k :: 0 <= k < n ==> s[k] == w1[k];
    var i := SpaceFrom(s, 0);
    assert s[n] == ' ';
    assert i == n;
    assert s[n + 1] == w2[0];
    var e := RunEnd(s, n);
    assert e == n + 1;
    assert s[..n] == w1;
    assert s[n + 1..] == w2;
    assert SpaceFrom(w2, 0) == |w2|;
    assert Fields(w2) == [w2];
    assert Fields(s) == [w1, w2];
  }

  lemma JoinedTwo(w1: string, w2: string)
    requires w1 != [] && w2 != []
    ensures Joined([w1, w2]) == Capitalized(w1) + " " + Capitalized(w2) + " "
  {
    assert [w1, w2][..1] == [w1];
    assert [w1][..0] == [];
    assert Joined([w1]) == [] + (Capitalized(w1) + " ");
    assert Joined([w1, w2]) == Joined([w1]) + (Capitalized(w2) + " ");
  }

  lemma TrimFinalSpace(x: string)
    requires x != [] && !IsTrimmable(x[0]) && !IsTrimmable(x[|x| - 1])
    ensures Trim(x + " ") == x
  {
    var s := x + " ";
    assert TrimStart(s) == s;
    assert s[..|s| - 1] == x;
    assert TrimEnd(x) == x;
    assert TrimEnd(s) == x;
  }

  lemma PathParts(dir: string, w1: string, sep: char, w2: string, ext: string)
    ensures dir + "/" + w1 + [sep] + w2 + "." + ext == dir + "/" + (w1 + [sep] + w2 + "." + ext)
  {
  }

  lemma CapitalizedPairEdges(w1: string, w2: string)
    requires Word(w1) && Word(w2)
    ensures var x := Capitalized(w1) + " " + Capitalized(w2); x != [] && !IsTrimmable(x[0]) && !IsTrimmable(x[|x| - 1])
  {
    var x := Capitalized(w1) + " " + Capitalized(w2);
    assert x[0] == UpperChar(w1[0]);
    assert x[|x| - 1] == Capitalized(w2)[|w2| - 1];
  }

  lemma FileHasNoSlash(w1: string, sep: char, w2: string, ext: string)
    requires Word(w1) && Word(w2) && Word(ext) && sep != '/'
    ensures '/' !in w1 + [sep] + w2 + "." + ext
    ensures '.' !in ext
  {
    var stem := w1 + [sep] + w2;
    var file := stem + "." + ext;
    forall k | 0 <= k < |file| ensures file[k] != '/' {
      if k < |w1| {
        assert file[k] == w1[k];
      } else if |w1| < k < |stem| {
        assert file[k] == w2[k - |w1| - 1];
      } else if k > |stem| {
        assert file[k] == ext[k - |stem| - 1];
      }
    }
    assert forall k :: 0 <= k < |ext| ==> ext[k] != '.';
  }

  /**
   * The documented example: a path such as skill_icons/bard/fire_ball.png
   * becomes Fire Ball. Any directory, two words joined by an underscore, a
   * hyphen or a space, and an extension give the two words capitalized.
   */
  lemma TwoWordName(dir: string, w1: string, sep: char, w2: string, ext: string)
    requires Word(w1) && Word(w2) && Word(ext) && (sep == '_' || sep == '-' || sep == ' ')
    ensures PrettyName(dir + "/" + w1 + [sep] + w2 + "." + ext) == Capitalized(w1) + " " + Capitalized(w2)
  {
    var stem := w1 + [sep] + w2;
    var file := stem + "." + ext;
    var path := dir + "/" + w1 + [sep] + w2 + "." + ext;
    var x := Capitalized(w1) + " " + Capitalized(w2);
    FileHasNoSlash(w1, sep, w2, ext);
    PathParts(dir, w1, sep, w2, ext);
    BaseNameAfterSlash(dir, file);
    assert BaseName(path) == file;
    StemBeforeDot(stem, ext);
    SpacedWords(w1, sep, w2);
    SplitTwoWords(w1, w2);
    JoinedTwo(w1, w2);
    CapitalizedPairEdges(w1, w2);
    TrimFinalSpace(x);
    assert Joined(SplitWs(Spaced(Stem(file)))) == x + " ";
  }
}
