/**
 * The editor's glyph list and text helpers (`editor.js`): the order and
 * the search filter of the glyph list, turning the text of the text
 * entry into lines of glyphs and back, and the editor's own way of
 * reading and writing a value at a change path.
 *
 * Text is a JavaScript string: a sequence of UTF-16 code units. A code
 * point above U+FFFF takes two of them, a surrogate pair.
 */
module EditorText {
  import opened Base
  import opened SelectionInfo

  /** A UTF-16 code unit. */
  type Unit = u: int | 0 <= u < 0x1_0000

  /** A Unicode code point. */
  type CodePoint = c: int | 0 <= c <= 0x10_FFFF

  /** A JavaScript string. */
  type Units = seq<Unit>

  const Slash: Unit := 0x2F
  const Space: Unit := 0x20
  const LineFeed: Unit := 0x0A
  const CarriageReturn: Unit := 0x0D

  //
  // compare, glyphItemSortFunc, glyphFilterFunc
  //

  /** `a < b` on strings: code unit by code unit, a proper prefix first. */
  predicate UnitsLess(a: Units, b: Units)
    decreases |a|
  {
    if |a| == 0 then |b| > 0
    else if |b| == 0 then false
    else if a[0] != b[0] then a[0] < b[0]
    else UnitsLess(a[1..], b[1..])
  }

  /** The string order is irreflexive, transitive and total. */
  lemma {:induction false} UnitsLessIrreflexive(a: Units)
    ensures !UnitsLess(a, a)
    decreases |a|
  {
    if |a| > 0 {
      UnitsLessIrreflexive(a[1..]);
    }
  }

  lemma {:induction false} UnitsLessTransitive(a: Units, b: Units, c: Units)
    requires UnitsLess(a, b) && UnitsLess(b, c)
    ensures UnitsLess(a, c)
    decreases |a|
  {
    if |a| > 0 && a[0] == b[0] && b[0] == c[0] {
      UnitsLessTransitive(a[1..], b[1..], c[1..]);
    }
  }

  lemma {:induction false} UnitsLessTotal(a: Units, b: Units)
    requires a != b
    ensures UnitsLess(a, b) != UnitsLess(b, a)
    decreases |a|
  {
    if |a| > 0 && |b| > 0 && a[0] == b[0] {
      assert a == [a[0]] + a[1..] && b == [b[0]] + b[1..];
      UnitsLessTotal(a[1..], b[1..]);
    }
  }

  /**
   * `compare`: 0 for equal values, `undefined` after everything else,
   * otherwise -1 or 1 as `less` (the source's `<`) orders them.
   */
  function Compare<T(==)>(a: Option<T>, b: Option<T>, less: (T, T) -> bool): (r: int)
    ensures r == 0 <==> a == b
    ensures a.None? && b.Some? ==> r == 1
    ensures a.Some? && b.None? ==> r == -1
    ensures a.Some? && b.Some? && a != b ==> (r == -1 <==> less(a.value, b.value))
    ensures r in {-1, 0, 1}
  {
    if a == b then 0
    else if a.None? then 1
    else if b.None? then -1
    else if less(a.value, b.value) then -1
    else 1
  }

  /** With a strict total order, `compare` is antisymmetric. */
  lemma CompareAntisymmetric<T>(a: Option<T>, b: Option<T>, less: (T, T) -> bool)
    requires forall x, y :: x != y ==> less(x, y) != less(y, x)
    ensures Compare(a, b, less) == -Compare(b, a, less)
  {
    if a.Some? && b.Some? && a != b {
      assert less(a.value, b.value) != less(b.value, a.value);
    }
  }

  /** `a < b` on code points. */
  function IntLess(a: CodePoint, b: CodePoint): bool {
    a < b
  }

  /** `a < b` on glyph names. */
  function NameLess(a: Units, b: Units): bool {
    UnitsLess(a, b)
  }

  /** An item of the glyph list: its name and its code points. */
  datatype GlyphItem = GlyphItem(glyphName: Units, unicodes: seq<CodePoint>)

  /** `item.unicodes[0]`. */
  function FirstCodePoint(item: GlyphItem): Option<CodePoint> {
    if |item.unicodes| > 0 then Some(item.unicodes[0]) else None
  }

  /** `glyphItemSortFunc`: by first code point, items without one last, then by glyph name. */
  function GlyphItemSort(item1: GlyphItem, item2: GlyphItem): int {
    var uniCmp := Compare(FirstCodePoint(item1), FirstCodePoint(item2), IntLess);
    var glyphNameCmp := Compare(Some(item1.glyphName), Some(item2.glyphName), NameLess);
    if uniCmp != 0 then uniCmp else glyphNameCmp
  }

  /** Whether `item1` comes first: the order `glyphItemSortFunc` sorts by. */
  predicate SortsBefore(item1: GlyphItem, item2: GlyphItem) {
    var u1 := FirstCodePoint(item1);
    var u2 := FirstCodePoint(item2);
    || (u1.Some? && u2.None?)
    || (u1.Some? && u2.Some? && u1.value < u2.value)
    || (u1 == u2 && UnitsLess(item1.glyphName, item2.glyphName))
  }

  /**
   * `glyphItemSortFunc` puts `item1` first exactly when it has the
   * smaller first code point, has one where the other has none, or has
   * the same one and the smaller name; it gives 0 only for equal names
   * and first code points, and swapping the items flips its sign.
   */
  lemma GlyphItemSortOrder(item1: GlyphItem, item2: GlyphItem)
    ensures GlyphItemSort(item1, item2) < 0 <==> SortsBefore(item1, item2)
    ensures GlyphItemSort(item1, item2) == 0 <==>
              FirstCodePoint(item1) == FirstCodePoint(item2) && item1.glyphName == item2.glyphName
    ensures GlyphItemSort(item1, item2) == -GlyphItemSort(item2, item1)
  {
    forall x: Units, y: Units | x != y ensures NameLess(x, y) != NameLess(y, x) {
      UnitsLessTotal(x, y);
    }
    var u1, u2 := FirstCodePoint(item1), FirstCodePoint(item2);
    if u1.Some? && u2.Some? {
      assert IntLess(u1.value, u2.value) == (u1.value < u2.value);
    }
    UnitsLessIrreflexive(item1.glyphName);
    CompareAntisymmetric(u1, u2, IntLess);
    CompareAntisymmetric(Some(item1.glyphName), Some(item2.glyphName), NameLess);
  }

  /** The order `glyphItemSortFunc` sorts by is transitive. */
  lemma SortsBeforeTransitive(a: GlyphItem, b: GlyphItem, c: GlyphItem)
    requires SortsBefore(a, b) && SortsBefore(b, c)
    ensures SortsBefore(a, c)
  {
    if FirstCodePoint(a) == FirstCodePoint(b) == FirstCodePoint(c) {
      UnitsLessTransitive(a.glyphName, b.glyphName, c.glyphName);
    }
  }

  /** `s` occurs in `t` at index `k`. */
  predicate OccursAt(s: Units, t: Units, k: int) {
    0 <= k <= |t| - |s| && t[k..k + |s|] == s
  }

  /** `t.indexOf(s) >= 0`. */
  predicate IsSubstring(s: Units, t: Units) {
    exists k | 0 <= k <= |t| :: OccursAt(s, t, k)
  }

  /** `String.fromCodePoint(cp)`: one code unit, or a surrogate pair above U+FFFF. */
  function Utf16(cp: CodePoint): (u: Units)
    ensures |u| == if cp < 0x1_0000 then 1 else 2
  {
    if cp < 0x1_0000 then [cp]
    else [0xD800 + (cp - 0x1_0000) / 0x400, 0xDC00 + (cp - 0x1_0000) % 0x400]
  }

  /** A search item that selects `item`: part of its name, or its first character. */
  predicate Matches(item: GlyphItem, searchString: Units) {
    IsSubstring(searchString, item.glyphName)
    || (FirstCodePoint(item).Some? && searchString == Utf16(FirstCodePoint(item).value))
  }

  /**
   * `glyphFilterFunc`: every item passes an empty search; otherwise an
   * item passes when some search item is part of its name or is its
   * first character.
   */
  method GlyphFilter(item: GlyphItem, searchItems: seq<Units>) returns (r: bool)
    ensures r <==> |searchItems| == 0 || exists s :: s in searchItems && Matches(item, s)
  {
    if |searchItems| == 0 {
      return true;
    }
    for k := 0 to |searchItems|
      invariant forall j :: 0 <= j < k ==> !Matches(item, searchItems[j])
    {
      var searchString := searchItems[k];
      if IsSubstring(searchString, item.glyphName) {
        assert Matches(item, searchItems[k]);
        return true;
      }
      if |item.unicodes| > 0 {
        var character := Utf16(item.unicodes[0]);
        if searchString == character {
          return true;
        }
      }
    }
    return false;
  }

  //
  // glyphNamesFromText
  //

  /** An entry of a glyph line: the character typed, if any, its glyph name, and whether that name is only a suggestion. */
  datatype GlyphEntry = GlyphEntry(character: Option<Units>, glyphName: Units, isUndefined: bool)

  /**
   * The font's character map (code point to glyph name) and glyph map
   * (glyph name to code points), and the two name services the editor
   * is handed (`getSuggestedGlyphNameFunc`, `getUnicodeFromGlyphNameFunc`).
   */
  datatype Maps = Maps(
    characterMap: map<CodePoint, Units>,
    glyphMap: map<Units, seq<CodePoint>>,
    suggestedGlyphName: CodePoint -> Units,
    unicodeFromGlyphName: Units -> Option<CodePoint>)

  /** A code unit `\s` matches in a JavaScript regular expression. */
  predicate IsSpace(u: Unit) {
    u in {0x09, 0x0A, 0x0B, 0x0C, 0x0D, 0x20, 0xA0, 0x1680, 0x2028, 0x2029, 0x202F, 0x205F, 0x3000, 0xFEFF}
    || 0x2000 <= u <= 0x200A
  }

  /** A code unit that ends a "/name": `glyphNameRE` is `[//\s]`. */
  predicate IsStop(u: Unit) {
    u == Slash || IsSpace(u)
  }

  /**
   * `glyphNameRE.test(text)` from `lastIndex = k`: the index of the first
   * "/" or white space at or after `k`, if there is one.
   */
  function FindStop(text: Units, k: nat): (r: Option<nat>)
    ensures r.Some? ==> k <= r.value < |text| && IsStop(text[r.value])
    ensures forall j | k <= j < (if r.Some? then r.value else |text|) :: !IsStop(text[j])
    decreases |text| - k
  {
    if k >= |text| then None
    else if IsStop(text[k]) then Some(k)
    else FindStop(text, k + 1)
  }

  predicate IsHighSurrogate(u: int) { 0xD800 <= u <= 0xDBFF }
  predicate IsLowSurrogate(u: int) { 0xDC00 <= u <= 0xDFFF }

  lemma DivModPair(a: int, b: int)
    requires 0 <= a && 0 <= b < 0x400
    ensures (a * 0x400 + b) / 0x400 == a && (a * 0x400 + b) % 0x400 == b
  {
  }

  /**
   * `text.codePointAt(i)`: a surrogate pair makes one code point; any
   * other unit, a lone surrogate included, is its own code point. The
   * units it reads are exactly what `String.fromCodePoint` writes for it.
   */
  function CodePointAt(text: Units, i: nat): (cp: CodePoint)
    requires i < |text|
    ensures i + |Utf16(cp)| <= |text| && text[i..i + |Utf16(cp)|] == Utf16(cp)
  {
    if IsHighSurrogate(text[i]) && i + 1 < |text| && IsLowSurrogate(text[i + 1]) then
      var a: int, b: int := text[i] - 0xD800, text[i + 1] - 0xDC00;
      DivModPair(a, b);
      0x1_0000 + a * 0x400 + b
    else
      text[i]
  }

  /** `codePointAt` reads back what `fromCodePoint` writes, whatever follows it, unless it is a lone surrogate. */
  lemma CodePointAtUtf16(cp: CodePoint, rest: Units)
    requires !IsHighSurrogate(cp) || |rest| == 0 || !IsLowSurrogate(rest[0])
    ensures CodePointAt(Utf16(cp) + rest, 0) == cp
  {
    if cp >= 0x1_0000 {
      var q, r := (cp - 0x1_0000) / 0x400, (cp - 0x1_0000) % 0x400;
      assert cp == 0x1_0000 + q * 0x400 + r;
    }
  }

  /** `characterMap[cp]`. */
  function Lookup(characterMap: map<CodePoint, Units>, cp: CodePoint): Option<Units> {
    if cp in characterMap then Some(characterMap[cp]) else None
  }

  /** The first of `codePoints` that the character map maps to `glyphName`. */
  function FirstMapped(codePoints: seq<CodePoint>, glyphName: Units, characterMap: map<CodePoint, Units>): (r: Option<CodePoint>)
    ensures r.Some? ==> r.value in codePoints && Lookup(characterMap, r.value) == Some(glyphName)
    ensures r.None? ==> forall cp :: cp in codePoints ==> Lookup(characterMap, cp) != Some(glyphName)
  {
    if |codePoints| == 0 then None
    else if Lookup(characterMap, codePoints[0]) == Some(glyphName) then Some(codePoints[0])
    else FirstMapped(codePoints[1..], glyphName, characterMap)
  }

  /**
   * The character of a glyph written as "/name": a code point of the glyph
   * that the character map maps back to it; or, for a glyph the font does
   * not have, the (non-zero) code point the name service gives.
   */
  function NameCharacter(glyphName: Units, maps: Maps): (r: Option<Units>)
    ensures r.Some? ==> |r.value| > 0
  {
    var codePoints := if glyphName in maps.glyphMap then maps.glyphMap[glyphName] else [];
    match FirstMapped(codePoints, glyphName, maps.characterMap)
    case Some(cp) => Some(Utf16(cp))
    case None =>
      if glyphName in maps.glyphMap then None
      else match maps.unicodeFromGlyphName(glyphName)
        case Some(cp) => if cp != 0 then Some(Utf16(cp)) else None
        case None => None
  }

  /**
   * The entry for a typed character: none when the character map maps it
   * to "", the suggested name marked undefined when it maps it to nothing.
   */
  function CharacterEntry(cp: CodePoint, glyphName: Option<Units>, maps: Maps): (r: Option<GlyphEntry>)
    ensures r.None? <==> glyphName == Some([])
    ensures r.Some? ==> r.value.character == Some(Utf16(cp))
    ensures r.Some? ==> (r.value.isUndefined <==> glyphName.None?)
    ensures r.Some? && glyphName.Some? ==> r.value.glyphName == glyphName.value
    ensures r.Some? && glyphName.None? ==> r.value.glyphName == maps.suggestedGlyphName(cp)
  {
    if glyphName == Some([]) then None
    else if glyphName.None? then Some(GlyphEntry(Some(Utf16(cp)), maps.suggestedGlyphName(cp), true))
    else Some(GlyphEntry(Some(Utf16(cp)), glyphName.value, false))
  }

  /** The entry for "/name": none for an empty name. */
  function NameEntry(glyphName: Units, maps: Maps): (r: Option<GlyphEntry>)
    ensures r.None? <==> glyphName == []
    ensures r.Some? ==> r.value == GlyphEntry(NameCharacter(glyphName, maps), glyphName, false)
  {
    if glyphName == [] then None
    else Some(GlyphEntry(NameCharacter(glyphName, maps), glyphName, false))
  }

  /**
   * One turn of the loop of `glyphNamesFromText` at index `i`: the entry
   * it pushes, if any, and the index the next turn starts at.
   */
  function Step(text: Units, i: nat, maps: Maps): (r: (Option<GlyphEntry>, nat))
    requires i < |text|
    ensures i < r.1 <= |text|
  {
    if text[i] == Slash then
      var k := i + 1;
      if k < |text| && text[k] == Slash then
        (CharacterEntry(Slash, Lookup(maps.characterMap, Slash), maps), k + 1)
      else
        match FindStop(text, k)
        case None => (NameEntry(text[k..], maps), |text|)
        case Some(j) => (NameEntry(text[k..j], maps), if text[j] == Slash then j else j + 1)
    else
      var cp := CodePointAt(text, i);
      (CharacterEntry(cp, Lookup(maps.characterMap, cp), maps), i + |Utf16(cp)|)
  }

  function OptionToSeq<T>(o: Option<T>): seq<T> {
    if o.Some? then [o.value] else []
  }

  /** The entries `glyphNamesFromText` makes of `text`. */
  function ParseText(text: Units, maps: Maps): seq<GlyphEntry>
    decreases |text|
  {
    if |text| == 0 then []
    else
      var r := Step(text, 0, maps);
      OptionToSeq(r.0) + ParseText(text[r.1..], maps)
  }

  lemma {:induction false} FindStopInSuffix(text: Units, i: nat, k: nat)
    requires i <= |text|
    ensures FindStop(text, i + k) ==
      match FindStop(text[i..], k)
      case None => None
      case Some(j) => Some(i + j)
    decreases |text| - i - k
  {
    if i + k < |text| {
      assert text[i..][k] == text[i + k];
      FindStopInSuffix(text, i, k + 1);
    }
  }

  /** The step at `i` is the step at the start of the text from `i`: nothing before `i` is read. */
  lemma StepAtSuffix(text: Units, i: nat, maps: Maps)
    requires i < |text|
    ensures Step(text, i, maps) == (Step(text[i..], 0, maps).0, i + Step(text[i..], 0, maps).1)
  {
    FindStopInSuffix(text, i, 1);
    SuffixReadsAlike(text, i);
  }

  /** What a step reads of the text from `i` is what it reads of the text at `i`. */
  lemma SuffixReadsAlike(text: Units, i: nat)
    requires i < |text|
    ensures text[i..][0] == text[i]
    ensures i + 1 < |text| ==> text[i..][1] == text[i + 1]
    ensures CodePointAt(text, i) == CodePointAt(text[i..], 0)
    ensures text[i + 1..] == text[i..][1..]
    ensures match FindStop(text[i..], 1)
      case None => true
      case Some(j) => text[i + 1..i + j] == text[i..][1..j] && text[i + j] == text[i..][j]
  {
  }

  /** The rest of the text from `i` reads as the step at `i` and the rest after it. */
  lemma ParseTextStep(text: Units, i: nat, maps: Maps)
    requires i < |text|
    ensures ParseText(text[i..], maps) ==
      OptionToSeq(Step(text, i, maps).0) + ParseText(text[Step(text, i, maps).1..], maps)
  {
    var suffix := text[i..];
    var r := Step(suffix, 0, maps);
    ParseTextUnfold(suffix, maps);
    StepAtSuffix(text, i, maps);
    assert suffix[r.1..] == text[i + r.1..];
    assert Step(text, i, maps).1 == i + r.1;
    assert Step(text, i, maps).0 == r.0;
    assert text[Step(text, i, maps).1..] == suffix[r.1..];
  }

  lemma ParseTextUnfold(text: Units, maps: Maps)
    requires |text| > 0
    ensures ParseText(text, maps) == OptionToSeq(Step(text, 0, maps).0) + ParseText(text[Step(text, 0, maps).1..], maps)
  {
  }

  /** The entry the loop pushes for a glyph name and a character, if any. */
  ghost function Pushed(glyphName: Option<Units>, character: Option<Units>, maps: Maps): Option<GlyphEntry>
    requires glyphName.Some? || (character.Some? && |character.value| > 0)
  {
    if glyphName == Some([]) then None
    else if glyphName.None? then
      Some(GlyphEntry(character, maps.suggestedGlyphName(CodePointAt(character.value, 0)), true))
    else Some(GlyphEntry(character, glyphName.value, false))
  }

  lemma PushedCharacter(cp: CodePoint, maps: Maps)
    ensures Pushed(Lookup(maps.characterMap, cp), Some(Utf16(cp)), maps) == CharacterEntry(cp, Lookup(maps.characterMap, cp), maps)
  {
    CodePointAtUtf16(cp, []);
    assert Utf16(cp) + [] == Utf16(cp);
  }

  lemma PushedName(name: Units, maps: Maps)
    ensures Pushed(Some(name), NameCharacter(name, maps), maps) == NameEntry(name, maps)
  {
  }

  /**
   * `glyphNamesFromText`: reads `text` into glyph entries. "//" is the
   * glyph of "/"; "/name" runs up to the next "/" or white space and
   * consumes a white space but not a "/"; any other character, a surrogate
   * pair being one, is looked up in the character map.
   */
  method GlyphNamesFromText(text: Units, maps: Maps) returns (glyphNames: seq<GlyphEntry>)
    ensures glyphNames == ParseText(text, maps)
  {
    glyphNames := [];
    var i := 0;
    while i < |text|
      invariant 0 <= i <= |text|
      invariant glyphNames + ParseText(text[i..], maps) == ParseText(text, maps)
      decreases |text| - i
    {
      var glyphName, character, next := ReadGlyph(text, i, maps);
      var entries := PushedEntries(glyphName, character, maps);
      ParseTextStep(text, i, maps);
      AppendAssociative(glyphNames, entries, ParseText(text[next..], maps));
      glyphNames := glyphNames + entries;
      i := next;
    }
  }

  /**
   * The first half of the loop body of `glyphNamesFromText`: the glyph name
   * and character read at `i`, and where the next pass starts.
   */
  method ReadGlyph(text: Units, i: nat, maps: Maps) returns (glyphName: Option<Units>, character: Option<Units>, next: nat)
    requires i < |text|
    ensures glyphName.Some? || (character.Some? && |character.value| > 0)
    ensures (Pushed(glyphName, character, maps), next) == Step(text, i, maps)
  {
    character := Some([text[i]]);
    if text[i] == Slash {
      if i + 1 < |text| && text[i + 1] == Slash {
        glyphName := Lookup(maps.characterMap, Slash);
        DoubleSlash(text, i, maps);
        PushedCharacter(Slash, maps);
        next := i + 2;
      } else {
        var stop := FindStop(text, i + 1);
        var name: Units;
        if stop.None? {
          name := text[i + 1..];
          NameRunsToStop(text, i, |text|, maps);
          next := |text|;
        } else {
          var j := stop.value;
          name := text[i + 1..j];
          NameRunsToStop(text, i, j, maps);
          next := if text[j] == Slash then j else j + 1;
        }
        glyphName := Some(name);
        character := NameCharacter(name, maps);
        PushedName(name, maps);
      }
    } else {
      var charCode := CodePointAt(text, i);
      StepCharacter(text, i, maps);
      glyphName := Lookup(maps.characterMap, charCode);
      next := if charCode >= 0x1_0000 then i + 2 else i + 1;
      character := Some(Utf16(charCode));
      PushedCharacter(charCode, maps);
    }
  }

  /** The second half of the loop body: the entry pushed, if any, its name suggested when the map has none. */
  method PushedEntries(glyphName: Option<Units>, character: Option<Units>, maps: Maps) returns (entries: seq<GlyphEntry>)
    requires glyphName.Some? || (character.Some? && |character.value| > 0)
    ensures entries == OptionToSeq(Pushed(glyphName, character, maps))
  {
    entries := [];
    if glyphName != Some([]) {
      var name := glyphName;
      var isUndefined := false;
      if name.None? && character.Some? && |character.value| > 0 {
        name := Some(maps.suggestedGlyphName(CodePointAt(character.value, 0)));
        isUndefined := true;
      }
      entries := [GlyphEntry(character, name.value, isUndefined)];
    }
  }

  /**
   * Whatever the character map holds, no entry has an empty glyph name
   * unless the name service suggested it: "/" followed by nothing, by
   * white space or by "/" gives no entry.
   */
  lemma {:induction false} NoEmptyNames(text: Units, maps: Maps)
    ensures forall e :: e in ParseText(text, maps) ==> e.glyphName != [] || e.isUndefined
    decreases |text|
  {
    if |text| > 0 {
      NoEmptyNames(text[Step(text, 0, maps).1..], maps);
    }
  }

  /**
   * "/name" runs up to the first "/" or white space, or to the end of
   * the text; a white space after it is consumed, a "/" is not.
   */
  lemma NameRunsToStop(text: Units, i: nat, j: nat, maps: Maps)
    requires i < j <= |text| && text[i] == Slash && !(i + 1 < |text| && text[i + 1] == Slash)
    requires forall k | i < k < j :: !IsStop(text[k])
    requires j < |text| ==> IsStop(text[j])
    ensures Step(text, i, maps) ==
      (NameEntry(text[i + 1..j], maps), if j < |text| && IsSpace(text[j]) then j + 1 else j)
  {
    var stop := FindStop(text, i + 1);
    if j < |text| {
      assert stop == Some(j);
    } else {
      assert stop == None;
      assert text[i + 1..j] == text[i + 1..];
    }
  }

  /** "//" is the glyph the character map gives "/", read as the character "/". */
  lemma DoubleSlash(text: Units, i: nat, maps: Maps)
    requires i + 1 < |text| && text[i] == Slash && text[i + 1] == Slash
    ensures Step(text, i, maps) == (CharacterEntry(Slash, Lookup(maps.characterMap, Slash), maps), i + 2)
    ensures Lookup(maps.characterMap, Slash) != Some([]) ==>
              Step(text, i, maps).0.Some? && Step(text, i, maps).0.value.character == Some([Slash])
  {
  }

  /** Any other character is looked up in the character map, whole. */
  lemma StepCharacter(text: Units, i: nat, maps: Maps)
    requires i < |text| && text[i] != Slash
    ensures var cp := CodePointAt(text, i);
      Step(text, i, maps) == (CharacterEntry(cp, Lookup(maps.characterMap, cp), maps), i + |Utf16(cp)|)
  {
  }

  /** A surrogate pair is one character: one entry, two code units. */
  lemma SurrogatePair(text: Units, i: nat, maps: Maps)
    requires i + 1 < |text| && IsHighSurrogate(text[i]) && IsLowSurrogate(text[i + 1])
    ensures Step(text, i, maps).1 == i + 2
    ensures Step(text, i, maps).0.Some? ==> Step(text, i, maps).0.value.character == Some(text[i..i + 2])
  {
  }

  //
  // textFromGlyphLines
  //

  /** `glyphInfo.character` is a non-empty string. */
  predicate HasCharacter(e: GlyphEntry) {
    e.character.Some? && |e.character.value| > 0
  }

  /**
   * What `textFromGlyphLines` writes for `e`, `next` being the entry after
   * it: the character, or "/name" and a space when the next entry is
   * written as its character.
   */
  function PieceAsWritten(e: GlyphEntry, next: Option<GlyphEntry>): Units {
    if HasCharacter(e) then e.character.value
    else ([Slash] + e.glyphName) + (if next.Some? && HasCharacter(next.value) then [Space] else [])
  }

  /** The same, with the character "/" written "//" so that it reads back as itself. */
  function Piece(e: GlyphEntry, next: Option<GlyphEntry>): (u: Units)
    ensures |u| > 0
    ensures !HasCharacter(e) ==> u[0] == Slash
  {
    if HasCharacter(e) && e.character.value == [Slash] then [Slash, Slash]
    else PieceAsWritten(e, next)
  }

  function FirstOf(line: seq<GlyphEntry>): Option<GlyphEntry> {
    if |line| > 0 then Some(line[0]) else None
  }

  /** The text a glyph line is written as, as the source writes it. */
  function LineTextAsWritten(line: seq<GlyphEntry>): Units
    decreases |line|
  {
    if |line| == 0 then [] else PieceAsWritten(line[0], FirstOf(line[1..])) + LineTextAsWritten(line[1..])
  }

  /** The text a glyph line is written as, with "/" escaped. */
  function LineText(line: seq<GlyphEntry>): Units
    decreases |line|
  {
    if |line| == 0 then [] else Piece(line[0], FirstOf(line[1..])) + LineText(line[1..])
  }

  /** `lines.join("\n")`. */
  function JoinLines(lines: seq<Units>): Units
    decreases |lines|
  {
    if |lines| == 0 then []
    else if |lines| == 1 then lines[0]
    else lines[0] + [LineFeed] + JoinLines(lines[1..])
  }

  /** The texts of the glyph lines. */
  function LineTexts(glyphLines: seq<seq<GlyphEntry>>): (r: seq<Units>)
    ensures |r| == |glyphLines|
  {
    seq(|glyphLines|, k requires 0 <= k < |glyphLines| => LineText(glyphLines[k]))
  }

  /**
   * `textFromGlyphLines`: writes each glyph as its character, or as
   * "/name" followed by a space when the next glyph is written as its
   * character, and joins the lines with "\n". The character "/" is
   * written "//" (see `SlashCharacterLost` for the unescaped form).
   */
  method TextFromGlyphLines(glyphLines: seq<seq<GlyphEntry>>) returns (text: Units)
    ensures text == JoinLines(LineTexts(glyphLines))
  {
    var textLines: seq<Units> := [];
    for k := 0 to |glyphLines|
      invariant textLines == LineTexts(glyphLines[..k])
    {
      var textLine := TextFromGlyphLine(glyphLines[k]);
      textLines := textLines + [textLine];
      assert LineTexts(glyphLines[..k + 1]) == LineTexts(glyphLines[..k]) + [LineText(glyphLines[k])];
    }
    assert glyphLines[..|glyphLines|] == glyphLines;
    text := JoinLines(textLines);
  }

  /** The text from entry `i` on is the piece of entry `i` and the text after it. */
  lemma LineTextAt(glyphLine: seq<GlyphEntry>, i: nat)
    requires i < |glyphLine|
    ensures LineText(glyphLine[i..]) ==
      Piece(glyphLine[i], if i + 1 < |glyphLine| then Some(glyphLine[i + 1]) else None) + LineText(glyphLine[i + 1..])
  {
    assert glyphLine[i..][1..] == glyphLine[i + 1..];
  }

  /** The inner loop of `textFromGlyphLines`: the text of one glyph line. */
  method TextFromGlyphLine(glyphLine: seq<GlyphEntry>) returns (textLine: Units)
    ensures textLine == LineText(glyphLine)
  {
    textLine := [];
    for i := 0 to |glyphLine|
      invariant textLine + LineText(glyphLine[i..]) == LineText(glyphLine)
    {
      LineTextAt(glyphLine, i);
      var next := if i + 1 < |glyphLine| then Some(glyphLine[i + 1]) else None;
      var piece := GlyphPiece(glyphLine[i], next);
      AppendAssociative(textLine, piece, LineText(glyphLine[i + 1..]));
      textLine := textLine + piece;
    }
    assert glyphLine[|glyphLine|..] == [];
  }

  /** The loop body of `textFromGlyphLines` for one glyph, followed by `next`. */
  method GlyphPiece(glyphInfo: GlyphEntry, next: Option<GlyphEntry>) returns (piece: Units)
    ensures piece == Piece(glyphInfo, next)
  {
    if glyphInfo.character.Some? && |glyphInfo.character.value| > 0 {
      if glyphInfo.character.value == [Slash] {
        piece := [Slash, Slash];
      } else {
        piece := glyphInfo.character.value;
      }
    } else {
      piece := [Slash] + glyphInfo.glyphName;
      if next.Some? && HasCharacter(next.value) {
        piece := piece + [Space];
      }
    }
  }

  //
  // glyphLinesFromText
  //

  /** The index of the first `u` in `text`, if any. */
  function IndexOf(text: Units, u: Unit): (r: Option<nat>)
    ensures r.Some? ==> r.value < |text| && text[r.value] == u
    ensures forall j | 0 <= j < (if r.Some? then r.value else |text|) :: text[j] != u
  {
    if |text| == 0 then None
    else if text[0] == u then Some(0)
    else match IndexOf(text[1..], u)
      case None => None
      case Some(j) => Some(j + 1)
  }

  /** A line without its last unit when that is "\r". */
  function DropCarriageReturn(s: Units): Units {
    if |s| > 0 && s[|s| - 1] == CarriageReturn then s[..|s| - 1] else s
  }

  /** `text.split(/\r?\n/)`: the lines between the "\n"s, each "\r" right before a "\n" dropped. */
  function SplitLines(text: Units): (lines: seq<Units>)
    ensures |lines| >= 1
    decreases |text|
  {
    match IndexOf(text, LineFeed)
    case None => [text]
    case Some(j) => [DropCarriageReturn(text[..j])] + SplitLines(text[j + 1..])
  }

  /** A text with neither "\n" nor "\r" in it. */
  predicate NoBreaks(s: Units) {
    forall k | 0 <= k < |s| :: s[k] != LineFeed && s[k] != CarriageReturn
  }

  /** Joining with "\n" and splitting gives the lines back when none breaks. */
  lemma {:induction false} SplitJoin(lines: seq<Units>)
    requires |lines| >= 1 && forall k | 0 <= k < |lines| :: NoBreaks(lines[k])
    ensures SplitLines(JoinLines(lines)) == lines
    decreases |lines|
  {
    if |lines| > 1 {
      var text := JoinLines(lines);
      var head := lines[0];
      assert text == head + [LineFeed] + JoinLines(lines[1..]);
      assert text[|head|] == LineFeed;
      assert IndexOf(text, LineFeed) == Some(|head|) by {
        forall j | 0 <= j < |head| ensures text[j] != LineFeed {
          assert text[j] == head[j];
        }
      }
      assert text[..|head|] == head;
      assert text[|head| + 1..] == JoinLines(lines[1..]);
      SplitJoin(lines[1..]);
      assert lines == [head] + lines[1..];
    }
  }

  /** Splitting and joining with "\n" gives a text without "\r" back. */
  lemma {:induction false} JoinSplit(text: Units)
    requires forall k | 0 <= k < |text| :: text[k] != CarriageReturn
    ensures JoinLines(SplitLines(text)) == text
    decreases |text|
  {
    var found := IndexOf(text, LineFeed);
    if found.Some? {
      var j := found.value;
      var line, rest := text[..j], text[j + 1..];
      JoinSplit(rest);
      SplitAtLineFeed(text, j);
      JoinCons(line, SplitLines(rest));
      SplitAround(text, j);
    }
  }

  /** Where the first "\n" of a text without "\r" is, the text splits into the line before it and the lines after it. */
  lemma SplitAtLineFeed(text: Units, j: nat)
    requires forall k | 0 <= k < |text| :: text[k] != CarriageReturn
    requires IndexOf(text, LineFeed) == Some(j)
    ensures SplitLines(text) == [text[..j]] + SplitLines(text[j + 1..])
  {
    assert DropCarriageReturn(text[..j]) == text[..j];
  }

  lemma SplitAround<T>(s: seq<T>, j: nat)
    requires j < |s|
    ensures s == s[..j] + [s[j]] + s[j + 1..]
  {
  }

  lemma JoinCons(line: Units, lines: seq<Units>)
    requires |lines| >= 1
    ensures JoinLines([line] + lines) == line + [LineFeed] + JoinLines(lines)
  {
    assert ([line] + lines)[1..] == lines;
  }

  /** The glyph lines of `text`: each of its lines read into glyph entries. */
  function GlyphLinesOf(text: Units, maps: Maps): (r: seq<seq<GlyphEntry>>)
    ensures |r| == |SplitLines(text)|
  {
    var lines := SplitLines(text);
    seq(|lines|, k requires 0 <= k < |lines| => ParseText(lines[k], maps))
  }

  /** `glyphLinesFromText`: one glyph line per line of the text. */
  method GlyphLinesFromText(text: Units, maps: Maps) returns (glyphLines: seq<seq<GlyphEntry>>)
    ensures glyphLines == GlyphLinesOf(text, maps)
  {
    var lines := SplitLines(text);
    glyphLines := [];
    for k := 0 to |lines|
      invariant |glyphLines| == k
      invariant forall j | 0 <= j < k :: glyphLines[j] == ParseText(lines[j], maps)
    {
      var glyphNames := GlyphNamesFromText(lines[k], maps);
      glyphLines := glyphLines + [glyphNames];
    }
  }

  //
  // Writing a text and reading it again
  //

  /**
   * A glyph entry that is written so that it reads back as itself: a
   * character that is no lone surrogate and no line break, entered as
   * the character map has it; or a glyph name without "/" or white space
   * and without a character.
   */
  predicate Canonical(e: GlyphEntry, maps: Maps) {
    if HasCharacter(e) then
      var u := e.character.value;
      var cp := CodePointAt(u, 0);
      && u == Utf16(cp)
      && !(0xD800 <= cp <= 0xDFFF) && cp != LineFeed && cp != CarriageReturn
      && CharacterEntry(cp, Lookup(maps.characterMap, cp), maps) == Some(e)
    else
      && e.character.None?
      && (forall k | 0 <= k < |e.glyphName| :: !IsStop(e.glyphName[k]))
      && NameEntry(e.glyphName, maps) == Some(e)
  }

  /** A canonical entry's piece reads back as the entry, in one step. */
  lemma StepReadsPiece(e: GlyphEntry, next: Option<GlyphEntry>, t: Units, maps: Maps)
    requires Canonical(e, maps)
    requires next.None? ==> t == []
    requires next.Some? ==> |t| > 0 && (!HasCharacter(next.value) ==> t[0] == Slash)
    ensures Step(Piece(e, next) + t, 0, maps) == (Some(e), |Piece(e, next)|)
  {
    var piece := Piece(e, next);
    var text := piece + t;
    if HasCharacter(e) {
      var u := e.character.value;
      var cp := CodePointAt(u, 0);
      if u == [Slash] {
        assert text[0] == Slash && text[1] == Slash;
      } else {
        assert piece == Utf16(cp);
        CodePointAtUtf16(cp, t);
        assert text[0] != Slash;
      }
    } else {
      var name := e.glyphName;
      var j := 1 + |name|;
      assert text[0] == Slash;
      assert text[1..j] == name;
      assert text[1] != Slash;
      forall k | 1 <= k < j ensures !IsStop(text[k]) {
        assert text[k] == name[k - 1];
      }
      if j < |text| {
        assert IsStop(text[j]);
        assert FindStop(text, 1) == Some(j);
      } else {
        assert FindStop(text, 1) == None;
        assert text[1..] == name;
      }
    }
  }

  /** A canonical entry's piece reads back as the entry, followed by whatever comes after it. */
  lemma ParseTextPiece(e: GlyphEntry, next: Option<GlyphEntry>, t: Units, maps: Maps)
    requires Canonical(e, maps)
    requires next.None? ==> t == []
    requires next.Some? ==> |t| > 0 && (!HasCharacter(next.value) ==> t[0] == Slash)
    ensures ParseText(Piece(e, next) + t, maps) == [e] + ParseText(t, maps)
  {
    var piece := Piece(e, next);
    StepReadsPiece(e, next, t, maps);
    assert (piece + t)[|piece|..] == t;
  }

  /** A line of canonical entries is written and read back as itself. */
  lemma {:induction false} LineRoundTrip(line: seq<GlyphEntry>, maps: Maps)
    requires forall k | 0 <= k < |line| :: Canonical(line[k], maps)
    ensures ParseText(LineText(line), maps) == line
    decreases |line|
  {
    if |line| > 0 {
      var rest := line[1..];
      ParseTextPiece(line[0], FirstOf(rest), LineText(rest), maps);
      LineRoundTrip(rest, maps);
      assert line == [line[0]] + rest;
    }
  }

  /** A line of canonical entries is written without line breaks. */
  lemma {:induction false} LineHasNoBreaks(line: seq<GlyphEntry>, maps: Maps)
    requires forall k | 0 <= k < |line| :: Canonical(line[k], maps)
    ensures NoBreaks(LineText(line))
    decreases |line|
  {
    if |line| > 0 {
      LineHasNoBreaks(line[1..], maps);
      var piece := Piece(line[0], FirstOf(line[1..]));
      assert NoBreaks(piece);
      assert LineText(line) == piece + LineText(line[1..]);
    }
  }

  /** The text the glyph lines are written as. */
  function TextOf(glyphLines: seq<seq<GlyphEntry>>): Units {
    JoinLines(LineTexts(glyphLines))
  }

  /**
   * Glyph lines of canonical entries survive `textFromGlyphLines` and
   * `glyphLinesFromText` in turn.
   */
  lemma TextRoundTrip(glyphLines: seq<seq<GlyphEntry>>, maps: Maps)
    requires |glyphLines| >= 1
    requires forall k, i | 0 <= k < |glyphLines| && 0 <= i < |glyphLines[k]| :: Canonical(glyphLines[k][i], maps)
    ensures GlyphLinesOf(TextOf(glyphLines), maps) == glyphLines
  {
    var texts := LineTexts(glyphLines);
    forall k | 0 <= k < |texts| ensures NoBreaks(texts[k]) && ParseText(texts[k], maps) == glyphLines[k] {
      LineHasNoBreaks(glyphLines[k], maps);
      LineRoundTrip(glyphLines[k], maps);
    }
    SplitJoin(texts);
  }

  /**
   * As written, `textFromGlyphLines` writes the character "/" that "//"
   * reads as a bare "/", which reads as nothing; written "//", it reads
   * back as itself.
   */
  lemma SlashCharacterLost(maps: Maps)
    requires Lookup(maps.characterMap, Slash) != Some([])
    ensures |ParseText([Slash, Slash], maps)| == 1
    ensures ParseText([Slash, Slash], maps)[0].character == Some([Slash])
    ensures ParseText(LineTextAsWritten(ParseText([Slash, Slash], maps)), maps) == []
    ensures ParseText(LineText(ParseText([Slash, Slash], maps)), maps) == ParseText([Slash, Slash], maps)
  {
    var line := ParseText([Slash, Slash], maps);
    var e := CharacterEntry(Slash, Lookup(maps.characterMap, Slash), maps);
    assert Step([Slash, Slash], 0, maps) == (e, 2);
    assert [Slash, Slash][2..] == [];
    assert e.Some?;
    assert line == OptionToSeq(e) + ParseText([], maps);
    assert line == [e.value];
    assert line[1..] == [];
    assert LineTextAsWritten(line) == [Slash];
    assert FindStop([Slash], 1) == None;
    assert Step([Slash], 0, maps) == (None, 1);
    assert [Slash][1..] == [];
    assert LineText(line) == [Slash, Slash];
  }

  //
  // getNestedValue, setNestedValue
  //

  /**
   * What the editor's `getNestedValue` gives: the value reached by reading
   * the path's keys in turn, where any step that reads `undefined`
   * raises the invalid change path error and a step from `undefined` or
   * `null` raises a TypeError.
   */
  function StrictNestedValue(instance: Instance, subject: Val, path: seq<string>): Result<Val, NestedError>
    reads instance
    decreases |path|
  {
    if |path| == 0 then Ok(subject)
    else
      match instance.Get(subject, path[0])
      case Err(e) => Err(e)
      case Ok(next) => if next == Undefined then Err(InvalidChangePath) else StrictNestedValue(instance, next, path[1..])
  }

  /**
   * Where the editor's walk succeeds, it reads what the selection info
   * panel's walk reads, and never `undefined` after a step.
   */
  lemma {:induction false} StrictAgrees(instance: Instance, subject: Val, path: seq<string>)
    requires StrictNestedValue(instance, subject, path).Ok?
    ensures instance.NestedValue(subject, path) == StrictNestedValue(instance, subject, path)
    ensures |path| > 0 ==> StrictNestedValue(instance, subject, path).value != Undefined
    decreases |path|
  {
    if |path| > 0 {
      var next := instance.Get(subject, path[0]).value;
      StrictAgrees(instance, next, path[1..]);
    }
  }

  /**
   * The editor's walk raises the invalid change path error exactly when
   * some non-empty prefix of the path reads `undefined`.
   */
  lemma {:induction false} StrictInvalidMeans(instance: Instance, subject: Val, path: seq<string>)
    ensures StrictNestedValue(instance, subject, path) == Err(InvalidChangePath) <==>
              exists i :: 1 <= i <= |path| && instance.NestedValue(subject, path[..i]) == Ok(Undefined)
    decreases |path|
  {
    if |path| > 0 {
      var key, rest := path[0], path[1..];
      assert path[..1][1..] == [];
      match instance.Get(subject, key)
      case Err(e) =>
        forall i | 1 <= i <= |path| ensures instance.NestedValue(subject, path[..i]).Err? {
          assert path[..i][0] == key;
        }
      case Ok(next) =>
        if next != Undefined {
          StrictInvalidMeans(instance, next, rest);
          forall i | 2 <= i <= |path|
            ensures instance.NestedValue(subject, path[..i]) == instance.NestedValue(next, rest[..i - 1])
          {
            assert path[..i][0] == key && path[..i][1..] == rest[..i - 1];
          }
          if exists i :: 1 <= i <= |rest| && instance.NestedValue(next, rest[..i]) == Ok(Undefined) {
            var i :| 1 <= i <= |rest| && instance.NestedValue(next, rest[..i]) == Ok(Undefined);
            assert instance.NestedValue(subject, path[..i + 1]) == Ok(Undefined);
          }
          if exists i :: 1 <= i <= |path| && instance.NestedValue(subject, path[..i]) == Ok(Undefined) {
            var i :| 1 <= i <= |path| && instance.NestedValue(subject, path[..i]) == Ok(Undefined);
            assert instance.NestedValue(subject, path[..1]) == Ok(next);
            assert instance.NestedValue(next, rest[..i - 1]) == Ok(Undefined);
          }
        } else {
          assert instance.NestedValue(subject, path[..1]) == Ok(Undefined);
        }
    }
  }

  /** In a valid instance, the editor's walk from a value that is not dangling ends on one that is not. */
  lemma {:induction false} StrictNestedValueClosed(instance: Instance, subject: Val, path: seq<string>)
    requires instance.Valid() && instance.Closed(subject)
    ensures StrictNestedValue(instance, subject, path).Ok? ==> instance.Closed(StrictNestedValue(instance, subject, path).value)
    decreases |path|
  {
    if |path| > 0 && instance.Get(subject, path[0]).Ok? {
      StrictNestedValueClosed(instance, instance.Get(subject, path[0]).value, path[1..]);
    }
  }

  /** The editor's `getNestedValue`: the loop that walks the path. */
  method GetNestedValue(instance: Instance, subject: Val, path: seq<string>) returns (r: Result<Val, NestedError>)
    ensures r == StrictNestedValue(instance, subject, path)
  {
    var current := subject;
    for i := 0 to |path|
      invariant StrictNestedValue(instance, subject, path) == StrictNestedValue(instance, current, path[i..])
    {
      assert path[i..][1..] == path[i + 1..];
      var next := instance.Get(current, path[i]);
      if next.Err? {
        return Err(next.error);
      }
      current := next.value;
      if current == Undefined {
        return Err(InvalidChangePath);
      }
    }
    r := Ok(current);
  }

  /**
   * The editor's `setNestedValue`: resolves the parent with the editor's
   * walk and sets its last key; only that property of that object
   * changes. A parent that is not an object raises (module code is
   * strict).
   */
  method SetNestedValue(instance: Instance, subject: Val, path: seq<string>, value: Val) returns (r: Outcome<NestedError>)
    requires instance.Valid() && instance.Closed(subject) && instance.Closed(value)
    modifies instance
    ensures instance.Valid()
    ensures var parent := old(StrictNestedValue(instance, subject, ParentPath(path)));
      && (parent.Err? ==> r == Fail(parent.error) && instance.objects == old(instance.objects))
      && (parent.Ok? && !parent.value.Ref? ==> r == Fail(TypeError) && instance.objects == old(instance.objects))
      && (parent.Ok? && parent.value.Ref? ==>
            && r == Pass
            && parent.value.id in old(instance.objects)
            && instance.objects == old(instance.objects)[parent.value.id := old(instance.objects)[parent.value.id][LastKey(path) := value]])
  {
    var key := LastKey(path);
    var parent := GetNestedValue(instance, subject, ParentPath(path));
    if parent.Err? {
      return Fail(parent.error);
    }
    if !parent.value.Ref? {
      return Fail(TypeError);
    }
    StrictNestedValueClosed(instance, subject, ParentPath(path));
    instance.PutKey(parent.value.id, key, value);
    r := Pass;
  }
}
