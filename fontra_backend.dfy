/**
 * The file-based font backend (`backends/fontra.py`): the glyph-info
 * table and its code-point cells, the kerning table format, the write
 * scheduler, and the backend's glyph-map bookkeeping.
 *
 * A CSV file is the sequence of rows the `csv` module reads or writes
 * with ";" as delimiter, each row a sequence of cells (quoting is the
 * module's business). A Python dict is a sequence of entries in
 * insertion order with distinct keys, updated with `Put`.
 */
module FontraBackend {
  import opened Base

  type Row = seq<string>

  /** Why reading a file fails: the exception the reader raises. */
  datatype ReadError =
    | NoMoreRows                 // `next()` on an exhausted reader raises StopIteration
    | HeaderMismatch             // the glyph-info header assertion fails
    | EmptyRow                   // `glyphName, *rest = row` on a blank line raises ValueError
    | CodePointError(entry: string)  // `int(entry, 16)` raises ValueError
    | KerningParseError(problem: KerningProblem, lineNumber: Option<nat>)

  /** The messages `KerningParseError` carries, with `(line None)` when the file ended. */
  datatype KerningProblem =
    | ExpectedType               // "expected TYPE keyword"
    | ExpectedTypeValue          // "expected TYPE value string"
    | ExpectedGroups             // "expected GROUPS keyword"
    | ExpectedValues             // "expected VALUES keyword"
    | ExpectedSourceIdentifiers  // "expected source identifier row"
    | ExpectedKernValues         // "expected kern values"
    | ValueParse                 // "parse error: ..."

  //
  // Python's string order, and `sorted` on the items of a dict
  //

  /** Python's `a < b` on strings: code point by code point, a proper prefix first. */
  predicate StrLess(a: string, b: string) {
    if |a| == 0 then |b| > 0
    else if |b| == 0 then false
    else if a[0] != b[0] then a[0] < b[0]
    else StrLess(a[1..], b[1..])
  }

  lemma {:induction false} StrLessIrreflexive(a: string)
    ensures !StrLess(a, a)
  {
    if |a| > 0 {
      StrLessIrreflexive(a[1..]);
    }
  }

  lemma {:induction false} StrLessTransitive(a: string, b: string, c: string)
    requires StrLess(a, b) && StrLess(b, c)
    ensures StrLess(a, c)
  {
    if |a| > 0 && a[0] == b[0] && b[0] == c[0] {
      StrLessTransitive(a[1..], b[1..], c[1..]);
    }
  }

  lemma {:induction false} StrLessTotal(a: string, b: string)
    requires a != b
    ensures StrLess(a, b) || StrLess(b, a)
  {
    if |a| > 0 && |b| > 0 && a[0] == b[0] {
      assert a == [a[0]] + a[1..];
      assert b == [b[0]] + b[1..];
      StrLessTotal(a[1..], b[1..]);
    }
  }

  /** `d.get(key)`. */
  function Get<V>(d: seq<(string, V)>, key: string): Option<V> {
    if |d| == 0 then None
    else if d[0].0 == key then Some(d[0].1)
    else Get(d[1..], key)
  }

  lemma {:induction false} GetPut<V>(d: seq<(string, V)>, key: string, value: V, k: string)
    ensures Get(Put(d, key, value), k) == if k == key then Some(value) else Get(d, k)
  {
    if |d| > 0 && d[0].0 != key {
      GetPut(d[1..], key, value, k);
    }
  }

  /** Assigning a key the dict lacks appends an entry. */
  lemma {:induction false} PutNew<V>(d: seq<(string, V)>, key: string, value: V)
    requires Get(d, key) == None
    ensures Put(d, key, value) == d + [(key, value)]
  {
    if |d| > 0 {
      PutNew(d[1..], key, value);
      assert d == [d[0]] + d[1..];
    }
  }

  /** Assigning the same key twice keeps the second value, in the first one's place. */
  lemma {:induction false} PutPut<V>(d: seq<(string, V)>, key: string, value1: V, value2: V)
    ensures Put(Put(d, key, value1), key, value2) == Put(d, key, value2)
  {
    if |d| > 0 && d[0].0 != key {
      PutPut(d[1..], key, value1, value2);
    }
  }

  lemma {:induction false} GetAbsent<V>(d: seq<(string, V)>, key: string)
    requires forall j | 0 <= j < |d| :: d[j].0 != key
    ensures Get(d, key) == None
  {
    if |d| > 0 {
      GetAbsent(d[1..], key);
    }
  }

  /** Keys strictly increasing. */
  predicate SortedByKey<V>(d: seq<(string, V)>) {
    |d| < 2 || (StrLess(d[0].0, d[1].0) && SortedByKey(d[1..]))
  }

  lemma {:induction false} SortedLess<V>(d: seq<(string, V)>, a: nat, b: nat)
    requires SortedByKey(d) && a < b < |d|
    ensures StrLess(d[a].0, d[b].0)
  {
    if a > 0 {
      SortedLess(d[1..], a - 1, b - 1);
    } else if b > 1 {
      SortedLess(d[1..], 0, b - 1);
      StrLessTransitive(d[0].0, d[1].0, d[b].0);
    }
  }

  lemma SortedDistinct<V>(d: seq<(string, V)>)
    requires SortedByKey(d)
    ensures DistinctKeys(d)
  {
    forall a, b | 0 <= a < b < |d|
      ensures d[a].0 != d[b].0
    {
      SortedLess(d, a, b);
      StrLessIrreflexive(d[a].0);
    }
  }

  /** Inserts `e` before the first entry whose key is above `e`'s. */
  function InsertByKey<V>(e: (string, V), d: seq<(string, V)>): (r: seq<(string, V)>)
    ensures |r| == |d| + 1
    ensures r[0] == e || (|d| > 0 && r[0] == d[0])
  {
    if |d| == 0 || StrLess(e.0, d[0].0) then [e] + d
    else [d[0]] + InsertByKey(e, d[1..])
  }

  /**
   * `sorted(d.items())`: the keys of a dict are distinct, so the item
   * tuples compare by key alone.
   */
  function SortByKey<V>(d: seq<(string, V)>): (r: seq<(string, V)>)
    ensures |r| == |d|
  {
    if |d| == 0 then [] else InsertByKey(d[0], SortByKey(d[1..]))
  }

  lemma {:induction false} InsertByKeyFacts<V>(e: (string, V), s: seq<(string, V)>)
    requires SortedByKey(s) && Get(s, e.0) == None
    ensures SortedByKey(InsertByKey(e, s))
    ensures forall k :: Get(InsertByKey(e, s), k) == if k == e.0 then Some(e.1) else Get(s, k)
    ensures forall x :: x in InsertByKey(e, s) <==> x == e || x in s
  {
    if |s| > 0 && !StrLess(e.0, s[0].0) {
      StrLessTotal(e.0, s[0].0);
      InsertByKeyFacts(e, s[1..]);
    }
  }

  /** Sorting the items of a dict orders them by key and keeps every key's value. */
  lemma {:induction false} SortByKeyFacts<V>(d: seq<(string, V)>)
    requires DistinctKeys(d)
    ensures SortedByKey(SortByKey(d)) && DistinctKeys(SortByKey(d))
    ensures forall k :: Get(SortByKey(d), k) == Get(d, k)
    ensures forall x :: x in SortByKey(d) <==> x in d
  {
    if |d| > 0 {
      assert d == [d[0]] + d[1..];
      var t := d[1..];
      forall a, b | 0 <= a < b < |t|
        ensures t[a].0 != t[b].0
      {
        assert t[a] == d[a + 1] && t[b] == d[b + 1];
      }
      SortByKeyFacts(t);
      forall j | 0 <= j < |t|
        ensures t[j].0 != d[0].0
      {
        assert t[j] == d[j + 1];
      }
      GetAbsent(t, d[0].0);
      InsertByKeyFacts(d[0], SortByKey(t));
    }
    SortedDistinct(SortByKey(d));
  }

  //
  // Digits: `int(s, base)` and the numbers `format` and `str` write
  //

  /** The value of a digit character of base 16 or less, and 16 for anything else. */
  function DigitValue(c: char): nat {
    if '0' <= c <= '9' then c as int - 48
    else if 'A' <= c <= 'F' then c as int - 55
    else if 'a' <= c <= 'f' then c as int - 87
    else 16
  }

  predicate AllDigits(s: string, base: nat) {
    forall c | c in s :: DigitValue(c) < base
  }

  /** The digit `d` as written, upper case above 9. */
  function DigitChar(d: nat): (c: char)
    requires d < 16
    ensures DigitValue(c) == d
  {
    if d < 10 then (48 + d) as char else (55 + d) as char
  }

  lemma DivMod(n: nat, base: nat)
    requires base == 10 || base == 16
    ensures n == (n / base) * base + n % base && n % base < base
    ensures n >= base ==> n / base < n
  {
    if base == 10 {
    } else {
    }
  }

  /** The digits of `n` in `base`, most significant first, without leading zeros. */
  function Digits(n: nat, base: nat): (s: string)
    requires base == 10 || base == 16
    ensures |s| > 0 && AllDigits(s, base)
    decreases n
  {
    DivMod(n, base);
    if n < base then [DigitChar(n)]
    else Digits(n / base, base) + [DigitChar(n % base)]
  }

  /** The number the digits `s` spell in `base`. */
  function ValueOf(s: string, base: nat): nat {
    if |s| == 0 then 0
    else ValueOf(s[..|s| - 1], base) * base + DigitValue(s[|s| - 1])
  }

  lemma {:induction false} ValueOfDigits(n: nat, base: nat)
    requires base == 10 || base == 16
    ensures ValueOf(Digits(n, base), base) == n
    decreases n
  {
    if n >= base {
      var s := Digits(n, base);
      var q, m := n / base, n % base;
      DivMod(n, base);
      assert s[..|s| - 1] == Digits(q, base);
      assert DigitValue(s[|s| - 1]) == m;
      ValueOfDigits(q, base);
      assert ValueOf(s, base) == q * base + m;
    }
  }

  function Zeros(k: nat): (s: string)
    ensures |s| == k && forall c | c in s :: c == '0'
  {
    seq(k, _ => '0')
  }

  lemma {:induction false} ZerosValue(k: nat, base: nat)
    ensures ValueOf(Zeros(k), base) == 0
  {
    if k > 0 {
      assert Zeros(k)[..k - 1] == Zeros(k - 1);
      ZerosValue(k - 1, base);
    }
  }

  lemma {:induction false} LeadingZeros(k: nat, s: string, base: nat)
    ensures ValueOf(Zeros(k) + s, base) == ValueOf(s, base)
    decreases |s|
  {
    var t := Zeros(k) + s;
    if |s| == 0 {
      assert t == Zeros(k);
      ZerosValue(k, base);
    } else {
      assert t[..|t| - 1] == Zeros(k) + s[..|s| - 1];
      assert t[|t| - 1] == s[|s| - 1];
      LeadingZeros(k, s[..|s| - 1], base);
    }
  }

  /** `str(v)` of an integer. */
  function IntToString(v: int): string {
    if v < 0 then "-" + Digits(-v, 10) else Digits(v, 10)
  }

  //
  // Whitespace, `str.strip` and `str.split`
  //

  /** `c.isspace()`. */
  predicate IsSpace(c: char) {
    var n := c as int;
    n == 0x20 || 0x09 <= n <= 0x0D || 0x1C <= n <= 0x1F || n == 0x85 || n == 0xA0
    || n == 0x1680 || 0x2000 <= n <= 0x200A || n == 0x2028 || n == 0x2029
    || n == 0x202F || n == 0x205F || n == 0x3000
  }

  predicate NoSpace(s: string) {
    forall c | c in s :: !IsSpace(c)
  }

  function StripStart(s: string): string {
    if |s| > 0 && IsSpace(s[0]) then StripStart(s[1..]) else s
  }

  function StripEnd(s: string): string {
    if |s| > 0 && IsSpace(s[|s| - 1]) then StripEnd(s[..|s| - 1]) else s
  }

  /** `s.strip()`. */
  function Strip(s: string): string {
    StripEnd(StripStart(s))
  }

  /** `lstrip` removes the leading whitespace and nothing else. */
  lemma {:induction false} StripStartIs(s: string)
    ensures |StripStart(s)| <= |s| && StripStart(s) == s[|s| - |StripStart(s)|..]
    ensures forall i | 0 <= i < |s| - |StripStart(s)| :: IsSpace(s[i])
    ensures |StripStart(s)| > 0 ==> !IsSpace(StripStart(s)[0])
  {
    if |s| > 0 && IsSpace(s[0]) {
      StripStartIs(s[1..]);
    }
  }

  /** `rstrip` removes the trailing whitespace and nothing else. */
  lemma {:induction false} StripEndIs(s: string)
    ensures |StripEnd(s)| <= |s| && StripEnd(s) == s[..|StripEnd(s)|]
    ensures forall i | |StripEnd(s)| <= i < |s| :: IsSpace(s[i])
    ensures |StripEnd(s)| > 0 ==> !IsSpace(StripEnd(s)[|StripEnd(s)| - 1])
  {
    if |s| > 0 && IsSpace(s[|s| - 1]) {
      StripEndIs(s[..|s| - 1]);
    }
  }

  lemma StripNoSpace(s: string)
    requires NoSpace(s)
    ensures Strip(s) == s
  {
    if |s| > 0 {
      assert s[0] in s && s[|s| - 1] in s;
    }
  }

  /** The first index of `c` in `s`. */
  function IndexOf(s: string, c: char): (r: Option<nat>)
    ensures r.Some? ==> r.value < |s|
  {
    if |s| == 0 then None
    else if s[0] == c then Some(0)
    else match IndexOf(s[1..], c)
      case None => None
      case Some(j) => Some(j + 1)
  }

  /** `s.find(c)`: the index of the first `c`, if any. */
  lemma {:induction false} IndexOfIs(s: string, c: char)
    ensures IndexOf(s, c).None? ==> c !in s
    ensures IndexOf(s, c).Some? ==> s[IndexOf(s, c).value] == c && c !in s[..IndexOf(s, c).value]
  {
    if |s| > 0 && s[0] != c {
      IndexOfIs(s[1..], c);
      assert s == [s[0]] + s[1..];
      if IndexOf(s[1..], c).Some? {
        var j := IndexOf(s[1..], c).value;
        assert s[..j + 1] == [s[0]] + s[1..][..j];
      }
    }
  }

  /** `s.split(sep)`: at least one piece, the text between separators. */
  function Split(s: string, sep: char): (pieces: seq<string>)
    ensures |pieces| >= 1
    decreases |s|
  {
    match IndexOf(s, sep)
    case None => [s]
    case Some(j) => [s[..j]] + Split(s[j + 1..], sep)
  }

  /** `sep.join(pieces)`. */
  function Join(pieces: seq<string>, sep: char): string {
    if |pieces| == 0 then ""
    else if |pieces| == 1 then pieces[0]
    else pieces[0] + [sep] + Join(pieces[1..], sep)
  }

  lemma {:induction false} IndexOfAfter(p: string, c: char, t: string)
    requires c !in p
    ensures IndexOf(p + [c] + t, c) == Some(|p|)
  {
    var s := p + [c] + t;
    IndexOfIs(s, c);
    assert s[|p|] == c;
    assert s[..|p|] == p;
  }

  /** Splitting what `Join` wrote gives the pieces back, when no piece holds the separator. */
  lemma {:induction false} SplitJoin(pieces: seq<string>, sep: char)
    requires |pieces| >= 1
    requires forall i | 0 <= i < |pieces| :: sep !in pieces[i]
    ensures Split(Join(pieces, sep), sep) == pieces
  {
    if |pieces| == 1 {
      IndexOfIs(pieces[0], sep);
    } else {
      var s := Join(pieces, sep);
      var rest := Join(pieces[1..], sep);
      IndexOfAfter(pieces[0], sep, rest);
      assert s[..|pieces[0]|] == pieces[0];
      assert s[|pieces[0]| + 1..] == rest;
      SplitJoin(pieces[1..], sep);
    }
  }

  lemma {:induction false} JoinNoSpace(pieces: seq<string>, sep: char)
    requires !IsSpace(sep)
    requires forall i | 0 <= i < |pieces| :: NoSpace(pieces[i])
    ensures NoSpace(Join(pieces, sep))
  {
    if |pieces| > 1 {
      JoinNoSpace(pieces[1..], sep);
    }
  }

  //
  // Code-point cells
  //

  /** The digits `int` reads in base 16: hexadecimal digits with single underscores between them. */
  predicate HexDigitRun(s: string)
    decreases |s|
  {
    && |s| > 0 && DigitValue(s[0]) < 16
    && (|s| == 1 || if s[1] == '_' then HexDigitRun(s[2..]) else HexDigitRun(s[1..]))
  }

  /** The number a run of base-16 digits spells, the underscores skipped. */
  function RunValue(s: string): nat {
    if |s| == 0 then 0
    else if s[|s| - 1] == '_' then RunValue(s[..|s| - 1])
    else RunValue(s[..|s| - 1]) * 16 + DigitValue(s[|s| - 1])
  }

  /** The text after the sign with the `0x` or `0X` prefix dropped, and one underscore right after it. */
  function HexBody(s: string): string {
    if |s| >= 2 && s[0] == '0' && (s[1] == 'x' || s[1] == 'X') then
      if |s| >= 3 && s[2] == '_' then s[3..] else s[2..]
    else s
  }

  /**
   * `int(s, 16)`: white space around, an optional sign, an optional `0x`
   * prefix, then hexadecimal digits of either case with single underscores
   * between them; ValueError for anything else.
   */
  function ParseHex(s: string): Result<int, ReadError> {
    var t := Strip(s);
    var signed := |t| > 0 && (t[0] == '-' || t[0] == '+');
    var digits := HexBody(if signed then t[1..] else t);
    if HexDigitRun(digits) then
      var n: int := RunValue(digits);
      Ok(if signed && t[0] == '-' then -n else n)
    else Err(CodePointError(s))
  }

  /** Hexadecimal digits are neither white space nor a sign, an underscore, an `x` or a `U`. */
  lemma HexDigitsPlain(d: string)
    requires AllDigits(d, 16)
    ensures NoSpace(d)
    ensures forall i | 0 <= i < |d| ::
      d[i] != '-' && d[i] != '+' && d[i] != '_' && d[i] != 'x' && d[i] != 'X' && d[i] != 'U'
  {
    assert forall i | 0 <= i < |d| :: d[i] in d;
  }

  /** Without underscores a run has the value of its digits. */
  lemma {:induction false} RunValueOfDigits(s: string)
    requires AllDigits(s, 16)
    ensures RunValue(s) == ValueOf(s, 16)
  {
    if |s| > 0 {
      assert s[|s| - 1] in s;
      assert forall c | c in s[..|s| - 1] :: c in s;
      RunValueOfDigits(s[..|s| - 1]);
    }
  }

  /** Bare digits are a run and carry no prefix. */
  lemma {:induction false} PlainDigitRun(s: string)
    requires |s| > 0 && AllDigits(s, 16)
    ensures HexDigitRun(s) && HexBody(s) == s
  {
    assert s[0] in s;
    if |s| >= 2 {
      assert s[1] in s;
      assert forall c | c in s[1..] :: c in s;
      PlainDigitRun(s[1..]);
    }
  }

  /** A stripped entry is read by the sign, prefix and digits it is made of. */
  lemma ParseHexOf(s: string, digits: string, negative: bool)
    requires NoSpace(s)
    requires |s| > 0 && (s[0] == '-' || s[0] == '+') ==> HexBody(s[1..]) == digits && (negative <==> s[0] == '-')
    requires !(|s| > 0 && (s[0] == '-' || s[0] == '+')) ==> HexBody(s) == digits && !negative
    requires HexDigitRun(digits)
    ensures var n: int := RunValue(digits); ParseHex(s) == Ok(if negative then -n else n)
  {
    StripNoSpace(s);
  }

  /** A stripped entry without a sign whose body is not a run is rejected. */
  lemma ParseHexRejects(s: string)
    requires NoSpace(s) && !(|s| > 0 && (s[0] == '-' || s[0] == '+'))
    requires !HexDigitRun(HexBody(s))
    ensures ParseHex(s) == Err(CodePointError(s))
  {
    StripNoSpace(s);
  }

  lemma DigitsFacts(d: string)
    requires |d| > 0 && AllDigits(d, 16)
    ensures NoSpace(d) && d[0] != '-' && d[0] != '+'
    ensures HexBody(d) == d && HexDigitRun(d) && RunValue(d) == ValueOf(d, 16)
  {
    HexDigitsPlain(d);
    PlainDigitRun(d);
    RunValueOfDigits(d);
  }

  /** `int(s, 16)` reads bare digits as the number they spell. */
  lemma DigitsRead(d: string)
    requires |d| > 0 && AllDigits(d, 16)
    ensures ParseHex(d) == Ok(ValueOf(d, 16))
  {
    DigitsFacts(d);
    ParseHexOf(d, d, false);
  }

  lemma SignFacts(d: string, sign: char)
    requires |d| > 0 && AllDigits(d, 16) && (sign == '-' || sign == '+')
    ensures NoSpace([sign] + d) && ([sign] + d)[0] == sign && ([sign] + d)[1..] == d
    ensures HexBody(d) == d && HexDigitRun(d) && RunValue(d) == ValueOf(d, 16)
  {
    DigitsFacts(d);
    var s := [sign] + d;
    assert s[1..] == d;
    assert NoSpace(s) by {
      forall c | c in s
        ensures !IsSpace(c)
      {
        assert c == sign || c in d;
      }
    }
  }

  /** `int(s, 16)` reads a sign in front of the digits. */
  /** A leading minus negates the digits that follow it. */
  lemma MinusRead(d: string, cp: int)
    requires |d| > 0 && AllDigits(d, 16) && ValueOf(d, 16) == -cp
    ensures ParseHex("-" + d) == Ok(cp)
  {
    SignFacts(d, '-');
    ParseHexOf("-" + d, d, true);
  }

  /** A leading plus leaves the digits that follow it as they are. */
  lemma PlusRead(d: string)
    requires |d| > 0 && AllDigits(d, 16)
    ensures ParseHex("+" + d) == Ok(ValueOf(d, 16))
  {
    SignFacts(d, '+');
    ParseHexOf("+" + d, d, false);
  }

  lemma PrefixFacts(d: string, prefix: string)
    requires |d| > 0 && AllDigits(d, 16) && (prefix == "0x" || prefix == "0X_")
    ensures NoSpace(prefix + d) && (prefix + d)[0] == '0' && HexBody(prefix + d) == d
    ensures HexDigitRun(d) && RunValue(d) == ValueOf(d, 16)
  {
    DigitsFacts(d);
    var s := prefix + d;
    assert s[0] == '0' && s[1] == prefix[1];
    if prefix == "0x" {
      assert s[2..] == d && s[2] == d[0];
    } else {
      assert s[2] == '_' && s[3..] == d;
    }
    assert NoSpace(s) by {
      forall c | c in s
        ensures !IsSpace(c)
      {
        assert c in prefix || c in d;
      }
    }
  }

  /** `int(s, 16)` reads a `0x` or `0X` prefix in front of the digits, with one underscore after it. */
  lemma HexPrefixRead(d: string)
    requires |d| > 0 && AllDigits(d, 16)
    ensures ParseHex("0x" + d) == Ok(ValueOf(d, 16))
    ensures ParseHex("0X_" + d) == Ok(ValueOf(d, 16))
  {
    PrefixFacts(d, "0x");
    ParseHexOf("0x" + d, d, false);
    PrefixFacts(d, "0X_");
    ParseHexOf("0X_" + d, d, false);
  }

  /** An underscore adds nothing to the value of a run. */
  lemma {:induction false} RunValueSkip(x: string, y: string)
    ensures RunValue(x + "_" + y) == RunValue(x + y)
    decreases |y|
  {
    var s, t := x + "_" + y, x + y;
    if |y| == 0 {
      assert s[..|s| - 1] == x && t == x;
    } else {
      assert s[..|s| - 1] == x + "_" + y[..|y| - 1];
      assert t[..|t| - 1] == x + y[..|y| - 1];
      assert s[|s| - 1] == t[|t| - 1] == y[|y| - 1];
      RunValueSkip(x, y[..|y| - 1]);
    }
  }

  /** An underscore between two digits keeps a run a run. */
  lemma {:induction false} HexDigitRunJoin(a: string, b: string)
    requires |a| > 0 && AllDigits(a, 16) && HexDigitRun(b)
    ensures HexDigitRun(a + "_" + b)
  {
    HexDigitsPlain(a);
    var s := a + "_" + b;
    assert s[0] == a[0];
    if |a| == 1 {
      assert s[1] == '_' && s[2..] == b;
    } else {
      assert s[1] == a[1];
      assert s[1..] == a[1..] + "_" + b;
      assert forall c | c in a[1..] :: c in a;
      HexDigitRunJoin(a[1..], b);
    }
  }

  lemma UnderscoreFacts(a: string, b: string)
    requires |a| > 0 && AllDigits(a, 16) && |b| > 0 && AllDigits(b, 16)
    ensures var s := a + "_" + b;
      && NoSpace(s) && s[0] != '-' && s[0] != '+'
      && HexBody(s) == s && HexDigitRun(s) && RunValue(s) == ValueOf(a + b, 16)
  {
    HexDigitsPlain(a);
    HexDigitsPlain(b);
    PlainDigitRun(b);
    HexDigitRunJoin(a, b);
    var s := a + "_" + b;
    assert NoSpace(s) by {
      forall c | c in s
        ensures !IsSpace(c)
      {
        assert c in a || c == '_' || c in b;
      }
    }
    assert s[0] == a[0];
    assert |a| > 1 ==> s[1] == a[1];
    assert |a| == 1 ==> s[1] == '_';
    RunValueSkip(a, b);
    assert forall c | c in a + b :: c in a || c in b;
    RunValueOfDigits(a + b);
  }

  /** `int(s, 16)` skips an underscore between two digits. */
  lemma UnderscoreRead(a: string, b: string)
    requires |a| > 0 && AllDigits(a, 16) && |b| > 0 && AllDigits(b, 16)
    ensures ParseHex(a + "_" + b) == Ok(ValueOf(a + b, 16))
  {
    UnderscoreFacts(a, b);
    ParseHexOf(a + "_" + b, a + "_" + b, false);
  }

  lemma {:induction false} DoubleUnderscoreBreaksRun(a: string, b: string)
    requires |a| > 0 && AllDigits(a, 16)
    ensures !HexDigitRun(a + "__" + b)
  {
    HexDigitsPlain(a);
    var s := a + "__" + b;
    if |a| == 1 {
      assert s[1] == '_' && s[2..] == "_" + b;
    } else {
      assert s[1] == a[1];
      assert s[1..] == a[1..] + "__" + b;
      assert forall c | c in a[1..] :: c in a;
      DoubleUnderscoreBreaksRun(a[1..], b);
    }
  }

  lemma {:induction false} TrailingUnderscoreBreaksRun(a: string)
    requires |a| > 0 && AllDigits(a, 16)
    ensures !HexDigitRun(a + "_")
  {
    HexDigitsPlain(a);
    var s := a + "_";
    if |a| == 1 {
      assert s[1] == '_' && s[2..] == "";
    } else {
      assert s[1] == a[1];
      assert s[1..] == a[1..] + "_";
      assert forall c | c in a[1..] :: c in a;
      TrailingUnderscoreBreaksRun(a[1..]);
    }
  }

  lemma MalformedFacts(a: string, b: string)
    requires |a| > 0 && AllDigits(a, 16) && AllDigits(b, 16)
    ensures var s := a + "__" + b; NoSpace(s) && s[0] != '-' && s[0] != '+' && !HexDigitRun(HexBody(s))
    ensures var s := "_" + a; NoSpace(s) && s[0] == '_' && !HexDigitRun(HexBody(s))
    ensures var s := a + "_"; NoSpace(s) && s[0] != '-' && s[0] != '+' && !HexDigitRun(HexBody(s))
    ensures NoSpace("0x") && !HexDigitRun(HexBody("0x"))
  {
    HexDigitsPlain(a);
    HexDigitsPlain(b);
    var s := a + "__" + b;
    assert NoSpace(s) by {
      forall c | c in s
        ensures !IsSpace(c)
      {
        assert c in a || c == '_' || c in b;
      }
    }
    assert s[0] == a[0] && (|a| > 1 ==> s[1] == a[1]) && (|a| == 1 ==> s[1] == '_');
    DoubleUnderscoreBreaksRun(a, b);
    var u := "_" + a;
    assert NoSpace(u) by {
      forall c | c in u
        ensures !IsSpace(c)
      {
        assert c == '_' || c in a;
      }
    }
    assert u[0] == '_';
    var t := a + "_";
    assert NoSpace(t) by {
      forall c | c in t
        ensures !IsSpace(c)
      {
        assert c in a || c == '_';
      }
    }
    assert t[0] == a[0] && (|a| > 1 ==> t[1] == a[1]) && (|a| == 1 ==> t[1] == '_');
    TrailingUnderscoreBreaksRun(a);
    assert "0x"[2..] == "";
  }

  /** `int(s, 16)` rejects doubled, leading and trailing underscores, and a prefix without digits. */
  lemma MalformedHexRejected(a: string, b: string)
    requires |a| > 0 && AllDigits(a, 16) && AllDigits(b, 16)
    ensures ParseHex(a + "__" + b).Err? && ParseHex("_" + a).Err? && ParseHex(a + "_").Err?
    ensures ParseHex("0x").Err?
  {
    MalformedFacts(a, b);
    ParseHexRejects(a + "__" + b);
    ParseHexRejects("_" + a);
    ParseHexRejects(a + "_");
    ParseHexRejects("0x");
  }

  /** One entry of a code-point cell: stripped, an optional "U+" dropped, read by `int(s, 16)`. */
  function ParseEntry(entry: string): Result<int, ReadError> {
    var s := Strip(entry);
    ParseHex(if |s| >= 2 && s[..2] == "U+" then s[2..] else s)
  }

  /** A successful result with `prefix` in front of its value; an error as it is. */
  function PrependOk<T>(prefix: seq<T>, r: Result<seq<T>, ReadError>): Result<seq<T>, ReadError> {
    match r
    case Ok(rest) => Ok(prefix + rest)
    case Err(e) => Err(e)
  }

  /** The entries read in order, or the error of the first one `int` rejects. */
  function ParseEntries(entries: seq<string>): Result<seq<int>, ReadError> {
    if |entries| == 0 then Ok([])
    else match ParseEntry(entries[0])
      case Err(e) => Err(e)
      case Ok(cp) => PrependOk([cp], ParseEntries(entries[1..]))
  }

  /** What `_parseCodePoints` returns for a cell: nothing for a blank cell. */
  function CodePointsOf(cell: string): Result<seq<int>, ReadError> {
    var stripped := Strip(cell);
    if |stripped| == 0 then Ok([]) else ParseEntries(Split(stripped, ','))
  }

  lemma PrependNothing<T>(r: Result<seq<T>, ReadError>)
    ensures PrependOk([], r) == r
  {
    if r.Ok? {
      assert [] + r.value == r.value;
    }
  }

  lemma ParseEntriesStep(prefix: seq<int>, entries: seq<string>, i: nat)
    requires i < |entries|
    ensures ParseEntry(entries[i]).Err? ==>
      PrependOk(prefix, ParseEntries(entries[i..])) == Err(ParseEntry(entries[i]).error)
    ensures ParseEntry(entries[i]).Ok? ==>
      PrependOk(prefix, ParseEntries(entries[i..]))
      == PrependOk(prefix + [ParseEntry(entries[i]).value], ParseEntries(entries[i + 1..]))
  {
    assert entries[i..][1..] == entries[i + 1..];
    var parsed := ParseEntry(entries[i]);
    if parsed.Ok? {
      match ParseEntries(entries[i + 1..]) {
        case Ok(rest) => AppendAssociative(prefix, [parsed.value], rest);
        case Err(_) =>
      }
    }
  }

  /** `_parseCodePoints`. */
  method ParseCodePoints(cell: string) returns (r: Result<seq<int>, ReadError>)
    ensures r == CodePointsOf(cell)
  {
    var codePoints: seq<int> := [];
    var stripped := Strip(cell);
    if |stripped| > 0 {
      var entries := Split(stripped, ',');
      assert CodePointsOf(cell) == ParseEntries(entries);
      assert entries[0..] == entries;
      PrependNothing(ParseEntries(entries));
      for i := 0 to |entries|
        invariant PrependOk(codePoints, ParseEntries(entries[i..])) == ParseEntries(entries)
      {
        var parsed := ParseEntry(entries[i]);
        ParseEntriesStep(codePoints, entries, i);
        if parsed.Err? {
          return Err(parsed.error);
        }
        codePoints := codePoints + [parsed.value];
      }
      assert entries[|entries|..] == [];
      assert codePoints + [] == codePoints;
    }
    r := Ok(codePoints);
  }

  /** `format(n, "0{width}X")` of a non-negative `n`: its digits, zero-padded to `width`. */
  function PaddedHex(n: nat, width: nat): (d: string)
    ensures |d| >= width && |d| > 0 && AllDigits(d, 16)
    ensures ValueOf(d, 16) == n
  {
    var digits := Digits(n, 16);
    ValueOfDigits(n, 16);
    if |digits| < width then
      LeadingZeros(width - |digits|, digits, 16);
      Zeros(width - |digits|) + digits
    else digits
  }

  /**
   * `f"{cp:04X}"`: upper-case hexadecimal digits padded with zeros to four
   * characters, a minus sign counting as one of them.
   */
  function HexField(cp: int): (s: string)
    ensures |s| >= 4 && NoSpace(s) && ',' !in s
  {
    var digits := if cp < 0 then PaddedHex(-cp, 3) else PaddedHex(cp, 4);
    HexDigitsPlain(digits);
    if cp < 0 then "-" + digits else digits
  }

  /** `f"U+{cp:04X}"`. */
  function FormatCodePoint(cp: int): (s: string)
    ensures NoSpace(s) && ',' !in s
  {
    "U+" + HexField(cp)
  }

  function FormatEntries(codePoints: seq<int>): (entries: seq<string>)
    ensures |entries| == |codePoints|
    ensures forall i | 0 <= i < |entries| :: NoSpace(entries[i]) && ',' !in entries[i]
  {
    if |codePoints| == 0 then []
    else [FormatCodePoint(codePoints[0])] + FormatEntries(codePoints[1..])
  }

  /** The code-point cell `_writeGlyphInfo` writes: the entries joined by ",". */
  function FormatCodePoints(codePoints: seq<int>): string {
    Join(FormatEntries(codePoints), ',')
  }

  lemma FieldRead(d: string, n: nat)
    requires |d| > 0 && AllDigits(d, 16) && ValueOf(d, 16) == n
    ensures ParseHex(d) == Ok(n) && d[0] != 'U'
  {
    HexDigitsPlain(d);
    DigitsRead(d);
  }

  /** The field `format` writes reads back as the code point, a negative one included. */
  lemma ParseHexPadded(cp: int)
    ensures ParseHex(HexField(cp)) == Ok(cp)
    ensures HexField(cp)[0] != 'U'
  {
    if cp < 0 {
      var d := PaddedHex(-cp, 3);
      assert HexField(cp) == "-" + d;
      MinusRead(d, cp);
    } else {
      var d := PaddedHex(cp, 4);
      assert HexField(cp) == d;
      FieldRead(d, cp);
    }
  }

  lemma ParseFormattedEntry(cp: int)
    ensures ParseEntry(FormatCodePoint(cp)) == Ok(cp)
  {
    var s := FormatCodePoint(cp);
    StripNoSpace(s);
    assert s[..2] == "U+" && s[2..] == HexField(cp);
    ParseHexPadded(cp);
  }

  /** Entries that each read as their code point read as the list. */
  lemma {:induction false} ParseEntriesAll(entries: seq<string>, codePoints: seq<int>)
    requires |entries| == |codePoints|
    requires forall i | 0 <= i < |entries| :: ParseEntry(entries[i]) == Ok(codePoints[i])
    ensures ParseEntries(entries) == Ok(codePoints)
  {
    if |entries| > 0 {
      ParseEntriesAll(entries[1..], codePoints[1..]);
      assert ParseEntries(entries) == PrependOk([codePoints[0]], Ok(codePoints[1..]));
      assert codePoints == [codePoints[0]] + codePoints[1..];
    }
  }

  lemma {:induction false} FormatEntriesAt(codePoints: seq<int>, i: nat)
    requires i < |codePoints|
    ensures FormatEntries(codePoints)[i] == FormatCodePoint(codePoints[i])
  {
    if i > 0 {
      FormatEntriesAt(codePoints[1..], i - 1);
    }
  }

  lemma ParseFormattedEntries(codePoints: seq<int>)
    ensures ParseEntries(FormatEntries(codePoints)) == Ok(codePoints)
  {
    var entries := FormatEntries(codePoints);
    forall i | 0 <= i < |entries|
      ensures ParseEntry(entries[i]) == Ok(codePoints[i])
    {
      FormatEntriesAt(codePoints, i);
      ParseFormattedEntry(codePoints[i]);
    }
    ParseEntriesAll(entries, codePoints);
  }

  /** `_parseCodePoints` reads back exactly the cell `_writeGlyphInfo` writes. */
  lemma CodePointsRoundTrip(codePoints: seq<int>)
    ensures CodePointsOf(FormatCodePoints(codePoints)) == Ok(codePoints)
  {
    var entries := FormatEntries(codePoints);
    var cell := FormatCodePoints(codePoints);
    if |codePoints| > 0 {
      JoinNoSpace(entries, ',');
      StripNoSpace(cell);
      assert |cell| > 0 by {
        if |entries| > 1 {
          assert cell == entries[0] + [','] + Join(entries[1..], ',');
        }
        assert |entries[0]| >= 2;
      }
      SplitJoin(entries, ',');
      ParseFormattedEntries(codePoints);
    }
  }

  /** Entries without the prefix read as well: "U+" is optional. */
  lemma PrefixOptional(cp: int)
    ensures ParseEntry(HexField(cp)) == Ok(cp)
  {
    var field := HexField(cp);
    ParseHexPadded(cp);
    StripNoSpace(field);
    assert field[..2] != "U+" by {
      assert field[..2][0] == field[0];
    }
  }

  //
  // The glyph-info table
  //

  const GlyphInfoHeader: Row := ["glyph name", "code points"]

  function GlyphInfoRow(entry: (string, seq<int>)): Row {
    [entry.0, FormatCodePoints(entry.1)]
  }

  function GlyphInfoRows(entries: seq<(string, seq<int>)>): (rows: seq<Row>)
    ensures |rows| == |entries|
    ensures forall k | 0 <= k < |rows| :: |rows[k]| == 2
  {
    if |entries| == 0 then [] else [GlyphInfoRow(entries[0])] + GlyphInfoRows(entries[1..])
  }

  /** The rows `_writeGlyphInfo` writes: the header, then one row per glyph in glyph-name order. */
  function GlyphInfoTable(glyphMap: seq<(string, seq<int>)>): (rows: seq<Row>)
    ensures |rows| == |glyphMap| + 1
    ensures forall k | 0 <= k < |rows| :: |rows[k]| == 2
  {
    [GlyphInfoHeader] + GlyphInfoRows(SortByKey(glyphMap))
  }

  /** `_writeGlyphInfo`. */
  method WriteGlyphInfo(glyphMap: seq<(string, seq<int>)>) returns (rows: seq<Row>)
    ensures rows == GlyphInfoTable(glyphMap)
  {
    var items := SortByKey(glyphMap);
    rows := [GlyphInfoHeader];
    for i := 0 to |items|
      invariant rows + GlyphInfoRows(items[i..]) == GlyphInfoTable(glyphMap)
    {
      assert items[i..][1..] == items[i + 1..];
      AppendAssociative(rows, [GlyphInfoRow(items[i])], GlyphInfoRows(items[i + 1..]));
      rows := rows + [GlyphInfoRow(items[i])];
    }
    assert items[|items|..] == [];
  }

  /** The glyph name and code points of one row; a row without a second cell has none. */
  function GlyphInfoEntry(row: Row): Result<(string, seq<int>), ReadError> {
    if |row| == 0 then Err(EmptyRow)
    else if |row| == 1 then Ok((row[0], []))
    else match CodePointsOf(row[1])
      case Err(e) => Err(e)
      case Ok(codePoints) => Ok((row[0], codePoints))
  }

  /** The rows after the header assigned in order into `glyphMap`. */
  function GlyphMapFrom(glyphMap: seq<(string, seq<int>)>, rows: seq<Row>): Result<seq<(string, seq<int>)>, ReadError>
    decreases |rows|
  {
    if |rows| == 0 then Ok(glyphMap)
    else match GlyphInfoEntry(rows[0])
      case Err(e) => Err(e)
      case Ok(entry) => GlyphMapFrom(Put(glyphMap, entry.0, entry.1), rows[1..])
  }

  /** The glyph map `_readGlyphInfo` fills from a table, or the error it raises. */
  function GlyphInfoOf(rows: seq<Row>): Result<seq<(string, seq<int>)>, ReadError> {
    if |rows| == 0 then Err(NoMoreRows)
    else if |rows[0]| < 2 || rows[0][..2] != GlyphInfoHeader then Err(HeaderMismatch)
    else GlyphMapFrom([], rows[1..])
  }

  /** `_readGlyphInfo`. */
  method ReadGlyphInfo(rows: seq<Row>) returns (r: Result<seq<(string, seq<int>)>, ReadError>)
    ensures r == GlyphInfoOf(rows)
  {
    if |rows| == 0 {
      return Err(NoMoreRows);
    }
    var header := rows[0];
    if |header| < 2 || header[..2] != GlyphInfoHeader {
      return Err(HeaderMismatch);
    }
    var glyphMap := [];
    for i := 1 to |rows|
      invariant GlyphMapFrom(glyphMap, rows[i..]) == GlyphInfoOf(rows)
    {
      assert rows[i..][1..] == rows[i + 1..];
      var row := rows[i];
      if |row| == 0 {
        return Err(EmptyRow);
      }
      var codePoints := [];
      if |row| > 1 {
        var parsed := ParseCodePoints(row[1]);
        if parsed.Err? {
          return Err(parsed.error);
        }
        codePoints := parsed.value;
      }
      glyphMap := Put(glyphMap, row[0], codePoints);
    }
    assert rows[|rows|..] == [];
    r := Ok(glyphMap);
  }

  lemma GlyphEntryRead(e: (string, seq<int>))
    ensures GlyphInfoEntry(GlyphInfoRow(e)) == Ok(e)
  {
    CodePointsRoundTrip(e.1);
  }

  lemma GlyphRowsStep(glyphMap: seq<(string, seq<int>)>, entries: seq<(string, seq<int>)>)
    requires |entries| > 0 && DistinctKeys(glyphMap + entries)
    ensures GlyphMapFrom(glyphMap, GlyphInfoRows(entries))
      == GlyphMapFrom(glyphMap + [entries[0]], GlyphInfoRows(entries[1..]))
    ensures (glyphMap + [entries[0]]) + entries[1..] == glyphMap + entries
  {
    var all := glyphMap + entries;
    var e := entries[0];
    forall j | 0 <= j < |glyphMap|
      ensures glyphMap[j].0 != e.0
    {
      assert all[j] == glyphMap[j] && all[|glyphMap|] == e;
    }
    GetAbsent(glyphMap, e.0);
    PutNew(glyphMap, e.0, e.1);
    GlyphEntryRead(e);
    var rows := GlyphInfoRows(entries);
    assert rows[0] == GlyphInfoRow(e) && rows[1..] == GlyphInfoRows(entries[1..]);
    assert glyphMap + [e] + entries[1..] == all;
  }

  lemma {:induction false} GlyphRowsRead(glyphMap: seq<(string, seq<int>)>, entries: seq<(string, seq<int>)>)
    requires DistinctKeys(glyphMap + entries)
    ensures GlyphMapFrom(glyphMap, GlyphInfoRows(entries)) == Ok(glyphMap + entries)
    decreases |entries|
  {
    if |entries| > 0 {
      GlyphRowsStep(glyphMap, entries);
      GlyphRowsRead(glyphMap + [entries[0]], entries[1..]);
    } else {
      assert glyphMap + entries == glyphMap;
    }
  }

  /**
   * Reading the table `_writeGlyphInfo` wrote gives every glyph its code
   * points back, in glyph-name order.
   */
  lemma GlyphInfoRoundTrip(glyphMap: seq<(string, seq<int>)>)
    requires DistinctKeys(glyphMap)
    ensures GlyphInfoOf(GlyphInfoTable(glyphMap)) == Ok(SortByKey(glyphMap))
    ensures forall name :: Get(SortByKey(glyphMap), name) == Get(glyphMap, name)
  {
    var items := SortByKey(glyphMap);
    SortByKeyFacts(glyphMap);
    var rows := GlyphInfoTable(glyphMap);
    assert rows[0][..2] == GlyphInfoHeader;
    assert rows[1..] == GlyphInfoRows(items);
    assert [] + items == items;
    GlyphRowsRead([], items);
  }

  /** The rows after the header name the glyphs in increasing order. */
  lemma GlyphInfoRowsSorted(glyphMap: seq<(string, seq<int>)>, i: nat, j: nat)
    requires DistinctKeys(glyphMap)
    requires 1 <= i < j < |GlyphInfoTable(glyphMap)|
    ensures StrLess(GlyphInfoTable(glyphMap)[i][0], GlyphInfoTable(glyphMap)[j][0])
  {
    var items := SortByKey(glyphMap);
    SortByKeyFacts(glyphMap);
    SortedLess(items, i - 1, j - 1);
    TableRowName(glyphMap, i);
    TableRowName(glyphMap, j);
  }

  lemma TableRowName(glyphMap: seq<(string, seq<int>)>, i: nat)
    requires 1 <= i < |GlyphInfoTable(glyphMap)|
    ensures GlyphInfoTable(glyphMap)[i][0] == SortByKey(glyphMap)[i - 1].0
  {
    var items := SortByKey(glyphMap);
    RowOfEntry(items, i - 1);
    assert GlyphInfoTable(glyphMap)[i] == GlyphInfoRows(items)[i - 1];
  }

  lemma {:induction false} RowOfEntry(entries: seq<(string, seq<int>)>, k: nat)
    requires k < |entries|
    ensures GlyphInfoRows(entries)[k] == GlyphInfoRow(entries[k])
  {
    if k > 0 {
      RowOfEntry(entries[1..], k - 1);
    }
  }

  //
  // Kerning values: `kerningParseValue` and `str`
  //

  /** `int(float(s))` on a cell holding an integer: optional sign, decimal digits, whitespace around. */
  function ParseInt(s: string): Option<int> {
    var t := Strip(s);
    if |t| > 1 && (t[0] == '-' || t[0] == '+') && AllDigits(t[1..], 10) then
      var n: int := ValueOf(t[1..], 10);
      Some(if t[0] == '-' then -n else n)
    else if |t| > 0 && AllDigits(t, 10) then Some(ValueOf(t, 10))
    else None
  }

  /** The cell written for a value: empty for `None`. */
  function CellText(v: Option<int>): string {
    if v.None? then "" else IntToString(v.value)
  }

  function CellTexts(vs: seq<Option<int>>): (cells: seq<string>)
    ensures |cells| == |vs|
  {
    if |vs| == 0 then [] else [CellText(vs[0])] + CellTexts(vs[1..])
  }

  /**
   * `[kerningParseValue(v) if v else None for v in cells]`: `None` for
   * an empty cell, and nothing at all when some cell does not parse.
   */
  function CellValues(cells: seq<string>): Option<seq<Option<int>>> {
    if |cells| == 0 then Some([])
    else
      var first := if cells[0] == "" then Some(None) else
        match ParseInt(cells[0]) case None => None case Some(v) => Some(Some(v));
      match first
      case None => None
      case Some(v) =>
        match CellValues(cells[1..])
        case None => None
        case Some(rest) => Some([v] + rest)
  }

  lemma ParseIntToString(v: int)
    ensures ParseInt(IntToString(v)) == Some(v)
  {
    var t := IntToString(v);
    var digits := Digits(if v < 0 then -v else v, 10);
    assert AllDigits(digits, 10);
    assert NoSpace(digits);
    assert NoSpace(t);
    StripNoSpace(t);
    ValueOfDigits(if v < 0 then -v else v, 10);
    assert digits[0] in digits;
    if v < 0 {
      assert t[1..] == digits;
    }
  }

  /** An empty cell reads as `None` and a written value as itself. */
  lemma {:induction false} CellsRoundTrip(vs: seq<Option<int>>)
    ensures CellValues(CellTexts(vs)) == Some(vs)
  {
    if |vs| > 0 {
      var cells := CellTexts(vs);
      assert cells[0] == CellText(vs[0]) && cells[1..] == CellTexts(vs[1..]);
      if vs[0].Some? {
        ParseIntToString(vs[0].value);
        assert |Digits(if vs[0].value < 0 then -vs[0].value else vs[0].value, 10)| > 0;
        assert cells[0] != "";
      }
      CellsRoundTrip(vs[1..]);
      assert vs == [vs[0]] + vs[1..];
    }
  }

  //
  // The kerning file
  //

  /** One kerning table: groups, source identifiers, and for each pair one value per source. */
  datatype Kerning = Kerning(
    groups: seq<(string, seq<string>)>,
    sourceIdentifiers: seq<string>,
    values: seq<(string, seq<(string, seq<Option<int>>)>)>)

  type Values = seq<(string, seq<(string, seq<Option<int>>)>)>

  /** `iter(enumerate(reader, 1))` after `consumed` rows: the rows left, numbered from `consumed + 1`. */
  datatype RowIter = RowIter(rows: seq<Row>, consumed: nat)

  /** `later` is `it` after some more rows were taken. */
  predicate Advanced(it: RowIter, later: RowIter) {
    |later.rows| <= |it.rows|
    && later.consumed == it.consumed + |it.rows| - |later.rows|
  }

  /** The iterator after `next(rowIter)`. */
  function Rest(it: RowIter): (r: RowIter)
    requires |it.rows| > 0
    ensures Advanced(it, r) && |r.rows| < |it.rows|
  {
    RowIter(it.rows[1..], it.consumed + 1)
  }

  /** `not row or not row[0]`. */
  predicate Blank(row: Row) {
    |row| == 0 || |row[0]| == 0
  }

  /**
   * `nextNonBlankRow`: the line number and the first row whose first
   * cell is not empty, and the iterator just past it; nothing, and the
   * iterator at the end, when no such row is left.
   */
  function NextNonBlankRow(it: RowIter): (r: (Option<(nat, Row)>, RowIter))
    ensures Advanced(it, r.1)
    ensures r.0.None? ==> |r.1.rows| == 0
    ensures r.0.Some? ==> |r.1.rows| < |it.rows| && r.0.value.0 == r.1.consumed && !Blank(r.0.value.1)
    decreases |it.rows|
  {
    if |it.rows| == 0 then (None, it)
    else if !Blank(it.rows[0]) then
      var lineNumber: nat := it.consumed + 1;
      (Some((lineNumber, it.rows[0])), Rest(it))
    else NextNonBlankRow(Rest(it))
  }

  /** Row `k` is the first row whose first cell is not empty. */
  predicate FirstNonBlankAt(rows: seq<Row>, k: nat) {
    k < |rows| && !Blank(rows[k]) && forall i | 0 <= i < k :: Blank(rows[i])
  }

  /** `nextNonBlankRow` finds nothing only when every row left is blank. */
  lemma {:induction false} NextNonBlankRowNone(it: RowIter)
    ensures NextNonBlankRow(it).0.None? <==> forall i | 0 <= i < |it.rows| :: Blank(it.rows[i])
    decreases |it.rows|
  {
    if |it.rows| > 0 && Blank(it.rows[0]) {
      var rest := Rest(it);
      NextNonBlankRowNone(rest);
      assert forall i | 1 <= i < |it.rows| :: it.rows[i] == rest.rows[i - 1];
    }
  }

  /** The row `nextNonBlankRow` returns is the first non-blank one, and the iterator stops just past it. */
  lemma {:induction false} NextNonBlankRowSome(it: RowIter, k: nat)
    requires FirstNonBlankAt(it.rows, k)
    ensures NextNonBlankRow(it) == (Some((it.consumed + k + 1, it.rows[k])), RowIter(it.rows[k + 1..], it.consumed + k + 1))
    decreases k
  {
    if k > 0 {
      var rest := Rest(it);
      assert FirstNonBlankAt(rest.rows, k - 1) by {
        assert forall i | 0 <= i < k - 1 :: rest.rows[i] == it.rows[i + 1];
      }
      NextNonBlankRowSome(rest, k - 1);
      assert rest.rows[k..] == it.rows[k + 1..];
    }
  }

  /** The rows of a file with blank rows in front are read as if they were not there. */
  lemma SkipBlankRow(more: seq<Row>, c: nat)
    ensures NextNonBlankRow(RowIter([[]] + more, c)) == NextNonBlankRow(RowIter(more, c + 1))
  {
    assert ([[]] + more)[1..] == more;
  }

  /** `kerningReadType`: the type of the next table, or `None` at the end of the file. */
  function KerningTypeOf(it: RowIter): (r: Result<(Option<string>, RowIter), ReadError>)
    ensures r.Ok? ==> Advanced(it, r.value.1)
    ensures r.Ok? && r.value.0.Some? ==> |r.value.1.rows| < |it.rows|
  {
    var next := NextNonBlankRow(it);
    var after := next.1;
    if next.0.None? then Ok((None, after))
    else if next.0.value.1[0] != "TYPE" then Err(KerningParseError(ExpectedType, Some(next.0.value.0)))
    else if |after.rows| == 0 then Err(NoMoreRows)
    else if Blank(after.rows[0]) then Err(KerningParseError(ExpectedTypeValue, Some(after.consumed + 1)))
    else Ok((Some(after.rows[0][0]), Rest(after)))
  }

  /** The group rows up to the first blank row, assigned in order into `groups`, and the iterator past that row. */
  function GroupRowsFrom(groups: seq<(string, seq<string>)>, it: RowIter): (r: (seq<(string, seq<string>)>, RowIter))
    ensures Advanced(it, r.1)
    decreases |it.rows|
  {
    if |it.rows| == 0 then (groups, it)
    else if Blank(it.rows[0]) then (groups, Rest(it))
    else GroupRowsFrom(Put(groups, it.rows[0][0], it.rows[0][1..]), Rest(it))
  }

  /** What `kerningReadGroups` returns, or the error it raises. */
  function KerningGroupsOf(it: RowIter): (r: Result<(seq<(string, seq<string>)>, RowIter), ReadError>)
    ensures r.Ok? ==> Advanced(it, r.value.1)
  {
    var next := NextNonBlankRow(it);
    if next.0.None? then Err(KerningParseError(ExpectedGroups, None))
    else if next.0.value.1[0] != "GROUPS" then Err(KerningParseError(ExpectedGroups, Some(next.0.value.0)))
    else Ok(GroupRowsFrom([], next.1))
  }

  /** `kerningReadGroups`. */
  method KerningReadGroups(it: RowIter) returns (r: Result<(seq<(string, seq<string>)>, RowIter), ReadError>)
    ensures r == KerningGroupsOf(it)
  {
    var next := NextNonBlankRow(it);
    if next.0.None? || next.0.value.1[0] != "GROUPS" {
      return Err(KerningParseError(ExpectedGroups, if next.0.None? then None else Some(next.0.value.0)));
    }
    var groups := [];
    var rest := next.1;
    while |rest.rows| > 0
      invariant GroupRowsFrom(groups, rest) == GroupRowsFrom([], next.1)
      decreases |rest.rows|
    {
      var row := rest.rows[0];
      rest := Rest(rest);
      if Blank(row) {
        return Ok((groups, rest));
      }
      groups := Put(groups, row[0], row[1..]);
    }
    return Ok((groups, rest));
  }

  /** The inner dict of `values[left]` on a `defaultdict(dict)`: empty when `left` is new. */
  function Inner(values: Values, left: string): seq<(string, seq<Option<int>>)> {
    match Get(values, left)
    case None => []
    case Some(rights) => rights
  }

  /** The value rows up to the first blank row, assigned in order into `values`, and the iterator past that row. */
  function ValueRowsFrom(values: Values, it: RowIter): (r: Result<(Values, RowIter), ReadError>)
    ensures r.Ok? ==> Advanced(it, r.value.1)
    decreases |it.rows|
  {
    if |it.rows| == 0 then Ok((values, it))
    else
      var row := it.rows[0];
      if Blank(row) then Ok((values, Rest(it)))
      else if |row| < 2 then Err(KerningParseError(ExpectedKernValues, Some(it.consumed + 1)))
      else match CellValues(row[2..])
        case None => Err(KerningParseError(ValueParse, Some(it.consumed + 1)))
        case Some(cells) =>
          ValueRowsFrom(Put(values, row[0], Put(Inner(values, row[0]), row[1], cells)), Rest(it))
  }

  /** What `kerningReadValues` returns, or the error it raises. */
  function KerningValuesOf(it: RowIter): (r: Result<(seq<string>, Values, RowIter), ReadError>)
    ensures r.Ok? ==> Advanced(it, r.value.2)
  {
    var next := NextNonBlankRow(it);
    var after := next.1;
    if next.0.None? then Err(KerningParseError(ExpectedValues, None))
    else if next.0.value.1[0] != "VALUES" then Err(KerningParseError(ExpectedValues, Some(next.0.value.0)))
    else if |after.rows| == 0 then Err(NoMoreRows)
    else
      var header := after.rows[0];
      if |header| < 3 || header[..2] != ["side1", "side2"] then
        Err(KerningParseError(ExpectedSourceIdentifiers, Some(after.consumed + 1)))
      else match ValueRowsFrom([], Rest(after))
        case Err(e) => Err(e)
        case Ok(read) => Ok((header[2..], read.0, read.1))
  }

  /** `kerningReadValues`. */
  method KerningReadValues(it: RowIter) returns (r: Result<(seq<string>, Values, RowIter), ReadError>)
    ensures r == KerningValuesOf(it)
  {
    var next := NextNonBlankRow(it);
    if next.0.None? || next.0.value.1[0] != "VALUES" {
      return Err(KerningParseError(ExpectedValues, if next.0.None? then None else Some(next.0.value.0)));
    }
    var rest := next.1;
    if |rest.rows| == 0 {
      return Err(NoMoreRows);
    }
    var header := rest.rows[0];
    if |header| < 3 || header[..2] != ["side1", "side2"] {
      return Err(KerningParseError(ExpectedSourceIdentifiers, Some(rest.consumed + 1)));
    }
    rest := Rest(rest);
    var values: Values := [];
    while |rest.rows| > 0
      invariant ValueRowsFrom(values, rest) == ValueRowsFrom([], Rest(next.1))
      decreases |rest.rows|
    {
      var row := rest.rows[0];
      var lineNumber := rest.consumed + 1;
      rest := Rest(rest);
      if Blank(row) {
        return Ok((header[2..], values, rest));
      }
      if |row| < 2 {
        return Err(KerningParseError(ExpectedKernValues, Some(lineNumber)));
      }
      var cells := CellValues(row[2..]);
      if cells.None? {
        return Err(KerningParseError(ValueParse, Some(lineNumber)));
      }
      values := Put(values, row[0], Put(Inner(values, row[0]), row[1], cells.value));
    }
    return Ok((header[2..], values, rest));
  }

  /** The tables read from `it` on, assigned in order into `kerning`. */
  function KerningFrom(kerning: seq<(string, Kerning)>, it: RowIter): Result<seq<(string, Kerning)>, ReadError>
    decreases |it.rows|
  {
    match KerningTypeOf(it)
    case Err(e) => Err(e)
    case Ok(typed) =>
      if typed.0.None? then Ok(kerning)
      else match KerningGroupsOf(typed.1)
        case Err(e) => Err(e)
        case Ok(grouped) =>
          match KerningValuesOf(grouped.1)
          case Err(e) => Err(e)
          case Ok(valued) =>
            KerningFrom(Put(kerning, typed.0.value, Kerning(grouped.0, valued.0, valued.1)), valued.2)
  }

  /** What `readKerningFile` returns for the rows of a file, or the error it raises. */
  function KerningOf(rows: seq<Row>): Result<seq<(string, Kerning)>, ReadError> {
    KerningFrom([], RowIter(rows, 0))
  }

  /** `readKerningFile`. */
  method ReadKerningFile(rows: seq<Row>) returns (r: Result<seq<(string, Kerning)>, ReadError>)
    ensures r == KerningOf(rows)
  {
    var kerning := [];
    var it := RowIter(rows, 0);
    while true
      invariant KerningFrom(kerning, it) == KerningOf(rows)
      decreases |it.rows|
    {
      var typed := KerningTypeOf(it);
      if typed.Err? {
        return Err(typed.error);
      }
      if typed.value.0.None? {
        return Ok(kerning);
      }
      var grouped := KerningReadGroups(typed.value.1);
      if grouped.Err? {
        return Err(grouped.error);
      }
      var valued := KerningReadValues(grouped.value.1);
      if valued.Err? {
        return Err(valued.error);
      }
      var kernType := typed.value.0.value;
      kerning := Put(kerning, kernType, Kerning(grouped.value.0, valued.value.0, valued.value.1));
      it := valued.value.2;
    }
  }

  //
  // Writing the kerning file, and reading it back
  //

  function GroupRows(groups: seq<(string, seq<string>)>): (rows: seq<Row>)
    ensures |rows| == |groups|
  {
    if |groups| == 0 then [] else [[groups[0].0] + groups[0].1] + GroupRows(groups[1..])
  }

  /** `[left, right] + row` for each right side of `left`. */
  function PairRows(left: string, rights: seq<(string, seq<Option<int>>)>): (rows: seq<Row>)
    ensures |rows| == |rights|
  {
    if |rights| == 0 then []
    else [[left, rights[0].0] + CellTexts(rights[0].1)] + PairRows(left, rights[1..])
  }

  function ValueRows(values: Values): seq<Row> {
    if |values| == 0 then [] else PairRows(values[0].0, values[0].1) + ValueRows(values[1..])
  }

  /** The blank row, `GROUPS`, a row per group, and the blank row that ends them. */
  function GroupSection(groups: seq<(string, seq<string>)>): seq<Row> {
    [[], ["GROUPS"]] + GroupRows(groups) + [[]]
  }

  /** `VALUES`, the source identifier row, and a row per pair. */
  function ValueSection(table: Kerning): seq<Row> {
    [["VALUES"], ["side1", "side2"] + table.sourceIdentifiers] + ValueRows(table.values)
  }

  /** The rows of one table, its groups in the order given. */
  function TableRows(kernType: string, table: Kerning): seq<Row> {
    [["TYPE"], [kernType]] + GroupSection(table.groups) + ValueSection(table)
  }

  /** The tables' rows, a blank row before each but the first when `first`. */
  function TablesRows(kerning: seq<(string, Kerning)>, first: bool): seq<Row> {
    if |kerning| == 0 then []
    else
      var rows := TableRows(kerning[0].0, kerning[0].1) + TablesRows(kerning[1..], false);
      if first then rows else [[]] + rows
  }

  /** Each table with its groups sorted by name, as the writer emits them. */
  function Normalize(kerning: seq<(string, Kerning)>): (r: seq<(string, Kerning)>)
    ensures |r| == |kerning|
  {
    if |kerning| == 0 then []
    else
      var table := kerning[0].1;
      [(kerning[0].0, table.(groups := SortByKey(table.groups)))] + Normalize(kerning[1..])
  }

  /** The rows `writeKerningFile` writes. */
  function KerningFileRows(kerning: seq<(string, Kerning)>): seq<Row> {
    TablesRows(Normalize(kerning), true)
  }

  lemma {:induction false} NormalizeAt(kerning: seq<(string, Kerning)>, i: nat)
    requires i < |kerning|
    ensures Normalize(kerning)[i] == (kerning[i].0, kerning[i].1.(groups := SortByKey(kerning[i].1.groups)))
    decreases i
  {
    if i > 0 {
      NormalizeAt(kerning[1..], i - 1);
    }
  }

  lemma TablesRowsStep(kerning: seq<(string, Kerning)>, i: nat, first: bool)
    requires i < |kerning|
    ensures TablesRows(kerning[i..], first)
      == (if first then [] else [[]]) + (TableRows(kerning[i].0, kerning[i].1) + TablesRows(kerning[i + 1..], false))
  {
    var rows := TableRows(kerning[i].0, kerning[i].1) + TablesRows(kerning[i + 1..], false);
    assert kerning[i..][1..] == kerning[i + 1..];
    assert [] + rows == rows;
  }

  lemma GroupRowsStep(groups: seq<(string, seq<string>)>, j: nat)
    requires j < |groups|
    ensures GroupRows(groups[j..]) == [[groups[j].0] + groups[j].1] + GroupRows(groups[j + 1..])
  {
    assert groups[j..][1..] == groups[j + 1..];
  }

  lemma PairRowsStep(left: string, rights: seq<(string, seq<Option<int>>)>, m: nat)
    requires m < |rights|
    ensures PairRows(left, rights[m..]) == [[left, rights[m].0] + CellTexts(rights[m].1)] + PairRows(left, rights[m + 1..])
  {
    assert rights[m..][1..] == rights[m + 1..];
  }

  lemma ValueRowsStep(values: Values, k: nat)
    requires k < |values|
    ensures ValueRows(values[k..]) == PairRows(values[k].0, values[k].1) + ValueRows(values[k + 1..])
  {
    assert values[k..][1..] == values[k + 1..];
  }

  /** The rows of one table, written group by group in name order and pair by pair. */
  method WriteKerningTable(kernType: string, table: Kerning) returns (rows: seq<Row>)
    ensures rows == TableRows(kernType, table.(groups := SortByKey(table.groups)))
  {
    rows := [["TYPE"], [kernType]];
    rows := rows + [[], ["GROUPS"]];
    var groups := SortByKey(table.groups);
    ghost var groupsStart := rows;
    for j := 0 to |groups|
      invariant rows + GroupRows(groups[j..]) == groupsStart + GroupRows(groups)
    {
      GroupRowsStep(groups, j);
      AppendAssociative(rows, [[groups[j].0] + groups[j].1], GroupRows(groups[j + 1..]));
      rows := rows + [[groups[j].0] + groups[j].1];
    }
    assert groups[|groups|..] == [];
    assert rows == groupsStart + GroupRows(groups);
    AppendAssociative([["TYPE"], [kernType]], [[], ["GROUPS"]], GroupRows(groups));
    AppendAssociative([["TYPE"], [kernType]], [[], ["GROUPS"]] + GroupRows(groups), [[]]);
    rows := rows + [[]];
    ghost var valuesStart := rows;
    rows := rows + [["VALUES"], ["side1", "side2"] + table.sourceIdentifiers];
    var values := table.values;
    for k := 0 to |values|
      invariant rows + ValueRows(values[k..]) == valuesStart + ValueSection(table)
    {
      var left := values[k].0;
      var rightDict := values[k].1;
      ValueRowsStep(values, k);
      ghost var pairsStart := rows;
      for m := 0 to |rightDict|
        invariant rows + PairRows(left, rightDict[m..]) == pairsStart + PairRows(left, rightDict)
      {
        PairRowsStep(left, rightDict, m);
        var row := CellTexts(rightDict[m].1);
        AppendAssociative(rows, [[left, rightDict[m].0] + row], PairRows(left, rightDict[m + 1..]));
        rows := rows + [[left, rightDict[m].0] + row];
      }
      assert rightDict[|rightDict|..] == [];
      AppendAssociative(pairsStart, PairRows(left, rightDict), ValueRows(values[k + 1..]));
    }
    assert values[|values|..] == [];
  }

  /** `writeKerningFile`. */
  method WriteKerningFile(kerning: seq<(string, Kerning)>) returns (rows: seq<Row>)
    ensures rows == KerningFileRows(kerning)
  {
    rows := [];
    var isFirst := true;
    ghost var written := Normalize(kerning);
    for i := 0 to |kerning|
      invariant isFirst <==> i == 0
      invariant rows + TablesRows(written[i..], isFirst) == KerningFileRows(kerning)
    {
      NormalizeAt(kerning, i);
      TablesRowsStep(written, i, isFirst);
      var separator: seq<Row> := if isFirst then [] else [[]];
      var tableRows := WriteKerningTable(kerning[i].0, kerning[i].1);
      AppendAssociative(rows, separator, tableRows + TablesRows(written[i + 1..], false));
      AppendAssociative(rows + separator, tableRows, TablesRows(written[i + 1..], false));
      rows := rows + separator + tableRows;
      isFirst := false;
    }
    assert written[|kerning|..] == [];
  }

  /** What the reader needs to give a table back: names that are not empty, and no name twice. */
  predicate Writable(kernType: string, table: Kerning) {
    && |kernType| > 0
    && DistinctKeys(table.groups) && (forall e | e in table.groups :: |e.0| > 0)
    && |table.sourceIdentifiers| > 0
    && DistinctKeys(table.values)
    && (forall e | e in table.values :: |e.0| > 0 && |e.1| > 0 && DistinctKeys(e.1))
  }

  /** Two rows in front of `tail`. */
  lemma TwoRows(x: Row, y: Row, tail: seq<Row>)
    ensures ([x, y] + tail)[0] == x && ([x, y] + tail)[1] == y && ([x, y] + tail)[2..] == tail
  {
  }

  lemma TypeRead(kernType: string, more: seq<Row>, c: nat)
    requires |kernType| > 0
    ensures KerningTypeOf(RowIter([["TYPE"], [kernType]] + more, c)) == Ok((Some(kernType), RowIter(more, c + 2)))
  {
    TwoRows(["TYPE"], [kernType], more);
  }

  lemma {:induction false} GroupRowsRead(acc: seq<(string, seq<string>)>, g: seq<(string, seq<string>)>, tail: seq<Row>, c: nat)
    requires DistinctKeys(acc + g)
    requires forall e | e in g :: |e.0| > 0
    ensures GroupRowsFrom(acc, RowIter(GroupRows(g) + tail, c)) == GroupRowsFrom(acc + g, RowIter(tail, c + |g|))
    decreases |g|
  {
    if |g| == 0 {
      assert GroupRows(g) + tail == tail;
      AppendEmpty(acc);
    } else {
      var e := g[0];
      var rows := GroupRows(g) + tail;
      assert rows[0] == [e.0] + e.1 && rows[1..] == GroupRows(g[1..]) + tail;
      assert e in g;
      forall j | 0 <= j < |acc|
        ensures acc[j].0 != e.0
      {
        assert (acc + g)[j] == acc[j] && (acc + g)[|acc|] == e;
      }
      GetAbsent(acc, e.0);
      PutNew(acc, e.0, e.1);
      SplitFirst(acc, g);
      GroupRowsRead(acc + [e], g[1..], tail, c + 1);
    }
  }

  /** A blank row ends the group rows. */
  lemma GroupRowsStop(groups: seq<(string, seq<string>)>, more: seq<Row>, c: nat)
    ensures GroupRowsFrom(groups, RowIter([[]] + more, c)) == (groups, RowIter(more, c + 1))
  {
    assert ([[]] + more)[1..] == more;
  }

  /** `GROUPS` on the second row, after a blank one. */
  lemma GroupsHeader(tail: seq<Row>, c: nat)
    ensures KerningGroupsOf(RowIter([[], ["GROUPS"]] + tail, c)) == Ok(GroupRowsFrom([], RowIter(tail, c + 2)))
  {
    TwoRows([], ["GROUPS"], tail);
    NextNonBlankRowSome(RowIter([[], ["GROUPS"]] + tail, c), 1);
  }

  lemma GroupsRead(g: seq<(string, seq<string>)>, more: seq<Row>, c: nat, end: nat)
    requires DistinctKeys(g) && forall e | e in g :: |e.0| > 0
    requires end == c + 3 + |g|
    ensures KerningGroupsOf(RowIter(GroupSection(g) + more, c)) == Ok((g, RowIter(more, end)))
  {
    var tail := GroupRows(g) + ([[]] + more);
    assert GroupSection(g) + more == [[], ["GROUPS"]] + tail by {
      AppendAssociative([[], ["GROUPS"]] + GroupRows(g), [[]], more);
      AppendAssociative([[], ["GROUPS"]], GroupRows(g), [[]] + more);
    }
    GroupsHeader(tail, c);
    assert GroupRowsFrom([], RowIter(tail, c + 2)) == GroupRowsFrom(g, RowIter([[]] + more, c + 2 + |g|)) by {
      AppendEmpty(g);
      GroupRowsRead([], g, [[]] + more, c + 2);
    }
    GroupRowsStop(g, more, c + 2 + |g|);
  }

  /** One value row: its cells are parsed back and stored under its two sides. */
  lemma ValueRowRead(acc: Values, left: string, right: string, cells: seq<Option<int>>, more: seq<Row>, c: nat)
    requires |left| > 0
    ensures ValueRowsFrom(acc, RowIter([[left, right] + CellTexts(cells)] + more, c))
      == ValueRowsFrom(Put(acc, left, Put(Inner(acc, left), right, cells)), RowIter(more, c + 1))
  {
    var row := [left, right] + CellTexts(cells);
    assert row[0] == left && row[1] == right && row[2..] == CellTexts(cells);
    CellsRoundTrip(cells);
    var it := RowIter([row] + more, c);
    assert it.rows[0] == row && Rest(it) == RowIter(more, c + 1);
    ValueRowStep(acc, it, cells);
  }

  lemma ValueRowStep(acc: Values, it: RowIter, cells: seq<Option<int>>)
    requires |it.rows| > 0 && !Blank(it.rows[0]) && |it.rows[0]| >= 2
    requires CellValues(it.rows[0][2..]) == Some(cells)
    ensures ValueRowsFrom(acc, it)
      == ValueRowsFrom(Put(acc, it.rows[0][0], Put(Inner(acc, it.rows[0][0]), it.rows[0][1], cells)), Rest(it))
  {
  }

  /** `values[left]` after it was set. */
  lemma InnerPut(acc: Values, left: string, rights: seq<(string, seq<Option<int>>)>)
    ensures Inner(Put(acc, left, rights), left) == rights
  {
    GetPut(acc, left, rights, left);
  }

  /** A right side the inner dict has not seen goes last. */
  lemma PutFresh<V>(entries: seq<(string, V)>, e: (string, V), more: seq<(string, V)>)
    requires DistinctKeys(entries + [e] + more)
    ensures Get(entries, e.0) == None
    ensures Put(entries, e.0, e.1) == entries + [e]
  {
    forall j | 0 <= j < |entries|
      ensures entries[j].0 != e.0
    {
      assert (entries + [e] + more)[j] == entries[j] && (entries + [e] + more)[|entries|] == e;
    }
    GetAbsent(entries, e.0);
    PutNew(entries, e.0, e.1);
  }

  lemma FirstPairRowRead(acc: Values, left: string, rights: seq<(string, seq<Option<int>>)>, tail: seq<Row>, c: nat)
    requires |left| > 0 && |rights| > 0
    requires DistinctKeys(Inner(acc, left) + rights)
    ensures ValueRowsFrom(acc, RowIter(PairRows(left, rights) + tail, c))
      == ValueRowsFrom(Put(acc, left, Inner(acc, left) + [rights[0]]), RowIter(PairRows(left, rights[1..]) + tail, c + 1))
  {
    var r0 := rights[0];
    var inner := Inner(acc, left);
    AppendAssociative([[left, r0.0] + CellTexts(r0.1)], PairRows(left, rights[1..]), tail);
    ValueRowRead(acc, left, r0.0, r0.1, PairRows(left, rights[1..]) + tail, c);
    SplitFirst(inner, rights);
    PutFresh(inner, r0, rights[1..]);
  }

  lemma {:induction false} PairRowsRead(acc: Values, left: string, rights: seq<(string, seq<Option<int>>)>, tail: seq<Row>, c: nat, end: nat)
    requires |left| > 0
    requires DistinctKeys(Inner(acc, left) + rights)
    requires end == c + |rights|
    ensures ValueRowsFrom(acc, RowIter(PairRows(left, rights) + tail, c))
      == ValueRowsFrom(if |rights| == 0 then acc else Put(acc, left, Inner(acc, left) + rights), RowIter(tail, end))
    decreases |rights|
  {
    if |rights| == 0 {
      AppendEmpty(tail);
    } else {
      var r0 := rights[0];
      var inner := Inner(acc, left);
      var acc1 := Put(acc, left, inner + [r0]);
      FirstPairRowRead(acc, left, rights, tail, c);
      assert Inner(acc1, left) + rights[1..] == inner + rights by {
        InnerPut(acc, left, inner + [r0]);
        SplitFirst(inner, rights);
      }
      PairRowsRead(acc1, left, rights[1..], tail, c + 1, end);
      if |rights| > 1 {
        PutPut(acc, left, inner + [r0], inner + rights);
      } else {
        SplitFirst(inner, rights);
        AppendEmpty(inner + [r0]);
      }
    }
  }

  /** The rows of the first left side are read into a new entry. */
  lemma FirstValueRowsRead(acc: Values, values: Values, tail: seq<Row>, c: nat)
    requires |values| > 0
    requires DistinctKeys(acc + values)
    requires forall e | e in values :: |e.0| > 0 && |e.1| > 0 && DistinctKeys(e.1)
    ensures ValueRowsFrom(acc, RowIter(ValueRows(values) + tail, c))
      == ValueRowsFrom(acc + [values[0]], RowIter(ValueRows(values[1..]) + tail, c + |values[0].1|))
  {
    var e := values[0];
    assert e in values;
    AppendAssociative(PairRows(e.0, e.1), ValueRows(values[1..]), tail);
    SplitFirst(acc, values);
    PutFresh(acc, e, values[1..]);
    AppendEmpty(e.1);
    PairRowsRead(acc, e.0, e.1, ValueRows(values[1..]) + tail, c, c + |e.1|);
  }

  lemma {:induction false} ValueRowsRead(acc: Values, values: Values, tail: seq<Row>, c: nat, end: nat)
    requires DistinctKeys(acc + values)
    requires forall e | e in values :: |e.0| > 0 && |e.1| > 0 && DistinctKeys(e.1)
    requires end == c + |ValueRows(values)|
    ensures ValueRowsFrom(acc, RowIter(ValueRows(values) + tail, c)) == ValueRowsFrom(acc + values, RowIter(tail, end))
    decreases |values|
  {
    if |values| == 0 {
      AppendEmpty(tail);
      AppendEmpty(acc);
    } else {
      var e := values[0];
      FirstValueRowsRead(acc, values, tail, c);
      SplitFirst(acc, values);
      ValueRowsRead(acc + [e], values[1..], tail, c + |e.1|, end);
    }
  }

  /** The rows after a table: nothing, or the blank row that comes before the next table. */
  predicate EndsTable(tail: seq<Row>) {
    |tail| == 0 || tail[0] == []
  }

  /** The rows left once the blank row that ends a table is taken. */
  function AfterTable(tail: seq<Row>): seq<Row> {
    if |tail| == 0 then [] else tail[1..]
  }

  /** The value rows stop at the blank row before the next table, or at the end of the file. */
  lemma ValueRowsStop(values: Values, tail: seq<Row>, c: nat, end: nat)
    requires EndsTable(tail)
    requires end == if |tail| == 0 then c else c + 1
    ensures ValueRowsFrom(values, RowIter(tail, c)) == Ok((values, RowIter(AfterTable(tail), end)))
  {
  }

  /** `VALUES` and a header row with source identifiers, then the value rows. */
  lemma ValuesHeader(ids: seq<string>, body: seq<Row>, c: nat, read: (Values, RowIter))
    requires |ids| > 0
    requires ValueRowsFrom([], RowIter(body, c + 2)) == Ok(read)
    ensures KerningValuesOf(RowIter([["VALUES"], ["side1", "side2"] + ids] + body, c)) == Ok((ids, read.0, read.1))
  {
    var header := ["side1", "side2"] + ids;
    TwoRows(["VALUES"], header, body);
    assert header[..2] == ["side1", "side2"] && header[2..] == ids;
  }

  /** All the value rows of a table, up to the blank row or the end of the file. */
  lemma AllValueRowsRead(values: Values, tail: seq<Row>, c: nat, end: nat)
    requires DistinctKeys(values)
    requires forall e | e in values :: |e.0| > 0 && |e.1| > 0 && DistinctKeys(e.1)
    requires EndsTable(tail)
    requires end == c + |ValueRows(values)| + (if |tail| == 0 then 0 else 1)
    ensures ValueRowsFrom([], RowIter(ValueRows(values) + tail, c)) == Ok((values, RowIter(AfterTable(tail), end)))
  {
    var middle := c + |ValueRows(values)|;
    AppendEmpty(values);
    assert DistinctKeys([] + values);
    ValueRowsRead([], values, tail, c, middle);
    ValueRowsStop(values, tail, middle, end);
    assert ValueRowsFrom([], RowIter(ValueRows(values) + tail, c)) == ValueRowsFrom(values, RowIter(tail, middle));
  }

  lemma ValuesRead(table: Kerning, tail: seq<Row>, c: nat, end: nat)
    requires |table.sourceIdentifiers| > 0
    requires DistinctKeys(table.values)
    requires forall e | e in table.values :: |e.0| > 0 && |e.1| > 0 && DistinctKeys(e.1)
    requires EndsTable(tail)
    requires end == c + |ValueSection(table)| + (if |tail| == 0 then 0 else 1)
    ensures KerningValuesOf(RowIter(ValueSection(table) + tail, c))
      == Ok((table.sourceIdentifiers, table.values, RowIter(AfterTable(tail), end)))
  {
    var body := ValueRows(table.values) + tail;
    var header := ["side1", "side2"] + table.sourceIdentifiers;
    AppendAssociative([["VALUES"], header], ValueRows(table.values), tail);
    assert |ValueSection(table)| == 2 + |ValueRows(table.values)|;
    AllValueRowsRead(table.values, tail, c + 2, end);
    ValuesHeader(table.sourceIdentifiers, body, c, (table.values, RowIter(AfterTable(tail), end)));
  }

  /** One turn of the loop in `readKerningFile`. */
  lemma KerningFromStep(acc: seq<(string, Kerning)>, it: RowIter, kernType: string, typed: RowIter,
                        grouped: (seq<(string, seq<string>)>, RowIter), valued: (seq<string>, Values, RowIter))
    requires KerningTypeOf(it) == Ok((Some(kernType), typed))
    requires KerningGroupsOf(typed) == Ok(grouped)
    requires KerningValuesOf(grouped.1) == Ok(valued)
    ensures KerningFrom(acc, it) == KerningFrom(Put(acc, kernType, Kerning(grouped.0, valued.0, valued.1)), valued.2)
  {
  }

  /** A table whose values cannot be read ends the loop with that error. */
  lemma KerningFromError(acc: seq<(string, Kerning)>, it: RowIter, kernType: string, typed: RowIter,
                         grouped: (seq<(string, seq<string>)>, RowIter), error: ReadError)
    requires KerningTypeOf(it) == Ok((Some(kernType), typed))
    requires KerningGroupsOf(typed) == Ok(grouped)
    requires KerningValuesOf(grouped.1) == Err(error)
    ensures KerningFrom(acc, it) == Err(error)
  {
  }

  lemma TableRowsShape(kernType: string, table: Kerning, tail: seq<Row>)
    ensures TableRows(kernType, table) + tail
      == [["TYPE"], [kernType]] + (GroupSection(table.groups) + (ValueSection(table) + tail))
    ensures |TableRows(kernType, table)| == 5 + |table.groups| + |ValueSection(table)|
    ensures table == Kerning(table.groups, table.sourceIdentifiers, table.values)
  {
    var groupSection := GroupSection(table.groups);
    var valueSection := ValueSection(table);
    AppendAssociative([["TYPE"], [kernType]] + groupSection, valueSection, tail);
    AppendAssociative([["TYPE"], [kernType]], groupSection, valueSection + tail);
  }

  lemma TableRead(acc: seq<(string, Kerning)>, kernType: string, table: Kerning, tail: seq<Row>, c: nat, end: nat)
    requires Writable(kernType, table)
    requires EndsTable(tail)
    requires end == c + |TableRows(kernType, table)| + (if |tail| == 0 then 0 else 1)
    ensures KerningFrom(acc, RowIter(TableRows(kernType, table) + tail, c))
      == KerningFrom(Put(acc, kernType, table), RowIter(AfterTable(tail), end))
  {
    var valueSection := ValueSection(table);
    var afterType := GroupSection(table.groups) + (valueSection + tail);
    TableRowsShape(kernType, table, tail);
    TypeRead(kernType, afterType, c);
    GroupsRead(table.groups, valueSection + tail, c + 2, c + 5 + |table.groups|);
    ValuesRead(table, tail, c + 5 + |table.groups|, end);
    KerningFromStep(acc, RowIter(TableRows(kernType, table) + tail, c), kernType, RowIter(afterType, c + 2),
      (table.groups, RowIter(valueSection + tail, c + 5 + |table.groups|)),
      (table.sourceIdentifiers, table.values, RowIter(AfterTable(tail), end)));
  }

  lemma TablesRowsSeparated(kerning: seq<(string, Kerning)>)
    ensures TablesRows(kerning, false) == if |kerning| == 0 then [] else [[]] + TablesRows(kerning, true)
  {
  }

  /** At the end of the file the loop stops. */
  lemma KerningFromEnd(acc: seq<(string, Kerning)>, c: nat)
    ensures KerningFrom(acc, RowIter([], c)) == Ok(acc)
  {
  }

  lemma {:induction false} TablesRead(acc: seq<(string, Kerning)>, kerning: seq<(string, Kerning)>, c: nat)
    requires DistinctKeys(acc + kerning)
    requires forall e | e in kerning :: Writable(e.0, e.1)
    ensures KerningFrom(acc, RowIter(TablesRows(kerning, true), c)) == Ok(acc + kerning)
    decreases |kerning|
  {
    if |kerning| == 0 {
      KerningFromEnd(acc, c);
      AppendEmpty(acc);
    } else {
      var end := FirstTableRead(acc, kerning, c);
      SplitFirst(acc, kerning);
      TablesRead(acc + [kerning[0]], kerning[1..], end);
    }
  }

  /** The first table is read, and the reader is left at the start of the next one. */
  lemma FirstTableRead(acc: seq<(string, Kerning)>, kerning: seq<(string, Kerning)>, c: nat) returns (end: nat)
    requires |kerning| > 0
    requires DistinctKeys(acc + kerning)
    requires forall e | e in kerning :: Writable(e.0, e.1)
    ensures KerningFrom(acc, RowIter(TablesRows(kerning, true), c))
      == KerningFrom(acc + [kerning[0]], RowIter(TablesRows(kerning[1..], true), end))
  {
    var e := kerning[0];
    assert e in kerning;
    var tail := TablesRows(kerning[1..], false);
    end := c + |TableRows(e.0, e.1)| + (if |tail| == 0 then 0 else 1);
    assert AfterTable(tail) == TablesRows(kerning[1..], true) by {
      TablesRowsSeparated(kerning[1..]);
    }
    TableRead(acc, e.0, e.1, tail, c, end);
    SplitFirst(acc, kerning);
    PutFresh(acc, e, kerning[1..]);
  }

  /** The tables as the writer emits them satisfy what the reader needs. */
  lemma NormalizeWritable(kerning: seq<(string, Kerning)>)
    requires DistinctKeys(kerning)
    requires forall e | e in kerning :: Writable(e.0, e.1)
    ensures DistinctKeys(Normalize(kerning))
    ensures forall e | e in Normalize(kerning) :: Writable(e.0, e.1)
  {
    var written := Normalize(kerning);
    forall a, b | 0 <= a < b < |written|
      ensures written[a].0 != written[b].0
    {
      NormalizeAt(kerning, a);
      NormalizeAt(kerning, b);
    }
    forall e | e in written
      ensures Writable(e.0, e.1)
    {
      var i :| 0 <= i < |written| && written[i] == e;
      NormalizeAt(kerning, i);
      assert kerning[i] in kerning;
      SortedNamed(kerning[i].1.groups);
    }
  }

  lemma SortedNamed(groups: seq<(string, seq<string>)>)
    requires DistinctKeys(groups) && forall e | e in groups :: |e.0| > 0
    ensures DistinctKeys(SortByKey(groups)) && forall e | e in SortByKey(groups) :: |e.0| > 0
  {
    SortByKeyFacts(groups);
  }

  /**
   * Reading the file `writeKerningFile` wrote gives every table back,
   * with its groups in name order, provided each table has a non-empty
   * type, non-empty group and left-side names, at least one source
   * identifier, and at least one right side per left side.
   */
  lemma KerningRoundTrip(kerning: seq<(string, Kerning)>)
    requires DistinctKeys(kerning)
    requires forall e | e in kerning :: Writable(e.0, e.1)
    ensures KerningOf(KerningFileRows(kerning)) == Ok(Normalize(kerning))
  {
    NormalizeWritable(kerning);
    AppendEmpty(Normalize(kerning));
    TablesRead([], Normalize(kerning), 0);
  }

  /** A header row with no source identifiers. */
  lemma ValuesHeaderShort(body: seq<Row>, c: nat)
    ensures KerningValuesOf(RowIter([["VALUES"], ["side1", "side2"]] + body, c))
      == Err(KerningParseError(ExpectedSourceIdentifiers, Some(c + 2)))
  {
    TwoRows(["VALUES"], ["side1", "side2"], body);
  }

  /** A left side without right sides is written as no rows, so it is not read back. */
  lemma EmptyLeftSideLost(left: string, values: Values)
    ensures ValueRows([(left, [])] + values) == ValueRows(values)
  {
    assert ([(left, [])] + values)[1..] == values;
  }

  /** A group with an empty name is written as a row that ends the groups section: it and the groups after it are lost. */
  lemma EmptyGroupNameEndsGroups(groups: seq<(string, seq<string>)>, members: seq<string>, more: seq<Row>, c: nat)
    ensures GroupRowsFrom(groups, RowIter(GroupRows([("", members)]) + more, c)) == (groups, RowIter(more, c + 1))
  {
    var rows := GroupRows([("", members)]) + more;
    assert rows[0] == [""] + members && rows[1..] == more;
  }

  /** Without source identifiers the writer emits a header row the reader rejects. */
  lemma NoSourceIdentifiersRejected(kernType: string, table: Kerning)
    requires |kernType| > 0
    requires DistinctKeys(table.groups) && forall e | e in table.groups :: |e.0| > 0
    requires |table.sourceIdentifiers| == 0
    ensures KerningOf(KerningFileRows([(kernType, table)]))
      == Err(KerningParseError(ExpectedSourceIdentifiers, Some(|table.groups| + 7)))
  {
    var written := table.(groups := SortByKey(table.groups));
    NormalizeAt([(kernType, table)], 0);
    SortedNamed(table.groups);
    var valueSection := ValueSection(written);
    var afterType := GroupSection(written.groups) + valueSection;
    assert KerningFileRows([(kernType, table)]) == [["TYPE"], [kernType]] + afterType by {
      assert Normalize([(kernType, table)]) == [(kernType, written)];
      assert TablesRows([(kernType, written)][1..], false) == [];
    }
    TypeRead(kernType, afterType, 0);
    GroupsRead(written.groups, valueSection, 2, 5 + |table.groups|);
    assert ["side1", "side2"] + written.sourceIdentifiers == ["side1", "side2"];
    assert valueSection == [["VALUES"], ["side1", "side2"]] + ValueRows(table.values);
    ValuesHeaderShort(ValueRows(table.values), 5 + |table.groups|);
    KerningFromError([], RowIter([["TYPE"], [kernType]] + afterType, 0), kernType, RowIter(afterType, 2),
      (written.groups, RowIter(valueSection, 5 + |table.groups|)),
      KerningParseError(ExpectedSourceIdentifiers, Some(|table.groups| + 7)));
  }

  //
  // Dict bookkeeping
  //

  lemma {:induction false} GetNoneAbsent<V>(d: seq<(string, V)>, key: string)
    requires Get(d, key) == None
    ensures forall j | 0 <= j < |d| :: d[j].0 != key
  {
    if |d| > 0 {
      GetNoneAbsent(d[1..], key);
      assert forall j | 1 <= j < |d| :: d[j] == d[1..][j - 1];
    }
  }

  /** No key is in the dict twice after `d[key] = value`. */
  lemma {:induction false} PutKeepsDistinct<V>(d: seq<(string, V)>, key: string, value: V)
    requires DistinctKeys(d)
    ensures DistinctKeys(Put(d, key, value))
  {
    if |d| > 0 && d[0].0 != key {
      var rest := Put(d[1..], key, value);
      PutKeepsDistinct(d[1..], key, value);
      forall j | 0 <= j < |d| - 1
        ensures d[1..][j].0 != d[0].0
      {
        assert d[1..][j] == d[j + 1];
      }
      GetAbsent(d[1..], d[0].0);
      GetPut(d[1..], key, value, d[0].0);
      GetNoneAbsent(rest, d[0].0);
      assert Put(d, key, value) == [d[0]] + rest;
      forall a, b | 0 <= a < b < |[d[0]] + rest|
        ensures ([d[0]] + rest)[a].0 != ([d[0]] + rest)[b].0
      {
        if a > 0 {
          assert ([d[0]] + rest)[a] == rest[a - 1];
        }
        assert ([d[0]] + rest)[b] == rest[b - 1];
      }
    } else if |d| > 0 {
      assert Put(d, key, value) == [(key, value)] + d[1..];
      forall a, b | 0 <= a < b < |d|
        ensures Put(d, key, value)[a].0 != Put(d, key, value)[b].0
      {
        assert Put(d, key, value)[b] == d[b];
        assert Put(d, key, value)[a].0 == d[a].0;
      }
    }
  }

  /** Assigning a key the value it already has changes nothing. */
  lemma {:induction false} PutSame<V>(d: seq<(string, V)>, key: string, value: V)
    requires Get(d, key) == Some(value)
    ensures Put(d, key, value) == d
  {
    if d[0].0 == key {
      assert d == [d[0]] + d[1..];
    } else {
      PutSame(d[1..], key, value);
      assert d == [d[0]] + d[1..];
    }
  }

  /** `del d[key]` on a dict that has `key`: the entry goes, the others keep their order. */
  function RemoveKey<V>(d: seq<(string, V)>, key: string): (r: seq<(string, V)>)
    ensures |r| <= |d|
  {
    if |d| == 0 then []
    else if d[0].0 == key then d[1..]
    else [d[0]] + RemoveKey(d[1..], key)
  }

  lemma {:induction false} GetRemoveKey<V>(d: seq<(string, V)>, key: string, k: string)
    requires DistinctKeys(d)
    ensures Get(RemoveKey(d, key), k) == if k == key then None else Get(d, k)
  {
    if |d| > 0 {
      if d[0].0 == key {
        if k == key {
          forall j | 0 <= j < |d| - 1
            ensures d[1..][j].0 != key
          {
            assert d[1..][j] == d[j + 1];
          }
          GetAbsent(d[1..], key);
        }
      } else {
        assert DistinctKeys(d[1..]) by {
          forall a, b | 0 <= a < b < |d[1..]|
            ensures d[1..][a].0 != d[1..][b].0
          {
            assert d[1..][a] == d[a + 1] && d[1..][b] == d[b + 1];
          }
        }
        GetRemoveKey(d[1..], key, k);
      }
    }
  }

  lemma {:induction false} RemoveKeyKeepsDistinct<V>(d: seq<(string, V)>, key: string)
    requires DistinctKeys(d)
    ensures DistinctKeys(RemoveKey(d, key))
  {
    if |d| > 0 {
      assert DistinctKeys(d[1..]) by {
        forall a, b | 0 <= a < b < |d[1..]|
          ensures d[1..][a].0 != d[1..][b].0
        {
          assert d[1..][a] == d[a + 1] && d[1..][b] == d[b + 1];
        }
      }
      if d[0].0 != key {
        var rest := RemoveKey(d[1..], key);
        RemoveKeyKeepsDistinct(d[1..], key);
        forall j | 0 <= j < |d| - 1
          ensures d[1..][j].0 != d[0].0
        {
          assert d[1..][j] == d[j + 1];
        }
        GetAbsent(d[1..], d[0].0);
        GetRemoveKey(d[1..], key, d[0].0);
        GetNoneAbsent(rest, d[0].0);
        forall a, b | 0 <= a < b < |[d[0]] + rest|
          ensures ([d[0]] + rest)[a].0 != ([d[0]] + rest)[b].0
        {
          if a > 0 {
            assert ([d[0]] + rest)[a] == rest[a - 1];
          }
          assert ([d[0]] + rest)[b] == rest[b - 1];
        }
      }
    }
  }

  /** The glyph map the reader builds has each glyph name once. */
  lemma {:induction false} GlyphMapFromDistinct(glyphMap: seq<(string, seq<int>)>, rows: seq<Row>)
    requires DistinctKeys(glyphMap)
    requires GlyphMapFrom(glyphMap, rows).Ok?
    ensures DistinctKeys(GlyphMapFrom(glyphMap, rows).value)
    decreases |rows|
  {
    if |rows| > 0 {
      var entry := GlyphInfoEntry(rows[0]).value;
      PutKeepsDistinct(glyphMap, entry.0, entry.1);
      GlyphMapFromDistinct(Put(glyphMap, entry.0, entry.1), rows[1..]);
    }
  }

  //
  // The write scheduler
  //

  /** What the backend schedules, known to the scheduler by `__name__`. */
  datatype Callable = GlyphInfoWriter | FontDataWriter | Other(name: string)

  function NameOf(c: Callable): string {
    match c
    case GlyphInfoWriter => "_writeGlyphInfo"
    case FontDataWriter => "_writeFontData"
    case Other(name) => name
  }

  /** `scheduledCallables.values()`, in order. */
  function Callables(scheduled: seq<(string, Callable)>): (r: seq<Callable>)
    ensures |r| == |scheduled|
  {
    if |scheduled| == 0 then [] else Callables(scheduled[..|scheduled| - 1]) + [scheduled[|scheduled| - 1].1]
  }

  lemma {:induction false} CallablesAt(scheduled: seq<(string, Callable)>, i: nat)
    requires i < |scheduled|
    ensures Callables(scheduled)[i] == scheduled[i].1
    decreases |scheduled|
  {
    if i < |scheduled| - 1 {
      CallablesAt(scheduled[..|scheduled| - 1], i);
    }
  }

  /** Each name is scheduled under its own `__name__`, once. */
  predicate WellScheduled(scheduled: seq<(string, Callable)>) {
    DistinctKeys(scheduled) && NamesMatch(scheduled)
  }

  /** Scheduling two callables with the same name before a flush keeps only the later one, in the earlier one's place. */
  lemma ScheduleCoalesces(scheduled: seq<(string, Callable)>, first: Callable, second: Callable)
    requires NameOf(first) == NameOf(second)
    ensures Put(Put(scheduled, NameOf(first), first), NameOf(second), second) == Put(scheduled, NameOf(second), second)
  {
    PutPut(scheduled, NameOf(first), first, second);
  }

  /** A flush calls no name twice, however often it was scheduled. */
  lemma FlushCallsEachNameOnce(scheduled: seq<(string, Callable)>)
    requires WellScheduled(scheduled)
    ensures forall a, b | 0 <= a < b < |Callables(scheduled)| :: NameOf(Callables(scheduled)[a]) != NameOf(Callables(scheduled)[b])
  {
    forall a, b | 0 <= a < b < |Callables(scheduled)|
      ensures NameOf(Callables(scheduled)[a]) != NameOf(Callables(scheduled)[b])
    {
      CallablesAt(scheduled, a);
      CallablesAt(scheduled, b);
    }
  }

  /** Every entry is keyed by its callable's `__name__`. */
  predicate NamesMatch(scheduled: seq<(string, Callable)>) {
    forall j | 0 <= j < |scheduled| :: scheduled[j].0 == NameOf(scheduled[j].1)
  }

  lemma {:induction false} PutKeepsNames(scheduled: seq<(string, Callable)>, c: Callable)
    requires NamesMatch(scheduled)
    ensures NamesMatch(Put(scheduled, NameOf(c), c))
  {
    var r := Put(scheduled, NameOf(c), c);
    if |scheduled| > 0 && scheduled[0].0 != NameOf(c) {
      var rest := Put(scheduled[1..], NameOf(c), c);
      assert NamesMatch(scheduled[1..]) by {
        forall j | 0 <= j < |scheduled| - 1
          ensures scheduled[1..][j].0 == NameOf(scheduled[1..][j].1)
        {
          assert scheduled[1..][j] == scheduled[j + 1];
        }
      }
      PutKeepsNames(scheduled[1..], c);
      assert r == [scheduled[0]] + rest;
      forall j | 0 <= j < |r|
        ensures r[j].0 == NameOf(r[j].1)
      {
        if j > 0 {
          assert r[j] == rest[j - 1];
        }
      }
    } else if |scheduled| > 0 {
      assert r == [(NameOf(c), c)] + scheduled[1..];
      forall j | 0 <= j < |r|
        ensures r[j].0 == NameOf(r[j].1)
      {
        if j > 0 {
          assert r[j] == scheduled[j];
        }
      }
    }
  }

  /** `Scheduler`: callables by name, and whether the flush timer is running. */
  class Scheduler {
    var scheduled: seq<(string, Callable)>
    var timerPending: bool

    predicate Valid()
      reads this
    {
      WellScheduled(scheduled)
    }

    constructor()
      ensures Valid() && scheduled == [] && !timerPending
    {
      scheduled := [];
      timerPending := false;
    }

    /** `schedule`: the callable replaces any of the same name, and the timer restarts. */
    method Schedule(c: Callable)
      requires Valid()
      modifies this
      ensures Valid()
      ensures scheduled == Put(old(scheduled), NameOf(c), c)
      ensures timerPending
    {
      PutKeepsDistinct(scheduled, NameOf(c), c);
      PutKeepsNames(scheduled, c);
      scheduled := Put(scheduled, NameOf(c), c);
      timerPending := true;
    }

    /** `flush`: the timer stops, and the scheduled callables are handed back in order and forgotten. */
    method Flush() returns (called: seq<Callable>)
      requires Valid()
      modifies this
      ensures Valid()
      ensures called == Callables(old(scheduled))
      ensures scheduled == [] && !timerPending
    {
      timerPending := false;
      called := [];
      for i := 0 to |scheduled|
        invariant called == Callables(scheduled[..i])
      {
        assert scheduled[..i + 1][..i] == scheduled[..i];
        called := called + [scheduled[i].1];
      }
      assert scheduled[..|scheduled|] == scheduled;
      scheduled := [];
    }
  }

  //
  // The backend
  //

  datatype BackendError =
    | KeyError(glyphName: string)          // the glyph is not in the glyph map
    | FileNotFound(glyphName: string)      // `unlink` of a glyph file that is not there

  /** What `_writeFontData` leaves of the kerning file: none when there is no kerning. */
  function KerningFileOf(kerning: seq<(string, Kerning)>): Option<seq<Row>> {
    if |kerning| == 0 then None else Some(KerningFileRows(kerning))
  }

  /**
   * `FontraBackend`, as far as glyphs and kerning go: the glyph map, the
   * glyph files by glyph name, the glyph-info and kerning files as rows,
   * the kerning, and the scheduler that writes the files back.
   */
  class Backend {
    var glyphMap: seq<(string, seq<int>)>
    var glyphFiles: map<string, string>
    var glyphInfoRows: seq<Row>
    var kerning: seq<(string, Kerning)>
    var kerningFile: Option<seq<Row>>
    const scheduler: Scheduler

    predicate Valid()
      reads this, scheduler
    {
      DistinctKeys(glyphMap) && scheduler.Valid()
    }

    /** `createFromPath`: an empty font, its glyph-info file written at once and no kerning file. */
    constructor Create()
      ensures Valid() && fresh(scheduler)
      ensures glyphMap == [] && glyphFiles == map[] && kerning == [] && kerningFile == None
      ensures glyphInfoRows == GlyphInfoTable([])
      ensures scheduler.scheduled == [] && !scheduler.timerPending
    {
      var rows := WriteGlyphInfo([]);
      glyphMap := [];
      glyphFiles := map[];
      glyphInfoRows := rows;
      kerning := [];
      kerningFile := None;
      scheduler := new Scheduler();
    }

    constructor Load(glyphMap: seq<(string, seq<int>)>, glyphFiles: map<string, string>, glyphInfoRows: seq<Row>,
                     kerning: seq<(string, Kerning)>, kerningFile: Option<seq<Row>>)
      requires DistinctKeys(glyphMap)
      ensures Valid() && fresh(scheduler)
      ensures this.glyphMap == glyphMap && this.glyphFiles == glyphFiles && this.glyphInfoRows == glyphInfoRows
      ensures this.kerning == kerning && this.kerningFile == kerningFile
      ensures scheduler.scheduled == [] && !scheduler.timerPending
    {
      this.glyphMap := glyphMap;
      this.glyphFiles := glyphFiles;
      this.glyphInfoRows := glyphInfoRows;
      this.kerning := kerning;
      this.kerningFile := kerningFile;
      scheduler := new Scheduler();
    }

    /** `fromPath`: the glyph map from the glyph-info file, and the kerning from the kerning file when there is one. */
    static method Open(glyphInfoRows: seq<Row>, glyphFiles: map<string, string>, kerningFile: Option<seq<Row>>)
      returns (r: Result<Backend, ReadError>)
      ensures r.Ok? <==> GlyphInfoOf(glyphInfoRows).Ok? && (kerningFile.None? || KerningOf(kerningFile.value).Ok?)
      ensures r.Err? && GlyphInfoOf(glyphInfoRows).Err? ==> r.error == GlyphInfoOf(glyphInfoRows).error
      ensures r.Ok? ==> fresh(r.value) && r.value.Valid()
      ensures r.Ok? ==> r.value.glyphMap == GlyphInfoOf(glyphInfoRows).value && r.value.glyphFiles == glyphFiles
      ensures r.Ok? ==> r.value.kerning == (if kerningFile.None? then [] else KerningOf(kerningFile.value).value)
    {
      var read := ReadGlyphInfo(glyphInfoRows);
      if read.Err? {
        return Err(read.error);
      }
      var kerning: seq<(string, Kerning)> := [];
      if kerningFile.Some? {
        var readKerning := ReadKerningFile(kerningFile.value);
        if readKerning.Err? {
          return Err(readKerning.error);
        }
        kerning := readKerning.value;
      }
      GlyphMapFromDistinct([], glyphInfoRows[1..]);
      var backend := new Backend.Load(read.value, glyphFiles, glyphInfoRows, kerning, kerningFile);
      return Ok(backend);
    }

    /** `getGlyphMap`: a copy of the glyph map. */
    method GetGlyphMap() returns (r: seq<(string, seq<int>)>)
      ensures r == glyphMap
    {
      r := glyphMap;
    }

    /** `getGlyphData`: the glyph file's text, or `KeyError` when the file is not there. */
    method GetGlyphData(glyphName: string) returns (r: Result<string, BackendError>)
      ensures glyphName in glyphFiles ==> r == Ok(glyphFiles[glyphName])
      ensures glyphName !in glyphFiles ==> r == Err(KeyError(glyphName))
    {
      if glyphName !in glyphFiles {
        return Err(KeyError(glyphName));
      }
      return Ok(glyphFiles[glyphName]);
    }

    /** `getGlyph`: the glyph's file text, or nothing when the glyph is not in the glyph map or its file is missing. */
    method GetGlyph(glyphName: string) returns (r: Option<string>)
      ensures r.Some? <==> Get(glyphMap, glyphName).Some? && glyphName in glyphFiles
      ensures r.Some? ==> r.value == glyphFiles[glyphName]
    {
      if Get(glyphMap, glyphName).None? {
        return None;
      }
      var data := GetGlyphData(glyphName);
      if data.Err? {
        return None;
      }
      return Some(data.value);
    }

    /** `putGlyph`: the file is written; the glyph-info file is scheduled only when the code points change. */
    method PutGlyph(glyphName: string, jsonSource: string, codePoints: seq<int>)
      requires Valid()
      modifies this, scheduler
      ensures Valid()
      ensures glyphFiles == old(glyphFiles)[glyphName := jsonSource]
      ensures glyphMap == Put(old(glyphMap), glyphName, codePoints)
      ensures Get(glyphMap, glyphName) == Some(codePoints)
      ensures scheduler.scheduled == if old(Get(glyphMap, glyphName)) == Some(codePoints) then old(scheduler.scheduled)
        else Put(old(scheduler.scheduled), NameOf(GlyphInfoWriter), GlyphInfoWriter)
      ensures glyphInfoRows == old(glyphInfoRows) && kerning == old(kerning) && kerningFile == old(kerningFile)
    {
      glyphFiles := glyphFiles[glyphName := jsonSource];
      GetPut(glyphMap, glyphName, codePoints, glyphName);
      if Get(glyphMap, glyphName) != Some(codePoints) {
        PutKeepsDistinct(glyphMap, glyphName, codePoints);
        glyphMap := Put(glyphMap, glyphName, codePoints);
        scheduler.Schedule(GlyphInfoWriter);
      } else {
        PutSame(glyphMap, glyphName, codePoints);
      }
    }

    /**
     * `deleteGlyph`: `KeyError` for a glyph the map lacks; `FileNotFound`
     * when its file is missing, with the map left as it was; otherwise the
     * file and the map entry go and the glyph-info file is scheduled.
     */
    method DeleteGlyph(glyphName: string) returns (r: Outcome<BackendError>)
      requires Valid()
      modifies this, scheduler
      ensures Valid()
      ensures Get(old(glyphMap), glyphName).None? ==> r == Fail(KeyError(glyphName))
      ensures Get(old(glyphMap), glyphName).Some? && glyphName !in old(glyphFiles) ==> r == Fail(FileNotFound(glyphName))
      ensures r.Fail? ==> (glyphMap == old(glyphMap) && glyphFiles == old(glyphFiles)
                           && scheduler.scheduled == old(scheduler.scheduled))
      ensures r.Pass? ==> Get(old(glyphMap), glyphName).Some? && glyphName in old(glyphFiles)
      ensures r.Pass? ==> (glyphMap == RemoveKey(old(glyphMap), glyphName) && glyphFiles == old(glyphFiles) - {glyphName}
                           && scheduler.scheduled == Put(old(scheduler.scheduled), NameOf(GlyphInfoWriter), GlyphInfoWriter))
      ensures glyphInfoRows == old(glyphInfoRows) && kerning == old(kerning) && kerningFile == old(kerningFile)
    {
      if Get(glyphMap, glyphName).None? {
        return Fail(KeyError(glyphName));
      }
      if glyphName !in glyphFiles {
        return Fail(FileNotFound(glyphName));
      }
      glyphFiles := glyphFiles - {glyphName};
      RemoveKeyKeepsDistinct(glyphMap, glyphName);
      glyphMap := RemoveKey(glyphMap, glyphName);
      scheduler.Schedule(GlyphInfoWriter);
      return Pass;
    }

    /** `getKerning`: a copy of the kerning. */
    method GetKerning() returns (r: seq<(string, Kerning)>)
      ensures r == kerning
    {
      r := kerning;
    }

    /** `putKerning`: the kerning is replaced and the font data is scheduled for writing. */
    method PutKerning(newKerning: seq<(string, Kerning)>)
      requires Valid()
      modifies this, scheduler
      ensures Valid()
      ensures kerning == newKerning
      ensures scheduler.scheduled == Put(old(scheduler.scheduled), NameOf(FontDataWriter), FontDataWriter)
      ensures glyphMap == old(glyphMap) && glyphFiles == old(glyphFiles)
      ensures glyphInfoRows == old(glyphInfoRows) && kerningFile == old(kerningFile)
    {
      kerning := newKerning;
      scheduler.Schedule(FontDataWriter);
    }

    /**
     * `flush`: the scheduler hands back what was scheduled, and each
     * callable runs: `_writeGlyphInfo` rewrites the glyph-info file,
     * `_writeFontData` rewrites the kerning file or removes it.
     */
    method Flush() returns (called: seq<Callable>)
      requires Valid()
      modifies this, scheduler
      ensures Valid()
      ensures called == Callables(old(scheduler.scheduled))
      ensures scheduler.scheduled == [] && !scheduler.timerPending
      ensures glyphInfoRows == if GlyphInfoWriter in called then GlyphInfoTable(glyphMap) else old(glyphInfoRows)
      ensures kerningFile == if FontDataWriter in called then KerningFileOf(kerning) else old(kerningFile)
      ensures glyphMap == old(glyphMap) && glyphFiles == old(glyphFiles) && kerning == old(kerning)
    {
      called := scheduler.Flush();
      for i := 0 to |called|
        invariant scheduler.scheduled == [] && !scheduler.timerPending
        invariant glyphInfoRows == if GlyphInfoWriter in called[..i] then GlyphInfoTable(glyphMap) else old(glyphInfoRows)
        invariant kerningFile == if FontDataWriter in called[..i] then KerningFileOf(kerning) else old(kerningFile)
        invariant glyphMap == old(glyphMap) && glyphFiles == old(glyphFiles) && kerning == old(kerning)
      {
        InPrefix(called, i, GlyphInfoWriter);
        InPrefix(called, i, FontDataWriter);
        Run(called[i]);
      }
      assert called[..|called|] == called;
    }

    /** One scheduled callable: the backend's two writers rewrite their files, others change nothing here. */
    method Run(c: Callable)
      modifies this
      ensures glyphInfoRows == if c == GlyphInfoWriter then GlyphInfoTable(glyphMap) else old(glyphInfoRows)
      ensures kerningFile == if c == FontDataWriter then KerningFileOf(kerning) else old(kerningFile)
      ensures glyphMap == old(glyphMap) && glyphFiles == old(glyphFiles) && kerning == old(kerning)
    {
      match c
      case GlyphInfoWriter =>
        glyphInfoRows := WriteGlyphInfo(glyphMap);
      case FontDataWriter =>
        if |kerning| > 0 {
          var rows := WriteKerningFile(kerning);
          kerningFile := Some(rows);
        } else {
          kerningFile := None;
        }
      case Other(_) =>
    }
  }

  lemma InPrefix<T>(s: seq<T>, i: nat, x: T)
    requires i < |s|
    ensures x in s[..i + 1] <==> x in s[..i] || x == s[i]
  {
    assert s[..i + 1] == s[..i] + [s[i]];
  }

  /** After a flush that wrote the glyph-info file, reading it gives the glyph map back in name order. */
  lemma FlushedGlyphInfoReadsBack(glyphMap: seq<(string, seq<int>)>, glyphInfoRows: seq<Row>)
    requires DistinctKeys(glyphMap)
    requires glyphInfoRows == GlyphInfoTable(glyphMap)
    ensures GlyphInfoOf(glyphInfoRows).Ok?
    ensures forall name :: Get(GlyphInfoOf(glyphInfoRows).value, name) == Get(glyphMap, name)
  {
    GlyphInfoRoundTrip(glyphMap);
  }

  /** After a flush that wrote the kerning file, reading it gives the kerning back, groups in name order. */
  lemma FlushedKerningReadsBack(kerning: seq<(string, Kerning)>)
    requires |kerning| > 0
    requires DistinctKeys(kerning)
    requires forall e | e in kerning :: Writable(e.0, e.1)
    ensures KerningFileOf(kerning).Some? && KerningOf(KerningFileOf(kerning).value) == Ok(Normalize(kerning))
  {
    KerningRoundTrip(kerning);
  }
}
