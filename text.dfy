/**
 * The string primitives of JavaScript that the pipeline relies on:
 * `trim`, `split(/\s+/)`, `split('\n')`, `startsWith`, `endsWith`,
 * `includes`, `toUpperCase`, `parseInt` on digit strings, `parseFloat`,
 * the relational comparison of two strings, and `Array.prototype.join`.
 */
module Text {
  import opened Wrappers

  /** The characters ECMAScript counts as WhiteSpace or LineTerminator:
      what `trim` removes and what the regular-expression class `\s` matches. */
  predicate IsSpace(c: char) {
    || c == '\t' || c == '\n' || c == '\U{000B}' || c == '\U{000C}' || c == '\r'
    || c == ' ' || c == '\U{00A0}' || c == '\U{1680}'
    || ('\U{2000}' <= c <= '\U{200A}')
    || c == '\U{2028}' || c == '\U{2029}' || c == '\U{202F}' || c == '\U{205F}'
    || c == '\U{3000}' || c == '\U{FEFF}'
  }

  predicate NoSpace(s: string) {
    forall i :: 0 <= i < |s| ==> !IsSpace(s[i])
  }

  // ---------------------------------------------------------------------
  // trim
  // ---------------------------------------------------------------------

  function TrimStart(s: string): (r: string)
    ensures |r| <= |s| && r == s[|s| - |r|..]
    ensures r == [] || !IsSpace(r[0])
  {
    if s != [] && IsSpace(s[0]) then TrimStart(s[1..]) else s
  }

  function TrimEnd(s: string): (r: string)
    ensures |r| <= |s| && r == s[..|r|]
    ensures r == [] || !IsSpace(r[|r| - 1])
  {
    if s != [] && IsSpace(s[|s| - 1]) then TrimEnd(s[..|s| - 1]) else s
  }

  /** `s.trim()`: `s` without its leading and trailing white space. */
  function Trim(s: string): (r: string)
    ensures r == [] || (!IsSpace(r[0]) && !IsSpace(r[|r| - 1]))
    ensures |r| <= |s|
  {
    TrimEnd(TrimStart(s))
  }

  /** No white space at either end. */
  predicate Trimmed(s: string) {
    s == [] || (!IsSpace(s[0]) && !IsSpace(s[|s| - 1]))
  }

  /** A string with no white space at either end is its own trim. */
  lemma TrimOfTrimmed(s: string)
    requires Trimmed(s)
    ensures Trim(s) == s
  {
  }

  // ---------------------------------------------------------------------
  // split on white space
  // ---------------------------------------------------------------------

  /** The longest prefix of `s` that holds no white space. */
  function TakeWord(s: string): (w: string)
    ensures |w| <= |s| && w == s[..|w|]
    ensures NoSpace(w)
    ensures |w| == |s| || IsSpace(s[|w|])
    ensures s != [] && !IsSpace(s[0]) ==> w != []
    decreases |s|
  {
    if s == [] || IsSpace(s[0]) then [] else [s[0]] + TakeWord(s[1..])
  }

  /** The maximal runs of non-white-space characters of `s`, in order. */
  function Words(s: string): seq<string>
    decreases |s|
  {
    if s == [] then []
    else if IsSpace(s[0]) then Words(s[1..])
    else
      var w := TakeWord(s);
      [w] + Words(s[|w|..])
  }

  /** `s.trim().split(/\s+/)`. Splitting the trimmed string on runs of white
      space gives its words, except that the empty string splits into one
      empty group. */
  function SplitWhitespace(s: string): (groups: seq<string>)
    ensures |groups| >= 1
  {
    var ws := Words(Trim(s));
    if ws == [] then [""] else ws
  }

  /** `parts.join(sep)`. */
  function Join(parts: seq<string>, sep: string): string {
    if |parts| == 0 then []
    else if |parts| == 1 then parts[0]
    else parts[0] + sep + Join(parts[1..], sep)
  }

  lemma TakeWordOfPrefix(w: string, rest: string)
    requires NoSpace(w)
    requires rest == [] || IsSpace(rest[0])
    ensures TakeWord(w + rest) == w
  {
    if w != [] {
      assert (w + rest)[1..] == w[1..] + rest;
      TakeWordOfPrefix(w[1..], rest);
    }
  }

  /** A word followed by white space is split off as the first group. */
  lemma WordsCons(w: string, rest: string)
    requires w != [] && NoSpace(w)
    requires rest == [] || IsSpace(rest[0])
    ensures Words(w + rest) == [w] + Words(rest)
  {
    var s := w + rest;
    assert s[0] == w[0];
    TakeWordOfPrefix(w, rest);
    assert s[|w|..] == rest;
  }

  /** A word, a space and the rest: the word is the first group, then come the groups of the rest. */
  lemma WordsSpaceCons(w: string, rest: string)
    requires w != [] && NoSpace(w)
    ensures Words(w + " " + rest) == [w] + Words(rest)
  {
    var spaced := " " + rest;
    assert Words(spaced) == Words(rest) by {
      assert spaced[0] == ' ';
      assert spaced[1..] == rest;
    }
    WordsCons(w, spaced);
    assert w + " " + rest == w + spaced;
  }

  /** Splitting words joined by single spaces gives the words back. */
  lemma {:induction false} WordsOfJoin(ws: seq<string>)
    requires forall i :: 0 <= i < |ws| ==> ws[i] != [] && NoSpace(ws[i])
    ensures Words(Join(ws, " ")) == ws
  {
    if |ws| == 1 {
      var w := ws[0];
      assert Join(ws, " ") == w;
      assert Words([]) == [];
      WordsCons(w, []);
      assert w + [] == w;
      assert [w] == ws;
    } else if |ws| > 1 {
      var tail := ws[1..];
      assert forall i :: 0 <= i < |tail| ==> tail[i] == ws[i + 1];
      WordsOfJoin(tail);
      var w := ws[0];
      assert w != [] && NoSpace(w);
      var rest := Join(tail, " ");
      assert Join(ws, " ") == w + " " + rest;
      WordsSpaceCons(w, rest);
      assert [w] + tail == ws;
    }
  }

  /** The first character of the joined string is that of the first word, its
      last character that of the last word. */
  lemma {:induction false} JoinEnds(ws: seq<string>)
    requires ws != [] && forall i :: 0 <= i < |ws| ==> ws[i] != []
    ensures Join(ws, " ") != []
    ensures Join(ws, " ")[0] == ws[0][0]
    ensures Join(ws, " ")[|Join(ws, " ")| - 1] == ws[|ws| - 1][|ws[|ws| - 1]| - 1]
  {
    if |ws| > 1 {
      var tail := ws[1..];
      assert forall i :: 0 <= i < |tail| ==> tail[i] == ws[i + 1];
      JoinEnds(tail);
      var rest := Join(tail, " ");
      assert Join(ws, " ") == ws[0] + " " + rest;
    }
  }

  /** Words joined by single spaces have no white space at either end. */
  lemma TrimOfJoin(ws: seq<string>)
    requires ws != []
    requires forall i :: 0 <= i < |ws| ==> ws[i] != [] && NoSpace(ws[i])
    ensures Trim(Join(ws, " ")) == Join(ws, " ")
  {
    var line := Join(ws, " ");
    JoinEnds(ws);
    var first, last := ws[0], ws[|ws| - 1];
    assert NoSpace(first) && NoSpace(last);
    assert !IsSpace(line[0]) && !IsSpace(line[|line| - 1]);
    TrimOfTrimmed(line);
  }

  /** `s.trim().split(/\s+/)` gives back the words that were joined by single spaces. */
  lemma SplitWhitespaceOfJoin(ws: seq<string>)
    requires ws != []
    requires forall i :: 0 <= i < |ws| ==> ws[i] != [] && NoSpace(ws[i])
    ensures SplitWhitespace(Join(ws, " ")) == ws
  {
    var line := Join(ws, " ");
    TrimOfJoin(ws);
    WordsOfJoin(ws);
    assert Words(Trim(line)) == ws;
  }

  // ---------------------------------------------------------------------
  // split on one character
  // ---------------------------------------------------------------------

  /** The position of the first `c` in `s`. */
  function IndexOf(s: string, c: char): (i: nat)
    requires c in s
    ensures i < |s| && s[i] == c && c !in s[..i]
  {
    if s[0] == c then 0
    else
      assert c in s[1..] by { var k :| 0 <= k < |s| && s[k] == c; assert s[1..][k - 1] == c; }
      var j := IndexOf(s[1..], c);
      assert s[..j + 1] == [s[0]] + s[1..][..j];
      j + 1
  }

  /** `s.split(sep)` for a one-character separator: the pieces between the separators. */
  function SplitOn(s: string, sep: char): (parts: seq<string>)
    ensures |parts| >= 1
    ensures forall i :: 0 <= i < |parts| ==> sep !in parts[i]
    decreases |s|
  {
    if sep !in s then [s]
    else
      var i := IndexOf(s, sep);
      [s[..i]] + SplitOn(s[i + 1..], sep)
  }

  /** Joining the pieces of a split with the separator gives the string back. */
  lemma {:induction false} JoinSplitOn(s: string, sep: char)
    ensures Join(SplitOn(s, sep), [sep]) == s
    decreases |s|
  {
    if sep in s {
      var i := IndexOf(s, sep);
      var rest := SplitOn(s[i + 1..], sep);
      JoinSplitOn(s[i + 1..], sep);
      assert SplitOn(s, sep)[1..] == rest;
      assert s == s[..i] + [sep] + s[i + 1..];
    }
  }

  // ---------------------------------------------------------------------
  // prefixes, suffixes, substrings
  // ---------------------------------------------------------------------

  predicate StartsWith(s: string, prefix: string) {
    |prefix| <= |s| && s[..|prefix|] == prefix
  }

  /** Whether `s` starts with a short `prefix` depends only on the first
      characters of `s`. */
  lemma StartsWithOfPrefix(s: string, t: string, prefix: string)
    requires |t| <= |s| && s[..|t|] == t && |prefix| <= |t|
    ensures StartsWith(s, prefix) <==> StartsWith(t, prefix)
  {
    assert s[..|prefix|] == t[..|prefix|];
  }

  predicate EndsWith(s: string, suffix: string) {
    |suffix| <= |s| && s[|s| - |suffix|..] == suffix
  }

  /** `s.includes(sub)`. */
  predicate Contains(s: string, sub: string)
    decreases |s|
  {
    StartsWith(s, sub) || (s != [] && Contains(s[1..], sub))
  }

  /** `s.substring(from, to)` for `from <= to`: both ends are clamped to the length of `s`. */
  function Substring(s: string, from: nat, to: nat): (r: string)
    requires from <= to
    ensures |r| <= to - from
    ensures to <= |s| ==> r == s[from..to]
  {
    var a := if from <= |s| then from else |s|;
    var b := if to <= |s| then to else |s|;
    s[a..b]
  }

  // ---------------------------------------------------------------------
  // fixed-width columns
  // ---------------------------------------------------------------------

  function Spaces(n: nat): (r: string)
    ensures |r| == n && forall i :: 0 <= i < n ==> r[i] == ' '
  {
    seq(n, i => ' ')
  }

  /** `f` left-aligned in a column of `width` characters. */
  function PadEnd(f: string, width: nat): (r: string)
    requires |f| <= width
    ensures |r| == width
  {
    f + Spaces(width - |f|)
  }

  lemma {:induction false} TrimEndSpaces(f: string, n: nat)
    ensures TrimEnd(f + Spaces(n)) == TrimEnd(f)
  {
    if n > 0 {
      var s := f + Spaces(n);
      assert s[|s| - 1] == ' ';
      assert s[..|s| - 1] == f + Spaces(n - 1);
      TrimEndSpaces(f, n - 1);
    } else {
      assert f + Spaces(n) == f;
    }
  }

  lemma {:induction false} TrimStartSpaces(n: nat)
    ensures TrimStart(Spaces(n)) == []
  {
    if n > 0 {
      assert Spaces(n)[1..] == Spaces(n - 1);
      TrimStartSpaces(n - 1);
    }
  }

  /** A trimmed field read back from its padded column is the field. */
  lemma TrimPadEnd(f: string, width: nat)
    requires |f| <= width && Trimmed(f)
    ensures Trim(PadEnd(f, width)) == f
  {
    var n := width - |f|;
    var s := f + Spaces(n);
    if f == [] {
      assert s == Spaces(n);
      TrimStartSpaces(n);
    } else {
      assert s[0] == f[0];
      assert TrimStart(s) == s;
      TrimEndSpaces(f, n);
      assert TrimEnd(f) == f;
    }
  }

  // ---------------------------------------------------------------------
  // toUpperCase
  // ---------------------------------------------------------------------

  function UpperChar(c: char): (u: char)
    ensures 'a' <= c <= 'z' ==> u as int == c as int - 32
    ensures !('a' <= c <= 'z') ==> u == c
  {
    if 'a' <= c <= 'z' then (c as int - 32) as char else c
  }

  /** `s.toUpperCase()`, on the ASCII letters. */
  function ToUpper(s: string): (r: string)
    ensures |r| == |s|
    ensures forall i :: 0 <= i < |s| ==> r[i] == UpperChar(s[i])
  {
    seq(|s|, i requires 0 <= i < |s| => UpperChar(s[i]))
  }

  // ---------------------------------------------------------------------
  // digits and parseInt
  // ---------------------------------------------------------------------

  predicate IsDigit(c: char) {
    '0' <= c <= '9'
  }

  predicate AllDigits(s: string) {
    forall i :: 0 <= i < |s| ==> IsDigit(s[i])
  }

  function DigitValue(c: char): (d: nat)
    requires IsDigit(c)
    ensures d <= 9
  {
    c as int - '0' as int
  }

  function DigitChar(d: nat): (c: char)
    requires d <= 9
    ensures IsDigit(c) && DigitValue(c) == d
  {
    ('0' as int + d) as char
  }

  function Pow10(n: nat): (p: nat)
    ensures p >= 1
  {
    if n == 0 then 1 else 10 * Pow10(n - 1)
  }

  /** `v` followed by `k` zero digits, that is `v` times ten to the power `k`,
      built one digit at a time so that every step stays linear. */
  function Shift(v: int, k: nat): int {
    if k == 0 then v else 10 * Shift(v, k - 1)
  }

  lemma {:induction false} ShiftAdd(a: int, b: int, k: nat)
    ensures Shift(a + b, k) == Shift(a, k) + Shift(b, k)
  {
    if k > 0 {
      ShiftAdd(a, b, k - 1);
    }
  }

  lemma {:induction false} ShiftMonotone(a: int, b: int, k: nat)
    requires a <= b
    ensures Shift(a, k) <= Shift(b, k)
  {
    if k > 0 {
      ShiftMonotone(a, b, k - 1);
    }
  }

  lemma {:induction false} ShiftOne(k: nat)
    ensures Shift(1, k) == Pow10(k)
  {
    if k > 0 {
      ShiftOne(k - 1);
    }
  }

  /** Shifting by two, three or four places is multiplying by 100, 1000, 10000. */
  lemma ShiftSmall(v: int)
    ensures Shift(v, 2) == 100 * v
    ensures Shift(v, 3) == 1000 * v
    ensures Shift(v, 4) == 10000 * v
  {
    assert Shift(v, 1) == 10 * v;
    assert Shift(v, 2) == 100 * v;
    assert Shift(v, 3) == 1000 * v;
  }

  /** `parseInt(s, 10)` on a string of decimal digits: each digit is the
      last one of the numeral before it, times ten, plus itself. */
  function DigitsValue(s: string): (v: nat)
    requires AllDigits(s)
    ensures v < Pow10(|s|)
  {
    if s == [] then 0
    else 10 * DigitsValue(s[..|s| - 1]) + DigitValue(s[|s| - 1])
  }

  /** The `width`-digit decimal numeral of `n`, with leading zeros. */
  function PadDigits(n: nat, width: nat): (s: string)
    requires n < Pow10(width)
    ensures |s| == width && AllDigits(s)
  {
    if width == 0 then []
    else PadDigits(n / 10, width - 1) + [DigitChar(n % 10)]
  }

  /** Reading a padded numeral gives the number back. */
  lemma {:induction false} DigitsValueOfPad(n: nat, width: nat)
    requires n < Pow10(width)
    ensures DigitsValue(PadDigits(n, width)) == n
  {
    if width > 0 {
      var s := PadDigits(n, width);
      assert s[..width - 1] == PadDigits(n / 10, width - 1);
      assert s[width - 1] == DigitChar(n % 10);
      DigitsValueOfPad(n / 10, width - 1);
    }
  }

  /** A string of digits is the padded numeral of its own value. */
  lemma {:induction false} DigitsOfValue(s: string)
    requires AllDigits(s)
    ensures PadDigits(DigitsValue(s), |s|) == s
  {
    if s != [] {
      var init := s[..|s| - 1];
      var last := DigitValue(s[|s| - 1]);
      assert DigitsValue(s) == 10 * DigitsValue(init) + last;
      DivModTen(DigitsValue(init), last);
      DigitsOfValue(init);
      assert s == init + [s[|s| - 1]];
    }
  }

  lemma DivModTen(q: nat, r: nat)
    requires r < 10
    ensures (10 * q + r) / 10 == q && (10 * q + r) % 10 == r
  {
  }

  /** The value of two numerals written one after the other. */
  lemma {:induction false} DigitsValueConcat(x: string, y: string)
    requires AllDigits(x) && AllDigits(y)
    ensures AllDigits(x + y)
    ensures DigitsValue(x + y) == Shift(DigitsValue(x), |y|) + DigitsValue(y)
  {
    if y == [] {
      assert x + y == x;
    } else {
      var xy := x + y;
      var init := y[..|y| - 1];
      assert xy[..|xy| - 1] == x + init;
      assert xy[|xy| - 1] == y[|y| - 1];
      DigitsValueConcat(x, init);
    }
  }

  // ---------------------------------------------------------------------
  // relational comparison of strings
  // ---------------------------------------------------------------------

  /** `a < b` on two strings: lexicographic order of the characters. */
  predicate LexLess(a: string, b: string) {
    if b == [] then false
    else if a == [] then true
    else if a[0] != b[0] then a[0] < b[0]
    else LexLess(a[1..], b[1..])
  }

  /** For numerals of one length, the string order is the numeric order
      (what makes `endDate >= today` on `YYYYMMDD` strings a date comparison). */
  lemma {:induction false} LexLessDigits(a: string, b: string)
    requires |a| == |b| && AllDigits(a) && AllDigits(b)
    ensures LexLess(a, b) <==> DigitsValue(a) < DigitsValue(b)
  {
    if a != [] {
      var n := |a| - 1;
      var da, db := DigitValue(a[0]), DigitValue(b[0]);
      LeadingDigit(a);
      LeadingDigit(b);
      var ra, rb := DigitsValue(a[1..]), DigitsValue(b[1..]);
      assert ra < Pow10(n) && rb < Pow10(n);
      if a[0] == b[0] {
        assert LexLess(a, b) == LexLess(a[1..], b[1..]);
        LexLessDigits(a[1..], b[1..]);
      } else if a[0] < b[0] {
        ShiftGap(da, db, n, ra, rb);
      } else {
        ShiftGap(db, da, n, rb, ra);
      }
    }
  }

  /** A smaller leading digit outweighs any remaining digits. */
  lemma ShiftGap(da: int, db: int, n: nat, ra: int, rb: nat)
    requires da < db && ra < Pow10(n)
    ensures Shift(da, n) + ra < Shift(db, n) + rb
  {
    ShiftAdd(da, 1, n);
    ShiftOne(n);
    ShiftMonotone(da + 1, db, n);
  }

  /** A numeral's value split at its first digit. */
  lemma LeadingDigit(s: string)
    requires AllDigits(s) && s != []
    ensures DigitsValue(s) == Shift(DigitValue(s[0]), |s| - 1) + DigitsValue(s[1..])
  {
    var head, tail := [s[0]], s[1..];
    assert head[..0] == [];
    assert DigitsValue(head) == DigitValue(s[0]);
    DigitsValueConcat(head, tail);
    assert head + tail == s;
  }

  // ---------------------------------------------------------------------
  // parseFloat
  // ---------------------------------------------------------------------

  /** The longest prefix of `s` made of decimal digits. */
  function TakeDigits(s: string): (d: string)
    ensures |d| <= |s| && d == s[..|d|] && AllDigits(d)
    ensures |d| == |s| || !IsDigit(s[|d|])
  {
    if s == [] || !IsDigit(s[0]) then [] else [s[0]] + TakeDigits(s[1..])
  }

  /** An exact decimal number: `units` divided by ten to the power `scale`. */
  datatype Decimal = Decimal(units: int, scale: nat) {
    function ToReal(): real {
      units as real / Pow10(scale) as real
    }

    predicate IsZero() {
      units == 0
    }

    lemma ZeroIffRealZero()
      ensures IsZero() <==> ToReal() == 0.0
    {
    }
  }

  /** The unsigned part of a decimal literal: `digits [. digits]`, at least one
      digit in all, read as far as it goes. */
  function ParseUnsignedDecimal(body: string): Option<Decimal> {
    var whole := TakeDigits(body);
    var after := body[|whole|..];
    var frac := if after != [] && after[0] == '.' then TakeDigits(after[1..]) else [];
    if whole == [] && frac == [] then None
    else Some(Decimal(DigitsValue(whole + frac), |frac|))
  }

  /** `parseFloat(s)` for an already trimmed `s`: the longest prefix of the
      form `[+-] digits [. digits]` (at least one digit), or NaN (`None`) when
      there is none; what follows the prefix is ignored. */
  function ParseFloat(s: string): Option<Decimal> {
    if s != [] && s[0] == '-' then
      match ParseUnsignedDecimal(s[1..])
      case Some(d) => Some(Decimal(-d.units, d.scale))
      case None => None
    else if s != [] && s[0] == '+' then ParseUnsignedDecimal(s[1..])
    else ParseUnsignedDecimal(s)
  }

  lemma TakeDigitsOfPrefix(d: string, rest: string)
    requires AllDigits(d)
    requires rest == [] || !IsDigit(rest[0])
    ensures TakeDigits(d + rest) == d
  {
    if d != [] {
      assert (d + rest)[1..] == d[1..] + rest;
      TakeDigitsOfPrefix(d[1..], rest);
    }
  }

  function Abs(m: int): nat {
    if m < 0 then -m else m
  }

  /** `a` without its last `k` decimal digits. */
  function DropDigits(a: nat, k: nat): nat {
    if k == 0 then a else DropDigits(a / 10, k - 1)
  }

  /** The number written by the last `k` decimal digits of `a`. */
  function LowDigits(a: nat, k: nat): nat {
    if k == 0 then 0 else 10 * LowDigits(a / 10, k - 1) + a % 10
  }

  /** Cutting a number after its last `k` digits: the two parts give it back,
      the low part has at most `k` digits, and the high part at most `w` when
      the number has at most `w + k`. */
  lemma {:induction false} DropLowDigits(a: nat, k: nat, w: nat)
    ensures a == Shift(DropDigits(a, k), k) + LowDigits(a, k)
    ensures LowDigits(a, k) < Pow10(k)
    ensures a < Pow10(w + k) ==> DropDigits(a, k) < Pow10(w)
  {
    if k > 0 {
      DropLowDigits(a / 10, k - 1, w);
    }
  }

  /** A fixed-point number as the station history writes it, as in `+071.583`
      or `-0012.5`: an explicit sign, `wholeWidth` whole digits, a point and
      `fracWidth` fraction digits, for `m` divided by ten to the power `fracWidth`. */
  function FormatFixed(m: int, wholeWidth: nat, fracWidth: nat): (s: string)
    requires Abs(m) < Pow10(wholeWidth + fracWidth)
    ensures |s| == 2 + wholeWidth + fracWidth
  {
    [if m < 0 then '-' else '+'] + FormatUnsignedFixed(Abs(m), wholeWidth, fracWidth)
  }

  /** A formatted number has a sign in front and a digit or the point at the
      end, so `trim` leaves it alone. */
  lemma FormatFixedTrimmed(m: int, wholeWidth: nat, fracWidth: nat)
    requires Abs(m) < Pow10(wholeWidth + fracWidth)
    ensures Trimmed(FormatFixed(m, wholeWidth, fracWidth))
  {
    var s := FormatFixed(m, wholeWidth, fracWidth);
    DropLowDigits(Abs(m), fracWidth, wholeWidth);
    var frac := PadDigits(LowDigits(Abs(m), fracWidth), fracWidth);
    assert s[|s| - 1] == if fracWidth == 0 then '.' else frac[fracWidth - 1];
  }

  function FormatUnsignedFixed(a: nat, wholeWidth: nat, fracWidth: nat): (s: string)
    requires a < Pow10(wholeWidth + fracWidth)
    ensures |s| == 1 + wholeWidth + fracWidth
  {
    DropLowDigits(a, fracWidth, wholeWidth);
    PadDigits(DropDigits(a, fracWidth), wholeWidth) + "." + PadDigits(LowDigits(a, fracWidth), fracWidth)
  }

  lemma ParseUnsignedOfDigits(whole: string, frac: string)
    requires AllDigits(whole) && AllDigits(frac) && whole != []
    ensures ParseUnsignedDecimal(whole + "." + frac) == Some(Decimal(DigitsValue(whole + frac), |frac|))
  {
    var dotFrac := "." + frac;
    var body := whole + dotFrac;
    assert whole + "." + frac == body;
    assert dotFrac[0] == '.';
    TakeDigitsOfPrefix(whole, dotFrac);
    assert TakeDigits(body) == whole;
    assert body[|whole|..] == dotFrac;
    assert dotFrac[1..] == frac;
    TakeDigitsOfPrefix(frac, []);
    assert frac + [] == frac;
    assert TakeDigits(frac) == frac;
  }

  lemma ParseUnsignedOfPadded(a: nat, wholeWidth: nat, fracWidth: nat)
    requires wholeWidth >= 1 && a < Pow10(wholeWidth + fracWidth)
    ensures ParseUnsignedDecimal(FormatUnsignedFixed(a, wholeWidth, fracWidth)) == Some(Decimal(a, fracWidth))
  {
    DropLowDigits(a, fracWidth, wholeWidth);
    var whole := PadDigits(DropDigits(a, fracWidth), wholeWidth);
    var frac := PadDigits(LowDigits(a, fracWidth), fracWidth);
    ParseUnsignedOfDigits(whole, frac);
    assert DigitsValue(whole + frac) == a by {
      DigitsValueConcat(whole, frac);
      DigitsValueOfPad(DropDigits(a, fracWidth), wholeWidth);
      DigitsValueOfPad(LowDigits(a, fracWidth), fracWidth);
    }
  }

  lemma ParseFloatSigned(sign: char, body: string)
    requires sign == '-' || sign == '+'
    ensures ParseFloat([sign] + body) ==
      match ParseUnsignedDecimal(body)
      case Some(d) => Some(if sign == '-' then Decimal(-d.units, d.scale) else d)
      case None => None
  {
    assert ([sign] + body)[1..] == body;
  }

  /** `parseFloat` reads a fixed-point number back exactly. */
  lemma ParseFormatFixed(m: int, wholeWidth: nat, fracWidth: nat)
    requires wholeWidth >= 1 && Abs(m) < Pow10(wholeWidth + fracWidth)
    ensures ParseFloat(FormatFixed(m, wholeWidth, fracWidth)) == Some(Decimal(m, fracWidth))
  {
    ParseUnsignedOfPadded(Abs(m), wholeWidth, fracWidth);
    ParseFloatSigned(if m < 0 then '-' else '+', FormatUnsignedFixed(Abs(m), wholeWidth, fracWidth));
  }
}
