/**
 * The string primitives the loaders rely on, written out with the meaning
 * Python gives them: str.strip(), str.strip("\n"), str.lower(), str.split("|"),
 * int(text), float(text) and the ordering of str values.
 */
module Text {
  import opened Results

  // ---------------------------------------------------------------------------
  // Whitespace and stripping
  // ---------------------------------------------------------------------------

  /** The characters Python's str.isspace() accepts (and str.strip() removes). */
  predicate IsSpace(c: char) {
    var n := c as int;
    n == 0x20 || 0x09 <= n <= 0x0D || 0x1C <= n <= 0x1F || n == 0x85 || n == 0xA0
    || n == 0x1680 || 0x2000 <= n <= 0x200A || n == 0x2028 || n == 0x2029
    || n == 0x202F || n == 0x205F || n == 0x3000
  }

  predicate IsNewline(c: char) { c == '\n' }

  /** Drops the leading characters satisfying `drop`. */
  function StripStart(s: string, drop: char -> bool): (r: string)
    ensures |r| <= |s| && r == s[|s| - |r|..]
    ensures r == [] || !drop(r[0])
    ensures forall i :: 0 <= i < |s| - |r| ==> drop(s[i])
  {
    if s != [] && drop(s[0]) then StripStart(s[1..], drop) else s
  }

  /** Drops the trailing characters satisfying `drop`. */
  function StripEnd(s: string, drop: char -> bool): (r: string)
    ensures |r| <= |s| && r == s[..|r|]
    ensures r == [] || !drop(r[|r| - 1])
    ensures forall i :: |r| <= i < |s| ==> drop(s[i])
  {
    if s != [] && drop(s[|s| - 1]) then StripEnd(s[..|s| - 1], drop) else s
  }

  /** Python's s.strip(). */
  function Strip(s: string): string {
    StripEnd(StripStart(s, IsSpace), IsSpace)
  }

  /** Python's s.strip("\n"). */
  function StripNewlines(s: string): string {
    StripEnd(StripStart(s, IsNewline), IsNewline)
  }

  /** Python's s.rstrip("\n"). */
  function RStripNewlines(s: string): string {
    StripEnd(s, IsNewline)
  }

  predicate NoSpace(s: string) {
    forall i :: 0 <= i < |s| ==> !IsSpace(s[i])
  }

  /** Stripping leaves a text that neither starts nor ends with whitespace. */
  lemma StripShape(s: string)
    ensures var r := Strip(s);
      r == [] || (!IsSpace(r[0]) && !IsSpace(r[|r| - 1]))
  {
    StripBothEnds(s, IsSpace);
  }

  /** Stripping both ends by `drop` leaves no dropped character at either end. */
  lemma StripBothEnds(s: string, drop: char -> bool)
    ensures var r := StripEnd(StripStart(s, drop), drop);
      r == [] || (!drop(r[0]) && !drop(r[|r| - 1]))
  {
    var t := StripStart(s, drop);
    var r := StripEnd(t, drop);
    assert r == t[..|r|];
    if r != [] {
      assert r[0] == t[0];
    }
  }

  /** A text with no whitespace at either end is its own strip. */
  lemma StripUnpadded(s: string)
    requires s == [] || (!IsSpace(s[0]) && !IsSpace(s[|s| - 1]))
    ensures Strip(s) == s
  {
    if s != [] {
      assert StripStart(s, IsSpace) == s;
      assert StripEnd(s, IsSpace) == s;
    }
  }

  /** s.strip() is empty exactly when s is blank (only whitespace). */
  lemma StripEmptyIffBlank(s: string)
    ensures Strip(s) == [] <==> forall i :: 0 <= i < |s| ==> IsSpace(s[i])
  {
    var t := StripStart(s, IsSpace);
    if Strip(s) == [] {
      forall i | 0 <= i < |s| ensures IsSpace(s[i]) {
        if i >= |s| - |t| {
          assert s[i] == t[i - (|s| - |t|)];
        }
      }
    } else {
      var r := Strip(s);
      assert r == t[..|r|];
      assert t == s[|s| - |t|..];
      assert r[0] == s[|s| - |t|];
    }
  }

  /** A text without whitespace is left alone by strip(). */
  lemma StripNoSpace(s: string)
    requires NoSpace(s)
    ensures Strip(s) == s
  {
    assert StripStart(s, IsSpace) == s by {
      if s != [] { assert !IsSpace(s[0]); }
    }
    if s != [] { assert !IsSpace(s[|s| - 1]); }
  }

  /** A text that neither starts nor ends with whitespace is left alone by strip(). */
  lemma StripTrimmed(s: string)
    requires s != [] && !IsSpace(s[0]) && !IsSpace(s[|s| - 1])
    ensures Strip(s) == s
  {
    assert StripStart(s, IsSpace) == s;
    assert StripEnd(s, IsSpace) == s;
  }

  /** strip() is idempotent: a stripped text is already in stripped form. */
  lemma StripIdempotent(s: string)
    ensures Strip(Strip(s)) == Strip(s)
  {
    var r := Strip(s);
    StripShape(s);
    if r != [] {
      assert StripStart(r, IsSpace) == r;
      assert StripEnd(r, IsSpace) == r;
    }
  }

  // ---------------------------------------------------------------------------
  // Lower-casing
  // ---------------------------------------------------------------------------

  /** Python's str.lower() on one character, for the Basic Latin and Latin-1 letters. */
  function LowerChar(c: char): char {
    var n := c as int;
    if 0x41 <= n <= 0x5A || (0xC0 <= n <= 0xDE && n != 0xD7) then (n + 32) as char else c
  }

  /** Python's s.lower(): lower-cases character by character and keeps the length. */
  function Lower(s: string): (r: string)
    ensures |r| == |s|
    ensures forall i :: 0 <= i < |s| ==> r[i] == LowerChar(s[i])
  {
    seq(|s|, i requires 0 <= i < |s| => LowerChar(s[i]))
  }

  /** Lower-casing never turns whitespace into non-whitespace or back. */
  lemma LowerCharSpace(c: char)
    ensures IsSpace(LowerChar(c)) == IsSpace(c)
  {
  }

  lemma LowerCharIdempotent(c: char)
    ensures LowerChar(LowerChar(c)) == LowerChar(c)
  {
  }

  /** Lower-casing twice is lower-casing once. */
  lemma LowerIdempotent(s: string)
    ensures Lower(Lower(s)) == Lower(s)
  {
    forall i | 0 <= i < |s| ensures Lower(Lower(s))[i] == Lower(s)[i] {
      LowerCharIdempotent(s[i]);
    }
  }

  // ---------------------------------------------------------------------------
  // Splitting on a delimiter
  // ---------------------------------------------------------------------------

  /** Number of occurrences of d in s. */
  function Occurrences(s: string, d: char): nat {
    if s == [] then 0 else (if s[0] == d then 1 else 0) + Occurrences(s[1..], d)
  }

  /** Python's s.split(d) for a one-character separator: n separators give n + 1 parts. */
  function Split(s: string, d: char): (parts: seq<string>)
    ensures |parts| == Occurrences(s, d) + 1
    ensures forall i :: 0 <= i < |parts| ==> d !in parts[i]
  {
    if s == [] then [[]]
    else if s[0] == d then [[]] + Split(s[1..], d)
    else
      var rest := Split(s[1..], d);
      [[s[0]] + rest[0]] + rest[1..]
  }

  /** Python's d.join(parts). */
  function Join(parts: seq<string>, d: char): string
    requires |parts| > 0
  {
    if |parts| == 1 then parts[0] else parts[0] + [d] + Join(parts[1..], d)
  }

  /** Splitting and joining back gives the original text. */
  lemma {:induction false} JoinSplit(s: string, d: char)
    ensures Join(Split(s, d), d) == s
  {
    if s == [] {
    } else if s[0] == d {
      JoinSplit(s[1..], d);
      assert [s[0]] + s[1..] == s;
    } else {
      var rest := Split(s[1..], d);
      JoinSplit(s[1..], d);
      if |rest| == 1 {
        assert Split(s, d) == [[s[0]] + rest[0]];
      } else {
        assert Join(rest, d) == rest[0] + [d] + Join(rest[1..], d);
        assert Split(s, d)[1..] == rest[1..];
      }
    }
  }

  /** Joining parts that do not contain the separator and splitting again gives the parts back. */
  lemma {:induction false} SplitJoin(parts: seq<string>, d: char)
    requires |parts| > 0
    requires forall i :: 0 <= i < |parts| ==> d !in parts[i]
    ensures Split(Join(parts, d), d) == parts
  {
    if |parts| == 1 {
      SplitNoSeparator(parts[0], d);
    } else {
      SplitJoin(parts[1..], d);
      SplitAfterPrefix(parts[0], d, Join(parts[1..], d));
      assert [parts[0]] + parts[1..] == parts;
    }
  }

  lemma {:induction false} SplitNoSeparator(s: string, d: char)
    requires d !in s
    ensures Split(s, d) == [s]
  {
    if s != [] {
      SplitNoSeparator(s[1..], d);
      assert [s[0]] + s[1..] == s;
    }
  }

  lemma {:induction false} SplitAfterPrefix(a: string, d: char, rest: string)
    requires d !in a
    ensures Split(a + [d] + rest, d) == [a] + Split(rest, d)
  {
    var s := a + [d] + rest;
    if a == [] {
      assert s[1..] == rest;
    } else {
      assert s[1..] == a[1..] + [d] + rest;
      SplitAfterPrefix(a[1..], d, rest);
      assert [a[0]] + a[1..] == a;
    }
  }

  // ---------------------------------------------------------------------------
  // Decimal digits, int() and float()
  // ---------------------------------------------------------------------------

  predicate IsDigit(c: char) { '0' <= c <= '9' }

  predicate AllDigits(s: string) {
    forall i :: 0 <= i < |s| ==> IsDigit(s[i])
  }

  function DigitValue(c: char): nat
    requires IsDigit(c)
  {
    c as int - '0' as int
  }

  function DigitChar(n: nat): (c: char)
    requires n < 10
    ensures IsDigit(c) && DigitValue(c) == n
  {
    (n + '0' as int) as char
  }

  /** The value of a run of decimal digits, most significant first. */
  function DigitsValue(s: string): nat
    requires AllDigits(s)
  {
    if s == [] then 0 else DigitsValue(s[..|s| - 1]) * 10 + DigitValue(s[|s| - 1])
  }

  /** Python's str(n) for a natural number. */
  function ShowNat(n: nat): (s: string)
    ensures |s| > 0 && AllDigits(s)
  {
    if n < 10 then [DigitChar(n)] else ShowNat(n / 10) + [DigitChar(n % 10)]
  }

  /** Python's str(n) for an integer. */
  function ShowInt(n: int): string {
    if n < 0 then "-" + ShowNat(-n) else ShowNat(n)
  }

  /** Reading back the digits str(n) writes gives n. */
  lemma {:induction false} DigitsValueShowNat(n: nat)
    ensures DigitsValue(ShowNat(n)) == n
  {
    if n >= 10 {
      DigitsValueShowNat(n / 10);
      var s := ShowNat(n);
      assert s[..|s| - 1] == ShowNat(n / 10);
    }
  }

  /** Python's int(text) in base 10: optional surrounding whitespace, optional sign, ASCII digits. */
  function ParseInt(s: string): Option<int> {
    var t := Strip(s);
    if |t| > 0 && (t[0] == '+' || t[0] == '-') then
      if |t| > 1 && AllDigits(t[1..]) then
        var v: int := DigitsValue(t[1..]);
        Some(if t[0] == '-' then -v else v)
      else None
    else if |t| > 0 && AllDigits(t) then Some(DigitsValue(t))
    else None
  }

  lemma ShowIntNoSpace(n: int)
    ensures NoSpace(ShowInt(n))
  {
    var s := ShowInt(n);
    forall i | 0 <= i < |s| ensures !IsSpace(s[i]) {
      if n < 0 && i > 0 {
        assert s[i] == ShowNat(-n)[i - 1];
        assert IsDigit(s[i]);
      }
    }
  }

  /** int(str(n)) == n. */
  lemma ParseIntShowInt(n: int)
    ensures ParseInt(ShowInt(n)) == Some(n)
  {
    var s := ShowInt(n);
    ShowIntNoSpace(n);
    StripNoSpace(s);
    if n < 0 {
      assert s[0] == '-' && s[1..] == ShowNat(-n);
      DigitsValueShowNat(-n);
    } else {
      assert IsDigit(s[0]);
      DigitsValueShowNat(n);
    }
  }

  /** A parsed float: a finite value, or one of Python's inf / nan spellings. */
  datatype Float = Finite(value: real) | NonFinite

  /** Index of the first character satisfying `p`, or |s| when there is none. */
  function IndexWhere(s: string, p: char -> bool): (k: nat)
    ensures k <= |s|
    ensures forall i :: 0 <= i < k ==> !p(s[i])
    ensures k < |s| ==> p(s[k])
  {
    if s == [] then 0 else if p(s[0]) then 0 else 1 + IndexWhere(s[1..], p)
  }

  lemma {:induction false} IndexWhereNone(s: string, p: char -> bool)
    requires forall i :: 0 <= i < |s| ==> !p(s[i])
    ensures IndexWhere(s, p) == |s|
  {
    if s != [] { IndexWhereNone(s[1..], p); }
  }

  /** x * 10^n, one factor of ten at a time. */
  function TimesPow10(x: real, n: nat): real {
    if n == 0 then x else 10.0 * TimesPow10(x, n - 1)
  }

  /** x / 10^n, one factor of ten at a time. */
  function DivPow10(x: real, n: nat): real {
    if n == 0 then x else DivPow10(x, n - 1) / 10.0
  }

  /** x * 10^e for an integer exponent e. */
  function Scale(x: real, e: int): real {
    if e >= 0 then TimesPow10(x, e) else DivPow10(x, -e)
  }

  predicate IsExponentMark(c: char) { c == 'e' || c == 'E' }

  predicate IsDot(c: char) { c == '.' }

  /** digits [ "." digits ], with at least one digit in all. */
  function ParseMantissa(m: string): Option<real> {
    var k := IndexWhere(m, IsDot);
    var whole := m[..k];
    var frac := if k < |m| then m[k + 1..] else [];
    if AllDigits(whole) && AllDigits(frac) && |whole| + |frac| > 0 then
      Some(DivPow10(DigitsValue(whole + frac) as real, |frac|))
    else None
  }

  /** [ "+" | "-" ] digits */
  function ParseExponent(e: string): Option<int> {
    if |e| > 0 && (e[0] == '+' || e[0] == '-') then
      if |e| > 1 && AllDigits(e[1..]) then
        var v: int := DigitsValue(e[1..]);
        Some(if e[0] == '-' then -v else v)
      else None
    else if |e| > 0 && AllDigits(e) then Some(DigitsValue(e))
    else None
  }

  /** An unsigned decimal literal: mantissa, then optionally "e" or "E" and an exponent. */
  function ParseUnsignedDecimal(s: string): Option<real> {
    var k := IndexWhere(s, IsExponentMark);
    match ParseMantissa(s[..k])
    case None => None
    case Some(m) =>
      if k == |s| then Some(m)
      else match ParseExponent(s[k + 1..])
        case None => None
        case Some(e) => Some(Scale(m, e))
  }

  /** The lower-cased spellings of infinity and not-a-number that float() accepts. */
  predicate IsInfOrNan(word: string) {
    word == "inf" || word == "infinity" || word == "nan"
  }

  /** An unsigned float text: one of the inf / nan spellings in any letter case, or a decimal literal. */
  function ParseUnsignedFloat(body: string): Option<Float> {
    if IsInfOrNan(Lower(body)) then Some(NonFinite)
    else match ParseUnsignedDecimal(body)
      case None => None
      case Some(v) => Some(Finite(v))
  }

  /** A leading minus sign: negates a finite value, leaves inf / nan and a failure as they are. */
  function Negated(f: Option<Float>): Option<Float> {
    if f.Some? && f.value.Finite? then Some(Finite(-f.value.value)) else f
  }

  /**
   * Python's float(text): optional surrounding whitespace, optional sign, then a
   * decimal literal or one of "inf", "infinity", "nan" in any letter case.
   */
  function ParseFloat(s: string): Option<Float> {
    var t := Strip(s);
    var signed := |t| > 0 && (t[0] == '+' || t[0] == '-');
    var f := ParseUnsignedFloat(if signed then t[1..] else t);
    if signed && t[0] == '-' then Negated(f) else f
  }

  /** A run of digits is no spelling of inf or nan: its lower-cased first character is a digit. */
  lemma DigitsNotSpecial(body: string)
    requires |body| > 0 && AllDigits(body)
    ensures !IsInfOrNan(Lower(body))
  {
    assert Lower(body)[0] == LowerChar(body[0]) == body[0];
  }

  /** A run of digits is a decimal literal with no dot and no exponent, of the digits' value. */
  lemma DigitsUnsignedDecimal(body: string)
    requires |body| > 0 && AllDigits(body)
    ensures ParseUnsignedDecimal(body) == Some(DigitsValue(body) as real)
  {
    IndexWhereNone(body, IsExponentMark);
    assert body[..|body|] == body;
    DigitsMantissa(body);
  }

  /** A run of digits is a mantissa with no dot, of the digits' value. */
  lemma DigitsMantissa(body: string)
    requires |body| > 0 && AllDigits(body)
    ensures ParseMantissa(body) == Some(DigitsValue(body) as real)
  {
    IndexWhereNone(body, IsDot);
    assert body[..|body|] == body;
    assert body + [] == body;
  }

  /** An unsigned run of digits is a finite float of the digits' value. */
  lemma DigitsUnsignedFloat(body: string)
    requires |body| > 0 && AllDigits(body)
    ensures ParseUnsignedFloat(body) == Some(Finite(DigitsValue(body) as real))
  {
    DigitsNotSpecial(body);
    DigitsUnsignedDecimal(body);
  }

  /** Any text int() accepts, float() accepts too, with the same value. */
  lemma IntTextIsFloatText(s: string, n: int)
    requires ParseInt(s) == Some(n)
    ensures ParseFloat(s) == Some(Finite(n as real))
  {
    var t := Strip(s);
    if |t| > 0 && t[0] == '-' {
      NegativeIntText(s, t, n);
    } else if |t| > 0 && t[0] == '+' {
      DigitsUnsignedFloat(t[1..]);
    } else {
      DigitsUnsignedFloat(t);
    }
  }

  /** After a minus sign, the digits are a float of their value, negated. */
  lemma NegativeIntText(s: string, t: string, n: int)
    requires t == Strip(s) && |t| > 0 && t[0] == '-'
    requires ParseInt(s) == Some(n)
    ensures ParseFloat(s) == Some(Finite(n as real))
  {
    var body := t[1..];
    DigitsUnsignedFloat(body);
    assert n == -(DigitsValue(body) as int);
  }

  // ---------------------------------------------------------------------------
  // Ordering of texts
  // ---------------------------------------------------------------------------

  /** Python's a < b on str: code point by code point, a proper prefix comes first. */
  predicate StrLt(a: string, b: string) {
    if a == [] then b != []
    else if b == [] then false
    else if a[0] != b[0] then a[0] < b[0]
    else StrLt(a[1..], b[1..])
  }

  lemma {:induction false} StrLtIrreflexive(a: string)
    ensures !StrLt(a, a)
  {
    if a != [] { StrLtIrreflexive(a[1..]); }
  }

  lemma {:induction false} StrLtTransitive(a: string, b: string, c: string)
    requires StrLt(a, b) && StrLt(b, c)
    ensures StrLt(a, c)
  {
    if a != [] && b != [] && c != [] && a[0] == b[0] && b[0] == c[0] {
      StrLtTransitive(a[1..], b[1..], c[1..]);
    }
  }

  /** Two different texts are always ordered one way or the other. */
  lemma {:induction false} StrLtTotal(a: string, b: string)
    requires a != b
    ensures StrLt(a, b) || StrLt(b, a)
  {
    if a != [] && b != [] && a[0] == b[0] {
      assert a == [a[0]] + a[1..] && b == [b[0]] + b[1..];
      StrLtTotal(a[1..], b[1..]);
    }
  }
}
