/** The pieces of Python's `str` behaviour that the scripts rely on: whitespace,
    `strip`, `lower`, `splitlines` breaks, `int()` on text, and the decimal text that
    pandas' `to_numeric` accepts. Strings are sequences of Unicode scalar values. */
module Text {
  import opened Wrappers

  /** Python's `str.isspace` on one character: the ASCII controls TAB..CR, the
      information separators U+001C..U+001F, space, NEL, NO-BREAK SPACE and the
      Unicode space separators and line/paragraph separators. */
  predicate IsSpace(c: char) {
    var n := c as int;
    || n == 0x20 || 0x09 <= n <= 0x0D || 0x1C <= n <= 0x1F || n == 0x85 || n == 0xA0
    || n == 0x1680 || 0x2000 <= n <= 0x200A || n == 0x2028 || n == 0x2029
    || n == 0x202F || n == 0x205F || n == 0x3000
  }

  /** The characters at which `str.splitlines` ends a line. */
  predicate IsLineBreak(c: char) {
    var n := c as int;
    0x0A <= n <= 0x0D || 0x1C <= n <= 0x1E || n == 0x85 || n == 0x2028 || n == 0x2029
  }

  predicate AllSpace(s: string) {
    forall i :: 0 <= i < |s| ==> IsSpace(s[i])
  }

  /** How many whitespace characters `s` starts with. */
  function LeadingSpace(s: string): (n: nat)
    ensures n <= |s|
    ensures forall k :: 0 <= k < n ==> IsSpace(s[k])
    ensures n == |s| || !IsSpace(s[n])
  {
    if |s| > 0 && IsSpace(s[0]) then 1 + LeadingSpace(s[1..]) else 0
  }

  /** Where the whitespace that `s` ends with begins. */
  function TrailingSpace(s: string): (n: nat)
    ensures n <= |s|
    ensures forall k :: n <= k < |s| ==> IsSpace(s[k])
    ensures n == 0 || !IsSpace(s[n - 1])
  {
    if |s| > 0 && IsSpace(s[|s| - 1]) then TrailingSpace(s[..|s| - 1]) else |s|
  }

  /** `s` with its leading whitespace removed. */
  function TrimStart(s: string): string {
    s[LeadingSpace(s)..]
  }

  /** `s` with its trailing whitespace removed. */
  function TrimEnd(s: string): string {
    s[..TrailingSpace(s)]
  }

  /** Python's `str.strip()`: the infix of `s` left once whitespace has been cut
      from both ends; it neither starts nor ends with whitespace, and it is empty
      exactly when `s` is all whitespace. */
  function Strip(s: string): (r: string)
    ensures r == [] || (!IsSpace(r[0]) && !IsSpace(r[|r| - 1]))
    ensures r == [] <==> AllSpace(s)
    ensures var i := LeadingSpace(s);
            && i + |r| <= |s| && r == s[i..i + |r|]
            && AllSpace(s[..i]) && AllSpace(s[i + |r|..])
  {
    var i := LeadingSpace(s);
    var t := TrimStart(s);
    var j := TrailingSpace(t);
    StripFacts(s, i, j);
    TrimEnd(t)
  }

  lemma StripFacts(s: string, i: nat, j: nat)
    requires i <= |s| && (forall k :: 0 <= k < i ==> IsSpace(s[k])) && (i == |s| || !IsSpace(s[i]))
    requires j <= |s| - i
    requires forall k :: j <= k < |s[i..]| ==> IsSpace(s[i..][k])
    requires j == 0 || !IsSpace(s[i..][j - 1])
    ensures var r := s[i..][..j];
            && r == s[i..i + j] && AllSpace(s[..i]) && AllSpace(s[i + j..])
            && (r == [] || (!IsSpace(r[0]) && !IsSpace(r[|r| - 1])))
            && (r == [] <==> AllSpace(s))
  {
    var r := s[i..][..j];
    assert r == s[i..i + j];
    assert forall k :: i + j <= k < |s| ==> s[k] == s[i..][k - i];
    if j == 0 {
      assert s[..i] == s;
    } else {
      assert r[0] == s[i] && r[|r| - 1] == s[i..][j - 1];
    }
  }

  /** Text that neither starts nor ends with whitespace is its own strip. */
  lemma StripKeeps(s: string)
    requires s == [] || (!IsSpace(s[0]) && !IsSpace(s[|s| - 1]))
    ensures Strip(s) == s
  {
  }

  /** Leading whitespace never changes the strip. */
  lemma StripSkipsSpace(c: char, s: string)
    requires IsSpace(c)
    ensures Strip([c] + s) == Strip(s)
  {
    var cs := [c] + s;
    assert cs[1..] == s;
    assert LeadingSpace(cs) == 1 + LeadingSpace(s);
    assert cs[LeadingSpace(cs)..] == s[LeadingSpace(s)..];
  }

  /** Python's `str.lower` on one ASCII letter; every other character is kept. */
  function LowerChar(c: char): (r: char)
    ensures 'A' <= c <= 'Z' ==> 'a' <= r <= 'z'
    ensures !('A' <= c <= 'Z') ==> r == c
  {
    if 'A' <= c <= 'Z' then (c as int + 32) as char else c
  }

  /** `str.lower` restricted to ASCII letters. */
  function Lower(s: string): (r: string)
    ensures |r| == |s|
    ensures forall i :: 0 <= i < |s| ==> r[i] == LowerChar(s[i])
  {
    seq(|s|, i requires 0 <= i < |s| => LowerChar(s[i]))
  }

  /** The position of the first `c` in `s`, as `str.find` reports it. */
  function FirstIndexOf(s: string, c: char): (r: Option<nat>)
    ensures r.None? <==> c !in s
    ensures r.Some? ==> r.value < |s| && s[r.value] == c && c !in s[..r.value]
  {
    if |s| == 0 then None
    else if s[0] == c then Some(0)
    else match FirstIndexOf(s[1..], c)
      case None => None
      case Some(i) =>
        assert s[1..][..i] == s[1..i + 1];
        Some(i + 1)
  }

  predicate IsDigit(c: char) {
    '0' <= c <= '9'
  }

  function DigitValue(c: char): (d: nat)
    requires IsDigit(c)
    ensures d < 10
  {
    (c as int) - ('0' as int)
  }

  function DigitChar(d: nat): (c: char)
    requires d < 10
    ensures IsDigit(c) && DigitValue(c) == d
  {
    ('0' as int + d) as char
  }

  predicate AllDigits(s: string) {
    forall i :: 0 <= i < |s| ==> IsDigit(s[i])
  }

  predicate DigitsOrUnderscores(s: string) {
    forall i :: 0 <= i < |s| ==> IsDigit(s[i]) || s[i] == '_'
  }

  /** Python's grammar for the digits of a base-10 integer: a digit, then digits
      each optionally preceded by a single underscore. */
  predicate IsDigitGroup(s: string) {
    && |s| > 0 && IsDigit(s[0]) && IsDigit(s[|s| - 1]) && DigitsOrUnderscores(s)
    && NoDoubleUnderscore(s)
  }

  predicate NoDoubleUnderscore(s: string) {
    |s| < 2 || (!(s[0] == '_' && s[1] == '_') && NoDoubleUnderscore(s[1..]))
  }

  lemma {:induction false} DigitsHaveNoUnderscorePair(s: string)
    requires AllDigits(s)
    ensures NoDoubleUnderscore(s)
  {
    if |s| >= 2 {
      assert IsDigit(s[0]);
      DigitsHaveNoUnderscorePair(s[1..]);
    }
  }

  /** The number the digits of `s` spell, underscores ignored. */
  function DigitsValue(s: string): nat
    requires DigitsOrUnderscores(s)
  {
    if |s| == 0 then 0
    else if s[|s| - 1] == '_' then DigitsValue(s[..|s| - 1])
    else 10 * DigitsValue(s[..|s| - 1]) + DigitValue(s[|s| - 1])
  }

  /** Python's `int(s)` on already-stripped text; `None` where `int` raises
      `ValueError`. Only an optional sign, ASCII digits and single underscores
      between digits are accepted. */
  function ParseInt(s: string): (r: Option<int>)
    ensures r.Some? ==> forall i :: 0 <= i < |s| ==>
              IsDigit(s[i]) || s[i] == '_' || (i == 0 && (s[i] == '+' || s[i] == '-'))
    ensures r.Some? ==> |s| > 0 && IsDigit(s[|s| - 1])
  {
    if |s| > 0 && (s[0] == '+' || s[0] == '-') then
      var body := s[1..];
      if IsDigitGroup(body) then
        assert s[|s| - 1] == body[|body| - 1];
        var v: int := if s[0] == '-' then -(DigitsValue(body) as int) else DigitsValue(body);
        Some(v)
      else None
    else if IsDigitGroup(s) then Some(DigitsValue(s))
    else None
  }

  /** The decimal text of a natural number, without leading zeros. */
  function NatToString(n: nat): (r: string)
    ensures |r| > 0 && AllDigits(r)
  {
    if n < 10 then [DigitChar(n)] else NatToString(n / 10) + [DigitChar(n % 10)]
  }

  /** Python's `str(n)` for an integer. */
  function IntToString(n: int): (r: string)
    ensures |r| > 0
    ensures n < 0 <==> r[0] == '-'
  {
    if n < 0 then "-" + NatToString(-n) else NatToString(n)
  }

  lemma {:induction false} NatToStringValue(n: nat)
    ensures IsDigitGroup(NatToString(n))
    ensures DigitsValue(NatToString(n)) == n
  {
    var s := NatToString(n);
    DigitsHaveNoUnderscorePair(s);
    if n >= 10 {
      NatToStringValue(n / 10);
      assert s[..|s| - 1] == NatToString(n / 10);
    }
  }

  /** `int(str(n)) == n`: the integer parser reads back what `str` writes. */
  lemma ParseIntRoundTrip(n: int)
    ensures ParseInt(IntToString(n)) == Some(n)
  {
    if n < 0 {
      NatToStringValue(-n);
      assert IntToString(n)[1..] == NatToString(-n);
    } else {
      NatToStringValue(n);
    }
  }

  /** The text of an integer is a leading minus sign, if any, then ASCII digits. */
  lemma IntTextShape(n: int)
    ensures var t := IntToString(n);
      |t| > 0 && IsDigit(t[|t| - 1]) &&
      forall k :: 0 <= k < |t| ==> IsDigit(t[k]) || (k == 0 && t[k] == '-')
  {
    ParseIntRoundTrip(n);
    var t := IntToString(n);
    if n < 0 {
      assert t[1..] == NatToString(-n);
      assert forall k :: 1 <= k < |t| ==> t[k] == t[1..][k - 1];
    }
  }

  /** The text of an integer has no surrounding whitespace. */
  lemma IntTextIsStripped(n: int)
    ensures Strip(IntToString(n)) == IntToString(n)
  {
    var s := IntToString(n);
    assert !IsSpace(s[0]);
    NatToStringValue(if n < 0 then -n else n);
    assert IsDigit(s[|s| - 1]) by {
      if n < 0 {
        assert s[|s| - 1] == NatToString(-n)[|NatToString(-n)| - 1];
      }
    }
    StripKeeps(s);
  }

  /** The information separators U+001C..U+001F: `str.isspace` holds for them,
      but `int()` does not skip them. */
  predicate IsInfoSeparator(c: char) {
    0x1C <= c as int <= 0x1F
  }

  /** The whitespace `int()` skips around its digits: the ASCII whitespace and,
      since CPython first turns every non-ASCII Unicode space into an ASCII one,
      every other `str.isspace` character except the information separators. */
  predicate IsIntSpace(c: char) {
    IsSpace(c) && !IsInfoSeparator(c)
  }

  /** How many characters `int()` skips at the start of `s`. */
  function IntLeading(s: string): (n: nat)
    ensures n <= |s|
    ensures forall k :: 0 <= k < n ==> IsIntSpace(s[k])
    ensures n == |s| || !IsIntSpace(s[n])
  {
    if |s| > 0 && IsIntSpace(s[0]) then 1 + IntLeading(s[1..]) else 0
  }

  /** Where the characters `int()` skips at the end of `s` begin. */
  function IntTrailing(s: string): (n: nat)
    ensures n <= |s|
    ensures forall k :: n <= k < |s| ==> IsIntSpace(s[k])
    ensures n == 0 || !IsIntSpace(s[n - 1])
  {
    if |s| > 0 && IsIntSpace(s[|s| - 1]) then IntTrailing(s[..|s| - 1]) else |s|
  }

  /** Python's `int(s)` on any text: the whitespace `int` skips is cut from both
      ends and the rest must be an integer literal; `None` where `int` raises
      `ValueError`. */
  function IntOfText(s: string): Option<int> {
    var t := s[IntLeading(s)..];
    ParseInt(t[..IntTrailing(t)])
  }

  /** `int(str(n)) == n` for `int()` on any text: the text of an integer has
      nothing for `int` to skip. */
  lemma IntOfTextRoundTrip(n: int)
    ensures IntOfText(IntToString(n)) == Some(n)
  {
    var t := IntToString(n);
    IntTextShape(n);
    assert !IsIntSpace(t[0]);
    assert IntLeading(t) == 0;
    assert t[0..] == t;
    assert !IsIntSpace(t[|t| - 1]);
    assert IntTrailing(t) == |t|;
    assert t[..|t|] == t;
    ParseIntRoundTrip(n);
    assert IntOfText(t) == ParseInt(t);
  }

  /** Where `int()`'s leading skip stops at a character `strip()` keeps,
      `strip()`'s leading skip stops too. */
  lemma IntLeadingMeetsStrip(s: string)
    requires IntLeading(s) < |s| && !IsSpace(s[IntLeading(s)])
    ensures LeadingSpace(s) == IntLeading(s)
  {
  }

  /** Where `int()`'s trailing cut leaves an integer literal, `strip()`'s
      trailing cut is the same: the literal ends in a digit. */
  lemma {:induction false} IntTrailingMeetsStrip(t: string)
    requires ParseInt(t[..IntTrailing(t)]).Some?
    ensures TrailingSpace(t) == IntTrailing(t)
    decreases |t|
  {
    if |t| > 0 && IsIntSpace(t[|t| - 1]) {
      var p := t[..|t| - 1];
      assert t[..IntTrailing(t)] == p[..IntTrailing(p)];
      IntTrailingMeetsStrip(p);
    } else {
      assert t[..|t|] == t;
    }
  }

  /** Whenever `int()` accepts text, it reads the same integer as parsing the
      text's `strip()`: the whitespace `int` skips is whitespace to `strip` too,
      and a literal starts with a sign or digit and ends with a digit. */
  lemma IntOfTextAgreesWithStrip(s: string)
    ensures IntOfText(s).Some? ==> IntOfText(s) == ParseInt(Strip(s))
  {
    var i := IntLeading(s);
    var t := s[i..];
    var u := t[..IntTrailing(t)];
    if ParseInt(u).Some? {
      assert s[i] == u[0];
      IntLeadingMeetsStrip(s);
      IntTrailingMeetsStrip(t);
      assert Strip(s) == u;
    }
  }

  /** `int()` rejects an information separator next to the digits, which
      `strip()` would have removed. */
  lemma IntRejectsSeparator()
    ensures IntOfText("\U{1C}5") == None
    ensures ParseInt(Strip("\U{1C}5")) == Some(5)
  {
    assert ParseInt("5") == Some(5);
    assert IntLeading("\U{1C}5") == 0;
    assert IntTrailing("\U{1C}5") == 2;
    assert "\U{1C}5"[0..][..2] == "\U{1C}5";
    assert LeadingSpace("\U{1C}5") == 1;
    assert "\U{1C}5"[1..] == "5";
    assert TrailingSpace("5") == 1;
    assert Strip("\U{1C}5") == "5"[..1] == "5";
  }

  /** `int()` skips a no-break space and a line feed around the digits. */
  lemma IntSkipsUnicodeSpace()
    ensures IntOfText(" \U{A0}5\n") == Some(5)
  {
    assert ParseInt("5") == Some(5);
    assert IntLeading(" \U{A0}5\n") == 2;
    assert " \U{A0}5\n"[2..] == "5\n";
    assert IntTrailing("5\n") == 1;
    assert "5\n"[..1] == "5";
  }

  function Pow10(k: nat): (p: nat)
    ensures p >= 1
  {
    if k == 0 then 1 else 10 * Pow10(k - 1)
  }

  /** Digits with one decimal point at `p`, and at least one digit. */
  lemma DecimalShape(body: string, p: nat)
    requires p < |body| && body[p] == '.'
    requires AllDigits(body[..p]) && AllDigits(body[p + 1..]) && |body| > 1
    ensures exists k :: 0 <= k < |body| && IsDigit(body[k])
    ensures forall i :: 0 <= i < |body| ==> IsDigit(body[i]) || body[i] == '.'
  {
    if p > 0 {
      assert body[..p][0] == body[0];
    } else {
      assert body[p + 1..][0] == body[1];
    }
    forall i | 0 <= i < |body| && i != p
      ensures IsDigit(body[i])
    {
      if i < p {
        assert body[..p][i] == body[i];
      } else {
        assert body[p + 1..][i - p - 1] == body[i];
      }
    }
  }

  /** An unsigned decimal: ASCII digits with at most one decimal point and at
      least one digit. */
  function ParseUnsigned(body: string): (r: Option<real>)
    ensures r.Some? ==> exists k :: 0 <= k < |body| && IsDigit(body[k])
    ensures r.Some? ==> forall i :: 0 <= i < |body| ==> IsDigit(body[i]) || body[i] == '.'
  {
    match FirstIndexOf(body, '.')
    case None =>
      if |body| > 0 && AllDigits(body) then
        assert IsDigit(body[0]);
        Some(DigitsValue(body) as real)
      else None
    case Some(p) =>
      var whole := body[..p];
      var fraction := body[p + 1..];
      if AllDigits(whole) && AllDigits(fraction) && |whole| + |fraction| > 0 then
        DecimalShape(body, p);
        Some(DigitsValue(whole) as real + DigitsValue(fraction) as real / Pow10(|fraction|) as real)
      else None
  }

  /** The characters of `s` after a leading sign. */
  lemma SignedShape(s: string)
    requires |s| > 0
    requires exists k :: 0 <= k < |s[1..]| && IsDigit(s[1..][k])
    requires forall i :: 0 <= i < |s[1..]| ==> IsDigit(s[1..][i]) || s[1..][i] == '.'
    ensures exists k :: 0 <= k < |s| && IsDigit(s[k])
    ensures forall i :: 0 < i < |s| ==> IsDigit(s[i]) || s[i] == '.'
  {
    var k :| 0 <= k < |s[1..]| && IsDigit(s[1..][k]);
    assert s[k + 1] == s[1..][k];
    forall i | 0 < i < |s|
      ensures IsDigit(s[i]) || s[i] == '.'
    {
      assert s[i] == s[1..][i - 1];
    }
  }

  /** pandas' `to_numeric` on one text cell: an optional sign, then ASCII digits
      with at most one decimal point and at least one digit; `None` for any other
      text. That includes every cell pandas coerces to `NaN`, and also some text
      pandas reads as a number: surrounding whitespace, exponents, `inf`, `nan`. */
  function ParseDecimal(s: string): (r: Option<real>)
    ensures r.Some? ==> exists k :: 0 <= k < |s| && IsDigit(s[k])
    ensures r.Some? ==> forall i :: 0 <= i < |s| ==>
              IsDigit(s[i]) || s[i] == '.' || (i == 0 && (s[i] == '+' || s[i] == '-'))
  {
    if |s| > 0 && (s[0] == '+' || s[0] == '-') then
      match ParseUnsigned(s[1..])
      case Some(m) =>
        SignedShape(s);
        Some(if s[0] == '-' then -m else m)
      case None => None
    else ParseUnsigned(s)
  }

  /** The decimal parser reads the text of an integer back as that integer. */
  lemma ParseDecimalOfInt(n: int)
    ensures ParseDecimal(IntToString(n)) == Some(n as real)
  {
    var s := IntToString(n);
    var body := if n < 0 then s[1..] else s;
    assert body == NatToString(if n < 0 then -n else n);
    NatToStringValue(if n < 0 then -n else n);
    assert '.' !in body;
  }
}
