/**
  The two conversions between Python integers and decimal text that the
  booking bot relies on: `str(n)`, which the ticket-ID f-string applies to
  its random numbers, and `int(text)`, which the booking forms apply to the
  age and price fields (raising `ValueError` on anything non-numeric).
 */
module PyText {

  datatype Option<+T> = None | Some(value: T)

  predicate IsDigit(c: char) {
    '0' <= c <= '9'
  }

  function DigitValue(c: char): (d: nat)
    requires IsDigit(c)
    ensures d < 10
  {
    c as int - '0' as int
  }

  function DigitChar(d: nat): (c: char)
    requires d < 10
    ensures IsDigit(c) && DigitValue(c) == d
  {
    ('0' as int + d) as char
  }

  predicate AllDigits(s: string) {
    forall i :: 0 <= i < |s| ==> IsDigit(s[i])
  }

  /** The number a string of decimal digits denotes, most significant digit first. */
  function DigitsValue(s: string): nat
    requires AllDigits(s)
  {
    if |s| == 0 then 0 else DigitsValue(s[..|s| - 1]) * 10 + DigitValue(s[|s| - 1])
  }

  /** A decimal numeral in canonical form: non-empty, and no leading zero unless it is "0". */
  predicate IsCanonicalNumeral(s: string) {
    0 < |s| && AllDigits(s) && (s[0] == '0' ==> |s| == 1)
  }

  /** `str(n)` for a non-negative integer. */
  function NatToString(n: nat): (s: string)
    ensures IsCanonicalNumeral(s)
    ensures DigitsValue(s) == n
  {
    if n < 10 then
      assert [DigitChar(n)][..0] == [];
      [DigitChar(n)]
    else
      var prefix := NatToString(n / 10);
      var s := prefix + [DigitChar(n % 10)];
      assert s[..|s| - 1] == prefix;
      LeadingZeroOnlyForZero(prefix);
      s
  }

  /** The only canonical numeral starting with '0' is "0" itself. */
  lemma LeadingZeroOnlyForZero(s: string)
    requires IsCanonicalNumeral(s)
    ensures s[0] == '0' ==> DigitsValue(s) == 0
  {
    if s[0] == '0' {
      assert s[..0] == [];
    }
  }

  /** `str(i)` for any integer: a minus sign in front of the magnitude when negative. */
  function IntToString(i: int): (s: string)
    ensures 0 <= i ==> IsCanonicalNumeral(s) && DigitsValue(s) == i
    ensures i < 0 ==> 0 < |s| && s[0] == '-' && IsCanonicalNumeral(s[1..]) && DigitsValue(s[1..]) == -i
  {
    assert i < 0 ==> ("-" + NatToString(-i))[1..] == NatToString(-i);
    if i < 0 then "-" + NatToString(-i) else NatToString(i)
  }

  /** Canonical numerals and naturals are in one-to-one correspondence:
      printing the value of a canonical numeral gives the numeral back. */
  lemma {:induction false} NatToStringOfValue(s: string)
    requires IsCanonicalNumeral(s)
    ensures NatToString(DigitsValue(s)) == s
  {
    var n := DigitsValue(s);
    if |s| == 1 {
      assert s[..0] == [];
      assert DigitsValue(s[..0]) == 0;
      assert n == DigitValue(s[0]);
      assert NatToString(n) == [DigitChar(n)];
    } else {
      var prefix := s[..|s| - 1];
      assert AllDigits(prefix);
      assert IsCanonicalNumeral(prefix);
      NatToStringOfValue(prefix);
      NonzeroLeadIsLarge(prefix);
      assert n / 10 == DigitsValue(prefix) && n % 10 == DigitValue(s[|s| - 1]);
      assert s == prefix + [s[|s| - 1]];
    }
  }

  /** A numeral that does not start with '0' denotes a positive number. */
  lemma {:induction false} NonzeroLeadIsLarge(s: string)
    requires AllDigits(s) && 0 < |s| && s[0] != '0'
    ensures 0 < DigitsValue(s)
  {
    if |s| > 1 {
      var prefix := s[..|s| - 1];
      assert prefix[0] == s[0];
      NonzeroLeadIsLarge(prefix);
    }
  }

  /** The characters `int()` skips around a literal. CPython copies every
      character below U+007F unchanged and then skips only the ASCII
      whitespace "\t\n\v\f\r "; each character at or above U+007F that
      Unicode calls whitespace is first turned into a space. */
  predicate IsIntSpace(c: char) {
    || c == ' '
    || '\t' <= c <= '\r'
    || c == '\U{85}' || c == '\U{A0}' || c == '\U{1680}'
    || '\U{2000}' <= c <= '\U{200A}'
    || c == '\U{2028}' || c == '\U{2029}' || c == '\U{202F}' || c == '\U{205F}'
    || c == '\U{3000}'
  }

  /** Drops the longest all-whitespace prefix. */
  function TrimLeft(s: string): (t: string)
    ensures |t| <= |s| && t == s[|s| - |t|..]
    ensures forall i :: 0 <= i < |s| - |t| ==> IsIntSpace(s[i])
    ensures 0 < |t| ==> !IsIntSpace(t[0])
  {
    if 0 < |s| && IsIntSpace(s[0]) then
      var t := TrimLeft(s[1..]);
      assert forall i :: 1 <= i < |s| - |t| ==> s[i] == s[1..][i - 1];
      t
    else s
  }

  /** Drops the longest all-whitespace suffix. */
  function TrimRight(s: string): (t: string)
    ensures |t| <= |s| && t == s[..|t|]
    ensures forall i :: |t| <= i < |s| ==> IsIntSpace(s[i])
    ensures 0 < |t| ==> !IsIntSpace(t[|t| - 1])
  {
    if 0 < |s| && IsIntSpace(s[|s| - 1]) then TrimRight(s[..|s| - 1]) else s
  }

  /** Where the stripped text starts inside the original. */
  function StripStart(s: string): (k: nat)
    ensures k <= |s|
  {
    |s| - |TrimLeft(s)|
  }

  function Strip(s: string): (t: string)
    ensures StripStart(s) + |t| <= |s| && t == s[StripStart(s)..StripStart(s) + |t|]
    ensures 0 < |t| ==> !IsIntSpace(t[0]) && !IsIntSpace(t[|t| - 1])
  {
    TrimRight(TrimLeft(s))
  }

  /** Every character of `s` from `lo` up to `hi` is whitespace. */
  predicate SpaceBetween(s: string, lo: int, hi: int) {
    forall i :: lo <= i < hi && 0 <= i < |s| ==> IsIntSpace(s[i])
  }

  /** `t` sits in `text` at offset `k` with only whitespace around it. */
  predicate Framed(text: string, k: nat, t: string) {
    && k + |t| <= |text| && t == text[k..k + |t|]
    && SpaceBetween(text, 0, k)
    && SpaceBetween(text, k + |t|, |text|)
  }

  /** `Strip` keeps a slice of the text and drops only whitespace around it. */
  lemma StripFrames(s: string)
    ensures Framed(s, StripStart(s), Strip(s))
  {
    StripDropsSpace(s);
  }

  /** Everything `Strip` drops is whitespace. */
  lemma StripDropsSpace(s: string)
    ensures SpaceBetween(s, 0, StripStart(s))
    ensures SpaceBetween(s, StripStart(s) + |Strip(s)|, |s|)
  {
    var l := TrimLeft(s);
    assert forall i :: StripStart(s) + |Strip(s)| <= i < |s| ==> s[i] == l[i - StripStart(s)];
  }

  /** The base-10 literal body `int()` accepts after the sign: decimal digits,
      where a single underscore may separate two digits. */
  predicate IsDigitRun(b: string) {
    && 0 < |b| && IsDigit(b[0]) && IsDigit(b[|b| - 1])
    && (forall i :: 0 <= i < |b| ==> IsDigit(b[i]) || b[i] == '_')
    && (forall i :: 0 <= i < |b| - 1 ==> b[i] == '_' ==> b[i + 1] != '_')
  }

  /** The digits of `b` in order, separators dropped. */
  function Digits(b: string): (d: string)
    ensures AllDigits(d)
    ensures AllDigits(b) ==> d == b
  {
    if |b| == 0 then []
    else (if IsDigit(b[0]) then [b[0]] else []) + Digits(b[1..])
  }

  /** The characters a base-10 integer literal is made of. */
  predicate IsLiteralChar(c: char) {
    IsDigit(c) || c == '_' || c == '+' || c == '-'
  }

  /** Python's `int(text)` in base 10; `None` where Python raises `ValueError`. */
  function ParseInt(text: string): (r: Option<int>)
    ensures r.Some? ==> exists i :: 0 <= i < |text| && IsDigit(text[i])
  {
    var t := Strip(text);
    var r := ParseLiteral(t);
    if r.Some? then
      assert t[LiteralStart(t)] == text[StripStart(text) + LiteralStart(t)];
      r
    else r
  }

  /** `int()` succeeds only on text made of nothing but literal characters and
      whitespace: text with any other character, such as "12a", raises. */
  lemma ParseIntRejectsStrayChars(text: string)
    ensures ParseInt(text).Some? ==> forall i :: 0 <= i < |text| ==> IsLiteralChar(text[i]) || IsIntSpace(text[i])
  {
    if ParseLiteral(Strip(text)).Some? {
      StripFrames(text);
      LiteralChars(Strip(text));
      SpacedLiteral(text, StripStart(text), Strip(text));
    }
  }

  /** Text that is a run of literal characters with only whitespace around it. */
  lemma SpacedLiteral(text: string, k: nat, t: string)
    requires Framed(text, k, t)
    requires forall i :: 0 <= i < |t| ==> IsLiteralChar(t[i])
    ensures forall i :: 0 <= i < |text| ==> IsLiteralChar(text[i]) || IsIntSpace(text[i])
  {
    forall i | k <= i < k + |t|
      ensures IsLiteralChar(text[i])
    {
      assert text[i] == t[i - k];
    }
  }

  /** Where the digits start in a literal: after the sign, if there is one. */
  function LiteralStart(t: string): (k: nat)
    ensures k <= |t|
  {
    if 0 < |t| && (t[0] == '-' || t[0] == '+') then 1 else 0
  }

  /** `int()` on text already stripped of surrounding whitespace: an optional
      sign immediately followed by the digits. */
  function ParseLiteral(t: string): (r: Option<int>)
    ensures r.Some? ==> LiteralStart(t) < |t| && IsDigit(t[LiteralStart(t)])
  {
    var body := t[LiteralStart(t)..];
    if IsDigitRun(body) then
      var magnitude: int := DigitsValue(Digits(body));
      Some(if LiteralStart(t) == 1 && t[0] == '-' then -magnitude else magnitude)
    else None
  }

  /** A literal `int()` accepts holds only a sign, digits and underscores. */
  lemma LiteralChars(t: string)
    ensures ParseLiteral(t).Some? ==> forall i :: 0 <= i < |t| ==> IsLiteralChar(t[i])
  {
    var body := t[LiteralStart(t)..];
    assert forall i :: LiteralStart(t) <= i < |t| ==> t[i] == body[i - LiteralStart(t)];
  }

  /** Text made only of the whitespace `int()` strips. */
  predicate AllSpace(s: string) {
    forall i :: 0 <= i < |s| ==> IsIntSpace(s[i])
  }

  /** A base-10 literal with an optional sign: "+", "-" or none, then a digit run. */
  predicate IsSignedDigitRun(t: string) {
    || IsDigitRun(t)
    || (0 < |t| && (t[0] == '+' || t[0] == '-') && IsDigitRun(t[1..]))
  }

  /** What `int()` reads from a literal: leading zeros and underscores allowed,
      "+" keeps the value, "-" negates it, whitespace on either side ignored. */
  lemma {:induction false} ParseIntOfLiteral(before: string, sign: string, b: string, after: string)
    requires AllSpace(before) && AllSpace(after)
    requires sign == "" || sign == "+" || sign == "-"
    requires IsDigitRun(b)
    ensures ParseInt(before + sign + b + after)
         == Some(if sign == "-" then -(DigitsValue(Digits(b)) as int) else DigitsValue(Digits(b)))
  {
    var lit := sign + b;
    assert before + sign + b + after == before + lit + after;
    PaddedStrip(lit, before, after);
    SignedRunUnpadded(sign, b);
    SignedRunLiteral(sign, b);
  }

  lemma SignedRunUnpadded(sign: string, b: string)
    requires sign == "" || sign == "+" || sign == "-"
    requires IsDigitRun(b)
    ensures Strip(sign + b) == sign + b
  {
    var lit := sign + b;
    assert lit[0] == if sign == "" then b[0] else sign[0];
    assert lit[|lit| - 1] == b[|b| - 1];
    StripUnpadded(lit);
  }

  lemma SignedRunLiteral(sign: string, b: string)
    requires sign == "" || sign == "+" || sign == "-"
    requires IsDigitRun(b)
    ensures ParseLiteral(sign + b)
         == Some(if sign == "-" then -(DigitsValue(Digits(b)) as int) else DigitsValue(Digits(b)))
  {
    var lit := sign + b;
    SignedRunParts(sign, b);
    assert IsDigitRun(lit[LiteralStart(lit)..]);
    var m: int := DigitsValue(Digits(lit[LiteralStart(lit)..]));
    assert m == DigitsValue(Digits(b));
  }

  lemma SignedRunParts(sign: string, b: string)
    requires sign == "" || sign == "+" || sign == "-"
    requires IsDigitRun(b)
    ensures LiteralStart(sign + b) == |sign| && (sign + b)[|sign|..] == b
    ensures sign == "-" <==> (LiteralStart(sign + b) == 1 && (sign + b)[0] == '-')
  {
  }

  /** Conversely, `int()` succeeds only on a signed digit run with whitespace around it. */
  lemma ParseIntAcceptsOnlyLiterals(text: string)
    ensures ParseInt(text).Some? ==>
      exists k, j :: 0 <= k <= j <= |text| && AllSpace(text[..k]) && IsSignedDigitRun(text[k..j]) && AllSpace(text[j..])
  {
    if ParseInt(text).Some? {
      StripFrames(text);
      AcceptedLiteralIsSignedRun(Strip(text));
      LiteralShape(text, StripStart(text), Strip(text));
    }
  }

  /** A signed digit run with only whitespace on either side has the shape `int()` accepts. */
  lemma LiteralShape(text: string, k: nat, t: string)
    requires Framed(text, k, t)
    requires IsSignedDigitRun(t)
    ensures exists k, j :: 0 <= k <= j <= |text| && AllSpace(text[..k]) && IsSignedDigitRun(text[k..j]) && AllSpace(text[j..])
  {
    var j := k + |t|;
    SpaceAround(text, k, j);
    assert 0 <= k <= j <= |text| && AllSpace(text[..k]) && IsSignedDigitRun(text[k..j]) && AllSpace(text[j..]);
  }

  lemma AcceptedLiteralIsSignedRun(t: string)
    ensures ParseLiteral(t).Some? ==> IsSignedDigitRun(t)
  {
    if LiteralStart(t) == 1 {
      assert t[1..] == t[LiteralStart(t)..];
    } else {
      assert t == t[LiteralStart(t)..];
    }
  }

  lemma SpaceAround(text: string, k: nat, j: nat)
    requires k <= j <= |text|
    requires SpaceBetween(text, 0, k)
    requires SpaceBetween(text, j, |text|)
    ensures AllSpace(text[..k]) && AllSpace(text[j..])
  {
    forall i | 0 <= i < |text| - j
      ensures IsIntSpace(text[j..][i])
    {
      assert text[j..][i] == text[j + i];
    }
  }

  /** `int(str(i)) == i`: every integer the bot prints, it reads back. */
  lemma {:induction false} ParseIntOfIntToString(i: int)
    ensures ParseInt(IntToString(i)) == Some(i)
  {
    if i < 0 {
      NegativeRoundTrip(i);
    } else {
      NonNegativeRoundTrip(i);
    }
  }

  lemma {:induction false} NonNegativeRoundTrip(n: nat)
    ensures ParseInt(NatToString(n)) == Some(n)
  {
    var m := NatToString(n);
    StripUnpadded(m);
    UnsignedLiteral(m);
    ParseIntOfStripped(m);
  }

  lemma {:induction false} NegativeRoundTrip(i: int)
    requires i < 0
    ensures ParseInt(IntToString(i)) == Some(i)
  {
    var m := NatToString(-i);
    var s := "-" + m;
    assert IntToString(i) == s;
    SignedNumeralUnpadded(m);
    SignedLiteral(m);
    ParseIntOfStripped(s);
  }

  lemma SignedNumeralUnpadded(m: string)
    requires IsCanonicalNumeral(m)
    ensures Strip("-" + m) == "-" + m
  {
    var s := "-" + m;
    assert s[|s| - 1] == m[|m| - 1];
    StripUnpadded(s);
  }

  /** On text with nothing to strip, `int()` reads the literal as it stands. */
  lemma ParseIntOfStripped(s: string)
    ensures Strip(s) == s ==> ParseInt(s) == ParseLiteral(s)
  {
  }

  lemma UnsignedLiteral(m: string)
    requires IsCanonicalNumeral(m)
    ensures ParseLiteral(m) == Some(DigitsValue(m))
  {
    assert LiteralStart(m) == 0;
    assert m[0..] == m;
    assert IsDigitRun(m);
  }

  lemma SignedLiteral(m: string)
    requires IsCanonicalNumeral(m)
    ensures ParseLiteral("-" + m) == Some(-(DigitsValue(m) as int))
  {
    var t := "-" + m;
    assert t[0] == '-' && LiteralStart(t) == 1;
    assert t[1..] == m;
    assert IsDigitRun(m);
    assert Digits(m) == m;
  }

  /** Text that neither starts nor ends with whitespace is its own strip. */
  lemma StripUnpadded(s: string)
    requires 0 < |s| && !IsIntSpace(s[0]) && !IsIntSpace(s[|s| - 1])
    ensures Strip(s) == s
  {
    assert TrimLeft(s) == s;
  }

  /** Surrounding whitespace does not change what `int()` reads, whatever is
      on either side. */
  lemma {:induction false} ParseIntIgnoresPadding(text: string, before: string, after: string)
    requires forall i :: 0 <= i < |before| ==> IsIntSpace(before[i])
    requires forall i :: 0 <= i < |after| ==> IsIntSpace(after[i])
    ensures ParseInt(before + text + after) == ParseInt(text)
  {
    PaddedStrip(text, before, after);
    assert Strip(before + text + after) == Strip(text);
  }

  lemma {:induction false} PaddedStrip(text: string, before: string, after: string)
    requires forall i :: 0 <= i < |before| ==> IsIntSpace(before[i])
    requires forall i :: 0 <= i < |after| ==> IsIntSpace(after[i])
    ensures Strip(before + text + after) == Strip(text)
  {
    assert before + text + after == before + (text + after);
    LeftPad(text + after, before);
    TrimLeftAppend(text, after);
  }

  lemma {:induction false} LeftPad(s: string, pad: string)
    requires forall i :: 0 <= i < |pad| ==> IsIntSpace(pad[i])
    ensures TrimLeft(pad + s) == TrimLeft(s)
    decreases |pad|
  {
    if 0 < |pad| {
      assert (pad + s)[1..] == pad[1..] + s;
      LeftPad(s, pad[1..]);
    } else {
      assert pad + s == s;
    }
  }

  lemma {:induction false} RightPad(s: string, pad: string)
    requires forall i :: 0 <= i < |pad| ==> IsIntSpace(pad[i])
    ensures TrimRight(s + pad) == TrimRight(s)
    decreases |pad|
  {
    if 0 < |pad| {
      var p := pad[..|pad| - 1];
      assert (s + pad)[..|s + pad| - 1] == s + p;
      RightPad(s, p);
    } else {
      assert s + pad == s;
    }
  }

  /** Trimming on the left then appending `pad` on the right commutes, unless
      the text is all whitespace, in which case both sides trim to nothing. */
  lemma {:induction false} TrimLeftAppend(text: string, pad: string)
    requires forall i :: 0 <= i < |pad| ==> IsIntSpace(pad[i])
    ensures TrimRight(TrimLeft(text + pad)) == TrimRight(TrimLeft(text))
    decreases |text|
  {
    if 0 < |text| && IsIntSpace(text[0]) {
      assert (text + pad)[1..] == text[1..] + pad;
      TrimLeftAppend(text[1..], pad);
    } else if 0 < |text| {
      assert TrimLeft(text + pad) == text + pad;
      RightPad(text, pad);
    } else {
      AllSpaceTrims(pad);
    }
  }

  lemma {:induction false} AllSpaceTrims(pad: string)
    requires forall i :: 0 <= i < |pad| ==> IsIntSpace(pad[i])
    ensures TrimLeft(pad) == []
    decreases |pad|
  {
    if 0 < |pad| {
      AllSpaceTrims(pad[1..]);
    }
  }
}
