/** The pieces of Python's string behaviour the predicates rely on:
    `str.lower()`, the substring test `a in b`, `str(int)` and `int(str)`.
    Case mapping is modelled on ASCII letters only. */
module Text {
  import opened Wrappers

  function LowerChar(c: char): char {
    if 'A' <= c <= 'Z' then (c as int + 32) as char else c
  }

  function UpperChar(c: char): char {
    if 'a' <= c <= 'z' then (c as int - 32) as char else c
  }

  /** `s.lower()`: the same length, no upper-case letter left, each
      upper-case letter replaced by its lower-case partner, and every other
      character kept. */
  function Lower(s: string): (r: string)
    ensures |r| == |s|
    ensures forall i :: 0 <= i < |s| ==>
      && !('A' <= r[i] <= 'Z')
      && ('A' <= s[i] <= 'Z' ==> UpperChar(r[i]) == s[i])
      && (!('A' <= s[i] <= 'Z') ==> r[i] == s[i])
  {
    seq(|s|, i requires 0 <= i < |s| => LowerChar(s[i]))
  }

  /** `s.upper()` */
  function Upper(s: string): string {
    seq(|s|, i requires 0 <= i < |s| => UpperChar(s[i]))
  }

  /** Lower-casing forgets every earlier change of case. */
  lemma LowerForgetsCase(s: string)
    ensures Lower(Upper(s)) == Lower(s)
    ensures Lower(Lower(s)) == Lower(s)
  {
    assert forall i :: 0 <= i < |s| ==> Lower(Upper(s))[i] == Lower(s)[i];
    assert forall i :: 0 <= i < |s| ==> Lower(Lower(s))[i] == Lower(s)[i];
  }

  /** Python's `p in s` on strings: `p` occurs in `s` as a contiguous run. */
  predicate IsSubstring(p: string, s: string)
    decreases |s|
  {
    p <= s || (s != [] && IsSubstring(p, s[1..]))
  }

  /** `p` occurs in `s` starting at index `i`. */
  predicate OccursAt(p: string, s: string, i: int) {
    0 <= i <= |s| - |p| && s[i..i + |p|] == p
  }

  /** The recursive test agrees with "some window of `s` equals `p`". */
  lemma IsSubstringIff(p: string, s: string)
    ensures IsSubstring(p, s) <==> exists i :: OccursAt(p, s, i)
  {
    if IsSubstring(p, s) {
      var i := SubstringWitness(p, s);
    }
    if exists i :: OccursAt(p, s, i) {
      var i :| OccursAt(p, s, i);
      OccurrenceIsSubstring(p, s, i);
    }
  }

  /** Where the recursive test succeeds, a window that matches. */
  lemma {:induction false} SubstringWitness(p: string, s: string) returns (i: int)
    requires IsSubstring(p, s)
    ensures OccursAt(p, s, i)
    decreases |s|
  {
    if p <= s {
      i := 0;
      assert s[..|p|] == p;
    } else {
      var k := SubstringWitness(p, s[1..]);
      assert s[1..][k..k + |p|] == s[k + 1..k + 1 + |p|];
      i := k + 1;
    }
  }

  /** A window that matches makes the recursive test succeed. */
  lemma {:induction false} OccurrenceIsSubstring(p: string, s: string, i: int)
    requires OccursAt(p, s, i)
    ensures IsSubstring(p, s)
    decreases i
  {
    if i == 0 {
      assert p <= s;
    } else {
      assert s[1..][i - 1..i - 1 + |p|] == s[i..i + |p|];
      OccurrenceIsSubstring(p, s[1..], i - 1);
    }
  }

  /** Every string occurs in itself. */
  lemma SubstringOfItself(s: string)
    ensures IsSubstring(s, s)
  {
  }

  // ---------------------------------------------------------------
  // str(int)

  predicate IsDigit(c: char) {
    '0' <= c <= '9'
  }

  function DigitChar(d: nat): (c: char)
    requires d < 10
    ensures IsDigit(c)
  {
    ('0' as int + d) as char
  }

  function DigitValue(c: char): nat
    requires IsDigit(c)
  {
    c as int - '0' as int
  }

  /** Decimal digits of `n`, most significant first, no leading zeros. */
  function NatToDigits(n: nat): (r: string)
    ensures |r| > 0 && forall i :: 0 <= i < |r| ==> IsDigit(r[i])
    decreases n
  {
    if n < 10 then [DigitChar(n)] else NatToDigits(n / 10) + [DigitChar(n % 10)]
  }

  /** `str(n)` for a Python int: a minus sign exactly for a negative
      number, then decimal digits. */
  function IntToString(n: int): (r: string)
    ensures |r| > 0
    ensures IsDigit(r[0]) <==> n >= 0
    ensures r[0] == '-' <==> n < 0
    ensures forall i :: 0 < i < |r| ==> IsDigit(r[i])
  {
    if n < 0 then "-" + NatToDigits(-n) else NatToDigits(n)
  }

  function Pow10(k: nat): nat {
    if k == 0 then 1 else 10 * Pow10(k - 1)
  }

  /** A number below `10^k` has at most `k` digits. */
  lemma {:induction false} NatToDigitsLength(n: nat, k: nat)
    ensures 0 < k && n < Pow10(k) ==> |NatToDigits(n)| <= k
    decreases k
  {
    if 0 < k && n < Pow10(k) && n >= 10 {
      NatToDigitsLength(n / 10, k - 1);
    }
  }

  /** `k` zero digits. */
  function Zeros(k: nat): (r: string)
    ensures |r| == k && forall i :: 0 <= i < k ==> r[i] == '0'
  {
    if k == 0 then [] else ['0'] + Zeros(k - 1)
  }

  /** `str(n)` zero-padded to at least `width` characters (`%0Nd`): all
      digits, exactly `width` of them when `n` is below `10^width`, and
      `int()` reads them back as `n`. */
  function ZeroPad(n: nat, width: nat): (r: string)
    ensures |r| >= width
    ensures 0 < width && n < Pow10(width) ==> |r| == width
    ensures forall i :: 0 <= i < |r| ==> IsDigit(r[i])
    ensures ParseInt(r) == Some(n)
  {
    var d := NatToDigits(n);
    NatToDigitsLength(n, width);
    DigitsValueOfNat(n);
    var k := if |d| >= width then 0 else width - |d|;
    LeadingZeros(k, d);
    assert Zeros(0) + d == d;
    DigitsParseInt(Zeros(k) + d);
    Zeros(k) + d
  }

  // ---------------------------------------------------------------
  // int(str)

  /** The ASCII characters `int()` skips around a literal: space, tab,
      line feed, vertical tab, form feed and carriage return. */
  predicate IsSpace(c: char) {
    c == ' ' || c == '\t' || c == '\n' || c == '\U{0b}' || c == '\U{0c}' || c == '\r'
  }

  function StripLeft(s: string): (r: string)
    ensures r == [] || !IsSpace(r[0])
    decreases |s|
  {
    if s != [] && IsSpace(s[0]) then StripLeft(s[1..]) else s
  }

  function StripRight(s: string): (r: string)
    ensures r == [] || !IsSpace(r[|r| - 1])
    decreases |s|
  {
    if s != [] && IsSpace(s[|s| - 1]) then StripRight(s[..|s| - 1]) else s
  }

  /** The text `int()` reads: `s` without the whitespace around it. */
  function Strip(s: string): string {
    StripRight(StripLeft(s))
  }

  /** The digit part of a base-10 literal that `int()` accepts: digits,
      each underscore standing between two digits. */
  predicate WellFormedDigits(s: string) {
    && |s| > 0
    && IsDigit(s[0])
    && IsDigit(s[|s| - 1])
    && (forall i :: 0 <= i < |s| ==> IsDigit(s[i]) || s[i] == '_')
    && (forall i :: 0 < i < |s| && s[i] == '_' ==> s[i - 1] != '_')
  }

  function DropUnderscores(s: string): (r: string)
    ensures |r| <= |s|
  {
    if s == [] then [] else (if s[0] == '_' then [] else [s[0]]) + DropUnderscores(s[1..])
  }

  /** The number a run of decimal digits denotes. */
  function DigitsValue(s: string): nat
    requires forall i :: 0 <= i < |s| ==> IsDigit(s[i])
  {
    if s == [] then 0 else DigitsValue(s[..|s| - 1]) * 10 + DigitValue(s[|s| - 1])
  }

  lemma {:induction false} DropUnderscoresKeepsDigits(s: string)
    requires forall i :: 0 <= i < |s| ==> IsDigit(s[i]) || s[i] == '_'
    ensures forall i :: 0 <= i < |DropUnderscores(s)| ==> IsDigit(DropUnderscores(s)[i])
  {
    if s != [] {
      DropUnderscoresKeepsDigits(s[1..]);
    }
  }

  lemma {:induction false} DropUnderscoresOfDigits(s: string)
    requires forall i :: 0 <= i < |s| ==> IsDigit(s[i])
    ensures DropUnderscores(s) == s
  {
    if s != [] {
      DropUnderscoresOfDigits(s[1..]);
    }
  }

  function ParseDigits(s: string): Option<nat> {
    if WellFormedDigits(s) then
      DropUnderscoresKeepsDigits(s);
      Some(DigitsValue(DropUnderscores(s)))
    else None
  }

  /** `int(s)` for a string `s`; `None` where Python raises ValueError. A
      literal needs something besides whitespace, and a negative result
      needs a leading minus sign. */
  function ParseInt(s: string): (r: Option<int>)
    ensures r.Some? ==> |Strip(s)| > 0
    ensures r.Some? && r.value < 0 ==> Strip(s)[0] == '-'
  {
    var t := Strip(s);
    if |t| > 0 && (t[0] == '-' || t[0] == '+') then
      match ParseDigits(t[1..])
      case None => None
      case Some(v) => Some(if t[0] == '-' then -(v as int) else v)
    else
      match ParseDigits(t)
      case None => None
      case Some(v) => Some(v)
  }

  lemma {:induction false} DigitsValueOfNat(n: nat)
    ensures DigitsValue(NatToDigits(n)) == n
    decreases n
  {
    var d := NatToDigits(n);
    if n < 10 {
      assert d[..0] == [];
    } else {
      DigitsValueOfNat(n / 10);
      assert d[..|d| - 1] == NatToDigits(n / 10);
    }
  }

  /** A leading zero does not change the number a run of digits denotes. */
  lemma {:induction false} LeadingZero(s: string)
    requires forall i :: 0 <= i < |s| ==> IsDigit(s[i])
    ensures DigitsValue(['0'] + s) == DigitsValue(s)
    decreases |s|
  {
    var t := ['0'] + s;
    if s == [] {
      assert t[..|t| - 1] == [];
    } else {
      assert t[..|t| - 1] == ['0'] + s[..|s| - 1];
      assert t[|t| - 1] == s[|s| - 1];
      LeadingZero(s[..|s| - 1]);
    }
  }

  /** Nor does any number of leading zeros. */
  lemma {:induction false} LeadingZeros(k: nat, s: string)
    requires forall i :: 0 <= i < |s| ==> IsDigit(s[i])
    ensures forall i :: 0 <= i < |Zeros(k) + s| ==> IsDigit((Zeros(k) + s)[i])
    ensures DigitsValue(Zeros(k) + s) == DigitsValue(s)
    decreases k
  {
    if k == 0 {
      assert Zeros(k) + s == s;
    } else {
      LeadingZeros(k - 1, s);
      assert Zeros(k) + s == ['0'] + (Zeros(k - 1) + s);
      LeadingZero(Zeros(k - 1) + s);
    }
  }

  /** `int()` reads a non-empty run of digits as the number it denotes;
      leading zeros are allowed. */
  lemma DigitsParseInt(s: string)
    requires |s| > 0 && forall i :: 0 <= i < |s| ==> IsDigit(s[i])
    ensures ParseInt(s) == Some(DigitsValue(s))
  {
    DigitsAreStripped(s);
    DigitsAreLiteral(s);
    assert !(s[0] == '-' || s[0] == '+');
  }

  lemma DigitsAreStripped(s: string)
    requires |s| > 0 && !IsSpace(s[0]) && !IsSpace(s[|s| - 1])
    ensures Strip(s) == s
  {
    assert StripLeft(s) == s;
  }

  lemma DigitsAreLiteral(s: string)
    requires |s| > 0 && forall i :: 0 <= i < |s| ==> IsDigit(s[i])
    ensures ParseDigits(s) == Some(DigitsValue(s))
  {
    assert WellFormedDigits(s);
    DropUnderscoresOfDigits(s);
  }

  /** The digits of a natural number are a literal for that number. */
  lemma DigitsParse(m: nat)
    ensures ParseDigits(NatToDigits(m)) == Some(m)
  {
    var d := NatToDigits(m);
    DropUnderscoresOfDigits(d);
    DigitsValueOfNat(m);
    assert WellFormedDigits(d);
  }

  /** `str(n)` has no whitespace around it. */
  lemma IntToStringIsStripped(n: int)
    ensures Strip(IntToString(n)) == IntToString(n)
  {
    var s := IntToString(n);
    assert !IsSpace(s[0]) && !IsSpace(s[|s| - 1]);
    assert StripLeft(s) == s;
  }

  /** `int(str(n)) == n`: the parser reads back every decimal rendering. */
  lemma IntRoundTrip(n: int)
    ensures ParseInt(IntToString(n)) == Some(n)
  {
    var m: nat := if n < 0 then -n else n;
    var s := IntToString(n);
    IntToStringIsStripped(n);
    DigitsParse(m);
    if n < 0 {
      assert s[1..] == NatToDigits(m);
    }
  }

  /** Only whitespace is no integer literal: `int("")` and `int(" ")`
      raise ValueError. */
  lemma {:induction false} BlankIsNotInt(s: string)
    requires forall i :: 0 <= i < |s| ==> IsSpace(s[i])
    ensures StripLeft(s) == []
    ensures ParseInt(s).None?
    decreases |s|
  {
    if s != [] {
      BlankIsNotInt(s[1..]);
    }
  }

  /** The information separators U+001C..U+001F are not whitespace to
      `int()`: a literal that starts with one is rejected. */
  lemma SeparatorIsNotSpace(d: char)
    requires IsDigit(d)
    ensures ParseInt(['\U{1c}', d]).None?
    ensures ParseInt(['\U{1f}', d]).None?
  {
    assert StripLeft(['\U{1c}', d]) == ['\U{1c}', d];
    assert StripRight(['\U{1c}', d]) == ['\U{1c}', d];
    assert StripLeft(['\U{1f}', d]) == ['\U{1f}', d];
    assert StripRight(['\U{1f}', d]) == ['\U{1f}', d];
  }
}
