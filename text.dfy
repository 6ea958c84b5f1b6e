/**
 * The parts of the JavaScript host that the scoreboard relies on, restated over
 * strings: `String.prototype.trim`, `Number(string)` on decimal integer
 * numerals only, and the decimal rendering of an integer in a template literal.
 */
module Text {
  import opened Wrappers

  /** The characters `trim` strips: ECMAScript WhiteSpace and LineTerminator code points. */
  predicate IsSpace(c: char) {
    || c == '\t' || c == '\n' || c == '\U{B}' || c == '\U{C}' || c == '\r' || c == ' '
    || c == '\U{A0}' || c == '\U{1680}' || ('\U{2000}' <= c <= '\U{200A}')
    || c == '\U{2028}' || c == '\U{2029}' || c == '\U{202F}' || c == '\U{205F}'
    || c == '\U{3000}' || c == '\U{FEFF}'
  }

  predicate AllSpace(s: string) {
    forall i :: 0 <= i < |s| ==> IsSpace(s[i])
  }

  /** A string with no whitespace at either end. */
  predicate Trimmed(s: string) {
    s != [] ==> !IsSpace(s[0]) && !IsSpace(s[|s| - 1])
  }

  /** Drops trailing whitespace: what is dropped is all whitespace, what is kept is a prefix. */
  function TrimEnd(s: string): (r: string)
    ensures |r| <= |s| && r == s[..|r|]
    ensures AllSpace(s[|r|..])
    ensures r != [] ==> !IsSpace(r[|r| - 1])
  {
    if |s| > 0 && IsSpace(s[|s| - 1]) then
      var r := TrimEnd(s[..|s| - 1]);
      assert s[|r|..] == s[..|s| - 1][|r|..] + [s[|s| - 1]];
      r
    else
      s
  }

  /**
   * `String.prototype.trim`: leading whitespace is dropped one character at a
   * time, then `TrimEnd` drops the trailing whitespace. The result has no
   * whitespace at either end, and it is empty exactly when `s` is all
   * whitespace; `TrimSplit` shows it is `s` with a whitespace prefix and
   * suffix removed.
   */
  function Trim(s: string): (r: string)
    ensures Trimmed(r)
    ensures |r| <= |s|
    ensures r == [] <==> AllSpace(s)
  {
    if |s| > 0 && IsSpace(s[0]) then
      var r := Trim(s[1..]);
      assert AllSpace(s[1..]) ==> AllSpace(s) by {
        assert forall k :: 1 <= k < |s| ==> s[k] == s[1..][k - 1];
      }
      r
    else
      TrimEnd(s)
  }

  /** Trim keeps a contiguous slice of `s` and drops only whitespace around it. */
  lemma {:induction false} TrimSplit(s: string) returns (i: nat)
    ensures i + |Trim(s)| <= |s| && Trim(s) == s[i..i + |Trim(s)|]
    ensures AllSpace(s[..i]) && AllSpace(s[i + |Trim(s)|..])
  {
    var r := Trim(s);
    if |s| > 0 && IsSpace(s[0]) {
      var t := s[1..];
      assert r == Trim(t);
      var j := TrimSplit(t);
      i := j + 1;
      TailSlices(s, j, j + |r|);
      SpaceCons(s[0], t[..j]);
    } else {
      i := 0;
      assert r == TrimEnd(s);
      assert s[..0] == [];
      assert s[0..|r|] == s[..|r|];
    }
  }

  /** Slices of the tail of `s` are slices of `s` shifted by one. */
  lemma TailSlices(s: string, a: nat, b: nat)
    requires a <= b < |s|
    ensures s[1..][a..b] == s[a + 1..b + 1]
    ensures s[1..][b..] == s[b + 1..]
    ensures s[..a + 1] == [s[0]] + s[1..][..a]
  {
  }

  lemma SpaceCons(c: char, t: string)
    requires IsSpace(c) && AllSpace(t)
    ensures AllSpace([c] + t)
  {
  }

  lemma {:induction false} TrimEndPadded(rest: string, post: string)
    requires AllSpace(post) && (rest != [] ==> !IsSpace(rest[|rest| - 1]))
    ensures TrimEnd(rest + post) == rest
  {
    if post == [] {
      assert rest + post == rest;
    } else {
      var s := rest + post;
      assert s[|s| - 1] == post[|post| - 1];
      assert s[..|s| - 1] == rest + post[..|post| - 1];
      TrimEndPadded(rest, post[..|post| - 1]);
    }
  }

  /** Trim removes exactly the whitespace padding around a trimmed core. */
  lemma {:induction false} TrimPadded(pre: string, core: string, post: string)
    requires AllSpace(pre) && AllSpace(post) && Trimmed(core)
    ensures Trim(pre + core + post) == core
  {
    var s := pre + core + post;
    if pre != [] {
      assert s[0] == pre[0];
      assert s[1..] == pre[1..] + core + post;
      TrimPadded(pre[1..], core, post);
    } else if core == [] {
      assert s == post;
    } else {
      assert s == core + post;
      assert s[0] == core[0];
      TrimEndPadded(core, post);
    }
  }

  /** Trimming twice is trimming once. */
  lemma TrimIdempotent(s: string)
    ensures Trim(Trim(s)) == Trim(s)
  {
    TrimPadded([], Trim(s), []);
    assert [] + Trim(s) + [] == Trim(s);
  }

  predicate IsDigit(c: char) {
    '0' <= c <= '9'
  }

  predicate AllDigits(s: string) {
    forall i :: 0 <= i < |s| ==> IsDigit(s[i])
  }

  function DigitValue(c: char): (d: nat)
    requires IsDigit(c)
    ensures d < 10
  {
    c as int - '0' as int
  }

  function DigitChar(d: nat): (c: char)
    requires d < 10
    ensures IsDigit(c) && DigitValue(c) == d
  {
    ('0' as int + d) as char
  }

  /** The value of a string of decimal digits, most significant first. */
  function DigitsValue(s: string): (v: nat)
    requires AllDigits(s)
  {
    if s == [] then 0 else DigitsValue(s[..|s| - 1]) * 10 + DigitValue(s[|s| - 1])
  }

  /** The strings the model reads as a number: an optional sign and at least one digit. */
  predicate IsNumeral(s: string) {
    && |s| > 0
    && (s[0] == '-' || s[0] == '+' ==> |s| > 1)
    && forall i :: 0 <= i < |s| ==> IsDigit(s[i]) || (i == 0 && (s[i] == '-' || s[i] == '+'))
  }

  function ParseDigits(s: string): (r: Option<nat>)
    ensures r.Some? <==> s != [] && AllDigits(s)
    ensures r.Some? ==> r.value == DigitsValue(s)
  {
    if s != [] && AllDigits(s) then Some(DigitsValue(s)) else None
  }

  /**
   * `Number(s)` on decimal integer numerals only: `Some(n)` for an optional
   * sign followed by decimal digits, `None` for every other string. `None`
   * stands for NaN. The value is that of the digits, leading zeros included,
   * negated after a minus sign. The empty string also gives `None`, although
   * `Number("")` is 0; callers test for the empty string before parsing.
   */
  function ParseScore(s: string): (r: Option<int>)
    ensures r.Some? <==> IsNumeral(s)
    ensures r.Some? && s[0] == '-' ==> AllDigits(s[1..]) && r.value == -(DigitsValue(s[1..]) as int)
    ensures r.Some? && s[0] == '+' ==> AllDigits(s[1..]) && r.value == DigitsValue(s[1..]) as int
    ensures r.Some? && s[0] != '-' && s[0] != '+' ==> AllDigits(s) && r.value == DigitsValue(s) as int
  {
    if |s| > 0 && s[0] == '-' then
      match ParseDigits(s[1..])
      case Some(n) => Some(-(n as int))
      case None => None
    else if |s| > 0 && s[0] == '+' then
      match ParseDigits(s[1..])
      case Some(n) => Some(n)
      case None => None
    else
      ParseDigits(s)
  }

  /** Zeros in front of a digit string do not change its value. */
  lemma {:induction false} LeadingZerosValue(z: string, d: string)
    requires forall i :: 0 <= i < |z| ==> z[i] == '0'
    requires AllDigits(d)
    ensures AllDigits(z + d) && DigitsValue(z + d) == DigitsValue(d)
    decreases |z| + |d|
  {
    var s := z + d;
    assert AllDigits(s) by {
      forall k | 0 <= k < |s| ensures IsDigit(s[k]) {
        if k < |z| { assert s[k] == z[k]; } else { assert s[k] == d[k - |z|]; }
      }
    }
    if d != [] {
      assert s[..|s| - 1] == z + d[..|d| - 1];
      assert s[|s| - 1] == d[|d| - 1];
      LeadingZerosValue(z, d[..|d| - 1]);
    } else if z != [] {
      assert s == z;
      assert s[..|s| - 1] == z[..|z| - 1] + [];
      LeadingZerosValue(z[..|z| - 1], []);
    }
  }

  /**
   * A numeral written with leading zeros reads as the same number: "007" is 7,
   * and so are "+007"; "-007" is -7.
   */
  lemma LeadingZerosNumeral(z: string, n: nat)
    requires forall i :: 0 <= i < |z| ==> z[i] == '0'
    ensures ParseScore(z + NatToDecimal(n)) == Some(n as int)
    ensures ParseScore("+" + z + NatToDecimal(n)) == Some(n as int)
    ensures ParseScore("-" + z + NatToDecimal(n)) == Some(-(n as int))
  {
    var d := NatToDecimal(n);
    LeadingZerosValue(z, d);
    var s := z + d;
    assert ParseDigits(s) == Some(n);
    assert s[0] != '-' && s[0] != '+' by {
      if |z| > 0 { assert s[0] == z[0]; } else { assert s[0] == d[0] && IsDigit(d[0]); }
    }
    assert ParseScore(s) == Some(n as int);
    SignedNumeral('+', s);
    SignedNumeral('-', s);
    assert "+" + z + d == "+" + s;
    assert "-" + z + d == "-" + s;
  }

  /** A sign in front of a digit string: `+` keeps its value, `-` negates it. */
  lemma SignedNumeral(sign: char, s: string)
    requires sign == '+' || sign == '-'
    requires s != [] && AllDigits(s)
    ensures ParseScore([sign] + s) == Some(if sign == '+' then DigitsValue(s) as int else -(DigitsValue(s) as int))
  {
    assert ([sign] + s)[1..] == s;
  }

  /** Canonical decimal form of a natural number: no leading zero, value read back exactly. */
  function NatToDecimal(n: nat): (r: string)
    ensures |r| > 0 && AllDigits(r) && DigitsValue(r) == n
    ensures |r| > 1 ==> r[0] != '0'
  {
    if n < 10 then [DigitChar(n)] else NatToDecimal(n / 10) + [DigitChar(n % 10)]
  }

  /**
   * Decimal rendering of an integer, as `${n}` produces it: the canonical
   * digits, with a minus sign in front for a negative number. `Number` reads it back.
   */
  function IntToDecimal(n: int): (r: string)
    ensures n >= 0 ==> r == NatToDecimal(n)
    ensures n < 0 ==> r == ['-'] + NatToDecimal(-n)
    ensures ParseScore(r) == Some(n)
    ensures r != [] && Trimmed(r)
    ensures '?' !in r
  {
    var d := NatToDecimal(if n < 0 then -n else n);
    assert IsDigit(d[0]) && IsDigit(d[|d| - 1]);
    if n < 0 then
      var r := ['-'] + d;
      assert r[1..] == d;
      r
    else
      d
  }
}
