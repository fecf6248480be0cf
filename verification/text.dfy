/** The string operations the service relies on: Java's `String.trim` and the
    decimal rendering `String.format("%s", n)` produces for a `long`. */
module Text {

  /** Java's `trim` treats every character at or below U+0020 as removable. */
  predicate IsTrimmable(c: char) {
    c <= ' '
  }

  predicate AllTrimmable(s: string) {
    forall i :: 0 <= i < |s| ==> IsTrimmable(s[i])
  }

  /** Drops the leading trimmable characters. */
  function TrimStart(s: string): (r: string)
    ensures |r| <= |s| && r == s[|s| - |r|..]
    ensures r == [] || !IsTrimmable(r[0])
    ensures AllTrimmable(s[..|s| - |r|])
    ensures r == [] <==> AllTrimmable(s)
  {
    if s == [] || !IsTrimmable(s[0]) then s else TrimStart(s[1..])
  }

  /** Drops the trailing trimmable characters. */
  function TrimEnd(s: string): (r: string)
    ensures |r| <= |s| && r == s[..|r|]
    ensures r == [] || !IsTrimmable(r[|r| - 1])
    ensures AllTrimmable(s[|r|..])
  {
    if s == [] || !IsTrimmable(s[|s| - 1]) then s else TrimEnd(s[..|s| - 1])
  }

  /** `String.trim`: the longest infix with no trimmable character at either end. */
  function Trim(s: string): (r: string)
    ensures r == [] || (!IsTrimmable(r[0]) && !IsTrimmable(r[|r| - 1]))
    ensures r == [] <==> AllTrimmable(s)
  {
    TrimEnd(TrimStart(s))
  }

  /** Leading trimmable characters do not change `TrimStart`. */
  lemma {:induction false} TrimStartSkip(ws: string, t: string)
    requires AllTrimmable(ws)
    ensures TrimStart(ws + t) == TrimStart(t)
  {
    if ws == [] {
      assert ws + t == t;
    } else {
      assert (ws + t)[0] == ws[0];
      assert (ws + t)[1..] == ws[1..] + t;
      TrimStartSkip(ws[1..], t);
    }
  }

  /** Trailing trimmable characters do not change `TrimEnd`. */
  lemma {:induction false} TrimEndSkip(t: string, ws: string)
    requires AllTrimmable(ws)
    ensures TrimEnd(t + ws) == TrimEnd(t)
  {
    if ws == [] {
      assert t + ws == t;
    } else {
      var w := ws[..|ws| - 1];
      assert (t + ws)[|t + ws| - 1] == ws[|ws| - 1];
      assert (t + ws)[..|t + ws| - 1] == t + w;
      TrimEndSkip(t, w);
    }
  }

  /** Once a non-trimmable character has been reached, `TrimStart` keeps the rest intact. */
  lemma {:induction false} TrimStartAppend(t: string, ws: string)
    requires !AllTrimmable(t)
    ensures TrimStart(t + ws) == TrimStart(t) + ws
  {
    if IsTrimmable(t[0]) {
      assert (t + ws)[1..] == t[1..] + ws;
      TrimStartAppend(t[1..], ws);
    }
  }

  /** Surrounding whitespace is irrelevant to `trim`. */
  lemma TrimSurrounded(ws1: string, s: string, ws2: string)
    requires AllTrimmable(ws1) && AllTrimmable(ws2)
    ensures Trim(ws1 + s + ws2) == Trim(s)
  {
    assert ws1 + s + ws2 == ws1 + (s + ws2);
    TrimStartSkip(ws1, s + ws2);
    if AllTrimmable(s) {
      assert AllTrimmable(s + ws2);
    } else {
      TrimStartAppend(s, ws2);
      TrimEndSkip(TrimStart(s), ws2);
    }
  }

  /** Trimming twice is trimming once. */
  lemma TrimIdempotent(s: string)
    ensures Trim(Trim(s)) == Trim(s)
  {
    var r := Trim(s);
    if r != [] {
      assert TrimStart(r) == r;
      assert TrimEnd(r) == r;
    }
  }

  /** The digit character for `0 <= d < 10`. */
  function DigitChar(d: nat): (c: char)
    requires d < 10
    ensures '0' <= c <= '9'
  {
    ('0' as int + d) as char
  }

  predicate IsDigit(c: char) {
    '0' <= c <= '9'
  }

  predicate AllDigits(s: string) {
    forall i :: 0 <= i < |s| ==> IsDigit(s[i])
  }

  /** The value of a string of decimal digits, most significant first. */
  function DigitsValue(s: string): (v: nat)
    requires AllDigits(s)
  {
    if s == [] then 0
    else DigitsValue(s[..|s| - 1]) * 10 + (s[|s| - 1] as int - '0' as int)
  }

  /** Decimal digits of a natural number, without leading zeros. */
  function ShowNat(n: nat): (s: string)
    ensures |s| > 0 && AllDigits(s)
    ensures |s| > 1 ==> s[0] != '0'
  {
    if n < 10 then [DigitChar(n)] else ShowNat(n / 10) + [DigitChar(n % 10)]
  }

  /** `Long.toString`: a minus sign for negative values, then the digits. */
  function ShowInt(n: int): (s: string)
    ensures |s| > 0
    ensures n < 0 <==> s[0] == '-'
  {
    if n < 0 then "-" + ShowNat(-n) else ShowNat(n)
  }

  /** Reading back the digits of `n` gives `n`. */
  lemma {:induction false} ShowNatValue(n: nat)
    ensures DigitsValue(ShowNat(n)) == n
  {
    if n >= 10 {
      var s := ShowNat(n);
      assert s[..|s| - 1] == ShowNat(n / 10);
      ShowNatValue(n / 10);
    }
  }

  predicate AllZeros(s: string) {
    forall i :: 0 <= i < |s| ==> s[i] == '0'
  }

  /** A string of zeros is worth nothing. */
  lemma {:induction false} ZerosValue(z: string)
    requires AllZeros(z)
    ensures AllDigits(z) && DigitsValue(z) == 0
  {
    if z != [] {
      ZerosValue(z[..|z| - 1]);
    }
  }

  /** Leading zeros do not change the value of a digit string. */
  lemma {:induction false} LeadingZerosValue(z: string, t: string)
    requires AllZeros(z) && AllDigits(t)
    ensures AllDigits(z + t) && DigitsValue(z + t) == DigitsValue(t)
  {
    if t == [] {
      assert z + t == z;
      ZerosValue(z);
    } else {
      var u := z + t;
      assert u[..|u| - 1] == z + t[..|t| - 1];
      assert u[|u| - 1] == t[|t| - 1];
      LeadingZerosValue(z, t[..|t| - 1]);
    }
  }
}
