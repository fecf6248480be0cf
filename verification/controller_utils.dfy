/** `ControllerUtils.convertStringToResourceId`: turns a path or query string
    into a resource identifier, the `long` that `Long.parseLong` reads from the
    trimmed text. */
module ControllerUtils {
  import opened Results
  import opened Text
  import opened Exceptions

  const LongMin: int := -0x8000_0000_0000_0000
  const LongMax: int := 0x7FFF_FFFF_FFFF_FFFF

  predicate InLongRange(n: int) {
    LongMin <= n <= LongMax
  }

  predicate IsSign(c: char) {
    c == '-' || c == '+'
  }

  /** A decimal numeral: an optional sign followed by at least one digit. */
  predicate IsNumeral(s: string) {
    if |s| > 0 && IsSign(s[0]) then |s| > 1 && AllDigits(s[1..]) else |s| > 0 && AllDigits(s)
  }

  /** The value a numeral denotes; leading zeros and a `+` add nothing. */
  function NumeralValue(s: string): int
    requires IsNumeral(s)
  {
    if s[0] == '-' then 0 - DigitsValue(s[1..])
    else if s[0] == '+' then DigitsValue(s[1..])
    else DigitsValue(s)
  }

  /** `Long.parseLong(s)` in radix 10: an optional `+` or `-`, at least one
      decimal digit and nothing else, with a value that fits in 64 bits.
      `None` stands for the `NumberFormatException`. */
  function ParseLong(s: string): (r: Option<int>)
    ensures r.Some? <==> IsNumeral(s) && InLongRange(NumeralValue(s))
    ensures r.Some? ==> r.value == NumeralValue(s)
    ensures r.Some? ==> |s| > 0 && (IsDigit(s[0]) || IsSign(s[0]))
  {
    var negative := |s| > 0 && s[0] == '-';
    var digits := if |s| > 0 && (s[0] == '-' || s[0] == '+') then s[1..] else s;
    if digits == [] || !AllDigits(digits) then None
    else
      var v: int := if negative then 0 - DigitsValue(digits) else DigitsValue(digits);
      if InLongRange(v) then Some(v) else None
  }

  /** A missing or blank string fails with `emptyMessage`; otherwise the
      trimmed string is parsed, and a string that is not a 64-bit decimal
      integer fails with `nonNumericMessage`. */
  function ConvertStringToResourceId(idStr: Option<string>, emptyMessage: string, nonNumericMessage: string)
    : (r: Result<int, Exception>)
    ensures idStr.None? || AllTrimmable(idStr.value) ==> r == Err(IllegalArgument(emptyMessage))
    ensures idStr.Some? && !AllTrimmable(idStr.value) ==>
      r == (if ParseLong(Trim(idStr.value)).Some? then Ok(ParseLong(Trim(idStr.value)).value)
            else Err(IllegalArgument(nonNumericMessage)))
    ensures r.Ok? <==>
      idStr.Some? && !AllTrimmable(idStr.value) && IsNumeral(Trim(idStr.value))
      && InLongRange(NumeralValue(Trim(idStr.value)))
    ensures r.Ok? ==> r.value == NumeralValue(Trim(idStr.value))
  {
    if idStr.None? || |Trim(idStr.value)| == 0 then
      Err(IllegalArgument(emptyMessage))
    else
      match ParseLong(Trim(idStr.value))
      case Some(v) => Ok(v)
      case None => Err(IllegalArgument(nonNumericMessage))
  }

  /** Every 64-bit value survives rendering and parsing: zero and negative
      values included, since the parser has no positivity check. */
  lemma ParseShowInt(n: int)
    requires InLongRange(n)
    ensures ParseLong(ShowInt(n)) == Some(n)
  {
    var s := ShowInt(n);
    if n < 0 {
      assert s[1..] == ShowNat(-n);
      ShowNatValue(-n);
    } else {
      ShowNatValue(n);
    }
  }

  /** A sign, any number of leading zeros and the digits of `n` read as `n`
      (negated after a minus sign), when that fits in 64 bits: "+5", "007"
      and "-0" are all accepted. */
  lemma ParsePaddedNumeral(sign: string, zeros: string, n: nat)
    requires sign == "" || sign == "+" || sign == "-"
    requires AllZeros(zeros)
    ensures var v: int := if sign == "-" then 0 - n else n;
      ParseLong(sign + zeros + ShowNat(n)) == (if InLongRange(v) then Some(v) else None)
  {
    var digits := zeros + ShowNat(n);
    LeadingZerosValue(zeros, ShowNat(n));
    ShowNatValue(n);
    var s := sign + digits;
    assert sign + zeros + ShowNat(n) == s;
    if sign == "" {
      assert s == digits;
      assert |digits| > 0 && !IsSign(digits[0]);
    } else {
      assert s[0] == sign[0] && s[1..] == digits;
      assert IsNumeral(s) && NumeralValue(s) == (if sign == "-" then 0 - n else n);
    }
  }

  /** Integers outside the 64-bit range are rejected, however well formed. */
  lemma ParseShowIntOutOfRange(n: int)
    requires !InLongRange(n)
    ensures ParseLong(ShowInt(n)) == None
  {
    var s := ShowInt(n);
    if n < 0 {
      assert s[1..] == ShowNat(-n);
      ShowNatValue(-n);
    } else {
      ShowNatValue(n);
    }
  }

  /** A rendered integer has nothing to trim. */
  lemma TrimShowInt(n: int)
    ensures Trim(ShowInt(n)) == ShowInt(n)
  {
    var s := ShowInt(n);
    assert !IsTrimmable(s[0]);
    assert TrimStart(s) == s;
    if n < 0 {
      assert s[|s| - 1] == ShowNat(-n)[|ShowNat(-n)| - 1];
    }
    assert !IsTrimmable(s[|s| - 1]);
  }

  /** A string that is not blank and parses converts to the parsed value. */
  lemma ConvertParsed(s: string, n: int, emptyMessage: string, nonNumericMessage: string)
    requires !AllTrimmable(s) && ParseLong(Trim(s)) == Some(n)
    ensures ConvertStringToResourceId(Some(s), emptyMessage, nonNumericMessage) == Ok(n)
  {
  }

  /** A string that is not blank and does not parse fails with the format message. */
  lemma ConvertUnparsed(s: string, emptyMessage: string, nonNumericMessage: string)
    requires !AllTrimmable(s) && ParseLong(Trim(s)) == None
    ensures ConvertStringToResourceId(Some(s), emptyMessage, nonNumericMessage) == Err(IllegalArgument(nonNumericMessage))
  {
  }

  /** The decimal rendering of any 64-bit value converts back to it. */
  lemma ConvertShowInt(n: int, emptyMessage: string, nonNumericMessage: string)
    requires InLongRange(n)
    ensures ConvertStringToResourceId(Some(ShowInt(n)), emptyMessage, nonNumericMessage) == Ok(n)
  {
    var s := ShowInt(n);
    TrimShowInt(n);
    ParseShowInt(n);
    assert !AllTrimmable(s) by { assert !IsTrimmable(s[0]); }
    ConvertParsed(s, n, emptyMessage, nonNumericMessage);
  }

  /** A value outside the 64-bit range fails with the format message, not the empty one. */
  lemma ConvertOutOfRange(n: int, emptyMessage: string, nonNumericMessage: string)
    requires !InLongRange(n)
    ensures ConvertStringToResourceId(Some(ShowInt(n)), emptyMessage, nonNumericMessage)
      == Err(IllegalArgument(nonNumericMessage))
  {
    var s := ShowInt(n);
    TrimShowInt(n);
    ParseShowIntOutOfRange(n);
    assert !AllTrimmable(s) by { assert !IsTrimmable(s[0]); }
    ConvertUnparsed(s, emptyMessage, nonNumericMessage);
  }

  /** Whitespace around the identifier does not change the conversion. */
  lemma ConvertIgnoresSurroundingWhitespace(ws1: string, s: string, ws2: string, emptyMessage: string, nonNumericMessage: string)
    requires AllTrimmable(ws1) && AllTrimmable(ws2)
    ensures ConvertStringToResourceId(Some(ws1 + s + ws2), emptyMessage, nonNumericMessage)
      == ConvertStringToResourceId(Some(s), emptyMessage, nonNumericMessage)
  {
    TrimSurrounded(ws1, s, ws2);
  }

  /** A string with a letter in it is not an identifier. */
  lemma ConvertNonNumeric(emptyMessage: string, nonNumericMessage: string)
    ensures ConvertStringToResourceId(Some("g8763t28dg8"), emptyMessage, nonNumericMessage)
      == Err(IllegalArgument(nonNumericMessage))
  {
    var s := "g8763t28dg8";
    assert !IsTrimmable(s[0]) && !IsTrimmable(s[|s| - 1]);
    assert Trim(s) == s;
    assert !IsDigit(s[0]);
  }
}
