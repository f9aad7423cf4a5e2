/** strconv.FormatInt and strconv.ParseInt in base ten, for 64-bit integers. */
module Decimal {
  import opened Options
  import opened Text

  const MIN_INT64 := -0x8000_0000_0000_0000
  const MAX_INT64 := 0x7FFF_FFFF_FFFF_FFFF

  type Int64 = n: int | MIN_INT64 <= n <= MAX_INT64

  function FormatNat(n: nat): Str {
    if n < 10 then [('0' as int + n) as char] else FormatNat(n / 10) + [('0' as int + n % 10) as char]
  }

  function FormatInt(n: int): Str {
    if n < 0 then "-" + FormatNat(-n) else FormatNat(n)
  }

  function ParseNat(s: Str): Option<nat> {
    if s == [] then None
    else
      var c := s[|s| - 1];
      if !('0' <= c <= '9') then None
      else if |s| == 1 then Some(c as int - '0' as int)
      else
        var rest := ParseNat(s[..|s| - 1]);
        if rest.None? then None else Some(rest.value * 10 + (c as int - '0' as int))
  }

  /** An optional sign, at least one digit, and a value in range. */
  function ParseInt(s: Str): Option<Int64> {
    var negative := s != [] && s[0] == '-';
    var digits := if s != [] && (s[0] == '-' || s[0] == '+') then s[1..] else s;
    var n := ParseNat(digits);
    if n.None? then None
    else
      var value: int := if negative then -(n.value as int) else n.value;
      if MIN_INT64 <= value <= MAX_INT64 then Some(value) else None
  }

  lemma {:induction false} NatRoundTrip(n: nat)
    ensures FormatNat(n) != [] && ParseNat(FormatNat(n)) == Some(n)
    ensures forall c | c in FormatNat(n) :: '0' <= c <= '9'
  {
    if n >= 10 {
      NatRoundTrip(n / 10);
      var s := FormatNat(n);
      assert s[..|s| - 1] == FormatNat(n / 10);
    }
  }

  lemma RoundTrip(n: Int64)
    ensures ParseInt(FormatInt(n)) == Some(n)
    ensures '.' !in FormatInt(n)
  {
    hide FormatNat, ParseNat;
    var m: int := n;
    NatRoundTrip(if m < 0 then -m else m);
    if n < 0 {
      assert FormatInt(n)[1..] == FormatNat(-m);
    } else {
      assert FormatNat(n)[0] in FormatNat(n);
    }
  }

  predicate AllDigits(s: Str) { forall i | 0 <= i < |s| :: '0' <= s[i] <= '9' }

  /** The value of digits, from the left. */
  lemma DigitsCount(s: Str, c: Byte)
    requires '0' <= c <= '9'
    ensures ParseNat([c]) == Some(c as int - '0' as int)
    ensures ParseNat(s).Some? ==> ParseNat(s + [c]) == Some(10 * ParseNat(s).value + (c as int - '0' as int))
  {
    assert (s + [c])[..|s|] == s;
  }

  lemma {:induction false} OnlyDigitsParse(s: Str)
    ensures ParseNat(s).Some? <==> s != [] && AllDigits(s)
  {
    if |s| > 1 {
      OnlyDigitsParse(s[..|s| - 1]);
      assert AllDigits(s) <==> AllDigits(s[..|s| - 1]) && '0' <= s[|s| - 1] <= '9';
    }
  }

  /** Which texts are numbers: one sign at most, digits and no more, and the value in 64 bits. */
  lemma ParseIntExactly(digits: Str)
    requires digits != [] && AllDigits(digits)
    ensures ParseNat(digits).Some?
    ensures var n := ParseNat(digits).value;
            && ParseInt(digits) == (if n < 0x8000_0000_0000_0000 then Some(n) else None)
            && ParseInt("+" + digits) == (if n < 0x8000_0000_0000_0000 then Some(n) else None)
            && ParseInt("-" + digits) == (if n <= 0x8000_0000_0000_0000 then Some(-(n as int)) else None)
  {
    OnlyDigitsParse(digits);
    hide ParseNat;
    assert ("+" + digits)[1..] == digits && ("-" + digits)[1..] == digits;
  }

  lemma OnlyNumbersParse(s: Str)
    ensures ParseInt(s).Some? ==>
              var digits := if s != [] && (s[0] == '+' || s[0] == '-') then s[1..] else s;
              digits != [] && AllDigits(digits)
  {
    OnlyDigitsParse(if s != [] && (s[0] == '+' || s[0] == '-') then s[1..] else s);
    hide ParseNat;
  }

  lemma {:induction false} NoLeadingZero(n: nat)
    ensures FormatNat(n) != [] && AllDigits(FormatNat(n)) && (FormatNat(n)[0] == '0' ==> n == 0)
  {
    if n >= 10 {
      NoLeadingZero(n / 10);
      assert FormatNat(n)[0] == FormatNat(n / 10)[0];
    }
  }

  /** How a number is printed: a minus exactly when it is negative, then digits without a leading zero. */
  lemma PrintedPlainly(n: int)
    ensures FormatInt(n) != [] && (FormatInt(n)[0] == '-' <==> n < 0)
    ensures var digits := if n < 0 then FormatInt(n)[1..] else FormatInt(n);
            digits != [] && AllDigits(digits) && (digits[0] == '0' ==> n == 0)
  {
    NoLeadingZero(if n < 0 then -n else n);
    hide FormatNat;
    if n < 0 {
      assert FormatInt(n)[1..] == FormatNat(-n);
    }
  }
}
