/** Decimal formatting and parsing as Go's strconv.Itoa and strconv.Atoi do
    them; the provisioner stores resource IDs with the first and reads them
    back with the second. */
module Strconv {
  import opened FreenasTypes

  predicate IsDigit(c: char)
  {
    '0' <= c <= '9'
  }

  function DigitChar(d: nat): (c: char)
    requires d < 10
    ensures IsDigit(c) && c as int - '0' as int == d
  {
    ['0', '1', '2', '3', '4', '5', '6', '7', '8', '9'][d]
  }

  /** The decimal digits of `n`, most significant first, without leading zeros. */
  function Digits(n: nat): (r: string)
    ensures |r| >= 1
    ensures forall k :: 0 <= k < |r| ==> IsDigit(r[k])
    decreases n
  {
    if n < 10 then [DigitChar(n)] else Digits(n / 10) + [DigitChar(n % 10)]
  }

  /** strconv.Itoa: optional minus sign, then the digits of the magnitude. */
  function Itoa(n: int): (r: string)
    ensures |r| >= 1
    ensures n >= 0 ==> IsDigit(r[0])
    ensures n < 0 ==> r[0] == '-'
  {
    if n < 0 then "-" + Digits(-n) else Digits(n)
  }

  /** The value of a non-empty string of decimal digits; None if it is empty
      or holds anything but digits. */
  function DigitsValue(s: string): (r: Option<nat>)
    ensures r.Some? <==> |s| >= 1 && forall k :: 0 <= k < |s| ==> IsDigit(s[k])
    decreases |s|
  {
    if |s| == 0 || !IsDigit(s[|s| - 1]) then None
    else
      var d := s[|s| - 1] as int - '0' as int;
      if |s| == 1 then Some(d)
      else match DigitsValue(s[..|s| - 1])
        case None => None
        case Some(v) => Some(10 * v + d)
  }

  /** strconv.ParseInt(s, 10, 0) before range checking: an optional sign
      followed by at least one digit. */
  function ParseDecimal(s: string): Option<int>
  {
    if |s| >= 1 && (s[0] == '-' || s[0] == '+') then
      match DigitsValue(s[1..])
      case None => None
      case Some(v) =>
        var magnitude: int := v;
        Some(if s[0] == '-' then -magnitude else magnitude)
    else
      match DigitsValue(s)
      case None => None
      case Some(v) => Some(v)
  }

  /** strconv.Atoi with its error discarded, as the provisioner calls it: 0 on
      a syntax error, the nearest 64-bit bound on a range error. */
  function Atoi(s: string): (r: GoInt)
    ensures ParseDecimal(s).None? ==> r == 0
    ensures ParseDecimal(s).Some? && MinGoInt <= ParseDecimal(s).value <= MaxGoInt ==> r == ParseDecimal(s).value
  {
    match ParseDecimal(s)
    case None => 0
    case Some(v) =>
      if v > MaxGoInt then MaxGoInt
      else if v < MinGoInt then MinGoInt
      else v
  }

  /** Reading back the digits of `n` gives `n`. */
  lemma {:induction false} DigitsRoundTrip(n: nat)
    ensures DigitsValue(Digits(n)) == Some(n)
    decreases n
  {
    if n >= 10 {
      DigitsRoundTrip(n / 10);
      var s := Digits(n);
      assert s[..|s| - 1] == Digits(n / 10);
    }
  }

  /** What Itoa writes, Atoi reads back: the ID annotations a provisioned
      volume stores name the same resources when the volume is deleted. */
  lemma AtoiItoa(n: GoInt)
    ensures ParseDecimal(Itoa(n)) == Some(n)
    ensures Atoi(Itoa(n)) == n
  {
    if n < 0 {
      var m: int := -(n as int);
      DigitsRoundTrip(m);
      assert Itoa(n)[1..] == Digits(m);
    } else {
      DigitsRoundTrip(n);
    }
  }
}
