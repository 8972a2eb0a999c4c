/** strconv.Itoa and strconv.Atoi on 64-bit integers. */
module Decimal {
  import opened Wrappers

  const MAX_INT64 := 0x7FFF_FFFF_FFFF_FFFF
  const MIN_INT64 := -0x8000_0000_0000_0000

  type Int64 = i: int | MIN_INT64 <= i <= MAX_INT64

  predicate IsDigit(c: char) {
    '0' <= c <= '9'
  }

  function DigitOf(d: nat): char
    requires d < 10
  {
    (d + '0' as int) as char
  }

  function ValueOf(c: char): nat
    requires IsDigit(c)
  {
    c as int - '0' as int
  }

  function Digits(n: nat): (s: string)
    ensures s != [] && forall i :: 0 <= i < |s| ==> IsDigit(s[i])
  {
    if n < 10 then [DigitOf(n)] else Digits(n / 10) + [DigitOf(n % 10)]
  }

  function Itoa(n: int): string {
    if n < 0 then "-" + Digits(-n) else Digits(n)
  }

  // The value of a non-empty string of digits.
  function ParseDigits(s: string): Option<nat> {
    if s == [] || !IsDigit(s[|s|-1]) then None
    else if |s| == 1 then Some(ValueOf(s[0]))
    else
      match ParseDigits(s[..|s|-1])
      case None => None
      case Some(high) => Some(high * 10 + ValueOf(s[|s|-1]))
  }

  // An optional sign and digits; a value out of range is an error like any other.
  function Atoi(s: string): Option<Int64> {
    if s == [] then None
    else
      var magnitude := ParseDigits(if s[0] == '-' || s[0] == '+' then s[1..] else s);
      if magnitude.None? then None
      else
        var m: int := magnitude.value;
        var value: int := if s[0] == '-' then -m else m;
        if MIN_INT64 <= value <= MAX_INT64 then Some(value) else None
  }

  lemma {:induction false} ParseInvertsDigits(n: nat)
    ensures ParseDigits(Digits(n)) == Some(n)
  {
    if n >= 10 {
      ParseInvertsDigits(n / 10);
      var s := Digits(n);
      assert s[..|s|-1] == Digits(n / 10);
    }
  }

  lemma AtoiOfDigits(s: string, m: nat)
    requires ParseDigits(s) == Some(m) && s != [] && IsDigit(s[0])
    ensures Atoi(s) == if m <= MAX_INT64 then Some(m) else None
    ensures Atoi("-" + s) == if 0 - m >= MIN_INT64 then Some(0 - m) else None
  {
    assert ("-" + s)[1..] == s;
  }

  lemma AtoiInvertsItoa(n: Int64)
    ensures Itoa(n) != "" && Atoi(Itoa(n)) == Some(n)
  {
    var m: int := n;
    var magnitude: nat := if m < 0 then -m else m;
    ParseInvertsDigits(magnitude);
    AtoiOfDigits(Digits(magnitude), magnitude);
  }

  // ---------- what the texts look like ----------

  lemma DigitIs(d: nat)
    requires d < 10
    ensures DigitOf(d) == "0123456789"[d]
  {
  }

  // Printed numbers are decimal, highest digit first.
  lemma ItoaIsDecimal(n: nat, d: nat)
    requires d < 10
    ensures Itoa(d) == ["0123456789"[d]]
    ensures n > 0 ==> Itoa(10 * n + d) == Itoa(n) + ["0123456789"[d]] && Itoa(0 - n) == "-" + Itoa(n)
  {
    DigitIs(d);
    assert (10 * n + d) / 10 == n && (10 * n + d) % 10 == d;
  }

  lemma {:induction false} StrayCharacter(s: string, i: nat)
    requires i < |s| && !('0' <= s[i] <= '9')
    ensures ParseDigits(s).None?
  {
    if i < |s| - 1 {
      StrayCharacter(s[..|s|-1], i);
    }
  }

  // Anything but digits after an optional sign is not a number.
  lemma NotANumber(s: string, i: nat)
    requires i < |s| && !('0' <= s[i] <= '9') && (i == 0 ==> s[0] != '-' && s[0] != '+')
    ensures Atoi(s).None?
  {
    if s[0] == '-' || s[0] == '+' {
      StrayCharacter(s[1..], i - 1);
    } else {
      StrayCharacter(s, i);
    }
  }
}
