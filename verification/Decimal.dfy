/** Decimal text of integers, as strconv.Itoa writes it and strconv.ParseInt reads it. */
module Decimal {
  import opened Text

  datatype Option<+T> = None | Some(value: T)

  const INT32_LIMIT: int := 0x8000_0000
  const INT64_LIMIT: int := 0x8000_0000_0000_0000

  function DigitChar(d: int): (c: char)
    requires 0 <= d < 10
    ensures IsDigit(c) && DigitValue(c) == d
  {
    '0' + d as char
  }

  function DigitValue(c: char): (d: int)
    requires IsDigit(c)
    ensures 0 <= d < 10
  {
    c as int - '0' as int
  }

  function Digits(n: nat): (s: string)
    ensures s != [] && forall c :: c in s ==> IsDigit(c)
  {
    if n < 10 then [DigitChar(n)] else Digits(n / 10) + [DigitChar(n % 10)]
  }

  predicate AllDigits(s: string) {
    forall c :: c in s ==> IsDigit(c)
  }

  /** The number a run of digits spells. */
  function Value(s: string): (n: nat)
    requires AllDigits(s)
  {
    if s == [] then 0
    else
      assert s[|s| - 1] in s && forall c :: c in s[..|s| - 1] ==> c in s;
      10 * Value(s[..|s| - 1]) + DigitValue(s[|s| - 1])
  }

  lemma {:induction false} ValueOfDigits(n: nat)
    ensures Value(Digits(n)) == n
  {
    if n >= 10 {
      ValueOfDigits(n / 10);
      assert Digits(n)[..|Digits(n)| - 1] == Digits(n / 10);
    }
  }

  function Itoa(n: int): string {
    if n < 0 then "-" + Digits(-n) else Digits(n)
  }

  /** strconv.ParseInt in base 10: an optional sign, at least one digit, nothing
      else, and a value in [-limit, limit). */
  function ParseInt(s: string, limit: int): Option<int> {
    var signed := s != [] && (s[0] == '-' || s[0] == '+');
    var digits := if signed then s[1..] else s;
    if digits == [] || !AllDigits(digits) then None
    else
      var v: int := Value(digits);
      var n := if signed && s[0] == '-' then -v else v;
      if -limit <= n < limit then Some(n) else None
  }

  /** Reading back what was written gives the same number, whenever it fits. */
  lemma ParseIntOfItoa(n: int, limit: int)
    requires -limit <= n < limit
    ensures ParseInt(Itoa(n), limit) == Some(n)
  {
    hide Value, Digits;
    ValueOfDigits(if n < 0 then -n else n);
    if n < 0 {
      assert Itoa(n)[1..] == Digits(-n);
    } else {
      assert Itoa(n)[0] in Digits(n);
    }
  }

  lemma ItoaCharacters(n: int)
    ensures Itoa(n) != []
    ensures forall c :: c in Itoa(n) ==> IsDigit(c) || c == '-'
  {
    if n < 0 {
      forall c | c in Itoa(n) ensures IsDigit(c) || c == '-' {
        assert c == '-' || c in Digits(-n);
      }
    }
  }

  function Power10(k: nat): (n: nat)
    ensures n > 0
  {
    if k == 0 then 1 else 10 * Power10(k - 1)
  }
}
