/** Decimal numbers: `to_number` for unsigned types, and `std::to_string`. */
module Numbers {
  import opened Text

  const TWO_32: nat := 0x1_0000_0000
  const TWO_64: nat := 0x1_0000_0000_0000_0000

  predicate IsDigit(c: char) {
    '0' <= c <= '9'
  }

  predicate AllDigits(s: string) {
    forall i :: 0 <= i < |s| ==> IsDigit(s[i])
  }

  function Digit(d: nat): char
    requires d < 10
  {
    ('0' as int + d) as char
  }

  function Value(s: string): nat
    requires AllDigits(s)
  {
    if s == [] then 0
    else Value(s[..|s| - 1]) * 10 + (s[|s| - 1] as int - '0' as int)
  }

  /**
   The number that all of `s` spells, if it is below `limit` (2^32 or 2^64 for the types the
   server parses). No sign and no blank is accepted; leading zeros are.
   */
  function ToNumber(s: string, limit: nat): Option<nat> {
    if s != [] && AllDigits(s) && Value(s) < limit then Some(Value(s)) else None
  }

  function Decimal(n: nat): (s: string)
    ensures s != [] && AllDigits(s)
    ensures Value(s) == n
    ensures s[0] == '0' ==> n == 0
  {
    if n < 10 then [Digit(n)]
    else
      var s := Decimal(n / 10) + [Digit(n % 10)];
      assert s[..|s| - 1] == Decimal(n / 10);
      s
  }

  /** Parsing a printed number gives it back exactly when it fits the type. */
  lemma DecimalRoundTrip(n: nat, limit: nat)
    ensures ToNumber(Decimal(n), limit) == if n < limit then Some(n) else None
  {
  }
}
