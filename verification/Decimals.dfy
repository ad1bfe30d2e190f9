/** Decimal notation of natural numbers. */
module Decimals {
  function DigitChar(d: nat): char
    requires d < 10
  {
    ('0' as int + d) as char
  }

  function Digits(n: nat): string {
    if n < 10 then [DigitChar(n)] else Digits(n / 10) + [DigitChar(n % 10)]
  }

  function Parse(s: string): int {
    if s == [] then 0 else 10 * Parse(s[..|s| - 1]) + (s[|s| - 1] as int - '0' as int)
  }

  predicate IsDigit(c: char) { '0' <= c <= '9' }

  lemma {:induction false} DigitsAre(n: nat)
    ensures Parse(Digits(n)) == n && Digits(n) != "" && forall c :: c in Digits(n) ==> IsDigit(c)
  {
    if n < 10 {
      assert [DigitChar(n)][..0] == "";
    } else {
      DigitsAre(n / 10);
      assert Digits(n)[..|Digits(n)| - 1] == Digits(n / 10);
    }
  }

  function LeadingDigits(s: string): string {
    if s == "" || !IsDigit(s[0]) then "" else [s[0]] + LeadingDigits(s[1..])
  }

  lemma {:induction false} LeadingDigitsOf(ds: string, tail: string)
    requires (forall c :: c in ds ==> IsDigit(c)) && (tail == "" || !IsDigit(tail[0]))
    ensures LeadingDigits(ds + tail) == ds
  {
    if ds == "" {
      assert ds + tail == tail;
    } else {
      assert ds[0] in ds && (ds + tail)[1..] == ds[1..] + tail;
      LeadingDigitsOf(ds[1..], tail);
    }
  }

  /** A number can be read back from its notation, whatever follows, unless that is another digit. */
  lemma ReadBack(n: nat, tail: string)
    requires tail == "" || !IsDigit(tail[0])
    ensures Parse(LeadingDigits(Digits(n) + tail)) == n
  {
    DigitsAre(n);
    LeadingDigitsOf(Digits(n), tail);
  }
}
