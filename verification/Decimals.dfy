/** Decimal renderings of counters: `{n}` and `{n:07d}`. */
module Decimals {

  function Digit(d: nat): char
    requires d < 10
  {
    ('0' as int + d) as char
  }

  function Digits(n: nat): string {
    if n < 10 then [Digit(n)] else Digits(n / 10) + [Digit(n % 10)]
  }

  function Zeros(k: nat): string {
    seq(k, _ => '0')
  }

  /** Zero-padded on the left to at least `width`. */
  function Padded(n: nat, width: nat): string {
    var digits := Digits(n);
    Zeros(if width > |digits| then width - |digits| else 0) + digits
  }

  /** Reads a rendering back. */
  function Value(s: string): int {
    if s == "" then 0 else 10 * Value(s[..|s| - 1]) + (s[|s| - 1] as int - '0' as int)
  }

  lemma {:induction false} DigitsRoundTrip(n: nat)
    ensures Digits(n) != "" && Value(Digits(n)) == n
    ensures forall c :: c in Digits(n) ==> '0' <= c <= '9'
  {
    if n < 10 {
      assert Value([Digit(n)]) == 10 * Value("") + n;
    } else {
      DigitsRoundTrip(n / 10);
      assert Digits(n)[..|Digits(n)| - 1] == Digits(n / 10);
    }
  }

  /** Renderings have no leading zero, and padded ones no more zeros than the width asks for. */
  lemma PaddedShape(n: nat, width: nat)
    ensures Digits(n)[0] == '0' <==> n == 0
    ensures n == 0 ==> Digits(n) == "0"
    ensures |Padded(n, width)| == if width > |Digits(n)| then width else |Digits(n)|
    ensures Padded(n, width)[|Padded(n, width)| - |Digits(n)|..] == Digits(n)
  {
    NoLeadingZero(n);
  }

  lemma {:induction false} NoLeadingZero(n: nat)
    ensures Digits(n) != "" && (Digits(n)[0] == '0' <==> n == 0)
  {
    if n >= 10 { NoLeadingZero(n / 10); }
  }

  lemma {:induction false} LeadingZeros(k: nat, s: string)
    ensures Value(Zeros(k) + s) == Value(s)
  {
    if s == "" {
      assert Zeros(k) + s == Zeros(k);
      if k > 0 {
        assert Zeros(k)[..k - 1] == Zeros(k - 1);
        LeadingZeros(k - 1, "");
        assert Zeros(k - 1) + "" == Zeros(k - 1);
      }
    } else {
      LeadingZeros(k, s[..|s| - 1]);
      assert (Zeros(k) + s)[..k + |s| - 1] == Zeros(k) + s[..|s| - 1];
    }
  }

  lemma PaddedRoundTrip(n: nat, width: nat)
    ensures Value(Padded(n, width)) == n
    ensures forall c :: c in Padded(n, width) ==> '0' <= c <= '9'
  {
    DigitsRoundTrip(n);
    LeadingZeros(|Padded(n, width)| - |Digits(n)|, Digits(n));
  }

  /** Distinct counters render differently behind one prefix. */
  lemma PaddedInjective(prefix: string, a: nat, b: nat, width: nat)
    ensures prefix + Padded(a, width) == prefix + Padded(b, width) <==> a == b
  {
    PaddedRoundTrip(a, width);
    PaddedRoundTrip(b, width);
    assert (prefix + Padded(a, width))[|prefix|..] == Padded(a, width);
    assert (prefix + Padded(b, width))[|prefix|..] == Padded(b, width);
  }

  lemma DigitsInjective(a: nat, b: nat)
    ensures Digits(a) == Digits(b) <==> a == b
  {
    DigitsRoundTrip(a);
    DigitsRoundTrip(b);
  }
}
