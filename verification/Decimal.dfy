// Decimal numbers as Go prints and scans them.
module Decimal {
  import opened ByteStrings

  predicate IsDigit(c: char) { '0' <= c <= '9' }

  function Digit(n: nat): (c: Byte)
    requires n < 10
    ensures IsDigit(c)
  {
    ('0' as int + n) as char
  }

  function Value(c: char): nat
    requires IsDigit(c)
  {
    c as int - '0' as int
  }

  // strconv.Itoa of a number that is not negative.
  function Itoa(n: nat): (s: Bytes)
    ensures s != [] && IsDigit(s[0])
  {
    if n < 10 then [Digit(n)] else Itoa(n / 10) + [Digit(n % 10)]
  }

  // No number but zero starts with a zero.
  lemma {:induction false} ItoaNoLeadingZero(n: nat)
    ensures Itoa(n)[0] == '0' <==> n == 0
  {
    if n >= 10 {
      ItoaNoLeadingZero(n / 10);
    }
  }

  // Reads the leading digits of s as a continuation of acc.
  function LeadingNumber(s: string, acc: nat): nat
  {
    if s != "" && IsDigit(s[0]) then LeadingNumber(s[1..], 10 * acc + Value(s[0])) else acc
  }

  lemma {:induction false} ItoaReads(n: nat, tail: string)
    ensures LeadingNumber(Itoa(n) + tail, 0) == LeadingNumber(tail, n)
  {
    var d := Digit(n % 10);
    assert ([d] + tail)[1..] == tail;
    if n < 10 {
      assert LeadingNumber([d] + tail, 0) == LeadingNumber(tail, n);
    } else {
      assert Itoa(n) + tail == Itoa(n / 10) + ([d] + tail);
      ItoaReads(n / 10, [d] + tail);
    }
  }

  // Whatever follows, so long as it is no digit, the number comes back.
  lemma {:induction false} ItoaRoundTrip(n: nat, tail: string)
    requires tail != "" ==> !IsDigit(tail[0])
    ensures LeadingNumber(Itoa(n) + tail, 0) == n
  {
    ItoaReads(n, tail);
  }
}
