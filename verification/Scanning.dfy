/** Reading literals and numbers off the front of a text. */
module Scanning {
  import opened Text

  datatype Parsed<T> = Fail | Parsed(value: T, rest: string)

  predicate IsDigit(c: char) {
    '0' <= c <= '9'
  }

  lemma DigitsAre(c: char)
    ensures IsDigit(c) <==> c in "0123456789"
  {
  }

  function ReadDigits(s: string, acc: nat): Parsed<nat> {
    if s != "" && IsDigit(s[0]) then ReadDigits(s[1..], acc * 10 + (s[0] as int - '0' as int)) else Parsed(acc, s)
  }

  function ReadNumber(s: string): Parsed<nat> {
    if s != "" && IsDigit(s[0]) then ReadDigits(s, 0) else Fail
  }

  /** Consume the literal `lit`. */
  function Skip(s: string, lit: string): Parsed<()> {
    if lit <= s then Parsed((), s[|lit|..]) else Fail
  }

  lemma {:induction false} DigitsReadBack(n: nat, rest: string)
    ensures ReadDigits(Decimal(n) + rest, 0) == ReadDigits(rest, n)
    ensures IsDigit(Decimal(n)[0])
  {
    if n >= 10 {
      var tail := [Digit(n % 10)] + rest;
      assert Decimal(n) + rest == Decimal(n / 10) + tail;
      DigitsReadBack(n / 10, tail);
      assert tail[1..] == rest;
    } else {
      assert (Decimal(n) + rest)[1..] == rest;
    }
  }

  lemma NumberReadsBack(n: nat, rest: string)
    requires rest == "" || !IsDigit(rest[0])
    ensures ReadNumber(Decimal(n) + rest) == Parsed(n, rest)
  {
    DigitsReadBack(n, rest);
    assert (Decimal(n) + rest)[0] == Decimal(n)[0];
  }
}
