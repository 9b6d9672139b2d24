/** The string helpers of Go's `strings` package that the models share. */
module Text {

  /** `unicode.IsSpace`. */
  predicate IsSpace(c: char) {
    var n := c as int;
    || 0x09 <= n <= 0x0D || n == 0x20 || n == 0x85 || n == 0xA0 || n == 0x1680
    || 0x2000 <= n <= 0x200A || n == 0x2028 || n == 0x2029 || n == 0x202F || n == 0x205F || n == 0x3000
  }

  function TrimLeft(s: string): string {
    if s != "" && IsSpace(s[0]) then TrimLeft(s[1..]) else s
  }

  function TrimRight(s: string): string {
    if s != "" && IsSpace(s[|s| - 1]) then TrimRight(s[..|s| - 1]) else s
  }

  /** What is trimmed on the left is blank, and what is left does not begin with a blank. */
  lemma {:induction false} TrimLeftExact(s: string)
    ensures var t := TrimLeft(s);
      |t| <= |s| && s[|s| - |t|..] == t && Blank(s[..|s| - |t|]) && (t == "" || !IsSpace(t[0]))
  {
    if s != "" && IsSpace(s[0]) {
      TrimLeftExact(s[1..]);
      var n := |s| - |TrimLeft(s)|;
      assert s[..n] == [s[0]] + s[1..][..n - 1];
    }
  }

  /** And so on the right. */
  lemma {:induction false} TrimRightExact(s: string)
    ensures var t := TrimRight(s);
      t <= s && Blank(s[|t|..]) && (t == "" || !IsSpace(t[|t| - 1]))
  {
    if s != "" && IsSpace(s[|s| - 1]) {
      var init := s[..|s| - 1];
      TrimRightExact(init);
      assert s == init + [s[|s| - 1]];
      var t := TrimRight(s);
      assert s[|t|..] == init[|t|..] + [s[|s| - 1]];
    }
  }

  /** `strings.TrimSpace`. */
  function TrimSpace(s: string): string {
    TrimRight(TrimLeft(s))
  }

  /** `strings.TrimSpace(s) == ""`. */
  predicate Blank(s: string) {
    forall c <- s :: IsSpace(c)
  }

  lemma {:induction false} TrimLeftBefore(x: string, y: string)
    requires y != "" && !IsSpace(y[0])
    ensures TrimLeft(x + y) == TrimLeft(x) + y
  {
    if x != "" {
      assert (x + y)[1..] == x[1..] + y;
      TrimLeftBefore(x[1..], y);
    } else {
      assert x + y == y;
    }
  }

  lemma {:induction false} TrimRightAfter(x: string, y: string)
    requires x != "" && !IsSpace(x[|x| - 1])
    ensures TrimRight(x + y) == x + TrimRight(y)
  {
    if y != "" {
      var n := |y| - 1;
      assert (x + y)[..|x + y| - 1] == x + y[..n];
      TrimRightAfter(x, y[..n]);
    } else {
      assert x + y == x;
    }
  }

  lemma BlankTrimsToNothing(s: string)
    ensures Blank(s) <==> TrimSpace(s) == ""
  {
    var t := TrimLeft(s);
    TrimLeftExact(s);
    TrimRightExact(t);
    hide TrimLeft, TrimRight, IsSpace;
    if t != "" {
      var r := TrimRight(t);
      assert t[0] == s[|s| - |t|] && t == r + t[|r|..];
      assert t[0] in r + t[|r|..] && t[0] !in t[|r|..];
    } else {
      assert s[..|s|] == s;
    }
  }

  /** `strings.Join`. */
  function Join(parts: seq<string>, sep: string): string {
    if |parts| == 0 then ""
    else if |parts| == 1 then parts[0]
    else parts[0] + sep + Join(parts[1..], sep)
  }

  predicate Free(s: string, c: char) {
    c !in s
  }

  lemma HeadNotShorter(a: string, x: string, b: string, y: string, c: char)
    requires Free(b, c) && a + [c] + x == b + [c] + y
    ensures |b| <= |a|
  {
    assert (a + [c] + x)[|a|] == c;
    assert forall k :: 0 <= k < |b| ==> (b + [c] + y)[k] == b[k];
  }

  /** A separator that does not occur in the heads determines where they end. */
  lemma HeadsAgree(a: string, x: string, b: string, y: string, c: char)
    requires Free(a, c) && Free(b, c)
    requires a + [c] + x == b + [c] + y
    ensures a == b && x == y
  {
    HeadNotShorter(a, x, b, y, c);
    HeadNotShorter(b, y, a, x, c);
    assert a == (a + [c] + x)[..|a|] && b == (b + [c] + y)[..|b|];
    assert x == (a + [c] + x)[|a| + 1..] && y == (b + [c] + y)[|b| + 1..];
  }

  function Digit(d: nat): char
    requires d < 10
  {
    "0123456789"[d]
  }

  /** `%d`. */
  function Decimal(n: nat): string {
    if n < 10 then [Digit(n)] else Decimal(n / 10) + [Digit(n % 10)]
  }

  lemma DigitIs(d: nat)
    requires d < 10
    ensures Digit(d) as int == '0' as int + d
  {
    if d < 5 {
      assert d == 0 || d == 1 || d == 2 || d == 3 || d == 4;
    } else {
      assert d == 5 || d == 6 || d == 7 || d == 8 || d == 9;
    }
  }

  lemma {:induction false} DecimalInjective(m: nat, n: nat)
    requires Decimal(m) == Decimal(n)
    ensures m == n
  {
    DigitIs(m % 10);
    DigitIs(n % 10);
    hide Digit;
    var j := |Decimal(m)| - 1;
    assert Decimal(m)[j] == Digit(m % 10) && Decimal(n)[j] == Digit(n % 10);
    DecimalLength(m);
    DecimalLength(n);
    if m >= 10 {
      assert Decimal(m / 10) == Decimal(m)[..j] && Decimal(n / 10) == Decimal(n)[..j];
      DecimalInjective(m / 10, n / 10);
    }
  }

  lemma DecimalLength(n: nat)
    ensures |Decimal(n)| == 1 <==> n < 10
    ensures Decimal(n) != []
  {
  }

  function LowerChar(c: char): char {
    if 'A' <= c <= 'Z' then c - 'A' + 'a' else c
  }

  /** `strings.ToLower`, on ASCII letters. */
  function Lower(s: string): string {
    seq(|s|, i requires 0 <= i < |s| => LowerChar(s[i]))
  }

  /** A capital letter becomes the small one at its place in the alphabet; any other character stays. */
  lemma LowerReads(c: char)
    ensures 'A' <= c <= 'Z' ==> LowerChar(c) == "abcdefghijklmnopqrstuvwxyz"[c as int - 65]
    ensures !('A' <= c <= 'Z') ==> LowerChar(c) == c
  {
  }

  /** The code points that `unicode.IsSpace` accepts. */
  lemma SpacesAre(c: char)
    ensures IsSpace(c) <==> c as int in {
      9, 10, 11, 12, 13, 32, 0x85, 0xA0, 0x1680, 0x2000, 0x2001, 0x2002, 0x2003, 0x2004, 0x2005, 0x2006, 0x2007, 0x2008, 0x2009,
      0x200A, 0x2028, 0x2029, 0x202F, 0x205F, 0x3000}
  {
  }
}
