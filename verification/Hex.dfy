/** The loop that prints a SHA-256 digest as lower-case hexadecimal. */
module Hex {
  import opened Bytes
  import opened CStrings

  const DIGEST_LENGTH: nat := 32

  type Digest = d: seq<byte> | |d| == DIGEST_LENGTH witness seq(32, _ => 0)

  function Digit(n: int): char
    requires 0 <= n < 16
  {
    if n < 10 then '0' + (n as char) else 'a' + ((n - 10) as char)
  }

  // One byte, printed with width two and fill '0'.
  function Pair(b: byte): string {
    [Digit(b as int / 16), Digit(b as int % 16)]
  }

  function Print(d: seq<byte>): string {
    if d == [] then "" else Print(d[..|d| - 1]) + Pair(d[|d| - 1])
  }

  method PrintDigest(hash: Digest) returns (text: string)
    ensures text == Print(hash)
    ensures |text| == 64 && NulFree(text)
    ensures forall i :: 0 <= i < 32 ==> ReadsAs(text[2 * i], text[2 * i + 1], hash[i])
  {
    text := "";
    for i := 0 to DIGEST_LENGTH
      invariant text == Print(hash[..i])
    {
      assert hash[..i + 1][..i] == hash[..i];
      text := text + Pair(hash[i]);
    }
    assert hash[..DIGEST_LENGTH] == hash;
    PrintShape(hash);
    PrintReads(hash);
  }

  lemma {:induction false} PrintShape(d: seq<byte>)
    ensures |Print(d)| == 2 * |d|
    ensures NulFree(Print(d))
  {
    if d != [] { PrintShape(d[..|d| - 1]); }
  }

  // The value of a lower-case hexadecimal digit.
  function DigitValue(c: char): int {
    if '0' <= c <= '9' then c as int - '0' as int
    else if 'a' <= c <= 'f' then c as int - 'a' as int + 10
    else -1
  }

  // Two digits that read as a byte in base sixteen.
  predicate ReadsAs(high: char, low: char, b: byte) {
    && 0 <= DigitValue(high) && 0 <= DigitValue(low)
    && 16 * DigitValue(high) + DigitValue(low) == b as int
  }

  lemma PairReads(b: byte)
    ensures ReadsAs(Pair(b)[0], Pair(b)[1], b)
  {
    DigitReads(b as int / 16);
    DigitReads(b as int % 16);
  }

  lemma DigitReads(n: int)
    requires 0 <= n < 16
    ensures DigitValue(Digit(n)) == n
  {
    if n < 10 {
      assert Digit(n) as int == '0' as int + n;
    } else {
      assert Digit(n) as int == 'a' as int + n - 10;
    }
  }

  // Characters 2i and 2i + 1 read as byte i.
  lemma {:induction false} PrintReads(d: seq<byte>)
    ensures |Print(d)| == 2 * |d|
    ensures forall i :: 0 <= i < |d| ==> ReadsAs(Print(d)[2 * i], Print(d)[2 * i + 1], d[i])
  {
    PrintShape(d);
    if d != [] {
      var n := |d| - 1;
      PrintShape(d[..n]);
      PrintReads(d[..n]);
      PairReads(d[n]);
    }
  }

  lemma PairInjective(a: byte, b: byte)
    requires Pair(a) == Pair(b)
    ensures a == b
  {
    var x, y := a as int, b as int;
    DigitInjective(x / 16, y / 16);
    DigitInjective(x % 16, y % 16);
  }

  lemma DigitInjective(m: int, n: int)
    requires 0 <= m < 16 && 0 <= n < 16 && Digit(m) == Digit(n)
    ensures m == n
  {
    if m < 10 {
      assert Digit(m) as int == '0' as int + m;
    } else {
      assert Digit(m) as int == 'a' as int + m - 10;
    }
  }

  // Two digests of any one length that print alike are equal.
  lemma {:induction false} PrintInjective(d: seq<byte>, e: seq<byte>)
    requires Print(d) == Print(e)
    ensures d == e
  {
    PrintShape(d);
    PrintShape(e);
    if d != [] {
      var n := |d| - 1;
      PrintShape(d[..n]);
      PrintShape(e[..n]);
      assert Print(d)[..2 * n] == Print(d[..n]);
      assert Print(e)[..2 * n] == Print(e[..n]);
      assert Print(d)[2 * n..] == Pair(d[n]);
      assert Print(e)[2 * n..] == Pair(e[n]);
      PrintInjective(d[..n], e[..n]);
      PairInjective(d[n], e[n]);
      assert d == d[..n] + [d[n]];
      assert e == e[..n] + [e[n]];
    }
  }
}
