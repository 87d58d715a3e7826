/** Bytes and the little-endian numbers that memcpy moves. */
module Bytes {

  newtype byte = x: int | 0 <= x < 256

  type u8 = n: nat | n < 0x100
  type u16 = n: nat | n < 0x1_0000
  type u32 = n: nat | n < 0x1_0000_0000

  function LittleEndian(v: nat, width: nat): (r: seq<byte>)
    ensures |r| == width
    decreases v, width
  {
    if width == 0 then [] else [(v % 256) as byte] + LittleEndian(v / 256, width - 1)
  }

  function Value(bs: seq<byte>): nat {
    if bs == [] then 0 else bs[0] as int + 256 * Value(bs[1..])
  }

  function Capacity(width: nat): (c: nat)
    ensures c > 0
  {
    if width == 0 then 1 else 256 * Capacity(width - 1)
  }

  lemma {:induction false} ValueOfLittleEndian(v: nat, width: nat)
    requires v < Capacity(width)
    ensures Value(LittleEndian(v, width)) == v
  {
    if width > 0 {
      ValueOfLittleEndian(v / 256, width - 1);
      assert LittleEndian(v, width)[1..] == LittleEndian(v / 256, width - 1);
    }
  }

  lemma {:induction false} LittleEndianOfValue(bs: seq<byte>)
    ensures LittleEndian(Value(bs), |bs|) == bs
    ensures Value(bs) < Capacity(|bs|)
  {
    if bs != [] { LittleEndianOfValue(bs[1..]); }
  }

  // Byte i holds the bits from 8 * i on: the low byte comes first.
  lemma {:induction false} LittleEndianAt(v: nat, width: nat, i: nat)
    requires i < width
    ensures LittleEndian(v, width)[i] as int == (v / Capacity(i)) % 256
  {
    if i > 0 {
      LittleEndianAt(v / 256, width - 1, i - 1);
      DivTwice(v, Capacity(i - 1));
    }
  }

  lemma DivTwice(v: nat, c: nat)
    requires c > 0
    ensures v / (256 * c) == (v / 256) / c
  {
    var q, r := v / 256, v % 256;
    DivMod(q, c);
    var s, t := q / c, q % c;
    Scale(c, s);
    assert v == (256 * c) * s + (256 * t + r);
    QuotientIs(v, 256 * c, s, 256 * t + r);
  }

  lemma DivMod(v: nat, d: nat)
    requires d > 0
    ensures v == d * (v / d) + v % d && v % d < d && 0 <= v / d
  {
  }

  lemma QuotientIs(v: nat, d: nat, s: nat, rest: nat)
    requires d > 0 && rest < d && v == d * s + rest
    ensures v / d == s
  {
    DivMod(v, d);
    if v / d < s {
      Spread(d, v / d, s);
    } else if s < v / d {
      Spread(d, s, v / d);
    }
  }

  lemma {:induction false} Spread(d: nat, a: nat, b: nat)
    requires a < b
    ensures d * a + d <= d * b
    decreases b
  {
    OneMore(d, b - 1);
    if a < b - 1 { Spread(d, a, b - 1); }
  }

  lemma OneMore(d: nat, n: nat)
    ensures d * (n + 1) == d * n + d
  {
  }

  // Reading two adjacent pieces as one number.
  lemma {:induction false} ValueOfConcat(low: seq<byte>, high: seq<byte>)
    ensures Value(low + high) == Value(low) + Capacity(|low|) * Value(high)
  {
    if low == [] {
      assert low + high == high;
    } else {
      ValueOfConcat(low[1..], high);
      assert (low + high)[1..] == low[1..] + high;
      Scale(Capacity(|low| - 1), Value(high));
    }
  }

  lemma Scale(c: nat, v: nat)
    ensures (256 * c) * v == 256 * (c * v)
  {
  }

  lemma Capacities()
    ensures Capacity(1) == 0x100 && Capacity(2) == 0x1_0000 && Capacity(4) == 0x1_0000_0000
  {
    assert Capacity(3) == 256 * Capacity(2);
  }

  // The numbers of the widths that packets use.
  function U8(bs: seq<byte>): u8
    requires |bs| == 1
  {
    LittleEndianOfValue(bs);
    Capacities();
    Value(bs)
  }

  function U16(bs: seq<byte>): u16
    requires |bs| == 2
  {
    LittleEndianOfValue(bs);
    Capacities();
    Value(bs)
  }

  function U32(bs: seq<byte>): u32
    requires |bs| == 4
  {
    LittleEndianOfValue(bs);
    Capacities();
    Value(bs)
  }

  lemma U8Of(v: u8)
    ensures U8(LittleEndian(v, 1)) == v
  {
    Capacities();
    ValueOfLittleEndian(v, 1);
  }

  lemma U16Of(v: u16)
    ensures U16(LittleEndian(v, 2)) == v
  {
    Capacities();
    ValueOfLittleEndian(v, 2);
  }

  lemma U32Of(v: u32)
    ensures U32(LittleEndian(v, 4)) == v
  {
    Capacities();
    ValueOfLittleEndian(v, 4);
  }

  // A 32-bit number is its low half followed by its high half.
  lemma Halves(v: u32)
    ensures LittleEndian(v, 4) == LittleEndian(v % 0x1_0000, 2) + LittleEndian(v / 0x1_0000, 2)
  {
    var low, high := LittleEndian(v % 0x1_0000, 2), LittleEndian(v / 0x1_0000, 2);
    U16Of(v % 0x1_0000);
    U16Of(v / 0x1_0000);
    Capacities();
    ValueOfConcat(low, high);
    LittleEndianOfValue(low + high);
  }

  // Two adjacent halves read as one number.
  lemma FromHalves(low: u16, high: u16)
    ensures U32(LittleEndian(low, 2) + LittleEndian(high, 2)) == low + 0x1_0000 * high
  {
    U16Of(low);
    U16Of(high);
    Capacities();
    ValueOfConcat(LittleEndian(low, 2), LittleEndian(high, 2));
  }
}
