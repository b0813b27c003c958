/** The bit operations of qaoed_LBA on unbounded naturals, and the logical block address that it
    decodes (devices.c). */
module Lba {

  type byte = x: nat | x < 256

  function Pow2(k: nat): (r: nat)
    ensures r >= 1
  {
    if k == 0 then 1 else 2 * Pow2(k - 1)
  }

  function Or(x: nat, y: nat): nat
    decreases x + y
  {
    if x == 0 && y == 0 then 0
    else (if x % 2 == 1 || y % 2 == 1 then 1 else 0) + 2 * Or(x / 2, y / 2)
  }

  function And(x: nat, y: nat): nat
    decreases x + y
  {
    if x == 0 && y == 0 then 0
    else (if x % 2 == 1 && y % 2 == 1 then 1 else 0) + 2 * And(x / 2, y / 2)
  }

  function Shl(x: nat, k: nat): nat
  {
    x * Pow2(k)
  }

  lemma {:induction false} OrZero(y: nat)
    ensures Or(0, y) == y
    decreases y
  {
    if y > 0 {
      OrZero(y / 2);
    }
  }

  /** Or of numbers without a common bit is their sum. */
  lemma {:induction false} OrIsSum(x: nat, z: nat, k: nat)
    requires x < Pow2(k)
    ensures Or(x, Shl(z, k)) == x + Shl(z, k)
    decreases k
  {
    if k == 0 {
      OrZero(z);
    } else {
      var y := Shl(z, k - 1);
      assert Shl(z, k) == 2 * y by {
        assert z * (2 * Pow2(k - 1)) == 2 * (z * Pow2(k - 1));
      }
      OrIsSum(x / 2, z, k - 1);
    }
  }

  lemma {:induction false} AndZero(x: nat)
    ensures And(x, 0) == 0
    decreases x
  {
    if x > 0 {
      AndZero(x / 2);
    }
  }

  lemma HalfMod(x: nat, m: nat)
    requires m >= 1
    ensures x % (2 * m) == x % 2 + 2 * ((x / 2) % m)
  {
    var q, r := (x / 2) / m, (x / 2) % m;
    assert x / 2 == q * m + r;
    assert x == 2 * (q * m + r) + x % 2;
    assert 2 * (q * m) == q * (2 * m);
    var rest := x % 2 + 2 * r;
    assert rest < 2 * m && x == q * (2 * m) + rest;
    ModUnique(x, 2 * m, q, rest);
  }

  lemma ModUnique(x: nat, m: nat, q: nat, r: nat)
    requires m >= 1 && r < m && x == q * m + r
    ensures x % m == r
  {
    var d := x / m - q;
    assert x == (x / m) * m + x % m;
    assert (x / m) * m - q * m == d * m;
    assert d * m == r - x % m;
    assert d >= 1 ==> d * m >= m;
    assert d <= -1 ==> d * m <= 0 - m;
  }

  /** Masking with k one bits is the remainder modulo 2 to the k. */
  lemma {:induction false} AndMask(x: nat, k: nat)
    ensures And(x, Pow2(k) - 1) == x % Pow2(k)
    decreases k
  {
    if k == 0 {
      AndZero(x);
    } else {
      var m := Pow2(k - 1);
      assert (2 * m - 1) / 2 == m - 1 && (2 * m - 1) % 2 == 1;
      AndMask(x / 2, k - 1);
      HalfMod(x, m);
    }
  }

  /** The sum of the bytes, least significant first. */
  function LittleEndian(b: seq<byte>): nat
  {
    if b == [] then 0 else b[0] + 256 * LittleEndian(b[1..])
  }

  lemma {:induction false} Pow2Split(a: nat, b: nat)
    ensures Pow2(a + b) == Pow2(a) * Pow2(b)
    decreases a
  {
    if a > 0 {
      Pow2Split(a - 1, b);
      assert 2 * (Pow2(a - 1) * Pow2(b)) == (2 * Pow2(a - 1)) * Pow2(b);
    }
  }

  lemma PowersUsed()
    ensures Pow2(8) == 256 && Pow2(28) == 0x1000_0000 && Pow2(48) == 0x1_0000_0000_0000
  {
    assert Pow2(4) == 16;
    Pow2Split(4, 4);
    Pow2Split(8, 8);
    Pow2Split(16, 8);
    Pow2Split(24, 4);
    Pow2Split(24, 24);
  }

  lemma {:induction false} LittleEndianBound(b: seq<byte>)
    ensures LittleEndian(b) < Pow2(8 * |b|)
  {
    if b != [] {
      LittleEndianBound(b[1..]);
      PowersUsed();
      Pow2Split(8, 8 * (|b| - 1));
    }
  }

  lemma {:induction false} LittleEndianAppend(b: seq<byte>, x: byte)
    ensures LittleEndian(b + [x]) == LittleEndian(b) + Shl(x, 8 * |b|)
  {
    if b == [] {
      assert b + [x] == [x];
      assert LittleEndian([x][1..]) == 0;
    } else {
      assert (b + [x])[1..] == b[1..] + [x];
      LittleEndianAppend(b[1..], x);
      PowersUsed();
      Pow2Split(8, 8 * (|b| - 1));
      Assemble(b[0], LittleEndian(b[1..]), x, Pow2(8 * (|b| - 1)));
    }
  }

  lemma Assemble(low: nat, high: nat, x: nat, m: nat)
    ensures low + 256 * (high + x * m) == (low + 256 * high) + x * (256 * m)
  {
    assert x * (256 * m) == 256 * (x * m);
  }

  const LBA48_FLAG: nat := 64

  /** The loop of qaoed_LBA. */
  method OrBytes(lba: seq<byte>) returns (ppos: nat)
    ensures ppos == LittleEndian(lba)
  {
    ppos := 0;
    for i := 0 to |lba|
      invariant ppos == LittleEndian(lba[..i])
    {
      OrNextByte(lba, i);
      ppos := Or(ppos, Shl(lba[i], i * 8));
    }
    assert lba[..|lba|] == lba;
  }

  lemma OrNextByte(lba: seq<byte>, i: nat)
    requires i < |lba|
    ensures Or(LittleEndian(lba[..i]), Shl(lba[i], i * 8)) == LittleEndian(lba[..i + 1])
  {
    var low := lba[..i];
    assert 8 * |low| == i * 8;
    LittleEndianBound(low);
    OrIsSum(LittleEndian(low), lba[i], i * 8);
    LittleEndianAppend(low, lba[i]);
    assert lba[..i + 1] == low + [lba[i]];
  }

  /** qaoed_LBA */
  method DecodeLba(lba: seq<byte>, flags: byte) returns (ppos: nat)
    requires |lba| == 6
    ensures ppos == LbaOf(lba, flags)
  {
    ppos := OrBytes(lba);
    PowersUsed();
    LittleEndianBound(lba);
    Lba48Bit(flags);
    if And(flags, LBA48_FLAG) != 0 {
      AndMask(ppos, 48);
      assert ppos % 0x1_0000_0000_0000 == ppos;
      ppos := And(ppos, 0x0000_ffff_ffff_ffff);
    } else {
      AndMask(ppos, 28);
      ppos := And(ppos, 0x0fff_ffff);
    }
  }

  /** The addressed sector: all 48 bits with the LBA48 flag, 28 without. */
  function LbaOf(lba: seq<byte>, flags: byte): nat
  {
    if (flags / 64) % 2 == 1 then LittleEndian(lba) else LittleEndian(lba) % 0x1000_0000
  }

  lemma Lba48Bit(flags: byte)
    ensures And(flags, LBA48_FLAG) != 0 <==> (flags / 64) % 2 == 1
  {
    var f := flags;
    assert And(f / 64, 1) == (f / 64) % 2 by {
      AndMask(f / 64, 1);
    }
    assert And(f / 32, 2) == 2 * And(f / 64, 1) by {
      assert (f / 32) / 2 == f / 64;
    }
    assert And(f / 16, 4) == 2 * And(f / 32, 2) by {
      assert (f / 16) / 2 == f / 32;
    }
    assert And(f / 8, 8) == 2 * And(f / 16, 4) by {
      assert (f / 8) / 2 == f / 16;
    }
    assert And(f / 4, 16) == 2 * And(f / 8, 8) by {
      assert (f / 4) / 2 == f / 8;
    }
    assert And(f / 2, 32) == 2 * And(f / 4, 16) by {
      assert (f / 2) / 2 == f / 4;
    }
  }

  /** How an initiator writes a sector number into the request. */
  function Encode(n: nat, k: nat): (r: seq<byte>)
    ensures |r| == k
  {
    if k == 0 then [] else [n % 256] + Encode(n / 256, k - 1)
  }

  lemma {:induction false} EncodeDecode(n: nat, k: nat)
    requires n < Pow2(8 * k)
    ensures LittleEndian(Encode(n, k)) == n
    decreases k
  {
    if k > 0 {
      PowersUsed();
      Pow2Split(8, 8 * (k - 1));
      DivBound(n, Pow2(8 * (k - 1)));
      EncodeDecode(n / 256, k - 1);
    }
  }

  lemma DivBound(n: nat, m: nat)
    requires n < 256 * m
    ensures n / 256 < m
  {
  }

  lemma {:induction false} DecodeEncode(b: seq<byte>)
    ensures Encode(LittleEndian(b), |b|) == b
  {
    if b != [] {
      var n := LittleEndian(b[1..]);
      assert (b[0] + 256 * n) % 256 == b[0] && (b[0] + 256 * n) / 256 == n;
      DecodeEncode(b[1..]);
      assert b == [b[0]] + b[1..];
    }
  }

  const MAXATALBA: nat := 0x0fff_ffff

  /** The two capacities that qaoed_identify reports: words 60-61 and the 48-bit words. */
  function Capacity28(size: nat): nat
  {
    if size > MAXATALBA then MAXATALBA else size
  }

  /** Every sector below the 28-bit capacity is reached with and without the LBA48 flag, and every one
      below 2 to the 48 with it; the byte offset of any decoded address stays below 2 to the 57. */
  lemma AdvertisedSectorsReachable(size: nat, n: nat, flags: byte)
    requires n < Capacity28(size) || ((flags / 64) % 2 == 1 && n < size && n < 0x1_0000_0000_0000)
    ensures LbaOf(Encode(n, 6), flags) == n
  {
    PowersUsed();
    EncodeDecode(n, 6);
  }

  lemma OffsetBound(lba: seq<byte>, flags: byte)
    requires |lba| == 6
    ensures LbaOf(lba, flags) * 512 < 0x200_0000_0000_0000
  {
    LittleEndianBound(lba);
    PowersUsed();
  }
}
