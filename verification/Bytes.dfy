/** Machine integers as they sit in memory: little-endian bytes and two's complement. */
module Bytes {

  type byte = x: int | 0 <= x < 256
  type uint32 = x: int | 0 <= x < 0x1_0000_0000
  type int64 = x: int | -0x8000_0000_0000_0000 <= x < 0x8000_0000_0000_0000

  const TWO_32 := 0x1_0000_0000
  const TWO_64 := 0x1_0000_0000_0000_0000

  function Pow256(n: nat): (p: nat)
    ensures p > 0
  {
    if n == 0 then 1 else 256 * Pow256(n - 1)
  }

  lemma LowByte(low: byte, high: nat)
    ensures (low + 256 * high) % 256 == low && (low + 256 * high) / 256 == high
  {
  }

  /** The number whose little-endian bytes are `b` (memcpy of `b` into a zeroed integer). */
  function FromLE(b: seq<byte>): (v: nat)
    ensures v < Pow256(|b|)
  {
    if b == [] then 0 else b[0] + 256 * FromLE(b[1..])
  }

  /** The first `n` little-endian bytes of `v` (memcpy of `n` bytes out of an integer). */
  function ToLE(v: nat, n: nat): (b: seq<byte>)
    ensures |b| == n
  {
    if n == 0 then [] else [v % 256] + ToLE(v / 256, n - 1)
  }

  /** The two's complement bit pattern of a signed 64-bit value. */
  function Unsigned(v: int64): (u: nat)
    ensures u < TWO_64
  {
    if v < 0 then v + TWO_64 else v
  }

  /** The signed 64-bit value of a bit pattern; wider numbers lose their high bits. */
  function Signed(u: int): (v: int64)
    ensures 0 <= u < TWO_64 ==> Unsigned(v) == u
    ensures -0x8000_0000_0000_0000 <= u < 0x8000_0000_0000_0000 ==> v == u
  {
    var m := u % TWO_64;
    if m < 0x8000_0000_0000_0000 then m else m - TWO_64
  }

  function Zeros(n: nat): (z: seq<byte>)
    ensures |z| == n && forall i :: 0 <= i < n ==> z[i] == 0
  {
    seq(n, _ => 0)
  }

  lemma {:induction false} BytesOfNumber(b: seq<byte>, n: nat)
    requires |b| <= n
    ensures ToLE(FromLE(b), n) == b + Zeros(n - |b|)
  {
    if b == [] {
      BytesOfZero(n);
    } else {
      LowByte(b[0], FromLE(b[1..]));
      BytesOfNumber(b[1..], n - 1);
      assert ToLE(FromLE(b), n) == [b[0]] + (b[1..] + Zeros(n - |b|));
    }
  }

  lemma {:induction false} BytesOfZero(n: nat)
    ensures ToLE(0, n) == Zeros(n)
  {
    if n > 0 {
      BytesOfZero(n - 1);
    }
  }

  lemma {:induction false} NumberOfBytes(v: nat, n: nat)
    requires v < Pow256(n)
    ensures FromLE(ToLE(v, n)) == v
  {
    if n > 0 {
      NumberOfBytes(v / 256, n - 1);
      assert ToLE(v, n)[1..] == ToLE(v / 256, n - 1);
    }
  }

  lemma {:induction false} FewerBytes(v: nat, m: nat, n: nat)
    requires m <= n
    ensures ToLE(v, m) == ToLE(v, n)[..m]
  {
    if m > 0 {
      FewerBytes(v / 256, m - 1, n - 1);
      assert ToLE(v, n)[..m] == [v % 256] + ToLE(v / 256, n - 1)[..m - 1];
    }
  }

  lemma Pow256Of8()
    ensures Pow256(8) == TWO_64 && Pow256(4) == TWO_32
  {
    assert Pow256(4) == 256 * 256 * 256 * 256 * Pow256(0);
    assert Pow256(8) == 256 * 256 * 256 * 256 * Pow256(4);
  }

  /** What a 32-bit clock shows of the time between two moments. */
  lemma ClockDifference(start: nat, now: nat)
    requires start <= now
    ensures var seen := (now % TWO_32 - start % TWO_32) % TWO_32;
            seen <= now - start && (now < start + TWO_32 ==> seen == now - start)
  {
    var turns := now / TWO_32 - start / TWO_32;
    var rest := now % TWO_32 - start % TWO_32;
    assert now - start == TWO_32 * turns + rest;
    assert rest % TWO_32 == if rest < 0 then rest + TWO_32 else rest;
  }

  /** The 8 bytes of a 64-bit slot. */
  function SlotBytes(v: int64): (b: seq<byte>)
    ensures |b| == 8
  {
    ToLE(Unsigned(v), 8)
  }

  function FromSlotBytes(b: seq<byte>): int64
    requires |b| <= 8
  {
    Signed(FromLE(b))
  }

  /** Bytes packed into a slot come back as its low bytes, the rest zero. */
  lemma SlotHoldsBytes(b: seq<byte>)
    requires |b| <= 8
    ensures SlotBytes(FromSlotBytes(b)) == b + Zeros(8 - |b|)
  {
    Pow256Of8();
    PowMonotone(|b|, 8);
    BytesOfNumber(b, 8);
  }

  lemma {:induction false} PowMonotone(m: nat, n: nat)
    requires m <= n
    ensures Pow256(m) <= Pow256(n)
    decreases n
  {
    if m < n {
      PowMonotone(m, n - 1);
    }
  }

  /** Loading the first m of the n bytes stored in a slot gives the first m bytes. */
  lemma LoadAfterStore(b: seq<byte>, m: nat)
    requires m <= |b| <= 8
    ensures ToLE(Unsigned(FromSlotBytes(b)), m) == b[..m]
  {
    SlotHoldsBytes(b);
    FewerBytes(Unsigned(FromSlotBytes(b)), m, 8);
  }

  /** The byte selected by a right shift of 8*k bits and a mask of 0xFF. */
  function ByteAt(v: nat, k: nat): byte {
    if k == 0 then v % 256 else ByteAt(v / 256, k - 1)
  }

  /** Byte k masked out and `b` shifted in: (v & ~(0xFF << 8k)) | (b << 8k). */
  function SetByte(v: nat, k: nat, b: byte): nat {
    if k == 0 then v - v % 256 + b else v % 256 + 256 * SetByte(v / 256, k - 1, b)
  }

  lemma {:induction false} ByteAtIsByte(v: nat, k: nat, n: nat)
    requires k < n
    ensures ByteAt(v, k) == ToLE(v, n)[k]
  {
    if k > 0 {
      ByteAtIsByte(v / 256, k - 1, n - 1);
    }
  }

  lemma {:induction false} SetByteReplacesOne(v: nat, k: nat, b: byte, n: nat)
    requires k < n
    ensures ToLE(SetByte(v, k, b), n) == ToLE(v, n)[k := b]
  {
    if k == 0 {
      LowByte(b, v / 256);
      assert SetByte(v, 0, b) == b + 256 * (v / 256);
    } else {
      LowByte(v % 256, SetByte(v / 256, k - 1, b));
      SetByteReplacesOne(v / 256, k - 1, b, n - 1);
    }
  }

  lemma {:induction false} SetByteStaysSmall(v: nat, k: nat, b: byte, n: nat)
    requires k < n && v < Pow256(n)
    ensures SetByte(v, k, b) < Pow256(n)
  {
    var p := Pow256(n - 1);
    HighBytesBelow(v, p);
    if k == 0 {
      assert v == v % 256 + 256 * (v / 256);
      LowByteBelow(b, v / 256, p);
    } else {
      SetByteStaysSmall(v / 256, k - 1, b, n - 1);
      LowByteBelow(v % 256, SetByte(v / 256, k - 1, b), p);
    }
  }

  lemma HighBytesBelow(v: nat, p: nat)
    requires v < 256 * p
    ensures v / 256 < p
  {
  }

  lemma LowByteBelow(low: byte, high: nat, p: nat)
    requires high < p
    ensures low + 256 * high < 256 * p
  {
    assert 256 * (high + 1) <= 256 * p;
  }
}
