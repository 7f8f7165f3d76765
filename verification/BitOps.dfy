/** Bitwise operators on machine words, bit by bit, and what masks and shifts of whole bytes
    do to the bytes of a word. */
module BitOps {
  import opened Bytes

  type BitOp = f: (bool, bool) -> bool | !f(false, false) witness (p, q) => p && q

  const BOTH: BitOp := (p: bool, q: bool) => p && q
  const EITHER: BitOp := (p: bool, q: bool) => p || q

  function Bit(b: bool): nat {
    if b then 1 else 0
  }

  function Bitwise(f: BitOp, x: nat, y: nat): nat
    decreases x + y
  {
    if x == 0 && y == 0 then 0
    else 2 * Bitwise(f, x / 2, y / 2) + Bit(f(x % 2 == 1, y % 2 == 1))
  }

  function And(x: nat, y: nat): nat {
    Bitwise(BOTH, x, y)
  }

  function Or(x: nat, y: nat): nat {
    Bitwise(EITHER, x, y)
  }

  function Shl(x: nat, n: nat): nat
    decreases n
  {
    if n == 0 then x else Shl(2 * x, n - 1)
  }

  function Shr(x: nat, n: nat): nat
    decreases n
  {
    if n == 0 then x else Shr(x / 2, n - 1)
  }

  /** The complement in a word of `n` bytes. */
  function Not(x: nat, n: nat): nat
    requires x < Pow256(n)
  {
    Pow256(n) - 1 - x
  }

  function Pow2(n: nat): (p: nat)
    ensures p > 0
  {
    if n == 0 then 1 else 2 * Pow2(n - 1)
  }

  lemma BitwiseStep(f: BitOp, x: nat, y: nat)
    ensures Bitwise(f, x, y) == 2 * Bitwise(f, x / 2, y / 2) + Bit(f(x % 2 == 1, y % 2 == 1))
  {
  }

  lemma HalfPlus(a: nat, h: nat)
    ensures (a + 2 * h) / 2 == a / 2 + h && (a + 2 * h) % 2 == a % 2
  {
    assert a + 2 * h == 2 * (a / 2 + h) + a % 2;
  }

  /** One bit more at the low end. */
  lemma BitwiseWidens(f: BitOp, a: nat, b: nat, x: nat, y: nat, rest: nat)
    requires Bitwise(f, a / 2 + x, b / 2 + y) == Bitwise(f, a / 2, b / 2) + rest
    ensures Bitwise(f, a + 2 * x, b + 2 * y) == Bitwise(f, a, b) + 2 * rest
  {
    HalfPlus(a, x);
    HalfPlus(b, y);
    BitwiseStep(f, a + 2 * x, b + 2 * y);
    BitwiseStep(f, a, b);
  }

  lemma {:induction false} ShlDoubles(x: nat, n: nat)
    ensures Shl(2 * x, n) == 2 * Shl(x, n)
    decreases n
  {
    if n > 0 {
      ShlDoubles(2 * x, n - 1);
    }
  }

  lemma ShlUnfolds(x: nat, n: nat)
    requires n > 0
    ensures Shl(x, n) == 2 * Shl(x, n - 1)
  {
    ShlDoubles(x, n - 1);
  }

  lemma HalfBelow(a: nat, n: nat)
    requires n > 0 && a < Pow2(n)
    ensures a / 2 < Pow2(n - 1)
  {
    assert a < 2 * Pow2(n - 1);
  }

  /** The low `n` bits and the bits above them do not mix. */
  lemma {:induction false} BitwiseSplits(f: BitOp, a: nat, b: nat, x: nat, y: nat, n: nat)
    requires a < Pow2(n) && b < Pow2(n)
    ensures Bitwise(f, a + Shl(x, n), b + Shl(y, n)) == Bitwise(f, a, b) + Shl(Bitwise(f, x, y), n)
    decreases n
  {
    if n == 0 {
      assert a == 0 && b == 0;
    } else {
      var rest := Bitwise(f, x, y);
      HalfBelow(a, n);
      HalfBelow(b, n);
      BitwiseSplits(f, a / 2, b / 2, x, y, n - 1);
      BitwiseWidens(f, a, b, Shl(x, n - 1), Shl(y, n - 1), Shl(rest, n - 1));
      ShlUnfolds(x, n);
      ShlUnfolds(y, n);
      ShlUnfolds(rest, n);
    }
  }

  lemma BytesSplit(f: BitOp, a: nat, b: nat, x: nat, y: nat)
    requires a < 256 && b < 256
    ensures Bitwise(f, a + 256 * x, b + 256 * y) == Bitwise(f, a, b) + 256 * Bitwise(f, x, y)
  {
    BitwiseSplits(f, a, b, x, y, 8);
    ShlByte(x);
    ShlByte(y);
    ShlByte(Bitwise(f, x, y));
  }

  lemma ShlByte(x: nat)
    ensures Shl(x, 8) == 256 * x && Pow2(8) == 256
  {
  }

  lemma {:induction false} AndNothing(x: nat)
    ensures And(x, 0) == 0
  {
    if x > 0 {
      AndNothing(x / 2);
    }
  }

  lemma {:induction false} OrNothing(x: nat)
    ensures Or(x, 0) == x && Or(0, x) == x
  {
    if x > 0 {
      OrNothing(x / 2);
    }
  }

  lemma {:induction false} AndOnes(x: nat, n: nat)
    requires x < Pow2(n)
    ensures And(x, Pow2(n) - 1) == x
    decreases n
  {
    if n > 0 {
      BitwiseStep(BOTH, x, Pow2(n) - 1);
      assert (Pow2(n) - 1) / 2 == Pow2(n - 1) - 1 && (Pow2(n) - 1) % 2 == 1;
      AndOnes(x / 2, n - 1);
    }
  }

  lemma Pow2Byte(m: nat)
    ensures Pow2(m + 8) == 256 * Pow2(m)
  {
    assert Pow2(m + 2) == 2 * Pow2(m + 1) == 4 * Pow2(m);
    assert Pow2(m + 4) == 2 * Pow2(m + 3) == 4 * Pow2(m + 2);
    assert Pow2(m + 6) == 2 * Pow2(m + 5) == 4 * Pow2(m + 4);
    assert Pow2(m + 8) == 2 * Pow2(m + 7) == 4 * Pow2(m + 6);
  }

  lemma {:induction false} PowersAgree(n: nat)
    ensures Pow2(8 * n) == Pow256(n)
  {
    if n > 0 {
      PowersAgree(n - 1);
      Pow2Byte(8 * (n - 1));
    }
  }

  lemma AndAllBytes(x: nat, n: nat)
    requires x < Pow256(n)
    ensures And(x, Pow256(n) - 1) == x
  {
    PowersAgree(n);
    AndOnes(x, 8 * n);
  }

  lemma {:induction false} ShiftsAdd(v: nat, m: nat, n: nat)
    ensures Shr(v, m + n) == Shr(Shr(v, m), n) && Shl(v, m + n) == Shl(Shl(v, m), n)
    decreases m
  {
    if m > 0 {
      ShiftsAdd(v / 2, m - 1, n);
      ShiftsAdd(2 * v, m - 1, n);
    }
  }

  lemma ShiftsByByte(v: nat, k: nat)
    ensures Shr(v, 8 * (k + 1)) == Shr(v / 256, 8 * k)
    ensures Shl(v, 8 * (k + 1)) == Shl(256 * v, 8 * k)
  {
    ShiftsAdd(v, 8, 8 * k);
    assert Shr(v, 8) == v / 256 && Shl(v, 8) == 256 * v;
  }

  lemma {:induction false} ShlScales(v: nat, n: nat)
    ensures Shl(256 * v, n) == 256 * Shl(v, n)
    decreases n
  {
    if n > 0 {
      assert 2 * (256 * v) == 256 * (2 * v);
      ShlScales(2 * v, n - 1);
    }
  }

  /** Shifting right by whole bytes and masking selects a byte. */
  lemma {:induction false} MaskedShiftIsByteAt(v: nat, k: nat)
    ensures And(Shr(v, 8 * k), 0xFF) == ByteAt(v, k)
    decreases k
  {
    if k == 0 {
      BytesSplit(BOTH, v % 256, 255, v / 256, 0);
      AndNothing(v / 256);
      assert Pow256(1) == 256;
      AndAllBytes(v % 256, 1);
    } else {
      ShiftsByByte(v, k - 1);
      MaskedShiftIsByteAt(v / 256, k - 1);
    }
  }

  lemma {:induction false} ShiftedByteFits(b: byte, k: nat, n: nat)
    requires k < n
    ensures Shl(b, 8 * k) < Pow256(n)
    decreases k
  {
    if k > 0 {
      ShiftsByByte(b, k - 1);
      ShlScales(b, 8 * (k - 1));
      ShiftedByteFits(b, k - 1, n - 1);
    }
  }

  /** Masking a byte out of a word and or-ing a shifted byte in replaces that byte. */
  lemma {:induction false} MaskedOrIsSetByte(v: nat, k: nat, b: byte, n: nat)
    requires k < n && v < Pow256(n)
    ensures Shl(0xFF, 8 * k) < Pow256(n)
    ensures Or(And(v, Not(Shl(0xFF, 8 * k), n)), Shl(b, 8 * k)) == SetByte(v, k, b)
    decreases k
  {
    ShiftedByteFits(0xFF, k, n);
    if k == 0 {
      MaskedOrLowByte(v, b, n);
    } else {
      MaskedOrIsSetByte(v / 256, k - 1, b, n - 1);
      ShiftsByByte(0xFF, k - 1);
      ShlScales(0xFF, 8 * (k - 1));
      ShiftsByByte(b, k - 1);
      ShlScales(b, 8 * (k - 1));
      MaskedOrHighBytes(v, Shl(0xFF, 8 * (k - 1)), Shl(b, 8 * (k - 1)), n);
    }
  }

  lemma AndKeepsLowByte(low: byte, x: nat, y: nat)
    ensures And(low + 256 * x, 255 + 256 * y) == low + 256 * And(x, y)
  {
    BytesSplit(BOTH, low, 255, x, y);
    assert Pow256(1) == 256;
    AndAllBytes(low, 1);
  }

  lemma AndClearsLowByte(low: byte, x: nat, y: nat)
    ensures And(low + 256 * x, 256 * y) == 256 * And(x, y)
  {
    BytesSplit(BOTH, low, 0, x, y);
    AndNothing(low);
  }

  lemma OrFillsLowByte(b: byte, x: nat)
    ensures Or(256 * x, b) == b + 256 * x
  {
    BytesSplit(EITHER, 0, b, x, 0);
    OrNothing(b);
    OrNothing(x);
  }

  lemma OrKeepsLowByte(low: byte, x: nat, y: nat)
    ensures Or(low + 256 * x, 256 * y) == low + 256 * Or(x, y)
  {
    BytesSplit(EITHER, low, 0, x, y);
    OrNothing(low);
  }

  lemma NotByBytes(x: nat, n: nat)
    requires n > 0 && x < Pow256(n - 1)
    ensures 256 * x < Pow256(n) && Not(256 * x, n) == 255 + 256 * Not(x, n - 1)
    ensures 255 < Pow256(n) && Not(255, n) == 256 * (Pow256(n - 1) - 1)
  {
  }

  lemma MaskedOrLowByte(v: nat, b: byte, n: nat)
    requires n > 0 && v < Pow256(n)
    ensures 0xFF < Pow256(n) && Or(And(v, Not(0xFF, n)), b) == SetByte(v, 0, b)
  {
    var low, high := v % 256, v / 256;
    NotByBytes(high, n);
    AndClearsLowByte(low, high, Pow256(n - 1) - 1);
    AndAllBytes(high, n - 1);
    OrFillsLowByte(b, high);
  }

  lemma MaskedOrHighBytes(v: nat, ones: nat, s: nat, n: nat)
    requires n > 0 && v < Pow256(n) && ones < Pow256(n - 1)
    ensures 256 * ones < Pow256(n)
    ensures Or(And(v, Not(256 * ones, n)), 256 * s)
         == v % 256 + 256 * Or(And(v / 256, Not(ones, n - 1)), s)
  {
    var low, high := v % 256, v / 256;
    NotByBytes(ones, n);
    AndKeepsLowByte(low, high, Not(ones, n - 1));
    OrKeepsLowByte(low, And(high, Not(ones, n - 1)), s);
  }
}
