/** Words as sets of bits, and the bit search of src/kservice.c. */
module Bitmap {

  type Word = bv32

  /** 1 << n */
  function Mask(n: nat): Word
    requires n < 32
  {
    if n == 0 then 1 else Mask(n - 1) << 1
  }

  // The word operations, by name.

  function And(a: Word, b: Word): Word { a & b }

  function Or(a: Word, b: Word): Word { a | b }

  /** a & ~b */
  function AndNot(a: Word, b: Word): Word { a & !b }

  predicate Bit(w: Word, n: nat)
    requires n < 32
  {
    And(w, Mask(n)) != 0
  }

  lemma MaskValues()
    ensures Mask(0) == 0x1 && Mask(1) == 0x2 && Mask(2) == 0x4 && Mask(3) == 0x8
    ensures Mask(4) == 0x10 && Mask(5) == 0x20 && Mask(6) == 0x40 && Mask(7) == 0x80
    ensures Mask(8) == 0x100 && Mask(9) == 0x200 && Mask(10) == 0x400 && Mask(11) == 0x800
    ensures Mask(12) == 0x1000 && Mask(13) == 0x2000 && Mask(14) == 0x4000 && Mask(15) == 0x8000
    ensures Mask(16) == 0x1_0000 && Mask(17) == 0x2_0000 && Mask(18) == 0x4_0000 && Mask(19) == 0x8_0000
    ensures Mask(20) == 0x10_0000 && Mask(21) == 0x20_0000 && Mask(22) == 0x40_0000 && Mask(23) == 0x80_0000
    ensures Mask(24) == 0x100_0000 && Mask(25) == 0x200_0000 && Mask(26) == 0x400_0000 && Mask(27) == 0x800_0000
    ensures Mask(28) == 0x1000_0000 && Mask(29) == 0x2000_0000 && Mask(30) == 0x4000_0000 && Mask(31) == 0x8000_0000
  {
  }

  lemma MaskNonzero(n: nat)
    requires n < 32
    ensures Mask(n) != 0
  {
    MaskValues();
  }

  /** Masks of different bits have no bit in common. */
  lemma {:induction false} MaskBelow(n: nat, m: nat)
    requires n < m < 32
    ensures Mask(n) & Mask(m) == 0
  {
    if n == 0 {
      LowBitClear(Mask(m - 1));
    } else {
      MaskBelow(n - 1, m - 1);
      ShiftApart(Mask(n - 1), Mask(m - 1));
    }
  }

  lemma LowBitClear(a: Word)
    ensures 1 & (a << 1) == 0
  {
  }

  lemma ShiftApart(a: Word, b: Word)
    requires a & b == 0
    ensures (a << 1) & (b << 1) == 0
  {
  }

  lemma OrBits(w: Word, a: Word, b: Word)
    requires And(a, b) == 0
    ensures And(Or(w, a), b) == And(w, b)
  {
  }

  lemma AndNotBits(w: Word, a: Word, b: Word)
    requires And(a, b) == 0
    ensures And(AndNot(w, a), b) == And(w, b)
  {
  }

  lemma OwnBits(w: Word, a: Word)
    ensures And(Or(w, a), a) == a && And(AndNot(w, a), a) == 0
  {
  }

  lemma MasksApart(n: nat, m: nat)
    requires n < 32 && m < 32 && n != m
    ensures And(Mask(n), Mask(m)) == 0
  {
    if n < m {
      MaskBelow(n, m);
    } else {
      MaskBelow(m, n);
      Commutes(Mask(m), Mask(n));
    }
  }

  /** Setting and clearing bit n change bit n and nothing else. */
  lemma SetClear(w: Word, n: nat, m: nat)
    requires n < 32 && m < 32
    ensures Bit(Or(w, Mask(n)), m) <==> n == m || Bit(w, m)
    ensures Bit(AndNot(w, Mask(n)), m) <==> n != m && Bit(w, m)
  {
    hide Mask, And, Or, AndNot;
    if n == m {
      MaskNonzero(n);
      OwnBits(w, Mask(n));
    } else {
      MasksApart(n, m);
      OrBits(w, Mask(n), Mask(m));
      AndNotBits(w, Mask(n), Mask(m));
    }
  }

  lemma Commutes(a: Word, b: Word)
    ensures a & b == b & a
  {
  }

  /** A word without bits is 0. */
  lemma NoBits(w: Word)
    ensures w == 0 <==> forall n :: 0 <= n < 32 ==> !Bit(w, n)
  {
    if w != 0 {
      FfsExact(w);
    } else {
      forall n | 0 <= n < 32 ensures !Bit(w, n) {
        ZeroBits(Mask(n));
      }
    }
  }

  lemma ZeroBits(a: Word)
    ensures 0 & a == 0
  {
  }

  // ---------------------------------------------------------------- words as sets

  function Half(a: Word): Word { a >> 1 }

  function Twice(a: Word): Word { a << 1 }

  lemma TwiceAnd(a: Word, m: Word)
    ensures And(a, Twice(m)) == Twice(And(Half(a), m)) && Twice(0) == 0
  {
  }

  lemma LowBit(a: Word)
    ensures And(a, 1) == 0 || And(a, 1) == 1
  {
  }

  lemma MaskStep(n: nat)
    requires n < 32
    ensures Mask(n) == if n == 0 then 1 else Twice(Mask(n - 1))
  {
  }

  lemma {:induction false} MaskWhole(a: Word, n: nat)
    requires n < 32
    ensures And(a, Mask(n)) == 0 || And(a, Mask(n)) == Mask(n)
    decreases n
  {
    hide And, Mask, Half, Twice;
    MaskStep(n);
    if n == 0 {
      LowBit(a);
    } else {
      MaskWhole(Half(a), n - 1);
      TwiceAnd(a, Mask(n - 1));
    }
  }

  lemma AndSplits(a: Word, b: Word, m: Word)
    ensures And(And(a, b), m) == And(And(a, m), And(b, m))
  {
  }

  lemma OrSplits(a: Word, b: Word, m: Word)
    ensures And(Or(a, b), m) == Or(And(a, m), And(b, m))
  {
  }

  lemma AndNotSplits(a: Word, b: Word, m: Word)
    ensures And(AndNot(a, b), m) == AndNot(And(a, m), And(b, m))
  {
  }

  lemma WholeOrNothing(m: Word)
    ensures And(m, m) == m && And(0, m) == 0 && And(m, 0) == 0 && And(0, 0) == 0
    ensures Or(m, m) == m && Or(0, m) == m && Or(m, 0) == m && Or(0, 0) == 0
    ensures AndNot(m, m) == 0 && AndNot(0, m) == 0 && AndNot(m, 0) == m && AndNot(0, 0) == 0
  {
  }

  /** The word operations are intersection, union and difference. */
  lemma WordSets(a: Word, b: Word, n: nat)
    requires n < 32
    ensures Bit(And(a, b), n) <==> Bit(a, n) && Bit(b, n)
    ensures Bit(Or(a, b), n) <==> Bit(a, n) || Bit(b, n)
    ensures Bit(AndNot(a, b), n) <==> Bit(a, n) && !Bit(b, n)
  {
    hide And, Or, AndNot, Mask;
    MaskNonzero(n);
    MaskWhole(a, n);
    MaskWhole(b, n);
    AndSplits(a, b, Mask(n));
    OrSplits(a, b, Mask(n));
    AndNotSplits(a, b, Mask(n));
    WholeOrNothing(Mask(n));
  }

  lemma NothingLeft(a: Word, b: Word)
    ensures And(a, b) == a <==> AndNot(a, b) == 0
  {
  }

  /** a & b == a says that the bits of a are among those of b. */
  lemma SubsetBits(a: Word, b: Word)
    ensures And(a, b) == a <==> forall n :: 0 <= n < 32 && Bit(a, n) ==> Bit(b, n)
  {
    hide And, Or, AndNot, Bit;
    NothingLeft(a, b);
    NoBits(AndNot(a, b));
    forall n | 0 <= n < 32 ensures Bit(AndNot(a, b), n) <==> Bit(a, n) && !Bit(b, n) {
      WordSets(a, b, n);
    }
  }

  /** a & b != 0 says that a and b share a bit. */
  lemma MeetBits(a: Word, b: Word)
    ensures And(a, b) != 0 <==> exists n :: 0 <= n < 32 && Bit(a, n) && Bit(b, n)
  {
    hide And, Or, AndNot, Bit;
    NoBits(And(a, b));
    forall n | 0 <= n < 32 ensures Bit(And(a, b), n) <==> Bit(a, n) && Bit(b, n) {
      WordSets(a, b, n);
    }
  }

  // ---------------------------------------------------------------- __rt_ffs

  /** One row of __lowest_bit_bitmap: its first entry, then the fifteen entries all rows share. */
  function TableRow(first: nat, col: Word): nat {
    if col == 0 then first
    else if col == 2 || col == 6 || col == 10 || col == 14 then 1
    else if col == 4 || col == 12 then 2
    else if col == 8 then 3
    else 0
  }

  /** __lowest_bit_bitmap; row r starts with the entry for 0x10 * r */
  function LowestBit(b: Word): nat
    requires b < 0x100
  {
    var row, col := b >> 4, b & 0xf;
    if row == 0 then TableRow(0, col)
    else if row == 2 || row == 6 || row == 10 || row == 14 then TableRow(5, col)
    else if row == 4 || row == 12 then TableRow(6, col)
    else if row == 8 then TableRow(7, col)
    else TableRow(4, col)
  }

  /** __rt_ffs */
  function Ffs(value: Word): nat {
    if value == 0 then 0
    else if value & 0xff != 0 then LowestBit(value & 0xff) + 1
    else if value & 0xff00 != 0 then LowestBit((value & 0xff00) >> 8) + 9
    else if value & 0xff_0000 != 0 then LowestBit((value & 0xff_0000) >> 16) + 17
    else LowestBit((value & 0xff00_0000) >> 24) + 25
  }

  /** The table gives the lowest bit of every byte but 0. */
  lemma LowestBitExact(b: Word)
    requires 0 < b < 0x100
    ensures LowestBit(b) < 8 && Bit(b, LowestBit(b))
    ensures forall m :: 0 <= m < LowestBit(b) ==> !Bit(b, m)
  {
    MaskValues();
  }

  /** Byte j of a word */
  function Byte(value: Word, j: nat): Word
    requires j < 4
  {
    if j == 0 then value & 0xff
    else if j == 1 then (value & 0xff00) >> 8
    else if j == 2 then (value & 0xff_0000) >> 16
    else (value & 0xff00_0000) >> 24
  }

  /** a << 8 * j */
  function Shl(a: Word, j: nat): Word
    requires j < 4
  {
    if j == 0 then a else if j == 1 then a << 8 else if j == 2 then a << 16 else a << 24
  }

  lemma MaskShl(k: nat, j: nat)
    requires k < 8 && j < 4
    ensures Mask(k) < 0x100 && Mask(8 * j + k) == Shl(Mask(k), j)
  {
    MaskValues();
  }

  lemma ByteAnd0(v: Word, a: Word)
    requires a < 0x100
    ensures Shl(And(Byte(v, 0), a), 0) == And(v, Shl(a, 0))
  {
  }

  lemma ByteAnd1(v: Word, a: Word)
    requires a < 0x100
    ensures Shl(And(Byte(v, 1), a), 1) == And(v, Shl(a, 1))
  {
  }

  lemma ByteAnd2(v: Word, a: Word)
    requires a < 0x100
    ensures Shl(And(Byte(v, 2), a), 2) == And(v, Shl(a, 2))
  {
  }

  lemma ByteAnd3(v: Word, a: Word)
    requires a < 0x100
    ensures Shl(And(Byte(v, 3), a), 3) == And(v, Shl(a, 3))
  {
  }

  lemma ByteAndShl(v: Word, j: nat, a: Word)
    requires a < 0x100 && j < 4
    ensures Shl(And(Byte(v, j), a), j) == And(v, Shl(a, j))
  {
    hide Shl, And, Byte;
    if j == 0 {
      ByteAnd0(v, a);
    } else if j == 1 {
      ByteAnd1(v, a);
    } else if j == 2 {
      ByteAnd2(v, a);
    } else {
      ByteAnd3(v, a);
    }
  }

  lemma ByteAndSmall(v: Word, j: nat, a: Word)
    requires a < 0x100 && j < 4
    ensures Byte(v, j) < 0x100 && And(Byte(v, j), a) < 0x100
  {
  }

  lemma ShlZero(b: Word, j: nat)
    requires b < 0x100 && j < 4
    ensures Shl(b, j) == 0 <==> b == 0
  {
  }

  lemma ByteBit(value: Word, j: nat, k: nat)
    requires j < 4 && k < 8
    ensures Byte(value, j) < 0x100 && (Bit(Byte(value, j), k) <==> Bit(value, 8 * j + k))
  {
    hide Mask, And, Byte, Shl;
    MaskShl(k, j);
    var a := Mask(k);
    ByteAndSmall(value, j, a);
    ByteAndShl(value, j, a);
    ShlZero(And(Byte(value, j), a), j);
  }

  lemma LowBytesClear(value: Word, j: nat, m: nat)
    requires j <= 4 && m < 8 * j && forall i :: 0 <= i < j ==> Byte(value, i) == 0
    ensures !Bit(value, m)
  {
    hide Byte, Bit;
    var i := m / 8;
    assert m == 8 * i + m % 8 && Byte(value, i) == 0;
    ByteBit(value, i, m % 8);
    NotInZero(m % 8);
  }

  lemma NotInZero(n: nat)
    requires n < 32
    ensures !Bit(0, n)
  {
    ZeroBits(Mask(n));
  }

  /** The byte the search looks at is the first that is not 0. */
  lemma FfsByte(value: Word) returns (j: nat)
    requires value != 0
    ensures j < 4 && 0 < Byte(value, j) < 0x100 && forall i :: 0 <= i < j ==> Byte(value, i) == 0
    ensures Ffs(value) == LowestBit(Byte(value, j)) + 8 * j + 1
  {
    j := if value & 0xff != 0 then 0 else if value & 0xff00 != 0 then 1 else if value & 0xff_0000 != 0 then 2 else 3;
  }

  /** The result is 0 for 0, and otherwise one more than the number of the lowest set bit. */
  lemma FfsExact(value: Word)
    ensures Ffs(value) == 0 <==> value == 0
    ensures value != 0 ==> 1 <= Ffs(value) <= 32 && Bit(value, Ffs(value) - 1)
    ensures forall m :: 0 <= m < Ffs(value) - 1 ==> !Bit(value, m)
  {
    if value != 0 {
      var j := FfsByte(value);
      hide Byte, Bit, LowestBit, Ffs;
      var b := Byte(value, j);
      LowestBitExact(b);
      ByteBit(value, j, LowestBit(b));
      forall m | 0 <= m < Ffs(value) - 1 ensures !Bit(value, m) {
        if m < 8 * j {
          LowBytesClear(value, j, m);
        } else {
          ByteBit(value, j, m - 8 * j);
        }
      }
    }
  }
}
