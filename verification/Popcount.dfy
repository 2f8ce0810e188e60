/**
 Bit counting on machine words: the definition, and the branch-free word-parallel form the
 matrix code uses, with its unsigned wrap-around written out. The proofs go digit by digit in
 base 4, 16 and 256, so they hold for every word width at once.
 */
module Popcount {
  import opened Numbers

  /** int.bit_count() */
  function BitCount(x: nat): nat {
    if x == 0 then 0 else x % 2 + BitCount(x / 2)
  }

  function And(x: nat, y: nat): nat {
    if x == 0 || y == 0 then 0 else (x % 2) * (y % 2) + 2 * And(x / 2, y / 2)
  }

  function Xor(x: nat, y: nat): nat {
    if x == 0 then y else if y == 0 then x else (x + y) % 2 + 2 * Xor(x / 2, y / 2)
  }

  /** The number whose k digits in base b are all d. */
  function Repeat(b: nat, d: nat, k: nat): nat {
    if k == 0 then 0 else d + b * Repeat(b, d, k - 1)
  }

  // ---------------------------------------------------------------------------
  // Digits
  // ---------------------------------------------------------------------------

  /** The sum of the k low digits of x in base 4, 16 and 256. */
  function Sum4(x: nat, k: nat): nat {
    if k == 0 then 0 else x % 4 + Sum4(x / 4, k - 1)
  }

  function Sum16(x: nat, k: nat): nat {
    if k == 0 then 0 else x % 16 + Sum16(x / 16, k - 1)
  }

  function Sum256(x: nat, k: nat): nat {
    if k == 0 then 0 else x % 256 + Sum256(x / 256, k - 1)
  }

  /** x has k digits in base 4, 16 or 256 and none is above 2, 4 or 8. */
  predicate Small4(x: nat, k: nat) {
    if k == 0 then x == 0 else x % 4 <= 2 && Small4(x / 4, k - 1)
  }

  predicate Small16(x: nat, k: nat) {
    if k == 0 then x == 0 else x % 16 <= 4 && Small16(x / 16, k - 1)
  }

  predicate Small256(x: nat, k: nat) {
    if k == 0 then x == 0 else x % 256 <= 8 && Small256(x / 256, k - 1)
  }

  lemma AndDouble(a: nat, b: nat, d: nat, e: nat)
    requires d < 2 && e < 2
    ensures And(2 * a + d, 2 * b + e) == 2 * And(a, b) + d * e
  {
    assert (2 * a + d) / 2 == a && (2 * b + e) / 2 == b;
    assert (2 * a + d) % 2 == d && (2 * b + e) % 2 == e;
  }

  lemma And4(a: nat, b: nat, d: nat, e: nat)
    requires d < 4 && e < 4
    ensures And(4 * a + d, 4 * b + e) == 4 * And(a, b) + And(d, e)
  {
    AndDouble(a, b, d / 2, e / 2);
    AndDouble(2 * a + d / 2, 2 * b + e / 2, d % 2, e % 2);
    AndDouble(0, 0, d / 2, e / 2);
    AndDouble(d / 2, e / 2, d % 2, e % 2);
  }

  lemma And16(a: nat, b: nat, d: nat, e: nat)
    requires d < 16 && e < 16
    ensures And(16 * a + d, 16 * b + e) == 16 * And(a, b) + And(d, e)
  {
    And4(a, b, d / 4, e / 4);
    And4(4 * a + d / 4, 4 * b + e / 4, d % 4, e % 4);
    And4(d / 4, e / 4, d % 4, e % 4);
  }

  lemma And256(a: nat, b: nat, d: nat, e: nat)
    requires d < 256 && e < 256
    ensures And(256 * a + d, 256 * b + e) == 256 * And(a, b) + And(d, e)
  {
    And16(a, b, d / 16, e / 16);
    And16(16 * a + d / 16, 16 * b + e / 16, d % 16, e % 16);
    And16(d / 16, e / 16, d % 16, e % 16);
  }

  /** Masking with 1, 3 and 15 keeps the low one, two and four bits. */
  lemma AndOne(x: nat)
    ensures And(x, 1) == x % 2
  {
    AndDouble(x / 2, 0, x % 2, 1);
    assert x == 2 * (x / 2) + x % 2;
  }

  lemma AndThree(x: nat)
    ensures And(x, 3) == x % 4
  {
    AndOne(x / 2);
    AndDouble(x / 2, 1, x % 2, 1);
    assert x == 2 * (x / 2) + x % 2;
  }

  lemma AndFifteen(x: nat)
    ensures And(x, 15) == x % 16
  {
    hide And;
    AndThree(x / 4);
    AndThree(x % 4);
    Divide(4, x);
    And4(x / 4, 3, x % 4, 3);
    Divide(4, x / 4);
    Digit16(x / 4 / 4, x / 4 % 4, x % 4);
  }

  lemma Divide(b: nat, x: nat)
    requires b > 0
    ensures x == b * (x / b) + x % b && x % b < b
  {
  }

  lemma Digit4(a: nat, d: nat)
    requires d < 4
    ensures (4 * a + d) / 4 == a && (4 * a + d) % 4 == d
  {
  }

  lemma Digit16(a: nat, d: nat, e: nat)
    requires d < 4 && e < 4
    ensures (4 * (4 * a + d) + e) % 16 == 4 * d + e && (4 * (4 * a + d) + e) / 16 == a
  {
    assert 4 * (4 * a + d) + e == 16 * a + (4 * d + e);
  }

  lemma Digit256(a: nat, e: nat, f: nat)
    requires e < 16 && f < 16
    ensures (16 * (16 * a + e) + f) % 256 == 16 * e + f && (16 * (16 * a + e) + f) / 256 == a
  {
    assert 16 * (16 * a + e) + f == 256 * a + (16 * e + f);
  }

  // ---------------------------------------------------------------------------
  // The three folding stages
  // ---------------------------------------------------------------------------

  /** Two-bit fields: each becomes the count of its two bits. */
  function Pairs(x: nat, k: nat): int {
    x - And(x / 2, Repeat(4, 1, k))
  }

  lemma PairsStep(a: nat, d: nat, k: nat)
    requires d < 4 && k > 0
    ensures Pairs(4 * a + d, k) == 4 * Pairs(a, k - 1) + (d - d / 2)
  {
    var low := 2 * (a % 2) + d / 2;
    assert (4 * a + d) / 2 == 4 * (a / 2) + low;
    And4(a / 2, Repeat(4, 1, k - 1), low, 1);
    AndOne(low);
    assert low % 2 == d / 2;
  }

  lemma BitCountStep(a: nat, d: nat)
    requires d < 4
    ensures BitCount(4 * a + d) == BitCount(a) + (d - d / 2)
  {
    var x := 4 * a + d;
    assert x / 2 == 2 * a + d / 2 && x % 2 == d % 2;
    assert (2 * a + d / 2) / 2 == a && (2 * a + d / 2) % 2 == d / 2;
  }

  lemma Sum4Once(a: nat, d: nat, k: nat)
    requires d < 4 && k > 0
    ensures Sum4(4 * a + d, k) == d + Sum4(a, k - 1)
    ensures Small4(4 * a + d, k) <==> d <= 2 && Small4(a, k - 1)
  {
    Digit4(a, d);
  }

  lemma Power4(k: nat)
    requires k > 0
    ensures Power(4, k) == 4 * Power(4, k - 1)
  {
  }

  ghost predicate PairsCounted(x: nat, k: nat) {
    0 <= Pairs(x, k) <= x && Sum4(Pairs(x, k), k) == BitCount(x) && Small4(Pairs(x, k), k)
  }

  lemma PairsCountedZero()
    ensures PairsCounted(0, 0)
  {
  }

  lemma PairsCountedStep(a: nat, d: nat, k: nat)
    requires d < 4 && k > 0 && PairsCounted(a, k - 1)
    ensures PairsCounted(4 * a + d, k)
  {
    hide And, Repeat, Pairs, BitCount, Sum4, Small4;
    PairsStep(a, d, k);
    BitCountStep(a, d);
    Sum4Once(Pairs(a, k - 1), d - d / 2, k);
  }

  lemma {:induction false} PairsCount(x: nat, k: nat)
    requires x < Power(4, k)
    ensures PairsCounted(x, k)
  {
    if k > 0 {
      Divide(4, x);
      Power4(k);
      PairsCount(x / 4, k - 1);
      hide PairsCounted;
      PairsCountedStep(x / 4, x % 4, k);
    } else {
      assert x == 0;
      PairsCountedZero();
    }
  }

  /** Four-bit fields: the sum of the two pairs in each. */
  function Nibbles(x: nat, k: nat): nat {
    And(x, Repeat(16, 3, k)) + And(x / 4, Repeat(16, 3, k))
  }

  lemma Quarter(a: nat, e: nat)
    requires e < 16
    ensures (16 * a + e) / 4 == 16 * (a / 4) + (4 * (a % 4) + e / 4)
    ensures 4 * (a % 4) + e / 4 < 16 && (4 * (a % 4) + e / 4) % 4 == e / 4
  {
    Divide(4, a);
    Digit4(a % 4, e / 4);
    Divide(4, e);
    Digit4(4 * a + e / 4, e % 4);
  }

  lemma NibblesStep(a: nat, e: nat, k: nat)
    requires e < 16 && k > 0
    ensures Nibbles(16 * a + e, k) == 16 * Nibbles(a, k - 1) + (e % 4 + e / 4)
  {
    hide And;
    var low := 4 * (a % 4) + e / 4;
    var mask := Repeat(16, 3, k - 1);
    assert Repeat(16, 3, k) == 16 * mask + 3;
    hide Repeat;
    Quarter(a, e);
    And16(a, mask, e, 3);
    And16(a / 4, mask, low, 3);
    AndThree(e);
    AndThree(low);
  }

  lemma Sum4Twice(a: nat, e: nat, k: nat)
    requires e < 16 && k > 0
    ensures Sum4(16 * a + e, 2 * k) == e % 4 + e / 4 + Sum4(a, 2 * (k - 1))
    ensures Small4(16 * a + e, 2 * k) <==> e % 4 <= 2 && e / 4 <= 2 && Small4(a, 2 * (k - 1))
  {
    var x := 16 * a + e;
    assert x % 4 == e % 4 && x / 4 == 4 * a + e / 4;
    assert (4 * a + e / 4) % 4 == e / 4 && (4 * a + e / 4) / 4 == a;
    assert Sum4(x, 2 * k) == x % 4 + Sum4(x / 4, 2 * k - 1);
    assert Sum4(x / 4, 2 * k - 1) == x / 4 % 4 + Sum4(x / 4 / 4, 2 * k - 2);
    assert Small4(x, 2 * k) <==> x % 4 <= 2 && Small4(x / 4, 2 * k - 1);
  }

  lemma Sum16Once(a: nat, d: nat, k: nat)
    requires d < 16 && k > 0
    ensures Sum16(16 * a + d, k) == d + Sum16(a, k - 1)
    ensures Small16(16 * a + d, k) <==> d <= 4 && Small16(a, k - 1)
  {
    assert (16 * a + d) / 16 == a && (16 * a + d) % 16 == d;
  }

  ghost predicate NibblesCounted(x: nat, k: nat) {
    Sum16(Nibbles(x, k), k) == Sum4(x, 2 * k) && Small16(Nibbles(x, k), k)
  }

  lemma NibblesCountedZero()
    ensures NibblesCounted(0, 0)
  {
  }

  lemma NibblesCountedStep(a: nat, e: nat, k: nat)
    requires e < 16 && k > 0 && Small4(16 * a + e, 2 * k) && NibblesCounted(a, k - 1)
    ensures NibblesCounted(16 * a + e, k)
  {
    hide Nibbles, Sum4, Small4, Sum16, Small16;
    Sum4Twice(a, e, k);
    NibblesStep(a, e, k);
    Sum16Once(Nibbles(a, k - 1), e % 4 + e / 4, k);
  }

  lemma {:induction false} NibblesCount(x: nat, k: nat)
    requires Small4(x, 2 * k)
    ensures NibblesCounted(x, k)
  {
    if k > 0 {
      var a, e := x / 16, x % 16;
      assert x == 16 * a + e;
      Sum4Twice(a, e, k);
      NibblesCount(a, k - 1);
      hide NibblesCounted, Sum4, Small4;
      NibblesCountedStep(a, e, k);
    } else {
      assert x == 0;
      NibblesCountedZero();
    }
  }

  /** Bytes: the sum of the two nibbles in each; neighbouring bytes do not disturb each other. */
  function Bytes(x: nat, k: nat): nat {
    And(x + x / 16, Repeat(256, 15, k))
  }

  lemma Sixteenth(a: nat, f: nat)
    requires f < 256
    requires a % 16 <= 4 && f % 16 <= 4 && f / 16 <= 4
    ensures var x := 256 * a + f; var low := f + f / 16 + 16 * (a % 16);
            low < 256 && low % 16 == f % 16 + f / 16 && x + x / 16 == 256 * (a + a / 16) + low
  {
    var e := f / 16;
    Divide(16, a);
    Divide(16, f);
    Digit256(0, a % 16, e);
    assert 256 * a + f == 16 * (16 * a + e) + f % 16;
    assert (256 * a + f) / 16 == 16 * a + e;
    assert f + e + 16 * (a % 16) == 16 * (e + a % 16) + (f % 16 + e);
  }

  lemma BytesStep(a: nat, f: nat, k: nat)
    requires f < 256 && k > 0
    requires a % 16 <= 4 && f % 16 <= 4 && f / 16 <= 4
    ensures Bytes(256 * a + f, k) == 256 * Bytes(a, k - 1) + (f % 16 + f / 16)
  {
    hide And;
    var low := f + f / 16 + 16 * (a % 16);
    var mask := Repeat(256, 15, k - 1);
    assert Repeat(256, 15, k) == 256 * mask + 15;
    hide Repeat;
    Sixteenth(a, f);
    And256(a + a / 16, mask, low, 15);
    AndFifteen(low);
  }

  lemma Sum16Twice(a: nat, f: nat, k: nat)
    requires f < 256 && k > 0
    ensures Sum16(256 * a + f, 2 * k) == f % 16 + f / 16 + Sum16(a, 2 * (k - 1))
    ensures Small16(256 * a + f, 2 * k) <==> f % 16 <= 4 && f / 16 <= 4 && Small16(a, 2 * (k - 1))
  {
    var x := 256 * a + f;
    assert x % 16 == f % 16 && x / 16 == 16 * a + f / 16;
    assert (16 * a + f / 16) % 16 == f / 16 && (16 * a + f / 16) / 16 == a;
    assert Sum16(x, 2 * k) == x % 16 + Sum16(x / 16, 2 * k - 1);
    assert Sum16(x / 16, 2 * k - 1) == x / 16 % 16 + Sum16(x / 16 / 16, 2 * k - 2);
    assert Small16(x, 2 * k) <==> x % 16 <= 4 && Small16(x / 16, 2 * k - 1);
  }

  lemma {:induction false} BytesCount(x: nat, k: nat)
    requires Small16(x, 2 * k)
    ensures Sum256(Bytes(x, k), k) == Sum16(x, 2 * k)
    ensures Small256(Bytes(x, k), k)
  {
    if k > 0 {
      var a, f := x / 256, x % 256;
      assert x == 256 * a + f;
      Sum16Twice(a, f, k);
      BytesCount(a, k - 1);
      assert a % 16 <= 4 by {
        assert Small16(a, 2 * (k - 1));
      }
      BytesStep(a, f, k);
      var y := Bytes(x, k);
      assert y / 256 == Bytes(a, k - 1) && y % 256 == f % 16 + f / 16;
    }
  }

  // ---------------------------------------------------------------------------
  // Words
  // ---------------------------------------------------------------------------

  const WORD32: nat := 0x1_0000_0000
  const WORD64: nat := 0x1_0000_0000_0000_0000

  /** The 32-bit form; every operation wraps around as uint32 does. */
  function PopCount32(x: nat): nat {
    var x1 := (x - And(x / 2, 0x5555_5555)) % WORD32;
    var x2 := (And(x1, 0x3333_3333) + And(x1 / 4, 0x3333_3333)) % WORD32;
    var x3 := And((x2 + x2 / 16) % WORD32, 0x0F0F_0F0F);
    (x3 * 0x0101_0101) % WORD32 / 0x100_0000
  }

  /** The 64-bit form. */
  function PopCount64(x: nat): nat {
    var x1 := (x - And(x / 2, 0x5555_5555_5555_5555)) % WORD64;
    var x2 := (And(x1, 0x3333_3333_3333_3333) + And(x1 / 4, 0x3333_3333_3333_3333)) % WORD64;
    var x3 := And((x2 + x2 / 16) % WORD64, 0x0F0F_0F0F_0F0F_0F0F);
    (x3 * 0x0101_0101_0101_0101) % WORD64 / 0x100_0000_0000_0000
  }

  lemma Repeat4(k: nat)
    ensures Repeat(4, 1, k + 4) == 0x55 + 256 * Repeat(4, 1, k)
    ensures Power(4, k + 4) == 256 * Power(4, k)
  {
    assert Repeat(4, 1, k + 1) == 1 + 4 * Repeat(4, 1, k);
    assert Repeat(4, 1, k + 2) == 1 + 4 * Repeat(4, 1, k + 1);
    assert Repeat(4, 1, k + 3) == 1 + 4 * Repeat(4, 1, k + 2);
    assert Power(4, k + 1) == 4 * Power(4, k);
    assert Power(4, k + 2) == 4 * Power(4, k + 1);
    assert Power(4, k + 3) == 4 * Power(4, k + 2);
  }

  lemma Repeat16(k: nat)
    ensures Repeat(16, 3, k + 2) == 0x33 + 256 * Repeat(16, 3, k)
    ensures Power(16, k + 2) == 256 * Power(16, k)
  {
    assert Repeat(16, 3, k + 1) == 3 + 16 * Repeat(16, 3, k);
    assert Power(16, k + 1) == 16 * Power(16, k);
  }

  lemma Repeat256(k: nat)
    ensures Repeat(256, 15, k + 1) == 0x0F + 256 * Repeat(256, 15, k)
  {
  }

  lemma Masks32()
    ensures Repeat(4, 1, 16) == 0x5555_5555 && Repeat(16, 3, 8) == 0x3333_3333 && Repeat(256, 15, 4) == 0x0F0F_0F0F
    ensures Power(4, 16) == WORD32 && Power(16, 8) == WORD32
  {
    Repeat4(0); Repeat4(4); Repeat4(8); Repeat4(12);
    Repeat16(0); Repeat16(2); Repeat16(4); Repeat16(6);
    Repeat256(0); Repeat256(1); Repeat256(2); Repeat256(3);
  }

  lemma Masks64()
    ensures Repeat(4, 1, 32) == 0x5555_5555_5555_5555 && Repeat(16, 3, 16) == 0x3333_3333_3333_3333
    ensures Repeat(256, 15, 8) == 0x0F0F_0F0F_0F0F_0F0F
    ensures Power(4, 32) == WORD64 && Power(16, 16) == WORD64
  {
    Masks32();
    Repeat4(16); Repeat4(20); Repeat4(24); Repeat4(28);
    Repeat16(8); Repeat16(10); Repeat16(12); Repeat16(14);
    Repeat256(4); Repeat256(5); Repeat256(6); Repeat256(7);
  }

  /** Numbers with few small digits are far from wrapping around. */
  lemma {:induction false} Small16Below(x: nat, k: nat)
    requires Small16(x, k)
    ensures 15 * x <= 4 * (Power(16, k) - 1)
  {
    if k > 0 {
      Small16Below(x / 16, k - 1);
      assert x == 16 * (x / 16) + x % 16;
    }
  }

  lemma Bytes4(x: nat) returns (b0: nat, b1: nat, b2: nat, b3: nat, rest: nat)
    ensures x == b0 + 0x100 * b1 + 0x1_0000 * b2 + 0x100_0000 * b3 + 0x1_0000_0000 * rest
    ensures forall k :: k >= 4 ==> Sum256(x, k) == b0 + b1 + b2 + b3 + Sum256(rest, k - 4)
    ensures forall k :: k >= 4 && Small256(x, k) ==> b0 <= 8 && b1 <= 8 && b2 <= 8 && b3 <= 8 && Small256(rest, k - 4)
  {
    b0, b1, b2, b3 := x % 256, x / 256 % 256, x / 256 / 256 % 256, x / 256 / 256 / 256 % 256;
    rest := x / 256 / 256 / 256 / 256;
    forall k | k >= 4
      ensures Sum256(x, k) == b0 + b1 + b2 + b3 + Sum256(rest, k - 4)
      ensures Small256(x, k) ==> b0 <= 8 && b1 <= 8 && b2 <= 8 && b3 <= 8 && Small256(rest, k - 4)
    {
      assert Sum256(x, k) == b0 + Sum256(x / 256, k - 1);
      assert Sum256(x / 256, k - 1) == b1 + Sum256(x / 256 / 256, k - 2);
      assert Sum256(x / 256 / 256, k - 2) == b2 + Sum256(x / 256 / 256 / 256, k - 3);
      assert Sum256(x / 256 / 256 / 256, k - 3) == b3 + Sum256(rest, k - 4);
      if Small256(x, k) {
        assert Small256(x / 256, k - 1);
        assert Small256(x / 256 / 256, k - 2);
        assert Small256(x / 256 / 256 / 256, k - 3);
      }
    }
  }

  /** Four bytes of at most 8: the multiplication gathers them in the top byte. */
  lemma Gather32(x: nat)
    requires Small256(x, 4)
    ensures (x * 0x0101_0101) % WORD32 / 0x100_0000 == Sum256(x, 4)
  {
    var b0, b1, b2, b3, rest := Bytes4(x);
    assert Small256(x, 4) && Sum256(rest, 0) == 0 && rest == 0;
    hide Small256, Sum256;
    var low := b0 + 0x100 * (b0 + b1) + 0x1_0000 * (b0 + b1 + b2);
    var high := b1 + b2 + b3 + 0x100 * (b2 + b3) + 0x1_0000 * b3;
    var top := b0 + b1 + b2 + b3;
    assert x * 0x0101_0101 == high * WORD32 + (low + 0x100_0000 * top);
    TopByte32(high, low, top);
  }

  lemma TopByte32(high: int, low: nat, top: nat)
    requires low < 0x100_0000 && top < 256
    ensures (high * WORD32 + (low + 0x100_0000 * top)) % WORD32 / 0x100_0000 == top
  {
    var r := low + 0x100_0000 * top;
    assert r < WORD32;
    assert (high * WORD32 + r) % WORD32 == r;
  }

  /** The same for eight bytes. */
  lemma Gather64(x: nat)
    requires Small256(x, 8)
    ensures (x * 0x0101_0101_0101_0101) % WORD64 / 0x100_0000_0000_0000 == Sum256(x, 8)
  {
    var b0, b1, b2, b3, half := Bytes4(x);
    var b4, b5, b6, b7, rest := Bytes4(half);
    assert Small256(x, 8) && Small256(half, 4) && Sum256(rest, 0) == 0 && rest == 0;
    assert Sum256(x, 8) == b0 + b1 + b2 + b3 + Sum256(half, 4);
    assert Sum256(half, 4) == b4 + b5 + b6 + b7;
    Gather(x, b0, b1, b2, b3, b4, b5, b6, b7);
  }

  lemma Gather(x: nat, b0: nat, b1: nat, b2: nat, b3: nat, b4: nat, b5: nat, b6: nat, b7: nat)
    requires b0 <= 8 && b1 <= 8 && b2 <= 8 && b3 <= 8 && b4 <= 8 && b5 <= 8 && b6 <= 8 && b7 <= 8
    requires x == b0 + 0x100 * b1 + 0x1_0000 * b2 + 0x100_0000 * b3 + 0x1_0000_0000 * b4 + 0x100_0000_0000 * b5
                  + 0x1_0000_0000_0000 * b6 + 0x100_0000_0000_0000 * b7
    ensures (x * 0x0101_0101_0101_0101) % WORD64 / 0x100_0000_0000_0000 == b0 + b1 + b2 + b3 + b4 + b5 + b6 + b7
  {
    var low := b0 + 0x100 * (b0 + b1) + 0x1_0000 * (b0 + b1 + b2) + 0x100_0000 * (b0 + b1 + b2 + b3)
               + 0x1_0000_0000 * (b0 + b1 + b2 + b3 + b4) + 0x100_0000_0000 * (b0 + b1 + b2 + b3 + b4 + b5)
               + 0x1_0000_0000_0000 * (b0 + b1 + b2 + b3 + b4 + b5 + b6);
    var top := b0 + b1 + b2 + b3 + b4 + b5 + b6 + b7;
    var high := (top - b0) + 0x100 * (top - b0 - b1) + 0x1_0000 * (b3 + b4 + b5 + b6 + b7) + 0x100_0000 * (b4 + b5 + b6 + b7)
                + 0x1_0000_0000 * (b5 + b6 + b7) + 0x100_0000_0000 * (b6 + b7) + 0x1_0000_0000_0000 * b7;
    assert x * 0x0101_0101_0101_0101 == high * WORD64 + (low + 0x100_0000_0000_0000 * top);
    assert low < 0x100_0000_0000_0000;
    TopByte(high, low, top);
  }

  lemma TopByte(high: int, low: nat, top: nat)
    requires low < 0x100_0000_0000_0000 && top < 256
    ensures (high * WORD64 + (low + 0x100_0000_0000_0000 * top)) % WORD64 / 0x100_0000_0000_0000 == top
  {
    var r := low + 0x100_0000_0000_0000 * top;
    assert r < WORD64;
    assert (high * WORD64 + r) % WORD64 == r;
  }

  /** Values in range are unchanged by the wrap-around of each stage. */
  lemma NoWrap(x: nat, word: nat)
    requires 15 * x <= 4 * (word - 1)
    ensures x % word == x && (x + x / 16) % word == x + x / 16
  {
    Divide(16, x);
    Below(x, word);
    Below(x + x / 16, word);
  }

  lemma Below(x: nat, word: nat)
    requires x < word
    ensures x % word == x
  {
  }

  /** The word-parallel count is the number of one bits, for every 32-bit word. */
  lemma PopCount32IsBitCount(x: nat)
    requires x < WORD32
    ensures PopCount32(x) == BitCount(x)
  {
    hide Sum4, Sum16, Sum256, Small4, Small16, Small256, BitCount, And, Repeat, Power;
    Masks32();
    PairsCount(x, 16);
    var x1 := Pairs(x, 16);
    NibblesCount(x1, 8);
    var x2 := Nibbles(x1, 8);
    Small16Below(x2, 8);
    NoWrap(x2, WORD32);
    BytesCount(x2, 4);
    Gather32(Bytes(x2, 4));
    Below(x1, WORD32);
  }

  /** And for every 64-bit word. */
  lemma PopCount64IsBitCount(x: nat)
    requires x < WORD64
    ensures PopCount64(x) == BitCount(x)
  {
    hide Sum4, Sum16, Sum256, Small4, Small16, Small256, BitCount, And, Repeat, Power;
    Masks64();
    PairsCount(x, 32);
    var x1 := Pairs(x, 32);
    NibblesCount(x1, 16);
    var x2 := Nibbles(x1, 16);
    Small16Below(x2, 16);
    NoWrap(x2, WORD64);
    BytesCount(x2, 8);
    Gather64(Bytes(x2, 8));
    Below(x1, WORD64);
  }
}
