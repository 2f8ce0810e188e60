/** Hash similarity digit by digit: what the two forms say of hashes written with the sixteen digits. */
module HashDigits {
  import opened Wrappers
  import opened Text
  import opened Numbers
  import opened Numerals
  import opened Popcount
  import opened Hashes = HashSimilarity

  /** The text writes these digits, in either case. */
  predicate Writes(h: string, digits: seq<nat>) {
    && |h| == |digits|
    && forall k :: 0 <= k < |h| ==> digits[k] < 16 && (h[k] == LOWER[digits[k]] || h[k] == UPPER[digits[k]])
  }

  lemma {:induction false} WrittenDigits(h: string, digits: seq<nat>)
    requires Writes(h, digits)
    ensures DigitsIn(h) == digits
  {
    if h != "" {
      DigitTable(digits[0]);
      WrittenDigits(h[1..], digits[1..]);
    }
  }

  /** A hash written with the sixteen digits is read as their positional value. */
  lemma WrittenIsRead(h: string, digits: seq<nat>)
    requires Writes(h, digits) && h != ""
    ensures ParseHex(h) == Some(Positional(digits, 16))
  {
    forall k | 0 <= k < |h| ensures IsDigit(h[k], 16) && h[k] != '_' {
      DigitTable(digits[k]);
    }
    assert WellPlaced(h, 16);
    WrittenDigits(h, digits);
    hide WellPlaced, DigitsIn, Positional, Writes;
    PlainIsRead(h, 16);
  }

  lemma PlainIsRead(h: string, base: nat)
    requires WellPlaced(h, base)
    ensures ParseInt(h, base) == Some(Positional(DigitsIn(h), base))
  {
    var p := Parts("", h, "", "", h, "", h);
    assert "" + h + "" == h && "" + h == h;
    assert Blank("");
    hide WellPlaced, DigitsIn, Positional, Blank, ParseInt;
    assert Spelling(h, p, base);
    SpellingIsRead(h, p, base);
  }

  function Bit(differ: bool): nat {
    if differ then 1 else 0
  }

  /** In how many of their four bits two digits differ. */
  function DigitDistance(d: nat, e: nat): nat {
    Bit(d % 2 != e % 2) + Bit(d / 2 % 2 != e / 2 % 2) + Bit(d / 4 % 2 != e / 4 % 2) + Bit(d / 8 % 2 != e / 8 % 2)
  }

  function Distance(a: seq<nat>, b: seq<nat>): nat
    requires |a| == |b|
  {
    if a == [] then 0 else Distance(a[..|a| - 1], b[..|a| - 1]) + DigitDistance(a[|a| - 1], b[|a| - 1])
  }

  lemma XorBit(x: nat, y: nat, d: nat, e: nat)
    requires d < 2 && e < 2
    ensures Xor(2 * x + d, 2 * y + e) == 2 * Xor(x, y) + Bit(d != e)
  {
    var a, b := 2 * x + d, 2 * y + e;
    assert a / 2 == x && b / 2 == y && (a + b) % 2 == Bit(d != e);
    XorWithZero(x);
    XorWithZero(y);
  }

  lemma BitCountBit(x: nat, d: nat)
    requires d < 2
    ensures BitCount(2 * x + d) == BitCount(x) + d
  {
  }

  lemma DifferBit(x: nat, y: nat, d: nat, e: nat)
    requires d < 2 && e < 2
    ensures BitCount(Xor(2 * x + d, 2 * y + e)) == BitCount(Xor(x, y)) + Bit(d != e)
  {
    hide BitCount, Xor;
    XorBit(x, y, d, e);
    BitCountBit(Xor(x, y), Bit(d != e));
  }

  lemma DifferBits(x: nat, y: nat, d: nat, e: nat, a: seq<nat>, b: seq<nat>)
    requires |a| == |b| == 4 && forall k :: 0 <= k < 4 ==> a[k] < 2 && b[k] < 2
    requires d == 8 * a[3] + 4 * a[2] + 2 * a[1] + a[0] && e == 8 * b[3] + 4 * b[2] + 2 * b[1] + b[0]
    ensures BitCount(Xor(16 * x + d, 16 * y + e)) ==
            BitCount(Xor(x, y)) + Bit(a[0] != b[0]) + Bit(a[1] != b[1]) + Bit(a[2] != b[2]) + Bit(a[3] != b[3])
  {
    hide BitCount, Xor;
    var x1, y1 := 2 * x + a[3], 2 * y + b[3];
    var x2, y2 := 2 * x1 + a[2], 2 * y1 + b[2];
    var x3, y3 := 2 * x2 + a[1], 2 * y2 + b[1];
    DifferBit(x, y, a[3], b[3]);
    DifferBit(x1, y1, a[2], b[2]);
    DifferBit(x2, y2, a[1], b[1]);
    DifferBit(x3, y3, a[0], b[0]);
  }

  lemma Bits(d: nat) returns (b: seq<nat>)
    requires d < 16
    ensures b == [d % 2, d / 2 % 2, d / 4 % 2, d / 8 % 2]
    ensures forall k :: 0 <= k < 4 ==> b[k] < 2
    ensures d == 8 * b[3] + 4 * b[2] + 2 * b[1] + b[0]
  {
    b := [d % 2, d / 2 % 2, d / 4 % 2, d / 8 % 2];
  }

  /** One more digit adds the bits in which the two differ. */
  lemma DifferDigit(x: nat, y: nat, d: nat, e: nat, longer: nat, other: nat)
    requires d < 16 && e < 16 && longer == 16 * x + d && other == 16 * y + e
    ensures BitCount(Xor(longer, other)) == BitCount(Xor(x, y)) + DigitDistance(d, e)
  {
    hide BitCount, Xor, Bit;
    var a := Bits(d);
    var b := Bits(e);
    assert DigitDistance(d, e) == Bit(a[0] != b[0]) + Bit(a[1] != b[1]) + Bit(a[2] != b[2]) + Bit(a[3] != b[3]);
    hide DigitDistance;
    DifferBits(x, y, d, e, a, b);
  }

  lemma DifferLast(a: seq<nat>, b: seq<nat>, c: nat, d: nat)
    requires |a| == |b| && c < 16 && d < 16
    ensures BitCount(Xor(Positional(a + [c], 16), Positional(b + [d], 16))) ==
            BitCount(Xor(Positional(a, 16), Positional(b, 16))) + DigitDistance(c, d)
  {
    hide BitCount, Xor, DigitDistance, Positional;
    PositionalSnoc(a, c, 16);
    PositionalSnoc(b, d, 16);
    DifferDigit(Positional(a, 16), Positional(b, 16), c, d, Positional(a + [c], 16), Positional(b + [d], 16));
  }

  lemma {:induction false} DifferDigits(a: seq<nat>, b: seq<nat>)
    requires |a| == |b|
    requires forall k :: 0 <= k < |a| ==> a[k] < 16 && b[k] < 16
    ensures BitCount(Xor(Positional(a, 16), Positional(b, 16))) == Distance(a, b)
  {
    hide BitCount, Xor, DigitDistance;
    if a != [] {
      var n := |a| - 1;
      DifferDigits(a[..n], b[..n]);
      DifferLast(a[..n], b[..n], a[n], b[n]);
      assert a[..n] + [a[n]] == a && b[..n] + [b[n]] == b;
      hide Positional;
    } else {
      XorWithZero(0);
      BitCountZero();
    }
  }

  /** The scalar similarity of two hashes of one length, and their entry in any matrix of that length or
      beyond 64 bits, is 1 minus the share of the bits in which their digits differ. */
  lemma SimilarityByDigit(width: nat, left: string, right: string, a: seq<nat>, b: seq<nat>)
    requires Writes(left, a) && Writes(right, b) && |a| == |b| > 0
    ensures HashSimilarity(left, right) == 1.0 - Distance(a, b) as real / (4 * |a|) as real
    ensures width == 4 * |a| || width > 64 ==> Entry(width, left, right) == 1.0 - Distance(a, b) as real / (4 * |a|) as real
  {
    WrittenIsRead(left, a);
    WrittenIsRead(right, b);
    DifferDigits(a, b);
    hide ParseHex, BitCount, Xor, Positional, Entry, HashSimilarity, Distance;
    ScalarCountsBits(left, right);
    if width == 4 * |a| || width > 64 {
      EntryIsScalar(width, left, right);
    }
  }

  /** The complement of a number has the complements of its binary digits. */
  lemma Complement(x: int, d: nat)
    requires d < 2
    ensures 2 * x + d >= 0 <==> x >= 0
    ensures -1 - (2 * x + d) == 2 * (-1 - x) + (1 - d)
  {
  }

  /** Xor of integers of either sign works on the binary digits of their two's complements. */
  lemma XorIntBit(x: int, y: int, d: nat, e: nat)
    requires d < 2 && e < 2
    ensures XorInt(2 * x + d, 2 * y + e) == 2 * XorInt(x, y) + Bit(d != e)
  {
    Complement(x, d);
    Complement(y, e);
    hide Xor;
    var u, v := 2 * x + d, 2 * y + e;
    if x >= 0 && y >= 0 {
      XorBit(x, y, d, e);
    } else if x >= 0 {
      XorBit(x, -1 - y, d, 1 - e);
      assert XorInt(u, v) == -1 - Xor(u, -1 - v);
    } else if y >= 0 {
      XorBit(-1 - x, y, 1 - d, e);
      assert XorInt(u, v) == -1 - Xor(-1 - u, v);
    } else {
      XorBit(-1 - x, -1 - y, 1 - d, 1 - e);
    }
  }

  lemma XorIntEnds()
    ensures XorInt(0, 0) == XorInt(-1, -1) == 0 && XorInt(0, -1) == XorInt(-1, 0) == -1
  {
  }
}
