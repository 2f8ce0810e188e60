/**
 Similarity of two perceptual hashes: the scalar definition, the batched matrix form, and
 exactly where the two agree. Hashes are hex numerals; int(h, 16) is modelled on ASCII text
 with its optional blanks, sign, 0x prefix and underscores.
 */
module HashSimilarity {
  import opened Wrappers
  import opened Text
  import opened Popcount
  import opened Numbers

  /** int(h, 16) */
  function ParseHex(h: string): Option<int> {
    ParseInt(h, 16)
  }

  // ---------------------------------------------------------------------------
  // The scalar form
  // ---------------------------------------------------------------------------

  /** Xor of Python integers: a negative one is the complement of what lies below zero. */
  function XorInt(x: int, y: int): int {
    if x >= 0 && y >= 0 then Xor(x, y)
    else if x >= 0 then -1 - Xor(x, -1 - y)
    else if y >= 0 then -1 - Xor(-1 - x, y)
    else Xor(-1 - x, -1 - y)
  }

  /** bit_count() of the xor, which looks at the absolute value. */
  function DifferingBits(x: int, y: int): nat {
    var z := XorInt(x, y);
    BitCount(if z < 0 then -z else z)
  }

  function HashSimilarity(left: string, right: string): real {
    if left == "" || right == "" || |left| != |right| then 0.0
    else
      match (ParseHex(left), ParseHex(right))
      case (Some(x), Some(y)) =>
        var s := 1.0 - DifferingBits(x, y) as real / (4 * |left|) as real;
        if s < 0.0 then 0.0 else s
      case _ => 0.0
  }

  // ---------------------------------------------------------------------------
  // The matrix form
  // ---------------------------------------------------------------------------

  /** Bits in the first hash that is not empty, 64 when there is none. */
  function BatchWidth(hashes: seq<string>): nat {
    if hashes == [] then 64
    else if hashes[0] != "" then 4 * |hashes[0]|
    else BatchWidth(hashes[1..])
  }

  /** What the integer array holds for a hash; whatever cannot be read stays 0. */
  function Read(h: string, width: nat): nat {
    if h == "" || 4 * |h| != width then 0
    else
      match ParseHex(h)
      case None => 0
      case Some(v) => if 0 <= v < (if width > 32 then WORD64 else WORD32) then v else 0
  }

  /** The share of agreeing bits of two array elements. */
  function AgreeingShare(width: nat, x: nat, y: nat): real
    requires width > 0
  {
    var z := Xor(x, y);
    Clip01(1.0 - (if width > 32 then PopCount64(z) else PopCount32(z)) as real / width as real)
  }

  function Entry(width: nat, left: string, right: string): real
    requires width > 0
  {
    if width > 64 then HashSimilarity(left, right)
    else AgreeingShare(width, Read(left, width), Read(right, width))
  }

  lemma BatchWidthSkips(prefix: seq<string>, rest: seq<string>)
    requires forall i :: 0 <= i < |prefix| ==> prefix[i] == ""
    ensures BatchWidth(prefix + rest) == BatchWidth(rest)
  {
    if prefix == [] {
      assert prefix + rest == rest;
    } else {
      assert (prefix + rest)[1..] == prefix[1..] + rest;
      BatchWidthSkips(prefix[1..], rest);
    }
  }

  method FindWidth(hashes: seq<string>) returns (width: nat)
    ensures width == BatchWidth(hashes)
  {
    width := 64;
    var k := 0;
    while k < |hashes|
      invariant 0 <= k <= |hashes|
      invariant forall i :: 0 <= i < k ==> hashes[i] == ""
      invariant width == 64
    {
      assert hashes == hashes[..k] + hashes[k..];
      BatchWidthSkips(hashes[..k], hashes[k..]);
      if hashes[k] != "" {
        width := 4 * |hashes[k]|;
        return;
      }
      k := k + 1;
    }
    assert hashes == hashes[..k] + [];
    BatchWidthSkips(hashes[..k], []);
  }

  method ToInts(hashes: seq<string>, width: nat) returns (out: seq<nat>)
    ensures |out| == |hashes| && forall i :: 0 <= i < |out| ==> out[i] == Read(hashes[i], width)
  {
    out := seq(|hashes|, _ => 0);
    for i := 0 to |hashes|
      invariant |out| == |hashes|
      invariant forall k :: 0 <= k < i ==> out[k] == Read(hashes[k], width)
      invariant forall k :: i <= k < |hashes| ==> out[k] == 0
    {
      var h := hashes[i];
      if h != "" && 4 * |h| == width {
        match ParseHex(h)
        case None =>
        case Some(v) =>
          if 0 <= v < (if width > 32 then WORD64 else WORD32) {
            out := out[i := v];
          }
      }
    }
  }

  method HashSimilarityMatrix(targets: seq<string>, candidates: seq<string>) returns (result: seq<seq<real>>)
    ensures BatchWidth(targets + candidates) > 0
    ensures |result| == |targets|
    ensures forall i :: 0 <= i < |targets| ==> |result[i]| == |candidates|
    ensures forall i, j :: 0 <= i < |targets| && 0 <= j < |candidates| ==>
                             result[i][j] == Entry(BatchWidth(targets + candidates), targets[i], candidates[j])
  {
    hide AgreeingShare, HashSimilarity, Read;
    WidthIsWholeDigits(targets + candidates);
    hide BatchWidth;
    var width := FindWidth(targets + candidates);
    var t, c := [], [];
    if width <= 64 {
      t := ToInts(targets, width);
      c := ToInts(candidates, width);
    }
    result := [];
    for i := 0 to |targets|
      invariant |result| == i
      invariant forall k :: 0 <= k < i ==> |result[k]| == |candidates|
      invariant forall k, j :: 0 <= k < i && 0 <= j < |candidates| ==> result[k][j] == Entry(width, targets[k], candidates[j])
    {
      var row := [];
      for j := 0 to |candidates|
        invariant |row| == j
        invariant forall k :: 0 <= k < j ==> row[k] == Entry(width, targets[i], candidates[k])
      {
        var s;
        if width > 64 {
          s := HashSimilarity(targets[i], candidates[j]);
        } else {
          s := AgreeingShare(width, t[i], c[j]);
        }
        row := row + [s];
      }
      result := result + [row];
    }
  }

  // ---------------------------------------------------------------------------
  // Bounds
  // ---------------------------------------------------------------------------

  lemma WidthIsWholeDigits(hashes: seq<string>)
    ensures BatchWidth(hashes) > 0 && BatchWidth(hashes) % 4 == 0
  {
  }

  lemma {:induction false} PowerGrows(b: nat, k: nat, n: nat)
    requires b > 0 && k <= n
    ensures 0 < Power(b, k) <= Power(b, n)
  {
    if k < n {
      PowerGrows(b, k, n - 1);
    } else if k > 0 {
      PowerGrows(b, k - 1, n - 1);
    }
  }

  lemma {:induction false} DigitsValueBelow(s: string, base: nat)
    requires base > 0
    ensures DigitsValue(s, base).Some? ==> DigitsValue(s, base).value < Power(base, |s|)
  {
    if DigitsValue(s, base).Some? {
      assert Power(base, 0) == 1;
      if |s| > 1 {
        var prefix := if s[|s| - 2] == '_' then s[..|s| - 2] else s[..|s| - 1];
        DigitsValueBelow(prefix, base);
        PowerGrows(base, |prefix|, |s| - 1);
        ScaledBelow(base, DigitsValue(prefix, base).value, DigitValue(s[|s| - 1]).value, Power(base, |s| - 1));
      }
    }
  }

  lemma ScaledBelow(base: nat, v: nat, d: nat, p: nat)
    requires v < p && d < base
    ensures base * v + d < base * p
  {
    assert base * (v + 1) <= base * p;
  }

  lemma {:induction false} StripShortens(s: string)
    ensures |StripLeft(s)| <= |s| && |StripRight(s)| <= |s|
  {
    if |s| > 0 {
      StripShortens(s[1..]);
      StripShortens(s[..|s| - 1]);
    }
  }

  lemma {:induction false} HexPower(k: nat)
    ensures Power(16, k) == Power(2, 4 * k)
  {
    if k > 0 {
      HexPower(k - 1);
      var p := Power(2, 4 * k - 4);
      assert Power(2, 4 * k - 3) == 2 * p;
      assert Power(2, 4 * k - 2) == 2 * Power(2, 4 * k - 3);
      assert Power(2, 4 * k - 1) == 2 * Power(2, 4 * k - 2);
    }
  }

  /** A numeral of k characters, however spelled, fits in 4k bits. */
  lemma ParseHexBelow(s: string)
    ensures ParseHex(s).Some? ==> 0 - Power(2, 4 * |s|) < ParseHex(s).value < Power(2, 4 * |s|)
  {
    StripShortens(s);
    StripShortens(StripLeft(s));
    var u := WithoutPrefix(WithoutSign(Strip(s)));
    assert |u| <= |s|;
    hide Strip, StripLeft, StripRight, WithoutPrefix, WithoutSign, DigitsValue, Power;
    DigitsValueBelow(u, 16);
    PowerGrows(16, |u|, |s|);
    HexPower(|s|);
  }

  lemma {:induction false} XorBelow(x: nat, y: nat, n: nat)
    requires x < Power(2, n) && y < Power(2, n)
    ensures Xor(x, y) < Power(2, n)
  {
    if x > 0 && y > 0 {
      XorBelow(x / 2, y / 2, n - 1);
    }
  }

  lemma {:induction false} XorIsZero(x: nat, y: nat)
    ensures Xor(x, y) == 0 <==> x == y
  {
    if x > 0 && y > 0 {
      XorIsZero(x / 2, y / 2);
    }
  }

  /** At most n bits are set below 2^n, none only in 0 and all only in the largest. */
  lemma {:induction false} BitCountRange(x: nat, n: nat)
    requires x < Power(2, n)
    ensures BitCount(x) <= n
    ensures BitCount(x) == 0 <==> x == 0
    ensures BitCount(x) == n <==> x == Power(2, n) - 1
  {
    if n > 0 {
      BitCountRange(x / 2, n - 1);
    }
  }

  /** The xor of integers below 2^n in absolute value is 0 only for equal ones, and its absolute
      value has at most n bits set. */
  lemma DifferingBitsRange(x: int, y: int, n: nat)
    requires n > 0 && 0 - Power(2, n) < x < Power(2, n) && 0 - Power(2, n) < y < Power(2, n)
    ensures DifferingBits(x, y) <= n
    ensures DifferingBits(x, y) == 0 <==> x == y
  {
    var a, b := if x < 0 then -1 - x else x, if y < 0 then -1 - y else y;
    XorBelow(a, b, n);
    XorIsZero(a, b);
    BitCountRange(Xor(a, b), n);
    hide Xor;
    if (x < 0) != (y < 0) {
      BitCountUpTo(Xor(a, b) + 1, n);
    }
  }

  /** 2^n itself has one bit set. */
  lemma BitCountUpTo(x: nat, n: nat)
    requires n > 0 && 0 < x <= Power(2, n)
    ensures 0 < BitCount(x) <= n
  {
    if x < Power(2, n) {
      BitCountRange(x, n);
    } else {
      BitCountPower(n);
    }
  }

  lemma {:induction false} BitCountPower(n: nat)
    ensures BitCount(Power(2, n)) == 1
  {
    if n > 0 {
      BitCountPower(n - 1);
      assert Power(2, n) == 2 * Power(2, n - 1);
    }
  }

  lemma Powers2()
    ensures Power(2, 32) == WORD32 && Power(2, 64) == WORD64
  {
    Masks32();
    Masks64();
    HexPower(8);
    HexPower(16);
  }

  // ---------------------------------------------------------------------------
  // The two forms compared
  // ---------------------------------------------------------------------------

  /** A numeral of the batch's common length, without a minus sign. */
  predicate Good(h: string, width: nat) {
    h != "" && 4 * |h| == width && ParseHex(h).Some? && ParseHex(h).value >= 0
  }

  lemma ReadFits(h: string, width: nat)
    requires width <= 64
    ensures Read(h, width) < Power(2, width)
    ensures Power(2, width) <= if width > 32 then WORD64 else WORD32
    ensures Good(h, width) ==> Read(h, width) == ParseHex(h).value
    ensures !Good(h, width) ==> Read(h, width) == 0
  {
    hide ParseHex;
    ParseHexBelow(h);
    Powers2();
    PowerGrows(2, width, if width > 32 then 64 else 32);
  }

  /** A matrix entry is the share of agreeing bits of what was read. */
  lemma EntryCountsBits(width: nat, left: string, right: string)
    requires 0 < width <= 64
    ensures var diff := BitCount(Xor(Read(left, width), Read(right, width)));
            diff <= width && Entry(width, left, right) == 1.0 - diff as real / width as real
  {
    hide ParseHex, PopCount32, PopCount64, BitCount, Xor, Read, Power;
    ReadFits(left, width);
    ReadFits(right, width);
    var z := Xor(Read(left, width), Read(right, width));
    XorBelow(Read(left, width), Read(right, width), width);
    BitCountRange(z, width);
    if width > 32 {
      PopCount64IsBitCount(z);
    } else {
      PopCount32IsBitCount(z);
    }
    ShareInRange(BitCount(z), width);
  }

  lemma ShareInRange(diff: nat, width: nat)
    requires diff <= width && width > 0
    ensures 0.0 <= 1.0 - diff as real / width as real <= 1.0
  {
    assert (diff as real / width as real) * width as real == diff as real;
  }

  /** Equal, zero and full shares are equal, all and no differing bits. */
  lemma Shares(d: nat, e: nat, width: nat)
    requires width > 0
    ensures 1.0 - d as real / width as real == 1.0 - e as real / width as real <==> d == e
    ensures 1.0 - d as real / width as real == 0.0 <==> d == width
    ensures 1.0 - d as real / width as real == 1.0 <==> d == 0
  {
    assert (d as real / width as real) * width as real == d as real;
    assert (e as real / width as real) * width as real == e as real;
  }

  /** What the scalar form compares: two readable hashes of the same length. */
  predicate Comparable(left: string, right: string) {
    left != "" && right != "" && |left| == |right| && ParseHex(left).Some? && ParseHex(right).Some?
  }

  /** Two readable hashes of one length: the scalar form is their share of agreeing bits, and 1 only
      for the same number; the cut at 0 does nothing. */
  lemma ScalarCountsBits(left: string, right: string)
    requires Comparable(left, right)
    ensures var diff := DifferingBits(ParseHex(left).value, ParseHex(right).value);
            && diff <= 4 * |left| && HashSimilarity(left, right) == 1.0 - diff as real / (4 * |left|) as real
            && (diff == 0 <==> ParseHex(left) == ParseHex(right))
  {
    hide ParseHex, DifferingBits, Power;
    ParseHexBelow(left);
    ParseHexBelow(right);
    DifferingBitsRange(ParseHex(left).value, ParseHex(right).value, 4 * |left|);
    ShareInRange(DifferingBits(ParseHex(left).value, ParseHex(right).value), 4 * |left|);
  }

  /** The matrix entry is the scalar similarity of two readable hashes of the common length. */
  lemma EntryIsScalar(width: nat, left: string, right: string)
    requires width > 0
    requires width > 64 || (Good(left, width) && Good(right, width))
    ensures Entry(width, left, right) == HashSimilarity(left, right)
  {
    if width <= 64 {
      hide ParseHex, BitCount, Xor, Entry, HashSimilarity, Read;
      EntryCountsBits(width, left, right);
      ScalarCountsBits(left, right);
      ReadFits(left, width);
      ReadFits(right, width);
    }
  }

  predicate AllOnes(h: string, width: nat) {
    Good(h, width) && ParseHex(h).value == Power(2, width) - 1
  }

  /** Both hashes are of the batch's length and one of them has a minus sign, so that it is read as 0:
      then the other must be the same number, or differ from it in as many bits as it has set. */
  predicate SignedAgree(left: string, right: string)
    requires Comparable(left, right)
  {
    var v, w := ParseHex(left).value, ParseHex(right).value;
    if v < 0 && w < 0 then v == w
    else if v < 0 then DifferingBits(v, w) == BitCount(w)
    else w < 0 && DifferingBits(v, w) == BitCount(v)
  }

  /**
   Exactly when the forms agree in a batch of at most 64 bits: both hashes are unsigned numerals of
   the common length; or the scalar form compares them, at another length, and they are the same
   number; or at the common length, one with a minus sign, under the condition above; or it does
   not compare them, and one of them is of the common length with every bit set.
   */
  lemma AgreeExactlyWhen(width: nat, left: string, right: string)
    requires 0 < width <= 64
    ensures Entry(width, left, right) == HashSimilarity(left, right) <==>
            || (Good(left, width) && Good(right, width))
            || (Comparable(left, right) && 4 * |left| != width && ParseHex(left) == ParseHex(right))
            || (Comparable(left, right) && 4 * |left| == width && SignedAgree(left, right))
            || (!Comparable(left, right) && (AllOnes(left, width) || AllOnes(right, width)))
  {
    hide ParseHex, BitCount, Xor, Entry, Read, Power, DifferingBits;
    if Good(left, width) && Good(right, width) {
      EntryIsScalar(width, left, right);
    } else if Comparable(left, right) {
      ComparedAgree(width, left, right);
    } else {
      assert HashSimilarity(left, right) == 0.0;
      EntryIsZero(width, left, right);
    }
  }

  lemma ComparedAgree(width: nat, left: string, right: string)
    requires 0 < width <= 64 && Comparable(left, right) && !(Good(left, width) && Good(right, width))
    ensures Entry(width, left, right) == HashSimilarity(left, right) <==>
            if 4 * |left| == width then SignedAgree(left, right) else ParseHex(left) == ParseHex(right)
  {
    hide ParseHex, BitCount, Xor, Entry, Read, Power, DifferingBits, HashSimilarity;
    var x, y := Read(left, width), Read(right, width);
    var v, w := ParseHex(left).value, ParseHex(right).value;
    EntryCountsBits(width, left, right);
    ReadFits(left, width);
    ReadFits(right, width);
    XorWithZero(x);
    XorWithZero(y);
    BitCountZero();
    ScalarCountsBits(left, right);
    Shares(BitCount(Xor(x, y)), DifferingBits(v, w), width);
    Shares(DifferingBits(v, w), 0, 4 * |left|);
  }

  /** With at most one hash of the batch's length, the entry is 0 exactly when that one has every bit set. */
  lemma EntryIsZero(width: nat, left: string, right: string)
    requires 0 < width <= 64 && !(Good(left, width) && Good(right, width))
    ensures Entry(width, left, right) == 0.0 <==> AllOnes(left, width) || AllOnes(right, width)
  {
    hide ParseHex, BitCount, Xor, Entry, Read, Power;
    var x, y := Read(left, width), Read(right, width);
    EntryCountsBits(width, left, right);
    ReadFits(left, width);
    ReadFits(right, width);
    XorWithZero(x);
    XorWithZero(y);
    Shares(BitCount(Xor(x, y)), 0, width);
    BitCountRange(x, width);
    BitCountRange(y, width);
    PowerGrows(2, 1, width);
    PowerOne();
  }

  lemma BitCountZero()
    ensures BitCount(0) == 0
  {
  }

  lemma PowerOne()
    ensures Power(2, 1) == 2
  {
    assert Power(2, 0) == 1;
  }

  lemma XorWithZero(x: nat)
    ensures Xor(x, 0) == x && Xor(0, x) == x
  {
  }

  /**
   Empty hashes do not give 0.0 as the matrix promises: two of them give 1.0, and one beside
   a hash h gives 0.0 only if h has every bit set.
   */
  lemma EmptyHashes(width: nat, h: string)
    requires 0 < width <= 64
    ensures Entry(width, "", "") == 1.0
    ensures Entry(width, "", h) == 0.0 <==> AllOnes(h, width)
    ensures Entry(width, h, "") == 0.0 <==> AllOnes(h, width)
    ensures HashSimilarity("", h) == HashSimilarity(h, "") == 0.0
  {
    EntryCountsBits(width, "", "");
    Shares(0, 0, width);
    EntryIsZero(width, "", h);
    EntryIsZero(width, h, "");
  }

  /** Over a whole batch of readable hashes of one length, the matrix is the scalar form throughout. */
  lemma UniformBatch(targets: seq<string>, candidates: seq<string>, width: nat, i: nat, j: nat)
    requires width > 0
    requires forall h :: h in targets + candidates ==> Good(h, width)
    requires i < |targets| && j < |candidates|
    ensures BatchWidth(targets + candidates) == width
    ensures Entry(width, targets[i], candidates[j]) == HashSimilarity(targets[i], candidates[j])
  {
    var all := targets + candidates;
    assert all[0] in all && all[i] in all && all[|targets| + j] in all;
    EntryIsScalar(width, targets[i], candidates[j]);
  }
}
