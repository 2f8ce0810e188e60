/** Numerals, Python's int() on ASCII text, and split and join on a separator. */
module Text {
  import opened Wrappers
  import opened Numbers

  function Digit(d: nat): char
    requires d < 10
  {
    '0' + d as char
  }

  /** What a character stands for as a digit in the bases up to 16. */
  function DigitValue(c: char): Option<nat> {
    if '0' <= c <= '9' then Some((c - '0') as nat)
    else if 'a' <= c <= 'f' then Some(10 + (c - 'a') as nat)
    else if 'A' <= c <= 'F' then Some(10 + (c - 'A') as nat)
    else None
  }

  predicate IsDigit(c: char, base: nat) {
    DigitValue(c).Some? && DigitValue(c).value < base
  }

  function DecimalNat(n: nat): string {
    if n < 10 then [Digit(n)] else DecimalNat(n / 10) + [Digit(n % 10)]
  }

  /** str(n) */
  function Decimal(n: int): string {
    if n < 0 then "-" + DecimalNat(-n) else DecimalNat(n)
  }

  /** Digits with single underscores allowed between them. */
  function DigitsValue(s: string, base: nat): Option<nat> {
    if |s| == 0 || !IsDigit(s[|s| - 1], base) then None
    else
      var d := DigitValue(s[|s| - 1]).value;
      if |s| == 1 then Some(d)
      else
        var prefix := if s[|s| - 2] == '_' then s[..|s| - 2] else s[..|s| - 1];
        match DigitsValue(prefix, base)
        case None => None
        case Some(v) => Some(base * v + d)
  }

  predicate IsSpace(c: char) {
    c == ' ' || '\t' <= c <= '\r'
  }

  function StripLeft(s: string): string {
    if |s| > 0 && IsSpace(s[0]) then StripLeft(s[1..]) else s
  }

  function StripRight(s: string): string {
    if |s| > 0 && IsSpace(s[|s| - 1]) then StripRight(s[..|s| - 1]) else s
  }

  function Strip(s: string): string {
    StripRight(StripLeft(s))
  }

  predicate IsNegative(t: string) {
    |t| > 0 && t[0] == '-'
  }

  function WithoutSign(t: string): string {
    if |t| > 0 && (t[0] == '-' || t[0] == '+') then t[1..] else t
  }

  /** The digits behind an optional 0x and one underscore after it. */
  function WithoutPrefix(s: string): string {
    if |s| >= 2 && s[0] == '0' && (s[1] == 'x' || s[1] == 'X') then
      if |s| > 2 && s[2] == '_' then s[3..] else s[2..]
    else s
  }

  function Signed(negative: bool, v: Option<nat>): Option<int> {
    match v
    case None => None
    case Some(n) => Some(if negative then 0 - n else n)
  }

  /** int(s, base) for the bases 10 and 16, None where Python raises ValueError. */
  function ParseInt(s: string, base: nat): Option<int> {
    var u := WithoutSign(Strip(s));
    Signed(IsNegative(Strip(s)), DigitsValue(if base == 16 then WithoutPrefix(u) else u, base))
  }

  lemma {:induction false} DecimalNatDigits(n: nat)
    ensures |DecimalNat(n)| > 0
    ensures forall k :: 0 <= k < |DecimalNat(n)| ==> IsDigit(DecimalNat(n)[k], 10)
    ensures DigitsValue(DecimalNat(n), 10) == Some(n)
    ensures n >= 10 ==> DecimalNat(n)[0] != '0'
  {
    if n >= 10 {
      DecimalNatDigits(n / 10);
      var s := DecimalNat(n);
      assert s[..|s| - 1] == DecimalNat(n / 10);
      assert IsDigit(s[|s| - 2], 10);
      assert n < 100 ==> DecimalNat(n / 10) == [Digit(n / 10)];
    }
  }

  /** Printing an integer and parsing it gives the integer back. */
  lemma ParseDecimal(n: int)
    ensures ParseInt(Decimal(n), 10) == Some(n)
  {
    DecimalNatDigits(if n < 0 then -n else n);
    var s := Decimal(n);
    assert !IsSpace(s[0]) && !IsSpace(s[|s| - 1]);
    assert Strip(s) == s;
    if n < 0 {
      assert s[1..] == DecimalNat(-n);
    }
  }

  function Split(s: string, sep: char): (parts: seq<string>)
    ensures |parts| > 0
    ensures forall p :: p in parts ==> sep !in p
  {
    if s == "" then [""]
    else
      var rest := Split(s[1..], sep);
      if s[0] == sep then [""] + rest
      else [[s[0]] + rest[0]] + rest[1..]
  }

  function Join(parts: seq<string>, sep: char): string {
    if |parts| == 0 then ""
    else if |parts| == 1 then parts[0]
    else parts[0] + [sep] + Join(parts[1..], sep)
  }

  lemma {:induction false} SplitPiece(p: string, rest: string, sep: char)
    requires sep !in p
    ensures Split(p + [sep] + rest, sep) == [p] + Split(rest, sep)
  {
    var s := p + [sep] + rest;
    if p == "" {
      assert s[1..] == rest;
    } else {
      assert s[1..] == p[1..] + [sep] + rest;
      SplitPiece(p[1..], rest, sep);
      assert p == [p[0]] + p[1..];
    }
  }

  lemma {:induction false} SplitWhole(p: string, sep: char)
    requires sep !in p
    ensures Split(p, sep) == [p]
  {
    if p != "" {
      SplitWhole(p[1..], sep);
      assert p == [p[0]] + p[1..];
    }
  }

  /** Splitting undoes joining when no part holds the separator. */
  lemma {:induction false} SplitJoin(parts: seq<string>, sep: char)
    requires |parts| > 0
    requires forall p :: p in parts ==> sep !in p
    ensures Split(Join(parts, sep), sep) == parts
  {
    if |parts| == 1 {
      SplitWhole(parts[0], sep);
    } else {
      SplitPiece(parts[0], Join(parts[1..], sep), sep);
      SplitJoin(parts[1..], sep);
    }
  }

  /** And joining undoes splitting, always. */
  lemma {:induction false} JoinSplit(s: string, sep: char)
    ensures Join(Split(s, sep), sep) == s
  {
    if s != "" {
      JoinSplit(s[1..], sep);
      var rest := Split(s[1..], sep);
      assert s == [s[0]] + s[1..];
      assert Split(s, sep)[1..] == if s[0] == sep then rest else rest[1..];
    }
  }
}
