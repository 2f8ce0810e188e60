/** What the readers of numerals accept and what they read, against a table of the digits. */
module Numerals {
  import opened Wrappers
  import opened Text
  import opened Numbers

  const LOWER := "0123456789abcdef"
  const UPPER := "0123456789ABCDEF"

  /** Each character of the table stands for its place in it. */
  lemma DigitTable(d: nat)
    requires d < 16
    ensures DigitValue(LOWER[d]) == Some(d) && DigitValue(UPPER[d]) == Some(d)
  {
    if d < 8 {
      assert d == 0 || d == 1 || d == 2 || d == 3 || d == 4 || d == 5 || d == 6 || d == 7;
    } else {
      assert d == 8 || d == 9 || d == 10 || d == 11 || d == 12 || d == 13 || d == 14 || d == 15;
    }
  }

  /** And no other character is a digit. */
  lemma DigitIsInTable(c: char)
    requires DigitValue(c).Some?
    ensures var d := DigitValue(c).value; d < 16 && (c == LOWER[d] || c == UPPER[d])
  {
    var d := DigitValue(c).value;
    DigitTable(d);
  }

  lemma SpaceTable(c: char)
    ensures IsSpace(c) <==> c in " \t\n\r\U{b}\U{c}"
  {
  }

  /** The value of a list of digits, the most significant first. */
  function Positional(digits: seq<nat>, base: nat): nat {
    if digits == [] then 0
    else digits[0] * Power(base, |digits| - 1) + Positional(digits[1..], base)
  }

  lemma {:induction false} PositionalSnoc(digits: seq<nat>, d: nat, base: nat)
    ensures Positional(digits + [d], base) == base * Positional(digits, base) + d
  {
    assert Power(base, 0) == 1;
    if digits != [] {
      var more := digits + [d];
      assert more[1..] == digits[1..] + [d];
      PositionalSnoc(digits[1..], d, base);
      Rescaled(digits[0], base, Power(base, |digits| - 1));
      assert Power(base, |digits|) == base * Power(base, |digits| - 1);
      Spread(base, digits[0] * Power(base, |digits| - 1), Positional(digits[1..], base));
    }
  }

  lemma Rescaled(d: nat, base: nat, p: nat)
    ensures d * (base * p) == base * (d * p)
  {
  }

  lemma Spread(base: nat, x: nat, y: nat)
    ensures base * (x + y) == base * x + base * y
  {
  }

  /** Digits, with single underscores between some of them. */
  predicate WellPlaced(s: string, base: nat) {
    && s != "" && s[0] != '_' && s[|s| - 1] != '_'
    && (forall k :: 0 <= k < |s| ==> s[k] == '_' || IsDigit(s[k], base))
    && (forall k :: 0 < k < |s| && s[k] == '_' ==> s[k - 1] != '_')
  }

  /** The digits of a text in order, everything else left out. */
  function DigitsIn(s: string): seq<nat> {
    if s == "" then []
    else
      match DigitValue(s[0])
      case Some(d) => [d] + DigitsIn(s[1..])
      case None => DigitsIn(s[1..])
  }

  lemma {:induction false} DigitsInSnoc(s: string, c: char)
    ensures DigitsIn(s + [c]) == DigitsIn(s) + match DigitValue(c) case Some(d) => [d] case None => []
  {
    if s == "" {
      assert s + [c] == [c] && [c][1..] == "";
    } else {
      assert (s + [c])[1..] == s[1..] + [c];
      DigitsInSnoc(s[1..], c);
    }
  }

  lemma WellPlacedDigit(s: string, base: nat)
    requires |s| >= 2 && IsDigit(s[|s| - 1], base)
    ensures var n := |s|; WellPlaced(s, base) <==> WellPlaced(if s[n - 2] == '_' then s[..n - 2] else s[..n - 1], base)
  {
    var n := |s|;
    var p := if s[n - 2] == '_' then s[..n - 2] else s[..n - 1];
    assert IsDigit(s[n - 1], base) ==> s[n - 1] != '_';
    if WellPlaced(s, base) {
      assert p != "" && p[0] == s[0];
    }
    if WellPlaced(p, base) {
      forall k | 0 <= k < n ensures s[k] == '_' || IsDigit(s[k], base) {
        if k < |p| {
          assert p[k] == s[k];
        }
      }
      forall k | 0 < k < n && s[k] == '_' ensures s[k - 1] != '_' {
        if k < |p| {
          assert p[k] == s[k] && p[k - 1] == s[k - 1];
        } else {
          assert p[|p| - 1] == s[|p| - 1];
        }
      }
    }
  }

  /** A numeral is read exactly when its digits are well placed, as their positional value. */
  lemma {:induction false} DigitsValueExactly(s: string, base: nat)
    ensures DigitsValue(s, base) == if WellPlaced(s, base) then Some(Positional(DigitsIn(s), base)) else None
  {
    var n := |s|;
    if n > 0 && IsDigit(s[n - 1], base) {
      var prefix := if n == 1 then "" else if s[n - 2] == '_' then s[..n - 2] else s[..n - 1];
      LastDigit(s, prefix, base);
      if n > 1 {
        DigitsValueExactly(prefix, base);
        WellPlacedDigit(s, base);
        hide Positional, DigitsIn, WellPlaced;
      } else {
        assert Positional(DigitsIn(""), base) == 0;
        hide Positional, DigitsIn;
      }
    }
  }

  lemma LastDigit(s: string, prefix: string, base: nat)
    requires s != "" && IsDigit(s[|s| - 1], base)
    requires prefix == s[..|s| - 1] || (|s| > 1 && s[|s| - 2] == '_' && prefix == s[..|s| - 2])
    ensures Positional(DigitsIn(s), base) == base * Positional(DigitsIn(prefix), base) + DigitValue(s[|s| - 1]).value
  {
    hide Positional, DigitsIn;
    var n := |s|;
    assert s[..n - 1] + [s[n - 1]] == s;
    DigitsInSnoc(s[..n - 1], s[n - 1]);
    PositionalSnoc(DigitsIn(s[..n - 1]), DigitValue(s[n - 1]).value, base);
    if prefix != s[..n - 1] {
      assert s[..n - 2] + ['_'] == s[..n - 1];
      DigitsInSnoc(s[..n - 2], '_');
      assert DigitsIn(prefix) + [] == DigitsIn(prefix);
    }
  }

  // ---------------------------------------------------------------------------
  // Blanks, sign and prefix
  // ---------------------------------------------------------------------------

  predicate Blank(s: string) {
    forall k :: 0 <= k < |s| ==> IsSpace(s[k])
  }

  predicate Tight(t: string) {
    t != "" && !IsSpace(t[0]) && !IsSpace(t[|t| - 1])
  }

  lemma {:induction false} StripLeftBlank(a: string, t: string)
    requires Blank(a) && t != "" && !IsSpace(t[0])
    ensures StripLeft(a + t) == t
  {
    if a == "" {
      assert a + t == t;
    } else {
      assert (a + t)[1..] == a[1..] + t;
      StripLeftBlank(a[1..], t);
    }
  }

  lemma {:induction false} StripRightBlank(t: string, b: string)
    requires Blank(b) && t != "" && !IsSpace(t[|t| - 1])
    ensures StripRight(t + b) == t
  {
    if b == "" {
      assert t + b == t;
    } else {
      assert (t + b)[..|t + b| - 1] == t + b[..|b| - 1];
      StripRightBlank(t, b[..|b| - 1]);
    }
  }

  lemma StripBlanks(a: string, t: string, b: string)
    requires Blank(a) && Blank(b) && Tight(t)
    ensures Strip(a + t + b) == t
  {
    assert a + t + b == a + (t + b);
    StripLeftBlank(a, t + b);
    StripRightBlank(t, b);
  }

  lemma {:induction false} StripLeftParts(s: string) returns (a: string)
    ensures s == a + StripLeft(s) && Blank(a) && (StripLeft(s) != "" ==> !IsSpace(StripLeft(s)[0]))
  {
    a := "";
    if s != "" && IsSpace(s[0]) {
      var rest := StripLeftParts(s[1..]);
      a := [s[0]] + rest;
    }
  }

  lemma {:induction false} StripRightParts(s: string) returns (b: string)
    ensures s == StripRight(s) + b && Blank(b) && (StripRight(s) != "" ==> !IsSpace(StripRight(s)[|StripRight(s)| - 1]))
  {
    b := "";
    if s != "" && IsSpace(s[|s| - 1]) {
      var rest := StripRightParts(s[..|s| - 1]);
      b := rest + [s[|s| - 1]];
    }
  }

  lemma StripParts(s: string) returns (a: string, b: string)
    ensures s == a + Strip(s) + b && Blank(a) && Blank(b) && (Strip(s) != "" ==> Tight(Strip(s)))
  {
    a := StripLeftParts(s);
    b := StripRightParts(StripLeft(s));
    assert Strip(s) != "" ==> Strip(s)[0] == StripLeft(s)[0];
  }

  /** What may stand between the sign and the digits. */
  predicate IsPrefix(prefix: string, base: nat) {
    prefix == "" || (base == 16 && (prefix == "0x" || prefix == "0X" || prefix == "0x_" || prefix == "0X_"))
  }

  predicate IsSign(sign: string) {
    sign == "" || sign == "+" || sign == "-"
  }

  /** The parts a numeral may consist of: blanks around a sign, a prefix and the digits. */
  datatype Parts = Parts(before: string, signed: string, after: string, sign: string, unsigned: string, prefix: string, body: string)

  predicate Spelling(s: string, p: Parts, base: nat) {
    && s == p.before + p.signed + p.after && Blank(p.before) && Blank(p.after)
    && p.signed == p.sign + p.unsigned && IsSign(p.sign)
    && p.unsigned == p.prefix + p.body && IsPrefix(p.prefix, base)
    && WellPlaced(p.body, base)
  }

  lemma PrefixDropped(prefix: string, body: string, base: nat)
    requires IsPrefix(prefix, base) && WellPlaced(body, base)
    ensures (if base == 16 then WithoutPrefix(prefix + body) else prefix + body) == body
    ensures Tight(prefix + body) && !IsSign([(prefix + body)[0]])
  {
    var u := prefix + body;
    assert IsDigit(body[0], base) && IsDigit(body[|body| - 1], base) && !IsDigit('x', base) && !IsDigit('X', base);
    assert |body| > 1 ==> body[1] == '_' || IsDigit(body[1], base);
    hide WellPlaced;
    if prefix == "" {
      assert u == body;
    } else {
      assert u[0] == '0' && (u[1] == 'x' || u[1] == 'X') && u[|u| - 1] == body[|body| - 1];
      if |prefix| == 2 {
        assert u[2] == body[0] && u[2..] == body;
      } else {
        assert u[2] == '_' && u[3..] == body;
      }
    }
  }

  lemma SignDropped(sign: string, u: string)
    requires IsSign(sign) && Tight(u) && !IsSign([u[0]])
    ensures WithoutSign(sign + u) == u && (IsNegative(sign + u) <==> sign == "-") && Tight(sign + u)
  {
    assert [u[0]] == "+" <==> u[0] == '+';
    assert [u[0]] == "-" <==> u[0] == '-';
    var t := sign + u;
    if sign == "" {
      assert t == u;
    } else {
      assert t[0] == sign[0] && t[1..] == u && t[|t| - 1] == u[|u| - 1];
    }
  }

  /** However it is spelled, with blanks around it, a sign, a prefix in base 16 and underscores, a
      numeral is read as the positional value of its digits under its sign. */
  lemma SpellingIsRead(s: string, p: Parts, base: nat)
    requires Spelling(s, p, base)
    ensures var v := Positional(DigitsIn(p.body), base);
            ParseInt(s, base) == Some(if p.sign == "-" then 0 - v else v)
  {
    PrefixDropped(p.prefix, p.body, base);
    hide Blank, IsPrefix, WellPlaced, Positional, DigitsIn, Strip, WithoutPrefix, WithoutSign;
    SignDropped(p.sign, p.unsigned);
    hide Tight, IsNegative, IsSign;
    StripBlanks(p.before, p.signed, p.after);
    DigitsValueExactly(p.body, base);
    hide *;
    ReadAs(s, p.signed, p.unsigned, p.body, base, Positional(DigitsIn(p.body), base));
  }

  lemma ReadAs(s: string, t: string, u: string, body: string, base: nat, v: nat)
    requires Strip(s) == t && WithoutSign(t) == u && body == (if base == 16 then WithoutPrefix(u) else u)
    requires DigitsValue(body, base) == Some(v)
    ensures ParseInt(s, base) == Some(if IsNegative(t) then 0 - v else v)
  {
  }

  lemma SignParts(t: string) returns (sign: string)
    ensures t == sign + WithoutSign(t) && IsSign(sign)
  {
    sign := t[..|t| - |WithoutSign(t)|];
    if |sign| == 1 {
      assert sign == [t[0]];
    } else {
      assert sign == "";
    }
  }

  lemma PrefixParts(u: string, base: nat) returns (prefix: string)
    ensures var body := if base == 16 then WithoutPrefix(u) else u; u == prefix + body && IsPrefix(prefix, base)
  {
    if base == 16 {
      prefix := u[..|u| - |WithoutPrefix(u)|];
      if |prefix| == 2 {
        assert prefix == [u[0], u[1]];
      } else if |prefix| == 3 {
        assert prefix == [u[0], u[1], u[2]];
      } else {
        assert prefix == "";
      }
    } else {
      prefix := "";
    }
  }

  /** And nothing else is read. */
  lemma ReadIsSpelled(s: string, base: nat) returns (p: Parts)
    ensures ParseInt(s, base).Some? ==> Spelling(s, p, base)
  {
    var before, after := StripParts(s);
    var t := Strip(s);
    var u := WithoutSign(t);
    var body := if base == 16 then WithoutPrefix(u) else u;
    DigitsValueExactly(body, base);
    hide *;
    var sign := SignParts(t);
    var prefix := PrefixParts(u, base);
    p := Parts(before, t, after, sign, u, prefix, body);
    ReadSpelling(s, p, base);
  }

  lemma ReadSpelling(s: string, p: Parts, base: nat)
    requires s == p.before + p.signed + p.after && Blank(p.before) && Blank(p.after) && p.signed == Strip(s)
    requires p.signed == p.sign + p.unsigned && IsSign(p.sign) && p.unsigned == WithoutSign(p.signed)
    requires p.unsigned == p.prefix + p.body && IsPrefix(p.prefix, base)
    requires p.body == if base == 16 then WithoutPrefix(p.unsigned) else p.unsigned
    requires DigitsValue(p.body, base).Some? ==> WellPlaced(p.body, base)
    ensures ParseInt(s, base).Some? ==> Spelling(s, p, base)
  {
    hide Blank, Strip, WithoutSign, WithoutPrefix, WellPlaced, DigitsValue, IsSign, IsPrefix;
  }
}
