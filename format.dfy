/** Optional values: the model's way of saying "no result" where the
    program would loop forever or read past its input. */
module Optional {
  datatype Option<+T> = None | Some(value: T)
}

/** Decimal text of integers, as C++'s `std::to_string` and `operator<<`
    produce it, the right-justified padding of `std::setw`, and a reader
    that recovers an integer from the front of a string. */
module Format {
  import opened Optional

  predicate IsDigit(ch: char) {
    '0' <= ch <= '9'
  }

  predicate AllDigits(s: string) {
    forall i :: 0 <= i < |s| ==> IsDigit(s[i])
  }

  function DigitChar(d: nat): (ch: char)
    requires d < 10
    ensures IsDigit(ch) && ch as int - '0' as int == d
  {
    ('0' as int + d) as char
  }

  /** Decimal digits of a natural number, most significant first, no leading zero. */
  function NatToString(n: nat): (s: string)
    ensures 1 <= |s|
    decreases n
  {
    if n < 10 then [DigitChar(n)] else NatToString(n / 10) + [DigitChar(n % 10)]
  }

  /** The text is all digits, with no leading zero unless the number is 0. */
  lemma {:induction false} NatToStringDigits(n: nat)
    ensures AllDigits(NatToString(n))
    ensures NatToString(n)[0] == '0' ==> n == 0
    decreases n
  {
    if n >= 10 {
      NatToStringDigits(n / 10);
    }
  }

  /** `std::to_string(i)`: a minus sign for negative numbers, then the digits. */
  function IntToString(i: int): (s: string)
    ensures 1 <= |s|
  {
    if i < 0 then "-" + NatToString(-i) else NatToString(i)
  }

  /** The value of a string of decimal digits (leading zeros allowed). */
  function DigitsValue(s: string): int {
    if s == [] then 0 else DigitsValue(s[..|s| - 1]) * 10 + (s[|s| - 1] as int - '0' as int)
  }

  lemma {:induction false} DigitsValueOfNatToString(n: nat)
    ensures DigitsValue(NatToString(n)) == n
    decreases n
  {
    var s := NatToString(n);
    NatToStringDigits(n);
    if n >= 10 {
      NatToStringDigits(n / 10);
      DigitsValueOfNatToString(n / 10);
      assert s[..|s| - 1] == NatToString(n / 10);
    }
  }

  /** `string(k, ch)`: `k` copies of `ch`. */
  function Repeat(k: nat, ch: char): (s: string)
    ensures |s| == k && forall i :: 0 <= i < k ==> s[i] == ch
  {
    seq(k, _ => ch)
  }

  /** Leading zeros do not change the value of a digit string. */
  lemma {:induction false} DigitsValueWithZeros(k: nat, s: string)
    requires AllDigits(s)
    ensures AllDigits(Repeat(k, '0') + s) && DigitsValue(Repeat(k, '0') + s) == DigitsValue(s)
    decreases |s|
  {
    var z := Repeat(k, '0') + s;
    if s == [] {
      ZerosValue(k);
      assert z == Repeat(k, '0');
    } else {
      DigitsValueWithZeros(k, s[..|s| - 1]);
      assert z[..|z| - 1] == Repeat(k, '0') + s[..|s| - 1];
    }
  }

  lemma {:induction false} ZerosValue(k: nat)
    ensures AllDigits(Repeat(k, '0')) && DigitsValue(Repeat(k, '0')) == 0
  {
    if k > 0 {
      ZerosValue(k - 1);
      assert Repeat(k, '0')[..k - 1] == Repeat(k - 1, '0');
    }
  }

  /** Numbers below 10^d have at most d digits. */
  lemma {:induction false} NatToStringLength(n: nat, d: nat, p: nat)
    requires 1 <= d && p == Pow10(d) && n < p
    ensures |NatToString(n)| <= d
    decreases d
  {
    if n >= 10 {
      NatToStringLength(n / 10, d - 1, Pow10(d - 1));
    }
  }

  function Pow10(d: nat): (p: nat)
    ensures 1 <= p
  {
    if d == 0 then 1 else 10 * Pow10(d - 1)
  }

  /** Number of leading decimal digits of `s`. */
  function SpanDigits(s: string): (k: nat)
    ensures k <= |s|
  {
    if s == [] || !IsDigit(s[0]) then 0 else 1 + SpanDigits(s[1..])
  }

  lemma {:induction false} SpanDigitsOfDigits(ds: string, rest: string)
    requires AllDigits(ds)
    requires rest == [] || !IsDigit(rest[0])
    ensures SpanDigits(ds + rest) == |ds|
    decreases |ds|
  {
    if ds != [] {
      assert (ds + rest)[1..] == ds[1..] + rest;
      SpanDigitsOfDigits(ds[1..], rest);
    }
  }

  /** Reads an optionally negative decimal integer from the front of `s`;
      returns it and the text after its last digit. */
  function ReadInt(s: string): (r: Option<(int, string)>)
    ensures r.Some? ==> |r.value.1| < |s|
  {
    if |s| > 0 && s[0] == '-' then
      var k := SpanDigits(s[1..]);
      if k == 0 then None else Some((-DigitsValue(s[1..][..k]), s[1 + k..]))
    else
      var k := SpanDigits(s);
      if k == 0 then None else Some((DigitsValue(s[..k]), s[k..]))
  }

  /** Reading back what `IntToString` wrote gives the same integer, as long
      as no digit follows it. */
  lemma ReadIntOfIntToString(i: int, rest: string)
    requires rest == [] || !IsDigit(rest[0])
    ensures ReadInt(IntToString(i) + rest) == Some((i, rest))
  {
    if i < 0 {
      var ds := NatToString(-i);
      assert IntToString(i) + rest == "-" + (ds + rest) by {
        assert IntToString(i) == "-" + ds;
      }
      ReadNegative(-i, rest);
    } else {
      assert IntToString(i) == NatToString(i);
      ReadNonNegative(i, rest);
    }
  }

  lemma ReadNonNegative(n: nat, rest: string)
    requires rest == [] || !IsDigit(rest[0])
    ensures ReadInt(NatToString(n) + rest) == Some((n, rest))
  {
    var ds := NatToString(n);
    var s := ds + rest;
    NatToStringDigits(n);
    assert s[0] != '-';
    SpanDigitsOfDigits(ds, rest);
    assert s[..|ds|] == ds;
    assert s[|ds|..] == rest;
    DigitsValueOfNatToString(n);
  }

  lemma ReadNegative(n: nat, rest: string)
    requires rest == [] || !IsDigit(rest[0])
    ensures ReadInt("-" + (NatToString(n) + rest)) == Some((-(n as int), rest))
  {
    var ds := NatToString(n);
    var t := ds + rest;
    var s := "-" + t;
    assert s[1..] == t;
    NatToStringDigits(n);
    SpanDigitsOfDigits(ds, rest);
    assert t[..|ds|] == ds;
    assert s[1 + |ds|..] == rest;
    DigitsValueOfNatToString(n);
  }

  /** The pieces joined end to end. */
  function Concat<T>(ss: seq<seq<T>>): seq<T> {
    if ss == [] then [] else Concat(ss[..|ss| - 1]) + ss[|ss| - 1]
  }

  lemma {:induction false} ConcatAppend<T>(a: seq<seq<T>>, b: seq<seq<T>>)
    ensures Concat(a + b) == Concat(a) + Concat(b)
    decreases |b|
  {
    if b == [] {
      assert a + b == a;
    } else {
      var n := |b| - 1;
      var ab := a + b;
      assert ab[..|ab| - 1] == a + b[..n];
      assert ab[|ab| - 1] == b[n];
      ConcatAppend(a, b[..n]);
      var x, y, z := Concat(a), Concat(b[..n]), b[n];
      assert x + y + z == x + (y + z);
    }
  }

  lemma ConcatHead<T>(ss: seq<seq<T>>)
    requires ss != []
    ensures Concat(ss) == ss[0] + Concat(ss[1..])
  {
    assert ss == [ss[0]] + ss[1..];
    ConcatAppend([ss[0]], ss[1..]);
    ConcatOne(ss[0]);
  }

  lemma ConcatSnoc<T>(ss: seq<seq<T>>, x: seq<T>)
    ensures Concat(ss + [x]) == Concat(ss) + x
  {
    ConcatAppend(ss, [x]);
    ConcatOne(x);
  }

  // Regroup and Regroup4 re-associate concatenations. They are generic so
  // that the proofs using them reason about the regrouping without the
  // definitions of the pieces in view.

  /** Regrouping a concatenation of five pieces. */
  lemma Regroup<T>(a: seq<T>, b: seq<T>, c: seq<T>, d: seq<T>, e: seq<T>)
    ensures a + b + c + d + e == a + (b + (c + d + e))
  {
  }

  lemma Regroup4<T>(a: seq<T>, b: seq<T>, c: seq<T>, d: seq<T>)
    ensures a + b + c + d == a + (b + c + d)
  {
  }

  lemma ConcatOne<T>(x: seq<T>)
    ensures Concat([x]) == x
  {
    assert [x][..0] == [];
  }

  /** `os << setw(w) << s`: right-justify `s` in a field of width `w` by
      padding with spaces on the left; a wider `s` is written whole. */
  function LeftPad(s: string, w: int): (r: string)
    ensures |r| == if |s| < w then w else |s|
  {
    if |s| < w then Repeat(w - |s|, ' ') + s else s
  }

  /** The padded field ends with the whole text, preceded only by spaces. */
  lemma LeftPadShape(s: string, w: int)
    ensures var r := LeftPad(s, w);
      && r[|r| - |s|..] == s
      && forall i :: 0 <= i < |r| - |s| ==> r[i] == ' '
  {
  }
}
