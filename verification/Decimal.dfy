/** Decimal text of integers: what strconv and the hand-written itoa produce and read. */
module Decimal {
  import opened Sequences

  predicate IsDigit(c: byte) {
    48 <= c <= 57
  }

  predicate AllDigits(d: seq<byte>) {
    forall k :: 0 <= k < |d| ==> IsDigit(d[k])
  }

  function Digits(n: nat): (d: seq<byte>)
    ensures |d| >= 1
  {
    if n < 10 then [48 + n] else Digits(n / 10) + [48 + n % 10]
  }

  function Value(d: seq<byte>): int {
    if d == [] then 0 else 10 * Value(d[..|d| - 1]) + d[|d| - 1] - 48
  }

  lemma {:induction false} ValueOfDigits(n: nat)
    ensures Value(Digits(n)) == n
    ensures AllDigits(Digits(n))
  {
    if n >= 10 {
      ValueOfDigits(n / 10);
      assert Digits(n)[..|Digits(n)| - 1] == Digits(n / 10);
    } else {
      assert Value([48 + n]) == 10 * Value([]) + n;
    }
  }

  function Pow10(k: nat): nat {
    if k == 0 then 1 else 10 * Pow10(k - 1)
  }

  /** n has at most k digits exactly when it is below 10 to the k. */
  lemma {:induction false} DigitCount(n: nat, k: pos)
    ensures |Digits(n)| <= k <==> n < Pow10(k)
  {
    if k == 1 {
      assert Pow10(1) == 10 * Pow10(0);
    } else if n >= 10 {
      DigitCount(n / 10, k - 1);
    } else {
      PowGrows(k);
    }
  }

  lemma PowGrows(k: pos)
    ensures Pow10(k) >= 10
  {
    if k == 1 {
      assert Pow10(1) == 10 * Pow10(0);
    }
  }

  /** strconv.Itoa. */
  function Itoa(i: int): seq<byte> {
    if i < 0 then [45] + Digits(-i) else Digits(i)
  }

  const MAX_INT64 := 0x7fff_ffff_ffff_ffff

  /** strconv.Atoi: an optional sign and at least one digit, within the 64-bit range. */
  function Atoi(s: seq<byte>): Option<int> {
    var neg := |s| > 0 && s[0] == 45;
    var d := if |s| > 0 && (s[0] == 45 || s[0] == 43) then s[1..] else s;
    if d == [] || !AllDigits(d) then None
    else
      var v := if neg then -Value(d) else Value(d);
      if -MAX_INT64 - 1 <= v <= MAX_INT64 then Some(v) else None
  }

  lemma AtoiOfItoa(i: int)
    requires -MAX_INT64 - 1 <= i <= MAX_INT64
    ensures Atoi(Itoa(i)) == Some(i)
  {
    var n := if i < 0 then -i else i;
    ValueOfDigits(n);
    var s := Itoa(i);
    if i < 0 {
      assert s[1..] == Digits(n);
    } else {
      assert IsDigit(s[0]);
    }
  }

  function Zeroes(k: nat): (z: seq<byte>) {
    Repeat(48, k)
  }

  lemma {:induction false} ValueOfZeroes(k: nat)
    ensures Value(Zeroes(k)) == 0
  {
    if k > 0 {
      ValueOfZeroes(k - 1);
      assert Zeroes(k)[..k - 1] == Zeroes(k - 1);
    }
  }

  lemma {:induction false} ValueOfPadded(k: nat, n: nat)
    ensures Value(Zeroes(k) + Digits(n)) == n && AllDigits(Zeroes(k) + Digits(n))
  {
    var d := Zeroes(k) + Digits(n);
    ValueOfDigits(n);
    if n < 10 {
      ValueOfZeroes(k);
      assert d[..|d| - 1] == Zeroes(k);
    } else {
      ValueOfPadded(k, n / 10);
      assert d[..|d| - 1] == Zeroes(k) + Digits(n / 10);
    }
  }

  /** Every digit string is the decimal text of its value behind some zeroes. */
  lemma {:induction false} DigitsOfValue(d: seq<byte>) returns (k: nat)
    requires d != [] && AllDigits(d)
    ensures Value(d) >= 0 && d == Zeroes(k) + Digits(Value(d))
  {
    var n := |d| - 1;
    var last := [d[n]];
    assert d == d[..n] + last;
    if n == 0 {
      k := 0;
      assert Value(d[..0]) == 0;
    } else {
      k := DigitsOfValue(d[..n]);
      var v := Value(d[..n]);
      if v == 0 {
        k := k + 1;
        assert d[..n] == Zeroes(k);
      } else {
        assert Digits(Value(d)) == Digits(v) + last;
        ConcatAssoc(Zeroes(k), Digits(v), last);
      }
    }
  }

  /** A way to write i: a sign, which may be missing in front of a number that is not negative,
      some zeroes, and the decimal text of the amount. */
  predicate IsNumeral(s: seq<byte>, i: int, k: nat) {
    || (i >= 0 && s == Zeroes(k) + Digits(i))
    || (i >= 0 && s == [43] + (Zeroes(k) + Digits(i)))
    || (i <= 0 && s == [45] + (Zeroes(k) + Digits(-i)))
  }

  /** strconv.Atoi reads exactly the numerals of the 64-bit integers. */
  lemma AtoiExactly(s: seq<byte>, i: int)
    ensures Atoi(s) == Some(i) <==>
              -0x8000_0000_0000_0000 <= i < 0x8000_0000_0000_0000 && exists k :: IsNumeral(s, i, k)
  {
    if Atoi(s) == Some(i) {
      var d := if |s| > 0 && (s[0] == 45 || s[0] == 43) then s[1..] else s;
      var k := DigitsOfValue(d);
      assert s == if s[0] == 45 || s[0] == 43 then [s[0]] + d else d;
      assert IsNumeral(s, i, k);
    }
    forall k | IsNumeral(s, i, k) && -0x8000_0000_0000_0000 <= i < 0x8000_0000_0000_0000 ensures Atoi(s) == Some(i) {
      NumeralIsRead(s, i, k);
    }
  }

  lemma NumeralIsRead(s: seq<byte>, i: int, k: nat)
    requires IsNumeral(s, i, k) && -0x8000_0000_0000_0000 <= i < 0x8000_0000_0000_0000
    ensures Atoi(s) == Some(i)
  {
    var n := if i < 0 then -i else i;
    var d := Zeroes(k) + Digits(n);
    ValueOfPadded(k, n);
    assert IsDigit(d[0]);
    if s[0] == 45 || s[0] == 43 {
      assert s[1..] == d;
    }
  }

  /** The digits of n are still to be written in front of `tail`. */
  ghost predicate Writing(i: int, n: int, tail: seq<byte>) {
    if i <= 0 then n == i && tail == []
    else n >= 0 && Digits(i) == (if n > 0 then Digits(n) else []) + tail
  }

  lemma WriteDigit(i: int, n: pos, tail: seq<byte>)
    requires Writing(i, n, tail)
    ensures Writing(i, n / 10, [48 + n % 10] + tail)
  {
    if n >= 10 {
      ConcatAssoc(Digits(n / 10), [48 + n % 10], tail);
    }
  }

  lemma Written(i: int, n: int, tail: seq<byte>, width: pos)
    requires Writing(i, n, tail) && i != 0
    ensures n <= 0 ==> tail == if i < 0 then [] else Digits(i)
    ensures n <= 0 && |tail| <= width ==> i < Pow10(width)
    ensures n > 0 && |tail| == width ==> i >= Pow10(width)
  {
    if i > 0 {
      DigitCount(i, width);
    }
  }

  /** The hand-written itoa: digits are written backwards into a fixed buffer. A negative number
      gives the empty text; None when the buffer is too small, where the program panics. */
  method FormatInto(i: int, width: pos) returns (r: Option<seq<byte>>)
    ensures i < 0 ==> r == Some([])
    ensures i >= 0 ==> r == if i < Pow10(width) then Some(Digits(i)) else None
  {
    if i == 0 {
      DigitCount(0, width);
      return Some([48]);
    }
    var b := new byte[width](_ => 0);
    var p, n := width, i;
    assert i > 0 ==> Digits(i) + [] == Digits(i);
    while n > 0
      invariant 0 <= p <= width
      invariant Writing(i, n, b[p..])
    {
      Written(i, n, b[p..], width);
      if p == 0 {
        return None; // index out of range
      }
      WriteDigit(i, n, b[p..]);
      ghost var tail := b[p..];
      p := p - 1;
      b[p] := 48 + n % 10;
      assert b[p..] == [48 + n % 10] + tail;
      n := n / 10;
    }
    Written(i, n, b[p..], width);
    return Some(b[p..]);
  }
}
