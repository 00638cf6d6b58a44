/** Bytes, optional values and the few facts about sequences that every component uses. */
module Sequences {

  type byte = x: int | 0 <= x < 256

  type pos = n: nat | n > 0 witness 1

  datatype Option<+T> = None | Some(value: T)

  function Min(a: int, b: int): int {
    if a < b then a else b
  }

  function Repeat<T>(x: T, n: nat): (s: seq<T>)
    ensures |s| == n && forall i :: 0 <= i < n ==> s[i] == x
  {
    seq(n, i => x)
  }

  function Zeros(n: nat): (s: seq<byte>)
    ensures |s| == n && forall i :: 0 <= i < n ==> s[i] == 0
  {
    seq(n, i => 0)
  }

  /** a and b in turn, n times each. */
  function Alternate<T>(a: T, b: T, n: nat): (s: seq<T>)
    ensures |s| == 2 * n
  {
    seq(2 * n, i => if i % 2 == 0 then a else b)
  }

  lemma AlternateCons<T>(a: T, b: T, n: pos)
    ensures Alternate(a, b, n) == [a, b] + Alternate(a, b, n - 1)
  {
    forall i | 2 <= i < 2 * n ensures Alternate(a, b, n)[i] == Alternate(a, b, n - 1)[i - 2] {
      assert (i - 2) % 2 == i % 2;
    }
  }

  function Flatten<T>(parts: seq<seq<T>>): seq<T> {
    if parts == [] then [] else parts[0] + Flatten(parts[1..])
  }

  lemma {:induction false} FlattenAppend<T>(parts: seq<seq<T>>, last: seq<T>)
    ensures Flatten(parts + [last]) == Flatten(parts) + last
  {
    if parts == [] {
      assert [last][1..] == [];
      assert Flatten([last]) == last + Flatten([last][1..]) == last;
    } else {
      assert (parts + [last])[1..] == parts[1..] + [last];
      FlattenAppend(parts[1..], last);
    }
  }

  lemma {:induction false} FlattenConcat<T>(a: seq<seq<T>>, b: seq<seq<T>>)
    ensures Flatten(a + b) == Flatten(a) + Flatten(b)
  {
    if a == [] {
      assert a + b == b;
    } else {
      assert (a + b)[1..] == a[1..] + b;
      FlattenConcat(a[1..], b);
    }
  }

  lemma Uncons<T>(s: seq<T>)
    requires s != []
    ensures [s[0]] + s[1..] == s
  {
  }

  lemma SliceOfSlice<T>(s: seq<T>, lo: nat, hi: nat, a: nat, b: nat)
    requires lo <= hi <= |s| && a <= b <= hi - lo
    ensures s[lo..hi][a..b] == s[lo + a..lo + b]
  {
    var t := s[lo..hi];
    forall k | 0 <= k < b - a ensures t[a..b][k] == s[lo + a..lo + b][k] {
      assert t[a..b][k] == t[a + k] == s[lo + (a + k)];
    }
    assert t[a..b] == s[lo + a..lo + b];
  }

  lemma ConcatAssoc<T>(a: seq<T>, b: seq<T>, c: seq<T>)
    ensures a + b + c == a + (b + c)
  {
  }

  /** The big-endian 16-bit value of two bytes. */
  function Be16(hi: byte, lo: byte): (r: int)
    ensures 0 <= r < 0x1_0000
  {
    hi * 256 + lo
  }

  function PutBe16(n: int): (r: seq<byte>)
    requires 0 <= n < 0x1_0000
    ensures |r| == 2 && Be16(r[0], r[1]) == n
  {
    [n / 256, n % 256]
  }

  /** Quotient and remainder are the only pair of their kind. */
  lemma DivUnique(n: nat, b: pos, q: nat, r: nat)
    requires n == q * b + r && r < b
    ensures n / b == q && n % b == r
  {
    var q', r' := n / b, n % b;
    assert q' * b + r' == n;
    if q' > q {
      assert (q' - q) * b >= b by { MulAtLeast(q' - q, b); }
    } else if q' < q {
      assert (q - q') * b >= b by { MulAtLeast(q - q', b); }
    }
  }

  lemma MulAtLeast(d: pos, b: nat)
    ensures d * b >= b
  {
    assert d * b == (d - 1) * b + b;
    assert (d - 1) * b >= 0;
  }

  lemma DivStep(n: nat, b: pos)
    requires n >= b
    ensures n / b == (n - b) / b + 1 && n % b == (n - b) % b
  {
    var q, r := (n - b) / b, (n - b) % b;
    assert n - b == q * b + r;
    assert (q + 1) * b == q * b + b;
    DivUnique(n, b, q + 1, r);
  }
}
