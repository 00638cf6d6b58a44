/** Replacing a placeholder in a text: when the result can still hold the placeholder. */
module Substitution {
  import opened Sequences
  import opened Text

  /** `r` neither holds the placeholder nor ends in a proper, non-empty beginning of it. */
  ghost predicate Safe<T>(p: seq<T>, r: seq<T>) {
    !Contains(r, p) && forall k :: 0 < k < |p| && k <= |r| ==> !At(r, |r| - k, p[..k])
  }

  lemma LeftPart<T>(a: seq<T>, b: seq<T>, i: nat, p: seq<T>)
    requires At(a + b, i, p) && i + |p| <= |a|
    ensures Contains(a, p)
  {
    assert (a + b)[i..i + |p|] == a[i..i + |p|];
    assert At(a, i, p);
  }

  lemma RightPart<T>(a: seq<T>, b: seq<T>, i: nat, p: seq<T>)
    requires At(a + b, i, p) && i >= |a|
    ensures Contains(b, p)
  {
    assert (a + b)[i..i + |p|] == b[i - |a|..i - |a| + |p|];
    assert At(b, i - |a|, p);
  }

  /** An occurrence that crosses the border starts with an end of the left part. */
  lemma CrossingPart<T>(a: seq<T>, b: seq<T>, i: nat, p: seq<T>)
    requires At(a + b, i, p) && i < |a| < i + |p|
    ensures At(a, i, p[..|a| - i])
    ensures b != [] && b[0] == p[|a| - i]
  {
    var k := |a| - i;
    assert p[..k] == (a + b)[i..i + |p|][..k] == a[i..];
    assert p[k] == (a + b)[i..i + |p|][k] == b[0];
  }

  lemma NothingAtSplice<T>(gap: seq<T>, r: seq<T>, rest: seq<T>, p: seq<T>, i: nat)
    requires p != [] && Safe(p, r) && r != [] && r[0] !in p
    requires !Contains(gap, p) && !Contains(rest, p)
    ensures !At(gap + (r + rest), i, p)
  {
    var tail := r + rest;
    if At(gap + tail, i, p) {
      if i + |p| <= |gap| {
        LeftPart(gap, tail, i, p);
      } else if i < |gap| {
        CrossingPart(gap, tail, i, p);
      } else {
        RightPartAt(gap, tail, i, p);
        var j := i - |gap|;
        if j + |p| <= |r| {
          LeftPart(r, rest, j, p);
        } else if j < |r| {
          CrossingPart(r, rest, j, p);
        } else {
          RightPart(r, rest, j, p);
        }
      }
      assert false;
    }
  }

  lemma RightPartAt<T>(a: seq<T>, b: seq<T>, i: nat, p: seq<T>)
    requires At(a + b, i, p) && i >= |a|
    ensures At(b, i - |a|, p)
  {
    assert (a + b)[i..i + |p|] == b[i - |a|..i - |a| + |p|];
  }

  lemma {:induction false} NoneInWeave<T>(gaps: seq<seq<T>>, p: seq<T>, r: seq<T>)
    requires |gaps| >= 1 && p != [] && Safe(p, r) && r != [] && r[0] !in p
    requires forall k :: 0 <= k < |gaps| ==> !Contains(gaps[k], p)
    ensures !Contains(Weave(gaps, r), p)
  {
    if |gaps| > 1 {
      var rest := Weave(gaps[1..], r);
      NoneInWeave(gaps[1..], p, r);
      ConcatAssoc(gaps[0], r, rest);
      forall i: int | 0 <= i ensures !At(gaps[0] + (r + rest), i, p) {
        NothingAtSplice(gaps[0], r, rest, p, i);
      }
    }
  }

  /** Text that begins with the placeholder and continues with `tail`, too short to hold another. */
  lemma ReplaceAtFront<T>(p: seq<T>, tail: seq<T>, r: seq<T>)
    requires |tail| < |p|
    ensures ReplaceAll(p + tail, p, r) == r + tail
  {
    var s := p + tail;
    assert s[..|p|] == p && s[|p|..] == tail;
    assert At(s, 0, p);
    assert Index(s, p) == 0;
    assert Gaps(tail, p) == [tail];
    assert Gaps(s, p) == [[]] + [tail];
    assert Weave([[]] + [tail], r) == [] + r + Weave([tail], r);
  }

  /** An unsafe replacement leaves the placeholder in some text. */
  lemma UnsafeLeavesOne<T>(p: seq<T>, r: seq<T>) returns (s: seq<T>)
    requires p != [] && !Safe(p, r)
    ensures Contains(ReplaceAll(s, p, r), p)
  {
    if Contains(r, p) {
      s := p + [];
      ReplaceAtFront(p, [], r);
      assert r + [] == r;
    } else {
      var k :| 0 < k < |p| && k <= |r| && At(r, |r| - k, p[..k]);
      s := p + p[k..];
      ReplaceAtFront(p, p[k..], r);
      var out := r + p[k..];
      assert out[|r| - k..|r| - k + |p|] == r[|r| - k..] + p[k..] == p;
      assert At(out, |r| - k, p);
    }
  }

  /** One pass of replacing leaves no placeholder in any text exactly when the replacement is safe;
      it need only begin with an element foreign to the placeholder. */
  lemma OnePassIsEnough<T(!new)>(p: seq<T>, r: seq<T>)
    requires p != [] && r != [] && r[0] !in p
    ensures (forall s: seq<T> :: !Contains(ReplaceAll(s, p, r), p)) <==> Safe(p, r)
  {
    if Safe(p, r) {
      forall s: seq<T> ensures !Contains(ReplaceAll(s, p, r), p) {
        GapsAreTheRest(s, p);
        NoneInWeave(Gaps(s, p), p, r);
      }
    } else {
      var s := UnsafeLeavesOne(p, r);
    }
  }

  /** Replacing one element by another is done element by element. */
  lemma {:induction false} ReplaceOne<T>(s: seq<T>, a: T, b: T)
    ensures |ReplaceAll(s, [a], [b])| == |s|
    ensures forall i :: 0 <= i < |s| ==> ReplaceAll(s, [a], [b])[i] == if s[i] == a then b else s[i]
    decreases |s|
  {
    var i := Index(s, [a]);
    if i == -1 {
      forall j | 0 <= j < |s| ensures s[j] != a {
        NotAt(s, j, a);
      }
    } else {
      ReplaceOne(s[i + 1..], a, b);
      ReplaceFirst(s, a, b);
      forall j | 0 <= j < i ensures s[j] != a {
        NotAt(s, j, a);
      }
    }
  }

  lemma ReplaceFirst<T>(s: seq<T>, a: T, b: T)
    requires Index(s, [a]) != -1
    ensures var i := Index(s, [a]);
            s[i] == a && ReplaceAll(s, [a], [b]) == s[..i] + [b] + ReplaceAll(s[i + 1..], [a], [b])
  {
    var i := Index(s, [a]);
    assert s[i] == s[i..i + 1][0] == a;
    var rest := Gaps(s[i + 1..], [a]);
    assert ([s[..i]] + rest)[1..] == rest;
  }

  lemma NotAt<T>(s: seq<T>, j: nat, a: T)
    requires j < |s| && !At(s, j, [a])
    ensures s[j] != a
  {
    assert s[j..j + 1] == [s[j]];
  }
}
