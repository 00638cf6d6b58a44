/** Splitting, joining, searching and replacing, over sequences of any element type, so that the
    same laws serve byte strings (paths, packet fields) and text (menu lines). */
module Text {
  import opened Sequences

  /** One byte a character, exact for characters below 256. */
  function Ascii(s: string): (b: seq<byte>)
    ensures |b| == |s|
  {
    seq(|s|, i requires 0 <= i < |s| => (s[i] as int) % 256)
  }

  /** Bytes as text, one character each. */
  function Plain(raw: seq<byte>): (s: string)
    ensures |s| == |raw|
  {
    seq(|raw|, i requires 0 <= i < |raw| => raw[i] as char)
  }

  // ----- Split and join on one separator element -----

  function Split<T(==)>(s: seq<T>, sep: T): (parts: seq<seq<T>>)
    ensures |parts| >= 1
  {
    if s == [] then [[]]
    else
      var rest := Split(s[1..], sep);
      if s[0] == sep then [[]] + rest else [[s[0]] + rest[0]] + rest[1..]
  }

  function Join<T>(parts: seq<seq<T>>, sep: T): seq<T>
    requires |parts| >= 1
  {
    if |parts| == 1 then parts[0] else parts[0] + [sep] + Join(parts[1..], sep)
  }

  ghost predicate Free<T>(parts: seq<seq<T>>, sep: T) {
    forall k :: 0 <= k < |parts| ==> sep !in parts[k]
  }

  lemma {:induction false} JoinOfSplit<T>(s: seq<T>, sep: T)
    ensures Join(Split(s, sep), sep) == s
    ensures Free(Split(s, sep), sep)
  {
    if s != [] {
      JoinOfSplit(s[1..], sep);
      var rest := Split(s[1..], sep);
      if s[0] == sep {
        assert ([[]] + rest)[1..] == rest;
      } else if |rest| > 1 {
        assert ([[s[0]] + rest[0]] + rest[1..])[1..] == rest[1..];
        assert Join(Split(s, sep), sep) == [s[0]] + (rest[0] + [sep] + Join(rest[1..], sep));
      }
    }
  }

  lemma {:induction false} SplitOfFree<T>(s: seq<T>, sep: T)
    requires sep !in s
    ensures Split(s, sep) == [s]
  {
    if s != [] {
      SplitOfFree(s[1..], sep);
      assert [s[0]] + s[1..] == s;
    }
  }

  lemma {:induction false} SplitAppend<T>(a: seq<T>, b: seq<T>, sep: T)
    ensures Split(a + [sep] + b, sep) == Split(a, sep) + Split(b, sep)
  {
    var whole := a + [sep] + b;
    if a == [] {
      assert whole == [sep] + b && whole[1..] == b;
    } else {
      assert whole[1..] == a[1..] + [sep] + b;
      SplitAppend(a[1..], b, sep);
    }
  }

  lemma {:induction false} SplitOfJoin<T>(parts: seq<seq<T>>, sep: T)
    requires |parts| >= 1 && Free(parts, sep)
    ensures Split(Join(parts, sep), sep) == parts
  {
    SplitOfFree(parts[0], sep);
    if |parts| > 1 {
      SplitOfJoin(parts[1..], sep);
      SplitAppend(parts[0], Join(parts[1..], sep), sep);
      assert [parts[0]] + parts[1..] == parts;
    }
  }

  lemma {:induction false} OneSeparator<T>(s: seq<T>, sep: T)
    ensures |Split(s, sep)| >= 2 <==> sep in s
  {
    if s != [] {
      OneSeparator(s[1..], sep);
      assert s == [s[0]] + s[1..];
    }
  }

  lemma {:induction false} TwoSeparators<T>(s: seq<T>, sep: T)
    ensures |Split(s, sep)| >= 3 <==> exists i, j :: 0 <= i < j < |s| && s[i] == sep && s[j] == sep
  {
    if s != [] {
      var rest := s[1..];
      TwoSeparators(rest, sep);
      OneSeparator(rest, sep);
      if i, j :| 0 <= i < j < |rest| && rest[i] == sep && rest[j] == sep {
        assert s[i + 1] == sep && s[j + 1] == sep;
      }
      if s[0] == sep && sep in rest {
        var j :| 0 <= j < |rest| && rest[j] == sep;
        assert s[0] == sep && s[j + 1] == sep;
      }
      if i, j :| 0 <= i < j < |s| && s[i] == sep && s[j] == sep {
        assert rest[j - 1] == sep && (i > 0 ==> rest[i - 1] == sep);
      }
    }
  }

  lemma {:induction false} JoinAppend<T>(a: seq<seq<T>>, b: seq<seq<T>>, sep: T)
    requires |a| >= 1 && |b| >= 1
    ensures Join(a + b, sep) == Join(a, sep) + [sep] + Join(b, sep)
  {
    assert (a + b)[1..] == a[1..] + b;
    if |a| > 1 {
      JoinAppend(a[1..], b, sep);
      ConcatAssoc(a[0] + [sep], Join(a[1..], sep), [sep] + Join(b, sep));
      ConcatAssoc(Join(a[1..], sep), [sep], Join(b, sep));
      ConcatAssoc(a[0] + [sep] + Join(a[1..], sep), [sep], Join(b, sep));
    }
  }

  // ----- Searching -----

  predicate At<T(==)>(s: seq<T>, i: int, p: seq<T>) {
    0 <= i && i + |p| <= |s| && s[i..i + |p|] == p
  }

  lemma AtSplit<T>(s: seq<T>, i: nat, a: seq<T>, b: seq<T>)
    requires At(s, i, a + b)
    ensures At(s, i, a) && At(s, i + |a|, b)
  {
    assert s[i..i + |a|] == (a + b)[..|a|];
    assert s[i + |a|..i + |a| + |b|] == (a + b)[|a|..];
  }

  predicate Contains<T(==)>(s: seq<T>, p: seq<T>) {
    exists i :: 0 <= i <= |s| && At(s, i, p)
  }

  lemma ContainsTrans<T>(s: seq<T>, t: seq<T>, p: seq<T>)
    requires Contains(s, t) && Contains(t, p)
    ensures Contains(s, p)
  {
    var i :| 0 <= i <= |s| && At(s, i, t);
    var j :| 0 <= j <= |t| && At(t, j, p);
    forall k | 0 <= k < |p| ensures s[i + j..i + j + |p|][k] == p[k] {
      assert p[k] == t[j..j + |p|][k] == t[j + k] == s[i..i + |t|][j + k];
    }
    assert s[i + j..i + j + |p|] == p;
    assert At(s, i + j, p);
  }

  /** The first index at which `p` occurs, or -1. */
  function Index<T(==)>(s: seq<T>, p: seq<T>): (i: int)
    ensures -1 <= i
    ensures i >= 0 ==> At(s, i, p)
    ensures forall j :: 0 <= j && (i == -1 || j < i) ==> !At(s, j, p)
  {
    if |s| < |p| then -1
    else if s[..|p|] == p then 0
    else if s == [] then -1
    else
      var i := Index(s[1..], p);
      ShiftAt(s, p);
      if i == -1 then -1 else i + 1
  }

  lemma ShiftAt<T>(s: seq<T>, p: seq<T>)
    requires s != []
    ensures forall j :: j >= 1 ==> (At(s, j, p) <==> At(s[1..], j - 1, p))
  {
    forall j | j >= 1 ensures At(s, j, p) <==> At(s[1..], j - 1, p) {
      if j + |p| <= |s| {
        assert s[1..][j - 1..j - 1 + |p|] == s[j..j + |p|];
      }
    }
  }

  // ----- Replacing every occurrence, leftmost first -----

  /** The text between the replaced occurrences. */
  function Gaps<T(==)>(s: seq<T>, p: seq<T>): (gaps: seq<seq<T>>)
    requires |p| > 0
    ensures |gaps| >= 1
    decreases |s|
  {
    var i := Index(s, p);
    if i == -1 then [s] else [s[..i]] + Gaps(s[i + |p|..], p)
  }

  function Weave<T>(gaps: seq<seq<T>>, r: seq<T>): seq<T>
    requires |gaps| >= 1
  {
    if |gaps| == 1 then gaps[0] else gaps[0] + r + Weave(gaps[1..], r)
  }

  function ReplaceAll<T(==)>(s: seq<T>, p: seq<T>, r: seq<T>): seq<T>
    requires |p| > 0
  {
    Weave(Gaps(s, p), r)
  }

  /** The gaps are the original text with the occurrences cut out, and none holds another. */
  lemma {:induction false} GapsAreTheRest<T>(s: seq<T>, p: seq<T>)
    requires |p| > 0
    ensures Weave(Gaps(s, p), p) == s
    ensures forall k :: 0 <= k < |Gaps(s, p)| ==> !Contains(Gaps(s, p)[k], p)
    decreases |s|
  {
    var i := Index(s, p);
    if i != -1 {
      var rest := s[i + |p|..];
      GapsAreTheRest(rest, p);
      FirstGap(s, p);
      assert ([s[..i]] + Gaps(rest, p))[1..] == Gaps(rest, p);
    }
  }

  lemma FirstGap<T>(s: seq<T>, p: seq<T>)
    requires |p| > 0 && Index(s, p) != -1
    ensures s == s[..Index(s, p)] + p + s[Index(s, p) + |p|..]
    ensures !Contains(s[..Index(s, p)], p)
  {
    var i := Index(s, p);
    forall j | 0 <= j <= i ensures !At(s[..i], j, p) {
      PrefixAt(s, i, j, p);
    }
  }

  lemma PrefixAt<T>(s: seq<T>, i: nat, j: nat, p: seq<T>)
    requires i <= |s|
    ensures At(s[..i], j, p) <==> j + |p| <= i && At(s, j, p)
  {
    if j + |p| <= i {
      assert s[j..j + |p|] == s[..i][j..j + |p|];
    }
  }
}
