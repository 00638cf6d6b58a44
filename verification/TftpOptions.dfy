/** Request fields and option negotiation (RFC 1350 section 2, RFC 2347, RFC 2348, RFC 2349). */
module TftpOptions {
  import opened Sequences
  import opened Text
  import opened Decimal
  import opened TftpServer

  type Field = seq<byte>
  type Options = map<Field, Field>

  const BLKSIZE: Field := [98, 108, 107, 115, 105, 122, 101]
  const TSIZE: Field := [116, 115, 105, 122, 101]
  const DEFAULT_BLKSIZE := 512
  const MIN_BLKSIZE := 8
  const MAX_BLKSIZE := 65464

  // ----- NUL-terminated fields -----

  function Terminated(fields: seq<Field>): seq<byte> {
    if fields == [] then [] else fields[0] + [0] + Terminated(fields[1..])
  }

  /** The fields of a packet body; bytes after the last NUL belong to no field. */
  function Fields(b: seq<byte>): seq<Field> {
    var parts := Split(b, 0);
    parts[..|parts| - 1]
  }

  lemma {:induction false} TerminatedConcat(a: seq<Field>, b: seq<Field>)
    ensures Terminated(a + b) == Terminated(a) + Terminated(b)
  {
    if a == [] {
      assert a + b == b;
    } else {
      assert (a + b)[1..] == a[1..] + b;
      TerminatedConcat(a[1..], b);
      ConcatAssoc(a[0] + [0], Terminated(a[1..]), Terminated(b));
    }
  }

  lemma {:induction false} SplitOfTerminated(fields: seq<Field>, rest: seq<byte>)
    requires Free(fields, 0) && 0 !in rest
    ensures Split(Terminated(fields) + rest, 0) == fields + [rest]
  {
    if fields == [] {
      SplitOfFree(rest, 0);
      assert Terminated(fields) + rest == rest;
    } else {
      SplitOfTerminated(fields[1..], rest);
      SplitOfFree(fields[0], 0);
      SplitAppend(fields[0], Terminated(fields[1..]) + rest, 0);
      ConcatAssoc(fields[0] + [0], Terminated(fields[1..]), rest);
      assert [fields[0]] + (fields[1..] + [rest]) == fields + [rest];
    }
  }

  /** A byte string is the termination of NUL-free fields, plus an unterminated rest, in one
      way only, and Fields finds it. */
  lemma FieldsAreExact(b: seq<byte>, fields: seq<Field>, rest: seq<byte>)
    ensures Free(Fields(b), 0)
    ensures Free(fields, 0) && 0 !in rest && b == Terminated(fields) + rest ==> Fields(b) == fields
    ensures exists r :: 0 !in r && b == Terminated(Fields(b)) + r
  {
    if Free(fields, 0) && 0 !in rest && b == Terminated(fields) + rest {
      SplitOfTerminated(fields, rest);
      assert (fields + [rest])[..|fields|] == fields;
    }
    JoinOfSplit(b, 0);
    var parts := Split(b, 0);
    JoinIsTerminated(parts);
    var r := parts[|parts| - 1];
    assert 0 !in r && b == Terminated(Fields(b)) + r;
  }

  lemma {:induction false} JoinIsTerminated(parts: seq<Field>)
    requires |parts| >= 1
    ensures Join(parts, 0) == Terminated(parts[..|parts| - 1]) + parts[|parts| - 1]
  {
    if |parts| > 1 {
      JoinIsTerminated(parts[1..]);
      assert parts[..|parts| - 1][1..] == parts[1..][..|parts| - 2];
      ConcatAssoc(parts[0] + [0], Terminated(parts[1..][..|parts| - 2]), parts[|parts| - 1]);
    } else {
      assert parts[..0] == [];
    }
  }

  /** `out` holds the fields in front of `start`; no field has ended since. */
  ghost predicate SplitUpTo(b: seq<byte>, out: seq<Field>, start: nat, i: nat) {
    && start <= i <= |b|
    && 0 !in b[start..i]
    && Split(b, 0) == out + Split(b[start..], 0)
  }

  lemma FieldEnds(b: seq<byte>, out: seq<Field>, start: nat, i: nat)
    requires SplitUpTo(b, out, start, i) && i < |b| && b[i] == 0
    ensures SplitUpTo(b, out + [b[start..i]], i + 1, i + 1)
  {
    SplitOfFree(b[start..i], 0);
    SplitAppend(b[start..i], b[i + 1..], 0);
    assert b[start..] == b[start..i] + [0] + b[i + 1..];
    ConcatAssoc(out, [b[start..i]], Split(b[i + 1..], 0));
  }

  lemma FieldGoesOn(b: seq<byte>, out: seq<Field>, start: nat, i: nat)
    requires SplitUpTo(b, out, start, i) && i < |b| && b[i] != 0
    ensures SplitUpTo(b, out, start, i + 1)
  {
    assert b[start..i + 1] == b[start..i] + [b[i]];
  }

  lemma AllSplit(b: seq<byte>, out: seq<Field>, start: nat)
    requires SplitUpTo(b, out, start, |b|)
    ensures Fields(b) == out
  {
    assert b[start..|b|] == b[start..];
    SplitOfFree(b[start..], 0);
    assert (out + [b[start..]])[..|out|] == out;
  }

  /** The scanning loop: a field ends at every NUL. */
  method SplitNull(b: seq<byte>) returns (out: seq<Field>)
    ensures out == Fields(b)
  {
    out := [];
    var start := 0;
    for i := 0 to |b|
      invariant 0 <= start
      invariant SplitUpTo(b, out, start, i)
    {
      if b[i] == 0 {
        FieldEnds(b, out, start, i);
        out := out + [b[start..i]];
        start := i + 1;
      } else {
        FieldGoesOn(b, out, start, i);
      }
    }
    AllSplit(b, out, start);
  }

  // ----- Options -----

  predicate IsCapital(c: byte) {
    65 <= c <= 90
  }

  /** Lower case as far as option names can tell: beyond ASCII only U+0130 and U+212A, here in
      UTF-8, have an ASCII lower case, i and k; other characters stay beyond ASCII. */
  function Lower(s: Field): Field {
    if s == [] then []
    else if |s| >= 2 && s[..2] == [0xC4, 0xB0] then [105] + Lower(s[2..])
    else if |s| >= 3 && s[..3] == [0xE2, 0x84, 0xAA] then [107] + Lower(s[3..])
    else [if IsCapital(s[0]) then s[0] + 32 else s[0]] + Lower(s[1..])
  }

  predicate LowerCase(s: Field) {
    forall k :: 0 <= k < |s| ==> 97 <= s[k] <= 122
  }

  lemma {:induction false} LowerOfLower(s: Field)
    requires LowerCase(s)
    ensures Lower(s) == s
  {
    if s != [] {
      LowerOfLower(s[1..]);
      assert |s| >= 2 ==> s[..2][0] == s[0];
      assert |s| >= 3 ==> s[..3][0] == s[0];
      assert [s[0]] + s[1..] == s;
    }
  }

  /** The same text but for the case of ASCII letters. */
  predicate SameButCase(s: Field, t: Field) {
    |s| == |t| && forall k :: 0 <= k < |s| ==>
      s[k] == t[k] || (IsCapital(s[k]) && t[k] == s[k] + 32) || (IsCapital(t[k]) && s[k] == t[k] + 32)
  }

  predicate IsAscii(s: Field) {
    forall k :: 0 <= k < |s| ==> s[k] < 0x80
  }

  ghost predicate NoCapitals(s: Field) {
    forall k :: 0 <= k < |s| ==> !IsCapital(s[k])
  }

  lemma LowerAscii(s: Field)
    requires s != [] && IsAscii(s)
    ensures Lower(s) == [if IsCapital(s[0]) then s[0] + 32 else s[0]] + Lower(s[1..])
  {
    assert |s| >= 2 ==> s[..2][0] == s[0];
    assert |s| >= 3 ==> s[..3][0] == s[0];
  }

  /** The lower case of an ASCII name is the one text without capitals that differs from it in case
      alone. */
  lemma {:induction false} LowerExactly(s: Field, t: Field)
    requires IsAscii(s)
    ensures Lower(s) == t <==> SameButCase(s, t) && NoCapitals(t)
  {
    if s != [] {
      LowerAscii(s);
      if t != [] {
        LowerExactly(s[1..], t[1..]);
        assert t == [t[0]] + t[1..];
        assert SameButCase(s, t) ==> SameButCase(s[1..], t[1..]);
        assert Lower(s) == t ==> Lower(s[1..]) == t[1..];
        if SameButCase(s[1..], t[1..]) && NoCapitals(t[1..]) && Lower(s)[0] == t[0] {
          forall k | 0 <= k < |s| ensures !IsCapital(t[k])
            && (s[k] == t[k] || (IsCapital(s[k]) && t[k] == s[k] + 32))
          {
            assert k > 0 ==> t[k] == t[1..][k - 1] && s[k] == s[1..][k - 1];
          }
        }
      }
    }
  }

  lemma LowerFirst(c: byte, rest: Field)
    requires c < 0x80
    ensures Lower([c] + rest) == [if IsCapital(c) then c + 32 else c] + Lower(rest)
  {
    var s := [c] + rest;
    assert s[1..] == rest;
    assert |s| >= 2 ==> s[..2][0] == c;
    assert |s| >= 3 ==> s[..3][0] == c;
  }

  /** ASCII text is lowered on its own, whatever follows it. */
  lemma {:induction false} LowerConcat(s: Field, rest: Field)
    requires IsAscii(s)
    ensures Lower(s + rest) == Lower(s) + Lower(rest)
  {
    if s == [] {
      assert s + rest == rest;
    } else {
      LowerConcat(s[1..], rest);
      Uncons(s);
      OneMoreLower(s[0], s[1..], rest);
    }
  }

  lemma OneMoreLower(c: byte, s: Field, rest: Field)
    requires c < 0x80 && Lower(s + rest) == Lower(s) + Lower(rest)
    ensures Lower([c] + s + rest) == Lower([c] + s) + Lower(rest)
  {
    LowerFirst(c, s);
    LowerFirst(c, s + rest);
    ConcatAssoc([c], s, rest);
    ConcatAssoc([if IsCapital(c) then c + 32 else c], Lower(s), Lower(rest));
  }

  /** The only two characters beyond ASCII that fold into it. */
  lemma FoldedLetters(rest: Field)
    ensures Lower([0xC4, 0xB0] + rest) == [105] + Lower(rest)
    ensures Lower([0xE2, 0x84, 0xAA] + rest) == [107] + Lower(rest)
  {
    var i, k: Field := [0xC4, 0xB0] + rest, [0xE2, 0x84, 0xAA] + rest;
    assert i[..2] == [0xC4, 0xB0] && i[2..] == rest;
    assert k[..2][0] == 0xE2 && k[..3] == [0xE2, 0x84, 0xAA] && k[3..] == rest;
  }

  /** Name and value alternate; a name without a value is dropped; the last of two wins. */
  function Pairs(fields: seq<Field>): Options {
    if |fields| < 2 then map[] else map[Lower(fields[0]) := fields[1]] + Pairs(fields[2..])
  }

  function OptionsOf(fields: seq<Field>): Options {
    if |fields| < 2 then map[] else Pairs(fields[2..])
  }

  method ReadOptions(fields: seq<Field>) returns (opts: Options)
    requires |fields| >= 2
    ensures opts == OptionsOf(fields)
  {
    opts := map[];
    var i := 2;
    while i + 1 < |fields|
      invariant 2 <= i <= |fields|
      invariant opts + Pairs(fields[i..]) == OptionsOf(fields)
    {
      OnePair(opts, fields, i);
      opts := opts[Lower(fields[i]) := fields[i + 1]];
      i := i + 2;
    }
  }

  lemma OnePair(opts: Options, fields: seq<Field>, i: nat)
    requires i + 1 < |fields|
    ensures opts[Lower(fields[i]) := fields[i + 1]] + Pairs(fields[i + 2..]) == opts + Pairs(fields[i..])
  {
    assert fields[i..][2..] == fields[i + 2..];
    MergeFirst(opts, Lower(fields[i]), fields[i + 1], Pairs(fields[i + 2..]));
  }

  lemma MergeFirst(m: Options, k: Field, v: Field, rest: Options)
    ensures m[k := v] + rest == m + (map[k := v] + rest)
  {
  }

  lemma {:induction false} PairsConcat(a: seq<Field>, b: seq<Field>, half: nat)
    requires |a| == 2 * half
    ensures Pairs(a + b) == Pairs(a) + Pairs(b)
  {
    if half == 0 {
      assert a + b == b;
    } else {
      assert (a + b)[2..] == a[2..] + b;
      PairsConcat(a[2..], b, half - 1);
      MergeAssoc(map[Lower(a[0]) := a[1]], Pairs(a[2..]), Pairs(b));
    }
  }

  lemma MergeAssoc(m: Options, n: Options, o: Options)
    ensures m + (n + o) == m + n + o
  {
  }

  predicate Named(pairs: seq<(Field, Field)>, k: Field) {
    exists i :: 0 <= i < |pairs| && Lower(pairs[i].0) == k
  }

  lemma {:induction false} KeysOfPairs(pairs: seq<(Field, Field)>, k: Field)
    ensures k in Pairs(Unpaired(pairs)) <==> Named(pairs, k)
  {
    if pairs != [] {
      var rest := pairs[1..];
      KeysOfPairs(rest, k);
      PairsCons(pairs[0], rest);
      assert pairs == [pairs[0]] + rest;
      if Named(rest, k) {
        var i :| 0 <= i < |rest| && Lower(rest[i].0) == k;
        assert Lower(pairs[i + 1].0) == k;
      }
      if Named(pairs, k) && Lower(pairs[0].0) != k {
        var i :| 0 <= i < |pairs| && Lower(pairs[i].0) == k;
        assert Lower(rest[i - 1].0) == k;
      }
    }
  }

  lemma PairsCons(first: (Field, Field), rest: seq<(Field, Field)>)
    ensures Pairs(Unpaired([first] + rest)) == map[Lower(first.0) := first.1] + Pairs(Unpaired(rest))
  {
    assert ([first] + rest)[1..] == rest;
    assert Unpaired([first] + rest)[2..] == Unpaired(rest);
  }

  /** Of several values for one name the last counts. */
  lemma {:induction false} LastPairWins(pairs: seq<(Field, Field)>, i: nat)
    requires i < |pairs| && !Named(pairs[i + 1..], Lower(pairs[i].0))
    ensures Lower(pairs[i].0) in Pairs(Unpaired(pairs)) && Pairs(Unpaired(pairs))[Lower(pairs[i].0)] == pairs[i].1
    decreases i
  {
    var rest := pairs[1..];
    assert pairs == [pairs[0]] + rest;
    PairsCons(pairs[0], rest);
    if i == 0 {
      KeysOfPairs(rest, Lower(pairs[0].0));
    } else {
      assert rest[i..] == pairs[i + 1..];
      LastPairWins(rest, i - 1);
    }
  }

  function Unpaired(pairs: seq<(Field, Field)>): seq<Field> {
    if pairs == [] then [] else [pairs[0].0, pairs[0].1] + Unpaired(pairs[1..])
  }

  /** The case of the names makes no difference to the options. */
  lemma {:induction false} NamesIgnoreCase(a: seq<(Field, Field)>, b: seq<(Field, Field)>)
    requires |a| == |b|
    requires forall k :: 0 <= k < |a| ==> IsAscii(a[k].0) && SameButCase(a[k].0, b[k].0) && a[k].1 == b[k].1
    ensures Pairs(Unpaired(a)) == Pairs(Unpaired(b))
  {
    if a != [] {
      NamesIgnoreCase(a[1..], b[1..]);
      PairsCons(a[0], a[1..]);
      PairsCons(b[0], b[1..]);
      assert a == [a[0]] + a[1..] && b == [b[0]] + b[1..];
      SameLower(a[0].0, b[0].0);
    }
  }

  lemma SameLower(s: Field, t: Field)
    requires IsAscii(s) && SameButCase(s, t)
    ensures Lower(s) == Lower(t)
  {
    var l := Lower(t);
    assert IsAscii(t);
    LowerExactly(t, l);
    LowerExactly(s, l);
    assert NoCapitals(l) && SameButCase(t, l);
    forall k | 0 <= k < |s| ensures s[k] == l[k] || (IsCapital(s[k]) && l[k] == s[k] + 32) {
      assert s[k] == t[k] || (IsCapital(s[k]) && t[k] == s[k] + 32) || (IsCapital(t[k]) && s[k] == t[k] + 32);
    }
  }

  /** A name at the end without a value asks for nothing. */
  lemma DanglingName(pairs: seq<(Field, Field)>, name: Field)
    ensures Pairs(Unpaired(pairs) + [name]) == Pairs(Unpaired(pairs))
  {
    UnpairedLength(pairs);
    PairsConcat(Unpaired(pairs), [name], |pairs|);
    assert Pairs([name]) == map[];
  }

  lemma {:induction false} UnpairedLength(pairs: seq<(Field, Field)>)
    ensures |Unpaired(pairs)| == 2 * |pairs|
  {
    if pairs != [] {
      UnpairedLength(pairs[1..]);
    }
  }

  function Blksize(opts: Options): (b: pos)
    ensures MIN_BLKSIZE <= b <= MAX_BLKSIZE
  {
    if BLKSIZE !in opts then DEFAULT_BLKSIZE else
    var n := Atoi(opts[BLKSIZE]);
    if n.Some? && MIN_BLKSIZE <= n.value <= MAX_BLKSIZE then n.value else DEFAULT_BLKSIZE
  }

  /** RFC 2348: the value in force is the requested one when legal, and never larger. */
  lemma BlksizeHonoursRequest(opts: Options, n: int)
    requires BLKSIZE in opts && Atoi(opts[BLKSIZE]) == Some(n)
    ensures MIN_BLKSIZE <= n <= MAX_BLKSIZE <==> Blksize(opts) == n
    ensures n >= MIN_BLKSIZE ==> Blksize(opts) <= n
  {
  }

  lemma OptionNames()
    ensures BLKSIZE == Ascii("blksize") && TSIZE == Ascii("tsize")
  {
  }

  /** Blocks of the requested size for a readable request from 8 to 65464, and of 512 bytes without
      the option, for a text that is no number, and for a number out of range. */
  ghost predicate AgreedSize(opts: Options, b: int) {
    var key := Ascii("blksize");
    if key in opts && exists n: int :: 8 <= n <= 65464 && Atoi(opts[key]) == Some(n)
    then Atoi(opts[key]) == Some(b)
    else b == 512
  }

  lemma BlksizeExactly(opts: Options)
    ensures forall b: int :: AgreedSize(opts, b) <==> b == Blksize(opts)
    ensures opts == map[] ==> Blksize(opts) == 512
  {
    OptionNames();
  }

  // ----- The option acknowledgement -----

  function Answer(opts: Options, size: nat): Options {
    AnswerFor(Itoa(Blksize(opts)), Itoa(size), opts.Keys)
  }

  function AnswerFor(blksize: Field, tsize: Field, asked: set<Field>): Options {
    Values(BLKSIZE, blksize, TSIZE, tsize, asked)
  }

  function Values(k1: Field, v1: Field, k2: Field, v2: Field, asked: set<Field>): Options {
    map k | k in asked * {k1, k2} :: if k == k1 then v1 else v2
  }

  lemma ValuesGrow(k1: Field, v1: Field, k2: Field, v2: Field, asked: set<Field>, k: Field)
    ensures var m := Values(k1, v1, k2, v2, asked);
            Values(k1, v1, k2, v2, asked + {k}) == if k == k1 then m[k := v1] else if k == k2 then m[k := v2] else m
  {
  }

  /** What a client makes of the answer: exactly the options it asked for among the two known ones,
      the block size in force, and the size of the file. */
  lemma AgreementIsReadable(opts: Options, size: nat)
    requires size <= MAX_INT64
    ensures var a := Answer(opts, size);
            && a.Keys == opts.Keys * {BLKSIZE, TSIZE}
            && (BLKSIZE in opts ==> Atoi(a[BLKSIZE]) == Some(Blksize(opts)))
            && (TSIZE in opts ==> Atoi(a[TSIZE]) == Some(size))
  {
    AtoiOfItoa(Blksize(opts));
    AtoiOfItoa(size);
    assert |BLKSIZE| != |TSIZE|;
  }

  /** appendOpt. */
  function AppendOption(b: seq<byte>, k: Field, v: Field): seq<byte> {
    b + k + [0] + v + [0]
  }

  /** What the client reads in an acknowledgement. */
  function Acknowledged(oack: seq<byte>): Options
    requires |oack| >= 2
  {
    Pairs(Fields(oack[2..]))
  }

  /** A body under construction: whole name-value pairs that read back as `a`. */
  ghost predicate Reads(body: seq<byte>, fields: seq<Field>, half: nat, a: Options) {
    body == Terminated(fields) && Free(fields, 0) && |fields| == 2 * half && Pairs(fields) == a
  }

  lemma ReadsBack(oack: seq<byte>, fields: seq<Field>, half: nat, a: Options)
    requires |oack| >= 2 && Reads(oack[2..], fields, half, a)
    ensures Acknowledged(oack) == a
  {
    FieldsAreExact(oack[2..], fields, []);
    assert Terminated(fields) + [] == oack[2..];
  }

  lemma OnePairMore(body: seq<byte>, fields: seq<Field>, half: nat, a: Options, k: Field, v: Field)
    requires Reads(body, fields, half, a) && LowerCase(k) && 0 !in v
    ensures Reads(AppendOption(body, k, v), fields + [k, v], half + 1, a[k := v])
  {
    TerminatedPair(k, v);
    TerminatedConcat(fields, [k, v]);
    AppendIsPair(body, k, v);
    OneMorePair(fields, half, k, v);
  }

  lemma OneMorePair(fields: seq<Field>, half: nat, k: Field, v: Field)
    requires |fields| == 2 * half && LowerCase(k)
    ensures Pairs(fields + [k, v]) == Pairs(fields)[k := v]
  {
    PairsConcat(fields, [k, v], half);
    LowerOfLower(k);
    PairAlone(k, v);
    MergeLast(Pairs(fields), k, v);
  }

  lemma PairAlone(k: Field, v: Field)
    ensures Pairs([k, v]) == map[Lower(k) := v]
  {
    assert [k, v][2..] == [];
    assert map[Lower(k) := v] + map[] == map[Lower(k) := v];
  }

  lemma MergeLast(m: Options, k: Field, v: Field)
    ensures m + map[k := v] == m[k := v]
  {
  }

  lemma TerminatedPair(k: Field, v: Field)
    ensures Terminated([k, v]) == k + [0] + (v + [0])
  {
    assert [k, v][1..] == [v] && [v][1..] == [];
    assert Terminated([v]) == v + [0] + Terminated([]);
  }

  lemma AppendIsPair(body: seq<byte>, k: Field, v: Field)
    ensures AppendOption(body, k, v) == body + (k + [0] + (v + [0]))
  {
  }

  lemma NoNulInDecimal(i: int)
    ensures 0 !in Itoa(i)
  {
    ValueOfDigits(if i < 0 then -i else i);
  }

  /** The switch inside the loop over requested names: unknown ones are not acknowledged. */
  function AddOption(oack: seq<byte>, blksize: Field, tsize: Field, k: Field): seq<byte> {
    if k == BLKSIZE then AppendOption(oack, k, blksize)
    else if k == TSIZE then AppendOption(oack, k, tsize)
    else oack
  }

  ghost predicate Partial(oack: seq<byte>, a: Options) {
    && |oack| >= 2
    && oack[..2] == [0, OP_OACK]
    && exists fields, half: nat :: Reads(oack[2..], fields, half, a)
  }

  lemma AppendKeepsPartial(oack: seq<byte>, a: Options, k: Field, v: Field)
    requires Partial(oack, a) && LowerCase(k) && 0 !in v
    ensures Partial(AppendOption(oack, k, v), a[k := v])
  {
    var fields, half: nat :| Reads(oack[2..], fields, half, a);
    OnePairMore(oack[2..], fields, half, a, k, v);
    AppendAfterOpcode(oack, k, v);
    MakePartial(AppendOption(oack, k, v), a[k := v], fields + [k, v], half + 1);
  }

  lemma AppendAfterOpcode(oack: seq<byte>, k: Field, v: Field)
    requires |oack| >= 2
    ensures AppendOption(oack, k, v)[..2] == oack[..2]
    ensures AppendOption(oack, k, v)[2..] == AppendOption(oack[2..], k, v)
  {
  }

  lemma MakePartial(oack: seq<byte>, a: Options, fields: seq<Field>, half: nat)
    requires |oack| >= 2 && oack[..2] == [0, OP_OACK] && Reads(oack[2..], fields, half, a)
    ensures Partial(oack, a)
  {
  }

  lemma OneKeyMore(oack: seq<byte>, blksize: Field, tsize: Field, asked: set<Field>, k: Field)
    requires Partial(oack, AnswerFor(blksize, tsize, asked)) && 0 !in blksize && 0 !in tsize
    ensures Partial(AddOption(oack, blksize, tsize, k), AnswerFor(blksize, tsize, asked + {k}))
  {
    var a := AnswerFor(blksize, tsize, asked);
    ValuesGrow(BLKSIZE, blksize, TSIZE, tsize, asked, k);
    if k == BLKSIZE {
      AppendKeepsPartial(oack, a, k, blksize);
    } else if k == TSIZE {
      AppendKeepsPartial(oack, a, k, tsize);
    }
  }

  /** Builds the acknowledgement; the program ranges over a map, so the keys come in any order. */
  method BuildOack(opts: Options, size: nat) returns (oack: seq<byte>)
    ensures |oack| >= 2 && oack[..2] == [0, 6]
    ensures Acknowledged(oack) == Answer(opts, size)
  {
    var blksize, tsize := Itoa(Blksize(opts)), Itoa(size);
    NoNulInDecimal(Blksize(opts));
    NoNulInDecimal(size);
    oack := [0, OP_OACK];
    var todo, done := opts.Keys, {};
    assert Reads(oack[2..], [], 0, AnswerFor(blksize, tsize, done));
    while todo != {}
      invariant todo + done == opts.Keys
      invariant Partial(oack, AnswerFor(blksize, tsize, done))
      decreases todo
    {
      var k :| k in todo;
      OneKeyMore(oack, blksize, tsize, done, k);
      oack := AddOption(oack, blksize, tsize, k);
      todo, done := todo - {k}, done + {k};
    }
    ghost var fields, half: nat :| Reads(oack[2..], fields, half, AnswerFor(blksize, tsize, done));
    ReadsBack(oack, fields, half, AnswerFor(blksize, tsize, done));
  }
}
