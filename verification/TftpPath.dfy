/** Where a requested file name ends up: path cleaning as a stack of segments, and the
    containment check of the TFTP server. */
module TftpPath {
  import opened Sequences
  import opened Text

  type Path = seq<byte>
  type Segment = seq<byte>

  const SLASH: byte := 47
  const BACKSLASH: byte := 92
  const DOT: Segment := [46]
  const DOTDOT: Segment := [46, 46]

  predicate Ordinary(g: Segment) {
    g != [] && g != DOT && g != DOTDOT && SLASH !in g
  }

  ghost predicate AllOrdinary(st: seq<Segment>) {
    forall k :: 0 <= k < |st| ==> Ordinary(st[k])
  }

  // ----- Cleaning -----

  function Push(rooted: bool, st: seq<Segment>, g: Segment): seq<Segment> {
    if g == [] || g == DOT then st
    else if g == DOTDOT then
      if st != [] && st[|st| - 1] != DOTDOT then st[..|st| - 1]
      else if rooted then st
      else st + [g]
    else st + [g]
  }

  function Fold(rooted: bool, st: seq<Segment>, segs: seq<Segment>): seq<Segment> {
    if segs == [] then st else Push(rooted, Fold(rooted, st, segs[..|segs| - 1]), segs[|segs| - 1])
  }

  function JoinSegments(st: seq<Segment>): Path {
    if st == [] then [] else Join(st, SLASH)
  }

  function Render(rooted: bool, st: seq<Segment>): Path {
    if rooted then [SLASH] + JoinSegments(st)
    else if st == [] then DOT
    else JoinSegments(st)
  }

  predicate Rooted(p: Path) {
    p != [] && p[0] == SLASH
  }

  function Stack(p: Path): seq<Segment> {
    Fold(Rooted(p), [], Split(p, SLASH))
  }

  /** filepath.Clean. */
  function Clean(p: Path): Path {
    Render(Rooted(p), Stack(p))
  }

  /** filepath.Join of two elements: empty ones are ignored. */
  function JoinPath(a: Path, b: Path): Path {
    if a == [] then if b == [] then [] else Clean(b) else Clean(a + [SLASH] + b)
  }

  /** filepath.Abs, for the working directory `cwd`. */
  function Abs(cwd: Path, p: Path): Path {
    if Rooted(p) then Clean(p) else JoinPath(cwd, p)
  }

  function Slashed(name: Path): (r: Path)
    ensures |r| == |name|
  {
    seq(|name|, i requires 0 <= i < |name| => if name[i] == BACKSLASH then SLASH else name[i])
  }

  /** The server's mapping of a requested name; None is its "path escape" error. */
  function SafePath(root: Path, cwd: Path, name: Path): Option<Path> {
    var full := JoinPath(root, Clean([SLASH] + Slashed(name)));
    if Abs(cwd, root) <= Abs(cwd, full) then Some(full) else None
  }

  // ----- Laws of the stack -----

  lemma {:induction false} FoldAppend(rooted: bool, st: seq<Segment>, a: seq<Segment>, b: seq<Segment>)
    ensures Fold(rooted, st, a + b) == Fold(rooted, Fold(rooted, st, a), b)
  {
    if b == [] {
      assert a + b == a;
    } else {
      assert (a + b)[..|a + b| - 1] == a + b[..|b| - 1];
      FoldAppend(rooted, st, a, b[..|b| - 1]);
    }
  }

  lemma FoldOne(rooted: bool, st: seq<Segment>, g: Segment)
    ensures Fold(rooted, st, [g]) == Push(rooted, st, g)
  {
    assert [g][..0] == [];
  }

  lemma {:induction false} FoldOrdinary(rooted: bool, st: seq<Segment>, segs: seq<Segment>)
    requires AllOrdinary(segs)
    ensures Fold(rooted, st, segs) == st + segs
  {
    if segs != [] {
      var n := |segs| - 1;
      FoldOrdinary(rooted, st, segs[..n]);
      assert segs == segs[..n] + [segs[n]];
    }
  }

  lemma {:induction false} RootedFoldIsOrdinary(st: seq<Segment>, segs: seq<Segment>)
    requires AllOrdinary(st) && Free(segs, SLASH)
    ensures AllOrdinary(Fold(true, st, segs))
  {
    if segs != [] {
      RootedFoldIsOrdinary(st, segs[..|segs| - 1]);
    }
  }

  /** A cleaned relative path: some steps up, then ordinary segments. */
  ghost predicate Relative(st: seq<Segment>, ups: nat) {
    && ups <= |st|
    && (forall k :: 0 <= k < ups ==> st[k] == DOTDOT)
    && (forall k :: ups <= k < |st| ==> Ordinary(st[k]))
  }

  lemma {:induction false} RelativeFold(segs: seq<Segment>) returns (ups: nat)
    requires Free(segs, SLASH)
    ensures Relative(Fold(false, [], segs), ups)
  {
    if segs == [] {
      ups := 0;
    } else {
      var n := |segs| - 1;
      ups := RelativeFold(segs[..n]);
      var st, g := Fold(false, [], segs[..n]), segs[n];
      if g == DOTDOT && (st == [] || st[|st| - 1] == DOTDOT) {
        ups := ups + 1;
      }
    }
  }

  /** Cleaning a relative path first does not change where it leads from a rooted place. */
  lemma {:induction false} CleanBeforeResolving(base: seq<Segment>, segs: seq<Segment>)
    requires AllOrdinary(base) && Free(segs, SLASH)
    ensures Fold(true, base, Fold(false, [], segs)) == Fold(true, base, segs)
  {
    if segs != [] {
      var n := |segs| - 1;
      CleanBeforeResolving(base, segs[..n]);
      var ups := RelativeFold(segs[..n]);
      PushAfterResolving(base, Fold(false, [], segs[..n]), ups, segs[n]);
    }
  }

  lemma PushAfterResolving(base: seq<Segment>, st: seq<Segment>, ups: nat, g: Segment)
    requires AllOrdinary(base) && Relative(st, ups) && SLASH !in g
    ensures Fold(true, base, Push(false, st, g)) == Push(true, Fold(true, base, st), g)
  {
    var n := |st| - 1;
    if g == DOTDOT && st != [] && st[n] != DOTDOT {
      assert Ordinary(st[n]);
      assert Fold(true, base, st) == Fold(true, base, st[..n]) + [st[n]];
    } else {
      assert (st + [g])[..|st|] == st;
    }
  }

  // ----- Paths and their segments -----

  lemma StackOfRendered(rooted: bool, st: seq<Segment>)
    requires Free(st, SLASH) && (rooted || (st != [] && st[0] != []))
    ensures Rooted(Render(rooted, st)) == rooted
    ensures Split(Render(rooted, st), SLASH) ==
            (if rooted then [[]] else []) + (if st == [] then [[]] else st)
  {
    var body := JoinSegments(st);
    if st != [] {
      SplitOfJoin(st, SLASH);
    }
    if rooted {
      SplitAppend([], body, SLASH);
      assert [] + [SLASH] + body == Render(true, st);
    } else {
      assert body[0] == st[0][0];
    }
  }

  /** The segments that a requested name resolves to below the root. */
  function NameSegments(name: Path): seq<Segment> {
    Stack([SLASH] + Slashed(name))
  }

  lemma NameSegmentsOrdinary(name: Path)
    ensures AllOrdinary(NameSegments(name))
  {
    var p := [SLASH] + Slashed(name);
    JoinOfSplit(p, SLASH);
    RootedFoldIsOrdinary([], Split(p, SLASH));
  }

  /** `full` consists of the root's own segments followed by those of the name. */
  lemma FullStack(root: Path, name: Path)
    requires root != []
    ensures var full := JoinPath(root, Clean([SLASH] + Slashed(name)));
            full == Render(Rooted(root), Stack(root) + NameSegments(name))
  {
    var ns := NameSegments(name);
    var cleaned := Clean([SLASH] + Slashed(name));
    NameSegmentsOrdinary(name);
    StackOfRendered(true, ns);
    var p := root + [SLASH] + cleaned;
    SplitAppend(root, cleaned, SLASH);
    var tail := [[]] + (if ns == [] then [[]] else ns);
    assert Split(p, SLASH) == Split(root, SLASH) + tail;
    FoldAppend(Rooted(root), [], Split(root, SLASH), tail);
    FoldAppend(Rooted(root), Stack(root), [[]], if ns == [] then [[]] else ns);
    FoldOrdinary(Rooted(root), Stack(root), ns);
    FoldOne(Rooted(root), Stack(root), []);
  }

  /** The absolute segments of a path seen from `cwd`. */
  function AbsStack(cwd: Path, p: Path): seq<Segment> {
    if Rooted(p) then Stack(p) else Fold(true, Stack(cwd), Split(p, SLASH))
  }

  lemma RootedStack(p: Path)
    requires Rooted(p)
    ensures AllOrdinary(Stack(p))
  {
    JoinOfSplit(p, SLASH);
    RootedFoldIsOrdinary([], Split(p, SLASH));
  }

  lemma AbsIsRendered(cwd: Path, p: Path)
    requires Rooted(cwd)
    ensures AllOrdinary(AbsStack(cwd, p))
    ensures Abs(cwd, p) == Render(true, AbsStack(cwd, p))
  {
    RootedStack(cwd);
    JoinOfSplit(p, SLASH);
    if Rooted(p) {
      RootedStack(p);
    } else {
      RootedFoldIsOrdinary(Stack(cwd), Split(p, SLASH));
      SplitAppend(cwd, p, SLASH);
      FoldAppend(true, [], Split(cwd, SLASH), Split(p, SLASH));
    }
  }

  /** A rendered clean path leads where its stack says. */
  lemma AbsOfRendered(cwd: Path, rooted: bool, st: seq<Segment>, ups: nat)
    requires Rooted(cwd) && Relative(st, ups) && (rooted ==> ups == 0)
    ensures AbsStack(cwd, Render(rooted, st)) == Fold(true, if rooted then [] else Stack(cwd), st)
  {
    var base := if rooted then [] else Stack(cwd);
    if rooted || st != [] {
      StackOfRendered(rooted, st);
      if rooted {
        FoldAppend(true, [], [[]], if st == [] then [[]] else st);
        FoldOne(true, [], []);
        assert Rooted(Render(true, st));
      } else {
        assert Split(Render(false, st), SLASH) == st;
      }
    } else {
      SplitOfFree(DOT, SLASH);
      FoldOne(true, base, DOT);
    }
  }

  lemma RelativeAppend(st: seq<Segment>, ups: nat, more: seq<Segment>)
    requires Relative(st, ups) && AllOrdinary(more)
    ensures Relative(st + more, ups)
  {
  }

  // ----- Main theorems -----

  /** Every name, however hostile, is served from below the root: the result is the absolute
      root followed by ordinary segments, and the containment check never rejects. */
  lemma NamesStayBelowRoot(root: Path, cwd: Path, name: Path)
    requires root != [] && Rooted(cwd)
    ensures SafePath(root, cwd, name).Some?
    ensures AllOrdinary(NameSegments(name)) && AllOrdinary(AbsStack(cwd, root))
    ensures Abs(cwd, SafePath(root, cwd, name).value)
         == Render(true, AbsStack(cwd, root) + NameSegments(name))
    ensures Abs(cwd, root) == Render(true, AbsStack(cwd, root))
  {
    var ns := NameSegments(name);
    var full := JoinPath(root, Clean([SLASH] + Slashed(name)));
    NameSegmentsOrdinary(name);
    FullStack(root, name);
    AbsIsRendered(cwd, root);
    AbsIsRendered(cwd, full);
    FullLeadsBelow(root, cwd, ns);
    RenderGrows(AbsStack(cwd, root), ns);
  }

  lemma FullLeadsBelow(root: Path, cwd: Path, ns: seq<Segment>)
    requires root != [] && Rooted(cwd) && AllOrdinary(ns)
    ensures AbsStack(cwd, Render(Rooted(root), Stack(root) + ns)) == AbsStack(cwd, root) + ns
  {
    var st, rooted := Stack(root), Rooted(root);
    var base := if rooted then [] else Stack(cwd);
    var ups := RootLeads(root, cwd);
    RelativeAppend(st, ups, ns);
    AbsOfRendered(cwd, rooted, st + ns, ups);
    FoldAppend(true, base, st, ns);
    FoldOrdinary(true, Fold(true, base, st), ns);
  }

  lemma RootLeads(root: Path, cwd: Path) returns (ups: nat)
    requires Rooted(cwd)
    ensures Relative(Stack(root), ups) && (Rooted(root) ==> ups == 0)
    ensures Fold(true, if Rooted(root) then [] else Stack(cwd), Stack(root)) == AbsStack(cwd, root)
  {
    if Rooted(root) {
      ups := 0;
      RootedStack(root);
      FoldOrdinary(true, [], Stack(root));
    } else {
      JoinOfSplit(root, SLASH);
      RootedStack(cwd);
      ups := RelativeFold(Split(root, SLASH));
      CleanBeforeResolving(Stack(cwd), Split(root, SLASH));
    }
  }

  lemma RenderGrows(a: seq<Segment>, b: seq<Segment>)
    ensures Render(true, a) <= Render(true, a + b)
  {
    if a == [] {
    } else if b == [] {
      assert a + b == a;
    } else {
      JoinAppend(a, b, SLASH);
    }
  }

  /** A name made of ordinary segments is mapped to exactly those segments. */
  lemma OrdinaryNamesAreKept(segs: seq<Segment>)
    requires AllOrdinary(segs) && segs != [] && Free(segs, BACKSLASH)
    ensures NameSegments(Join(segs, SLASH)) == segs
  {
    var name := Join(segs, SLASH);
    NoBackslash(segs);
    assert Slashed(name) == name;
    StackOfRendered(true, segs);
    FoldAppend(true, [], [[]], segs);
    FoldOne(true, [], []);
    FoldOrdinary(true, [], segs);
    assert [] + segs == segs;
  }

  lemma {:induction false} NoBackslash(segs: seq<Segment>)
    requires segs != [] && Free(segs, BACKSLASH)
    ensures BACKSLASH !in Join(segs, SLASH)
  {
    if |segs| > 1 {
      NoBackslash(segs[1..]);
    }
  }

  lemma CleanStack(st: seq<Segment>)
    requires AllOrdinary(st)
    ensures Stack(Render(true, st)) == st && Clean(Render(true, st)) == Render(true, st)
  {
    StackOfRendered(true, st);
    FoldAppend(true, [], [[]], if st == [] then [[]] else st);
    FoldOne(true, [], []);
    FoldOrdinary(true, [], st);
  }

  /** An empty root means the working directory to the check but `/` to the join: a name is
      accepted exactly when its text begins with that of the working directory. */
  lemma {:induction false} EmptyRoot(cwd: Path, name: Path)
    requires Rooted(cwd)
    ensures var full := Render(true, NameSegments(name));
            SafePath([], cwd, name) == if Render(true, Stack(cwd)) <= full then Some(full) else None
  {
    NameSegmentsOrdinary(name);
    CleanStack(NameSegments(name));
    AbsIsRendered(cwd, []);
    FoldOne(true, Stack(cwd), []);
    assert Split<byte>([], SLASH) == [[]];
  }

  /** Text is not segments, so an empty root is not safe: from /s the name sx is accepted although
      /sx lies outside. */
  lemma EmptyRootIsNotContained()
    ensures SafePath([], [SLASH, 115], [115, 120]) == Some([SLASH, 115, 120])
    ensures Stack([SLASH, 115]) == [[115]] && Stack([SLASH, 115, 120]) == [[115, 120]]
  {
    var s: Segment, x: Segment := [115], [115, 120];
    assert AllOrdinary([s]) && AllOrdinary([x]);
    OneSegment(s);
    OneSegment(x);
    assert [SLASH] + s == [SLASH, 115] && [SLASH] + x == [SLASH, 115, 120];
    EmptyRoot([SLASH] + s, x);
  }

  lemma OneSegment(g: Segment)
    requires Ordinary(g) && BACKSLASH !in g
    ensures Render(true, [g]) == [SLASH] + g
    ensures Stack([SLASH] + g) == [g] && NameSegments(g) == [g]
  {
    CleanStack([g]);
    OrdinaryNamesAreKept([g]);
  }

  // ----- Exactly when accepted names are contained -----

  /** Every accepted name leads to the root's own segments followed by more. */
  ghost predicate KeepsInside(root: Path, cwd: Path) {
    forall name: Path ::
      SafePath(root, cwd, name).Some? ==> AbsStack(cwd, root) <= AbsStack(cwd, SafePath(root, cwd, name).value)
  }

  predicate HasBackslash(st: seq<Segment>) {
    exists g <- st :: BACKSLASH in g
  }

  /** The check contains every name exactly when the root is not empty, or the working directory
      is / or has a backslash in its path, which no served name can have. */
  lemma ContainedExactly(root: Path, cwd: Path)
    requires Rooted(cwd)
    ensures KeepsInside(root, cwd) <==> root != [] || Stack(cwd) == [] || HasBackslash(Stack(cwd))
  {
    if root != [] {
      forall name: Path
        ensures SafePath(root, cwd, name).Some?
        ensures AbsStack(cwd, root) <= AbsStack(cwd, SafePath(root, cwd, name).value)
      {
        NonEmptyRootContains(root, cwd, name);
      }
    } else if Stack(cwd) == [] || HasBackslash(Stack(cwd)) {
      forall name: Path | SafePath([], cwd, name).Some?
        ensures AbsStack(cwd, []) <= AbsStack(cwd, SafePath([], cwd, name).value)
      {
        HarmlessEmptyRoot(cwd, name);
      }
    } else {
      var name := Escaping(cwd);
    }
  }

  lemma NonEmptyRootContains(root: Path, cwd: Path, name: Path)
    requires root != [] && Rooted(cwd)
    ensures SafePath(root, cwd, name).Some?
    ensures AbsStack(cwd, SafePath(root, cwd, name).value) == AbsStack(cwd, root) + NameSegments(name)
  {
    NamesStayBelowRoot(root, cwd, name);
    FullStack(root, name);
    FullLeadsBelow(root, cwd, NameSegments(name));
  }

  lemma EmptyRootStack(cwd: Path)
    requires Rooted(cwd)
    ensures AbsStack(cwd, []) == Stack(cwd)
  {
    FoldOne(true, Stack(cwd), []);
    assert Split<byte>([], SLASH) == [[]];
  }

  lemma HarmlessEmptyRoot(cwd: Path, name: Path)
    requires Rooted(cwd) && SafePath([], cwd, name).Some?
    requires Stack(cwd) == [] || HasBackslash(Stack(cwd))
    ensures Stack(cwd) == [] && AbsStack(cwd, []) == []
  {
    EmptyRoot(cwd, name);
    EmptyRootStack(cwd);
    if HasBackslash(Stack(cwd)) {
      BackslashShows(Stack(cwd));
      var i :| 0 <= i < |Render(true, Stack(cwd))| && Render(true, Stack(cwd))[i] == BACKSLASH;
      assert Render(true, NameSegments(name))[i] == BACKSLASH;
      ServedNamesHaveNone(name);
      assert false;
    }
  }

  lemma {:induction false} BackslashJoined(st: seq<Segment>)
    requires st != []
    ensures BACKSLASH in Join(st, SLASH) <==> HasBackslash(st)
  {
    if |st| > 1 {
      BackslashJoined(st[1..]);
      assert st == [st[0]] + st[1..];
    }
  }

  lemma BackslashShows(st: seq<Segment>)
    ensures BACKSLASH in Render(true, st) <==> HasBackslash(st)
  {
    if st != [] {
      BackslashJoined(st);
    }
  }

  lemma ServedNamesHaveNone(name: Path)
    ensures BACKSLASH !in Render(true, NameSegments(name))
  {
    var p := [SLASH] + Slashed(name);
    JoinOfSplit(p, SLASH);
    PartsHaveNone(p);
    FoldHasNone([], Split(p, SLASH));
    BackslashShows(NameSegments(name));
  }

  lemma {:induction false} PartsHaveNone(p: Path)
    requires BACKSLASH !in p
    ensures !HasBackslash(Split(p, SLASH))
  {
    if p != [] {
      PartsHaveNone(p[1..]);
    }
  }

  lemma {:induction false} FoldHasNone(st: seq<Segment>, segs: seq<Segment>)
    requires !HasBackslash(st) && !HasBackslash(segs)
    ensures !HasBackslash(Fold(true, st, segs))
  {
    if segs != [] {
      var n := |segs| - 1;
      assert segs[n] in segs;
      FoldHasNone(st, segs[..n]);
    }
  }

  /** The path of the working directory with an x appended is accepted and lies outside. */
  lemma Escaping(cwd: Path) returns (name: Path)
    requires Rooted(cwd) && Stack(cwd) != [] && !HasBackslash(Stack(cwd))
    ensures SafePath([], cwd, name).Some?
    ensures !(AbsStack(cwd, []) <= AbsStack(cwd, SafePath([], cwd, name).value))
  {
    var st := Stack(cwd);
    var n := |st| - 1;
    var out := st[..n] + [st[n] + [120]];
    RootedStack(cwd);
    LongerSegment(st[n]);
    JoinOfLonger(st[..n], st[n]);
    assert st == st[..n] + [st[n]];
    assert !HasBackslash(out) by {
      assert forall g <- out :: g in st || g == st[n] + [120];
      assert st[n] in st;
    }
    OrdinaryNamesAreKept(out);
    name := Join(out, SLASH);
    EmptyRoot(cwd, name);
    EmptyRootStack(cwd);
    AbsOfOrdinary(cwd, out);
    assert st[n] != out[n];
  }

  lemma LongerSegment(g: Segment)
    requires Ordinary(g)
    ensures Ordinary(g + [120])
  {
    assert (g + [120])[|g|] == 120;
  }

  lemma {:induction false} JoinOfLonger(st: seq<Segment>, g: Segment)
    ensures Join(st + [g + [120]], SLASH) == Join(st + [g], SLASH) + [120]
  {
    if st == [] {
      assert [] + [g] == [g] && [] + [g + [120]] == [g + [120]];
    } else {
      JoinAppend(st, [g], SLASH);
      JoinAppend(st, [g + [120]], SLASH);
    }
  }

  lemma AbsOfOrdinary(cwd: Path, st: seq<Segment>)
    requires AllOrdinary(st)
    ensures AbsStack(cwd, Render(true, st)) == st
  {
    CleanStack(st);
  }

  // ----- Backslashes and dots -----

  /** The same path, written with backslashes in place of some of the slashes. */
  ghost predicate Respelled(name: Path, path: Path) {
    |name| == |path| && forall i :: 0 <= i < |name| ==> name[i] == path[i] || (name[i] == 92 && path[i] == 47)
  }

  /** A backslash separates like a slash: however a path of ordinary segments is spelled, it leads
      to the root followed by exactly those segments. */
  lemma BackslashesSeparate(root: Path, cwd: Path, segs: seq<Segment>, name: Path)
    requires root != [] && Rooted(cwd)
    requires AllOrdinary(segs) && segs != [] && Free(segs, 92) && Respelled(name, Join(segs, 47))
    ensures var full := SafePath(root, cwd, name);
            && full.Some?
            && AbsStack(cwd, full.value) == AbsStack(cwd, root) + segs
            && Abs(cwd, full.value) == Render(true, AbsStack(cwd, root) + segs)
  {
    NoBackslash(segs);
    assert Slashed(name) == Join(segs, SLASH) == Slashed(Join(segs, SLASH));
    OrdinaryNamesAreKept(segs);
    NonEmptyRootContains(root, cwd, name);
    NamesStayBelowRoot(root, cwd, name);
  }

  lemma NameOfTwo(a: Path, b: Path)
    ensures NameSegments(a + [47] + b) == Fold(true, NameSegments(a), Split(Slashed(b), SLASH))
  {
    assert [SLASH] + Slashed(a + [47] + b) == [SLASH] + Slashed(a) + [SLASH] + Slashed(b);
    SplitAppend([SLASH] + Slashed(a), Slashed(b), SLASH);
    FoldAppend(true, [], Split([SLASH] + Slashed(a), SLASH), Split(Slashed(b), SLASH));
  }

  lemma NameOfSegment(a: Path, g: Segment)
    requires SLASH !in g && BACKSLASH !in g
    ensures NameSegments(a + [47] + g) == Push(true, NameSegments(a), g)
  {
    NameOfTwo(a, g);
    assert Slashed(g) == g;
    SplitOfFree(g, SLASH);
    FoldOne(true, NameSegments(a), g);
  }

  lemma NoName()
    ensures NameSegments([]) == []
  {
    assert [SLASH] + Slashed([]) == [] + [SLASH] + [];
    SplitAppend<byte>([], [], SLASH);
    assert Split<byte>([], SLASH) == [[]];
    FoldAppend(true, [], [[]], [[]]);
    FoldOne(true, [], []);
  }

  /** `..` takes back the segment in front of it and stops at the root; `.` and repeated slashes
      say nothing. With the spelling of ordinary segments these laws determine every name. */
  lemma DotsAreResolved(a: Path, g: Segment, b: Path)
    requires Ordinary(g) && 92 !in g
    ensures NameSegments(a + [47] + g + [47] + [46, 46] + [47] + b) == NameSegments(a + [47] + b)
    ensures NameSegments(a + [47] + [46] + [47] + b) == NameSegments(a + [47] + b)
    ensures NameSegments(a + [47] + [] + [47] + b) == NameSegments(a + [47] + b)
    ensures NameSegments([46, 46] + [47] + b) == NameSegments([] + [47] + b) == NameSegments(b)
  {
    NameSegmentsOrdinary(a);
    NameOfTwo(a, b);
    NameOfSegment(a, g);
    NameOfSegment(a + [47] + g, DOTDOT);
    NameOfTwo(a + [47] + g + [47] + DOTDOT, b);
    NameOfSegment(a, DOT);
    NameOfTwo(a + [47] + DOT, b);
    NameOfSegment(a, []);
    NameOfTwo(a + [47] + [], b);
    UpFromTheRoot(b);
  }

  lemma UpFromTheRoot(b: Path)
    ensures NameSegments([46, 46] + [47] + b) == NameSegments([] + [47] + b) == NameSegments(b)
  {
    NoName();
    NameOfTwo([], b);
    NameOfSegment([], DOTDOT);
    assert [] + [47] + DOTDOT == [SLASH] + DOTDOT;
    NameOfTwo([] + [47] + DOTDOT, b);
    LeadingSlash(DOTDOT + [47] + b);
    assert [47] + (DOTDOT + [47] + b) == [] + [47] + DOTDOT + [47] + b;
    LeadingSlash(b);
    assert [] + [47] + b == [47] + b;
  }

  lemma LeadingSlash(b: Path)
    ensures NameSegments([47] + b) == NameSegments(b)
  {
    NoName();
    NameOfTwo([], b);
    assert [] + [47] + b == [47] + b;
    assert [SLASH] + Slashed(b) == [] + [SLASH] + Slashed(b);
    SplitAppend([], Slashed(b), SLASH);
    FoldAppend(true, [], [[]], Split(Slashed(b), SLASH));
    FoldOne(true, [], []);
  }

  lemma {:induction false} FoldRelative(st: seq<Segment>, ups: nat)
    requires Relative(st, ups)
    ensures Fold(false, [], st) == st
  {
    if st != [] {
      var n := |st| - 1;
      FoldRelative(st[..n], if ups > n then n else ups);
      assert st == st[..n] + [st[n]];
    }
  }

  /** Cleaning is done once and for all, and never gives the empty path. */
  lemma CleanIsClean(p: Path)
    ensures Clean(Clean(p)) == Clean(p) && Clean(p) != []
  {
    if Rooted(p) {
      RootedStack(p);
      CleanStack(Stack(p));
    } else {
      JoinOfSplit(p, SLASH);
      var ups := RelativeFold(Split(p, SLASH));
      RelativeIsClean(Stack(p), ups);
    }
  }

  lemma RelativeIsClean(st: seq<Segment>, ups: nat)
    requires Relative(st, ups)
    ensures Clean(Render(false, st)) == Render(false, st) != []
  {
    if st == [] {
      SplitOfFree(DOT, SLASH);
      FoldOne(false, [], DOT);
    } else {
      StackOfRendered(false, st);
      FoldRelative(st, ups);
      assert [] + st == st;
      assert JoinSegments(st)[0] == st[0][0];
    }
  }
}
