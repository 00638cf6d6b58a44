/** The recursive walk over a directory graph that may be cyclic: at most 13 levels are entered. */
module IsoWalk {
  import opened Sequences
  import opened Text
  import opened IsoDirectory

  const MAX_DEPTH := 12

  type NameList = seq<string>

  /** The paths emitted for `entries` at some depth; None when the program panics. */
  function Unfold(image: seq<byte>, joliet: bool, prefix: string, entries: seq<DirEntry>, depth: nat)
    : Option<seq<string>>
    decreases if depth > MAX_DEPTH then 0 else MAX_DEPTH + 1 - depth, |entries|
  {
    if depth > MAX_DEPTH || entries == [] then Some([])
    else
      var head := UnfoldOne(image, joliet, prefix, entries[0], depth);
      if head.None? then None
      else Before(head.value, Unfold(image, joliet, prefix, entries[1..], depth))
  }

  function UnfoldOne(image: seq<byte>, joliet: bool, prefix: string, e: DirEntry, depth: nat): Option<seq<string>>
    requires depth <= MAX_DEPTH
    decreases MAX_DEPTH + 1 - depth, 0
  {
    var p := prefix + "/" + e.name;
    if !e.isDir then Some([p])
    else
      var sub := Contents(image, joliet, e);
      if sub.None? then None else Unfold(image, joliet, p, sub.value, depth + 1)
  }

  function Contents(image: seq<byte>, joliet: bool, e: DirEntry): Option<seq<DirEntry>> {
    if e.lba < 0 || e.size < 0 then None else ReadDirectory(image, joliet, e.lba, e.size)
  }

  function WalkPaths(image: seq<byte>, joliet: bool, lba: nat, size: nat): Option<seq<string>> {
    var root := ReadDirectory(image, joliet, lba, size);
    if root.None? then None else Unfold(image, joliet, "", root.value, 0)
  }

  lemma WalkOfRoot(image: seq<byte>, joliet: bool, lba: nat, size: nat, root: seq<DirEntry>)
    requires ReadDirectory(image, joliet, lba, size) == Some(root)
    ensures WalkPaths(image, joliet, lba, size) == Unfold(image, joliet, "", root, 0)
  {
  }

  lemma UnfoldCons(image: seq<byte>, joliet: bool, prefix: string, e: DirEntry, rest: seq<DirEntry>, depth: nat,
                   head: seq<string>, tail: seq<string>)
    requires depth <= MAX_DEPTH
    requires UnfoldOne(image, joliet, prefix, e, depth) == Some(head)
    requires Unfold(image, joliet, prefix, rest, depth) == Some(tail)
    ensures Unfold(image, joliet, prefix, [e] + rest, depth) == Some(head + tail)
  {
    assert ([e] + rest)[1..] == rest;
  }

  lemma DirUnfolds(image: seq<byte>, joliet: bool, prefix: string, e: DirEntry, depth: nat, sub: seq<DirEntry>)
    requires depth <= MAX_DEPTH && e.isDir && e.lba >= 0 && e.size >= 0
    requires ReadDirectory(image, joliet, e.lba, e.size) == Some(sub)
    ensures UnfoldOne(image, joliet, prefix, e, depth) == Unfold(image, joliet, prefix + "/" + e.name, sub, depth + 1)
  {
  }

  // ----- The recursive program, with its callback as a list that grows -----

  class Sink {
    var paths: seq<string>

    constructor ()
      ensures paths == []
    {
      paths := [];
    }

    method Emit(p: string)
      modifies this
      ensures paths == old(paths) + [p]
    {
      paths := paths + [p];
    }
  }

  /** Locations and sizes come from 4-byte fields. */
  ghost predicate Located(entries: seq<DirEntry>) {
    forall k :: 0 <= k < |entries| ==> entries[k].lba >= 0 && entries[k].size >= 0
  }

  lemma {:induction false} EntriesAreLocated(recs: seq<RawRecord>, joliet: bool)
    ensures Located(Entries(recs, joliet))
  {
    if recs != [] {
      EntriesAreLocated(recs[1..], joliet);
    }
  }

  lemma ReadIsLocated(image: seq<byte>, joliet: bool, lba: nat, size: nat)
    ensures var r := ReadDirectory(image, joliet, lba, size);
            r.Some? ==> Located(r.value)
  {
    var recs := Scan(Extent(image, lba, size), 0);
    if recs.Some? {
      EntriesAreLocated(recs.value, joliet);
    }
  }

  /** A call for `entries` succeeded or not, and appended exactly the paths of the unfolding. */
  ghost predicate Emitted(image: seq<byte>, joliet: bool, prefix: string, entries: seq<DirEntry>, depth: nat,
                          ok: bool, before: seq<string>, now: seq<string>)
  {
    var u := Unfold(image, joliet, prefix, entries, depth);
    (ok <==> u.Some?) && (ok ==> now == before + u.value)
  }

  method Walk(image: seq<byte>, joliet: bool, prefix: string, entries: seq<DirEntry>, sink: Sink, depth: nat)
    returns (ok: bool)
    requires Located(entries)
    modifies sink
    ensures Emitted(image, joliet, prefix, entries, depth, ok, old(sink.paths), sink.paths)
    decreases if depth > MAX_DEPTH then 0 else MAX_DEPTH + 1 - depth
  {
    if depth > MAX_DEPTH {
      return true;
    }
    ghost var before := sink.paths;
    NothingEmitted(image, joliet, prefix, entries, depth, before);
    for i := 0 to |entries|
      invariant Partly(image, joliet, prefix, entries, depth, i, before, sink.paths)
    {
      var e := entries[i];
      var p := prefix + "/" + e.name;
      ghost var now := sink.paths;
      if e.isDir {
        var sub := ReadDir(image, joliet, e.lba, e.size);
        if sub.None? {
          EntryEmitted(image, joliet, prefix, entries, depth, i, before, now, false, now);
          return false;
        }
        ReadIsLocated(image, joliet, e.lba, e.size);
        ok := Walk(image, joliet, p, sub.value, sink, depth + 1);
        DirEmitted(image, joliet, prefix, e, depth, ok, now, sink.paths);
        EntryEmitted(image, joliet, prefix, entries, depth, i, before, now, ok, sink.paths);
        if !ok {
          return false;
        }
      } else {
        sink.Emit(p);
        EntryEmitted(image, joliet, prefix, entries, depth, i, before, now, true, sink.paths);
      }
    }
    AllEmitted(image, joliet, prefix, entries, depth, before, sink.paths);
    return true;
  }

  ghost predicate OneEmitted(image: seq<byte>, joliet: bool, prefix: string, e: DirEntry, depth: nat,
                             ok: bool, before: seq<string>, now: seq<string>)
    requires depth <= MAX_DEPTH
  {
    var u := UnfoldOne(image, joliet, prefix, e, depth);
    (ok <==> u.Some?) && (ok ==> now == before + u.value)
  }

  lemma DirEmitted(image: seq<byte>, joliet: bool, prefix: string, e: DirEntry, depth: nat,
                   ok: bool, before: seq<string>, now: seq<string>)
    requires depth <= MAX_DEPTH && e.isDir && Contents(image, joliet, e).Some?
    requires Emitted(image, joliet, prefix + "/" + e.name, Contents(image, joliet, e).value, depth + 1, ok, before, now)
    ensures OneEmitted(image, joliet, prefix, e, depth, ok, before, now)
  {
  }

  /** After the first i entries: the rest of the unfolding is due. */
  ghost predicate Partly(image: seq<byte>, joliet: bool, prefix: string, entries: seq<DirEntry>, depth: nat,
                         i: nat, before: seq<string>, now: seq<string>)
    requires i <= |entries|
  {
    && before <= now
    && Before(now[|before|..], Unfold(image, joliet, prefix, entries[i..], depth))
       == Unfold(image, joliet, prefix, entries, depth)
  }

  lemma NothingEmitted(image: seq<byte>, joliet: bool, prefix: string, entries: seq<DirEntry>, depth: nat,
                       before: seq<string>)
    ensures Partly(image, joliet, prefix, entries, depth, 0, before, before)
  {
    BeforeNothing(Unfold(image, joliet, prefix, entries, depth));
    assert entries[0..] == entries && before[|before|..] == [];
  }

  lemma EntryEmitted(image: seq<byte>, joliet: bool, prefix: string, entries: seq<DirEntry>, depth: nat,
                     i: nat, before: seq<string>, now: seq<string>, ok: bool, next: seq<string>)
    requires i < |entries| && depth <= MAX_DEPTH
    requires Partly(image, joliet, prefix, entries, depth, i, before, now)
    requires OneEmitted(image, joliet, prefix, entries[i], depth, ok, now, next)
    ensures ok ==> Partly(image, joliet, prefix, entries, depth, i + 1, before, next)
    ensures !ok ==> Emitted(image, joliet, prefix, entries, depth, false, before, next)
  {
    assert entries[i..][1..] == entries[i + 1..];
    var head := UnfoldOne(image, joliet, prefix, entries[i], depth);
    if ok {
      BeforeTwice(now[|before|..], head.value, Unfold(image, joliet, prefix, entries[i + 1..], depth));
      assert next[|before|..] == now[|before|..] + head.value;
    }
  }

  lemma AllEmitted(image: seq<byte>, joliet: bool, prefix: string, entries: seq<DirEntry>, depth: nat,
                   before: seq<string>, now: seq<string>)
    requires Partly(image, joliet, prefix, entries, depth, |entries|, before, now)
    ensures Emitted(image, joliet, prefix, entries, depth, true, before, now)
  {
    assert now[|before|..] + [] == now[|before|..];
  }

  // ----- Which paths are emitted -----

  function Path(prefix: string, names: NameList): string
    decreases |names|
  {
    if names == [] then prefix else Path(prefix + "/" + names[0], names[1..])
  }

  function NamesOf(chain: seq<DirEntry>): NameList {
    seq(|chain|, i requires 0 <= i < |chain| => chain[i].name)
  }

  /** A descent through the directory graph: directories, each listing the next entry, and at
      last a file. */
  ghost predicate Descent(image: seq<byte>, joliet: bool, entries: seq<DirEntry>, chain: seq<DirEntry>)
    decreases |chain|
  {
    && chain != []
    && chain[0] in entries
    && if |chain| == 1 then !chain[0].isDir
       else && chain[0].isDir
            && Contents(image, joliet, chain[0]).Some?
            && Descent(image, joliet, Contents(image, joliet, chain[0]).value, chain[1..])
  }

  lemma UnfoldParts(image: seq<byte>, joliet: bool, prefix: string, entries: seq<DirEntry>, depth: nat)
    requires entries != [] && depth <= MAX_DEPTH && Unfold(image, joliet, prefix, entries, depth).Some?
    ensures var one, rest := UnfoldOne(image, joliet, prefix, entries[0], depth),
                             Unfold(image, joliet, prefix, entries[1..], depth);
            one.Some? && rest.Some? && Unfold(image, joliet, prefix, entries, depth).value == one.value + rest.value
  {
  }

  lemma PathOfMore(prefix: string, chain: seq<DirEntry>)
    requires chain != []
    ensures Path(prefix, NamesOf(chain)) == Path(prefix + "/" + chain[0].name, NamesOf(chain[1..]))
  {
    assert NamesOf(chain)[1..] == NamesOf(chain[1..]);
  }

  ghost predicate IsPathOf(prefix: string, chain: seq<DirEntry>, p: string) {
    p == Path(prefix, NamesOf(chain))
  }

  lemma NamesRest(prefix: string, chain: seq<DirEntry>, p: string, next: string)
    requires IsPathOf(prefix, chain, p) && chain != [] && next == prefix + "/" + chain[0].name
    ensures if |chain| == 1 then p == next else IsPathOf(next, chain[1..], p)
  {
    PathOfMore(prefix, chain);
    if |chain| == 1 {
      assert NamesOf(chain[1..]) == [];
    }
  }

  /** Every emitted path is that of a descent of at most 13 components. */
  lemma {:induction false} EmittedIsDescent(image: seq<byte>, joliet: bool, prefix: string,
                                            entries: seq<DirEntry>, depth: nat, p: string)
    returns (chain: seq<DirEntry>)
    requires var out := Unfold(image, joliet, prefix, entries, depth); out.Some? && p in out.value
    ensures Descent(image, joliet, entries, chain) && depth + |chain| <= 13
    ensures p == Path(prefix, NamesOf(chain))
    decreases if depth > MAX_DEPTH then 0 else MAX_DEPTH + 1 - depth, |entries|
  {
    var e, next := entries[0], prefix + "/" + entries[0].name;
    UnfoldParts(image, joliet, prefix, entries, depth);
    if p in UnfoldOne(image, joliet, prefix, e, depth).value {
      if e.isDir {
        var more := EmittedIsDescent(image, joliet, next, Contents(image, joliet, e).value, depth + 1, p);
        chain := FirstAndMore(image, joliet, entries, more);
        PathOfMore(prefix, chain);
      } else {
        chain := [e];
        NamesRest(prefix, chain, Path(prefix, NamesOf(chain)), next);
      }
    } else {
      chain := EmittedIsDescent(image, joliet, prefix, entries[1..], depth, p);
    }
  }

  lemma FirstAndMore(image: seq<byte>, joliet: bool, entries: seq<DirEntry>, more: seq<DirEntry>)
    returns (chain: seq<DirEntry>)
    requires entries != [] && entries[0].isDir && Contents(image, joliet, entries[0]).Some?
    requires Descent(image, joliet, Contents(image, joliet, entries[0]).value, more)
    ensures Descent(image, joliet, entries, chain) && chain == [entries[0]] + more && chain[1..] == more
  {
    chain := [entries[0]] + more;
    assert chain[1..] == more;
  }

  /** What one of the entries emits is emitted. */
  lemma {:induction false} MemberEmitted(image: seq<byte>, joliet: bool, prefix: string, entries: seq<DirEntry>,
                                         depth: nat, e: DirEntry, p: string)
    requires e in entries && depth <= MAX_DEPTH && Unfold(image, joliet, prefix, entries, depth).Some?
    ensures UnfoldOne(image, joliet, prefix, e, depth).Some?
    ensures p in UnfoldOne(image, joliet, prefix, e, depth).value ==>
              p in Unfold(image, joliet, prefix, entries, depth).value
    decreases |entries|
  {
    UnfoldParts(image, joliet, prefix, entries, depth);
    if e != entries[0] {
      MemberEmitted(image, joliet, prefix, entries[1..], depth, e, p);
    }
  }

  /** The path of every descent of at most 13 components is emitted. */
  lemma {:induction false} DescentIsEmitted(image: seq<byte>, joliet: bool, prefix: string,
                                            entries: seq<DirEntry>, depth: nat, chain: seq<DirEntry>, p: string)
    requires Unfold(image, joliet, prefix, entries, depth).Some?
    requires Descent(image, joliet, entries, chain) && depth + |chain| <= 13
    requires IsPathOf(prefix, chain, p)
    ensures p in Unfold(image, joliet, prefix, entries, depth).value
    decreases |chain|
  {
    var e, next := chain[0], prefix + "/" + chain[0].name;
    MemberEmitted(image, joliet, prefix, entries, depth, e, p);
    NamesRest(prefix, chain, p, next);
    if |chain| > 1 {
      DescentIsEmitted(image, joliet, next, Contents(image, joliet, e).value, depth + 1, chain[1..], p);
    }
  }

  /** So, on every image the walk survives, cyclic ones included, the emitted paths are exactly
      those of the descents of at most 13 components. */
  lemma {:induction false} EmittedPaths(image: seq<byte>, joliet: bool, lba: nat, size: nat, p: string)
    requires WalkPaths(image, joliet, lba, size).Some?
    ensures var root := ReadDirectory(image, joliet, lba, size).value;
            p in WalkPaths(image, joliet, lba, size).value <==>
            exists chain :: Descent(image, joliet, root, chain) && |chain| <= 13
                         && p == Path("", NamesOf(chain))
  {
    var root := ReadDirectory(image, joliet, lba, size).value;
    if p in WalkPaths(image, joliet, lba, size).value {
      var chain := EmittedIsDescent(image, joliet, "", root, 0, p);
    }
    forall chain | Descent(image, joliet, root, chain) && |chain| <= 13
      ensures Path("", NamesOf(chain)) in WalkPaths(image, joliet, lba, size).value
    {
      DescentIsEmitted(image, joliet, "", root, 0, chain, Path("", NamesOf(chain)));
    }
  }

  // ----- When the walk panics -----

  /** The reader comes to a record shorter than 33 bytes in this extent. */
  ghost predicate Unreadable(image: seq<byte>, lba: nat, size: nat) {
    exists at :: Visits(Extent(image, lba, size), 0, at) && ShortRecord(Extent(image, lba, size), at)
  }

  lemma UnreadableExactly(image: seq<byte>, joliet: bool, lba: nat, size: nat)
    ensures ReadDirectory(image, joliet, lba, size).None? <==> Unreadable(image, lba, size)
  {
    PanicsOnShortRecords(Extent(image, lba, size), 0);
  }

  /** A descent through directories, each listing the next, to one that cannot be read. */
  ghost predicate BadDescent(image: seq<byte>, joliet: bool, entries: seq<DirEntry>, chain: seq<DirEntry>)
    decreases |chain|
  {
    && chain != []
    && chain[0] in entries
    && chain[0].isDir
    && if |chain| == 1 then chain[0].lba >= 0 && chain[0].size >= 0 && Unreadable(image, chain[0].lba, chain[0].size)
       else && Contents(image, joliet, chain[0]).Some?
            && BadDescent(image, joliet, Contents(image, joliet, chain[0]).value, chain[1..])
  }

  lemma LocatedContents(image: seq<byte>, joliet: bool, e: DirEntry)
    requires e.lba >= 0 && e.size >= 0
    ensures Contents(image, joliet, e).None? <==> Unreadable(image, e.lba, e.size)
    ensures Contents(image, joliet, e).Some? ==> Located(Contents(image, joliet, e).value)
  {
    UnreadableExactly(image, joliet, e.lba, e.size);
    ReadIsLocated(image, joliet, e.lba, e.size);
  }

  lemma {:induction false} FailureHasDescent(image: seq<byte>, joliet: bool, prefix: string,
                                             entries: seq<DirEntry>, depth: nat)
    returns (chain: seq<DirEntry>)
    requires Located(entries) && Unfold(image, joliet, prefix, entries, depth).None?
    ensures BadDescent(image, joliet, entries, chain) && depth + |chain| <= 13
    decreases if depth > MAX_DEPTH then 0 else MAX_DEPTH + 1 - depth, |entries|
  {
    var e := entries[0];
    if UnfoldOne(image, joliet, prefix, e, depth).None? {
      LocatedContents(image, joliet, e);
      if Contents(image, joliet, e).None? {
        chain := [e];
      } else {
        var more := FailureHasDescent(image, joliet, prefix + "/" + e.name, Contents(image, joliet, e).value, depth + 1);
        chain := [e] + more;
        assert chain[1..] == more;
      }
    } else {
      chain := FailureHasDescent(image, joliet, prefix, entries[1..], depth);
      WiderDescent(image, joliet, e, entries, chain);
    }
  }

  lemma WiderDescent(image: seq<byte>, joliet: bool, e: DirEntry, entries: seq<DirEntry>, chain: seq<DirEntry>)
    requires entries != [] && BadDescent(image, joliet, entries[1..], chain)
    ensures BadDescent(image, joliet, entries, chain)
  {
  }

  /** A directory that fails makes the whole listing fail. */
  lemma {:induction false} MemberFails(image: seq<byte>, joliet: bool, prefix: string, entries: seq<DirEntry>,
                                       depth: nat, e: DirEntry)
    requires e in entries && depth <= MAX_DEPTH && UnfoldOne(image, joliet, prefix, e, depth).None?
    ensures Unfold(image, joliet, prefix, entries, depth).None?
  {
    if Unfold(image, joliet, prefix, entries, depth).Some? {
      MemberEmitted(image, joliet, prefix, entries, depth, e, "");
    }
  }

  lemma {:induction false} DescentFails(image: seq<byte>, joliet: bool, prefix: string,
                                        entries: seq<DirEntry>, depth: nat, chain: seq<DirEntry>)
    requires BadDescent(image, joliet, entries, chain) && depth + |chain| <= 13
    ensures Unfold(image, joliet, prefix, entries, depth).None?
    decreases |chain|
  {
    var e := chain[0];
    if |chain| == 1 {
      LocatedContents(image, joliet, e);
    } else {
      DescentFails(image, joliet, prefix + "/" + e.name, Contents(image, joliet, e).value, depth + 1, chain[1..]);
    }
    MemberFails(image, joliet, prefix, entries, depth, e);
  }

  /** The root, or a directory reached through at most 12 others, cannot be read. */
  ghost predicate WalkPanics(image: seq<byte>, joliet: bool, lba: nat, size: nat) {
    || Unreadable(image, lba, size)
    || exists chain :: |chain| <= 13
                    && ReadDirectory(image, joliet, lba, size).Some?
                    && BadDescent(image, joliet, ReadDirectory(image, joliet, lba, size).value, chain)
  }

  /** The walk of an image panics exactly then. */
  lemma {:induction false} WalkPanicsExactly(image: seq<byte>, joliet: bool, lba: nat, size: nat)
    ensures WalkPaths(image, joliet, lba, size).None? <==> WalkPanics(image, joliet, lba, size)
  {
    UnreadableExactly(image, joliet, lba, size);
    ReadIsLocated(image, joliet, lba, size);
    var root := ReadDirectory(image, joliet, lba, size);
    if root.Some? {
      if Unfold(image, joliet, "", root.value, 0).None? {
        var chain := FailureHasDescent(image, joliet, "", root.value, 0);
      }
      forall chain | BadDescent(image, joliet, root.value, chain) && |chain| <= 13
        ensures Unfold(image, joliet, "", root.value, 0).None?
      {
        DescentFails(image, joliet, "", root.value, 0, chain);
      }
    }
  }
}
