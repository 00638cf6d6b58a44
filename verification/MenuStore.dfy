/** The menu entries: a map by identifier, saved to a file after every change and listed in a
    fixed order. */
module MenuStore {
  import opened Sequences

  /** `createdAt` is a clock value; 0 is the zero time. */
  datatype Entry = Entry(id: string, title: string, isoName: string, enabled: bool, order: int,
                         distro: string, family: string, customCfg: string, createdAt: int)

  type Entries = map<string, Entry>

  ghost predicate Keyed(m: Entries) {
    forall k <- m :: m[k].id == k
  }

  // ----- Orders -----

  /** The comparison of the listing: by order, then by time of creation. */
  predicate Less(a: Entry, b: Entry) {
    a.order < b.order || (a.order == b.order && a.createdAt < b.createdAt)
  }

  /** The comparison used when saving. */
  predicate LessOrder(a: Entry, b: Entry) {
    a.order < b.order
  }

  predicate Before(a: Entry, b: Entry, byTime: bool) {
    if byTime then Less(a, b) else LessOrder(a, b)
  }

  ghost predicate SortedBy(s: seq<Entry>, byTime: bool) {
    forall i, j :: 0 <= i < j < |s| ==> !Before(s[j], s[i], byTime)
  }

  /** By order, and entries of the same order by time of creation. */
  ghost predicate Ascending(s: seq<Entry>) {
    forall i, j :: 0 <= i < j < |s| ==>
      s[i].order < s[j].order || (s[i].order == s[j].order && s[i].createdAt <= s[j].createdAt)
  }

  ghost predicate AscendingOrder(s: seq<Entry>) {
    forall i, j :: 0 <= i < j < |s| ==> s[i].order <= s[j].order
  }

  lemma SortedIsAscending(s: seq<Entry>)
    ensures SortedBy(s, true) <==> Ascending(s)
    ensures SortedBy(s, false) <==> AscendingOrder(s)
  {
    forall i, j | 0 <= i < j < |s|
      ensures !Before(s[j], s[i], true) <==>
                s[i].order < s[j].order || (s[i].order == s[j].order && s[i].createdAt <= s[j].createdAt)
      ensures !Before(s[j], s[i], false) <==> s[i].order <= s[j].order
    {}
  }

  /** A list of exactly the entries of a map, each once. */
  ghost predicate Lists(s: seq<Entry>, m: Entries) {
    && |s| == |m|
    && (forall i :: 0 <= i < |s| ==> s[i].id in m && m[s[i].id] == s[i])
    && (forall k <- m :: m[k] in s)
    && (forall i, j :: 0 <= i < j < |s| ==> s[i].id != s[j].id)
  }

  /** All entries, in the arbitrary order in which a map is traversed. */
  method Values(m: Entries) returns (s: seq<Entry>)
    requires Keyed(m)
    ensures Lists(s, m)
  {
    s := [];
    var todo := m.Keys;
    while todo != {}
      invariant todo <= m.Keys
      invariant |s| + |todo| == |m|
      invariant forall i :: 0 <= i < |s| ==> s[i].id in m.Keys - todo && m[s[i].id] == s[i]
      invariant forall k <- m :: k !in todo ==> m[k] in s
      invariant forall i, j :: 0 <= i < j < |s| ==> s[i].id != s[j].id
      decreases todo
    {
      var k :| k in todo;
      s := s + [m[k]];
      todo := todo - {k};
    }
  }

  function Insert(r: seq<Entry>, i: nat, e: Entry): (t: seq<Entry>)
    requires i <= |r|
    ensures |t| == |r| + 1
    ensures forall k :: 0 <= k < |t| ==> t[k] == if k < i then r[k] else if k == i then e else r[k - 1]
  {
    r[..i] + [e] + r[i..]
  }

  lemma InsertKeepsEntries(r: seq<Entry>, i: nat, e: Entry)
    requires i <= |r|
    ensures multiset(Insert(r, i, e)) == multiset(r) + multiset{e}
  {
    assert r == r[..i] + r[i..];
  }

  lemma InsertKeepsOrder(r: seq<Entry>, i: nat, e: Entry, byTime: bool)
    requires i <= |r| && SortedBy(r, byTime)
    requires i > 0 ==> !Before(e, r[i - 1], byTime)
    requires forall k :: i <= k < |r| ==> Before(e, r[k], byTime)
    ensures SortedBy(Insert(r, i, e), byTime)
  {
    var t := Insert(r, i, e);
    forall a, b | 0 <= a < b < |t| ensures !Before(t[b], t[a], byTime) {
      if a < i && b == i {
        NotBefore(r, i, e, a, byTime);
      } else if a == i {
        Asymmetric(e, r[b - 1], byTime);
      } else {
        var x, y := if a < i then a else a - 1, if b < i then b else b - 1;
        assert x < y;
      }
    }
  }

  lemma Asymmetric(a: Entry, b: Entry, byTime: bool)
    requires Before(a, b, byTime)
    ensures !Before(b, a, byTime)
  {
  }

  lemma NotBefore(r: seq<Entry>, i: nat, e: Entry, k: nat, byTime: bool)
    requires k < i <= |r| && SortedBy(r, byTime) && !Before(e, r[i - 1], byTime)
    ensures !Before(e, r[k], byTime)
  {
    if k < i - 1 {
      assert !Before(r[i - 1], r[k], byTime);
    }
  }

  /** Sorting: some permutation that is in order. Equal elements may end up either way. */
  method Sort(s: seq<Entry>, byTime: bool) returns (r: seq<Entry>)
    ensures multiset(r) == multiset(s) && SortedBy(r, byTime)
  {
    r := [];
    for n := 0 to |s|
      invariant multiset(r) == multiset(s[..n]) && SortedBy(r, byTime)
    {
      var i := |r|;
      while i > 0 && Before(s[n], r[i - 1], byTime)
        invariant 0 <= i <= |r|
        invariant forall k :: i <= k < |r| ==> Before(s[n], r[k], byTime)
      {
        i := i - 1;
      }
      assert s[..n + 1] == s[..n] + [s[n]];
      InsertKeepsOrder(r, i, s[n], byTime);
      InsertKeepsEntries(r, i, s[n]);
      r := Insert(r, i, s[n]);
    }
    assert s[..|s|] == s;
  }

  lemma PermutationLists(s: seq<Entry>, r: seq<Entry>, m: Entries)
    requires Keyed(m) && Lists(s, m) && multiset(r) == multiset(s)
    ensures Lists(r, m)
  {
    assert |r| == |multiset(r)| == |multiset(s)| == |s|;
    forall i | 0 <= i < |r| ensures r[i] in s {
      assert r[i] in multiset(r);
    }
    forall e | e in s ensures e in r {
      assert e in multiset(s);
    }
    forall i, j | 0 <= i < j < |r| ensures r[i].id != r[j].id {
      if r[i] == r[j] {
        Twice(r, i, j);
        Once(s, m, r[i]);
      }
    }
  }

  lemma Twice(r: seq<Entry>, i: nat, j: nat)
    requires i < j < |r| && r[i] == r[j]
    ensures multiset(r)[r[i]] >= 2
  {
    assert r == r[..j] + [r[j]] + r[j + 1..];
    assert r[i] in r[..j];
  }

  lemma Once(s: seq<Entry>, m: Entries, e: Entry)
    requires Keyed(m) && Lists(s, m)
    ensures multiset(s)[e] == if e.id in m && m[e.id] == e then 1 else 0
  {
    if e in s {
      var i :| 0 <= i < |s| && s[i] == e;
      assert e !in s[..i] && e !in s[i + 1..];
      CountAround(s, i);
    }
  }

  lemma CountAround(s: seq<Entry>, i: nat)
    requires i < |s|
    ensures multiset(s)[s[i]] == multiset(s[..i])[s[i]] + 1 + multiset(s[i + 1..])[s[i]]
  {
    assert s == s[..i] + [s[i]] + s[i + 1..];
  }

  // ----- Loading -----

  function Load(list: seq<Entry>): Entries {
    if list == [] then map[] else Load(list[..|list| - 1])[list[|list| - 1].id := list[|list| - 1]]
  }

  lemma {:induction false} LoadIsKeyed(list: seq<Entry>)
    ensures Keyed(Load(list))
    ensures forall k <- Load(list) :: Load(list)[k] in list
  {
    if list != [] {
      LoadIsKeyed(list[..|list| - 1]);
    }
  }

  lemma {:induction false} LoadFinds(list: seq<Entry>, i: nat)
    requires i < |list| && forall j :: i < j < |list| ==> list[j].id != list[i].id
    ensures list[i].id in Load(list) && Load(list)[list[i].id] == list[i]
  {
    var n := |list| - 1;
    if i < n {
      LoadFinds(list[..n], i);
    }
  }

  /** Saving a map, in whatever order, and loading it gives the map back. */
  lemma LoadOfSaved(list: seq<Entry>, m: Entries)
    requires Keyed(m) && Lists(list, m)
    ensures Load(list) == m
  {
    LoadIsKeyed(list);
    forall k | k in m ensures k in Load(list) && Load(list)[k] == m[k] {
      var i :| 0 <= i < |list| && list[i] == m[k];
      LoadFinds(list, i);
    }
  }

  // ----- The listing is determined by the entries -----

  /** No two entries agree in both order and time. */
  ghost predicate Separable(m: Entries) {
    forall a, b :: a in m && b in m && a != b ==> m[a].order != m[b].order || m[a].createdAt != m[b].createdAt
  }

  ghost predicate Distinct(s: seq<Entry>) {
    forall a, b :: a in s && b in s && a != b ==> Less(a, b) || Less(b, a)
  }

  lemma {:induction false} OneSortedListing(s: seq<Entry>, t: seq<Entry>)
    requires multiset(s) == multiset(t) && SortedBy(s, true) && SortedBy(t, true) && Distinct(s)
    ensures s == t
    decreases |s|
  {
    assert |s| == |multiset(s)| == |multiset(t)| == |t|;
    if s != [] {
      SameFirst(s, t);
      Tail(s);
      Tail(t);
      assert Distinct(s[1..]);
      OneSortedListing(s[1..], t[1..]);
      assert s == [s[0]] + s[1..] && t == [t[0]] + t[1..];
    }
  }

  lemma Tail(s: seq<Entry>)
    requires s != [] && SortedBy(s, true)
    ensures multiset(s[1..]) == multiset(s) - multiset{s[0]} && SortedBy(s[1..], true)
  {
    assert s == [s[0]] + s[1..];
    forall i, j | 0 <= i < j < |s| - 1 ensures !Before(s[1..][j], s[1..][i], true) {
      assert !Before(s[j + 1], s[i + 1], true);
    }
  }

  lemma SameFirst(s: seq<Entry>, t: seq<Entry>)
    requires s != [] && t != [] && multiset(s) == multiset(t) && SortedBy(s, true) && SortedBy(t, true) && Distinct(s)
    ensures s[0] == t[0]
  {
    assert t[0] in multiset(s) && s[0] in multiset(t);
    var i :| 0 <= i < |s| && s[i] == t[0];
    var j :| 0 <= j < |t| && t[j] == s[0];
    assert !Less(t[0], s[0]) && !Less(s[0], t[0]);
  }

  /** A listing of the entries in the order in which they are shown. */
  ghost predicate Listing(s: seq<Entry>, m: Entries) {
    Lists(s, m) && Ascending(s)
  }

  /** Any two listings of one map agree if and only if its (order, time) pairs are distinct. */
  lemma ListingIsUnique(m: Entries)
    requires Keyed(m)
    ensures (forall s, t :: Listing(s, m) && Listing(t, m) ==> s == t) <==> Separable(m)
  {
    if Separable(m) {
      forall s, t | Listing(s, m) && Listing(t, m) ensures s == t {
        SeparableListing(s, t, m);
      }
    } else {
      var s, t := TwoListings(m);
    }
  }

  lemma SeparableListing(s: seq<Entry>, t: seq<Entry>, m: Entries)
    requires Keyed(m) && Listing(s, m) && Listing(t, m) && Separable(m)
    ensures s == t
  {
    SameMultiset(s, t, m);
    SortedIsAscending(s);
    SortedIsAscending(t);
    OneSortedListing(s, t);
  }

  /** Two entries with the same order and time may be listed either way. */
  lemma TwoListings(m: Entries) returns (s: seq<Entry>, t: seq<Entry>)
    requires Keyed(m) && !Separable(m)
    ensures Listing(s, m) && Listing(t, m) && s != t
  {
    var a, b :| a in m && b in m && a != b && m[a].order == m[b].order && m[a].createdAt == m[b].createdAt;
    s := SomeListing(m);
    var i :| 0 <= i < |s| && s[i] == m[a];
    var j :| 0 <= j < |s| && s[j] == m[b];
    t := s[i := s[j]][j := s[i]];
    Exchange(s, i, j, t, m);
  }

  lemma Exchange(s: seq<Entry>, i: nat, j: nat, t: seq<Entry>, m: Entries)
    requires Keyed(m) && Listing(s, m) && i < |s| && j < |s| && s[i].id != s[j].id
    requires s[i].order == s[j].order && s[i].createdAt == s[j].createdAt && t == s[i := s[j]][j := s[i]]
    ensures Listing(t, m) && t != s
  {
    ExchangeKeepsEntries(s, i, j);
    PermutationLists(s, t, m);
    ExchangeKeepsOrders(s, i, j, t);
  }

  lemma ExchangeKeepsOrders(s: seq<Entry>, i: nat, j: nat, t: seq<Entry>)
    requires i < |s| && j < |s| && t == s[i := s[j]][j := s[i]]
    requires s[i].order == s[j].order && s[i].createdAt == s[j].createdAt
    ensures |t| == |s| && forall k :: 0 <= k < |s| ==> t[k].order == s[k].order && t[k].createdAt == s[k].createdAt
    ensures s[i] != s[j] ==> t != s
  {
    assert t[i] == s[j] || i == j;
  }

  lemma ExchangeKeepsEntries(s: seq<Entry>, i: nat, j: nat)
    requires i < |s| && j < |s|
    ensures multiset(s[i := s[j]][j := s[i]]) == multiset(s)
  {
  }

  /** There always is a listing: insert the entries one by one. */
  lemma {:induction false} SomeListing(m: Entries) returns (s: seq<Entry>)
    requires Keyed(m)
    ensures Listing(s, m)
    decreases |m|
  {
    if m == map[] {
      s := [];
    } else {
      var k :| k in m;
      var rest := m - {k};
      assert m.Keys == rest.Keys + {k};
      var r := SomeListing(rest);
      SortedIsAscending(r);
      var i := PlaceFor(r, m[k]);
      s := Insert(r, i, m[k]);
      InsertKeepsOrder(r, i, m[k], true);
      SortedIsAscending(s);
      InsertedLists(r, i, m, k);
    }
  }

  lemma {:induction false} PlaceFor(r: seq<Entry>, e: Entry) returns (i: nat)
    requires SortedBy(r, true)
    ensures i <= |r| && (i > 0 ==> !Before(e, r[i - 1], true)) && forall k :: i <= k < |r| ==> Before(e, r[k], true)
  {
    i := |r|;
    while i > 0 && Before(e, r[i - 1], true)
      invariant i <= |r| && forall k :: i <= k < |r| ==> Before(e, r[k], true)
    {
      i := i - 1;
    }
  }

  lemma InsertedLists(r: seq<Entry>, i: nat, m: Entries, k: string)
    requires Keyed(m) && k in m && i <= |r| && Lists(r, m - {k})
    ensures Lists(Insert(r, i, m[k]), m)
  {
    AppendedLists(r, m, k);
    InsertKeepsEntries(r, i, m[k]);
    PermutationLists(r + [m[k]], Insert(r, i, m[k]), m);
  }

  lemma AppendedLists(r: seq<Entry>, m: Entries, k: string)
    requires Keyed(m) && k in m && Lists(r, m - {k})
    ensures Lists(r + [m[k]], m)
  {
    var s := r + [m[k]];
    OneKeyLess(m, k);
    AppendedValues(r, m, k);
    AppendedIds(r, m, k, s);
  }

  lemma AppendedIds(r: seq<Entry>, m: Entries, k: string, s: seq<Entry>)
    requires Keyed(m) && k in m && s == r + [m[k]]
    requires forall i :: 0 <= i < |r| ==> r[i].id in m - {k} && (m - {k})[r[i].id] == r[i]
    requires forall i, j :: 0 <= i < j < |r| ==> r[i].id != r[j].id
    ensures forall i :: 0 <= i < |s| ==> s[i].id in m && m[s[i].id] == s[i]
    ensures forall i, j :: 0 <= i < j < |s| ==> s[i].id != s[j].id
  {
    forall i | 0 <= i < |r| ensures s[i].id in m && m[s[i].id] == s[i] && s[i].id != k {
      assert s[i] == r[i];
    }
  }

  lemma OneKeyLess(m: Entries, k: string)
    requires k in m
    ensures |m| == |m - {k}| + 1
  {
    assert m.Keys == (m - {k}).Keys + {k};
    assert |m| == |m.Keys| && |m - {k}| == |(m - {k}).Keys|;
  }

  lemma AppendedValues(r: seq<Entry>, m: Entries, k: string)
    requires k in m && forall q <- m - {k} :: (m - {k})[q] in r
    ensures forall q <- m :: m[q] in r + [m[k]]
  {
    forall q | q in m ensures m[q] in r + [m[k]] {
      if q != k {
        assert q in m - {k} && (m - {k})[q] == m[q];
      }
    }
  }

  lemma SameMultiset(s: seq<Entry>, t: seq<Entry>, m: Entries)
    requires Keyed(m) && Lists(s, m) && Lists(t, m)
    ensures multiset(s) == multiset(t)
  {
    forall e ensures multiset(s)[e] == multiset(t)[e] {
      Once(s, m, e);
      Once(t, m, e);
    }
  }

  // ----- Runs of changes -----

  datatype Op = Put(e: Entry, now: int) | Delete(id: string)

  function Stamped(e: Entry, now: int): Entry {
    if e.createdAt == 0 then e.(createdAt := now) else e
  }

  function Touches(op: Op): string {
    match op case Put(e, _) => e.id case Delete(id) => id
  }

  function After(m: Entries, op: Op): Entries {
    match op
    case Put(e, now) => m[e.id := Stamped(e, now)]
    case Delete(id) => m - {id}
  }

  function Replay(m: Entries, ops: seq<Op>): Entries {
    if ops == [] then m else After(Replay(m, ops[..|ops| - 1]), ops[|ops| - 1])
  }

  ghost predicate IsLastOn(ops: seq<Op>, i: int, k: string) {
    0 <= i < |ops| && Touches(ops[i]) == k && forall j :: i < j < |ops| ==> Touches(ops[j]) != k
  }

  /** An entry put is stored with all its fields; only a missing time of creation is filled in. */
  predicate Decides(m: Entries, op: Op, k: string) {
    match op
    case Put(e, now) => k in m && m[k] == e.(createdAt := if e.createdAt != 0 then e.createdAt else now)
    case Delete(_) => k !in m
  }

  /** After any run every key is its entry's identifier, and what a key holds was decided by the
      last operation on it alone. */
  lemma {:induction false} RunsKeepKeys(m: Entries, ops: seq<Op>, k: string)
    requires Keyed(m)
    ensures Keyed(Replay(m, ops))
    ensures (forall i :: 0 <= i < |ops| ==> Touches(ops[i]) != k) ==>
              (k in Replay(m, ops) <==> k in m) && (k in m ==> Replay(m, ops)[k] == m[k])
    ensures forall i :: IsLastOn(ops, i, k) ==> Decides(Replay(m, ops), ops[i], k)
  {
    if ops != [] {
      var n := |ops| - 1;
      var before := Replay(m, ops[..n]);
      RunsKeepKeys(m, ops[..n], k);
      LastDecides(before, ops[n], k);
      forall i | IsLastOn(ops, i, k) ensures Decides(Replay(m, ops), ops[i], k) {
        if i < n {
          assert IsLastOn(ops[..n], i, k);
          assert ops[..n][i] == ops[i];
        }
      }
    }
  }

  lemma LastDecides(m: Entries, op: Op, k: string)
    requires Keyed(m)
    ensures Keyed(After(m, op))
    ensures if Touches(op) == k then Decides(After(m, op), op, k)
            else (k in After(m, op) <==> k in m) && (k in m ==> After(m, op)[k] == m[k])
  {
  }

  // ----- The store -----

  /** The file holds a list of entries, or does not exist yet; encoding is not modelled. */
  class Store {
    var entries: Entries
    var disk: Option<seq<Entry>>

    ghost predicate Valid()
      reads this
    {
      Keyed(entries)
    }

    /** What is on disk describes the entries. */
    ghost predicate Saved()
      reads this
    {
      Keyed(entries) && disk.Some? && Lists(disk.value, entries)
    }

    constructor (disk: Option<seq<Entry>>)
      ensures Valid() && this.disk == disk
      ensures entries == if disk.Some? then Load(disk.value) else map[]
    {
      var m: Entries := map[];
      if disk.Some? {
        for i := 0 to |disk.value|
          invariant m == Load(disk.value[..i])
        {
          assert disk.value[..i + 1][..i] == disk.value[..i];
          m := m[disk.value[i].id := disk.value[i]];
        }
        assert disk.value[..|disk.value|] == disk.value;
        LoadIsKeyed(disk.value);
      }
      this.entries := m;
      this.disk := disk;
    }

    method List() returns (out: seq<Entry>)
      requires Valid()
      ensures Lists(out, entries) && Ascending(out)
    {
      var all := Values(entries);
      out := Sort(all, true);
      PermutationLists(all, out, entries);
      SortedIsAscending(out);
    }

    method Get(id: string) returns (e: Option<Entry>)
      ensures e == if id in entries then Some(entries[id]) else None
    {
      if id in entries {
        return Some(entries[id]);
      }
      return None;
    }

    /** `now` is the clock, `writable` whether the file can be replaced. */
    method Put(e: Entry, now: int, writable: bool) returns (stored: Entry, ok: bool)
      requires Valid()
      modifies this
      ensures Valid() && ok == writable
      ensures stored == Stamped(e, now)
      ensures entries == After(old(entries), Op.Put(e, now))
      ensures if writable then Saved() else disk == old(disk)
    {
      stored := e;
      if stored.createdAt == 0 {
        stored := stored.(createdAt := now);
      }
      entries := entries[stored.id := stored];
      ok := Save(writable);
    }

    method Delete(id: string, writable: bool) returns (ok: bool)
      requires Valid()
      modifies this
      ensures Valid() && ok == writable
      ensures entries == After(old(entries), Op.Delete(id))
      ensures if writable then Saved() else disk == old(disk)
    {
      entries := entries - {id};
      ok := Save(writable);
    }

    method Save(writable: bool) returns (ok: bool)
      requires Valid()
      modifies this`disk
      ensures ok == writable
      ensures if writable then Saved() && AscendingOrder(disk.value) else disk == old(disk)
    {
      var all := Values(entries);
      var list := Sort(all, false);
      PermutationLists(all, list, entries);
      SortedIsAscending(list);
      if !writable {
        return false;
      }
      disk := Some(list);
      return true;
    }

    /** Closing the program and starting it again: the same entries, and the same listing when no
        two entries agree in order and time. */
    method Reload() returns (s: Store, before: seq<Entry>, after: seq<Entry>)
      requires Saved()
      ensures s.Valid() && s.entries == entries
      ensures Lists(before, entries) && Lists(after, entries)
      ensures Separable(entries) ==> before == after
    {
      LoadOfSaved(disk.value, entries);
      s := new Store(disk);
      before := List();
      after := s.List();
      ListingIsUnique(entries);
      assert Listing(before, entries) && Listing(after, entries);
    }
  }
}
