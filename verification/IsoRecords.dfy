/** Directory records as a writer lays them out (ECMA-119 sections 6.8.1, 7.3.3 and 9.1), and the
    round trip through the reader. */
module IsoRecords {
  import opened Sequences
  import opened Text
  import opened IsoDirectory

  function PutLe32(n: nat): (b: seq<byte>)
    requires n < TWO32
    ensures |b| == 4 && Le32(b) == n
  {
    var q1 := n / 0x100;
    var q2 := q1 / 0x100;
    [n % 0x100, q1 % 0x100, q2 % 0x100, q2 / 0x100]
  }

  /** Both byte orders, one after the other. */
  function PutBoth32(n: nat): (b: seq<byte>)
    requires n < TWO32
    ensures |b| == 8 && Le32(b[0..4]) == Le32([b[7], b[6], b[5], b[4]]) == n
  {
    var le := PutLe32(n);
    assert (le + [le[3], le[2], le[1], le[0]])[0..4] == le;
    le + [le[3], le[2], le[1], le[0]]
  }

  /** `date` and `misc` are fields the reader ignores; `tail` is padding and system use. */
  datatype Record = Record(ext: byte, lba: nat, size: nat, date: seq<byte>, flags: byte, misc: seq<byte>,
                           id: seq<byte>, tail: seq<byte>)
  {
    function Length(): nat {
      RECORD_HEAD + |id| + |tail|
    }

    predicate Valid() {
      lba < TWO32 && size < TWO32 && |date| == 7 && |misc| == 6 && Length() < 256
    }

    function Bytes(): (b: seq<byte>)
      requires Valid()
      ensures |b| == Length()
    {
      [Length(), ext] + PutBoth32(lba) + PutBoth32(size) + date + [flags] + misc + [|id|] + id + tail
    }
  }

  predicate IsSelfOrParent(r: Record) {
    |r.id| == 1 && r.id[0] <= 1
  }

  /** What a record means to the reader. */
  function Meaning(r: Record, joliet: bool): seq<DirEntry> {
    if IsSelfOrParent(r) then []
    else [DirEntry(CleanName(Decoded(r.id, joliet)), r.lba, r.size, r.flags / FLAG_DIRECTORY % 2 == 1)]
  }

  function Meanings(rs: seq<Record>, joliet: bool): seq<DirEntry> {
    if rs == [] then [] else Meaning(rs[0], joliet) + Meanings(rs[1..], joliet)
  }

  lemma RecordFields(r: Record)
    requires r.Valid()
    ensures var b := r.Bytes();
            && b[0] == r.Length() && Le32(b[2..6]) == r.lba && Le32(b[10..14]) == r.size
            && b[25] == r.flags && b[32] == |r.id| && b[33..33 + |r.id|] == r.id
  {
    var b := r.Bytes();
    assert b[2..6] == PutBoth32(r.lba)[0..4];
    assert b[10..14] == PutBoth32(r.size)[0..4];
  }

  lemma RecordMeaning(r: Record, joliet: bool)
    requires r.Valid()
    ensures EntryOf(r.Bytes(), joliet) == Meaning(r, joliet)
  {
    RecordFields(r);
  }

  // ----- Sectors -----

  ghost predicate AllValid(rs: seq<Record>) {
    forall k :: 0 <= k < |rs| ==> rs[k].Valid()
  }

  function TotalLength(rs: seq<Record>): nat {
    if rs == [] then 0 else rs[0].Length() + TotalLength(rs[1..])
  }

  function RecordBytes(rs: seq<Record>): (b: seq<byte>)
    requires AllValid(rs)
    ensures |b| == TotalLength(rs)
  {
    if rs == [] then [] else rs[0].Bytes() + RecordBytes(rs[1..])
  }

  ghost predicate SectorFits(rs: seq<Record>) {
    AllValid(rs) && TotalLength(rs) <= SECTOR
  }

  function SectorBytes(rs: seq<Record>): (b: seq<byte>)
    requires SectorFits(rs)
    ensures |b| == SECTOR
  {
    RecordBytes(rs) + Zeros(SECTOR - TotalLength(rs))
  }

  ghost predicate LayoutFits(layout: seq<seq<Record>>) {
    forall k :: 0 <= k < |layout| ==> SectorFits(layout[k])
  }

  function LayoutBytes(layout: seq<seq<Record>>): (b: seq<byte>)
    requires LayoutFits(layout)
    ensures |b| == SECTOR * |layout|
  {
    if layout == [] then [] else SectorBytes(layout[0]) + LayoutBytes(layout[1..])
  }

  function Raw(rs: seq<Record>): (raw: seq<RawRecord>)
    requires AllValid(rs)
    ensures |raw| == |rs|
  {
    seq(|rs|, i requires 0 <= i < |rs| => rs[i].Bytes())
  }

  lemma {:induction false} EntriesOfRaw(rs: seq<Record>, joliet: bool)
    requires AllValid(rs)
    ensures Entries(Raw(rs), joliet) == Meanings(rs, joliet)
  {
    if rs != [] {
      RecordMeaning(rs[0], joliet);
      EntriesOfRaw(rs[1..], joliet);
      assert Raw(rs)[1..] == Raw(rs[1..]);
    }
  }

  /** The scan reads `recs` between two positions. */
  ghost predicate Reads(data: seq<byte>, pos: nat, recs: seq<RawRecord>, end: nat) {
    Scan(data, pos) == Before(recs, Scan(data, end))
  }

  lemma ReadsOne(data: seq<byte>, pos: nat, rec: RawRecord)
    requires rec[0] == |rec| && At(data, pos, rec)
    ensures Reads(data, pos, [rec], pos + |rec|)
  {
    assert data[pos] == data[pos..pos + |rec|][0];
  }

  lemma ReadsNothing(data: seq<byte>, pos: nat)
    ensures Reads(data, pos, [], pos)
  {
    BeforeNothing(Scan(data, pos));
  }

  lemma ReadsOn(data: seq<byte>, p: nat, a: seq<RawRecord>, q: nat, b: seq<RawRecord>, r: nat)
    requires Reads(data, p, a, q) && Reads(data, q, b, r)
    ensures Reads(data, p, a + b, r)
  {
    BeforeTwice(a, b, Scan(data, r));
  }

  /** Records that give their own length in the first byte. */
  ghost predicate SelfSized(recs: seq<RawRecord>) {
    forall k :: 0 <= k < |recs| ==> recs[k][0] == |recs[k]|
  }

  lemma {:induction false} ReadsAll(data: seq<byte>, pos: nat, recs: seq<RawRecord>, end: nat)
    requires SelfSized(recs) && At(data, pos, Flatten(recs)) && end == pos + |Flatten(recs)|
    ensures Reads(data, pos, recs, end)
    decreases |recs|
  {
    if recs == [] {
      ReadsNothing(data, pos);
    } else {
      var rec, rest := recs[0], recs[1..];
      var mid := pos + |rec|;
      AtSplit(data, pos, rec, Flatten(rest));
      ReadsOne(data, pos, rec);
      ReadsAll(data, mid, rest, end);
      ReadsOn(data, pos, [rec], mid, rest, end);
      Uncons(recs);
    }
  }

  lemma {:induction false} RawBytes(rs: seq<Record>)
    requires AllValid(rs)
    ensures SelfSized(Raw(rs)) && Flatten(Raw(rs)) == RecordBytes(rs)
  {
    if rs != [] {
      RecordFields(rs[0]);
      RawBytes(rs[1..]);
      assert Raw(rs) == [Raw(rs)[0]] + Raw(rs[1..]);
      forall k | 0 <= k < |rs| ensures Raw(rs)[k][0] == |Raw(rs)[k]| {
        if k > 0 {
          assert Raw(rs)[k] == Raw(rs[1..])[k - 1];
        }
      }
    }
  }

  /** From anywhere in the zero fill, the scan goes on at the next sector. */
  lemma SkipFill(data: seq<byte>, k: nat, pos: nat)
    requires k * SECTOR <= pos <= (k + 1) * SECTOR <= |data|
    requires forall i :: pos <= i < (k + 1) * SECTOR ==> data[i] == 0
    ensures Scan(data, pos) == Scan(data, (k + 1) * SECTOR)
  {
    if pos < (k + 1) * SECTOR {
      assert pos / SECTOR == k;
    }
  }

  lemma ScanSector(data: seq<byte>, k: nat, rs: seq<Record>)
    requires SectorFits(rs) && At(data, k * SECTOR, SectorBytes(rs))
    ensures Reads(data, k * SECTOR, Raw(rs), (k + 1) * SECTOR)
  {
    RawBytes(rs);
    AtSplit(data, k * SECTOR, RecordBytes(rs), Zeros(SECTOR - TotalLength(rs)));
    ReadsFilled(data, k, Raw(rs), RecordBytes(rs));
  }

  lemma ReadsFilled(data: seq<byte>, k: nat, recs: seq<RawRecord>, b: seq<byte>)
    requires SelfSized(recs) && Flatten(recs) == b && |b| <= SECTOR
    requires At(data, k * SECTOR, b) && At(data, k * SECTOR + |b|, Zeros(SECTOR - |b|))
    ensures Reads(data, k * SECTOR, recs, (k + 1) * SECTOR)
  {
    var pos := k * SECTOR + |b|;
    ReadsAll(data, k * SECTOR, recs, pos);
    ZerosAt(data, pos, SECTOR - |b|);
    SkipFill(data, k, pos);
  }

  lemma ZerosAt(data: seq<byte>, pos: nat, n: nat)
    requires At(data, pos, Zeros(n))
    ensures forall i :: pos <= i < pos + n ==> data[i] == 0
  {
    forall i | pos <= i < pos + n ensures data[i] == 0 {
      assert data[i] == data[pos..pos + n][i - pos];
    }
  }

  lemma {:induction false} ScanLayout(data: seq<byte>, k: nat, layout: seq<seq<Record>>)
    requires LayoutFits(layout) && At(data, k * SECTOR, LayoutBytes(layout))
    requires |data| == (k + |layout|) * SECTOR
    ensures AllValid(Flatten(layout))
    ensures Scan(data, k * SECTOR) == Some(Raw(Flatten(layout)))
    decreases |layout|
  {
    if layout != [] {
      var rs, rest := layout[0], layout[1..];
      AtSplit(data, k * SECTOR, SectorBytes(rs), LayoutBytes(rest));
      ScanSector(data, k, rs);
      ScanLayout(data, k + 1, rest);
      RawConcat(rs, Flatten(rest));
    }
  }

  lemma RawConcat(a: seq<Record>, b: seq<Record>)
    requires AllValid(a) && AllValid(b)
    ensures AllValid(a + b) && Raw(a + b) == Raw(a) + Raw(b)
  {
  }

  /** Any records, laid out over sectors in any way that keeps each within one, are read back in
      order: names without version and trailing dot, locations, sizes and directory flags. */
  lemma DirectoryRoundTrip(image: seq<byte>, lba: nat, layout: seq<seq<Record>>, joliet: bool)
    requires LayoutFits(layout) && At(image, lba * SECTOR, LayoutBytes(layout))
    ensures ReadDirectory(image, joliet, lba, SECTOR * |layout|) == Some(Meanings(Flatten(layout), joliet))
  {
    var data := Extent(image, lba, SECTOR * |layout|);
    var b := LayoutBytes(layout);
    forall i | 0 <= i < |b| ensures data[i] == b[i] {
      assert image[lba * SECTOR..lba * SECTOR + |b|][i] == image[lba * SECTOR + i];
    }
    assert data == b && data[0..0 + |b|] == data;
    ScanLayout(data, 0, layout);
    EntriesOfRaw(Flatten(layout), joliet);
  }

  // ----- A layout for any record list -----

  /** Fills one sector after the other; `open` is the sector being filled. */
  function Pack(open: seq<Record>, rs: seq<Record>): (layout: seq<seq<Record>>)
    ensures |layout| >= 1
    decreases |rs|
  {
    if rs == [] then [open]
    else if TotalLength(open) + rs[0].Length() <= SECTOR then Pack(open + [rs[0]], rs[1..])
    else [open] + Pack([rs[0]], rs[1..])
  }

  lemma {:induction false} TotalLengthConcat(a: seq<Record>, b: seq<Record>)
    ensures TotalLength(a + b) == TotalLength(a) + TotalLength(b)
  {
    if a == [] {
      assert a + b == b;
    } else {
      assert (a + b)[1..] == a[1..] + b;
      TotalLengthConcat(a[1..], b);
    }
  }

  lemma TotalOfOne(r: Record)
    ensures TotalLength([r]) == r.Length()
  {
    assert [r][1..] == [];
  }

  lemma {:induction false} PackKeepsRecords(open: seq<Record>, rs: seq<Record>)
    requires SectorFits(open) && AllValid(rs)
    ensures LayoutFits(Pack(open, rs)) && Flatten(Pack(open, rs)) == open + rs
    decreases |rs|
  {
    if rs == [] {
      assert [open][1..] == [];
      assert Flatten([open]) == open + Flatten([open][1..]);
    } else {
      TotalOfOne(rs[0]);
      assert rs == [rs[0]] + rs[1..];
      if TotalLength(open) + rs[0].Length() <= SECTOR {
        TotalLengthConcat(open, [rs[0]]);
        PackKeepsRecords(open + [rs[0]], rs[1..]);
        ConcatAssoc(open, [rs[0]], rs[1..]);
      } else {
        PackKeepsRecords([rs[0]], rs[1..]);
        assert ([open] + Pack([rs[0]], rs[1..]))[1..] == Pack([rs[0]], rs[1..]);
      }
    }
  }

  ghost predicate SameLengths(a: seq<Record>, b: seq<Record>) {
    |a| == |b| && forall k :: 0 <= k < |a| ==> a[k].Length() == b[k].Length()
  }

  lemma {:induction false} SameTotal(a: seq<Record>, b: seq<Record>)
    requires SameLengths(a, b)
    ensures TotalLength(a) == TotalLength(b)
  {
    if a != [] {
      SameTotal(a[1..], b[1..]);
    }
  }

  /** How many sectors a directory takes depends on its record lengths alone. */
  lemma {:induction false} SamePack(open: seq<Record>, open': seq<Record>, rs: seq<Record>, rs': seq<Record>)
    requires SameLengths(open, open') && SameLengths(rs, rs')
    ensures |Pack(open, rs)| == |Pack(open', rs')|
    decreases |rs|
  {
    if rs != [] {
      SameTotal(open, open');
      SamePack(open + [rs[0]], open' + [rs'[0]], rs[1..], rs'[1..]);
      SamePack([rs[0]], [rs'[0]], rs[1..], rs'[1..]);
    }
  }

  // ----- Identifiers -----

  function CodeUnit(c: char): (unit: int)
    ensures 0 <= unit < 0x1_0000
    ensures (c as int) < 0x1_0000 ==> Rune(unit) == c
  {
    (c as int) % 0x1_0000
  }

  function JolietId(name: string): (id: seq<byte>)
    ensures |id| == 2 * |name|
  {
    if name == [] then [] else PutBe16(CodeUnit(name[0])) + JolietId(name[1..])
  }

  function Identifier(name: string, joliet: bool): seq<byte> {
    if joliet then JolietId(name) else Ascii(name)
  }

  /** Representable in the encoding: one byte or one 16-bit unit a character. */
  predicate Representable(name: string, joliet: bool) {
    forall k :: 0 <= k < |name| ==> (name[k] as int) < if joliet then 0x1_0000 else 0x100
  }

  lemma {:induction false} Ucs2OfJolietId(name: string)
    requires Representable(name, true)
    ensures Ucs2(JolietId(name)) == name
  {
    if name != [] {
      Ucs2OfJolietId(name[1..]);
      Ucs2Cons(PutBe16(CodeUnit(name[0])), JolietId(name[1..]));
      assert name == [name[0]] + name[1..];
    }
  }

  lemma Ucs2Cons(unit: seq<byte>, rest: seq<byte>)
    requires |unit| == 2
    ensures Ucs2(unit + rest) == [Rune(Be16(unit[0], unit[1]))] + Ucs2(rest)
  {
    assert (unit + rest)[2..] == rest;
  }

  /** A name survives encoding and decoding exactly when every character has a code: for Joliet
      those are the characters of the basic plane, surrogates never being characters. */
  lemma IdentifierRoundTrip(name: string, joliet: bool)
    ensures Decoded(Identifier(name, joliet), joliet) == name <==> Representable(name, joliet)
  {
    if joliet {
      if Representable(name, true) {
        Ucs2OfJolietId(name);
      } else {
        Ucs2IsBasic(JolietId(name));
      }
    } else if Representable(name, false) {
      assert Plain(Ascii(name)) == name;
    }
  }

  lemma {:induction false} Ucs2IsBasic(raw: seq<byte>)
    ensures Representable(Ucs2(raw), true)
  {
    if |raw| >= 2 {
      Ucs2IsBasic(raw[2..]);
    }
  }

  predicate PlainName(name: string) {
    ';' !in name && (|name| > 0 ==> name[|name| - 1] != '.')
  }

  lemma SemicolonAt(a: string, b: string)
    requires ';' !in a
    ensures Unversioned(a + ";" + b) == a && Unversioned(a) == a
  {
    var s := a + ";" + b;
    assert s[|a|..|a| + 1] == ";";
    assert At(s, |a|, ";");
    var i := Index(s, ";");
    assert s[i..i + 1][0] == s[i] == ';';
    assert s[..|a|] == a;
    NoSemicolon(a);
  }

  lemma NoSemicolon(a: string)
    requires ';' !in a
    ensures Index(a, ";") == -1
  {
    forall j | 0 <= j < |a| ensures !At(a, j, ";") {
      assert a[j..j + 1][0] == a[j];
    }
  }

  lemma CleanHasNoSemicolon(name: string)
    ensures ';' !in CleanName(name)
  {
    var i := Index(name, ";");
    forall j | 0 <= j < |Unversioned(name)| ensures Unversioned(name)[j] != ';' {
      assert !At(name, j, ";");
      assert name[j..j + 1] == [name[j]];
    }
  }

  /** A version disappears, and a dot before it, which writers add when there is no extension. */
  lemma {:induction false} VersionsDisappear(name: string, version: string)
    ensures ';' !in name ==> CleanName(name + "." + ";" + version) == name
    ensures CleanName(name + ";" + version) == name <==> PlainName(name)
  {
    CleanHasNoSemicolon(name + ";" + version);
    if ';' !in name {
      SemicolonAt(name + ".", version);
      SemicolonAt(name, version);
      assert (name + ".")[..|name|] == name;
    }
  }

  /** Exactly the names without semicolon and trailing dot read as written. */
  lemma {:induction false} NamesAreCleaned(name: string)
    ensures CleanName(name) == name <==> PlainName(name)
  {
    CleanHasNoSemicolon(name);
    if ';' !in name {
      NoSemicolon(name);
    }
  }
}
