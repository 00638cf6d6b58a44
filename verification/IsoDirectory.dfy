/** Directory extents of ISO 9660 images (ECMA-119 section 9.1): the record scanner of the reader,
    the names it returns, and when it panics. */
module IsoDirectory {
  import opened Sequences
  import opened Text

  const SECTOR := 2048
  const TWO32 := 0x1_0000_0000
  const RECORD_HEAD := 33
  const FLAG_DIRECTORY := 2

  datatype DirEntry = DirEntry(name: string, lba: int, size: int, isDir: bool)

  function Le32(b: seq<byte>): int
    requires |b| == 4
  {
    var b0: int, b1: int, b2: int, b3: int := b[0], b[1], b[2], b[3];
    b0 + 0x100 * b1 + 0x1_0000 * b2 + 0x100_0000 * b3
  }

  // ----- Names -----

  /** A rune as it comes out of the string builder: surrogates become the replacement character. */
  function Rune(unit: int): char
    requires 0 <= unit < 0x1_0000
  {
    if 0xD800 <= unit < 0xE000 then '\U{FFFD}' else unit as char
  }

  /** Big-endian 16-bit units; an odd last byte is ignored. */
  function Ucs2(raw: seq<byte>): string {
    if |raw| < 2 then [] else [Rune(Be16(raw[0], raw[1]))] + Ucs2(raw[2..])
  }

  method DecodeUcs2(raw: seq<byte>) returns (s: string)
    ensures s == Ucs2(raw)
  {
    s := [];
    var i := 0;
    while i + 1 < |raw|
      invariant 0 <= i <= |raw|
      invariant s + Ucs2(raw[i..]) == Ucs2(raw)
    {
      assert raw[i..][2..] == raw[i + 2..];
      s := s + [Rune(Be16(raw[i], raw[i + 1]))];
      i := i + 2;
    }
  }

  function Decoded(raw: seq<byte>, joliet: bool): string {
    if joliet then Ucs2(raw) else Plain(raw)
  }

  /** Cuts the name at the first semicolon. */
  function Unversioned(name: string): string {
    var i := Index(name, ";");
    if i >= 0 then name[..i] else name
  }

  /** Drops the version and then one trailing dot. */
  function CleanName(name: string): string {
    var s := Unversioned(name);
    if |s| > 0 && s[|s| - 1] == '.' then s[..|s| - 1] else s
  }

  // ----- The reader -----

  type RawRecord = r: seq<byte> | |r| >= RECORD_HEAD witness Zeros(RECORD_HEAD)

  function NextSector(pos: nat): (next: nat)
    ensures next > pos
  {
    (pos / SECTOR + 1) * SECTOR
  }

  /** The records from `pos` on; None when one shorter than 33 bytes makes the program panic. */
  function Scan(data: seq<byte>, pos: nat): Option<seq<RawRecord>>
    decreases |data| - pos
  {
    if pos >= |data| then Some([])
    else
      var l := data[pos];
      if l == 0 then
        if NextSector(pos) >= |data| then Some([]) else Scan(data, NextSector(pos))
      else if pos + l > |data| then Some([])
      else if l < RECORD_HEAD then None
      else Before([data[pos..pos + l]], Scan(data, pos + l))
  }

  function Before<T>(xs: seq<T>, rest: Option<seq<T>>): Option<seq<T>> {
    if rest.None? then None else Some(xs + rest.value)
  }

  /** The entry of one record, if it has one: none when the name does not fit the record, or
      for the records of the directory itself and its parent. */
  function EntryOf(rec: RawRecord, joliet: bool): seq<DirEntry> {
    var n := rec[32];
    if RECORD_HEAD + n > |rec| then []
    else
      var raw := rec[RECORD_HEAD..RECORD_HEAD + n];
      if n == 1 && raw[0] <= 1 then []
      else [DirEntry(CleanName(Decoded(raw, joliet)), Le32(rec[2..6]), Le32(rec[10..14]),
                     rec[25] / FLAG_DIRECTORY % 2 == 1)]
  }

  function Entries(recs: seq<RawRecord>, joliet: bool): seq<DirEntry> {
    if recs == [] then [] else EntryOf(recs[0], joliet) + Entries(recs[1..], joliet)
  }

  lemma {:induction false} EntriesConcat(a: seq<RawRecord>, b: seq<RawRecord>, joliet: bool)
    ensures Entries(a + b, joliet) == Entries(a, joliet) + Entries(b, joliet)
  {
    if a == [] {
      assert a + b == b;
    } else {
      assert (a + b)[1..] == a[1..] + b;
      EntriesConcat(a[1..], b, joliet);
      ConcatAssoc(EntryOf(a[0], joliet), Entries(a[1..], joliet), Entries(b, joliet));
    }
  }

  /** An extent as read into a zeroed buffer of the wanted size; the image may end earlier. */
  function Extent(image: seq<byte>, lba: nat, size: nat): (data: seq<byte>)
    ensures |data| == size
  {
    seq(size, i requires 0 <= i < size => if lba * SECTOR + i < |image| then image[lba * SECTOR + i] else 0)
  }

  function EntriesIn(data: seq<byte>, joliet: bool): Option<seq<DirEntry>> {
    var recs := Scan(data, 0);
    if recs.None? then None else Some(Entries(recs.value, joliet))
  }

  function ReadDirectory(image: seq<byte>, joliet: bool, lba: nat, size: nat): Option<seq<DirEntry>> {
    EntriesIn(Extent(image, lba, size), joliet)
  }

  method ReadDir(image: seq<byte>, joliet: bool, lba: nat, size: nat) returns (r: Option<seq<DirEntry>>)
    ensures r == ReadDirectory(image, joliet, lba, size)
  {
    r := ReadRecords(Extent(image, lba, size), joliet);
  }

  /** The loop over the extent. */
  method ReadRecords(data: seq<byte>, joliet: bool) returns (r: Option<seq<DirEntry>>)
    ensures r == EntriesIn(data, joliet)
  {
    var out: seq<DirEntry> := [];
    var pos := 0;
    NothingRead(data, joliet);
    while pos < |data|
      invariant ReadSoFar(data, pos, out, joliet)
      decreases |data| - pos
    {
      var l := data[pos];
      if l == 0 {
        var next := NextSector(pos);
        if next <= pos || next >= |data| {
          break;
        }
        SkipToSector(data, pos, out, joliet);
        pos := next;
        continue;
      }
      if pos + l > |data| {
        break;
      }
      if l < RECORD_HEAD {
        ScanPanics(data, pos, out, joliet);
        return None; // index out of range
      }
      var rec: RawRecord := data[pos..pos + l];
      var es := ReadRecord(rec, joliet);
      OneRecordMore(data, pos, out, rec, joliet);
      out := out + es;
      pos := pos + l;
    }
    ScanEnds(data, pos, out, joliet);
    return Some(out);
  }

  /** The scan from `pos` on yields what is still missing after `done`. */
  ghost predicate Remaining(data: seq<byte>, pos: nat, done: seq<RawRecord>) {
    Before(done, Scan(data, pos)) == Scan(data, 0)
  }

  ghost predicate ReadSoFar(data: seq<byte>, pos: nat, out: seq<DirEntry>, joliet: bool) {
    exists done :: Remaining(data, pos, done) && out == Entries(done, joliet)
  }

  lemma NothingRead(data: seq<byte>, joliet: bool)
    ensures ReadSoFar(data, 0, [], joliet)
  {
    BeforeNothing(Scan(data, 0));
    assert Remaining(data, 0, []) && [] == Entries([], joliet);
  }

  predicate AtEnd(data: seq<byte>, pos: nat) {
    pos >= |data| || (if data[pos] == 0 then NextSector(pos) >= |data| else pos + data[pos] > |data|)
  }

  lemma ScanEnds(data: seq<byte>, pos: nat, out: seq<DirEntry>, joliet: bool)
    requires ReadSoFar(data, pos, out, joliet) && AtEnd(data, pos)
    ensures EntriesIn(data, joliet) == Some(out)
  {
    var done :| Remaining(data, pos, done) && out == Entries(done, joliet);
    assert done + [] == done;
  }

  lemma ScanPanics(data: seq<byte>, pos: nat, out: seq<DirEntry>, joliet: bool)
    requires ReadSoFar(data, pos, out, joliet)
    requires pos < |data| && 0 < data[pos] < RECORD_HEAD && pos + data[pos] <= |data|
    ensures EntriesIn(data, joliet) == None
  {
    var done :| Remaining(data, pos, done) && out == Entries(done, joliet);
  }

  lemma SkipToSector(data: seq<byte>, pos: nat, out: seq<DirEntry>, joliet: bool)
    requires ReadSoFar(data, pos, out, joliet)
    requires pos < |data| && data[pos] == 0 && NextSector(pos) < |data|
    ensures ReadSoFar(data, NextSector(pos), out, joliet)
  {
    var done :| Remaining(data, pos, done) && out == Entries(done, joliet);
    assert Remaining(data, NextSector(pos), done);
  }

  lemma OneRecordMore(data: seq<byte>, pos: nat, out: seq<DirEntry>, rec: RawRecord, joliet: bool)
    requires ReadSoFar(data, pos, out, joliet)
    requires pos < |data| && data[pos] >= RECORD_HEAD && pos + data[pos] <= |data|
    requires rec == data[pos..pos + data[pos]]
    ensures ReadSoFar(data, pos + data[pos], out + EntryOf(rec, joliet), joliet)
  {
    var done :| Remaining(data, pos, done) && out == Entries(done, joliet);
    BeforeTwice(done, [rec], Scan(data, pos + data[pos]));
    assert Remaining(data, pos + data[pos], done + [rec]);
    EntriesConcat(done, [rec], joliet);
    OneEntry(rec, joliet);
  }

  lemma OneEntry(rec: RawRecord, joliet: bool)
    ensures Entries([rec], joliet) == EntryOf(rec, joliet)
  {
    var one: seq<RawRecord> := [rec];
    assert one[1..] == [];
  }

  lemma BeforeNothing<T>(rest: Option<seq<T>>)
    ensures Before([], rest) == rest
  {
    assert rest.Some? ==> [] + rest.value == rest.value;
  }

  lemma BeforeTwice<T>(a: seq<T>, b: seq<T>, rest: Option<seq<T>>)
    ensures Before(a, Before(b, rest)) == Before(a + b, rest)
  {
    if rest.Some? {
      ConcatAssoc(a, b, rest.value);
    }
  }

  method ReadRecord(rec: RawRecord, joliet: bool) returns (es: seq<DirEntry>)
    ensures es == EntryOf(rec, joliet)
  {
    var n := rec[32];
    if RECORD_HEAD + n > |rec| {
      return [];
    }
    var raw := rec[RECORD_HEAD..RECORD_HEAD + n];
    if n == 1 && (raw[0] == 0 || raw[0] == 1) {
      return [];
    }
    var name: string;
    if joliet {
      name := DecodeUcs2(raw);
    } else {
      name := Plain(raw);
    }
    return [DirEntry(CleanName(name), Le32(rec[2..6]), Le32(rec[10..14]), rec[25] / FLAG_DIRECTORY % 2 == 1)];
  }

  // ----- What is read of odd bytes -----

  /** Character by character: each pair of bytes is one, high byte first, and halves of surrogate
      pairs come out as U+FFFD. */
  lemma {:induction false} Ucs2Characters(raw: seq<byte>)
    ensures |Ucs2(raw)| == |raw| / 2
    ensures forall k :: 0 <= k < |raw| / 2 ==>
              var unit := 256 * raw[2 * k] as int + raw[2 * k + 1];
              Ucs2(raw)[k] as int == if 0xD800 <= unit <= 0xDFFF then 0xFFFD else unit
  {
    if |raw| >= 2 {
      Ucs2Characters(raw[2..]);
      forall k | 0 < k < |raw| / 2 ensures Ucs2(raw)[k] == Ucs2(raw[2..])[k - 1] {}
      forall k | 0 < k < |raw| / 2
        ensures raw[2 * k] == raw[2..][2 * (k - 1)] && raw[2 * k + 1] == raw[2..][2 * (k - 1) + 1]
      {}
    }
  }

  /** A record whose name does not fit it, and one for the directory itself or its parent, is read
      as if it were not there. */
  ghost predicate SaysNothing(rec: RawRecord) {
    33 + rec[32] > |rec| || (rec[32] == 1 && rec[33] in {0, 1})
  }

  lemma SilentRecords(data: seq<byte>, a: seq<RawRecord>, rec: RawRecord, b: seq<RawRecord>, joliet: bool)
    requires Scan(data, 0) == Some(a + [rec] + b) && SaysNothing(rec)
    ensures EntriesIn(data, joliet) == Some(Entries(a + b, joliet))
  {
    EntriesConcat(a + [rec], b, joliet);
    EntriesConcat(a, [rec], joliet);
    EntriesConcat(a, b, joliet);
    OneEntry(rec, joliet);
    assert Entries(a, joliet) + [] == Entries(a, joliet);
  }

  /** A record that does say something gives one entry. Its flag is bit 1 of byte 25. */
  lemma OneEntryEach(rec: RawRecord, joliet: bool)
    ensures |EntryOf(rec, joliet)| == if SaysNothing(rec) then 0 else 1
    ensures !SaysNothing(rec) ==>
              var e := EntryOf(rec, joliet)[0];
              && (e.isDir <==> rec[25] / 2 % 2 == 1)
              && e.name == CleanName(Decoded(rec[33..33 + rec[32]], joliet))
  {
  }

  /** The extent ends within its last record: that record is not read. */
  lemma CutOffRecord(data: seq<byte>, pos: nat, recs: seq<RawRecord>, joliet: bool)
    requires Scan(data, 0) == Before(recs, Scan(data, pos))
    requires pos < |data| && data[pos] > |data| - pos
    ensures EntriesIn(data, joliet) == Some(Entries(recs, joliet))
  {
    assert Scan(data, pos) == Some([]);
    assert recs + [] == recs;
  }

  /** An image that ends within an extent is read as if zeroes followed. */
  lemma ZeroesFollow(image: seq<byte>, joliet: bool, lba: nat, size: nat, n: nat)
    ensures ReadDirectory(image, joliet, lba, size) == ReadDirectory(image + Zeros(n), joliet, lba, size)
  {
    assert Extent(image, lba, size) == Extent(image + Zeros(n), lba, size);
  }

  // ----- When the reader panics -----

  /** The positions at which the scan looks for a record. */
  ghost predicate Visits(data: seq<byte>, pos: nat, at: nat)
    decreases |data| - pos
  {
    pos < |data| && (
      at == pos ||
      if data[pos] == 0 then Visits(data, NextSector(pos), at)
      else pos + data[pos] <= |data| && data[pos] >= RECORD_HEAD && Visits(data, pos + data[pos], at))
  }

  ghost predicate ShortRecord(data: seq<byte>, at: nat) {
    at < |data| && 0 < data[at] < RECORD_HEAD && at + data[at] <= |data|
  }

  /** The reader survives an extent exactly when no record it comes to is shorter than 33. */
  lemma {:induction false} PanicsOnShortRecords(data: seq<byte>, pos: nat)
    ensures Scan(data, pos).None? <==> exists at :: Visits(data, pos, at) && ShortRecord(data, at)
    decreases |data| - pos
  {
    if pos < |data| {
      var l := data[pos];
      if ShortRecord(data, pos) {
        assert Visits(data, pos, pos);
      } else if l == 0 || pos + l <= |data| {
        var next := if l == 0 then NextSector(pos) else pos + l;
        PanicsOnShortRecords(data, next);
        forall at ensures Visits(data, pos, at) <==> at == pos || Visits(data, next, at) {}
      }
    }
  }

  /** The smallest such extent: one byte that announces a record of length 1. */
  lemma OneByteExtentPanics(joliet: bool)
    ensures ReadDirectory([1], joliet, 0, 1) == None
    ensures Visits(Extent([1], 0, 1), 0, 0) && ShortRecord(Extent([1], 0, 1), 0)
  {
    assert Extent([1], 0, 1) == [1];
    assert Scan([1], 0) == None;
  }
}
