/** Finding the root directory of an image: the volume descriptors from sector 16 on (ECMA-119
    sections 8.3 to 8.5), a Joliet supplementary descriptor taking precedence. */
module IsoVolume {
  import opened Sequences
  import opened Text
  import opened IsoDirectory

  const FIRST := 16
  const LIMIT := 100
  const CD001: seq<byte> := [67, 68, 48, 48, 49]
  const TYPE_PRIMARY: byte := 1
  const TYPE_SUPPLEMENTARY: byte := 2
  const TYPE_TERMINATOR: byte := 255

  datatype Volume = Volume(lba: int, size: int, joliet: bool, volId: seq<byte>)

  type Sector = s: seq<byte> | |s| == SECTOR witness Zeros(SECTOR)

  predicate HasSector(image: seq<byte>, i: nat) {
    (i + 1) * SECTOR <= |image|
  }

  function SectorAt(image: seq<byte>, i: nat): Sector
    requires HasSector(image, i)
  {
    image[i * SECTOR..(i + 1) * SECTOR]
  }

  predicate Typed(s: Sector, t: byte) {
    s[0] == t && s[1..6] == CD001
  }

  /** The escape sequences of the three UCS-2 levels. */
  predicate IsJoliet(s: Sector) {
    Typed(s, TYPE_SUPPLEMENTARY) && s[88] == 37 && s[89] == 47 && (s[90] == 64 || s[90] == 67 || s[90] == 69)
  }

  function RootLba(s: Sector): int {
    Le32(s[158..162])
  }

  function RootSize(s: Sector): int {
    Le32(s[166..170])
  }

  predicate IsSpace(c: byte) {
    c == 32 || 9 <= c <= 13
  }

  /** White space beyond ASCII, in UTF-8: U+0085 and U+00A0, and the spaces of three bytes. */
  predicate IsSpace2(a: byte, b: byte) {
    a == 0xC2 && (b == 0x85 || b == 0xA0)
  }

  predicate IsSpace3(a: byte, b: byte, c: byte) {
    || (a == 0xE1 && b == 0x9A && c == 0x80)
    || (a == 0xE2 && b == 0x80 && (0x80 <= c <= 0x8A || c == 0xA8 || c == 0xA9 || c == 0xAF))
    || (a == 0xE2 && b == 0x81 && c == 0x9F)
    || (a == 0xE3 && b == 0x80 && c == 0x80)
  }

  /** The bytes of the white space character at the front, or at the end; 0 if there is none. */
  function FrontSpace(s: seq<byte>): (n: nat)
    ensures n <= |s|
  {
    if |s| >= 1 && IsSpace(s[0]) then 1
    else if |s| >= 2 && IsSpace2(s[0], s[1]) then 2
    else if |s| >= 3 && IsSpace3(s[0], s[1], s[2]) then 3
    else 0
  }

  function BackSpace(s: seq<byte>): (n: nat)
    ensures n <= |s|
  {
    var e := |s|;
    if e >= 1 && IsSpace(s[e - 1]) then 1
    else if e >= 2 && IsSpace2(s[e - 2], s[e - 1]) then 2
    else if e >= 3 && IsSpace3(s[e - 3], s[e - 2], s[e - 1]) then 3
    else 0
  }

  function TrimLeft(s: seq<byte>): (t: seq<byte>)
    ensures FrontSpace(t) == 0
  {
    var n := FrontSpace(s);
    if n > 0 then TrimLeft(s[n..]) else s
  }

  function TrimRight(s: seq<byte>): (t: seq<byte>)
    ensures BackSpace(t) == 0
  {
    var n := BackSpace(s);
    if n > 0 then TrimRight(s[..|s| - n]) else s
  }

  function LabelOf(s: Sector): seq<byte> {
    TrimRight(TrimLeft(s[40..72]))
  }

  // ----- Which descriptor counts -----

  /** The sectors that the reader may look at, as far as they are completely there. */
  function Window(image: seq<byte>): seq<Sector> {
    var n := Min(LIMIT, |image| / SECTOR) - FIRST;
    if n < 0 then [] else Sectors(image, FIRST, n)
  }

  function Sectors(image: seq<byte>, first: nat, n: nat): (ws: seq<Sector>)
    requires first + n <= |image| / SECTOR
    decreases n
    ensures |ws| == n && forall k :: 0 <= k < n ==> ws[k] == SectorAt(image, first + k)
  {
    if n == 0 then [] else [SectorAt(image, first)] + Sectors(image, first + 1, n - 1)
  }

  /** The descriptors in front of the first terminator. */
  function Descriptors(ws: seq<Sector>): seq<Sector> {
    if ws == [] || Typed(ws[0], TYPE_TERMINATOR) then [] else [ws[0]] + Descriptors(ws[1..])
  }

  predicate Wanted(s: Sector, joliet: bool) {
    if joliet then IsJoliet(s) else Typed(s, TYPE_PRIMARY)
  }

  function Last(ds: seq<Sector>, joliet: bool): Option<Sector> {
    if ds == [] then None
    else if Wanted(ds[|ds| - 1], joliet) then Some(ds[|ds| - 1])
    else Last(ds[..|ds| - 1], joliet)
  }

  ghost predicate LastWanted(ds: seq<Sector>, k: int, joliet: bool) {
    && 0 <= k < |ds|
    && Wanted(ds[k], joliet)
    && forall i :: k < i < |ds| ==> !Wanted(ds[i], joliet)
  }

  lemma {:induction false} LastIsLast(ds: seq<Sector>, joliet: bool)
    ensures Last(ds, joliet).None? <==> forall i :: 0 <= i < |ds| ==> !Wanted(ds[i], joliet)
    ensures Last(ds, joliet).Some? ==>
              exists k :: LastWanted(ds, k, joliet) && ds[k] == Last(ds, joliet).value
  {
    if ds != [] {
      var n := |ds| - 1;
      if Wanted(ds[n], joliet) {
        assert LastWanted(ds, n, joliet);
      } else {
        LastIsLast(ds[..n], joliet);
        if Last(ds, joliet).Some? {
          var k :| LastWanted(ds[..n], k, joliet) && ds[..n][k] == Last(ds, joliet).value;
          assert LastWanted(ds, k, joliet);
        }
      }
    }
  }

  /** The last Joliet descriptor wins if its root location is not 0, then the last primary one;
      the label always comes from the primary descriptor. None: not an ISO 9660 image. */
  function Choose(ds: seq<Sector>): Option<Volume> {
    var j, p := Last(ds, true), Last(ds, false);
    var volId := if p.Some? then LabelOf(p.value) else [];
    if j.Some? && RootLba(j.value) != 0 then Some(Volume(RootLba(j.value), RootSize(j.value), true, volId))
    else if p.Some? then Some(Volume(RootLba(p.value), RootSize(p.value), false, volId))
    else None
  }

  function OpenVolume(image: seq<byte>): Option<Volume> {
    Choose(Descriptors(Window(image)))
  }

  /** A Joliet root is chosen exactly when the last Joliet descriptor has one, that is, one whose
      location is not 0; an image opens exactly when that holds or a primary descriptor is there. */
  lemma JolietPrecedence(ds: seq<Sector>)
    ensures Choose(ds).Some? && Choose(ds).value.joliet <==>
              exists k :: LastWanted(ds, k, true) && RootLba(ds[k]) != 0
    ensures Choose(ds).Some? <==>
              (exists k :: LastWanted(ds, k, true) && RootLba(ds[k]) != 0) || (exists k :: LastWanted(ds, k, false))
  {
    LastIsLast(ds, true);
    LastIsLast(ds, false);
    assert forall k, l :: LastWanted(ds, k, true) && LastWanted(ds, l, true) ==> k == l;
    forall k | LastWanted(ds, k, true) ensures Last(ds, true) == Some(ds[k]) {}
    forall k | LastWanted(ds, k, false) ensures Last(ds, false).Some? {}
  }

  // ----- The loop -----

  /** What the reader's variables hold after some descriptors. */
  datatype Roots = Roots(found: bool, pLba: int, pSize: int, volId: seq<byte>, jLba: int, jSize: int)

  ghost predicate Tracks(ds: seq<Sector>, v: Roots) {
    var p, j := Last(ds, false), Last(ds, true);
    && v.found == p.Some?
    && v.volId == (if p.Some? then LabelOf(p.value) else [])
    && (p.Some? ==> v.pLba == RootLba(p.value) && v.pSize == RootSize(p.value))
    && (j.Some? ==> v.jLba == RootLba(j.value) && v.jSize == RootSize(j.value))
    && (j.None? ==> v.jLba == 0)
  }

  /** The effect of one sector that is not a terminator. */
  function Note(v: Roots, s: Sector): Roots {
    if Typed(s, TYPE_PRIMARY) then v.(found := true, pLba := RootLba(s), pSize := RootSize(s), volId := LabelOf(s))
    else if IsJoliet(s) then v.(jLba := RootLba(s), jSize := RootSize(s))
    else v
  }

  lemma NoteTracks(ds: seq<Sector>, v: Roots, s: Sector)
    requires Tracks(ds, v)
    ensures Tracks(ds + [s], Note(v, s))
  {
    assert (ds + [s])[..|ds|] == ds;
  }

  /** The descriptors seen so far, and what the rest of the window may add. */
  ghost predicate Seen(image: seq<byte>, i: nat, ds: seq<Sector>) {
    var ws := Window(image);
    && FIRST <= i <= LIMIT
    && i - FIRST <= |ws|
    && ds + Descriptors(ws[i - FIRST..]) == Descriptors(ws)
  }

  lemma SeenMore(image: seq<byte>, i: nat, ds: seq<Sector>)
    requires Seen(image, i, ds)
    ensures HasSector(image, i) && i < LIMIT <==> i - FIRST < |Window(image)|
    ensures HasSector(image, i) && i < LIMIT ==>
              var s := SectorAt(image, i);
              if Typed(s, TYPE_TERMINATOR) then ds == Descriptors(Window(image)) else Seen(image, i + 1, ds + [s])
    ensures !(HasSector(image, i) && i < LIMIT) ==> ds == Descriptors(Window(image))
  {
    var ws := Window(image);
    if HasSector(image, i) && i < LIMIT {
      var s := SectorAt(image, i);
      assert ws[i - FIRST] == s;
      assert ws[i - FIRST..][1..] == ws[i + 1 - FIRST..];
      if !Typed(s, TYPE_TERMINATOR) {
        ConcatAssoc(ds, [s], Descriptors(ws[i + 1 - FIRST..]));
      }
    }
  }

  /** The state of the loop before sector i; beyond LIMIT after a terminator. */
  ghost predicate Scanned(image: seq<byte>, i: nat, ds: seq<Sector>, v: Roots) {
    Tracks(ds, v) && if i <= LIMIT then Seen(image, i, ds) else ds == Descriptors(Window(image))
  }

  lemma NothingScanned(image: seq<byte>)
    ensures Scanned(image, FIRST, [], Roots(false, 0, 0, [], 0, 0))
  {
    assert Window(image)[0..] == Window(image);
    assert [] + Descriptors(Window(image)) == Descriptors(Window(image));
  }

  function Result(v: Roots): Option<Volume> {
    if v.jLba != 0 then Some(Volume(v.jLba, v.jSize, true, v.volId))
    else if v.found then Some(Volume(v.pLba, v.pSize, false, v.volId))
    else None
  }

  /** The loop has looked at the sectors in front of i. */
  ghost predicate Looked(image: seq<byte>, i: nat, v: Roots) {
    exists ds :: Scanned(image, i, ds, v)
  }

  lemma NothingLooked(image: seq<byte>)
    ensures Looked(image, FIRST, Roots(false, 0, 0, [], 0, 0))
  {
    NothingScanned(image);
  }

  lemma LooksOn(image: seq<byte>, i: nat, v: Roots, w: Roots, last: bool, next: nat)
    requires next == if last then LIMIT + 1 else i + 1
    requires Looked(image, i, v) && i < LIMIT && HasSector(image, i)
    requires last <==> Typed(SectorAt(image, i), TYPE_TERMINATOR)
    requires w == if last then v else Note(v, SectorAt(image, i))
    ensures Looked(image, next, w)
  {
    var ds :| Scanned(image, i, ds, v);
    var s := SectorAt(image, i);
    SeenMore(image, i, ds);
    NoteTracks(ds, v, s);
    assert Scanned(image, next, if last then ds else ds + [s], w);
  }

  lemma LooksEnd(image: seq<byte>, i: nat, v: Roots)
    requires Looked(image, i, v) && (i >= LIMIT || !HasSector(image, i))
    ensures Result(v) == OpenVolume(image)
  {
    var ds :| Scanned(image, i, ds, v);
    if i <= LIMIT {
      SeenMore(image, i, ds);
    }
  }

  method Open(image: seq<byte>) returns (r: Option<Volume>)
    ensures r == OpenVolume(image)
  {
    var v := Roots(false, 0, 0, [], 0, 0);
    var i := FIRST;
    NothingLooked(image);
    while i < LIMIT
      invariant Looked(image, i, v)
      decreases LIMIT + 1 - i
    {
      if |image| < (i + 1) * SECTOR {
        break;
      }
      var w, last := Examine(v, SectorAt(image, i));
      // a terminator sets i to LIMIT, and the loop still increments it
      var next := if last then LIMIT + 1 else i + 1;
      LooksOn(image, i, v, w, last, next);
      v, i := w, next;
    }
    LooksEnd(image, i, v);
    if v.jLba != 0 {
      return Some(Volume(v.jLba, v.jSize, true, v.volId));
    } else if v.found {
      return Some(Volume(v.pLba, v.pSize, false, v.volId));
    }
    return None;
  }

  /** One sector: what is remembered of it, and whether it is the last to look at. */
  method Examine(v: Roots, s: Sector) returns (w: Roots, last: bool)
    ensures last <==> Typed(s, TYPE_TERMINATOR)
    ensures w == if last then v else Note(v, s)
  {
    w, last := v, false;
    if s[1..6] != CD001 {
      return;
    }
    if s[0] == TYPE_TERMINATOR {
      last := true;
    } else if s[0] == TYPE_PRIMARY {
      w := w.(pLba := RootLba(s), pSize := RootSize(s));
      w := w.(volId := LabelOf(s));
      w := w.(found := true);
    } else if s[0] == TYPE_SUPPLEMENTARY {
      if s[88] == 37 && s[89] == 47 && (s[90] == 64 || s[90] == 67 || s[90] == 69) {
        w := w.(jLba := RootLba(s), jSize := RootSize(s));
      }
    }
  }

  // ----- What is cut off a label -----

  /** The white space characters of Unicode in UTF-8. */
  predicate SpaceChar(c: seq<byte>) {
    || c in {[9], [10], [11], [12], [13], [32], [0xC2, 0x85], [0xC2, 0xA0], [0xE1, 0x9A, 0x80], [0xE2, 0x80, 0xA8],
             [0xE2, 0x80, 0xA9], [0xE2, 0x80, 0xAF], [0xE2, 0x81, 0x9F], [0xE3, 0x80, 0x80]}
    || (|c| == 3 && c[0] == 0xE2 && c[1] == 0x80 && 0x80 <= c[2] <= 0x8A)
  }

  ghost predicate AllSpaces(cs: seq<seq<byte>>) {
    forall c <- cs :: SpaceChar(c)
  }

  predicate EndsIn(s: seq<byte>, c: seq<byte>) {
    |c| <= |s| && s[|s| - |c|..] == c
  }

  lemma SpaceAtFront(s: seq<byte>)
    ensures FrontSpace(s) > 0 ==> SpaceChar(s[..FrontSpace(s)])
  {
    var n := FrontSpace(s);
    assert n == 1 ==> s[..1] == [s[0]];
    assert n == 2 ==> s[..2] == [s[0], s[1]];
    assert n == 3 ==> s[..3] == [s[0], s[1], s[2]];
  }

  lemma SpaceAtBack(s: seq<byte>)
    ensures BackSpace(s) > 0 ==> SpaceChar(s[|s| - BackSpace(s)..])
  {
    var n, e := BackSpace(s), |s|;
    assert n == 1 ==> s[e - 1..] == [s[e - 1]];
    assert n == 2 ==> s[e - 2..] == [s[e - 2], s[e - 1]];
    assert n == 3 ==> s[e - 3..] == [s[e - 3], s[e - 2], s[e - 1]];
  }

  lemma NoSpaceAtEnds(s: seq<byte>, c: seq<byte>)
    requires SpaceChar(c)
    ensures FrontSpace(s) == 0 ==> !(c <= s)
    ensures BackSpace(s) == 0 ==> !EndsIn(s, c)
  {
  }

  /** The characters that are cut off in front, and behind. */
  function FrontCut(s: seq<byte>): seq<seq<byte>> {
    var n := FrontSpace(s);
    if n > 0 then [s[..n]] + FrontCut(s[n..]) else []
  }

  function BackCut(s: seq<byte>): seq<seq<byte>> {
    var n := BackSpace(s);
    if n > 0 then BackCut(s[..|s| - n]) + [s[|s| - n..]] else []
  }

  lemma {:induction false} CutsAreSpaces(s: seq<byte>)
    ensures AllSpaces(FrontCut(s)) && AllSpaces(BackCut(s))
    decreases |s|
  {
    SpaceAtFront(s);
    SpaceAtBack(s);
    if FrontSpace(s) > 0 {
      CutsAreSpaces(s[FrontSpace(s)..]);
    }
    if BackSpace(s) > 0 {
      CutsAreSpaces(s[..|s| - BackSpace(s)]);
    }
  }

  lemma {:induction false} CutInFront(s: seq<byte>)
    ensures s == Flatten(FrontCut(s)) + TrimLeft(s)
    decreases |s|
  {
    if FrontSpace(s) > 0 {
      var first, rest := FirstSpaceOff(s);
      CutInFront(rest);
      FlattenCons(first, FrontCut(rest));
      Regrouped(first, Flatten(FrontCut(rest)), TrimLeft(rest), rest, s);
    }
  }

  lemma FirstSpaceOff(s: seq<byte>) returns (first: seq<byte>, rest: seq<byte>)
    requires FrontSpace(s) > 0
    ensures s == first + rest && |rest| < |s|
    ensures TrimLeft(s) == TrimLeft(rest) && FrontCut(s) == [first] + FrontCut(rest)
  {
    first, rest := s[..FrontSpace(s)], s[FrontSpace(s)..];
  }

  lemma LastSpaceOff(s: seq<byte>) returns (rest: seq<byte>, last: seq<byte>)
    requires BackSpace(s) > 0
    ensures s == rest + last && |rest| < |s|
    ensures TrimRight(s) == TrimRight(rest) && BackCut(s) == BackCut(rest) + [last]
  {
    rest, last := s[..|s| - BackSpace(s)], s[|s| - BackSpace(s)..];
  }

  lemma FlattenCons(first: seq<byte>, more: seq<seq<byte>>)
    ensures Flatten([first] + more) == first + Flatten(more)
  {
    assert ([first] + more)[1..] == more;
  }

  lemma {:induction false} CutBehind(s: seq<byte>)
    ensures s == TrimRight(s) + Flatten(BackCut(s))
    decreases |s|
  {
    if BackSpace(s) > 0 {
      var rest, last := LastSpaceOff(s);
      CutBehind(rest);
      FlattenAppend(BackCut(rest), last);
      Behind(TrimRight(rest), Flatten(BackCut(rest)), last, rest, s);
    }
  }

  lemma Regrouped(a: seq<byte>, b: seq<byte>, c: seq<byte>, bc: seq<byte>, abc: seq<byte>)
    requires bc == b + c && abc == a + bc
    ensures abc == (a + b) + c
  {
  }

  lemma Behind(a: seq<byte>, b: seq<byte>, c: seq<byte>, ab: seq<byte>, abc: seq<byte>)
    requires ab == a + b && abc == ab + c
    ensures abc == a + (b + c)
  {
  }

  /** A label is what its field holds between white space: nothing else is cut off, and none is
      left at either end. */
  lemma LabelIsTrimmed(s: Sector)
    ensures exists front, back :: AllSpaces(front) && AllSpaces(back)
                               && s[40..72] == Flatten(front) + LabelOf(s) + Flatten(back)
    ensures forall c :: SpaceChar(c) ==> !(c <= LabelOf(s)) && !EndsIn(LabelOf(s), c)
  {
    var field := s[40..72];
    var t := TrimLeft(field);
    CutInFront(field);
    CutBehind(t);
    Regrouped(Flatten(FrontCut(field)), LabelOf(s), Flatten(BackCut(t)), t, field);
    CutsAreSpaces(field);
    CutsAreSpaces(t);
    forall c | SpaceChar(c) ensures !(c <= LabelOf(s)) && !EndsIn(LabelOf(s), c) {
      NoSpaceAtEnds(t, c);
      NoSpaceAtEnds(LabelOf(s), c);
      PrefixOfPrefix(c, LabelOf(s), t);
    }
  }

  lemma PrefixOfPrefix(a: seq<byte>, b: seq<byte>, c: seq<byte>)
    requires b <= c
    ensures a <= b ==> a <= c
  {
  }

  // ----- The chosen volume, by sector numbers -----

  /** Sector i of the image is a descriptor of this type. */
  predicate Marked(image: seq<byte>, i: nat, t: byte) {
    && 2048 * i + 2048 <= |image|
    && image[2048 * i] == t
    && image[2048 * i + 1..2048 * i + 6] == Ascii("CD001")
  }

  /** A descriptor that counts: in sectors 16 to 99, with no terminator in front of it. */
  predicate Counts(image: seq<byte>, i: nat, joliet: bool) {
    && 16 <= i < 100
    && Marked(image, i, if joliet then 2 else 1)
    && (joliet ==> image[2048 * i + 88..2048 * i + 91] in {Ascii("%/@"), Ascii("%/C"), Ascii("%/E")})
    && forall j :: 16 <= j < i ==> !Marked(image, j, 255)
  }

  ghost predicate LastOne(image: seq<byte>, i: nat, joliet: bool) {
    Counts(image, i, joliet) && forall j :: i < j < 100 ==> !Counts(image, j, joliet)
  }

  /** The little-endian number in four bytes of sector i. */
  function Number(image: seq<byte>, i: nat, at: nat): int
    requires 2048 * i + 2048 <= |image| && at + 4 <= 2048
  {
    var b := 2048 * i + at;
    var b0: int, b1: int, b2: int, b3: int := image[b], image[b + 1], image[b + 2], image[b + 3];
    b0 + 256 * b1 + 65536 * b2 + 16777216 * b3
  }

  lemma SectorBytesAt(image: seq<byte>, i: nat)
    requires HasSector(image, i)
    ensures forall k :: 0 <= k < 2048 ==> SectorAt(image, i)[k] == image[2048 * i + k]
    ensures forall a, b :: 0 <= a <= b <= 2048 ==> SectorAt(image, i)[a..b] == image[2048 * i + a..2048 * i + b]
  {
    var s := SectorAt(image, i);
    forall a, b | 0 <= a <= b <= 2048 ensures s[a..b] == image[2048 * i + a..2048 * i + b] {
      SliceOfSlice(image, i * SECTOR, (i + 1) * SECTOR, a, b);
    }
  }

  lemma SectorNumbers(image: seq<byte>, i: nat)
    requires HasSector(image, i)
    ensures RootLba(SectorAt(image, i)) == Number(image, i, 158)
    ensures RootSize(SectorAt(image, i)) == Number(image, i, 166)
  {
    var s := SectorAt(image, i);
    SectorBytesAt(image, i);
    NumberIn(s, 158);
    NumberIn(s, 166);
  }

  lemma NumberIn(s: Sector, at: nat)
    requires at + 4 <= 2048
    ensures var b0: int, b1: int, b2: int, b3: int := s[at], s[at + 1], s[at + 2], s[at + 3];
            Le32(s[at..at + 4]) == b0 + 256 * b1 + 65536 * b2 + 16777216 * b3
  {
  }

  lemma TypedIsMarked(image: seq<byte>, i: nat, t: byte)
    ensures Marked(image, i, t) <==> HasSector(image, i) && Typed(SectorAt(image, i), t)
  {
    assert Ascii("CD001") == CD001;
    if HasSector(image, i) {
      SectorBytesAt(image, i);
    }
  }

  lemma EscapeBytes(s: Sector)
    ensures s[88] == 37 && s[89] == 47 && (s[90] == 64 || s[90] == 67 || s[90] == 69)
       <==> s[88..91] in {Ascii("%/@"), Ascii("%/C"), Ascii("%/E")}
  {
    assert s[88..91] == [s[88], s[89], s[90]];
    assert Ascii("%/@") == [37, 47, 64] && Ascii("%/C") == [37, 47, 67] && Ascii("%/E") == [37, 47, 69];
  }

  /** The descriptors are the sectors up to the first terminator. */
  lemma {:induction false} DescriptorsAreFirst(ws: seq<Sector>)
    ensures Descriptors(ws) <= ws
    ensures forall k :: 0 <= k < |Descriptors(ws)| ==> !Typed(ws[k], TYPE_TERMINATOR)
    ensures |Descriptors(ws)| < |ws| ==> Typed(ws[|Descriptors(ws)|], TYPE_TERMINATOR)
  {
    if ws != [] && !Typed(ws[0], TYPE_TERMINATOR) {
      DescriptorsAreFirst(ws[1..]);
      assert ws == [ws[0]] + ws[1..];
    }
  }

  /** The sectors that descriptors are taken from: as many as there are in front of a terminator. */
  lemma SectorsSeen(image: seq<byte>, i: nat)
    ensures var ds := Descriptors(Window(image));
            FIRST <= i < FIRST + |ds| <==>
              16 <= i < 100 && HasSector(image, i) && forall j :: 16 <= j <= i ==> !Marked(image, j, 255)
    ensures var ds := Descriptors(Window(image));
            FIRST <= i < FIRST + |ds| ==> HasSector(image, i) && ds[i - FIRST] == SectorAt(image, i)
  {
    var ws := Window(image);
    DescriptorsAreFirst(ws);
    SectorsInWindow(image, i);
    if 16 <= i < 100 && HasSector(image, i) {
      FirstTerminator(image, i, ws, |Descriptors(ws)|);
    }
  }

  lemma SectorsInWindow(image: seq<byte>, i: nat)
    ensures 16 <= i < 100 && HasSector(image, i) <==> 16 <= i < 16 + |Window(image)|
    ensures 16 <= i < 16 + |Window(image)| ==> Window(image)[i - 16] == SectorAt(image, i)
  {
  }

  lemma FirstTerminator(image: seq<byte>, i: nat, ws: seq<Sector>, n: nat)
    requires ws == Window(image) && 16 <= i < 16 + |ws| && n <= |ws|
    requires forall k :: 0 <= k < n ==> !Typed(ws[k], TYPE_TERMINATOR)
    requires n < |ws| ==> Typed(ws[n], TYPE_TERMINATOR)
    ensures i < 16 + n <==> forall j :: 16 <= j <= i ==> !Marked(image, j, 255)
  {
    forall j | 16 <= j <= i ensures Marked(image, j, 255) <==> Typed(ws[j - 16], TYPE_TERMINATOR) {
      SectorsInWindow(image, j);
      TypedIsMarked(image, j, 255);
    }
    if i >= 16 + n {
      assert Marked(image, 16 + n, 255);
    }
  }

  lemma CountingSectors(image: seq<byte>, i: nat, joliet: bool)
    ensures var ds := Descriptors(Window(image));
            Counts(image, i, joliet) <==> FIRST <= i < FIRST + |ds| && Wanted(ds[i - FIRST], joliet)
  {
    SectorsSeen(image, i);
    TypedIsMarked(image, i, if joliet then 2 else 1);
    if HasSector(image, i) {
      SectorBytesAt(image, i);
      EscapeBytes(SectorAt(image, i));
    }
  }

  lemma LastOneIsLast(image: seq<byte>, joliet: bool)
    ensures var last := Last(Descriptors(Window(image)), joliet);
            && (last.None? <==> forall i :: !Counts(image, i, joliet))
            && (last.Some? ==> exists i :: LastOne(image, i, joliet))
            && (forall i :: LastOne(image, i, joliet) ==> last == Some(SectorAt(image, i)))
  {
    var ds := Descriptors(Window(image));
    LastIsLast(ds, joliet);
    forall i: nat
      ensures Counts(image, i, joliet) <==> FIRST <= i < FIRST + |ds| && Wanted(ds[i - FIRST], joliet)
      ensures FIRST <= i < FIRST + |ds| ==> HasSector(image, i) && ds[i - FIRST] == SectorAt(image, i)
    {
      CountingSectors(image, i, joliet);
      SectorsSeen(image, i);
    }
    forall i | LastOne(image, i, joliet) ensures Last(ds, joliet) == Some(SectorAt(image, i)) {
      var k :| LastWanted(ds, k, joliet) && ds[k] == Last(ds, joliet).value;
      assert Counts(image, FIRST + k, joliet);
    }
    if k :| LastWanted(ds, k, joliet) {
      assert LastOne(image, FIRST + k, joliet);
    }
  }

  /** Opening an image, by the numbers: root, size and kind from the last Joliet descriptor among
      sectors 16 to 99 in front of a terminator, if its root is not at 0, else from the last primary
      one, which gives the label; without either it is no image. */
  lemma VolumeExactly(image: seq<byte>)
    ensures OpenVolume(image).None? <==>
              && (forall i :: !Counts(image, i, false))
              && (forall i :: LastOne(image, i, true) ==> Number(image, i, 158) == 0)
    ensures forall i :: LastOne(image, i, true) && Number(image, i, 158) != 0 ==>
              var v := OpenVolume(image).value;
              v.joliet && v.lba == Number(image, i, 158) && v.size == Number(image, i, 166)
    ensures forall i :: LastOne(image, i, false) ==>
              var v := OpenVolume(image).value;
              && v.volId == LabelOf(SectorAt(image, i))
              && (!v.joliet ==> v.lba == Number(image, i, 158) && v.size == Number(image, i, 166))
              && (v.joliet ==> exists j :: LastOne(image, j, true) && Number(image, j, 158) != 0)
  {
    LastOneIsLast(image, true);
    LastOneIsLast(image, false);
    forall i, joliet | LastOne(image, i, joliet)
      ensures RootLba(SectorAt(image, i)) == Number(image, i, 158)
      ensures RootSize(SectorAt(image, i)) == Number(image, i, 166)
    {
      SectorNumbers(image, i);
    }
  }
}
