/** Complete images: system area, volume descriptors, terminator, and one directory hierarchy, or
    two for a Joliet image. */
module IsoMaster {
  import opened Sequences
  import opened Text
  import opened IsoDirectory
  import opened IsoRecords
  import opened IsoVolume
  import opened IsoWalk
  import opened IsoImage

  /** `boot` is the system area; `level` the last byte of the Joliet escape sequence. The two
      hierarchies of a Joliet image are independent. */
  datatype Master = Master(boot: seq<byte>, volId: seq<byte>, plain: seq<Node>, joliet: Option<seq<Node>>, level: byte)

  function RootRecord(lba: nat, size: nat): Record {
    MakeRecord(lba, size, FLAG_DIRECTORY, [0])
  }

  /** A primary or supplementary descriptor. */
  function Descriptor(t: byte, escape: seq<byte>, volId: seq<byte>, lba: nat, size: nat): (s: Sector)
    requires |escape| == 3 && |volId| == 32 && lba < TWO32 && size < TWO32
  {
    [t] + CD001 + [1] + Zeros(33) + volId + Zeros(16) + escape + Zeros(65)
    + RootRecord(lba, size).Bytes() + Zeros(1858)
  }

  function Terminator(): Sector {
    [TYPE_TERMINATOR] + CD001 + [1] + Zeros(2041)
  }

  lemma DescriptorFields(t: byte, escape: seq<byte>, volId: seq<byte>, lba: nat, size: nat)
    requires |escape| == 3 && |volId| == 32 && lba < TWO32 && size < TWO32
    ensures var s := Descriptor(t, escape, volId, lba, size);
            && Typed(s, t)
            && s[40..72] == volId && s[88..91] == escape
            && RootLba(s) == lba && RootSize(s) == size
  {
    var s := Descriptor(t, escape, volId, lba, size);
    var r := RootRecord(lba, size).Bytes();
    RecordFields(RootRecord(lba, size));
    assert s[156..190] == r;
    assert s[158..162] == r[2..6] && s[166..170] == r[10..14];
  }

  // ----- Opening -----

  /** The descriptors in front of a terminator, laid out from sector 16 on, are what the reader sees. */
  ghost predicate NoTerminator(ds: seq<Sector>) {
    forall k :: 0 <= k < |ds| ==> !Typed(ds[k], TYPE_TERMINATOR)
  }

  lemma {:induction false} DescriptorsFound(ds: seq<Sector>, end: Sector, more: seq<Sector>)
    requires Typed(end, TYPE_TERMINATOR) && NoTerminator(ds)
    ensures Descriptors(ds + [end] + more) == ds
    decreases |ds|
  {
    if ds != [] {
      assert (ds + [end] + more)[1..] == ds[1..] + [end] + more;
      DescriptorsFound(ds[1..], end, more);
    }
  }

  function SectorsBytes(ss: seq<Sector>): (b: seq<byte>)
    ensures |b| == SECTOR * |ss|
  {
    if ss == [] then [] else ss[0] + SectorsBytes(ss[1..])
  }

  ghost predicate Shows(image: seq<byte>, i: nat, ss: seq<Sector>) {
    forall k :: 0 <= k < |ss| ==> IsSector(image, i + k, ss[k])
  }

  ghost predicate IsSector(image: seq<byte>, i: nat, s: Sector) {
    HasSector(image, i) && SectorAt(image, i) == s
  }

  lemma {:induction false} SectorsAt(image: seq<byte>, i: nat, ss: seq<Sector>)
    requires At(image, i * SECTOR, SectorsBytes(ss))
    ensures Shows(image, i, ss)
    decreases |ss|
  {
    if ss != [] {
      AtSplit(image, i * SECTOR, ss[0], SectorsBytes(ss[1..]));
      SectorsAt(image, i + 1, ss[1..]);
      forall k | 0 <= k < |ss| ensures IsSector(image, i + k, ss[k]) {
        if k > 0 {
          assert IsSector(image, i + 1 + (k - 1), ss[1..][k - 1]);
        } else {
          assert image[i * SECTOR..(i + 1) * SECTOR] == ss[0];
        }
      }
    }
  }

  lemma OpensAt(image: seq<byte>, ds: seq<Sector>, end: Sector)
    requires |ds| < LIMIT - FIRST && Typed(end, TYPE_TERMINATOR) && NoTerminator(ds)
    requires At(image, FIRST * SECTOR, SectorsBytes(ds + [end]))
    ensures Descriptors(Window(image)) == ds
  {
    var more := WindowStarts(image, ds + [end]);
    DescriptorsFound(ds, end, more);
  }

  lemma WindowStarts(image: seq<byte>, ss: seq<Sector>) returns (more: seq<Sector>)
    requires 0 < |ss| <= LIMIT - FIRST && At(image, FIRST * SECTOR, SectorsBytes(ss))
    ensures Window(image) == ss + more
  {
    SectorsAt(image, FIRST, ss);
    assert IsSector(image, FIRST + (|ss| - 1), ss[|ss| - 1]);
    assert |image| / SECTOR >= FIRST + |ss|;
    var ws := Window(image);
    forall k | 0 <= k < |ss| ensures ws[k] == ss[k] {
      assert IsSector(image, FIRST + k, ss[k]);
      assert ws[k] == SectorAt(image, FIRST + k);
    }
    more := ws[|ss|..];
  }

  // ----- The writer -----

  function Heads(m: Master): nat {
    if m.joliet.Some? then 3 else 2
  }

  function PlainRoot(m: Master): nat {
    FIRST + Heads(m)
  }

  function JolietRoot(m: Master): nat {
    PlainRoot(m) + OwnSectors(m.plain, false) + SectorsBelow(m.plain, false)
  }

  /** Where a root directory lies; it is its own parent. */
  function RootPlace(nodes: seq<Node>, root: nat, joliet: bool): Place {
    Place(root, DirSize(nodes, joliet))
  }

  ghost predicate Fits(m: Master) {
    && |m.boot| == FIRST * SECTOR
    && |m.volId| == 32
    && m.level in {64, 67, 69}
    && Writable(m.plain, PlainRoot(m), RootPlace(m.plain, PlainRoot(m), false), false)
    && GoodNames(m.plain, false)
    && (m.joliet.Some? ==>
          && Writable(m.joliet.value, JolietRoot(m), RootPlace(m.joliet.value, JolietRoot(m), true), true)
          && GoodNames(m.joliet.value, true))
  }

  lemma RootFits(nodes: seq<Node>, root: nat, joliet: bool)
    requires Writable(nodes, root, RootPlace(nodes, root, joliet), joliet)
    ensures root < TWO32 && DirSize(nodes, joliet) < TWO32
  {
    var rs := DirRecords(nodes, root, RootPlace(nodes, root, joliet), joliet);
    assert rs[0].Valid();
  }

  ghost function VolumeDescriptors(m: Master): (ds: seq<Sector>)
    requires Fits(m)
    ensures |ds| == Heads(m) - 1
  {
    RootFits(m.plain, PlainRoot(m), false);
    [Descriptor(TYPE_PRIMARY, Zeros(3), m.volId, PlainRoot(m), DirSize(m.plain, false))]
    + if m.joliet.None? then [] else
      RootFits(m.joliet.value, JolietRoot(m), true);
      [Descriptor(TYPE_SUPPLEMENTARY, [37, 47, m.level], m.volId, JolietRoot(m), DirSize(m.joliet.value, true))]
  }

  ghost function WriteImage(m: Master): seq<byte>
    requires Fits(m)
  {
    m.boot + (SectorsBytes(VolumeDescriptors(m) + [Terminator()]) + Trees(m))
  }

  ghost function Trees(m: Master): seq<byte>
    requires Fits(m)
  {
    WriteDir(m.plain, PlainRoot(m), RootPlace(m.plain, PlainRoot(m), false), false)
    + if m.joliet.None? then []
      else WriteDir(m.joliet.value, JolietRoot(m), RootPlace(m.joliet.value, JolietRoot(m), true), true)
  }

  function Tree(m: Master): seq<Node> {
    if m.joliet.Some? then m.joliet.value else m.plain
  }

  function Root(m: Master): nat {
    if m.joliet.Some? then JolietRoot(m) else PlainRoot(m)
  }

  /** Where the parts of a written image lie. */
  lemma ImageParts(m: Master)
    requires Fits(m)
    ensures var image := WriteImage(m);
            && At(image, FIRST * SECTOR, SectorsBytes(VolumeDescriptors(m) + [Terminator()]))
            && DirPlaced(image, Tree(m), Root(m), RootPlace(Tree(m), Root(m), m.joliet.Some?), m.joliet.Some?)
  {
    var image := WriteImage(m);
    var heads := SectorsBytes(VolumeDescriptors(m) + [Terminator()]);
    assert image[0..|image|] == image;
    AtSplit(image, 0, m.boot, heads + Trees(m));
    AtSplit(image, FIRST * SECTOR, heads, Trees(m));
    var plain := WriteDir(m.plain, PlainRoot(m), RootPlace(m.plain, PlainRoot(m), false), false);
    DirLength(m.plain, PlainRoot(m), RootPlace(m.plain, PlainRoot(m), false), false);
    AtSplit(image, PlainRoot(m) * SECTOR, plain, Trees(m)[|plain|..]);
  }

  lemma DescriptorFacts(m: Master)
    requires Fits(m)
    ensures var ds := VolumeDescriptors(m);
            && NoTerminator(ds)
            && Typed(ds[0], TYPE_PRIMARY) && LabelOf(ds[0]) == TrimRight(TrimLeft(m.volId))
            && RootLba(ds[0]) == PlainRoot(m) && RootSize(ds[0]) == DirSize(m.plain, false)
            && (m.joliet.Some? ==> IsJoliet(ds[1]) && RootLba(ds[1]) == JolietRoot(m)
                                   && RootSize(ds[1]) == DirSize(m.joliet.value, true))
  {
    var ds := VolumeDescriptors(m);
    RootFits(m.plain, PlainRoot(m), false);
    DescriptorFields(TYPE_PRIMARY, Zeros(3), m.volId, PlainRoot(m), DirSize(m.plain, false));
    if m.joliet.Some? {
      RootFits(m.joliet.value, JolietRoot(m), true);
      DescriptorFields(TYPE_SUPPLEMENTARY, [37, 47, m.level], m.volId, JolietRoot(m), DirSize(m.joliet.value, true));
      assert ds[1][88..91][0] == ds[1][88] && ds[1][88..91][1] == ds[1][89] && ds[1][88..91][2] == ds[1][90];
    }
  }

  lemma ImageOpens(m: Master)
    requires Fits(m)
    ensures OpenVolume(WriteImage(m)) ==
            Some(Volume(Root(m), DirSize(Tree(m), m.joliet.Some?), m.joliet.Some?, TrimRight(TrimLeft(m.volId))))
  {
    DescriptorFacts(m);
    ImageParts(m);
    OpensAt(WriteImage(m), VolumeDescriptors(m), Terminator());
    ChosenRoot(m, VolumeDescriptors(m));
  }

  lemma ChosenRoot(m: Master, ds: seq<Sector>)
    requires |ds| == Heads(m) - 1 && Typed(ds[0], TYPE_PRIMARY)
    requires m.joliet.Some? ==> IsJoliet(ds[1]) && RootLba(ds[1]) != 0
    ensures var p := ds[0];
            Choose(ds) == if m.joliet.Some? then Some(Volume(RootLba(ds[1]), RootSize(ds[1]), true, LabelOf(p)))
                          else Some(Volume(RootLba(p), RootSize(p), false, LabelOf(p)))
  {
    assert ds[..0] == [] && Last([], true) == None;
    if m.joliet.Some? {
      assert ds[..1][0] == ds[0];
      assert Last(ds[..1], false) == Some(ds[0]);
    }
  }

  /** Opening a written image and walking it yields the paths of its tree in preorder, that of the
      Joliet tree if there is one, cut off below 13 components. */
  lemma WholeImageRoundTrip(m: Master)
    requires Fits(m)
    ensures var image := WriteImage(m);
            var v := OpenVolume(image);
            && v.Some?
            && v.value.joliet == m.joliet.Some?
            && v.value.volId == TrimRight(TrimLeft(m.volId))
            && v.value.lba >= 0 && v.value.size >= 0
            && WalkPaths(image, v.value.joliet, v.value.lba, v.value.size)
               == Some(TreePaths("", Tree(m), 13))
  {
    ImageOpens(m);
    ImageParts(m);
    TreeIsWalked(WriteImage(m), Tree(m), Root(m), m.joliet.Some?);
  }

  // ----- Trees that are not too deep -----

  function Height(nodes: seq<Node>): nat
    decreases nodes
  {
    if nodes == [] then 0
    else
      var h := if nodes[0].File? then 1 else 1 + Height(nodes[0].children);
      if h > Height(nodes[1..]) then h else Height(nodes[1..])
  }

  function AllPaths(prefix: string, nodes: seq<Node>): seq<string>
    decreases nodes
  {
    if nodes == [] then []
    else
      var p := prefix + "/" + nodes[0].name;
      (if nodes[0].File? then [p] else AllPaths(p, nodes[0].children)) + AllPaths(prefix, nodes[1..])
  }

  /** Nothing is cut off from a tree of at most that many levels. */
  lemma {:induction false} ShallowTrees(prefix: string, nodes: seq<Node>, levels: nat)
    requires Height(nodes) <= levels
    ensures TreePaths(prefix, nodes, levels) == AllPaths(prefix, nodes)
    decreases nodes
  {
    if nodes != [] {
      if nodes[0].Dir? {
        ShallowTrees(prefix + "/" + nodes[0].name, nodes[0].children, levels - 1);
      }
      ShallowTrees(prefix, nodes[1..], levels);
    }
  }
}
