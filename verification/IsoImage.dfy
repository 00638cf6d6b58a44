/** A writer for directory trees, plain or Joliet, and the proof that wherever a tree lies in an
    image, walking it yields its paths, in order. */
module IsoImage {
  import opened Sequences
  import opened Text
  import opened IsoDirectory
  import opened IsoRecords
  import opened IsoVolume
  import opened IsoWalk

  /** A directory tree. Where the data of a file lies is up to the caller. */
  datatype Node = File(name: string, lba: nat, size: nat) | Dir(name: string, children: seq<Node>)

  /** The paths of the files at most `levels` deep, in preorder. */
  function TreePaths(prefix: string, nodes: seq<Node>, levels: nat): seq<string>
    decreases nodes, 0
  {
    if levels == 0 || nodes == [] then []
    else NodePaths(prefix, nodes[0], levels) + TreePaths(prefix, nodes[1..], levels)
  }

  function NodePaths(prefix: string, x: Node, levels: pos): seq<string>
    decreases x, 1
  {
    var p := prefix + "/" + x.name;
    if x.File? then [p] else TreePaths(p, x.children, levels - 1)
  }

  // ----- Records of a tree -----

  function Padded(id: seq<byte>): seq<byte> {
    if |id| % 2 == 0 then [0] else []
  }

  function MakeRecord(lba: nat, size: nat, flags: byte, id: seq<byte>): Record {
    Record(0, lba, size, Zeros(7), flags, [0, 0, 1, 0, 0, 1], id, Padded(id))
  }

  function NodeId(x: Node, joliet: bool): seq<byte> {
    Identifier(if x.File? then x.name + ";" + "1" else x.name, joliet)
  }

  /** The records of a directory and of its parent, in that order. */
  function Links(own: nat, size: nat, parent: nat, parentSize: nat): seq<Record> {
    [MakeRecord(own, size, FLAG_DIRECTORY, [0]), MakeRecord(parent, parentSize, FLAG_DIRECTORY, [1])]
  }

  function Shapes(nodes: seq<Node>, joliet: bool): seq<Record> {
    seq(|nodes|, i requires 0 <= i < |nodes| => MakeRecord(0, 0, 0, NodeId(nodes[i], joliet)))
  }

  /** The sectors that a directory with these children takes. */
  function OwnSectors(nodes: seq<Node>, joliet: bool): nat {
    |Pack([], Links(0, 0, 0, 0) + Shapes(nodes, joliet))|
  }

  /** The sectors of all directories below these nodes. */
  function SectorsBelow(nodes: seq<Node>, joliet: bool): nat
    decreases nodes
  {
    if nodes == [] then 0
    else
      (match nodes[0]
       case File(_, _, _) => 0
       case Dir(_, children) => OwnSectors(children, joliet) + SectorsBelow(children, joliet))
      + SectorsBelow(nodes[1..], joliet)
  }

  function SectorsOf(x: Node, joliet: bool): nat {
    if x.File? then 0 else OwnSectors(x.children, joliet) + SectorsBelow(x.children, joliet)
  }

  function DirSize(nodes: seq<Node>, joliet: bool): nat {
    SECTOR * OwnSectors(nodes, joliet)
  }

  function NodeRecord(x: Node, at: nat, joliet: bool): Record {
    match x
    case File(_, lba, size) => MakeRecord(lba, size, 0, NodeId(x, joliet))
    case Dir(_, children) => MakeRecord(at, DirSize(children, joliet), FLAG_DIRECTORY, NodeId(x, joliet))
  }

  /** The children's records, when the first directory among them starts at sector `at`. */
  function NodeRecords(nodes: seq<Node>, at: nat, joliet: bool): (rs: seq<Record>)
    ensures |rs| == |nodes|
  {
    if nodes == [] then [] else
    [NodeRecord(nodes[0], at, joliet)] + NodeRecords(nodes[1..], at + SectorsOf(nodes[0], joliet), joliet)
  }

  datatype Place = Place(lba: nat, size: nat)

  function DirRecords(nodes: seq<Node>, own: nat, parent: Place, joliet: bool): seq<Record> {
    AllRecords(nodes, Place(own, DirSize(nodes, joliet)), parent, own + OwnSectors(nodes, joliet), joliet)
  }

  function AllRecords(nodes: seq<Node>, own: Place, parent: Place, at: nat, joliet: bool): seq<Record> {
    Links(own.lba, own.size, parent.lba, parent.size) + NodeRecords(nodes, at, joliet)
  }

  // ----- Writing -----

  /** Every number and identifier fits its field, in this directory and below. */
  ghost predicate Writable(nodes: seq<Node>, own: nat, parent: Place, joliet: bool)
    decreases nodes, 1
  {
    && AllValid(DirRecords(nodes, own, parent, joliet))
    && WritableBelow(nodes, Place(own, DirSize(nodes, joliet)), own + OwnSectors(nodes, joliet), joliet)
  }

  ghost predicate WritableBelow(nodes: seq<Node>, parent: Place, at: nat, joliet: bool)
    decreases nodes, 0
  {
    nodes == [] || (
      && (nodes[0].Dir? ==> Writable(nodes[0].children, at, parent, joliet))
      && WritableBelow(nodes[1..], parent, at + SectorsOf(nodes[0], joliet), joliet))
  }

  function Layout(nodes: seq<Node>, own: nat, parent: Place, joliet: bool): seq<seq<Record>> {
    Pack([], DirRecords(nodes, own, parent, joliet))
  }

  /** The extent of a directory at sector `own`, followed by those of everything below it. */
  ghost function WriteDir(nodes: seq<Node>, own: nat, parent: Place, joliet: bool): seq<byte>
    requires Writable(nodes, own, parent, joliet)
    decreases nodes, 1
  {
    PackKeepsRecords([], DirRecords(nodes, own, parent, joliet));
    LayoutBytes(Layout(nodes, own, parent, joliet))
    + WriteBelow(nodes, Place(own, DirSize(nodes, joliet)), own + OwnSectors(nodes, joliet), joliet)
  }

  ghost function WriteBelow(nodes: seq<Node>, parent: Place, at: nat, joliet: bool): seq<byte>
    requires WritableBelow(nodes, parent, at, joliet)
    decreases nodes, 0
  {
    if nodes == [] then []
    else
      (if nodes[0].Dir? then WriteDir(nodes[0].children, at, parent, joliet) else [])
      + WriteBelow(nodes[1..], parent, at + SectorsOf(nodes[0], joliet), joliet)
  }

  lemma {:induction false} ShapesMatch(nodes: seq<Node>, at: nat, joliet: bool)
    ensures SameLengths(Shapes(nodes, joliet), NodeRecords(nodes, at, joliet))
  {
    if nodes != [] {
      var x, after := nodes[0], at + SectorsOf(nodes[0], joliet);
      ShapesMatch(nodes[1..], after, joliet);
      ShapeLength(x, at, joliet);
      ShapesCons(nodes, joliet);
      RecordsCons(nodes, at, after, joliet);
      SameLengthsCons(Shapes(nodes, joliet), NodeRecords(nodes, at, joliet));
    }
  }

  lemma RecordsCons(nodes: seq<Node>, at: nat, after: nat, joliet: bool)
    requires nodes != [] && after == at + SectorsOf(nodes[0], joliet)
    ensures NodeRecords(nodes, at, joliet)[0] == NodeRecord(nodes[0], at, joliet)
    ensures NodeRecords(nodes, at, joliet)[1..] == NodeRecords(nodes[1..], after, joliet)
  {
  }

  lemma ShapesCons(nodes: seq<Node>, joliet: bool)
    requires nodes != []
    ensures Shapes(nodes, joliet)[0] == MakeRecord(0, 0, 0, NodeId(nodes[0], joliet))
    ensures Shapes(nodes, joliet)[1..] == Shapes(nodes[1..], joliet)
  {
  }

  lemma ShapeLength(x: Node, at: nat, joliet: bool)
    ensures MakeRecord(0, 0, 0, NodeId(x, joliet)).Length() == NodeRecord(x, at, joliet).Length()
  {
  }

  lemma SameLengthsCons(a: seq<Record>, b: seq<Record>)
    requires |a| == |b| > 0 && a[0].Length() == b[0].Length() && SameLengths(a[1..], b[1..])
    ensures SameLengths(a, b)
  {
    forall k | 0 < k < |a| ensures a[k].Length() == b[k].Length() {
      assert a[k] == a[1..][k - 1] && b[k] == b[1..][k - 1];
    }
  }

  /** The size announced in advance is the size written. */
  lemma LayoutSize(nodes: seq<Node>, own: nat, parent: Place, joliet: bool)
    ensures |Pack([], DirRecords(nodes, own, parent, joliet))| == OwnSectors(nodes, joliet)
  {
    ShapesMatch(nodes, own + OwnSectors(nodes, joliet), joliet);
    SamePack([], [], DirRecords(nodes, own, parent, joliet), Links(0, 0, 0, 0) + Shapes(nodes, joliet));
  }

  lemma {:induction false} DirLength(nodes: seq<Node>, own: nat, parent: Place, joliet: bool)
    requires Writable(nodes, own, parent, joliet)
    ensures |WriteDir(nodes, own, parent, joliet)|
         == SECTOR * (OwnSectors(nodes, joliet) + SectorsBelow(nodes, joliet))
    decreases nodes, 1
  {
    LayoutSize(nodes, own, parent, joliet);
    WriteDirParts(nodes, own, parent, joliet, own + OwnSectors(nodes, joliet));
    BelowLength(nodes, Place(own, DirSize(nodes, joliet)), own + OwnSectors(nodes, joliet), joliet);
  }

  lemma {:induction false} BelowLength(nodes: seq<Node>, parent: Place, at: nat, joliet: bool)
    requires WritableBelow(nodes, parent, at, joliet)
    ensures |WriteBelow(nodes, parent, at, joliet)| == SECTOR * SectorsBelow(nodes, joliet)
    decreases nodes, 0
  {
    if nodes != [] {
      var x, after := nodes[0], at + SectorsOf(nodes[0], joliet);
      if x.Dir? {
        DirLength(x.children, at, parent, joliet);
      }
      BelowLength(nodes[1..], parent, after, joliet);
      BelowCons(nodes, parent, at, after, joliet);
      SectorsCons(nodes, joliet);
    }
  }

  lemma BelowCons(nodes: seq<Node>, parent: Place, at: nat, after: nat, joliet: bool)
    requires nodes != [] && WritableBelow(nodes, parent, at, joliet) && after == at + SectorsOf(nodes[0], joliet)
    ensures WritableBelow(nodes[1..], parent, after, joliet)
    ensures nodes[0].Dir? ==> Writable(nodes[0].children, at, parent, joliet)
    ensures WriteBelow(nodes, parent, at, joliet)
         == (if nodes[0].Dir? then WriteDir(nodes[0].children, at, parent, joliet) else [])
            + WriteBelow(nodes[1..], parent, after, joliet)
  {
  }

  lemma SectorsCons(nodes: seq<Node>, joliet: bool)
    requires nodes != []
    ensures SectorsBelow(nodes, joliet) == SectorsOf(nodes[0], joliet) + SectorsBelow(nodes[1..], joliet)
  {
  }

  // ----- Reading back -----

  /** Names that the reader returns unchanged, and that do not pass for a link record. */
  predicate GoodName(x: Node, joliet: bool) {
    && PlainName(x.name)
    && Representable(x.name, joliet)
    && !(x.Dir? && |NodeId(x, joliet)| == 1 && NodeId(x, joliet)[0] <= 1)
  }

  predicate GoodNames(nodes: seq<Node>, joliet: bool)
    decreases nodes
  {
    nodes == [] || (
      && GoodName(nodes[0], joliet)
      && (nodes[0].Dir? ==> GoodNames(nodes[0].children, joliet))
      && GoodNames(nodes[1..], joliet))
  }

  function NodeEntry(x: Node, at: nat, joliet: bool): DirEntry {
    match x
    case File(name, lba, size) => DirEntry(name, lba, size, false)
    case Dir(name, children) => DirEntry(name, at, DirSize(children, joliet), true)
  }

  function NodeEntries(nodes: seq<Node>, at: nat, joliet: bool): seq<DirEntry> {
    if nodes == [] then [] else
    [NodeEntry(nodes[0], at, joliet)] + NodeEntries(nodes[1..], at + SectorsOf(nodes[0], joliet), joliet)
  }

  lemma FileIdReads(x: Node, joliet: bool)
    requires x.File? && GoodName(x, joliet)
    ensures |NodeId(x, joliet)| >= 2 && CleanName(Decoded(NodeId(x, joliet), joliet)) == x.name
  {
    var text := x.name + ";" + "1";
    assert |text| >= 2 && Representable(text, joliet);
    VersionsDisappear(x.name, "1");
    IdentifierRoundTrip(text, joliet);
  }

  lemma DirIdReads(x: Node, joliet: bool)
    requires x.Dir? && GoodName(x, joliet)
    ensures CleanName(Decoded(NodeId(x, joliet), joliet)) == x.name
  {
    NamesAreCleaned(x.name);
    IdentifierRoundTrip(x.name, joliet);
  }

  lemma NodeMeaning(x: Node, at: nat, joliet: bool)
    requires GoodName(x, joliet)
    ensures Meaning(NodeRecord(x, at, joliet), joliet) == [NodeEntry(x, at, joliet)]
  {
    var id := NodeId(x, joliet);
    if x.File? {
      FileIdReads(x, joliet);
      NamedMeaning(x.lba, x.size, 0, id, x.name, joliet);
    } else {
      DirIdReads(x, joliet);
      NamedMeaning(at, DirSize(x.children, joliet), FLAG_DIRECTORY, id, x.name, joliet);
    }
  }

  lemma NamedMeaning(lba: nat, size: nat, flags: byte, id: seq<byte>, name: string, joliet: bool)
    requires CleanName(Decoded(id, joliet)) == name && !(|id| == 1 && id[0] <= 1)
    ensures Meaning(MakeRecord(lba, size, flags, id), joliet)
         == [DirEntry(name, lba, size, flags / FLAG_DIRECTORY % 2 == 1)]
  {
  }

  lemma MeaningsCons(r: Record, rs: seq<Record>, joliet: bool)
    ensures Meanings([r] + rs, joliet) == Meaning(r, joliet) + Meanings(rs, joliet)
  {
    assert ([r] + rs)[1..] == rs;
  }

  lemma {:induction false} NodesMeaning(nodes: seq<Node>, at: nat, joliet: bool)
    requires GoodNames(nodes, joliet)
    ensures Meanings(NodeRecords(nodes, at, joliet), joliet) == NodeEntries(nodes, at, joliet)
  {
    if nodes != [] {
      var after := at + SectorsOf(nodes[0], joliet);
      NodeMeaning(nodes[0], at, joliet);
      NodesMeaning(nodes[1..], after, joliet);
      MeaningsCons(NodeRecord(nodes[0], at, joliet), NodeRecords(nodes[1..], after, joliet), joliet);
      NodesCons(nodes, at, after, joliet);
    }
  }

  lemma NodesCons(nodes: seq<Node>, at: nat, after: nat, joliet: bool)
    requires nodes != [] && after == at + SectorsOf(nodes[0], joliet)
    ensures NodeRecords(nodes, at, joliet)
         == [NodeRecord(nodes[0], at, joliet)] + NodeRecords(nodes[1..], after, joliet)
    ensures NodeEntries(nodes, at, joliet)
         == [NodeEntry(nodes[0], at, joliet)] + NodeEntries(nodes[1..], after, joliet)
  {
  }

  lemma LinksMeanNothing(links: seq<Record>, rs: seq<Record>, joliet: bool)
    requires |links| == 2 && IsSelfOrParent(links[0]) && IsSelfOrParent(links[1])
    ensures Meanings(links + rs, joliet) == Meanings(rs, joliet)
  {
    assert links + rs == [links[0]] + ([links[1]] + rs);
    MeaningsCons(links[0], [links[1]] + rs, joliet);
    MeaningsCons(links[1], rs, joliet);
  }

  /** A directory, with everything below it, as it lies in an image. */
  ghost predicate DirPlaced(image: seq<byte>, nodes: seq<Node>, own: nat, parent: Place, joliet: bool) {
    && Writable(nodes, own, parent, joliet)
    && GoodNames(nodes, joliet)
    && At(image, own * SECTOR, WriteDir(nodes, own, parent, joliet))
  }

  ghost predicate BelowPlaced(image: seq<byte>, nodes: seq<Node>, parent: Place, at: nat, joliet: bool) {
    && WritableBelow(nodes, parent, at, joliet)
    && GoodNames(nodes, joliet)
    && At(image, at * SECTOR, WriteBelow(nodes, parent, at, joliet))
  }

  lemma DirParts(image: seq<byte>, nodes: seq<Node>, own: nat, parent: Place, joliet: bool, at: nat)
    requires DirPlaced(image, nodes, own, parent, joliet) && at == own + OwnSectors(nodes, joliet)
    ensures LayoutFits(Layout(nodes, own, parent, joliet))
    ensures At(image, own * SECTOR, LayoutBytes(Layout(nodes, own, parent, joliet)))
    ensures BelowPlaced(image, nodes, Place(own, DirSize(nodes, joliet)), at, joliet)
  {
    WriteDirParts(nodes, own, parent, joliet, at);
    LayoutSize(nodes, own, parent, joliet);
    SplitExtent(image, own, OwnSectors(nodes, joliet), LayoutBytes(Layout(nodes, own, parent, joliet)),
                WriteBelow(nodes, Place(own, DirSize(nodes, joliet)), at, joliet));
  }

  lemma SplitExtent(image: seq<byte>, at: nat, n: nat, first: seq<byte>, rest: seq<byte>)
    requires |first| == SECTOR * n && At(image, at * SECTOR, first + rest)
    ensures At(image, at * SECTOR, first) && At(image, (at + n) * SECTOR, rest)
  {
    AtSplit(image, at * SECTOR, first, rest);
  }

  lemma LayoutIsFit(nodes: seq<Node>, own: nat, parent: Place, joliet: bool)
    requires AllValid(DirRecords(nodes, own, parent, joliet))
    ensures LayoutFits(Layout(nodes, own, parent, joliet))
  {
    PackKeepsRecords([], DirRecords(nodes, own, parent, joliet));
  }

  lemma WriteDirParts(nodes: seq<Node>, own: nat, parent: Place, joliet: bool, at: nat)
    requires Writable(nodes, own, parent, joliet) && at == own + OwnSectors(nodes, joliet)
    ensures LayoutFits(Layout(nodes, own, parent, joliet))
    ensures WritableBelow(nodes, Place(own, DirSize(nodes, joliet)), at, joliet)
    ensures WriteDir(nodes, own, parent, joliet)
         == LayoutBytes(Layout(nodes, own, parent, joliet))
            + WriteBelow(nodes, Place(own, DirSize(nodes, joliet)), at, joliet)
  {
    LayoutIsFit(nodes, own, parent, joliet);
  }

  lemma DirMeaning(nodes: seq<Node>, own: Place, parent: Place, at: nat, joliet: bool)
    requires GoodNames(nodes, joliet)
    ensures Meanings(AllRecords(nodes, own, parent, at, joliet), joliet) == NodeEntries(nodes, at, joliet)
  {
    NodesMeaning(nodes, at, joliet);
    LinksMeanNothing(Links(own.lba, own.size, parent.lba, parent.size), NodeRecords(nodes, at, joliet), joliet);
  }

  lemma LayoutMeaning(nodes: seq<Node>, own: nat, parent: Place, joliet: bool)
    requires AllValid(DirRecords(nodes, own, parent, joliet))
    ensures Flatten(Layout(nodes, own, parent, joliet)) == DirRecords(nodes, own, parent, joliet)
    ensures SECTOR * |Layout(nodes, own, parent, joliet)| == DirSize(nodes, joliet)
  {
    var rs := DirRecords(nodes, own, parent, joliet);
    PackKeepsRecords([], rs);
    assert [] + rs == rs;
    LayoutSize(nodes, own, parent, joliet);
  }

  lemma DirIsRead(image: seq<byte>, nodes: seq<Node>, own: nat, parent: Place, joliet: bool, at: nat)
    requires DirPlaced(image, nodes, own, parent, joliet) && at == own + OwnSectors(nodes, joliet)
    ensures ReadDirectory(image, joliet, own, DirSize(nodes, joliet)) == Some(NodeEntries(nodes, at, joliet))
    ensures BelowPlaced(image, nodes, Place(own, DirSize(nodes, joliet)), at, joliet)
  {
    DirParts(image, nodes, own, parent, joliet, at);
    DirectoryRoundTrip(image, own, Layout(nodes, own, parent, joliet), joliet);
    LayoutEntries(nodes, own, parent, joliet, at);
  }

  lemma LayoutEntries(nodes: seq<Node>, own: nat, parent: Place, joliet: bool, at: nat)
    requires AllValid(DirRecords(nodes, own, parent, joliet)) && GoodNames(nodes, joliet)
    requires at == own + OwnSectors(nodes, joliet)
    ensures Meanings(Flatten(Layout(nodes, own, parent, joliet)), joliet) == NodeEntries(nodes, at, joliet)
    ensures SECTOR * |Layout(nodes, own, parent, joliet)| == DirSize(nodes, joliet)
  {
    LayoutMeaning(nodes, own, parent, joliet);
    DirMeaning(nodes, Place(own, DirSize(nodes, joliet)), parent, at, joliet);
  }

  lemma FirstExtent(image: seq<byte>, nodes: seq<Node>, parent: Place, at: nat, joliet: bool, after: nat)
    requires nodes != [] && BelowPlaced(image, nodes, parent, at, joliet) && after == at + SectorsOf(nodes[0], joliet)
    ensures nodes[0].Dir? ==> DirPlaced(image, nodes[0].children, at, parent, joliet)
    ensures BelowPlaced(image, nodes[1..], parent, after, joliet)
  {
    BelowParts(nodes, parent, at, joliet, after);
    ExtentParts(image, at, SectorsOf(nodes[0], joliet), after, WriteBelow(nodes, parent, at, joliet),
                FirstBytes(nodes[0], parent, at, joliet), WriteBelow(nodes[1..], parent, after, joliet));
  }

  lemma ExtentParts(image: seq<byte>, at: nat, n: nat, after: nat, whole: seq<byte>, first: seq<byte>, rest: seq<byte>)
    requires |first| == SECTOR * n && after == at + n && whole == first + rest && At(image, at * SECTOR, whole)
    ensures At(image, at * SECTOR, first) && At(image, after * SECTOR, rest)
  {
    SplitExtent(image, at, n, first, rest);
  }

  lemma BelowParts(nodes: seq<Node>, parent: Place, at: nat, joliet: bool, after: nat)
    requires nodes != [] && WritableBelow(nodes, parent, at, joliet) && GoodNames(nodes, joliet)
    requires after == at + SectorsOf(nodes[0], joliet)
    ensures nodes[0].Dir? ==> Writable(nodes[0].children, at, parent, joliet) && GoodNames(nodes[0].children, joliet)
    ensures WritableBelow(nodes[1..], parent, after, joliet) && GoodNames(nodes[1..], joliet)
    ensures WriteBelow(nodes, parent, at, joliet)
         == FirstBytes(nodes[0], parent, at, joliet) + WriteBelow(nodes[1..], parent, after, joliet)
  {
    BelowCons(nodes, parent, at, after, joliet);
  }

  ghost function FirstBytes(x: Node, parent: Place, at: nat, joliet: bool): (b: seq<byte>)
    requires x.Dir? ==> Writable(x.children, at, parent, joliet)
    ensures |b| == SECTOR * SectorsOf(x, joliet)
    ensures b == if x.Dir? then WriteDir(x.children, at, parent, joliet) else []
  {
    if x.Dir? then
      DirLength(x.children, at, parent, joliet);
      WriteDir(x.children, at, parent, joliet)
    else []
  }

  lemma NothingWalked(image: seq<byte>, nodes: seq<Node>, at: nat, joliet: bool, prefix: string, depth: nat, levels: nat)
    requires depth + levels == MAX_DEPTH + 1 && (nodes == [] || levels == 0)
    ensures Unfold(image, joliet, prefix, NodeEntries(nodes, at, joliet), depth) == Some([])
    ensures TreePaths(prefix, nodes, levels) == []
  {
  }

  lemma OneMoreWalked(image: seq<byte>, nodes: seq<Node>, at: nat, after: nat, joliet: bool, prefix: string,
                      depth: nat, levels: nat)
    requires nodes != [] && levels > 0 && depth + levels == MAX_DEPTH + 1
    requires after == at + SectorsOf(nodes[0], joliet)
    requires UnfoldOne(image, joliet, prefix, NodeEntry(nodes[0], at, joliet), depth)
          == Some(NodePaths(prefix, nodes[0], levels))
    requires Unfold(image, joliet, prefix, NodeEntries(nodes[1..], after, joliet), depth)
          == Some(TreePaths(prefix, nodes[1..], levels))
    ensures Unfold(image, joliet, prefix, NodeEntries(nodes, at, joliet), depth)
         == Some(TreePaths(prefix, nodes, levels))
  {
    NodesCons(nodes, at, after, joliet);
    PathsCons(prefix, nodes, levels);
    UnfoldCons(image, joliet, prefix, NodeEntry(nodes[0], at, joliet), NodeEntries(nodes[1..], after, joliet), depth,
               NodePaths(prefix, nodes[0], levels), TreePaths(prefix, nodes[1..], levels));
  }

  lemma PathsCons(prefix: string, nodes: seq<Node>, levels: pos)
    requires nodes != []
    ensures TreePaths(prefix, nodes, levels)
         == NodePaths(prefix, nodes[0], levels) + TreePaths(prefix, nodes[1..], levels)
  {
  }

  /** Walking the children of a written directory emits the paths of the tree below it. */
  lemma {:induction false} BelowIsWalked(image: seq<byte>, nodes: seq<Node>, parent: Place, at: nat, joliet: bool,
                                         prefix: string, depth: nat, levels: nat)
    requires BelowPlaced(image, nodes, parent, at, joliet) && depth + levels == MAX_DEPTH + 1
    ensures Unfold(image, joliet, prefix, NodeEntries(nodes, at, joliet), depth)
         == Some(TreePaths(prefix, nodes, levels))
    decreases nodes, 0
  {
    if nodes == [] || levels == 0 {
      NothingWalked(image, nodes, at, joliet, prefix, depth, levels);
    } else {
      var after := at + SectorsOf(nodes[0], joliet);
      FirstExtent(image, nodes, parent, at, joliet, after);
      NodeIsWalked(image, nodes[0], parent, at, joliet, prefix, depth, levels);
      BelowIsWalked(image, nodes[1..], parent, after, joliet, prefix, depth, levels);
      OneMoreWalked(image, nodes, at, after, joliet, prefix, depth, levels);
    }
  }

  lemma {:induction false} NodeIsWalked(image: seq<byte>, x: Node, parent: Place, at: nat, joliet: bool,
                                        prefix: string, depth: nat, levels: pos)
    requires x.Dir? ==> DirPlaced(image, x.children, at, parent, joliet)
    requires depth + levels == MAX_DEPTH + 1
    ensures UnfoldOne(image, joliet, prefix, NodeEntry(x, at, joliet), depth)
         == Some(NodePaths(prefix, x, levels))
    decreases x, 1
  {
    if x.Dir? {
      var below, path := at + OwnSectors(x.children, joliet), prefix + "/" + x.name;
      var es, paths := ListedWalk(image, x.children, at, parent, joliet, path, depth + 1, levels - 1, below);
      DirWalked(image, x, at, joliet, prefix, depth, levels, es, paths);
    }
  }

  /** Listing a written directory and walking what it lists. */
  lemma {:induction false} ListedWalk(image: seq<byte>, nodes: seq<Node>, own: nat, parent: Place, joliet: bool,
                                      path: string, depth: nat, levels: nat, below: nat)
    returns (es: seq<DirEntry>, paths: seq<string>)
    requires DirPlaced(image, nodes, own, parent, joliet) && below == own + OwnSectors(nodes, joliet)
    requires depth + levels == MAX_DEPTH + 1
    ensures ReadDirectory(image, joliet, own, DirSize(nodes, joliet)) == Some(es)
    ensures Unfold(image, joliet, path, es, depth) == Some(paths) && paths == TreePaths(path, nodes, levels)
    decreases nodes, 1
  {
    DirIsRead(image, nodes, own, parent, joliet, below);
    BelowIsWalked(image, nodes, Place(own, DirSize(nodes, joliet)), below, joliet, path, depth, levels);
    es, paths := NodeEntries(nodes, below, joliet), TreePaths(path, nodes, levels);
  }

  lemma DirWalked(image: seq<byte>, x: Node, at: nat, joliet: bool, prefix: string, depth: nat, levels: pos,
                  es: seq<DirEntry>, paths: seq<string>)
    requires x.Dir? && depth <= MAX_DEPTH
    requires ReadDirectory(image, joliet, at, DirSize(x.children, joliet)) == Some(es)
    requires Unfold(image, joliet, prefix + "/" + x.name, es, depth + 1) == Some(paths)
    requires paths == TreePaths(prefix + "/" + x.name, x.children, levels - 1)
    ensures UnfoldOne(image, joliet, prefix, NodeEntry(x, at, joliet), depth) == Some(NodePaths(prefix, x, levels))
  {
    DirUnfolds(image, joliet, prefix, NodeEntry(x, at, joliet), depth, es);
  }

  /** Wherever a tree is written in an image, the walk from its root emits its paths in preorder,
      all those of at most 13 components. */
  lemma TreeIsWalked(image: seq<byte>, nodes: seq<Node>, root: nat, joliet: bool)
    requires DirPlaced(image, nodes, root, Place(root, DirSize(nodes, joliet)), joliet)
    ensures WalkPaths(image, joliet, root, DirSize(nodes, joliet)) == Some(TreePaths("", nodes, 13))
  {
    var parent, at := Place(root, DirSize(nodes, joliet)), root + OwnSectors(nodes, joliet);
    var es, paths := ListedWalk(image, nodes, root, parent, joliet, "", 0, MAX_DEPTH + 1, at);
    WalkOfRoot(image, joliet, root, DirSize(nodes, joliet), es);
  }
}
