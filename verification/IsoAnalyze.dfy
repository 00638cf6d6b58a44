/** Classifying an image by the files it holds: a Windows pre-check, then the first row of an
    ordered table all of whose markers occur in some path. */
module IsoAnalyze {
  import opened Sequences
  import opened Text
  import opened Decimal
  import opened IsoDirectory
  import opened IsoVolume
  import opened IsoWalk

  const UBUNTU := "ubuntu"
  const DEBIAN_LIVE := "debian"
  const DEBIAN_INSTALLER := "debian_di"
  const RHEL := "rhel"
  const ARCH := "arch"
  const ALPINE := "alpine"
  const OPENSUSE := "opensuse"
  const MINT := "mint"
  const KALI := "kali"
  const WINDOWS := "windows"
  const GENERIC := "generic"

  datatype Rule = Rule(family: string, distro: string, display: string, markers: seq<string>)

  datatype Info = Info(family: string, distro: string, display: string, files: seq<string>, note: string)

  datatype Analysis = NotAnImage | Crash | Analyzed(info: Info)

  const RULES: seq<Rule> := [
    Rule(WINDOWS, "windows", "Windows", ["/sources/boot.wim", "bootmgr"]),
    Rule(UBUNTU, "ubuntu", "Ubuntu", ["/casper/vmlinuz"]),
    Rule(MINT, "mint", "Linux Mint", ["/casper/vmlinuz", "/.disk/info"]),
    Rule(KALI, "kali", "Kali Linux", ["/live/vmlinuz", "/live/filesystem.squashfs"]),
    Rule(DEBIAN_LIVE, "debian", "Debian Live", ["/live/vmlinuz"]),
    Rule(DEBIAN_INSTALLER, "debian", "Debian Installer", ["/install.amd/vmlinuz"]),
    Rule(RHEL, "rhel", "RHEL/Rocky/Alma/Fedora", ["/images/pxeboot/vmlinuz"]),
    Rule(RHEL, "rhel", "RHEL (anaconda)", ["/isolinux/vmlinuz", "/.treeinfo"]),
    Rule(ARCH, "arch", "Arch Linux", ["/arch/boot/x86_64/vmlinuz-linux"]),
    Rule(ALPINE, "alpine", "Alpine Linux", ["/boot/vmlinuz-lts"]),
    Rule(OPENSUSE, "opensuse", "openSUSE", ["/boot/x86_64/loader/linux"])
  ]

  const WINDOWS_FILES := ["bootmgr", "/sources/install", "/sources/boot.wim"]
  const WINDOWS_LABELS := ["windows", "cccoma", "cpba", "ccsa", "cena", "sss_x64", "j_ccsa", "server"]

  function LowerChar(c: char): char {
    if 'A' <= c <= 'Z' then (c as int + 32) as char else c
  }

  /** Lower case of a marker, which is plain ASCII. */
  function Lower(s: string): (r: string)
    ensures |r| == |s|
  {
    seq(|s|, i requires 0 <= i < |s| => LowerChar(s[i]))
  }

  /** Lower case as far as markers can tell. Beyond ASCII only U+0130 and U+212A have an ASCII lower
      case, i and k; other characters stay beyond ASCII. Plain names hold bytes, so there the two
      are UTF-8 sequences; Joliet names hold characters. */
  function Fold(s: string, joliet: bool): string {
    if s == [] then []
    else if joliet then
      [if s[0] == '\U{0130}' then 'i' else if s[0] == '\U{212A}' then 'k' else LowerChar(s[0])] + Fold(s[1..], joliet)
    else if |s| >= 2 && s[..2] == ['\U{C4}', '\U{B0}'] then "i" + Fold(s[2..], joliet)
    else if |s| >= 3 && s[..3] == ['\U{E2}', '\U{84}', '\U{AA}'] then "k" + Fold(s[3..], joliet)
    else [LowerChar(s[0])] + Fold(s[1..], joliet)
  }

  lemma {:induction false} FoldOfAscii(s: string, joliet: bool)
    requires forall k :: 0 <= k < |s| ==> s[k] < '\U{80}'
    ensures Fold(s, joliet) == Lower(s)
  {
    if s != [] {
      FoldOfAscii(s[1..], joliet);
      assert s[0] < '\U{80}';
      assert |s| >= 2 ==> s[..2][0] == s[0];
      assert |s| >= 3 ==> s[..3][0] == s[0];
      assert Lower(s) == [LowerChar(s[0])] + Lower(s[1..]);
    }
  }

  // ----- Specification -----

  predicate Hit(paths: set<string>, marker: string) {
    exists p <- paths :: Contains(p, Lower(marker))
  }

  predicate Matches(paths: set<string>, r: Rule) {
    forall m <- r.markers :: Hit(paths, m)
  }

  /** The first row in table order that matches. */
  function FirstMatch(rules: seq<Rule>, paths: set<string>): (r: Option<Rule>)
    ensures r.None? ==> forall k :: 0 <= k < |rules| ==> !Matches(paths, rules[k])
    ensures r.Some? ==> exists k :: 0 <= k < |rules| && rules[k] == r.value && Matches(paths, rules[k])
                                 && forall j :: 0 <= j < k ==> !Matches(paths, rules[j])
  {
    if rules == [] then None
    else if Matches(paths, rules[0]) then Some(rules[0])
    else
      var r := FirstMatch(rules[1..], paths);
      assert r.Some? ==> forall k :: 0 <= k < |rules| - 1 ==> rules[k + 1] == rules[1..][k];
      r
  }

  predicate LooksLikeWindows(paths: set<string>, vol: string) {
    || (exists m <- WINDOWS_FILES :: Hit(paths, m))
    || (exists w <- WINDOWS_LABELS :: Contains(vol, w))
  }

  function Classify(rules: seq<Rule>, paths: set<string>, vol: string): (string, string) {
    if LooksLikeWindows(paths, vol) then (WINDOWS, "windows")
    else
      var r := FirstMatch(rules, paths);
      if r.Some? then (r.value.family, r.value.distro) else (GENERIC, "linux")
  }

  function Folded(files: seq<string>, joliet: bool): set<string> {
    set f <- files :: Fold(f, joliet)
  }

  const COUNT_WIDTH: pos := 20

  function GenericDisplay(volume: string, count: nat): string {
    "Generic ISO (卷标: " + volume + ", 文件数: " + Plain(Digits(count)) + ")"
  }

  function WindowsNote(volume: string): string {
    "Windows 安装镜像（卷标: " + volume + "）。"
    + "注意：Windows 无法通过网络 GRUB loopback 引导安装器，需用 wimboot + WinPE 方式，或改用其它工具。"
  }

  const RULE_NOTE := "：使用 GRUB2 loopback 挂载 ISO 引导（Ventoy 同款机制）。"
  const GENERIC_NOTE := "未精确识别：通用 loopback 引导，尝试 ISO 内 /boot/grub/grub.cfg。"

  /** Everything that is said about an image with these files and this label; a panic only if the
      number of files has more digits than its buffer. */
  function Describe(files: seq<string>, joliet: bool, volume: string): Analysis {
    var paths, vol := Folded(files, joliet), Fold(volume, false);
    var rule := FirstMatch(RULES, paths);
    if LooksLikeWindows(paths, vol) then Analyzed(Info(WINDOWS, "windows", "Windows", files, WindowsNote(volume)))
    else if rule.Some? then
      Analyzed(Info(rule.value.family, rule.value.distro, rule.value.display, files, rule.value.display + RULE_NOTE))
    else if |files| < Pow10(COUNT_WIDTH) then
      Analyzed(Info(GENERIC, "linux", GenericDisplay(volume, |files|), files, GENERIC_NOTE))
    else Crash
  }

  // ----- The program -----

  method HasSub(paths: set<string>, sub: string) returns (found: bool)
    ensures found <==> Hit(paths, sub)
  {
    var todo := paths;
    while todo != {}
      invariant todo <= paths
      invariant forall p <- paths - todo :: !Contains(p, Lower(sub))
      decreases todo
    {
      var k :| k in todo;
      if Contains(k, Lower(sub)) {
        return true;
      }
      todo := todo - {k};
    }
    return false;
  }

  method CheckWindows(paths: set<string>, vol: string) returns (windows: bool)
    ensures windows <==> LooksLikeWindows(paths, vol)
  {
    var bootmgr := HasSub(paths, "bootmgr");
    var install := HasSub(paths, "/sources/install");
    var wim := HasSub(paths, "/sources/boot.wim");
    assert WINDOWS_FILES[0] == "bootmgr" && WINDOWS_FILES[1] == "/sources/install" && WINDOWS_FILES[2] == "/sources/boot.wim";
    var byLabel := exists w <- WINDOWS_LABELS :: Contains(vol, w);
    windows := bootmgr || install || wim || byLabel;
  }

  method HasAllMarkers(rule: Rule, paths: set<string>) returns (ok: bool)
    ensures ok <==> Matches(paths, rule)
  {
    ok := true;
    for j := 0 to |rule.markers|
      invariant ok
      invariant forall k :: 0 <= k < j ==> Hit(paths, rule.markers[k])
    {
      var hit := HasSub(paths, rule.markers[j]);
      if !hit {
        ok := false;
        break;
      }
    }
  }

  method FindRule(rules: seq<Rule>, paths: set<string>) returns (r: Option<Rule>)
    ensures r == FirstMatch(rules, paths)
  {
    assert rules[0..] == rules;
    for i := 0 to |rules|
      invariant FirstMatch(rules, paths) == FirstMatch(rules[i..], paths)
    {
      assert rules[i..][1..] == rules[i + 1..];
      var ok := HasAllMarkers(rules[i], paths);
      if ok {
        return Some(rules[i]);
      }
    }
    return None;
  }

  function VolumePaths(image: seq<byte>, v: Volume): Option<seq<string>> {
    if v.lba < 0 || v.size < 0 then None else WalkPaths(image, v.joliet, v.lba, v.size)
  }

  lemma VolumeLocated(image: seq<byte>)
    requires OpenVolume(image).Some?
    ensures OpenVolume(image).value.lba >= 0 && OpenVolume(image).value.size >= 0
  {
  }

  /** Opening an image that has been located, and walking it. None is a panic. */
  method ListFiles(image: seq<byte>, v: Volume) returns (files: Option<seq<string>>)
    requires v.lba >= 0 && v.size >= 0
    ensures files == VolumePaths(image, v)
  {
    var sink := new Sink();
    var root := ReadDir(image, v.joliet, v.lba, v.size);
    if root.None? {
      return None;
    }
    ReadIsLocated(image, v.joliet, v.lba, v.size);
    var ok := Walk(image, v.joliet, "", root.value, sink, 0);
    if !ok {
      return None;
    }
    ghost var paths := WalkPaths(image, v.joliet, v.lba, v.size).value;
    assert [] + paths == paths;
    return Some(sink.paths);
  }

  /** From the image to the recipe family and the texts shown. `Crash` is a panic. */
  method Analyze(image: seq<byte>) returns (a: Analysis)
    ensures var v := OpenVolume(image);
            if v.None? then a.NotAnImage?
            else var files := VolumePaths(image, v.value);
                 if files.None? then a.Crash?
                 else a == Describe(files.value, v.value.joliet, Plain(v.value.volId))
  {
    var v := Open(image);
    if v.None? {
      return NotAnImage;
    }
    VolumeLocated(image);
    var files := ListFiles(image, v.value);
    if files.None? {
      return Crash;
    }
    a := Judge(files.value, v.value.joliet, Plain(v.value.volId));
  }

  method Judge(files: seq<string>, joliet: bool, volume: string) returns (a: Analysis)
    ensures a == Describe(files, joliet, volume)
  {
    var paths, vol := Folded(files, joliet), Fold(volume, false);
    var windows := CheckWindows(paths, vol);
    if windows {
      return Analyzed(Info(WINDOWS, "windows", "Windows", files, WindowsNote(volume)));
    }
    var rule := FindRule(RULES, paths);
    if rule.Some? {
      var display := rule.value.display;
      return Analyzed(Info(rule.value.family, rule.value.distro, display, files, display + RULE_NOTE));
    }
    var count := FormatInto(|files|, COUNT_WIDTH);
    if count.None? {
      return Crash;
    }
    var display := "Generic ISO (卷标: " + volume + ", 文件数: " + Plain(count.value) + ")";
    return Analyzed(Info(GENERIC, "linux", display, files, GENERIC_NOTE));
  }

  /** The walk of an opened image yields no list of files exactly when the root, or a directory
      reached through at most 12 others, holds a record shorter than 33 bytes. */
  lemma NoListExactly(image: seq<byte>)
    requires OpenVolume(image).Some?
    ensures var v := OpenVolume(image).value;
            && v.lba >= 0 && v.size >= 0
            && (VolumePaths(image, v).None? <==> WalkPanics(image, v.joliet, v.lba, v.size))
  {
    var v := OpenVolume(image).value;
    VolumeLocated(image);
    WalkPanicsExactly(image, v.joliet, v.lba, v.size);
  }

  /** The family and distribution described are those of the classification. */
  lemma DescribedAsClassified(files: seq<string>, joliet: bool, volume: string)
    ensures var a := Describe(files, joliet, volume);
            a.Analyzed? ==> (a.info.family, a.info.distro)
                              == Classify(RULES, Folded(files, joliet), Fold(volume, false))
                            && a.info.files == files
  {
  }

  // ----- Precedence and shadowing -----

  /** The outcome does not depend on the order in which files are found, nor on repetitions. */
  lemma OrderDoesNotMatter(rules: seq<Rule>, a: seq<string>, b: seq<string>, joliet: bool, vol: string)
    requires forall f :: f in a <==> f in b
    ensures Classify(rules, Folded(a, joliet), vol) == Classify(rules, Folded(b, joliet), vol)
  {
    assert Folded(a, joliet) == Folded(b, joliet);
  }

  /** Whenever the later row matches, so does the earlier: each marker of the earlier one is part
      of some marker of the later. */
  ghost predicate Shadows(earlier: Rule, later: Rule) {
    forall m <- earlier.markers :: exists n <- later.markers :: Contains(Lower(n), Lower(m))
  }

  lemma ShadowedRulesMatchLess(earlier: Rule, later: Rule, paths: set<string>)
    requires Shadows(earlier, later) && Matches(paths, later)
    ensures Matches(paths, earlier)
  {
    forall m <- earlier.markers ensures Hit(paths, m) {
      var n :| n in later.markers && Contains(Lower(n), Lower(m));
      var p :| p in paths && Contains(p, Lower(n));
      ContainsTrans(p, Lower(n), Lower(m));
    }
  }

  /** A shadowed row never decides, and removing it changes nothing, for any files. */
  lemma {:induction false} ShadowedRulesAreDead(rules: seq<Rule>, i: nat, j: nat, paths: set<string>)
    requires i < j < |rules| && Shadows(rules[i], rules[j])
    ensures FirstMatch(rules, paths) == FirstMatch(rules[..j] + rules[j + 1..], paths)
    decreases |rules|
  {
    var fewer := rules[..j] + rules[j + 1..];
    assert fewer[0] == rules[0];
    if !Matches(paths, rules[0]) {
      assert fewer[1..] == rules[1..][..j - 1] + rules[1..][j..];
      if i == 0 {
        if Matches(paths, rules[j]) {
          ShadowedRulesMatchLess(rules[0], rules[j], paths);
        }
        SkipUnmatched(rules[1..], j - 1, paths);
      } else {
        ShadowedRulesAreDead(rules[1..], i - 1, j - 1, paths);
      }
    }
  }

  lemma {:induction false} SkipUnmatched(rules: seq<Rule>, j: nat, paths: set<string>)
    requires j < |rules| && !Matches(paths, rules[j])
    ensures FirstMatch(rules, paths) == FirstMatch(rules[..j] + rules[j + 1..], paths)
    decreases |rules|
  {
    if j == 0 {
      assert rules[..0] + rules[1..] == rules[1..];
    } else {
      var fewer := rules[..j] + rules[j + 1..];
      assert fewer[0] == rules[0] && fewer[1..] == rules[1..][..j - 1] + rules[1..][j..];
      SkipUnmatched(rules[1..], j - 1, paths);
    }
  }

  // ----- The table -----

  /** Mint images are always taken for Ubuntu: their row is dead. */
  lemma MintIsDead(paths: set<string>, vol: string)
    ensures Classify(RULES, paths, vol) == Classify(RULES[..2] + RULES[3..], paths, vol)
    ensures Classify(RULES, paths, vol).0 != MINT
  {
    var rules := RULES;
    OnlyMint(rules);
    SharedRowIsDead(rules, "/casper/vmlinuz", paths, MINT);
    assert WINDOWS != MINT && GENERIC != MINT;
  }

  lemma OnlyMint(rules: seq<Rule>)
    requires rules == RULES
    ensures forall k :: 0 <= k < |rules| && k != 2 ==> rules[k].family != MINT
    ensures |rules| > 3 && rules[1].markers == ["/casper/vmlinuz"] && "/casper/vmlinuz" in rules[2].markers
  {
    assert rules[2].markers[0] == "/casper/vmlinuz";
  }

  lemma SharedRowIsDead(rules: seq<Rule>, m: string, paths: set<string>, family: string)
    requires |rules| > 3 && rules[1].markers == [m] && m in rules[2].markers
    requires forall k :: 0 <= k < |rules| && k != 2 ==> rules[k].family != family
    ensures FirstMatch(rules, paths) == FirstMatch(rules[..2] + rules[3..], paths)
    ensures var r := FirstMatch(rules, paths); r.None? || r.value.family != family
  {
    ShadowedBySharing(rules[1], rules[2], m);
    ShadowedRulesAreDead(rules, 1, 2, paths);
    var fewer := rules[..2] + rules[3..];
    forall k | 0 <= k < |fewer| ensures fewer[k].family != family {
      assert fewer[k] == rules[if k < 2 then k else k + 1];
    }
    NeverThat(fewer, paths, family);
  }

  lemma ShadowedBySharing(earlier: Rule, later: Rule, m: string)
    requires earlier.markers == [m] && m in later.markers
    ensures Shadows(earlier, later)
  {
    assert At(Lower(m), 0, Lower(m));
    assert Contains(Lower(m), Lower(m));
  }

  lemma NeverThat(rules: seq<Rule>, paths: set<string>, family: string)
    requires forall k :: 0 <= k < |rules| ==> rules[k].family != family
    ensures var r := FirstMatch(rules, paths); r.None? || r.value.family != family
  {
  }

  /** The Windows row is dead as well: the pre-check fires whenever it would. */
  lemma WindowsRowIsDead(paths: set<string>, vol: string)
    ensures Classify(RULES, paths, vol) == Classify(RULES[1..], paths, vol)
  {
    var rules := RULES;
    if Matches(paths, rules[0]) {
      assert "bootmgr" in rules[0].markers;
      assert WINDOWS_FILES[0] == "bootmgr";
    }
  }

  /** A volume label with "server" in it makes any image Windows, one with a casper kernel too. */
  lemma ServerLabelsAreWindows(paths: set<string>, vol: string)
    requires Contains(vol, "server")
    ensures Classify(RULES, paths, vol) == (WINDOWS, "windows")
  {
    assert WINDOWS_LABELS[7] == "server";
  }

  lemma Unrolled(rules: seq<Rule>, paths: set<string>)
    requires |rules| >= 4
    ensures FirstMatch(rules, paths)
         == if Matches(paths, rules[0]) then Some(rules[0])
            else if Matches(paths, rules[1]) then Some(rules[1])
            else if Matches(paths, rules[2]) then Some(rules[2])
            else if Matches(paths, rules[3]) then Some(rules[3])
            else FirstMatch(rules[4..], paths)
  {
    assert rules[1..][1..] == rules[2..] && rules[2..][1..] == rules[3..] && rules[3..][1..] == rules[4..];
  }

  lemma OneMarker(r: Rule, m: string, paths: set<string>)
    requires r.markers == [m]
    ensures Matches(paths, r) <==> Hit(paths, m)
  {
    assert m in r.markers;
  }

  lemma TwoMarkers(r: Rule, m: string, n: string, paths: set<string>)
    requires r.markers == [m, n]
    ensures Matches(paths, r) <==> Hit(paths, m) && Hit(paths, n)
  {
    assert m in r.markers && n in r.markers;
  }

  /** The family by a list of questions, without the table: the two dead rows are not asked for. */
  function Decide(paths: set<string>, vol: string): string {
    if LooksLikeWindows(paths, vol) then WINDOWS
    else if Hit(paths, "/casper/vmlinuz") then UBUNTU
    else if Hit(paths, "/live/vmlinuz") then
      if Hit(paths, "/live/filesystem.squashfs") then KALI else DEBIAN_LIVE
    else DecideInstaller(paths)
  }

  function DecideInstaller(paths: set<string>): string {
    if Hit(paths, "/install.amd/vmlinuz") then DEBIAN_INSTALLER
    else if Hit(paths, "/images/pxeboot/vmlinuz") then RHEL
    else if Hit(paths, "/isolinux/vmlinuz") && Hit(paths, "/.treeinfo") then RHEL
    else if Hit(paths, "/arch/boot/x86_64/vmlinuz-linux") then ARCH
    else if Hit(paths, "/boot/vmlinuz-lts") then ALPINE
    else if Hit(paths, "/boot/x86_64/loader/linux") then OPENSUSE
    else GENERIC
  }

  function FamilyOf(r: Option<Rule>): string {
    if r.Some? then r.value.family else GENERIC
  }

  /** Which files and labels give which family, exactly. */
  lemma FamiliesExactly(paths: set<string>, vol: string)
    ensures Classify(RULES, paths, vol).0 == Decide(paths, vol)
  {
    WindowsRowIsDead(paths, vol);
    LiveFamilies(RULES[1..], paths);
  }

  lemma LiveFamilies(rules: seq<Rule>, paths: set<string>)
    requires rules == RULES[1..]
    ensures FamilyOf(FirstMatch(rules, paths))
         == if Hit(paths, "/casper/vmlinuz") then UBUNTU
            else if Hit(paths, "/live/vmlinuz") then
              if Hit(paths, "/live/filesystem.squashfs") then KALI else DEBIAN_LIVE
            else DecideInstaller(paths)
  {
    FirstRows(rules, paths);
    Unrolled(rules, paths);
    SameTail(rules);
    InstallerFamilies(rules[4..], paths);
  }

  lemma SameTail(rules: seq<Rule>)
    requires rules == RULES[1..]
    ensures |rules| == 10 && rules[4..] == RULES[5..]
  {
  }

  lemma InstallerFamilies(rules: seq<Rule>, paths: set<string>)
    requires rules == RULES[5..]
    ensures FamilyOf(FirstMatch(rules, paths)) == DecideInstaller(paths)
  {
    MiddleRows(rules, paths);
    Unrolled(rules, paths);
    LastRows(rules[4..], paths);
    LastTwo(rules[4..], paths);
  }

  lemma FirstRows(rules: seq<Rule>, paths: set<string>)
    requires rules == RULES[1..]
    ensures |rules| == 10
    ensures Matches(paths, rules[0]) <==> Hit(paths, "/casper/vmlinuz")
    ensures Matches(paths, rules[1]) ==> Hit(paths, "/casper/vmlinuz")
    ensures Matches(paths, rules[2]) <==> Hit(paths, "/live/vmlinuz") && Hit(paths, "/live/filesystem.squashfs")
    ensures Matches(paths, rules[3]) <==> Hit(paths, "/live/vmlinuz")
    ensures rules[0].family == UBUNTU && rules[2].family == KALI && rules[3].family == DEBIAN_LIVE
  {
    OneMarker(rules[0], "/casper/vmlinuz", paths);
    TwoMarkers(rules[1], "/casper/vmlinuz", "/.disk/info", paths);
    TwoMarkers(rules[2], "/live/vmlinuz", "/live/filesystem.squashfs", paths);
    OneMarker(rules[3], "/live/vmlinuz", paths);
  }

  lemma MiddleRows(rules: seq<Rule>, paths: set<string>)
    requires rules == RULES[5..]
    ensures |rules| == 6
    ensures Matches(paths, rules[0]) <==> Hit(paths, "/install.amd/vmlinuz")
    ensures Matches(paths, rules[1]) <==> Hit(paths, "/images/pxeboot/vmlinuz")
    ensures Matches(paths, rules[2]) <==> Hit(paths, "/isolinux/vmlinuz") && Hit(paths, "/.treeinfo")
    ensures Matches(paths, rules[3]) <==> Hit(paths, "/arch/boot/x86_64/vmlinuz-linux")
    ensures rules[0].family == DEBIAN_INSTALLER && rules[1].family == rules[2].family == RHEL && rules[3].family == ARCH
    ensures rules[4..] == RULES[9..]
  {
    OneMarker(rules[0], "/install.amd/vmlinuz", paths);
    OneMarker(rules[1], "/images/pxeboot/vmlinuz", paths);
    TwoMarkers(rules[2], "/isolinux/vmlinuz", "/.treeinfo", paths);
    OneMarker(rules[3], "/arch/boot/x86_64/vmlinuz-linux", paths);
  }

  lemma LastRows(rules: seq<Rule>, paths: set<string>)
    requires rules == RULES[9..]
    ensures |rules| == 2
    ensures Matches(paths, rules[0]) <==> Hit(paths, "/boot/vmlinuz-lts")
    ensures Matches(paths, rules[1]) <==> Hit(paths, "/boot/x86_64/loader/linux")
    ensures rules[0].family == ALPINE && rules[1].family == OPENSUSE
  {
    OneMarker(rules[0], "/boot/vmlinuz-lts", paths);
    OneMarker(rules[1], "/boot/x86_64/loader/linux", paths);
  }

  lemma LastTwo(rules: seq<Rule>, paths: set<string>)
    requires |rules| == 2
    ensures FirstMatch(rules, paths)
         == if Matches(paths, rules[0]) then Some(rules[0]) else if Matches(paths, rules[1]) then Some(rules[1]) else None
  {
    assert rules[1..][0] == rules[1] && rules[1..][1..] == [];
    assert FirstMatch(rules[1..][1..], paths) == None;
  }

  // ----- Upper and lower case -----

  predicate IsCapital(c: char) {
    'A' <= c <= 'Z'
  }

  /** The same text but for the case of ASCII letters. */
  ghost predicate SameButCase(s: string, t: string) {
    |s| == |t| && forall k :: 0 <= k < |s| ==>
      || s[k] == t[k]
      || (IsCapital(s[k]) && t[k] as int == s[k] as int + 32)
      || (IsCapital(t[k]) && s[k] as int == t[k] as int + 32)
  }

  ghost predicate IsAscii(s: string) {
    forall k :: 0 <= k < |s| ==> s[k] < '\U{80}'
  }

  ghost predicate NoCapitals(s: string) {
    forall k :: 0 <= k < |s| ==> !IsCapital(s[k])
  }

  lemma LowerExactly(s: string, t: string)
    ensures Lower(s) == t <==> SameButCase(t, s) && NoCapitals(t)
  {
    var l := Lower(s);
    assert SameButCase(l, s) && NoCapitals(l);
    if SameButCase(t, s) && NoCapitals(t) {
      forall k | 0 <= k < |s| ensures t[k] == l[k] {
        assert !IsCapital(t[k]);
      }
      assert t == l;
    }
  }

  /** ASCII text folds to the one text without capitals that differs from it in case alone. */
  lemma FoldExactly(s: string, t: string, joliet: bool)
    requires IsAscii(s)
    ensures Fold(s, joliet) == t <==> SameButCase(t, s) && NoCapitals(t)
  {
    FoldOfAscii(s, joliet);
    LowerExactly(s, t);
  }

  lemma FoldsAlike(s: string, t: string, joliet: bool)
    requires IsAscii(s) && SameButCase(s, t)
    ensures Fold(s, joliet) == Fold(t, joliet)
  {
    assert IsAscii(t);
    FoldOfAscii(s, joliet);
    FoldOfAscii(t, joliet);
    assert Lower(s) == Lower(t);
  }

  /** Joliet names fold character by character; beyond ASCII only two letters change. */
  lemma {:induction false} FoldJoliet(s: string)
    ensures |Fold(s, true)| == |s|
    ensures forall k :: 0 <= k < |s| && s[k] >= '\U{80}' ==>
              Fold(s, true)[k] == if s[k] == '\U{0130}' then 'i' else if s[k] == '\U{212A}' then 'k' else s[k]
  {
    if s != [] {
      FoldJoliet(s[1..]);
      forall k | 0 < k < |s| ensures Fold(s, true)[k] == Fold(s[1..], true)[k - 1] && s[k] == s[1..][k - 1] {}
    }
  }

  /** Plain names are bytes, where those two letters are UTF-8 sequences. */
  lemma FoldPlain(c: char, rest: string)
    ensures Fold(['\U{C4}', '\U{B0}'] + rest, false) == "i" + Fold(rest, false)
    ensures Fold(['\U{E2}', '\U{84}', '\U{AA}'] + rest, false) == "k" + Fold(rest, false)
    ensures c !in {'\U{C4}', '\U{E2}'} ==>
              Fold([c] + rest, false) == [if IsCapital(c) then (c as int + 32) as char else c] + Fold(rest, false)
  {
    var i, k, s := ['\U{C4}', '\U{B0}'] + rest, ['\U{E2}', '\U{84}', '\U{AA}'] + rest, [c] + rest;
    assert i[..2] == ['\U{C4}', '\U{B0}'] && i[2..] == rest;
    assert k[..2][0] == '\U{E2}' && k[..3] == ['\U{E2}', '\U{84}', '\U{AA}'] && k[3..] == rest;
    assert s[1..] == rest && (|s| >= 2 ==> s[..2][0] == c) && (|s| >= 3 ==> s[..3][0] == c);
  }

  /** Writing names and label in other case, as plain images do, changes nothing that is recognised. */
  lemma CaseDoesNotMatter(a: seq<string>, b: seq<string>, joliet: bool, v: string, w: string)
    requires |a| == |b| && forall k :: 0 <= k < |a| ==> IsAscii(a[k]) && SameButCase(a[k], b[k])
    requires IsAscii(v) && SameButCase(v, w)
    ensures var x, y := Describe(a, joliet, v), Describe(b, joliet, w);
            && (x.Analyzed? <==> y.Analyzed?)
            && (x.Analyzed? ==> x.info.family == y.info.family && x.info.distro == y.info.distro)
  {
    FoldsAlike(v, w, false);
    SameFolded(a, b, joliet);
  }

  lemma SameFolded(a: seq<string>, b: seq<string>, joliet: bool)
    requires |a| == |b| && forall k :: 0 <= k < |a| ==> IsAscii(a[k]) && SameButCase(a[k], b[k])
    ensures Folded(a, joliet) == Folded(b, joliet)
  {
    forall k | 0 <= k < |a| ensures Fold(a[k], joliet) == Fold(b[k], joliet) {
      FoldsAlike(a[k], b[k], joliet);
    }
    FoldedWithin(a, b, joliet);
    FoldedWithin(b, a, joliet);
  }

  lemma FoldedWithin(a: seq<string>, b: seq<string>, joliet: bool)
    requires |a| == |b| && forall k :: 0 <= k < |a| ==> Fold(a[k], joliet) == Fold(b[k], joliet)
    ensures Folded(a, joliet) <= Folded(b, joliet)
  {
    forall f | f in a ensures Fold(f, joliet) in Folded(b, joliet) {
      var k :| 0 <= k < |a| && a[k] == f;
      assert b[k] in b;
    }
  }

  // ----- What is looked for, and what is said -----

  ghost predicate SaysAt(s: string, i: int, word: string) {
    0 <= i && i + |word| <= |s| && SameButCase(s[i..i + |word|], word)
  }

  /** Somewhere in the text stands this word, in any case. */
  ghost predicate Says(s: string, word: string) {
    exists i :: SaysAt(s, i, word)
  }

  lemma SaysWhereFolded(s: string, i: int, word: string)
    requires NoCapitals(word)
    ensures At(Lower(s), i, word) <==> SaysAt(s, i, word)
  {
    if 0 <= i && i + |word| <= |s| {
      var part, low := s[i..i + |word|], Lower(s)[i..i + |word|];
      assert forall k :: 0 <= k < |word| ==> low[k] == LowerChar(part[k]);
      if SameButCase(part, word) {
        assert low == word;
      }
    }
  }

  lemma SaysExactly(s: string, word: string, joliet: bool)
    requires IsAscii(s) && NoCapitals(word)
    ensures Contains(Fold(s, joliet), word) <==> Says(s, word)
  {
    FoldOfAscii(s, joliet);
    forall i: int ensures At(Lower(s), i, word) <==> SaysAt(s, i, word) {
      SaysWhereFolded(s, i, word);
    }
  }

  /** The files decide, by what their paths say: a marker occurs when some file has it in any case. */
  lemma FilesDecide(files: seq<string>, joliet: bool, m: string)
    requires NoCapitals(m) && forall f <- files :: IsAscii(f)
    ensures Hit(Folded(files, joliet), m) <==> exists f <- files :: Says(f, m)
  {
    assert Lower(m) == m;
    forall f | f in files ensures Contains(Fold(f, joliet), m) <==> Says(f, m) {
      SaysExactly(f, m, joliet);
    }
    if p :| p in Folded(files, joliet) && Contains(p, m) {
      var f :| f in files && Fold(f, joliet) == p;
      assert Says(f, m);
    }
    if f :| f in files && Says(f, m) {
      assert Fold(f, joliet) in Folded(files, joliet);
    }
  }

  /** The pre-check by name; the label J_CCSA of the program's list is covered by CCSA. */
  lemma WindowsExactly(paths: set<string>, vol: string)
    ensures LooksLikeWindows(paths, vol) <==>
              || Hit(paths, "bootmgr") || Hit(paths, "/sources/install") || Hit(paths, "/sources/boot.wim")
              || Contains(vol, "windows") || Contains(vol, "cccoma") || Contains(vol, "cpba")
              || Contains(vol, "ccsa") || Contains(vol, "cena") || Contains(vol, "sss_x64") || Contains(vol, "server")
  {
    var f, l := WINDOWS_FILES, WINDOWS_LABELS;
    WindowsFiles(f, paths);
    WindowsLabels(l, vol);
  }

  lemma WindowsFiles(f: seq<string>, paths: set<string>)
    requires f == ["bootmgr", "/sources/install", "/sources/boot.wim"]
    ensures (exists m <- f :: Hit(paths, m)) <==>
              Hit(paths, "bootmgr") || Hit(paths, "/sources/install") || Hit(paths, "/sources/boot.wim")
  {
    assert f[0] == "bootmgr" && f[1] == "/sources/install" && f[2] == "/sources/boot.wim";
  }

  lemma WindowsLabels(l: seq<string>, vol: string)
    requires l == ["windows", "cccoma", "cpba", "ccsa", "cena", "sss_x64", "j_ccsa", "server"]
    ensures (exists w <- l :: Contains(vol, w)) <==>
              || Contains(vol, "windows") || Contains(vol, "cccoma") || Contains(vol, "cpba") || Contains(vol, "ccsa")
              || Contains(vol, "cena") || Contains(vol, "sss_x64") || Contains(vol, "server")
  {
    assert l[0] == "windows" && l[1] == "cccoma" && l[2] == "cpba" && l[3] == "ccsa";
    assert l[4] == "cena" && l[5] == "sss_x64" && l[6] == "j_ccsa" && l[7] == "server";
    if Contains(vol, "j_ccsa") {
      assert "j_ccsa"[2..6] == "ccsa";
      assert At("j_ccsa", 2, "ccsa");
      ContainsTrans(vol, "j_ccsa", "ccsa");
    }
  }

  /** Family, distribution and name go together. */
  predicate Named(family: string, distro: string, display: string) {
    || (family == distro == "windows" && display == "Windows")
    || (family == distro == "ubuntu" && display == "Ubuntu")
    || (family == distro == "mint" && display == "Linux Mint")
    || (family == distro == "kali" && display == "Kali Linux")
    || (family == distro == "debian" && display == "Debian Live")
    || (family == "debian_di" && distro == "debian" && display == "Debian Installer")
    || (family == distro == "rhel" && display in {"RHEL/Rocky/Alma/Fedora", "RHEL (anaconda)"})
    || (family == distro == "arch" && display == "Arch Linux")
    || (family == distro == "alpine" && display == "Alpine Linux")
    || (family == distro == "opensuse" && display == "openSUSE")
  }

  lemma RowsAreNamed(rules: seq<Rule>)
    requires rules == RULES
    ensures forall k :: 0 <= k < |rules| ==> Named(rules[k].family, rules[k].distro, rules[k].display)
  {
  }

  /** What is said of an image: a name that goes with its family, or, for one that nothing was
      recognised in, its label and the number of its files. Only such an image with 10 to the 20
      files or more makes the program panic. */
  lemma DescriptionExactly(files: seq<string>, joliet: bool, volume: string)
    ensures var a := Describe(files, joliet, volume);
            && (a.Analyzed? ==>
                  || Named(a.info.family, a.info.distro, a.info.display)
                  || (a.info.family == "generic" && a.info.distro == "linux"
                      && Counted(a.info.display, volume, |files|)))
            && (a.Crash? ==> |files| >= 1_0000_0000_0000_0000_0000)
  {
    RowsAreNamed(RULES);
    ValueOfDigits(|files|);
    assert Counted(GenericDisplay(volume, |files|), volume, |files|);
    TwentyDigits();
  }

  ghost predicate Counted(display: string, volume: string, count: nat) {
    exists d :: AllDigits(d) && Value(d) == count
             && display == "Generic ISO (卷标: " + volume + ", 文件数: " + Plain(d) + ")"
  }

  lemma TwentyDigits()
    ensures Pow10(20) == 1_0000_0000_0000_0000_0000
  {
    assert Pow10(5) == 100000;
    assert Pow10(10) == 1_00000_00000;
    assert Pow10(15) == 1_00000_00000_00000;
  }
}
