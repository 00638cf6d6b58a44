/** The GRUB menu file: one section of indented boot commands per enabled entry, between a fixed
    header and a fixed footer. */
module GrubConfig {
  import opened Sequences
  import opened Text
  import opened Decimal
  import opened Substitution
  import opened GrubText
  import opened MenuStore
  import IsoAnalyze

  datatype Context = Context(base: string, timeout: int, title: string)

  const PLACEHOLDER := "${iso_url}"
  const OPEN_LOOP := "loopback loop \"${isofile}\""

  function IsoUrl(base: string, name: string): string {
    base + "/files/iso/" + name
  }

  // ----- Recipes -----

  /** The kernel, its parameters and the initial ram disk that a family of images is booted with. */
  datatype Linux = Linux(kernel: string, options: string, initrd: string) {
    function Lines(): seq<string> {
      ["linux (loop)" + kernel + " " + options, "initrd (loop)" + initrd]
    }
  }

  const NO_LOOPBACK := ["echo \"Windows ISO cannot boot via GRUB loopback over network.\"",
                        "echo \"Use wimboot method instead (see docs).\"",
                        "sleep 5"]

  const TRY_CONFIGS := ["if [ -e (loop)/boot/grub/grub.cfg ]; then",
                        "  configfile (loop)/boot/grub/grub.cfg",
                        "elif [ -e (loop)/boot/grub/loopback.cfg ]; then",
                        "  configfile (loop)/boot/grub/loopback.cfg",
                        "else",
                        "  echo \"No grub.cfg found inside ISO; cannot auto-boot.\"",
                        "  sleep 5",
                        "fi"]

  function LinuxOf(family: string): Option<Linux> {
    if family == IsoAnalyze.UBUNTU || family == IsoAnalyze.MINT then
      Some(Linux("/casper/vmlinuz", "boot=casper iso-scan/filename=\"${isofile}\" url=\"${isofile}\" ip=dhcp ---",
                 "/casper/initrd"))
    else if family == IsoAnalyze.DEBIAN_LIVE || family == IsoAnalyze.KALI then
      Some(Linux("/live/vmlinuz", "boot=live fetch=\"${isofile}\" ip=dhcp ---", "/live/initrd.img"))
    else if family == IsoAnalyze.DEBIAN_INSTALLER then
      Some(Linux("/install.amd/vmlinuz", "auto=true priority=critical fetch=\"${isofile}\" ip=dhcp ---",
                 "/install.amd/initrd.gz"))
    else if family == IsoAnalyze.RHEL then
      Some(Linux("/images/pxeboot/vmlinuz", "inst.repo=\"${isofile}\" inst.stage2=\"${isofile}\" ip=dhcp",
                 "/images/pxeboot/initrd.img"))
    else if family == IsoAnalyze.ARCH then
      Some(Linux("/arch/boot/x86_64/vmlinuz-linux",
                 "img_dev=/dev/disk/by-label/ARCH img_loop=\"${isofile}\" archisobasedir=arch ip=dhcp",
                 "/arch/boot/x86_64/initramfs-linux.img"))
    else if family == IsoAnalyze.ALPINE then
      Some(Linux("/boot/vmlinuz-lts", "modloop=\"${isofile}\" alpine_repo= ip=dhcp", "/boot/initramfs-lts"))
    else if family == IsoAnalyze.OPENSUSE then
      Some(Linux("/boot/x86_64/loader/linux", "install=\"${isofile}\" ip=dhcp", "/boot/x86_64/loader/initrd"))
    else None
  }

  function BootLines(family: string): seq<string> {
    var linux := LinuxOf(family);
    if linux.Some? then linux.value.Lines()
    else if family == IsoAnalyze.WINDOWS then NO_LOOPBACK
    else TRY_CONFIGS
  }

  function Recipe(family: string, url: string): string {
    Terminated(["set isofile=\"" + url + "\"", OPEN_LOOP] + BootLines(family))
  }

  function Commands(e: Entry, base: string): string {
    if e.customCfg != "" then ReplaceAll(e.customCfg, PLACEHOLDER, IsoUrl(base, e.isoName))
    else Recipe(e.family, IsoUrl(base, e.isoName))
  }

  // ----- The file as sections -----

  const SETUP := ["set default=0", "insmod all_video", "insmod http", "insmod loopback", "insmod iso9660",
                  "insmod part_gpt", "insmod part_msdos", "insmod ntfs"]

  function Bare(lines: seq<string>): (x: seq<Section>)
    ensures |x| == |lines| && forall k :: 0 <= k < |x| ==> x[k] == Section(lines[k], [])
  {
    seq(|lines|, k requires 0 <= k < |lines| => Section(lines[k], []))
  }

  function MenuTitle(ctx: Context): string {
    if ctx.title == "" then "iPXE-ISOboot" else ctx.title
  }

  function TimeoutLine(ctx: Context): string {
    "set timeout=" + Plain(Itoa(ctx.timeout))
  }

  function TitleLine(ctx: Context): string {
    "set menu_title=" + Quote(MenuTitle(ctx))
  }

  function SetupLines(ctx: Context): seq<string> {
    [TimeoutLine(ctx)] + SETUP
  }

  function Header(ctx: Context): seq<Section> {
    Bare(SetupLines(ctx)) + [Section("insmod fat", [""]), Section(TitleLine(ctx), [""])]
  }

  function EntryLine(e: Entry): string {
    "menuentry " + Quote(e.title) + " {"
  }

  function EntrySections(e: Entry, base: string): seq<Section> {
    if e.enabled then [Section(EntryLine(e), IndentedLines(Commands(e, base))), Section("}", [""])] else []
  }

  function Menu(entries: seq<Entry>, base: string): seq<Section> {
    if entries == [] then []
    else Menu(entries[..|entries| - 1], base) + EntrySections(entries[|entries| - 1], base)
  }

  const GUARD := "if [ \"${grub_platform}\" = \"efi\" ]; then"
  const FIRMWARE := "menuentry \"UEFI Firmware" + " Settings\" { fwsetup }"

  const FOOTER := [Section("menuentry \"Reboot\" { reboot }", []),
                   Section("menuentry \"Shutdown\" { halt }", []),
                   Section(GUARD, [IndentLine(FIRMWARE)]),
                   Section("fi", [])]

  function Config(entries: seq<Entry>, ctx: Context): seq<Section> {
    Header(ctx) + Menu(entries, ctx.base) + FOOTER
  }

  // ----- The program -----

  method WriteLines(lines: seq<string>) returns (text: string)
    ensures text == FileText(Bare(lines))
  {
    text := "";
    assert Bare(lines[..0]) == [];
    for i := 0 to |lines|
      invariant text == FileText(Bare(lines[..i]))
    {
      OneMore(Bare(lines[..i]), Section(lines[i], []));
      assert Bare(lines[..i + 1]) == Bare(lines[..i]) + [Section(lines[i], [])];
      text := text + lines[i] + [NL];
    }
    assert lines[..|lines|] == lines;
  }

  method WriteHeader(ctx: Context) returns (text: string)
    ensures text == FileText(Header(ctx))
  {
    var setup := SetupLines(ctx);
    text := WriteLines(setup);
    var title := ctx.title;
    if title == "" {
      title := "iPXE-ISOboot";
    }
    var line := "set menu_title=" + Quote(title);
    HeaderText(setup, "insmod fat", line);
    text := text + "insmod fat" + [NL] + [NL];
    text := text + line + [NL] + [NL];
  }

  lemma HeaderText(lines: seq<string>, a: string, b: string)
    ensures FileText(Bare(lines) + [Section(a, [""]), Section(b, [""])])
         == FileText(Bare(lines)) + a + [NL] + [NL] + b + [NL] + [NL]
  {
    var first := Bare(lines);
    OneMore(first, Section(a, [""]));
    OneMore(first + [Section(a, [""])], Section(b, [""]));
    assert first + [Section(a, [""])] + [Section(b, [""])] == first + [Section(a, [""]), Section(b, [""])];
  }

  method WriteEntry(e: Entry, base: string) returns (r: string)
    requires e.enabled
    ensures r == FileText(EntrySections(e, base))
  {
    var body;
    if e.customCfg != "" {
      body := Indent(ReplaceAll(e.customCfg, PLACEHOLDER, IsoUrl(base, e.isoName)));
    } else {
      body := Indent(Recipe(e.family, IsoUrl(base, e.isoName)));
    }
    EntryText(e, base);
    r := "menuentry " + Quote(e.title) + " {" + [NL] + body + "}" + [NL] + [NL];
  }

  method WriteFooter() returns (text: string)
    ensures text == FileText(FOOTER)
  {
    var f := FOOTER;
    FourTexts(f[0], f[1], f[2], f[3]);
    assert f == [f[0], f[1], f[2], f[3]];
    text := f[0].head + [NL] + f[1].head + [NL];
    text := text + f[2].head + [NL] + f[2].body[0] + [NL] + f[3].head + [NL];
  }

  method Generate(entries: seq<Entry>, ctx: Context) returns (text: string)
    ensures text == FileText(Config(entries, ctx))
  {
    text := WriteHeader(ctx);
    assert Header(ctx) + Menu(entries[..0], ctx.base) == Header(ctx);
    for i := 0 to |entries|
      invariant text == FileText(Header(ctx) + Menu(entries[..i], ctx.base))
    {
      NextEntry(Header(ctx), entries, i, ctx.base);
      if !entries[i].enabled {
        continue;
      }
      var entry := WriteEntry(entries[i], ctx.base);
      text := text + entry;
    }
    assert entries[..|entries|] == entries;
    FileTextAppend(Header(ctx) + Menu(entries, ctx.base), FOOTER);
    var footer := WriteFooter();
    text := text + footer;
  }

  lemma NextEntry(head: seq<Section>, entries: seq<Entry>, i: nat, base: string)
    requires i < |entries|
    ensures FileText(head + Menu(entries[..i + 1], base))
         == FileText(head + Menu(entries[..i], base)) + FileText(EntrySections(entries[i], base))
    ensures !entries[i].enabled ==>
              FileText(head + Menu(entries[..i + 1], base)) == FileText(head + Menu(entries[..i], base))
  {
    assert entries[..i + 1][..i] == entries[..i];
    ConcatAssoc(head, Menu(entries[..i], base), EntrySections(entries[i], base));
    FileTextAppend(head + Menu(entries[..i], base), EntrySections(entries[i], base));
    assert FileText([]) == [];
  }

  lemma OneMore(sections: seq<Section>, x: Section)
    requires |x.body| <= 1
    ensures FileText(sections + [x])
         == FileText(sections) + x.head + [NL] + if x.body == [] then [] else x.body[0] + [NL]
  {
    FileTextAppend(sections, [x]);
    assert Lines([x]) == Lines([]) + [x.head] + x.body == [x.head] + x.body;
    assert ([x.head] + x.body)[1..] == x.body;
    if x.body != [] {
      assert x.body[1..] == [];
      assert Terminated(x.body) == x.body[0] + [NL] + Terminated([]);
    }
  }

  lemma EntryText(e: Entry, base: string)
    requires e.enabled
    ensures FileText(EntrySections(e, base))
         == EntryLine(e) + [NL] + Indented(Commands(e, base)) + "}" + [NL] + [NL]
  {
    var x := Section(EntryLine(e), IndentedLines(Commands(e, base)));
    assert [x] + [Section("}", [""])] == EntrySections(e, base);
    SectionText(x);
    OneMore([x], Section("}", [""]));
    IndentedLinesFacts(Commands(e, base));
  }

  lemma FourTexts(a: Section, b: Section, c: Section, d: Section)
    requires a.body == [] && b.body == [] && |c.body| == 1 && d.body == []
    ensures FileText([a, b, c, d])
         == a.head + [NL] + b.head + [NL] + c.head + [NL] + c.body[0] + [NL] + d.head + [NL]
  {
    OneMore([], a);
    assert FileText([]) == [] && [] + [a] == [a];
    OneMore([a], b);
    OneMore([a] + [b], c);
    OneMore([a] + [b] + [c], d);
    assert [a] + [b] + [c] + [d] == [a, b, c, d];
  }

  // ----- What the file means -----

  lemma HeadByFirst(l: string)
    requires l != [] && l[0] != ' '
    ensures IsHead(l)
  {
    if |l| >= 2 {
      assert l[..2][0] == l[0];
    }
  }

  lemma IndentedAreNotHeads(s: string)
    ensures forall l <- IndentedLines(s) :: !IsHead(l)
  {
    forall k | 0 <= k < |IndentedLines(s)| ensures !IsHead(IndentedLines(s)[k]) {
      var l := Split(TrimRight(s), NL)[k];
      if l != [] {
        assert ("  " + l)[..2] == "  ";
      }
    }
  }

  lemma TimeoutUnbroken(ctx: Context)
    ensures NL !in TimeoutLine(ctx)
  {
    var n := if ctx.timeout < 0 then -ctx.timeout else ctx.timeout;
    ValueOfDigits(n);
    var t := Itoa(ctx.timeout);
    forall k | 0 <= k < |t| ensures t[k] != 10 {
      assert ctx.timeout >= 0 ==> IsDigit(t[k]);
      assert ctx.timeout < 0 && k > 0 ==> t[k] == Digits(n)[k - 1];
    }
    forall k | 0 <= k < |t| ensures Plain(t)[k] != NL {
      assert Plain(t)[k] as int == t[k];
    }
  }

  lemma SetupIsPlain(ctx: Context)
    ensures AllSections(Bare(SetupLines(ctx))) && AllUnbroken(Bare(SetupLines(ctx)))
  {
    TimeoutUnbroken(ctx);
    forall l <- SetupLines(ctx) ensures IsHead(l) && NL !in l {
      HeadByFirst(l);
    }
    PlainBare(SetupLines(ctx));
  }

  lemma FooterIsPlain()
    ensures AllSections(FOOTER) && AllUnbroken(FOOTER)
  {
    var f := FOOTER;
    GuardIsPlain(f[2]);
    LineIsPlain("menuentry \"Reboot\" { reboot }");
    LineIsPlain("menuentry \"Shutdown\" { halt }");
    LineIsPlain("fi");
    FourParts(f[0], f[1], f[2], f[3]);
    assert f == [f[0], f[1], f[2], f[3]];
  }

  lemma LineIsPlain(l: string)
    requires l != [] && l[0] != ' ' && NL !in l
    ensures IsSection(Section(l, [])) && Unbroken(Section(l, []))
  {
    HeadByFirst(l);
  }

  lemma GuardIsPlain(x: Section)
    requires x.head == GUARD && x.body == [IndentLine(FIRMWARE)]
    ensures IsSection(x) && Unbroken(x)
  {
    HeadByFirst(x.head);
    GuardUnbroken();
    FirmwareUnbroken();
    UnindentUndoes(FIRMWARE);
    assert IndentLine(FIRMWARE)[..2] == "  ";
  }

  lemma GuardUnbroken()
    ensures NL !in GUARD
  {
  }

  lemma FirmwareUnbroken()
    ensures NL !in FIRMWARE
  {
  }

  lemma FourParts(a: Section, b: Section, c: Section, d: Section)
    requires IsSection(a) && IsSection(b) && IsSection(c) && IsSection(d)
    requires Unbroken(a) && Unbroken(b) && Unbroken(c) && Unbroken(d)
    ensures AllSections([a, b, c, d]) && AllUnbroken([a, b, c, d])
  {
  }

  lemma PlainBare(lines: seq<string>)
    requires forall l <- lines :: IsHead(l) && NL !in l
    ensures AllSections(Bare(lines)) && AllUnbroken(Bare(lines))
  {
  }

  /** A section with a blank line after it. */
  lemma SpacedIsPlain(head: string)
    requires head != [] && head[0] != ' '
    ensures AllSections([Section(head, [""])])
    ensures AllUnbroken([Section(head, [""])]) <==> NL !in head
  {
    HeadByFirst(head);
    SingleSection(Section(head, [""]));
  }

  lemma HeaderIsPlain(ctx: Context)
    ensures AllSections(Header(ctx))
    ensures AllUnbroken(Header(ctx)) <==> NL !in MenuTitle(ctx)
  {
    SetupIsPlain(ctx);
    SpacedIsPlain("insmod fat");
    SpacedIsPlain(TitleLine(ctx));
    ThreeParts(Bare(SetupLines(ctx)), Section("insmod fat", [""]), Section(TitleLine(ctx), [""]));
    TitleUnbroken(MenuTitle(ctx));
  }

  lemma TitleUnbroken(title: string)
    ensures NL in "set menu_title=" + Quote(title) <==> NL in title
  {
    QuoteIsClosed(title);
  }

  lemma ThreeParts(first: seq<Section>, x: Section, y: Section)
    ensures AllSections(first + [x, y]) <==> AllSections(first) && AllSections([x]) && AllSections([y])
    ensures AllUnbroken(first + [x, y]) <==> AllUnbroken(first) && AllUnbroken([x]) && AllUnbroken([y])
  {
    assert first + [x, y] == first + [x] + [y];
    AppendSections(first, [x]);
    AppendSections(first + [x], [y]);
  }

  lemma EntryIsPlain(e: Entry, base: string)
    requires e.enabled
    ensures AllSections(EntrySections(e, base))
    ensures AllUnbroken(EntrySections(e, base)) <==> NL !in e.title
  {
    var x, y := Section(EntryLine(e), IndentedLines(Commands(e, base))), Section("}", [""]);
    HeadByFirst(EntryLine(e));
    IndentedAreNotHeads(Commands(e, base));
    IndentedLinesFacts(Commands(e, base));
    QuoteIsClosed(e.title);
    assert EntrySections(e, base) == [x] + [y];
    assert NL in EntryLine(e) <==> NL in Quote(e.title);
    SingleSection(x);
    SpacedIsPlain("}");
    AppendSections([x], [y]);
  }

  lemma {:induction false} MenuIsPlain(entries: seq<Entry>, base: string)
    ensures AllSections(Menu(entries, base))
    ensures AllUnbroken(Menu(entries, base)) <==> EnabledUnbroken(entries)
  {
    if entries != [] {
      var n := |entries| - 1;
      var e := entries[n];
      MenuIsPlain(entries[..n], base);
      if e.enabled {
        EntryIsPlain(e, base);
        AppendSections(Menu(entries[..n], base), EntrySections(e, base));
      } else {
        assert Menu(entries, base) == Menu(entries[..n], base);
      }
      assert forall x :: x in entries <==> x in entries[..n] || x == e;
    }
  }

  ghost predicate EnabledUnbroken(entries: seq<Entry>) {
    forall e <- entries :: e.enabled ==> NL !in e.title
  }

  ghost predicate UnbrokenTitles(entries: seq<Entry>, ctx: Context) {
    NL !in ctx.title && EnabledUnbroken(entries)
  }

  /** Whatever the boot commands are, the file divides at its unindented lines into exactly the
      header, the enabled entries in order with their own commands, and the footer; titles are the
      only thing that can spoil this, and they do whenever one holds a newline. */
  lemma {:induction false} FileReadsBack(entries: seq<Entry>, ctx: Context)
    ensures Sections(LinesOf(FileText(Config(entries, ctx)))) == Config(entries, ctx)
       <==> UnbrokenTitles(entries, ctx)
  {
    HeaderIsPlain(ctx);
    FooterIsPlain();
    MenuReadsBack(Header(ctx), entries, ctx.base, FOOTER);
  }

  lemma MenuReadsBack(head: seq<Section>, entries: seq<Entry>, base: string, foot: seq<Section>)
    requires AllSections(head) && AllSections(foot) && AllUnbroken(foot)
    ensures Sections(LinesOf(FileText(head + Menu(entries, base) + foot))) == head + Menu(entries, base) + foot
       <==> AllUnbroken(head) && EnabledUnbroken(entries)
  {
    MenuIsPlain(entries, base);
    PartsReadBack(head, Menu(entries, base), foot);
  }

  /** How a title with a newline is read: the entry falls apart into a section for the first line
      of the title, with no commands, and one for the second, with all of them. */
  lemma BrokenTitle(e: Entry, ctx: Context, a: string, b: string)
    requires e.enabled && e.title == a + [NL] + b && NL !in a && NL !in b && (b == [] || b[0] != ' ')
    requires NL !in ctx.title
    ensures Sections(LinesOf(FileText(Config([e], ctx))))
         == Header(ctx) + Halves(a, b, Commands(e, ctx.base)) + FOOTER
  {
    HeaderIsPlain(ctx);
    FooterIsPlain();
    BrokenTitleBetween(Header(ctx), FOOTER, e, ctx.base, a, b);
  }

  lemma BrokenTitleBetween(head: seq<Section>, foot: seq<Section>, e: Entry, base: string, a: string, b: string)
    requires AllSections(head) && AllUnbroken(head) && AllSections(foot) && AllUnbroken(foot)
    requires e.enabled && e.title == a + [NL] + b && NL !in a && NL !in b && (b == [] || b[0] != ' ')
    ensures Sections(LinesOf(FileText(head + Menu([e], base) + foot)))
         == head + Halves(a, b, Commands(e, base)) + foot
  {
    HalvesArePlain(a, b, Commands(e, base));
    HalvesText(e, base, a, b);
    MenuOfOne(e, base);
    SameTextReads(head, Halves(a, b, Commands(e, base)), Menu([e], base), foot);
  }

  lemma MenuOfOne(e: Entry, base: string)
    ensures Menu([e], base) == EntrySections(e, base)
  {
    assert [e][..0] == [];
    assert Menu([e], base) == Menu([], base) + EntrySections(e, base);
  }

  function FirstLine(a: string): Section {
    Section("menuentry " + (['"'] + EscapeQuotes(a)), [])
  }

  function SecondLine(b: string, commands: string): Section {
    Section(EscapeQuotes(b) + ['"'] + " {", IndentedLines(commands))
  }

  function Halves(a: string, b: string, commands: string): seq<Section> {
    [FirstLine(a)] + [SecondLine(b, commands)] + [Section("}", [""])]
  }

  lemma FirstLineIsPlain(a: string)
    requires NL !in a
    ensures AllSections([FirstLine(a)]) && AllUnbroken([FirstLine(a)])
  {
    ReplaceOne(a, '"', '\'');
    LineIsPlain(FirstLine(a).head);
    SingleSection(FirstLine(a));
  }

  lemma SecondLineIsPlain(b: string, commands: string)
    requires NL !in b && (b == [] || b[0] != ' ')
    ensures AllSections([SecondLine(b, commands)]) && AllUnbroken([SecondLine(b, commands)])
  {
    ReplaceOne(b, '"', '\'');
    HeadByFirst(SecondLine(b, commands).head);
    IndentedAreNotHeads(commands);
    IndentedLinesFacts(commands);
    SingleSection(SecondLine(b, commands));
  }

  lemma HalvesArePlain(a: string, b: string, commands: string)
    requires NL !in a && NL !in b && (b == [] || b[0] != ' ')
    ensures AllSections(Halves(a, b, commands)) && AllUnbroken(Halves(a, b, commands))
  {
    FirstLineIsPlain(a);
    SecondLineIsPlain(b, commands);
    SpacedIsPlain("}");
    AppendSections([FirstLine(a)], [SecondLine(b, commands)]);
    AppendSections([FirstLine(a)] + [SecondLine(b, commands)], [Section("}", [""])]);
  }

  lemma EscapedHalves(a: string, b: string)
    ensures EscapeQuotes(a + [NL] + b) == EscapeQuotes(a) + [NL] + EscapeQuotes(b)
  {
    ReplaceOne(a, '"', '\'');
    ReplaceOne(b, '"', '\'');
    ReplaceOne(a + [NL] + b, '"', '\'');
  }

  lemma HalvesText(e: Entry, base: string, a: string, b: string)
    requires e.enabled && e.title == a + [NL] + b
    ensures FileText(Halves(a, b, Commands(e, base))) == FileText(EntrySections(e, base))
  {
    var commands := Commands(e, base);
    EntryText(e, base);
    BrokenLine(e, a, b);
    HalfTexts(FirstLine(a), SecondLine(b, commands), commands);
  }

  lemma BrokenLine(e: Entry, a: string, b: string)
    requires e.title == a + [NL] + b
    ensures EntryLine(e) == FirstLine(a).head + [NL] + SecondLine(b, "").head
  {
    EscapedHalves(a, b);
  }

  lemma HalfTexts(first: Section, x: Section, commands: string)
    requires first.body == [] && x.body == IndentedLines(commands)
    ensures FileText([first] + [x] + [Section("}", [""])])
         == first.head + [NL] + x.head + [NL] + Indented(commands) + "}" + [NL] + [NL]
  {
    HeadText(first);
    SectionText(x);
    IndentedLinesFacts(commands);
    FileTextAppend([first], [x]);
    ConcatAssoc(first.head + [NL], x.head + [NL], Indented(commands));
    ConcatAssoc(first.head + [NL], x.head, [NL]);
    OneMore([first] + [x], Section("}", [""]));
  }

  lemma HeadText(x: Section)
    requires x.body == []
    ensures FileText([x]) == x.head + [NL]
  {
    SectionText(x);
    assert Terminated([]) == "";
  }

  lemma SectionText(x: Section)
    ensures FileText([x]) == x.head + [NL] + Terminated(x.body)
  {
    assert Lines([x]) == Lines([]) + [x.head] + x.body == [x.head] + x.body;
    assert ([x.head] + x.body)[1..] == x.body;
  }

  const BROKEN := Entry("1", ['a', NL, 'b'], "x.iso", true, 0, "", IsoAnalyze.GENERIC, "halt", 1)

  /** The shortest case: for the title "a", newline, "b" the file is not the menu it should be. */
  lemma NewlineTitleBreaksMenu(ctx: Context, e: Entry)
    requires NL !in ctx.title && e == BROKEN
    ensures var file := Sections(LinesOf(FileText(Config([e], ctx))));
            && file == Header(ctx) + Halves("a", "b", Commands(e, ctx.base)) + FOOTER
            && file != Config([e], ctx)
  {
    BrokenParts(e);
    BrokenTitle(e, ctx, "a", "b");
    BrokenIsWrong(e, ctx);
  }

  lemma BrokenParts(e: Entry)
    requires e == BROKEN
    ensures e.enabled && e.title == "a" + [NL] + "b" && NL !in "a" && NL !in "b"
  {
  }

  lemma BrokenIsWrong(e: Entry, ctx: Context)
    requires e.enabled && NL in e.title
    ensures Sections(LinesOf(FileText(Config([e], ctx)))) != Config([e], ctx)
  {
    FileReadsBack([e], ctx);
    assert e in [e];
  }

  // ----- The commands of the entries -----

  predicate Boots(x: Section) {
    "menuentry " <= x.head && x.head[|x.head| - 1] == '{'
  }

  /** The entries with a body, each with its commands at the left margin. */
  function Bodies(sections: seq<Section>): seq<(string, string)> {
    if sections == [] then []
    else
      var x := sections[|sections| - 1];
      Bodies(sections[..|sections| - 1])
      + if Boots(x) then [(x.head, Terminated(UnindentedLines(x.body)))] else []
  }

  function Enabled(entries: seq<Entry>, base: string): seq<(string, string)> {
    if entries == [] then []
    else
      var e := entries[|entries| - 1];
      Enabled(entries[..|entries| - 1], base)
      + if e.enabled then [(EntryLine(e), TrimRight(Commands(e, base)) + [NL])] else []
  }

  lemma {:induction false} BodiesAppend(a: seq<Section>, b: seq<Section>)
    ensures Bodies(a + b) == Bodies(a) + Bodies(b)
  {
    if b == [] {
      assert a + b == a;
    } else {
      assert (a + b)[..|a + b| - 1] == a + b[..|b| - 1];
      BodiesAppend(a, b[..|b| - 1]);
    }
  }

  lemma {:induction false} NoBodies(sections: seq<Section>)
    requires forall x <- sections :: !Boots(x)
    ensures Bodies(sections) == []
  {
    if sections != [] {
      NoBodies(sections[..|sections| - 1]);
    }
  }

  lemma NotBoots(x: Section)
    requires x.head != [] && (x.head[0] != 'm' || x.head[|x.head| - 1] != '{')
    ensures !Boots(x)
  {
    if "menuentry " <= x.head {
      assert x.head[0] == "menuentry "[0];
    }
  }

  lemma EntryBoots(e: Entry, body: seq<string>)
    ensures Boots(Section(EntryLine(e), body))
  {
    assert EntryLine(e) == "menuentry " + (Quote(e.title) + " {");
    assert EntryLine(e)[|EntryLine(e)| - 1] == '{';
  }

  lemma Unindented(commands: string)
    ensures Terminated(UnindentedLines(IndentedLines(commands))) == TrimRight(commands) + [NL]
  {
    IndentUndone(commands);
    IndentedLinesFacts(commands);
    LinesReadBack(IndentedLines(commands));
  }

  lemma OneBody(x: Section, y: Section)
    requires Boots(x) && !Boots(y)
    ensures Bodies([x] + [y]) == [(x.head, Terminated(UnindentedLines(x.body)))]
  {
    NoBodies([y]);
    BodiesAppend([x], [y]);
    assert Bodies([x][..0]) == [];
  }

  lemma EntryBodies(e: Entry, base: string)
    requires e.enabled
    ensures Bodies(EntrySections(e, base)) == [(EntryLine(e), TrimRight(Commands(e, base)) + [NL])]
  {
    var x, y := Section(EntryLine(e), IndentedLines(Commands(e, base))), Section("}", [""]);
    EntryBoots(e, x.body);
    NotBoots(y);
    OneBody(x, y);
    assert EntrySections(e, base) == [x] + [y];
    Unindented(Commands(e, base));
  }

  lemma {:induction false} MenuBodies(entries: seq<Entry>, base: string)
    ensures Bodies(Menu(entries, base)) == Enabled(entries, base)
  {
    if entries != [] {
      var n := |entries| - 1;
      MenuBodies(entries[..n], base);
      BodiesAppend(Menu(entries[..n], base), EntrySections(entries[n], base));
      if entries[n].enabled {
        EntryBodies(entries[n], base);
      }
    }
  }

  lemma HeaderHasNoBodies(ctx: Context)
    ensures Bodies(Header(ctx)) == []
  {
    var x, y := Section("insmod fat", [""]), Section(TitleLine(ctx), [""]);
    var lines := SetupLines(ctx);
    forall s <- Bare(lines) ensures !Boots(s) {
      NotBoots(s);
    }
    NotBoots(x);
    NotBoots(y);
    NoBodies(Header(ctx));
  }

  lemma FooterHasNoBodies()
    ensures Bodies(FOOTER) == []
  {
    var f := FOOTER;
    NotBoots(f[0]);
    NotBoots(f[1]);
    NotBoots(f[2]);
    NotBoots(f[3]);
    NoBodies(f);
  }

  /** Read from the file alone: each enabled entry under its own title with exactly its commands,
      trailing newlines aside. */
  lemma {:induction false} CommandsReadBack(entries: seq<Entry>, ctx: Context)
    requires UnbrokenTitles(entries, ctx)
    ensures Bodies(Sections(LinesOf(FileText(Config(entries, ctx))))) == Enabled(entries, ctx.base)
  {
    FileReadsBack(entries, ctx);
    HeaderHasNoBodies(ctx);
    FooterHasNoBodies();
    MenuBodies(entries, ctx.base);
    BodiesAppend(Header(ctx), Menu(entries, ctx.base));
    BodiesAppend(Header(ctx) + Menu(entries, ctx.base), FOOTER);
  }

  // ----- The placeholder -----

  /** For any base that is an http address, no custom fragment keeps the placeholder exactly when the
      address of the image neither holds it nor ends in a beginning of it. */
  lemma PlaceholderGone(base: string, name: string)
    requires "http" <= base
    ensures (forall s: string :: !Contains(ReplaceAll(s, PLACEHOLDER, IsoUrl(base, name)), PLACEHOLDER))
       <==> Safe(PLACEHOLDER, IsoUrl(base, name))
    ensures '$' !in base && '$' !in name ==> Safe(PLACEHOLDER, IsoUrl(base, name))
  {
    var url := IsoUrl(base, name);
    assert url[0] == base[0] == "http"[0];
    OnePassIsEnough(PLACEHOLDER, url);
    if '$' !in base && '$' !in name {
      assert '$' !in url;
      NoDollar(url, PLACEHOLDER);
    }
  }

  lemma FirstOccurs(r: string, i: int, q: string)
    requires At(r, i, q) && q != []
    ensures q[0] in r
  {
    assert r[i..i + |q|][0] == r[i];
  }

  lemma NoDollar(r: string, p: string)
    requires p != [] && p[0] !in r
    ensures Safe(p, r)
  {
    forall i: int, k: int | 0 < k <= |p| ensures !At(r, i, p[..k]) {
      if At(r, i, p[..k]) {
        FirstOccurs(r, i, p[..k]);
        assert false;
      }
    }
    assert p[..|p|] == p;
  }

  // ----- Recipes and classification -----

  /** Mint images are taken for Ubuntu, but that is harmless: neither dropping the Mint row nor
      letting it come first changes the recipe of any image. */
  lemma {:induction false} MintRowChangesNoRecipe(paths: set<string>, volume: string, url: string)
    ensures var rules := IsoAnalyze.RULES;
            var recipe := Recipe(IsoAnalyze.Classify(rules, paths, volume).0, url);
            && recipe == Recipe(IsoAnalyze.Classify(rules[..2] + rules[3..], paths, volume).0, url)
            && recipe == Recipe(IsoAnalyze.Classify(MintFirst(rules), paths, volume).0, url)
  {
    var rules := IsoAnalyze.RULES;
    IsoAnalyze.MintIsDead(paths, volume);
    UbuntuShadowsMint(rules, paths);
    SwappedFamilies(rules, paths, volume);
    RecipeOf(IsoAnalyze.Classify(rules, paths, volume).0, IsoAnalyze.Classify(MintFirst(rules), paths, volume).0, url);
  }

  lemma RecipeOf(f: string, g: string, url: string)
    requires f == g || (f == IsoAnalyze.UBUNTU && g == IsoAnalyze.MINT)
    ensures Recipe(f, url) == Recipe(g, url)
  {
    if f != g {
      SameRecipe(url);
    }
  }

  function MintFirst(rules: seq<IsoAnalyze.Rule>): seq<IsoAnalyze.Rule>
    requires |rules| > 4
  {
    [rules[0], rules[2], rules[1], rules[3]] + rules[4..]
  }

  lemma SameRecipe(url: string)
    ensures Recipe(IsoAnalyze.MINT, url) == Recipe(IsoAnalyze.UBUNTU, url)
  {
    assert LinuxOf(IsoAnalyze.MINT) == LinuxOf(IsoAnalyze.UBUNTU);
  }

  lemma UbuntuShadowsMint(rules: seq<IsoAnalyze.Rule>, paths: set<string>)
    requires rules == IsoAnalyze.RULES
    ensures |rules| > 4 && rules[1].family == IsoAnalyze.UBUNTU && rules[2].family == IsoAnalyze.MINT
    ensures IsoAnalyze.Matches(paths, rules[2]) ==> IsoAnalyze.Matches(paths, rules[1])
  {
    IsoAnalyze.OnlyMint(rules);
    IsoAnalyze.ShadowedBySharing(rules[1], rules[2], "/casper/vmlinuz");
    if IsoAnalyze.Matches(paths, rules[2]) {
      IsoAnalyze.ShadowedRulesMatchLess(rules[1], rules[2], paths);
    }
  }

  lemma SwappedFamilies(rules: seq<IsoAnalyze.Rule>, paths: set<string>, volume: string)
    requires |rules| > 4
    requires IsoAnalyze.Matches(paths, rules[2]) ==> IsoAnalyze.Matches(paths, rules[1])
    ensures var was, now := IsoAnalyze.Classify(rules, paths, volume).0,
                            IsoAnalyze.Classify(MintFirst(rules), paths, volume).0;
            was == now || (was == rules[1].family && now == rules[2].family)
  {
    IsoAnalyze.Unrolled(rules, paths);
    IsoAnalyze.Unrolled(MintFirst(rules), paths);
    assert MintFirst(rules)[4..] == rules[4..];
  }

  // ----- The body of an entry, as the file has it -----

  /** The file, read back, has an entry under this title line with this body. */
  ghost predicate Has(file: string, line: string, body: string) {
    (line, body) in Bodies(Sections(LinesOf(file)))
  }

  lemma {:induction false} EnabledHas(entries: seq<Entry>, base: string, e: Entry)
    requires e in entries && e.enabled
    ensures (EntryLine(e), TrimRight(Commands(e, base)) + [NL]) in Enabled(entries, base)
  {
    var n := |entries| - 1;
    if e != entries[n] {
      assert e in entries[..n];
      EnabledHas(entries[..n], base, e);
    }
  }

  lemma EntryIsThere(entries: seq<Entry>, ctx: Context, e: Entry)
    requires UnbrokenTitles(entries, ctx) && e in entries && e.enabled
    ensures Has(FileText(Config(entries, ctx)), "menuentry " + Quote(e.title) + " {",
                TrimRight(Commands(e, ctx.base)) + [NL])
  {
    CommandsReadBack(entries, ctx);
    EnabledHas(entries, ctx.base, e);
  }

  /** A custom fragment stands in the file with the address of the image in place of each placeholder
      and everything else as it was, trailing newlines aside; and for an http address without `$`
      no placeholder is left. */
  lemma CustomBody(entries: seq<Entry>, ctx: Context, e: Entry)
    requires UnbrokenTitles(entries, ctx) && e in entries && e.enabled && e.customCfg != ""
    ensures var address := ctx.base + "/files/iso/" + e.isoName;
            var body := TrimRight(Weave(Gaps(e.customCfg, "${iso_url}"), address)) + [NL];
            && Has(FileText(Config(entries, ctx)), "menuentry " + Quote(e.title) + " {", body)
            && ("http" <= ctx.base && '$' !in ctx.base && '$' !in e.isoName ==> !Contains(body, "${iso_url}"))
  {
    EntryIsThere(entries, ctx, e);
    if "http" <= ctx.base && '$' !in ctx.base && '$' !in e.isoName {
      NothingLeft(e.customCfg, ctx.base, e.isoName);
    }
  }

  lemma NothingLeft(fragment: string, base: string, name: string)
    requires "http" <= base && '$' !in base && '$' !in name
    ensures !Contains(TrimRight(ReplaceAll(fragment, PLACEHOLDER, IsoUrl(base, name))) + [NL], PLACEHOLDER)
  {
    PlaceholderGone(base, name);
    NoneInBody(ReplaceAll(fragment, PLACEHOLDER, IsoUrl(base, name)), PLACEHOLDER);
  }

  lemma NoneInBody(s: string, p: string)
    requires p != [] && p[|p| - 1] != NL && !Contains(s, p)
    ensures !Contains(TrimRight(s) + [NL], p)
  {
    var t := TrimRight(s);
    forall i: int | 0 <= i ensures !At(t + [NL], i, p) {
      if At(t + [NL], i, p) {
        LastOccurs(t, i, p);
        PrefixAt(s, |t|, i, p);
        assert false;
      }
    }
  }

  lemma LastOccurs(t: string, i: nat, p: string)
    requires p != [] && p[|p| - 1] != NL && At(t + [NL], i, p)
    ensures At(t, i, p)
  {
    var all := t + [NL];
    assert all[i..i + |p|][|p| - 1] == all[i + |p| - 1];
    assert all[i..i + |p|] == t[i..i + |p|];
  }

  /** Without a fragment, the entry first sets the address of its image, then opens the image, and
      goes on with the commands of its family. */
  lemma RecipeBody(entries: seq<Entry>, ctx: Context, e: Entry)
    requires UnbrokenTitles(entries, ctx) && e in entries && e.enabled && e.customCfg == ""
    ensures var start := "set isofile=\"" + (ctx.base + "/files/iso/" + e.isoName) + "\"" + [NL]
                         + "loopback loop \"${isofile}\"";
            var body := TrimRight(start + [NL] + Terminated(BootLines(e.family))) + [NL];
            && Has(FileText(Config(entries, ctx)), "menuentry " + Quote(e.title) + " {", body)
            && start <= body
  {
    var url := IsoUrl(ctx.base, e.isoName);
    EntryIsThere(entries, ctx, e);
    TwoLines("set isofile=\"" + url + "\"", OPEN_LOOP, BootLines(e.family));
    StartIsKept("set isofile=\"" + url + "\"" + [NL], OPEN_LOOP, Terminated(BootLines(e.family)));
  }

  lemma TwoLines(a: string, b: string, more: seq<string>)
    ensures Terminated([a, b] + more) == a + [NL] + b + [NL] + Terminated(more)
  {
    var all := [a, b] + more;
    assert all[1..] == [b] + more && all[1..][1..] == more;
    assert Terminated(all[1..]) == b + [NL] + Terminated(more);
    ConcatAssoc(a + [NL], b + [NL], Terminated(more));
    ConcatAssoc(a + [NL], b, [NL]);
  }

  lemma StartIsKept(a: string, b: string, more: string)
    requires b != [] && b[|b| - 1] != NL
    ensures a + b <= TrimRight(a + b + [NL] + more) + [NL]
  {
    var s := a + b + [NL] + more;
    var n := |a + b|;
    assert s[n - 1] == b[|b| - 1];
    assert |TrimRight(s)| >= n;
    assert s[..n] == a + b;
  }

  /** The settings in front of the entries: the timeout in decimal, the first entry as default, and
      the quoted title. */
  lemma SettingsReadBack(entries: seq<Entry>, ctx: Context)
    requires UnbrokenTitles(entries, ctx)
    ensures var file := Sections(LinesOf(FileText(Config(entries, ctx))));
            && |file| >= 11
            && file[0] == Section("set timeout=" + Plain(Itoa(ctx.timeout)), [])
            && file[1] == Section("set default=0", [])
            && file[10] == Section(
                 "set menu_title=" + Quote(if ctx.title == "" then "iPXE-ISOboot" else ctx.title), [""])
  {
    FileReadsBack(entries, ctx);
    HeaderSections(ctx);
    assert Config(entries, ctx) == Header(ctx) + (Menu(entries, ctx.base) + FOOTER);
  }

  lemma HeaderSections(ctx: Context)
    ensures var h := Header(ctx);
            && |h| == 11
            && h[0] == Section("set timeout=" + Plain(Itoa(ctx.timeout)), [])
            && h[1] == Section("set default=0", [])
            && h[10] == Section("set menu_title=" + Quote(if ctx.title == "" then "iPXE-ISOboot" else ctx.title), [""])
  {
    var lines := SetupLines(ctx);
    assert lines[0] == TimeoutLine(ctx) && lines[1] == SETUP[0];
  }

  // ----- Kernels -----

  /** The first command for a family loads this file of the image as kernel. */
  predicate Loads(family: string, kernel: string) {
    BootLines(family) != [] && "linux (loop)" + kernel + " " <= BootLines(family)[0]
  }

  lemma LoadsItsKernel(family: string, linux: Linux)
    requires LinuxOf(family) == Some(linux)
    ensures Loads(family, linux.kernel)
  {
    ConcatAssoc("linux (loop)" + linux.kernel, " ", linux.options);
  }

  /** What is loaded for a family that boots a kernel. */
  function KernelFor(family: string): string {
    if family == "ubuntu" then "/casper/vmlinuz"
    else if family == "kali" || family == "debian" then "/live/vmlinuz"
    else if family == "debian_di" then "/install.amd/vmlinuz"
    else if family == "rhel" then "/images/pxeboot/vmlinuz"
    else if family == "arch" then "/arch/boot/x86_64/vmlinuz-linux"
    else if family == "alpine" then "/boot/vmlinuz-lts"
    else "/boot/x86_64/loader/linux"
  }

  predicate HasKernel(family: string) {
    family in {"ubuntu", "kali", "debian", "debian_di", "rhel", "arch", "alpine", "opensuse"}
  }

  ghost predicate Agree(family: string) {
    LinuxOf(family).Some? && LinuxOf(family).value.kernel == KernelFor(family)
  }

  lemma LiveKernelsAgree(family: string)
    ensures family in {"ubuntu", "kali", "debian"} ==> Agree(family)
  {
  }

  lemma InstallerKernelsAgree(family: string)
    ensures family in {"debian_di", "rhel"} ==> Agree(family)
  {
  }

  lemma OtherKernelsAgree(family: string)
    ensures family in {"arch", "alpine", "opensuse"} ==> Agree(family)
  {
  }

  lemma KernelsAgree(family: string)
    requires HasKernel(family)
    ensures Agree(family)
  {
    LiveKernelsAgree(family);
    InstallerKernelsAgree(family);
    OtherKernelsAgree(family);
  }

  lemma KernelsLoaded(family: string)
    requires HasKernel(family)
    ensures Loads(family, KernelFor(family))
  {
    KernelsAgree(family);
    LoadsItsKernel(family, LinuxOf(family).value);
  }

  /** The kernel to be booted is there. */
  ghost predicate Bootable(paths: set<string>, family: string) {
    HasKernel(family) && IsoAnalyze.Hit(paths, KernelFor(family))
  }

  lemma InstallerBoots(paths: set<string>)
    ensures var family := IsoAnalyze.DecideInstaller(paths);
            if family == "rhel" then Bootable(paths, family) <==> IsoAnalyze.Hit(paths, "/images/pxeboot/vmlinuz")
            else family == "generic" || Bootable(paths, family)
  {
  }

  lemma DecidedBoots(paths: set<string>, volume: string)
    ensures var family := IsoAnalyze.Decide(paths, volume);
            if family == "rhel" then Bootable(paths, family) <==> IsoAnalyze.Hit(paths, "/images/pxeboot/vmlinuz")
            else family in {"windows", "generic"} || Bootable(paths, family)
  {
    InstallerBoots(paths);
  }

  /** The kernel that an entry boots is one of the files by which its image was recognised, for every
      image but one kind: those taken for RHEL by `/isolinux/vmlinuz` and `/.treeinfo` alone. */
  lemma KernelIsThere(paths: set<string>, volume: string)
    ensures var family := IsoAnalyze.Classify(IsoAnalyze.RULES, paths, volume).0;
            && (HasKernel(family) ==> Loads(family, KernelFor(family)))
            && if family == "rhel" then Bootable(paths, family) <==> IsoAnalyze.Hit(paths, "/images/pxeboot/vmlinuz")
               else family in {"windows", "generic"} || Bootable(paths, family)
  {
    IsoAnalyze.FamiliesExactly(paths, volume);
    DecidedBoots(paths, volume);
    if HasKernel(IsoAnalyze.Decide(paths, volume)) {
      KernelsLoaded(IsoAnalyze.Decide(paths, volume));
    }
  }

  lemma Lacks(p: string, c: char, m: string)
    requires c in m && c !in p
    ensures !Contains(p, m)
  {
  }

  /** No path holds this marker: one letter of it is missing in each. */
  lemma NoHit(p: string, q: string, m: string, c: char, d: char)
    requires IsoAnalyze.NoCapitals(m) && c in m && d in m && c !in p && d !in q
    ensures !IsoAnalyze.Hit({p, q}, m)
  {
    assert IsoAnalyze.Lower(m) == m;
    Lacks(p, c, m);
    Lacks(q, d, m);
  }

  lemma IsolinuxLetters(p: string, q: string)
    requires p == "/isolinux/vmlinuz" && q == "/.treeinfo"
    ensures 'b' !in p && 'c' !in p && 'd' !in p && 'e' !in p && 'g' !in p
    ensures 'b' !in q && 'c' !in q && 'd' !in q && 'l' !in q && 'g' !in q
  {
  }

  lemma NoWindows(p: string, q: string)
    requires 'b' !in p && 'c' !in p && 'b' !in q && 'c' !in q
    ensures !IsoAnalyze.Hit({p, q}, "bootmgr") && !IsoAnalyze.Hit({p, q}, "/sources/install")
    ensures !IsoAnalyze.Hit({p, q}, "/sources/boot.wim")
  {
    NoHit(p, q, "bootmgr", 'b', 'b');
    NoHit(p, q, "/sources/install", 'c', 'c');
    NoHit(p, q, "/sources/boot.wim", 'c', 'c');
  }

  lemma NoLive(p: string, q: string)
    requires 'c' !in p && 'e' !in p && 'c' !in q && 'l' !in q
    ensures !IsoAnalyze.Hit({p, q}, "/casper/vmlinuz") && !IsoAnalyze.Hit({p, q}, "/live/vmlinuz")
  {
    NoHit(p, q, "/casper/vmlinuz", 'c', 'c');
    NoHit(p, q, "/live/vmlinuz", 'e', 'l');
  }

  lemma NoInstaller(p: string, q: string)
    requires 'd' !in p && 'g' !in p && 'd' !in q && 'g' !in q
    ensures !IsoAnalyze.Hit({p, q}, "/install.amd/vmlinuz") && !IsoAnalyze.Hit({p, q}, "/images/pxeboot/vmlinuz")
  {
    NoHit(p, q, "/install.amd/vmlinuz", 'd', 'd');
    NoHit(p, q, "/images/pxeboot/vmlinuz", 'g', 'g');
  }

  lemma IsolinuxHits(p: string, q: string)
    requires p == "/isolinux/vmlinuz" && q == "/.treeinfo"
    ensures IsoAnalyze.Hit({p, q}, "/isolinux/vmlinuz") && IsoAnalyze.Hit({p, q}, "/.treeinfo")
  {
    assert IsoAnalyze.Lower(p) == p && IsoAnalyze.Lower(q) == q;
    assert At(p, 0, p) && At(q, 0, q);
  }

  lemma NoLabel()
    ensures forall w :: w != "" ==> !Contains("", w)
  {
  }

  /** The smallest image of that kind: it is taken for RHEL and has no kernel to boot. */
  lemma RhelWithoutKernel(p: string, q: string)
    requires p == "/isolinux/vmlinuz" && q == "/.treeinfo"
    ensures IsoAnalyze.Classify(IsoAnalyze.RULES, {p, q}, "").0 == "rhel" && !Bootable({p, q}, "rhel")
  {
    IsolinuxLetters(p, q);
    NoWindows(p, q);
    NoLive(p, q);
    NoInstaller(p, q);
    IsolinuxHits(p, q);
    NoLabel();
    IsoAnalyze.WindowsExactly({p, q}, "");
    IsoAnalyze.FamiliesExactly({p, q}, "");
  }
}
