/** Lines of a menu file: writing and reading them, indenting, quoting. */
module GrubText {
  import opened Sequences
  import opened Text
  import opened Substitution

  const NL := '\n'

  // ----- Trailing newlines -----

  function TrimRight(s: string): (t: string)
    ensures t <= s
    ensures t == [] || t[|t| - 1] != NL
    ensures forall i :: |t| <= i < |s| ==> s[i] == NL
  {
    if s != [] && s[|s| - 1] == NL then TrimRight(s[..|s| - 1]) else s
  }

  // ----- Terminated lines -----

  function Terminated(lines: seq<string>): string {
    if lines == [] then [] else lines[0] + [NL] + Terminated(lines[1..])
  }

  /** The lines of a text, each ended by a newline; what follows the last newline is dropped. */
  function LinesOf(text: string): (lines: seq<string>) {
    var all := Split(text, NL);
    all[..|all| - 1]
  }

  lemma {:induction false} TerminatedAppend(a: seq<string>, b: seq<string>)
    ensures Terminated(a + b) == Terminated(a) + Terminated(b)
  {
    if a == [] {
      assert a + b == b;
    } else {
      assert (a + b)[1..] == a[1..] + b;
      TerminatedAppend(a[1..], b);
      ConcatAssoc(a[0] + [NL], Terminated(a[1..]), Terminated(b));
    }
  }

  lemma {:induction false} TerminatedIsJoin(lines: seq<string>)
    requires lines != []
    ensures Terminated(lines) == Join(lines, NL) + [NL]
  {
    if |lines| > 1 {
      TerminatedIsJoin(lines[1..]);
      ConcatAssoc(lines[0] + [NL], Join(lines[1..], NL), [NL]);
    } else {
      assert Terminated(lines[1..]) == [];
    }
  }

  lemma {:induction false} SplitOfTerminated(lines: seq<string>)
    requires Free(lines, NL)
    ensures Split(Terminated(lines), NL) == lines + [[]]
  {
    if lines == [] {
      assert Split<char>([], NL) == [[]];
    } else {
      SplitOfTerminated(lines[1..]);
      SplitAppend(lines[0], Terminated(lines[1..]), NL);
      SplitOfFree(lines[0], NL);
      assert [lines[0]] + lines[1..] == lines;
    }
  }

  /** The lines written are the lines read exactly when none of them holds a newline. */
  lemma LinesReadBack(lines: seq<string>)
    ensures LinesOf(Terminated(lines)) == lines <==> Free(lines, NL)
  {
    JoinOfSplit(Terminated(lines), NL);
    if Free(lines, NL) {
      SplitOfTerminated(lines);
    }
  }

  // ----- Indenting -----

  function IndentLine(l: string): string {
    if l == "" then l else "  " + l
  }

  function UnindentLine(l: string): string {
    if |l| >= 2 && l[..2] == "  " then l[2..] else l
  }

  function IndentedLines(s: string): (lines: seq<string>)
    ensures |lines| == |Split(TrimRight(s), NL)|
    ensures forall k :: 0 <= k < |lines| ==> lines[k] == IndentLine(Split(TrimRight(s), NL)[k])
  {
    var parts := Split(TrimRight(s), NL);
    seq(|parts|, k requires 0 <= k < |parts| => IndentLine(parts[k]))
  }

  function UnindentedLines(lines: seq<string>): (r: seq<string>)
    ensures |r| == |lines|
  {
    seq(|lines|, k requires 0 <= k < |lines| => UnindentLine(lines[k]))
  }

  function Indented(s: string): string {
    Join(IndentedLines(s), NL) + [NL]
  }

  method Indent(s: string) returns (r: string)
    ensures r == Indented(s)
  {
    var parts := Split(TrimRight(s), NL);
    var lines := new string[|parts|](i requires 0 <= i < |parts| => parts[i]);
    for i := 0 to lines.Length
      invariant forall k :: 0 <= k < i ==> lines[k] == IndentLine(parts[k])
      invariant forall k :: i <= k < lines.Length ==> lines[k] == parts[k]
    {
      if lines[i] != "" {
        lines[i] := "  " + lines[i];
      }
    }
    assert lines[..] == IndentedLines(s);
    r := Join(lines[..], NL) + [NL];
  }

  lemma UnindentUndoes(l: string)
    ensures UnindentLine(IndentLine(l)) == l
    ensures NL in IndentLine(l) <==> NL in l
    ensures IndentLine(l) == [] <==> l == []
  {
    if l != [] {
      assert ("  " + l)[..2] == "  ";
      assert ("  " + l)[2..] == l;
      assert NL !in "  ";
    }
  }

  lemma IndentedLinesFacts(s: string)
    ensures Free(IndentedLines(s), NL)
    ensures UnindentedLines(IndentedLines(s)) == Split(TrimRight(s), NL)
    ensures Indented(s) == Terminated(IndentedLines(s))
  {
    var parts := Split(TrimRight(s), NL);
    JoinOfSplit(TrimRight(s), NL);
    forall k | 0 <= k < |parts|
      ensures NL !in IndentedLines(s)[k] && UnindentLine(IndentedLines(s)[k]) == parts[k]
    {
      UnindentUndoes(parts[k]);
    }
    TerminatedIsJoin(IndentedLines(s));
  }

  /** Removing two leading spaces from every line undoes the indenting, up to trailing newlines,
      of which exactly one is left; the number of lines and the blank ones stay. */
  lemma IndentUndone(s: string)
    ensures Terminated(UnindentedLines(LinesOf(Indented(s)))) == TrimRight(s) + [NL]
    ensures |LinesOf(Indented(s))| == |LinesOf(TrimRight(s) + [NL])|
    ensures forall k :: 0 <= k < |LinesOf(Indented(s))| ==>
              (LinesOf(Indented(s))[k] == [] <==> LinesOf(TrimRight(s) + [NL])[k] == [])
  {
    var t := TrimRight(s);
    var parts := Split(t, NL);
    IndentedLinesFacts(s);
    LinesReadBack(IndentedLines(s));
    JoinOfSplit(t, NL);
    TerminatedIsJoin(parts);
    LinesReadBack(parts);
    forall k | 0 <= k < |parts| ensures IndentedLines(s)[k] == [] <==> parts[k] == [] {
      UnindentUndoes(parts[k]);
    }
  }

  // ----- Quoting -----

  function EscapeQuotes(s: string): string {
    ReplaceAll(s, ['"'], ['\''])
  }

  function Quote(s: string): string {
    ['"'] + EscapeQuotes(s) + ['"']
  }

  /** Only the two outer quotes are left: those inside become apostrophes, every other character is
      kept. */
  lemma QuoteIsClosed(s: string)
    ensures |Quote(s)| == |s| + 2
    ensures forall i :: 0 <= i < |Quote(s)| ==> (Quote(s)[i] == '"' <==> i == 0 || i == |s| + 1)
    ensures forall i :: 0 <= i < |s| ==> Quote(s)[i + 1] == if s[i] == '"' then '\'' else s[i]
    ensures NL in Quote(s) <==> NL in s
  {
    ReplaceOne(s, '"', '\'');
    var e := EscapeQuotes(s);
    if NL in s {
      var i :| 0 <= i < |s| && s[i] == NL;
      assert Quote(s)[i + 1] == NL;
    }
    if NL in Quote(s) {
      var i :| 0 <= i < |Quote(s)| && Quote(s)[i] == NL;
      assert e[i - 1] == NL;
    }
  }

  // ----- Sections -----

  /** A line at the left margin, with the indented and blank lines that follow it. */
  datatype Section = Section(head: string, body: seq<string>)

  predicate IsHead(l: string) {
    l != [] && !(|l| >= 2 && l[..2] == "  ")
  }

  predicate IsSection(x: Section) {
    IsHead(x.head) && forall l <- x.body :: !IsHead(l)
  }

  predicate Unbroken(x: Section) {
    NL !in x.head && forall l <- x.body :: NL !in l
  }

  ghost predicate AllSections(sections: seq<Section>) {
    forall x <- sections :: IsSection(x)
  }

  ghost predicate AllUnbroken(sections: seq<Section>) {
    forall x <- sections :: Unbroken(x)
  }

  lemma AppendSections(a: seq<Section>, b: seq<Section>)
    ensures AllSections(a + b) <==> AllSections(a) && AllSections(b)
    ensures AllUnbroken(a + b) <==> AllUnbroken(a) && AllUnbroken(b)
  {
    assert forall x :: x in a + b <==> x in a || x in b;
  }

  lemma SingleSection(x: Section)
    ensures AllSections([x]) <==> IsSection(x)
    ensures AllUnbroken([x]) <==> Unbroken(x)
  {
    assert x in [x];
  }

  function Lines(sections: seq<Section>): seq<string> {
    if sections == [] then []
    else Lines(sections[..|sections| - 1]) + [sections[|sections| - 1].head] + sections[|sections| - 1].body
  }

  function Sections(lines: seq<string>): seq<Section> {
    if lines == [] then []
    else
      var before, l := Sections(lines[..|lines| - 1]), lines[|lines| - 1];
      if IsHead(l) then before + [Section(l, [])]
      else if before == [] then []
      else
        var x := before[|before| - 1];
        before[..|before| - 1] + [Section(x.head, x.body + [l])]
  }

  lemma {:induction false} OneSection(lines: seq<string>, x: Section)
    requires IsSection(x)
    ensures Sections(lines + [x.head] + x.body) == Sections(lines) + [x]
    decreases |x.body|
  {
    if x.body == [] {
      HeadLine(lines, x.head);
      assert lines + [x.head] + x.body == lines + [x.head];
    } else {
      var y, l := LastOff(x);
      OneSection(lines, y);
      ConcatAssoc(lines + [x.head], y.body, [l]);
      BodyLine(lines + [y.head] + y.body, Sections(lines), y, l);
    }
  }

  lemma LastOff(x: Section) returns (y: Section, l: string)
    requires IsSection(x) && x.body != []
    ensures IsSection(y) && !IsHead(l) && y.head == x.head && x.body == y.body + [l]
  {
    var n := |x.body| - 1;
    y, l := Section(x.head, x.body[..n]), x.body[n];
    assert l in x.body;
  }

  lemma HeadLine(lines: seq<string>, head: string)
    requires IsHead(head)
    ensures Sections(lines + [head]) == Sections(lines) + [Section(head, [])]
  {
    var all := lines + [head];
    assert all[..|all| - 1] == lines;
  }

  lemma BodyLine(lines: seq<string>, before: seq<Section>, y: Section, l: string)
    requires !IsHead(l) && Sections(lines) == before + [y]
    ensures Sections(lines + [l]) == before + [Section(y.head, y.body + [l])]
  {
    var all := lines + [l];
    assert all[..|all| - 1] == lines;
    assert (before + [y])[..|before|] == before;
  }

  lemma {:induction false} SectionsOfLines(sections: seq<Section>)
    requires AllSections(sections)
    ensures Sections(Lines(sections)) == sections
  {
    if sections != [] {
      var n := |sections| - 1;
      assert sections[n] in sections;
      SectionsOfLines(sections[..n]);
      OneSection(Lines(sections[..n]), sections[n]);
      assert sections[..n] + [sections[n]] == sections;
    }
  }

  lemma {:induction false} LinesAppend(a: seq<Section>, b: seq<Section>)
    ensures Lines(a + b) == Lines(a) + Lines(b)
  {
    if b == [] {
      assert a + b == a;
    } else {
      var n := |b| - 1;
      assert (a + b)[..|a| + n] == a + b[..n];
      LinesAppend(a, b[..n]);
      ConcatAssoc(Lines(a), Lines(b[..n]), [b[n].head]);
      ConcatAssoc(Lines(a), Lines(b[..n]) + [b[n].head], b[n].body);
    }
  }

  lemma {:induction false} LinesFree(sections: seq<Section>)
    ensures Free(Lines(sections), NL) <==> AllUnbroken(sections)
  {
    if sections != [] {
      var n := |sections| - 1;
      var a, x := Lines(sections[..n]), sections[n];
      LinesFree(sections[..n]);
      assert sections == sections[..n] + [x];
      AppendSections(sections[..n], [x]);
      SingleSection(x);
      FreeAppend(a + [x.head], x.body);
      FreeAppend(a, [x.head]);
      assert x.head in [x.head];
      assert Free(Lines(sections), NL) <==> Free(a, NL) && Unbroken(x);
    }
  }

  lemma FreeAppend(a: seq<string>, b: seq<string>)
    ensures Free(a + b, NL) <==> Free(a, NL) && forall l <- b :: NL !in l
  {
    if Free(a + b, NL) {
      forall k | 0 <= k < |a| ensures NL !in a[k] {
        assert (a + b)[k] == a[k];
      }
      forall k | 0 <= k < |b| ensures NL !in b[k] {
        assert (a + b)[|a| + k] == b[k];
      }
    }
  }

  function FileText(sections: seq<Section>): string {
    Terminated(Lines(sections))
  }

  lemma FileTextAppend(a: seq<Section>, b: seq<Section>)
    ensures FileText(a + b) == FileText(a) + FileText(b)
  {
    LinesAppend(a, b);
    TerminatedAppend(Lines(a), Lines(b));
  }

  /** Sections are read back from their text exactly when no line of theirs holds a newline. */
  lemma SectionsReadBack(sections: seq<Section>)
    requires AllSections(sections)
    ensures Sections(LinesOf(FileText(sections))) == sections <==> AllUnbroken(sections)
  {
    LinesReadBack(Lines(sections));
    LinesFree(sections);
    SectionsOfLines(sections);
    var text := FileText(sections);
    JoinOfSplit(text, NL);
    if Sections(LinesOf(text)) == sections {
      SectionsUnbroken(LinesOf(text));
    }
  }

  lemma {:induction false} SectionsUnbroken(lines: seq<string>)
    requires Free(lines, NL)
    ensures AllUnbroken(Sections(lines))
  {
    if lines != [] {
      var before, l := Sections(lines[..|lines| - 1]), lines[|lines| - 1];
      SectionsUnbroken(lines[..|lines| - 1]);
      if !IsHead(l) && before != [] {
        var x := before[|before| - 1];
        assert Unbroken(x);
        assert Unbroken(Section(x.head, x.body + [l]));
        SingleSection(Section(x.head, x.body + [l]));
        AppendSections(before[..|before| - 1], [Section(x.head, x.body + [l])]);
      }
    }
  }

  /** Three parts put together are read back exactly when each part can be. */
  lemma PartsReadBack(a: seq<Section>, b: seq<Section>, c: seq<Section>)
    requires AllSections(a) && AllSections(b) && AllSections(c)
    ensures Sections(LinesOf(FileText(a + b + c))) == a + b + c
       <==> AllUnbroken(a) && AllUnbroken(b) && AllUnbroken(c)
  {
    AppendSections(a, b);
    AppendSections(a + b, c);
    SectionsReadBack(a + b + c);
  }

  /** What is read depends on the text alone. */
  lemma SameTextReads(a: seq<Section>, b: seq<Section>, b': seq<Section>, c: seq<Section>)
    requires AllSections(a) && AllSections(b) && AllSections(c)
    requires AllUnbroken(a) && AllUnbroken(b) && AllUnbroken(c)
    requires FileText(b') == FileText(b)
    ensures Sections(LinesOf(FileText(a + b' + c))) == a + b + c
  {
    FileTextAppend(a, b);
    FileTextAppend(a, b');
    FileTextAppend(a + b, c);
    FileTextAppend(a + b', c);
    PartsReadBack(a, b, c);
  }
}
