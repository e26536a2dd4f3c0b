/** The CEO briefing: its markdown printer and its markdown parser. */
module Briefing {
  import opened Wrappers
  import opened Text

  datatype Section = Context | Requirements | Constraints | SuccessCriteria

  const ALL_SECTIONS: seq<Section> := [Context, Requirements, Constraints, SuccessCriteria]

  function Heading(s: Section): string {
    match s
    case Context => "## Context"
    case Requirements => "## Requirements"
    case Constraints => "## Constraints"
    case SuccessCriteria => "## Success Criteria"
  }

  /** The section a line opens, if it is a heading. */
  function SectionOf(line: string): Option<Section> {
    if StartsWith(line, "## Context") then Some(Context)
    else if StartsWith(line, "## Requirements") then Some(Requirements)
    else if StartsWith(line, "## Constraints") then Some(Constraints)
    else if StartsWith(line, "## Success Criteria") then Some(SuccessCriteria)
    else None
  }

  datatype Content = Content(context: string, requirements: string, constraints: string, successCriteria: string) {

    function Get(s: Section): string {
      match s
      case Context => context
      case Requirements => requirements
      case Constraints => constraints
      case SuccessCriteria => successCriteria
    }

    function Set(s: Section, text: string): Content {
      match s
      case Context => this.(context := text)
      case Requirements => this.(requirements := text)
      case Constraints => this.(constraints := text)
      case SuccessCriteria => this.(successCriteria := text)
    }
  }

  lemma GetAfterSet(b: Content, s: Section, text: string)
    ensures forall other: Section :: b.Set(s, text).Get(other) == if other == s then text else b.Get(other)
  {
  }

  lemma SameFields(a: Content, b: Content)
    requires forall s: Section :: a.Get(s) == b.Get(s)
    ensures a == b
  {
    assert a.Get(Context) == b.Get(Context) && a.Get(Requirements) == b.Get(Requirements);
    assert a.Get(Constraints) == b.Get(Constraints) && a.Get(SuccessCriteria) == b.Get(SuccessCriteria);
  }

  const EMPTY := Content("", "", "", "")

  // The printer

  function Block(b: Content, s: Section): string {
    Heading(s) + "\n\n" + b.Get(s)
  }

  function Blocks(b: Content, sections: seq<Section>): (blocks: seq<string>)
    ensures |blocks| == |sections|
  {
    if sections == [] then [] else [Block(b, sections[0])] + Blocks(b, sections[1..])
  }

  /** The sections of a list that have text, in order. */
  function Present(b: Content, sections: seq<Section>): seq<Section> {
    if sections == [] then []
    else (if b.Get(sections[0]) != "" then [sections[0]] else []) + Present(b, sections[1..])
  }

  /** The text of a section, if it has any. */
  function Optional(b: Content, s: Section): seq<string> {
    if b.Get(s) != "" then [Block(b, s)] else []
  }

  function Print(b: Content): string {
    Join("\n\n", Optional(b, Context) + Optional(b, Requirements) + Optional(b, Constraints) +
                 Optional(b, SuccessCriteria))
  }

  method ToMarkdown(b: Content) returns (markdown: string)
    ensures markdown == Print(b)
  {
    var sections := [];
    if b.context != "" {
      sections := sections + ["## Context" + "\n\n" + b.context];
    }
    assert sections == Optional(b, Context);
    if b.requirements != "" {
      sections := sections + ["## Requirements" + "\n\n" + b.requirements];
    }
    assert sections == Optional(b, Context) + Optional(b, Requirements);
    if b.constraints != "" {
      sections := sections + ["## Constraints" + "\n\n" + b.constraints];
    }
    assert sections == Optional(b, Context) + Optional(b, Requirements) + Optional(b, Constraints);
    if b.successCriteria != "" {
      sections := sections + ["## Success Criteria" + "\n\n" + b.successCriteria];
    }
    assert sections == Optional(b, Context) + Optional(b, Requirements) + Optional(b, Constraints) +
                       Optional(b, SuccessCriteria);
    markdown := Join("\n\n", sections);
  }

  function Flatten(f: Section -> seq<string>, sections: seq<Section>): seq<string> {
    if sections == [] then [] else f(sections[0]) + Flatten(f, sections[1..])
  }

  lemma FlattenCons(f: Section -> seq<string>, s: Section, rest: seq<Section>)
    ensures Flatten(f, [s] + rest) == f(s) + Flatten(f, rest)
  {
    assert ([s] + rest)[1..] == rest;
  }

  lemma FlattenFour(f: Section -> seq<string>, s0: Section, s1: Section, s2: Section, s3: Section)
    ensures Flatten(f, [s0, s1, s2, s3]) == f(s0) + f(s1) + f(s2) + f(s3)
  {
    assert [s0, s1, s2, s3] == [s0] + ([s1] + ([s2] + ([s3] + [])));
    FlattenCons(f, s0, [s1] + ([s2] + ([s3] + [])));
    FlattenCons(f, s1, [s2] + ([s3] + []));
    FlattenCons(f, s2, [s3] + []);
    FlattenCons(f, s3, []);
  }

  lemma BlocksStep(b: Content, sections: seq<Section>)
    requires sections != []
    ensures Blocks(b, Present(b, sections)) == Optional(b, sections[0]) + Blocks(b, Present(b, sections[1..]))
  {
    var rest := Present(b, sections[1..]);
    if b.Get(sections[0]) != "" {
      assert ([sections[0]] + rest)[1..] == rest;
    } else {
      assert [] + rest == rest && [] + Blocks(b, rest) == Blocks(b, rest);
    }
  }

  lemma {:induction false} FlattenIsBlocks(b: Content, f: Section -> seq<string>, sections: seq<Section>)
    requires forall s :: f(s) == Optional(b, s)
    ensures Flatten(f, sections) == Blocks(b, Present(b, sections))
  {
    if sections != [] {
      FlattenIsBlocks(b, f, sections[1..]);
      BlocksStep(b, sections);
    }
  }

  lemma PrintIsBlocks(b: Content)
    ensures Print(b) == Join("\n\n", Blocks(b, Present(b, ALL_SECTIONS)))
  {
    var f := s => Optional(b, s);
    FlattenFour(f, Context, Requirements, Constraints, SuccessCriteria);
    FlattenIsBlocks(b, f, ALL_SECTIONS);
  }

  // The parser

  datatype Scanner = Scanner(content: Content, section: Option<Section>, text: seq<string>) {

    /** Store the text gathered so far under the open section. */
    function Commit(): Content {
      if section.Some? && text != [] then content.Set(section.value, Strip(Join("\n", text))) else content
    }

    function Step(line: string): Scanner {
      match SectionOf(line)
      case Some(s) => Scanner(Commit(), Some(s), [])
      case None => if section.Some? then this.(text := text + [line]) else this
    }

    function Scan(lines: seq<string>): Scanner
      decreases |lines|
    {
      if lines == [] then this else Step(lines[0]).Scan(lines[1..])
    }
  }

  const START := Scanner(EMPTY, None, [])

  function Parse(markdown: string): Content {
    START.Scan(Split(markdown)).Commit()
  }

  method FromMarkdown(markdown: string) returns (content: Content)
    ensures content == Parse(markdown)
  {
    content := Content("", "", "", "");
    var currentSection: Option<Section> := None;
    var currentText: seq<string> := [];
    var lines := Split(markdown);
    var i := 0;
    while i < |lines|
      invariant 0 <= i <= |lines|
      invariant Scanner(content, currentSection, currentText).Scan(lines[i..]) == START.Scan(lines)
    {
      var line := lines[i];
      assert lines[i..][1..] == lines[i + 1..];
      if SectionOf(line).Some? {
        if currentSection.Some? && currentText != [] {
          content := content.Set(currentSection.value, Strip(Join("\n", currentText)));
        }
        currentSection := SectionOf(line);
        currentText := [];
      } else if currentSection.Some? {
        currentText := currentText + [line];
      }
      i := i + 1;
    }
    if currentSection.Some? && currentText != [] {
      content := content.Set(currentSection.value, Strip(Join("\n", currentText)));
    }
  }

  // What the parser computes, for every text

  ghost predicate HeadingFreeLines(lines: seq<string>) {
    forall l :: l in lines ==> SectionOf(l).None?
  }

  lemma {:induction false} ScanConcat(sc: Scanner, a: seq<string>, b: seq<string>)
    ensures sc.Scan(a + b) == sc.Scan(a).Scan(b)
    decreases |a|
  {
    if a == [] {
      assert a + b == b;
    } else {
      assert (a + b)[1..] == a[1..] + b;
      ScanConcat(sc.Step(a[0]), a[1..], b);
    }
  }

  /** Lines that are no headings pile up under the open section. */
  lemma {:induction false} ScanBody(sc: Scanner, lines: seq<string>)
    requires sc.section.Some? && HeadingFreeLines(lines)
    ensures sc.Scan(lines) == sc.(text := sc.text + lines)
    decreases |lines|
  {
    if lines == [] {
      assert sc.text + lines == sc.text;
    } else {
      ScanBody(sc.Step(lines[0]), lines[1..]);
      assert sc.text + [lines[0]] + lines[1..] == sc.text + lines;
    }
  }

  /** A heading line and the lines up to the next heading. */
  datatype Part = Part(heading: string, body: seq<string>) {
    ghost predicate Valid() {
      SectionOf(heading).Some? && HeadingFreeLines(body)
    }
  }

  ghost function PartLines(parts: seq<Part>): seq<string> {
    if parts == [] then []
    else
      var last := parts[|parts| - 1];
      PartLines(parts[..|parts| - 1]) + ([last.heading] + last.body)
  }

  /** The lines under the last heading of `s` that has any below it. */
  ghost function LastBody(parts: seq<Part>, s: Section): seq<string> {
    if parts == [] then []
    else
      var last := parts[|parts| - 1];
      if SectionOf(last.heading) == Some(s) && last.body != [] then last.body
      else LastBody(parts[..|parts| - 1], s)
  }

  /** A text's lines are a preface without headings followed by the parts. */
  ghost predicate Decomposes(markdown: string, preface: seq<string>, parts: seq<Part>) {
    && Split(markdown) == preface + PartLines(parts)
    && HeadingFreeLines(preface)
    && forall p :: p in parts ==> p.Valid()
  }

  /** Every text is some lines without a heading followed by parts. */
  lemma {:induction false} Decompose(lines: seq<string>) returns (preface: seq<string>, parts: seq<Part>)
    ensures lines == preface + PartLines(parts)
    ensures HeadingFreeLines(preface) && forall p :: p in parts ==> p.Valid()
    decreases |lines|
  {
    if lines == [] {
      preface, parts := [], [];
    } else {
      var before, line := lines[..|lines| - 1], lines[|lines| - 1];
      preface, parts := Decompose(before);
      if SectionOf(line).Some? {
        var longer := parts + [Part(line, [])];
        assert longer[..|longer| - 1] == parts;
        parts := longer;
      } else if parts == [] {
        preface := preface + [line];
      } else {
        var earlier, last := parts[..|parts| - 1], parts[|parts| - 1];
        var longer := earlier + [Part(last.heading, last.body + [line])];
        assert longer[..|longer| - 1] == earlier;
        assert last in parts;
        parts := longer;
      }
    }
  }

  lemma {:induction false} ScanPreface(preface: seq<string>)
    requires HeadingFreeLines(preface)
    ensures START.Scan(preface) == START
    decreases |preface|
  {
    if preface != [] {
      ScanPreface(preface[1..]);
    }
  }

  lemma ScanPart(sc: Scanner, p: Part)
    requires p.Valid()
    ensures sc.Scan([p.heading] + p.body).Commit() ==
            if p.body == [] then sc.Commit()
            else sc.Commit().Set(SectionOf(p.heading).value, Strip(Join("\n", p.body)))
  {
    var opening := sc.Step(p.heading);
    assert ([p.heading] + p.body)[1..] == p.body;
    ScanBody(opening, p.body);
    assert opening.text + p.body == p.body;
  }

  lemma {:induction false} ScanParts(preface: seq<string>, parts: seq<Part>, s: Section)
    requires HeadingFreeLines(preface) && forall p :: p in parts ==> p.Valid()
    ensures START.Scan(preface + PartLines(parts)).Commit().Get(s) == Strip(Join("\n", LastBody(parts, s)))
    decreases |parts|
  {
    if parts == [] {
      assert preface + PartLines(parts) == preface;
      ScanPreface(preface);
    } else {
      var earlier, last := parts[..|parts| - 1], parts[|parts| - 1];
      var before, block := preface + PartLines(earlier), [last.heading] + last.body;
      assert preface + PartLines(parts) == before + block;
      ScanConcat(START, before, block);
      ScanParts(preface, earlier, s);
      ScanPart(START.Scan(before), last);
      GetAfterSet(START.Scan(before).Commit(), SectionOf(last.heading).value, Strip(Join("\n", last.body)));
    }
  }

  /**
   What the parser reads from any text: each field is the trimmed text under the section's
   last heading that has lines below it, and empty if there is none. Text before the first
   heading is ignored.
   */
  lemma ParseReadsLastText(markdown: string, preface: seq<string>, parts: seq<Part>, s: Section)
    requires Decomposes(markdown, preface, parts)
    ensures Parse(markdown).Get(s) == Strip(Join("\n", LastBody(parts, s)))
  {
    ScanParts(preface, parts, s);
  }

  /** And every text can be taken apart like that. */
  lemma EveryTextDecomposes(markdown: string)
    ensures exists preface: seq<string>, parts: seq<Part> :: Decomposes(markdown, preface, parts)
  {
    var preface, parts := Decompose(Split(markdown));
    assert Decomposes(markdown, preface, parts);
  }

  // Printing then parsing

  /** No line of any field reads as a heading. */
  ghost predicate HeadingFree(b: Content) {
    forall s: Section :: HeadingFreeLines(Split(b.Get(s)))
  }

  ghost predicate AllTrimmed(b: Content) {
    forall s: Section :: Trimmed(b.Get(s))
  }

  /** The lines of one section, and the blank line that separates it from the next. */
  function BlockLines(s: Section, text: string, after: seq<string>): seq<string> {
    [Heading(s), ""] + Split(text) + after
  }

  /** The lines the printer produces for a non-empty list of sections. */
  function PrintedLines(b: Content, sections: seq<Section>): seq<string>
    requires sections != []
  {
    if |sections| == 1 then BlockLines(sections[0], b.Get(sections[0]), [])
    else BlockLines(sections[0], b.Get(sections[0]), [""]) + PrintedLines(b, sections[1..])
  }

  lemma HeadingsDiffer(s: Section)
    ensures SectionOf(Heading(s)) == Some(s) && '\n' !in Heading(s)
  {
    match s
    case Context =>
    case Requirements =>
      assert "## Requirements"[3] != "## Context"[3];
    case Constraints =>
      assert "## Constraints"[6] != "## Context"[6] && "## Constraints"[3] != "## Requirements"[3];
    case SuccessCriteria =>
      assert "## Success Criteria"[3] != "## Context"[3] && "## Success Criteria"[3] != "## Requirements"[3];
      assert "## Success Criteria"[3] != "## Constraints"[3];
  }

  lemma SplitBlock(b: Content, s: Section)
    ensures Split(Block(b, s)) == [Heading(s), ""] + Split(b.Get(s))
  {
    HeadingsDiffer(s);
    SplitTitled(Heading(s), b.Get(s));
  }

  lemma {:induction false} SplitPrinted(b: Content, sections: seq<Section>)
    requires sections != []
    ensures Split(Join("\n\n", Blocks(b, sections))) == PrintedLines(b, sections)
    decreases |sections|
  {
    var head, rest := sections[0], sections[1..];
    SplitBlock(b, head);
    if |sections| == 1 {
      assert Split(Block(b, head)) == BlockLines(head, b.Get(head), []);
    } else {
      SplitPrinted(b, rest);
      var tail := Join("\n\n", Blocks(b, rest));
      assert Join("\n\n", Blocks(b, sections)) == Block(b, head) + "\n\n" + tail;
      SplitBlankLine(Block(b, head), tail);
    }
  }

  /** A section's printed text, with or without the blank line that follows it, trims back to the text. */
  lemma PrintedTextTrims(text: string, after: seq<string>)
    requires Trimmed(text) && text != "" && after in {[], [""]}
    ensures Strip(Join("\n", [""] + Split(text) + after)) == text
  {
    var lines := [""] + Split(text);
    JoinSplit(text);
    JoinConcat("\n", [""], Split(text));
    assert Join("\n", lines) == "\n" + text;
    if after == [] {
      assert lines + after == lines;
      assert "\n" + text == "\n" + text + "";
      StripPadding("\n", text, "");
    } else {
      JoinConcat("\n", lines, after);
      assert Join("\n", lines + after) == "\n" + text + "\n";
      StripPadding("\n", text, "\n");
    }
  }

  lemma BlankIsNoHeading()
    ensures SectionOf("").None?
  {
  }

  lemma TitleFirst(title: string, lines: seq<string>, after: seq<string>)
    ensures [title, ""] + lines + after == [title] + ([""] + lines + after)
  {
  }

  lemma BlockIsPart(s: Section, text: string, after: seq<string>)
    requires HeadingFreeLines(Split(text)) && after in {[], [""]}
    ensures var p := Part(Heading(s), [""] + Split(text) + after);
            p.Valid() && SectionOf(p.heading) == Some(s) && BlockLines(s, text, after) == [p.heading] + p.body
  {
    HeadingsDiffer(s);
    BlankIsNoHeading();
    TitleFirst(Heading(s), Split(text), after);
  }

  lemma ScanBlock(sc: Scanner, s: Section, text: string, after: seq<string>)
    requires Trimmed(text) && text != "" && HeadingFreeLines(Split(text)) && after in {[], [""]}
    ensures sc.Scan(BlockLines(s, text, after)).Commit() == sc.Commit().Set(s, text)
  {
    BlockIsPart(s, text, after);
    ScanPart(sc, Part(Heading(s), [""] + Split(text) + after));
    PrintedTextTrims(text, after);
  }

  /** Reading the printed sections sets exactly those fields. */
  lemma {:induction false} ScanPrinted(sc: Scanner, b: Content, sections: seq<Section>)
    requires sections != [] && AllTrimmed(b) && HeadingFree(b)
    requires forall s :: s in sections ==> b.Get(s) != ""
    ensures forall s: Section :: sc.Scan(PrintedLines(b, sections)).Commit().Get(s) ==
                                 if s in sections then b.Get(s) else sc.Commit().Get(s)
    decreases |sections|
  {
    var head, rest := sections[0], sections[1..];
    GetAfterSet(sc.Commit(), head, b.Get(head));
    if rest == [] {
      ScanBlock(sc, head, b.Get(head), []);
    } else {
      ScanBlock(sc, head, b.Get(head), [""]);
      var block := BlockLines(head, b.Get(head), [""]);
      ScanConcat(sc, block, PrintedLines(b, rest));
      ScanPrinted(sc.Scan(block), b, rest);
    }
  }

  lemma {:induction false} PresentIsNonEmpty(b: Content, sections: seq<Section>)
    ensures forall s :: s in Present(b, sections) <==> s in sections && b.Get(s) != ""
  {
    if sections != [] {
      PresentIsNonEmpty(b, sections[1..]);
    }
  }

  lemma AllSectionsListed()
    ensures forall s: Section :: s in ALL_SECTIONS
  {
    forall s: Section
      ensures s in ALL_SECTIONS
    {
      match s
      case Context => assert ALL_SECTIONS[0] == s;
      case Requirements => assert ALL_SECTIONS[1] == s;
      case Constraints => assert ALL_SECTIONS[2] == s;
      case SuccessCriteria => assert ALL_SECTIONS[3] == s;
    }
  }

  lemma ParseOfNothing()
    ensures Parse("") == EMPTY
  {
    assert Split("") == [""];
    ScanPreface([""]);
  }

  lemma ParsePrinted(b: Content, s: Section)
    requires AllTrimmed(b) && HeadingFree(b)
    ensures Parse(Print(b)).Get(s) == b.Get(s)
  {
    var sections := Present(b, ALL_SECTIONS);
    PrintIsBlocks(b);
    PresentIsNonEmpty(b, ALL_SECTIONS);
    AllSectionsListed();
    if sections == [] {
      assert s !in sections;
      ParseOfNothing();
    } else {
      SplitPrinted(b, sections);
      ScanPrinted(START, b, sections);
    }
  }

  lemma RoundTrip(b: Content)
    requires AllTrimmed(b) && HeadingFree(b)
    ensures Parse(Print(b)) == b
  {
    forall s: Section
      ensures Parse(Print(b)).Get(s) == b.Get(s)
    {
      ParsePrinted(b, s);
    }
    SameFields(Parse(Print(b)), b);
  }

  // The round trip fails for every other briefing

  /** The visible characters of the lines that are no headings. */
  function BodyWeight(lines: seq<string>): nat {
    if lines == [] then 0
    else (if SectionOf(lines[0]).None? then Weight(lines[0]) else 0) + BodyWeight(lines[1..])
  }

  function FieldsWeight(b: Content): nat {
    Weight(b.context) + Weight(b.requirements) + Weight(b.constraints) + Weight(b.successCriteria)
  }

  lemma {:induction false} BodyWeightConcat(a: seq<string>, b: seq<string>)
    ensures BodyWeight(a + b) == BodyWeight(a) + BodyWeight(b)
  {
    if a == [] {
      assert a + b == b;
    } else {
      assert (a + b)[1..] == a[1..] + b;
      BodyWeightConcat(a[1..], b);
    }
  }

  lemma SetWeight(b: Content, s: Section, text: string)
    ensures FieldsWeight(b.Set(s, text)) + Weight(b.Get(s)) == FieldsWeight(b) + Weight(text)
  {
  }

  lemma CommitWeight(sc: Scanner)
    ensures FieldsWeight(sc.Commit()) <= FieldsWeight(sc.content) + LinesWeight(sc.text)
  {
    if sc.section.Some? && sc.text != [] {
      var text := Join("\n", sc.text);
      JoinWeight("\n", sc.text);
      StripWeight(text);
      SetWeight(sc.content, sc.section.value, Strip(text));
    }
  }

  /** The parser never invents text: what it stores was on lines that are no headings. */
  lemma {:induction false} ScanWeight(sc: Scanner, lines: seq<string>)
    ensures FieldsWeight(sc.Scan(lines).Commit()) <=
            FieldsWeight(sc.content) + LinesWeight(sc.text) + BodyWeight(lines)
    decreases |lines|
  {
    CommitWeight(sc);
    if lines != [] {
      ScanWeight(sc.Step(lines[0]), lines[1..]);
      if SectionOf(lines[0]).None? && sc.section.Some? {
        LinesWeightConcat(sc.text, [lines[0]]);
      }
    }
  }

  lemma {:induction false} BodyWeightOfLines(lines: seq<string>)
    ensures BodyWeight(lines) <= LinesWeight(lines)
    ensures !HeadingFreeLines(lines) ==> BodyWeight(lines) < LinesWeight(lines)
  {
    if lines != [] {
      BodyWeightOfLines(lines[1..]);
      if SectionOf(lines[0]).Some? {
        assert lines[0][0] == '#';
      }
    }
  }

  function SectionsWeight(b: Content, sections: seq<Section>): nat {
    if sections == [] then 0 else Weight(b.Get(sections[0])) + SectionsWeight(b, sections[1..])
  }

  lemma {:induction false} PresentWeight(b: Content, sections: seq<Section>)
    ensures SectionsWeight(b, Present(b, sections)) == SectionsWeight(b, sections)
  {
    if sections != [] {
      PresentWeight(b, sections[1..]);
      var rest := Present(b, sections[1..]);
      if b.Get(sections[0]) != "" {
        assert ([sections[0]] + rest)[1..] == rest;
      } else {
        assert [] + rest == rest;
      }
    }
  }

  lemma AllSectionsWeight(b: Content)
    ensures SectionsWeight(b, ALL_SECTIONS) == FieldsWeight(b)
  {
    assert ALL_SECTIONS[1..] == [Requirements, Constraints, SuccessCriteria];
    assert ALL_SECTIONS[1..][1..] == [Constraints, SuccessCriteria];
    assert ALL_SECTIONS[1..][1..][1..] == [SuccessCriteria];
    assert SectionsWeight(b, [SuccessCriteria]) == Weight(b.successCriteria);
    assert SectionsWeight(b, [Constraints, SuccessCriteria]) == Weight(b.constraints) + Weight(b.successCriteria);
  }

  lemma BlockWeight(b: Content, s: Section, after: seq<string>)
    requires after in {[], [""]}
    ensures BodyWeight(BlockLines(s, b.Get(s), after)) <= Weight(b.Get(s))
    ensures !HeadingFreeLines(Split(b.Get(s))) ==> BodyWeight(BlockLines(s, b.Get(s), after)) < Weight(b.Get(s))
  {
    var lines := Split(b.Get(s));
    HeadingsDiffer(s);
    BodyWeightConcat([Heading(s), ""] + lines, after);
    BodyWeightConcat([Heading(s), ""], lines);
    BodyWeightConcat([Heading(s)], [""]);
    assert [Heading(s)] + [""] == [Heading(s), ""];
    BodyWeightOfLines(lines);
    JoinSplit(b.Get(s));
    JoinWeight("\n", lines);
  }

  lemma {:induction false} PrintedWeight(b: Content, sections: seq<Section>, bad: Section)
    requires sections != []
    ensures BodyWeight(PrintedLines(b, sections)) <= SectionsWeight(b, sections)
    ensures bad in sections && !HeadingFreeLines(Split(b.Get(bad))) ==>
              BodyWeight(PrintedLines(b, sections)) < SectionsWeight(b, sections)
    decreases |sections|
  {
    var head, rest := sections[0], sections[1..];
    if |sections| == 1 {
      BlockWeight(b, head, []);
      assert SectionsWeight(b, rest) == 0;
    } else {
      BlockWeight(b, head, [""]);
      BodyWeightConcat(BlockLines(head, b.Get(head), [""]), PrintedLines(b, rest));
      PrintedWeight(b, rest, bad);
    }
  }

  lemma {:induction false} ScanTrims(sc: Scanner, lines: seq<string>)
    requires AllTrimmed(sc.content)
    ensures AllTrimmed(sc.Scan(lines).Commit())
    decreases |lines|
  {
    StripIsTrimmed(Join("\n", sc.text));
    if sc.section.Some? {
      GetAfterSet(sc.content, sc.section.value, Strip(Join("\n", sc.text)));
    }
    assert AllTrimmed(sc.Commit());
    if lines != [] {
      ScanTrims(sc.Step(lines[0]), lines[1..]);
    }
  }

  lemma ParsedIsTrimmed(markdown: string)
    ensures AllTrimmed(Parse(markdown))
  {
    ScanTrims(START, Split(markdown));
  }

  lemma HeadingInFieldLosesText(b: Content)
    requires !HeadingFree(b)
    ensures FieldsWeight(Parse(Print(b))) < FieldsWeight(b)
  {
    var bad: Section :| !HeadingFreeLines(Split(b.Get(bad)));
    if b.Get(bad) == "" {
      assert Split(b.Get(bad)) == [""];
      BlankIsNoHeading();
      assert false;
    }
    var sections := Present(b, ALL_SECTIONS);
    PrintIsBlocks(b);
    PresentIsNonEmpty(b, ALL_SECTIONS);
    AllSectionsListed();
    assert bad in sections;
    SplitPrinted(b, sections);
    ScanWeight(START, PrintedLines(b, sections));
    PrintedWeight(b, sections, bad);
    PresentWeight(b, ALL_SECTIONS);
    AllSectionsWeight(b);
  }

  /**
   Exactly the briefings that survive being printed and parsed: those whose fields are
   trimmed and contain no line that reads as a heading, empty fields included.
   */
  lemma RoundTripExactly(b: Content)
    ensures Parse(Print(b)) == b <==> AllTrimmed(b) && HeadingFree(b)
  {
    if AllTrimmed(b) && HeadingFree(b) {
      RoundTrip(b);
    } else if !HeadingFree(b) {
      HeadingInFieldLosesText(b);
    } else {
      ParsedIsTrimmed(Print(b));
    }
  }

  // Parsing, printing and parsing again

  /** A line that stays no heading when its left margin is removed. */
  predicate Tame(line: string) {
    SectionOf(LStrip(line)).None?
  }

  /** The first line that is not blank, if there is one, is tame. */
  predicate OpensTame(lines: seq<string>) {
    if lines == [] then true else if LStrip(lines[0]) == "" then OpensTame(lines[1..]) else Tame(lines[0])
  }

  lemma PrefixBeforeSpace(prefix: string, line: string, c: char)
    requires IsSpace(c) && prefix != "" && !IsSpace(prefix[|prefix| - 1])
    ensures StartsWith(line + [c], prefix) <==> StartsWith(line, prefix)
  {
    if StartsWith(line + [c], prefix) {
      assert prefix[|prefix| - 1] == (line + [c])[|prefix| - 1];
      assert prefix == (line + [c])[..|prefix|] == line[..|prefix|];
    }
  }

  /** White space at the end of a line neither makes nor breaks a heading. */
  lemma SpaceAfterHeading(line: string, c: char)
    requires IsSpace(c)
    ensures SectionOf(line + [c]).None? <==> SectionOf(line).None?
  {
    PrefixBeforeSpace("## Context", line, c);
    PrefixBeforeSpace("## Requirements", line, c);
    PrefixBeforeSpace("## Constraints", line, c);
    PrefixBeforeSpace("## Success Criteria", line, c);
  }

  lemma ExtendLastHeadings(lines: seq<string>, c: char)
    requires lines != [] && IsSpace(c)
    ensures HeadingFreeLines(ExtendLast(lines, c)) <==> HeadingFreeLines(lines)
  {
    var before, last := lines[..|lines| - 1], lines[|lines| - 1];
    SpaceAfterHeading(last, c);
    assert lines == before + [last];
    assert ExtendLast(lines, c) == before + [last + [c]];
    assert last in lines && last + [c] in ExtendLast(lines, c);
  }

  lemma {:induction false} RStripHeadings(s: string)
    ensures HeadingFreeLines(Split(RStrip(s))) <==> HeadingFreeLines(Split(s))
  {
    if s != "" && IsSpace(s[|s| - 1]) {
      var t, c := s[..|s| - 1], s[|s| - 1];
      RStripHeadings(t);
      if c == '\n' {
        assert s == t + "\n" + "";
        SplitConcat(t, "");
        assert Split("") == [""];
        BlankIsNoHeading();
        assert Split(s) == Split(t) + [""];
      } else {
        assert s == t + [c];
        SplitSnoc(t, c);
        ExtendLastHeadings(Split(t), c);
      }
    }
  }

  lemma {:induction false} LStripConcat(a: string, b: string)
    ensures LStrip(a + b) == if LStrip(a) == "" then LStrip(b) else LStrip(a) + b
  {
    if a == "" {
      assert a + b == b;
    } else {
      assert (a + b)[1..] == a[1..] + b;
      LStripConcat(a[1..], b);
    }
  }

  lemma {:induction false} LStripIsSuffix(s: string)
    ensures '\n' !in s ==> '\n' !in LStrip(s)
  {
    if s != "" && IsSpace(s[0]) {
      LStripIsSuffix(s[1..]);
    }
  }

  /** Removing the left margin of a text makes a heading exactly if its first visible line becomes one. */
  lemma {:induction false} LStripHeadings(lines: seq<string>)
    requires lines != [] && HeadingFreeLines(lines) && forall l :: l in lines ==> '\n' !in l
    ensures HeadingFreeLines(Split(LStrip(Join("\n", lines)))) <==> OpensTame(lines)
    decreases |lines|
  {
    var first, rest := lines[0], lines[1..];
    assert first in lines;
    BlankIsNoHeading();
    LStripIsSuffix(first);
    SplitOneLine(LStrip(first));
    if rest != [] {
      var text := Join("\n", rest);
      assert Join("\n", lines) == first + ("\n" + text);
      LStripConcat(first, "\n" + text);
      if LStrip(first) == "" {
        assert ("\n" + text)[1..] == text;
        LStripHeadings(rest);
      } else {
        assert LStrip(first) + ("\n" + text) == LStrip(first) + "\n" + text;
        SplitConcat(LStrip(first), text);
        SplitJoin(rest);
        assert Split(LStrip(Join("\n", lines))) == [LStrip(first)] + rest;
      }
    }
  }

  /** When the text a section ends up with has a line that reads as a heading. */
  lemma FieldHeadings(body: seq<string>)
    requires HeadingFreeLines(body) && forall l :: l in body ==> '\n' !in l
    ensures HeadingFreeLines(Split(Strip(Join("\n", body)))) <==> OpensTame(body)
  {
    if body == [] {
      BlankIsNoHeading();
      assert Split("") == [""];
    } else {
      LStripHeadings(body);
      RStripHeadings(LStrip(Join("\n", body)));
    }
  }

  lemma {:induction false} LastBodyIsInText(parts: seq<Part>, s: Section)
    requires forall p :: p in parts ==> p.Valid()
    ensures HeadingFreeLines(LastBody(parts, s))
    ensures forall l :: l in LastBody(parts, s) ==> l in PartLines(parts)
    decreases |parts|
  {
    if parts != [] {
      assert parts[|parts| - 1] in parts;
      LastBodyIsInText(parts[..|parts| - 1], s);
    }
  }

  lemma FieldOfText(markdown: string, preface: seq<string>, parts: seq<Part>, s: Section)
    requires Decomposes(markdown, preface, parts)
    ensures HeadingFreeLines(Split(Parse(markdown).Get(s))) <==> OpensTame(LastBody(parts, s))
  {
    ParseReadsLastText(markdown, preface, parts, s);
    LastBodyIsInText(parts, s);
    SplitHasNoNewline(markdown);
    FieldHeadings(LastBody(parts, s));
  }

  /** Under each section's deciding heading the first visible line is tame. */
  ghost predicate Settled(parts: seq<Part>) {
    forall s: Section :: OpensTame(LastBody(parts, s))
  }

  lemma EverySection(holds: Section -> bool)
    ensures (forall s: Section :: holds(s)) <==>
            holds(Context) && holds(Requirements) && holds(Constraints) && holds(SuccessCriteria)
  {
    if holds(Context) && holds(Requirements) && holds(Constraints) && holds(SuccessCriteria) {
      forall s: Section
        ensures holds(s)
      {
        match s
        case Context =>
        case Requirements =>
        case Constraints =>
        case SuccessCriteria =>
      }
    }
  }

  lemma FieldsOfText(markdown: string, preface: seq<string>, parts: seq<Part>)
    requires Decomposes(markdown, preface, parts)
    ensures HeadingFree(Parse(markdown)) <==> Settled(parts)
  {
    FieldOfText(markdown, preface, parts, Context);
    FieldOfText(markdown, preface, parts, Requirements);
    FieldOfText(markdown, preface, parts, Constraints);
    FieldOfText(markdown, preface, parts, SuccessCriteria);
    EverySection(s => OpensTame(LastBody(parts, s)));
    EverySection(s => HeadingFreeLines(Split(Parse(markdown).Get(s))));
  }

  /**
   Exactly the texts that settle after one parse: printing and parsing again changes nothing
   if and only if, under each section's deciding heading, the first visible line does not read
   as a heading once its left margin is removed.
   */
  lemma ReparseExactly(markdown: string, preface: seq<string>, parts: seq<Part>)
    requires Decomposes(markdown, preface, parts)
    ensures Parse(Print(Parse(markdown))) == Parse(markdown) <==> Settled(parts)
  {
    ParsedIsTrimmed(markdown);
    RoundTripExactly(Parse(markdown));
    FieldsOfText(markdown, preface, parts);
  }

  lemma {:induction false} TameOpensTame(lines: seq<string>)
    requires forall l :: l in lines ==> Tame(l)
    ensures OpensTame(lines)
  {
    if lines != [] {
      TameOpensTame(lines[1..]);
      assert lines[0] in lines;
    }
  }

  /**
   In particular a text settles if none of its ordinary lines reads as a heading once its left
   margin is removed. Headings may repeat, and text may precede the first.
   */
  lemma ReparseStable(markdown: string)
    requires forall l :: l in Split(markdown) ==> SectionOf(l).Some? || Tame(l)
    ensures Parse(Print(Parse(markdown))) == Parse(markdown)
  {
    var preface, parts := Decompose(Split(markdown));
    forall s: Section
      ensures OpensTame(LastBody(parts, s))
    {
      LastBodyIsInText(parts, s);
      TameOpensTame(LastBody(parts, s));
    }
    ReparseExactly(markdown, preface, parts);
  }

  // The format itself, literally

  /** A line starts with one of the four headings. */
  predicate OpensSection(line: string) {
    || StartsWith(line, "## Context") || StartsWith(line, "## Requirements")
    || StartsWith(line, "## Constraints") || StartsWith(line, "## Success Criteria")
  }

  lemma HeadingsAreThese(line: string)
    ensures SectionOf(line).Some? <==> OpensSection(line)
  {
  }

  /** A heading line with text below it, none of whose lines is a heading, sets the heading's field and no other. */
  lemma ParseOneSection(title: string, s: Section, text: string)
    requires '\n' !in title && SectionOf(title) == Some(s)
    requires forall l :: l in Split(text) ==> !OpensSection(l)
    ensures Parse(title + "\n" + text) == EMPTY.Set(s, Strip(text))
  {
    var lines := Split(text);
    SplitConcat(title, text);
    SplitOneLine(title);
    assert HeadingFreeLines(lines) by {
      forall l | l in lines
        ensures SectionOf(l).None?
      {
        HeadingsAreThese(l);
      }
    }
    ScanPart(START, Part(title, lines));
    JoinSplit(text);
  }

  /** Which heading sets which field. */
  lemma HeadingSetsField(text: string)
    requires forall l :: l in Split(text) ==> !OpensSection(l)
    ensures Parse("## Context" + "\n" + text) == Content(Strip(text), "", "", "")
    ensures Parse("## Requirements" + "\n" + text) == Content("", Strip(text), "", "")
    ensures Parse("## Constraints" + "\n" + text) == Content("", "", Strip(text), "")
    ensures Parse("## Success Criteria" + "\n" + text) == Content("", "", "", Strip(text))
  {
    HeadingsDiffer(Context);
    HeadingsDiffer(Requirements);
    HeadingsDiffer(Constraints);
    HeadingsDiffer(SuccessCriteria);
    ParseOneSection("## Context", Context, text);
    ParseOneSection("## Requirements", Requirements, text);
    ParseOneSection("## Constraints", Constraints, text);
    ParseOneSection("## Success Criteria", SuccessCriteria, text);
  }

  lemma ParseTwoHeadings(title: string, line: string)
    requires '\n' !in title && '\n' !in line && SectionOf(title).Some? && SectionOf(line).Some?
    ensures Parse(title + "\n" + line) == EMPTY
  {
    SplitConcat(title, line);
    SplitOneLine(title);
    SplitOneLine(line);
    ScanPart(START, Part(title, []));
    ScanPart(START.Scan([title] + []), Part(line, []));
    assert [title] + [] == [title] && [line] + [] == [line];
    ScanConcat(START, [title], [line]);
  }

  /** A visible line below the context heading is context exactly if it starts with none of the four headings. */
  lemma OrdinaryLineExactly(line: string)
    requires '\n' !in line && Strip(line) != ""
    ensures Parse("## Context" + "\n" + line).context == Strip(line) <==>
            !StartsWith(line, "## Context") && !StartsWith(line, "## Requirements") &&
            !StartsWith(line, "## Constraints") && !StartsWith(line, "## Success Criteria")
  {
    HeadingsDiffer(Context);
    HeadingsAreThese(line);
    SplitOneLine(line);
    if OpensSection(line) {
      ParseTwoHeadings("## Context", line);
    } else {
      HeadingSetsField(line);
    }
  }

  lemma JoinOne(sep: string, part: string)
    ensures Join(sep, [part]) == part
  {
  }

  /** What is printed for a single field. */
  lemma PrintedField(text: string)
    requires text != ""
    ensures Print(Content(text, "", "", "")) == "## Context" + "\n\n" + text
    ensures Print(Content("", text, "", "")) == "## Requirements" + "\n\n" + text
    ensures Print(Content("", "", text, "")) == "## Constraints" + "\n\n" + text
    ensures Print(Content("", "", "", text)) == "## Success Criteria" + "\n\n" + text
  {
    JoinOne("\n\n", "## Context" + "\n\n" + text);
    JoinOne("\n\n", "## Requirements" + "\n\n" + text);
    JoinOne("\n\n", "## Constraints" + "\n\n" + text);
    JoinOne("\n\n", "## Success Criteria" + "\n\n" + text);
  }

  /** Four fields are printed in this order. */
  lemma PrintedInOrder(b: Content)
    requires b.context != "" && b.requirements != "" && b.constraints != "" && b.successCriteria != ""
    ensures Print(b) == Join("\n\n", ["## Context" + "\n\n" + b.context,
                                      "## Requirements" + "\n\n" + b.requirements,
                                      "## Constraints" + "\n\n" + b.constraints,
                                      "## Success Criteria" + "\n\n" + b.successCriteria])
  {
    var blocks := [Block(b, Context), Block(b, Requirements), Block(b, Constraints), Block(b, SuccessCriteria)];
    assert Optional(b, Context) + Optional(b, Requirements) + Optional(b, Constraints) + Optional(b, SuccessCriteria) ==
           blocks;
  }
}
