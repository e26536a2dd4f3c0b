/**
 The mission reader: it scans the briefing file for its context, by rules that differ from
 those of the briefing's own parser.
 */
module MissionReader {
  import opened Wrappers
  import opened Text
  import opened Briefing

  const DEFAULT_MISSION := "Build" + " great products and serve our customers well."

  /** The context lines the mission reader gathers, stopping at the first other heading of level two or deeper. */
  function MissionLines(lines: seq<string>, inContext: bool): seq<string> {
    if lines == [] then []
    else if StartsWith(lines[0], "## Context") then MissionLines(lines[1..], true)
    else if StartsWith(lines[0], "##") && inContext then []
    else if inContext && Strip(lines[0]) != "" then [Strip(lines[0])] + MissionLines(lines[1..], inContext)
    else MissionLines(lines[1..], inContext)
  }

  function JoinOr(lines: seq<string>, default: string): string {
    if lines != [] then Join(" ", lines) else default
  }

  /** The mission, given the contents of the briefing file if there is one. */
  function Mission(file: Option<string>): string {
    match file
    case None => DEFAULT_MISSION
    case Some(contents) => JoinOr(MissionLines(Split(AsRead(contents)), false), DEFAULT_MISSION)
  }

  lemma {:induction false} NoHeadingNoMission(lines: seq<string>)
    requires forall k :: 0 <= k < |lines| ==> !StartsWith(lines[k], "## Context")
    ensures MissionLines(lines, false) == []
  {
    if lines != [] {
      NoHeadingNoMission(lines[1..]);
    }
  }

  /** The substring test only saves work: without the heading no line is ever gathered. */
  lemma NoContextNoMission(content: string)
    requires !Contains(content, "## Context")
    ensures MissionLines(Split(content), false) == []
  {
    var lines := Split(content);
    forall k | 0 <= k < |lines|
      ensures !StartsWith(lines[k], "## Context")
    {
      if StartsWith(lines[k], "## Context") {
        LineIsInText(content, k, "## Context");
        assert false;
      }
    }
    NoHeadingNoMission(lines);
  }

  method LoadOrgMission(file: Option<string>) returns (mission: string)
    ensures mission == Mission(file)
    ensures file.None? ==> mission == "Build" + " great products and serve our customers well."
  {
    if file.Some? {
      var content := AsRead(file.value);
      if Contains(content, "## Context") {
        var lines := Split(content);
        var inContext := false;
        var contextLines: seq<string> := [];
        var i := 0;
        while i < |lines|
          invariant 0 <= i <= |lines|
          invariant contextLines + MissionLines(lines[i..], inContext) == MissionLines(lines, false)
        {
          var line := lines[i];
          assert lines[i..][1..] == lines[i + 1..];
          if StartsWith(line, "## Context") {
            inContext := true;
          } else if StartsWith(line, "##") && inContext {
            assert MissionLines(lines[i..], inContext) == [];
            break;
          } else if inContext && Strip(line) != "" {
            contextLines := contextLines + [Strip(line)];
          }
          i := i + 1;
        }
        assert contextLines == MissionLines(lines, false);
        if contextLines != [] {
          return Join(" ", contextLines);
        }
      } else {
        NoContextNoMission(content);
      }
    }
    mission := DEFAULT_MISSION;
  }

  /** The non-blank lines, each trimmed. */
  function TrimmedLines(lines: seq<string>): seq<string> {
    if lines == [] then []
    else (if Strip(lines[0]) != "" then [Strip(lines[0])] else []) + TrimmedLines(lines[1..])
  }

  lemma ContextIsLevelTwo(line: string)
    ensures StartsWith(line, "## Context") ==> StartsWith(line, "##")
  {
    assert "## Context"[..2] == "##";
  }

  /** The lines of a context that the mission can take up: other headings end it, repeated ones are dropped. */
  function ContextText(lines: seq<string>): seq<string> {
    if lines == [] then []
    else if StartsWith(lines[0], "## Context") then ContextText(lines[1..])
    else if StartsWith(lines[0], "##") then []
    else [lines[0]] + ContextText(lines[1..])
  }

  /** Text after the context adds nothing if it opens with another heading. */
  lemma {:induction false} MissionOfBody(lines: seq<string>, tail: seq<string>)
    requires MissionLines(tail, true) == []
    ensures MissionLines(lines + tail, true) == TrimmedLines(ContextText(lines))
  {
    if lines == [] {
      assert lines + tail == tail;
    } else {
      assert (lines + tail)[1..] == lines[1..] + tail;
      MissionOfBody(lines[1..], tail);
      assert ([lines[0]] + ContextText(lines[1..]))[1..] == ContextText(lines[1..]);
    }
  }

  lemma MissionInside(lines: seq<string>)
    ensures MissionLines(lines, true) == TrimmedLines(ContextText(lines))
  {
    MissionOfBody(lines, []);
    assert lines + [] == lines;
  }

  ghost predicate NoLevelTwo(lines: seq<string>) {
    forall l :: l in lines ==> !StartsWith(l, "##")
  }

  lemma {:induction false} AllContextText(lines: seq<string>)
    requires NoLevelTwo(lines)
    ensures ContextText(lines) == lines
  {
    if lines != [] {
      AllContextText(lines[1..]);
      ContextIsLevelTwo(lines[0]);
    }
  }

  lemma {:induction false} TrimmedWeight(lines: seq<string>)
    ensures LinesWeight(TrimmedLines(lines)) == LinesWeight(lines)
  {
    if lines != [] {
      TrimmedWeight(lines[1..]);
      StripWeight(lines[0]);
      var first := if Strip(lines[0]) != "" then [Strip(lines[0])] else [];
      LinesWeightConcat(first, TrimmedLines(lines[1..]));
    }
  }

  lemma LevelTwoIsVisible(line: string)
    requires StartsWith(line, "##")
    ensures Weight(line) > 0 && Strip(line) != "" && Strip(line)[0] == '#'
  {
    assert line[0] == "##"[0] == '#';
    assert LStrip(line) == line;
    StripWeight(line);
    RStripIsTrimmedRight(line);
  }

  /** A line starting with "##" costs the mission visible characters. */
  lemma {:induction false} ContextTextWeight(lines: seq<string>)
    ensures LinesWeight(ContextText(lines)) <= LinesWeight(lines)
    ensures !NoLevelTwo(lines) ==> LinesWeight(ContextText(lines)) < LinesWeight(lines)
  {
    if lines != [] {
      ContextTextWeight(lines[1..]);
      ContextIsLevelTwo(lines[0]);
      if StartsWith(lines[0], "##") {
        LevelTwoIsVisible(lines[0]);
      } else {
        assert !NoLevelTwo(lines) ==> !NoLevelTwo(lines[1..]);
        assert ([lines[0]] + ContextText(lines[1..]))[1..] == ContextText(lines[1..]);
      }
    }
  }

  /** If nothing is left of such a context, then because its first visible line is a heading. */
  lemma {:induction false} NothingLeft(lines: seq<string>)
    requires !NoLevelTwo(lines) && TrimmedLines(ContextText(lines)) == []
    ensures var all := TrimmedLines(lines);
            all != [] && all[0] != "" && all[0][0] == '#'
  {
    ContextIsLevelTwo(lines[0]);
    if StartsWith(lines[0], "##") {
      LevelTwoIsVisible(lines[0]);
    } else {
      assert ([lines[0]] + ContextText(lines[1..]))[1..] == ContextText(lines[1..]);
      assert !NoLevelTwo(lines[1..]);
      NothingLeft(lines[1..]);
    }
  }

  /** After a context heading and the blank line below it the reader is in the context. */
  lemma MissionOfContext(lines: seq<string>)
    ensures MissionLines(["## Context", ""] + lines, false) == MissionLines(lines, true)
  {
    var all := ["## Context", ""] + lines;
    assert all[0] == "## Context" && all[1..][0] == "";
    assert all[1..][1..] == lines;
    assert Strip("") == "";
  }

  lemma HeadingIsLevelTwo(s: Section)
    ensures StartsWith(Heading(s), "##") && (s != Context ==> !StartsWith(Heading(s), "## Context"))
    ensures '\n' !in Heading(s) && '\r' !in Heading(s)
  {
    HeadingsDiffer(s);
  }

  /** A blank line and another heading add nothing to the mission, whatever follows. */
  lemma MissionOfTail(heading: string, rest: seq<string>)
    requires StartsWith(heading, "##") && !StartsWith(heading, "## Context")
    ensures MissionLines([""] + ([heading] + rest), true) == []
  {
    var tail := [heading] + rest;
    assert tail[0] == heading;
    assert MissionLines(tail, true) == [];
    assert ([""] + tail)[1..] == tail;
    assert Strip("") == "";
  }

  lemma ContextComesFirst(b: Content)
    requires b.context != ""
    ensures var sections := Present(b, ALL_SECTIONS);
            && |sections| > 0 && sections[0] == Context
            && (|sections| > 1 ==> sections[1] != Context)
  {
    var others := ALL_SECTIONS[1..];
    assert others == [Requirements, Constraints, SuccessCriteria];
    assert Present(b, ALL_SECTIONS) == [Context] + Present(b, others);
    PresentIsNonEmpty(b, others);
    if |Present(b, others)| > 0 {
      assert Present(b, others)[0] in others;
    }
  }

  lemma FirstLineShows(context: string)
    requires context != "" && !IsSpace(context[0])
    ensures TrimmedLines(Split(context)) != []
  {
    var line := Split(context)[0];
    assert line[0] == context[0];
    LStripIsTrimmedLeft(line);
    assert LStrip(line) == line;
    StripWeight(line);
  }

  lemma BlankTailAddsNothing(lines: seq<string>)
    ensures TrimmedLines(ContextText(lines + [""])) == TrimmedLines(ContextText(lines))
  {
    assert Strip("") == "";
    assert MissionLines([""], true) == MissionLines([], true) == [];
    MissionOfBody(lines, [""]);
    MissionInside(lines + [""]);
  }

  lemma MissionOfNextBlock(heading: string, rest: string)
    requires StartsWith(heading, "##") && !StartsWith(heading, "## Context")
    requires '\n' !in heading && '\r' !in heading
    ensures MissionLines([""] + Split(AsRead(heading + "\n\n" + rest)), true) == []
  {
    ReadBeforeBlankLine(heading, rest);
    ReadsAsWritten(heading);
    SplitOneLine(heading);
    MissionOfTail(heading, [""] + Split(AsRead(rest)));
  }

  lemma MissionOfRead(lines: seq<string>, tail: seq<string>, own: seq<string>)
    requires MissionLines(tail, true) == [] && (own == lines || own == lines + [""])
    ensures MissionLines(lines + tail, true) == TrimmedLines(ContextText(own))
  {
    MissionOfBody(lines, tail);
    BlankTailAddsNothing(lines);
  }

  /** A context as read from a file, followed by a blank line and lines that add nothing. */
  lemma MissionOfFile(context: string, after: string)
    requires MissionLines([""] + Split(AsRead(after)), true) == []
    ensures MissionLines(Split(AsRead(context + "\n\n" + after)), true) ==
            TrimmedLines(ContextText(Split(AsRead(context))))
  {
    ReadBeforeBlankLine(context, after);
    UnreturnedLines(context);
    MissionOfRead(Split(AsRead(Unreturned(context))), [""] + Split(AsRead(after)), Split(AsRead(context)));
  }

  lemma Regroup(a: string, b: string, c: string, d: string)
    ensures a + b + c + d == a + (b + c + d)
  {
  }

  /** The text of some blocks is the first one's heading, its text, and the other blocks. */
  lemma BlocksOpen(b: Content, sections: seq<Section>)
    requires sections != []
    ensures Join("\n\n", Blocks(b, sections)) ==
            Heading(sections[0]) + "\n\n" +
            if |sections| == 1 then b.Get(sections[0])
            else b.Get(sections[0]) + "\n\n" + Join("\n\n", Blocks(b, sections[1..]))
  {
    if |sections| > 1 {
      var others := Join("\n\n", Blocks(b, sections[1..]));
      Regroup(Heading(sections[0]) + "\n\n", b.Get(sections[0]), "\n\n", others);
    }
  }

  /** A printed briefing is its context's block, and the next section's if there is one. */
  lemma PrintedFile(b: Content) returns (next: Option<Section>, rest: string)
    requires b.context != ""
    ensures next != Some(Context)
    ensures Print(b) == Heading(Context) + "\n\n" +
                        if next.None? then b.context
                        else b.context + "\n\n" + (Heading(next.value) + "\n\n" + rest)
  {
    var sections := Present(b, ALL_SECTIONS);
    PrintIsBlocks(b);
    ContextComesFirst(b);
    BlocksOpen(b, sections);
    next, rest := None, "";
    if |sections| > 1 {
      var others := sections[1..];
      next := Some(others[0]);
      BlocksOpen(b, others);
      rest := if |others| == 1 then b.Get(others[0])
              else b.Get(others[0]) + "\n\n" + Join("\n\n", Blocks(b, others[1..]));
    }
  }

  /**
   What the mission reader makes of any briefing printed to a file with a context: the
   context's lines up to the first other heading of level two or deeper, the non-blank ones,
   each trimmed, joined by spaces. Lines are those of the file as read, in which a carriage
   return ends a line too.
   */
  lemma MissionOfPrinted(b: Content)
    requires b.context != ""
    ensures Mission(Some(Print(b))) == JoinOr(TrimmedLines(ContextText(Split(AsRead(b.context)))), DEFAULT_MISSION)
  {
    var next, rest := PrintedFile(b);
    HeadingIsLevelTwo(Context);
    if next.None? {
      ReadTitled(Heading(Context), b.context);
      SplitTitled(Heading(Context), AsRead(b.context));
      MissionOfContext(Split(AsRead(b.context)));
      MissionInside(Split(AsRead(b.context)));
    } else {
      var after := Heading(next.value) + "\n\n" + rest;
      var text := b.context + "\n\n" + after;
      ReadTitled(Heading(Context), text);
      SplitTitled(Heading(Context), AsRead(text));
      MissionOfContext(Split(AsRead(text)));
      HeadingIsLevelTwo(next.value);
      MissionOfNextBlock(Heading(next.value), rest);
      MissionOfFile(b.context, after);
    }
  }

  lemma DefaultIsNoHeading()
    ensures DEFAULT_MISSION != "" && DEFAULT_MISSION[0] != '#'
  {
    assert DEFAULT_MISSION[0] == "Build"[0] == 'B';
  }

  /** A context with a heading of level two or deeper among its lines is not read in full. */
  lemma HeadingCutsMission(lines: seq<string>)
    requires !NoLevelTwo(lines)
    ensures JoinOr(TrimmedLines(ContextText(lines)), DEFAULT_MISSION) != Join(" ", TrimmedLines(lines))
  {
    var kept, all := TrimmedLines(ContextText(lines)), TrimmedLines(lines);
    if kept == [] {
      NothingLeft(lines);
      assert Join(" ", all)[0] == '#';
      DefaultIsNoHeading();
    } else {
      ContextTextWeight(lines);
      TrimmedWeight(lines);
      TrimmedWeight(ContextText(lines));
      JoinWeight(" ", kept);
      JoinWeight(" ", all);
    }
  }

  lemma ContextAgrees(lines: seq<string>)
    ensures JoinOr(TrimmedLines(ContextText(lines)), DEFAULT_MISSION) == Join(" ", TrimmedLines(lines)) <==>
            TrimmedLines(lines) != [] && NoLevelTwo(lines)
  {
    if NoLevelTwo(lines) {
      AllContextText(lines);
      DefaultIsNoHeading();
    } else {
      HeadingCutsMission(lines);
    }
  }

  /**
   Exactly when the mission is the whole context of the printed briefing: when that has a
   visible character and none of its lines, as read, starts with "##".
   */
  lemma MissionAgreesExactly(b: Content)
    requires b.context != ""
    ensures var lines := Split(AsRead(b.context));
            && (Mission(Some(Print(b))) == Join(" ", TrimmedLines(lines)) <==>
                TrimmedLines(lines) != [] && NoLevelTwo(lines))
            && (Trimmed(b.context) ==> TrimmedLines(lines) != [])
  {
    MissionOfPrinted(b);
    ContextAgrees(Split(AsRead(b.context)));
    if Trimmed(b.context) {
      ReadFirst(b.context);
      FirstLineShows(AsRead(b.context));
    }
  }

  // Any text, against the parser

  predicate IsContext(p: Part) {
    SectionOf(p.heading) == Some(Context)
  }

  /** The lines below context headings, up to the first other heading. */
  ghost function ContextRun(parts: seq<Part>): seq<string> {
    if parts == [] || !IsContext(parts[0]) then [] else parts[0].body + ContextRun(parts[1..])
  }

  /** The lines below the first context heading and those that follow it directly. */
  ghost function FirstContexts(parts: seq<Part>): seq<string> {
    if parts == [] then []
    else if IsContext(parts[0]) then ContextRun(parts)
    else FirstContexts(parts[1..])
  }

  lemma {:induction false} PartLinesCons(parts: seq<Part>)
    requires parts != []
    ensures PartLines(parts) == [parts[0].heading] + (parts[0].body + PartLines(parts[1..]))
    decreases |parts|
  {
    var first, last := parts[0], parts[|parts| - 1];
    if |parts| == 1 {
      assert PartLines(parts[..0]) == PartLines(parts[1..]) == [];
    } else {
      var earlier := parts[..|parts| - 1];
      PartLinesCons(earlier);
      assert parts[1..][..|parts| - 2] == earlier[1..];
      assert PartLines(parts[1..]) == PartLines(earlier[1..]) + ([last.heading] + last.body);
    }
  }

  lemma HeadingsAreLevelTwo(line: string)
    requires SectionOf(line).Some?
    ensures StartsWith(line, "##")
  {
    var s := SectionOf(line).value;
    HeadingIsLevelTwo(s);
    assert StartsWith(line, Heading(s));
  }

  lemma {:induction false} ContextTextOfBody(body: seq<string>, a: seq<string>, b: seq<string>)
    requires ContextText(a) == ContextText(b)
    ensures ContextText(body + a) == ContextText(body + b)
  {
    if body == [] {
      assert body + a == a && body + b == b;
    } else {
      assert (body + a)[1..] == body[1..] + a && (body + b)[1..] == body[1..] + b;
      ContextTextOfBody(body[1..], a, b);
    }
  }

  lemma {:induction false} ContextTextOfParts(parts: seq<Part>)
    requires forall p :: p in parts ==> p.Valid()
    ensures ContextText(PartLines(parts)) == ContextText(ContextRun(parts))
  {
    if parts != [] {
      var p, rest := parts[0], parts[1..];
      assert p in parts;
      PartLinesCons(parts);
      assert PartLines(parts)[1..] == p.body + PartLines(rest);
      HeadingsAreLevelTwo(p.heading);
      if IsContext(p) {
        ContextTextOfParts(rest);
        ContextTextOfBody(p.body, PartLines(rest), ContextRun(rest));
      }
    }
  }

  lemma {:induction false} MissionSkips(lines: seq<string>, rest: seq<string>)
    requires forall l :: l in lines ==> !StartsWith(l, "## Context")
    ensures MissionLines(lines + rest, false) == MissionLines(rest, false)
  {
    if lines == [] {
      assert lines + rest == rest;
    } else {
      assert (lines + rest)[1..] == lines[1..] + rest;
      MissionSkips(lines[1..], rest);
    }
  }

  lemma MissionFromContext(parts: seq<Part>)
    requires parts != [] && IsContext(parts[0]) && forall p :: p in parts ==> p.Valid()
    ensures MissionLines(PartLines(parts), false) == TrimmedLines(ContextText(ContextRun(parts)))
  {
    PartLinesCons(parts);
    var lines := PartLines(parts);
    assert MissionLines(lines, false) == MissionLines(lines[1..], true);
    assert ContextText(lines) == ContextText(lines[1..]);
    MissionInside(lines[1..]);
    ContextTextOfParts(parts);
  }

  lemma {:induction false} MissionOfParts(parts: seq<Part>)
    requires forall p :: p in parts ==> p.Valid()
    ensures MissionLines(PartLines(parts), false) == TrimmedLines(ContextText(FirstContexts(parts)))
  {
    if parts != [] {
      var p, rest := parts[0], parts[1..];
      assert p in parts;
      if IsContext(p) {
        MissionFromContext(parts);
      } else {
        PartLinesCons(parts);
        assert PartLines(parts) == ([p.heading] + p.body) + PartLines(rest);
        MissionSkips([p.heading] + p.body, PartLines(rest));
        MissionOfParts(rest);
      }
    }
  }

  /**
   What the mission reader reads from any file: the lines below the first context heading and
   the ones directly after it, together, up to a line that starts with "##".
   */
  lemma MissionOfText(file: string, preface: seq<string>, parts: seq<Part>)
    requires Decomposes(AsRead(file), preface, parts)
    ensures Mission(Some(file)) == JoinOr(TrimmedLines(ContextText(FirstContexts(parts))), DEFAULT_MISSION)
  {
    MissionSkips(preface, PartLines(parts));
    MissionOfParts(parts);
  }

  lemma {:induction false} TrimmedConcat(a: seq<string>, b: seq<string>)
    ensures TrimmedLines(a + b) == TrimmedLines(a) + TrimmedLines(b)
  {
    if a == [] {
      assert a + b == b;
    } else {
      assert (a + b)[1..] == a[1..] + b;
      TrimmedConcat(a[1..], b);
    }
  }

  lemma {:induction false} LStripLines(s: string)
    ensures TrimmedLines(Split(LStrip(s))) == TrimmedLines(Split(s))
  {
    if s != "" && IsSpace(s[0]) {
      LStripLines(s[1..]);
      var rest := Split(s[1..]);
      if s[0] == '\n' {
        assert ([""] + rest)[1..] == rest;
        assert Strip("") == "";
      } else {
        var longer := [[s[0]] + rest[0]] + rest[1..];
        assert longer[1..] == rest[1..];
        assert ([s[0]] + rest[0])[1..] == rest[0];
      }
    }
  }

  lemma StripSnoc(line: string, c: char)
    requires IsSpace(c)
    ensures Strip(line + [c]) == Strip(line)
  {
    LStripConcat(line, [c]);
    assert [c][1..] == "";
    var left := LStrip(line);
    if left != "" {
      assert (left + [c])[..|left + [c]| - 1] == left;
    }
  }

  lemma ExtendLastTrims(lines: seq<string>, c: char)
    requires lines != [] && IsSpace(c)
    ensures TrimmedLines(ExtendLast(lines, c)) == TrimmedLines(lines)
  {
    var before, last := lines[..|lines| - 1], lines[|lines| - 1];
    assert lines == before + [last];
    TrimmedConcat(before, [last]);
    TrimmedConcat(before, [last + [c]]);
    StripSnoc(last, c);
  }

  lemma {:induction false} RStripLines(s: string)
    ensures TrimmedLines(Split(RStrip(s))) == TrimmedLines(Split(s))
  {
    if s != "" && IsSpace(s[|s| - 1]) {
      var before, c := s[..|s| - 1], s[|s| - 1];
      assert s == before + [c];
      RStripLines(before);
      if c == '\n' {
        assert s == before + "\n" + "";
        SplitConcat(before, "");
        TrimmedConcat(Split(before), [""]);
        assert Strip("") == "";
      } else {
        SplitSnoc(before, c);
        ExtendLastTrims(Split(before), c);
      }
    }
  }

  /** The parsed context has the trimmed lines of the last context heading with lines below it. */
  lemma ContextAsParsed(markdown: string, preface: seq<string>, parts: seq<Part>)
    requires Decomposes(markdown, preface, parts)
    ensures TrimmedLines(Split(Parse(markdown).context)) == TrimmedLines(LastBody(parts, Context))
  {
    var body := LastBody(parts, Context);
    var text := Join("\n", body);
    ParseReadsLastText(markdown, preface, parts, Context);
    assert Parse(markdown).context == Strip(text);
    LStripLines(text);
    RStripLines(LStrip(text));
    if body == [] {
      assert Split("") == [""] && Strip("") == "";
    } else {
      LastBodyIsInText(parts, Context);
      SplitHasNoNewline(markdown);
      SplitJoin(body);
    }
  }

  lemma JoinedWeight(lines: seq<string>)
    ensures Weight(Join(" ", TrimmedLines(lines))) == LinesWeight(lines)
  {
    JoinWeight(" ", TrimmedLines(lines));
    TrimmedWeight(lines);
  }

  lemma {:induction false} VisibleWeight(lines: seq<string>)
    ensures TrimmedLines(lines) != [] <==> LinesWeight(lines) > 0
  {
    if lines != [] {
      VisibleWeight(lines[1..]);
      StripWeight(lines[0]);
      StripIsTrimmed(lines[0]);
    }
  }

  lemma NothingVisible(lines: seq<string>)
    requires TrimmedLines(lines) == []
    ensures NoLevelTwo(lines)
  {
    VisibleWeight(lines);
    ContextTextWeight(lines);
  }

  /** Of two pieces read together, when the reading is that of the second. */
  lemma ReadingIsLast(earlier: seq<string>, last: seq<string>)
    ensures var all := earlier + last;
            var agree := JoinOr(TrimmedLines(ContextText(all)), DEFAULT_MISSION) == Join(" ", TrimmedLines(last));
            var blank, visible := TrimmedLines(earlier) == [], TrimmedLines(last) != [];
            && (blank ==> (agree <==> visible && NoLevelTwo(last)))
            && (NoLevelTwo(all) ==> (agree <==> visible && blank))
  {
    var all := earlier + last;
    TrimmedConcat(earlier, last);
    if TrimmedLines(earlier) == [] {
      NothingVisible(earlier);
      assert TrimmedLines(all) == TrimmedLines(last);
      ContextAgrees(all);
      assert NoLevelTwo(all) <==> NoLevelTwo(last);
    } else if NoLevelTwo(all) {
      AllContextText(all);
      JoinedWeight(all);
      JoinedWeight(last);
      LinesWeightConcat(earlier, last);
      VisibleWeight(earlier);
    }
  }

  /**
   When the mission is the parsed context, for any file whose deciding context lines, those
   the parser keeps, are among the first the reader meets. If only blank lines come before
   them under context headings: exactly if they have something visible and none of them
   starts with "##". If no line of these context sections starts with "##": exactly if they
   have something visible and only blank lines come before them.
   */
  lemma MissionAgreesOnText(file: string, preface: seq<string>, parts: seq<Part>, earlier: seq<string>)
    requires Decomposes(AsRead(file), preface, parts)
    requires FirstContexts(parts) == earlier + LastBody(parts, Context)
    ensures var agree := Mission(Some(file)) == Join(" ", TrimmedLines(Split(Parse(AsRead(file)).context)));
            var blank, visible := TrimmedLines(earlier) == [], TrimmedLines(LastBody(parts, Context)) != [];
            && (blank ==> (agree <==> visible && NoLevelTwo(LastBody(parts, Context))))
            && (NoLevelTwo(FirstContexts(parts)) ==> (agree <==> visible && blank))
  {
    MissionOfText(file, preface, parts);
    ContextAsParsed(AsRead(file), preface, parts);
    ReadingIsLast(earlier, LastBody(parts, Context));
  }
}
