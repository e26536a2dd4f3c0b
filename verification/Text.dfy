/** Python's string operations as the briefing code uses them: split on newlines, join, strip, startswith. */
module Text {

  predicate StartsWith(s: string, prefix: string) {
    prefix <= s
  }

  predicate Contains(s: string, part: string) {
    StartsWith(s, part) || (s != "" && Contains(s[1..], part))
  }

  /** The characters `str.strip` removes. */
  predicate IsSpace(c: char) {
    || '\t' <= c <= '\r'
    || '\U{1c}' <= c <= ' '
    || c == '\U{85}' || c == '\U{a0}' || c == '\U{1680}'
    || '\U{2000}' <= c <= '\U{200a}'
    || c == '\U{2028}' || c == '\U{2029}' || c == '\U{202f}' || c == '\U{205f}' || c == '\U{3000}'
  }

  predicate Blank(s: string) {
    forall c :: c in s ==> IsSpace(c)
  }

  /** `s.split("\n")`: never empty. */
  function Split(s: string): (lines: seq<string>)
    ensures |lines| >= 1
  {
    if s == "" then [""]
    else
      var rest := Split(s[1..]);
      if s[0] == '\n' then [""] + rest else [[s[0]] + rest[0]] + rest[1..]
  }

  function Join(sep: string, parts: seq<string>): string {
    if |parts| == 0 then "" else if |parts| == 1 then parts[0] else parts[0] + sep + Join(sep, parts[1..])
  }

  function LStrip(s: string): string {
    if s != "" && IsSpace(s[0]) then LStrip(s[1..]) else s
  }

  function RStrip(s: string): string {
    if s != "" && IsSpace(s[|s| - 1]) then RStrip(s[..|s| - 1]) else s
  }

  function Strip(s: string): string {
    RStrip(LStrip(s))
  }

  predicate Trimmed(s: string) {
    s == "" || (!IsSpace(s[0]) && !IsSpace(s[|s| - 1]))
  }

  // Splitting and joining

  lemma Associate(a: string, b: string, c: string)
    ensures a + b + c == a + (b + c)
  {
  }

  lemma {:induction false} SplitConcat(a: string, b: string)
    ensures Split(a + "\n" + b) == Split(a) + Split(b)
  {
    var s := a + "\n" + b;
    if a == "" {
      assert s[1..] == b;
    } else {
      assert s[1..] == a[1..] + "\n" + b;
      SplitConcat(a[1..], b);
    }
  }

  /** The lines after appending `c` to the last one. */
  function ExtendLast(lines: seq<string>, c: char): seq<string>
    requires lines != []
  {
    lines[..|lines| - 1] + [lines[|lines| - 1] + [c]]
  }

  lemma ExtendLastOfLonger(first: char, rest: seq<string>, c: char)
    requires rest != []
    ensures ExtendLast([""] + rest, c) == [""] + ExtendLast(rest, c)
    ensures var more := ExtendLast(rest, c);
            ExtendLast([[first] + rest[0]] + rest[1..], c) == [[first] + more[0]] + more[1..]
  {
    if |rest| == 1 {
      assert [first] + rest[0] + [c] == [first] + (rest[0] + [c]);
    }
  }

  lemma {:induction false} SplitSnoc(s: string, c: char)
    requires c != '\n'
    ensures Split(s + [c]) == ExtendLast(Split(s), c)
  {
    if s == "" {
      assert (s + [c])[1..] == "" && (s + [c])[0] == c;
      assert Split("") == [""] && [c] + "" == "" + [c];
    } else {
      assert (s + [c])[1..] == s[1..] + [c];
      SplitSnoc(s[1..], c);
      ExtendLastOfLonger(s[0], Split(s[1..]), c);
    }
  }

  lemma {:induction false} JoinConcat(sep: string, a: seq<string>, b: seq<string>)
    requires a != [] && b != []
    ensures Join(sep, a + b) == Join(sep, a) + sep + Join(sep, b)
  {
    if |a| == 1 {
      assert (a + b)[1..] == b;
    } else {
      assert (a + b)[1..] == a[1..] + b;
      JoinConcat(sep, a[1..], b);
    }
  }

  lemma JoinHead(head: string, lines: seq<string>)
    requires lines != []
    ensures Join("\n", [head + lines[0]] + lines[1..]) == head + Join("\n", lines)
  {
    if |lines| > 1 {
      var longer, rest := [head + lines[0]] + lines[1..], Join("\n", lines[1..]);
      assert longer[1..] == lines[1..] && longer[0] == head + lines[0];
      Associate(head, lines[0], "\n");
      Associate(head, lines[0] + "\n", rest);
    }
  }

  lemma {:induction false} JoinSplit(s: string)
    ensures Join("\n", Split(s)) == s
  {
    if s != "" {
      JoinSplit(s[1..]);
      var rest := Split(s[1..]);
      if s[0] == '\n' {
        assert ([""] + rest)[1..] == rest;
      } else {
        JoinHead([s[0]], rest);
      }
    }
  }

  lemma {:induction false} SplitOneLine(s: string)
    requires '\n' !in s
    ensures Split(s) == [s]
  {
    if s != "" {
      SplitOneLine(s[1..]);
      assert [s[0]] + s[1..] == s;
    }
  }

  lemma {:induction false} SplitJoin(lines: seq<string>)
    requires lines != [] && forall l :: l in lines ==> '\n' !in l
    ensures Split(Join("\n", lines)) == lines
  {
    if |lines| == 1 {
      SplitOneLine(lines[0]);
    } else {
      SplitJoin(lines[1..]);
      SplitConcat(lines[0], Join("\n", lines[1..]));
      SplitOneLine(lines[0]);
    }
  }

  lemma {:induction false} SplitHasNoNewline(s: string)
    ensures forall l :: l in Split(s) ==> '\n' !in l
  {
    if s != "" {
      SplitHasNoNewline(s[1..]);
    }
  }

  /** A line that starts with `part` makes `part` a substring of the whole text. */
  lemma {:induction false} LineIsInText(s: string, k: nat, part: string)
    requires k < |Split(s)| && StartsWith(Split(s)[k], part)
    ensures Contains(s, part)
    ensures k == 0 ==> StartsWith(s, part)
  {
    if s != "" && s[0] == '\n' && k > 0 {
      LineIsInText(s[1..], k - 1, part);
    } else if s != "" && s[0] != '\n' && k > 0 {
      LineIsInText(s[1..], k, part);
    } else if s != "" && s[0] != '\n' && part != "" {
      assert part[1..] <= Split(s[1..])[0];
      LineIsInText(s[1..], 0, part[1..]);
      assert part == [s[0]] + part[1..] <= [s[0]] + s[1..] == s;
    }
  }

  lemma SplitBlankLine(before: string, after: string)
    ensures Split(before + "\n\n" + after) == Split(before) + [""] + Split(after)
  {
    assert before + "\n\n" + after == before + "\n" + ("\n" + after);
    SplitConcat(before, "\n" + after);
    assert "\n" + after == "" + "\n" + after;
    SplitConcat("", after);
    assert Split("") == [""];
  }

  lemma SplitTitled(title: string, text: string)
    requires '\n' !in title
    ensures Split(title + "\n\n" + text) == [title, ""] + Split(text)
  {
    SplitBlankLine(title, text);
    SplitOneLine(title);
  }

  // Reading a file

  /** What a character of a text file is read as: a carriage return ends a line, with a newline right after it. */
  function ReadAt(s: string, k: nat): string
    requires k < |s|
  {
    if s[k] == '\r' then "\n" else if s[k] == '\n' && k > 0 && s[k - 1] == '\r' then "" else [s[k]]
  }

  /** What reading a text file yields. */
  function AsRead(s: string): string {
    if s == "" then "" else AsRead(s[..|s| - 1]) + ReadAt(s, |s| - 1)
  }

  lemma {:induction false} ReadsAsWritten(s: string)
    requires '\r' !in s
    ensures AsRead(s) == s
  {
    if s != "" {
      ReadsAsWritten(s[..|s| - 1]);
    }
  }

  /** No newline of `b` belongs to a carriage return at the end of `a`. */
  predicate Apart(a: string, b: string) {
    a != "" && b != "" && a[|a| - 1] == '\r' ==> b[0] != '\n'
  }

  lemma ReadAtConcat(a: string, b: string)
    requires b != "" && Apart(a, b)
    ensures ReadAt(a + b, |a + b| - 1) == ReadAt(b, |b| - 1)
  {
  }

  /** Reading goes piece by piece, except between a carriage return and its newline. */
  lemma {:induction false} AsReadConcat(a: string, b: string)
    requires Apart(a, b)
    ensures AsRead(a + b) == AsRead(a) + AsRead(b)
  {
    if b == "" {
      assert a + b == a;
    } else {
      var before := b[..|b| - 1];
      assert (a + b)[..|a + b| - 1] == a + before;
      AsReadConcat(a, before);
      ReadAtConcat(a, b);
      Associate(AsRead(a), AsRead(before), ReadAt(b, |b| - 1));
    }
  }

  lemma ReadFirst(s: string)
    requires s != "" && s[0] != '\r'
    ensures AsRead(s) != "" && AsRead(s)[0] == s[0]
  {
    assert s == [s[0]] + s[1..];
    AsReadConcat([s[0]], s[1..]);
    ReadsAsWritten([s[0]]);
  }

  lemma ReadReturn(a: string, ending: string, b: string)
    requires ending in {"\r", "\r\n"} && Apart(ending, b)
    ensures AsRead(a + ending + b) == AsRead(a) + "\n" + AsRead(b)
  {
    assert ending[0] == '\r';
    assert "\r\n"[..1] == "\r" && "\r"[..0] == "";
    assert AsRead("\r") == "\n" && AsRead("\r\n") == "\n";
    AsReadConcat(a, ending);
    AsReadConcat(a + ending, b);
  }

  /** A carriage return is read as a newline, with a newline right after it or without; nothing else is changed. */
  lemma ReadEndings(a: string, b: string)
    ensures AsRead(a + "\r\n" + b) == AsRead(a) + "\n" + AsRead(b)
    ensures Apart("\r", b) ==> AsRead(a + "\r" + b) == AsRead(a) + "\n" + AsRead(b)
    ensures '\r' !in b ==> AsRead(b) == b
  {
    ReadReturn(a, "\r\n", b);
    if Apart("\r", b) {
      ReadReturn(a, "\r", b);
    }
    if '\r' !in b {
      ReadsAsWritten(b);
    }
  }

  lemma ReadTitled(title: string, text: string)
    requires '\r' !in title
    ensures AsRead(title + "\n\n" + text) == title + "\n\n" + AsRead(text)
  {
    ReadsAsWritten(title + "\n\n");
    AsReadConcat(title + "\n\n", text);
  }

  /** The text without a carriage return at its end. */
  function Unreturned(text: string): string {
    if text != "" && text[|text| - 1] == '\r' then text[..|text| - 1] else text
  }

  lemma UnreturnedLines(text: string)
    ensures Split(AsRead(text)) == Split(AsRead(Unreturned(text))) ||
            Split(AsRead(text)) == Split(AsRead(Unreturned(text))) + [""]
  {
    var kept := Unreturned(text);
    if kept != text {
      assert text == kept + "\r";
      AsReadConcat(kept, "\r");
      assert AsRead("\r") == "\n";
      assert AsRead(kept) + "\n" == AsRead(kept) + "\n" + "";
      SplitConcat(AsRead(kept), "");
    }
  }

  lemma ReadLineEnd(text: string)
    ensures AsRead(text + "\n") == AsRead(Unreturned(text)) + "\n"
  {
    var line := text + "\n";
    assert line[..|line| - 1] == text;
  }

  /** The lines of a file as read: a carriage return before a newline goes with it. */
  lemma ReadConcat(text: string, after: string)
    ensures Split(AsRead(text + "\n" + after)) == Split(AsRead(Unreturned(text))) + Split(AsRead(after))
  {
    ReadLineEnd(text);
    AsReadConcat(text + "\n", after);
    SplitConcat(AsRead(Unreturned(text)), AsRead(after));
  }

  lemma ReadBeforeBlankLine(text: string, after: string)
    ensures Split(AsRead(text + "\n\n" + after)) == Split(AsRead(Unreturned(text))) + ([""] + Split(AsRead(after)))
  {
    var rest := "" + "\n" + after;
    assert text + "\n\n" + after == text + "\n" + rest;
    ReadConcat(text, rest);
    ReadConcat("", after);
    assert Split(AsRead("")) == [""];
  }

  // Stripping

  lemma {:induction false} LStripIsTrimmedLeft(s: string)
    ensures LStrip(s) == "" || !IsSpace(LStrip(s)[0])
  {
    if s != "" && IsSpace(s[0]) {
      LStripIsTrimmedLeft(s[1..]);
    }
  }

  lemma {:induction false} RStripIsTrimmedRight(s: string)
    ensures RStrip(s) <= s
    ensures RStrip(s) == "" || !IsSpace(RStrip(s)[|RStrip(s)| - 1])
  {
    if s != "" && IsSpace(s[|s| - 1]) {
      RStripIsTrimmedRight(s[..|s| - 1]);
    }
  }

  lemma StripIsTrimmed(s: string)
    ensures Trimmed(Strip(s))
  {
    LStripIsTrimmedLeft(s);
    RStripIsTrimmedRight(LStrip(s));
  }

  lemma {:induction false} LStripPadding(pad: string, s: string)
    requires Blank(pad) && (s == "" || !IsSpace(s[0]))
    ensures LStrip(pad + s) == s
  {
    if pad == "" {
      assert pad + s == s;
    } else {
      assert (pad + s)[1..] == pad[1..] + s;
      LStripPadding(pad[1..], s);
    }
  }

  lemma {:induction false} RStripPadding(s: string, pad: string)
    requires Blank(pad) && (s == "" || !IsSpace(s[|s| - 1]))
    ensures RStrip(s + pad) == s
  {
    if pad == "" {
      assert s + pad == s;
    } else {
      assert (s + pad)[..|s + pad| - 1] == s + pad[..|pad| - 1];
      RStripPadding(s, pad[..|pad| - 1]);
    }
  }

  lemma StripPadding(before: string, s: string, after: string)
    requires Blank(before) && Blank(after) && Trimmed(s) && s != ""
    ensures Strip(before + s + after) == s
  {
    assert before + s + after == before + (s + after);
    LStripPadding(before, s + after);
    RStripPadding(s, after);
  }

  /** The characters that stripping removes, by code point. */
  lemma StripsExactly(c: char)
    ensures Strip([c]) == "" <==>
            || 9 <= c as int <= 13 || 28 <= c as int <= 32
            || c as int in {0x85, 0xa0, 0x1680, 0x2028, 0x2029, 0x202f, 0x205f, 0x3000}
            || 0x2000 <= c as int <= 0x200a
  {
    if IsSpace(c) {
      assert LStrip([c]) == LStrip("") == "";
    } else {
      assert LStrip([c]) == [c] && RStrip([c]) == [c];
    }
  }

  // Counting visible characters

  function Weight(s: string): nat {
    if s == "" then 0 else (if IsSpace(s[0]) then 0 else 1) + Weight(s[1..])
  }

  function LinesWeight(lines: seq<string>): nat {
    if lines == [] then 0 else Weight(lines[0]) + LinesWeight(lines[1..])
  }

  lemma {:induction false} WeightConcat(a: string, b: string)
    ensures Weight(a + b) == Weight(a) + Weight(b)
  {
    if a == "" {
      assert a + b == b;
    } else {
      assert (a + b)[1..] == a[1..] + b;
      WeightConcat(a[1..], b);
    }
  }

  lemma {:induction false} LinesWeightConcat(a: seq<string>, b: seq<string>)
    ensures LinesWeight(a + b) == LinesWeight(a) + LinesWeight(b)
  {
    if a == [] {
      assert a + b == b;
    } else {
      assert (a + b)[1..] == a[1..] + b;
      LinesWeightConcat(a[1..], b);
    }
  }

  lemma {:induction false} BlankWeight(s: string)
    requires Blank(s)
    ensures Weight(s) == 0
  {
    if s != "" {
      BlankWeight(s[1..]);
    }
  }

  lemma {:induction false} JoinWeight(sep: string, lines: seq<string>)
    requires Blank(sep)
    ensures Weight(Join(sep, lines)) == LinesWeight(lines)
  {
    if |lines| == 1 {
    } else if |lines| > 1 {
      JoinWeight(sep, lines[1..]);
      WeightConcat(lines[0] + sep, Join(sep, lines[1..]));
      WeightConcat(lines[0], sep);
      BlankWeight(sep);
    }
  }

  lemma {:induction false} LStripWeight(s: string)
    ensures Weight(LStrip(s)) == Weight(s)
  {
    if s != "" && IsSpace(s[0]) {
      LStripWeight(s[1..]);
    }
  }

  lemma {:induction false} RStripWeight(s: string)
    ensures Weight(RStrip(s)) == Weight(s)
  {
    if s != "" && IsSpace(s[|s| - 1]) {
      RStripWeight(s[..|s| - 1]);
      assert s == s[..|s| - 1] + [s[|s| - 1]];
      WeightConcat(s[..|s| - 1], [s[|s| - 1]]);
    }
  }

  lemma StripWeight(s: string)
    ensures Weight(Strip(s)) == Weight(s)
  {
    LStripWeight(s);
    RStripWeight(LStrip(s));
  }
}
