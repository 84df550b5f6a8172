/** The reader of refined commissions: marked sections of generated text become files. */
module RefinedContent {
  import opened Text

  const MARKER: string := "## File:"

  datatype RefinedFile = RefinedFile(path: string, content: string)

  /** One section yields one file: its first line is the path and the rest the content. A section without two lines
      yields none. */
  function ParseSection(raw: string): seq<RefinedFile> {
    var section := TrimSpace(raw);
    var eol := IndexOf(section, "\n");
    if eol < 0 then [] else [RefinedFile(TrimSpace(section[..eol]), TrimSpace(section[eol + 1..]))]
  }

  function ParseSections(raws: seq<string>): seq<RefinedFile> {
    if raws == [] then [] else ParseSection(raws[0]) + ParseSections(raws[1..])
  }

  /** The files of the marked sections; the text before the first marker is dropped. */
  function MarkedFiles(content: string): seq<RefinedFile> {
    ParseSections(Split(content, MARKER)[1..])
  }

  function Parse(content: string): (files: seq<RefinedFile>)
    ensures files != []
  {
    if MarkedFiles(content) == [] then [RefinedFile("README.md", content)] else MarkedFiles(content)
  }

  lemma {:induction false} ParseSectionsSnoc(raws: seq<string>, last: string)
    ensures ParseSections(raws + [last]) == ParseSections(raws) + ParseSection(last)
  {
    hide ParseSection;
    if raws == [] {
      assert raws + [last] == [last];
    } else {
      assert (raws + [last])[1..] == raws[1..] + [last];
      ParseSectionsSnoc(raws[1..], last);
    }
  }

  /** The same reading, by way of the section's lines. */
  lemma ParseSectionByLines(raw: string)
    ensures var section := TrimSpace(raw);
            var lines := Split(section, "\n");
            ParseSection(raw) ==
              if section == "" || |lines| < 2 then []
                  else [RefinedFile(TrimSpace(lines[0]), TrimSpace(Join(lines[1..], "\n")))]
  {
    SplitHead(TrimSpace(raw), "\n");
  }

  method ParseRefinedContent(content: string) returns (files: seq<RefinedFile>)
    ensures files == Parse(content)
  {
    hide ParseSection;
    files := [];
    var sections := Split(content, MARKER);
    var i := 1;
    while i < |sections|
      invariant 1 <= i <= |sections|
      invariant files == ParseSections(sections[1..i])
    {
      assert sections[1..i + 1] == sections[1..i] + [sections[i]];
      ParseSectionsSnoc(sections[1..i], sections[i]);
      ParseSectionByLines(sections[i]);
      var section := TrimSpace(sections[i]);
      i := i + 1;
      if section == "" {
        continue;
      }
      var lines := Split(section, "\n");
      if |lines| < 2 {
        continue;
      }
      var filePath := TrimSpace(lines[0]);
      var fileContent := TrimSpace(Join(lines[1..], "\n"));
      files := files + [RefinedFile(filePath, fileContent)];
    }
    assert sections[1..i] == sections[1..];
    if |files| == 0 {
      files := [RefinedFile("README.md", content)];
    }
  }

  // ---------------------------------------------------------------- the inverse

  /** Spaces a writer may put around the path and the content of one file. */
  datatype Padding = Padding(beforePath: string, afterPath: string, beforeContent: string, afterContent: string) {
    predicate Valid() {
      AllSpace(beforePath) && AllSpace(afterPath) && AllSpace(beforeContent) && AllSpace(afterContent)
    }
  }

  function Section(f: RefinedFile, pad: Padding): string {
    pad.beforePath + f.path + pad.afterPath + "\n" + pad.beforeContent + f.content + pad.afterContent
  }

  function Sections(files: seq<RefinedFile>, pads: seq<Padding>): seq<string>
    requires |files| == |pads|
  {
    seq(|files|, i requires 0 <= i < |files| => Section(files[i], pads[i]))
  }

  /** The text whose marked sections are `files`, after a preamble. */
  function Render(preamble: string, files: seq<RefinedFile>, pads: seq<Padding>): string
    requires |files| == |pads|
  {
    Join([preamble] + Sections(files, pads), MARKER)
  }

  predicate WellFormed(f: RefinedFile) {
    && f.path != "" && Trimmed(f.path) && '\n' !in f.path && !Contains(f.path, MARKER)
    && f.content != "" && Trimmed(f.content) && !Contains(f.content, MARKER)
  }

  lemma MarkerShape()
    ensures Unbordered(MARKER) && Trimmed(MARKER) && '\n' !in MARKER
  {
    forall d | 0 < d < |MARKER| ensures MARKER[d..] != MARKER[..|MARKER| - d] {
      assert MARKER[d..][0] == MARKER[d];
      assert MARKER[..|MARKER| - d][0] == '#';
      if d == 1 {
        assert MARKER[d..][1] == ' ';
        assert MARKER[..|MARKER| - d][1] == '#';
      }
    }
  }

  /** A padded section holds the marker only if its path or its content does. */
  lemma SectionContains(f: RefinedFile, pad: Padding)
    requires pad.Valid() && Contains(Section(f, pad), MARKER)
    ensures Contains(f.path, MARKER) || Contains(f.content, MARKER)
  {
    MarkerShape();
    var head := pad.beforePath + f.path + pad.afterPath;
    var tail := pad.beforeContent + f.content + pad.afterContent;
    assert Section(f, pad) == head + ['\n'] + tail;
    CannotCross(head, '\n', tail, MARKER);
    if Contains(head, MARKER) {
      PaddingAddsNone(pad.beforePath, f.path, pad.afterPath, MARKER);
    } else {
      PaddingAddsNone(pad.beforeContent, f.content, pad.afterContent, MARKER);
    }
  }

  /** A path and a content separated by spaces that include a line break are told apart at the first line break. */
  lemma FirstLineIsPath(path: string, gap: string, content: string)
    requires path != "" && Trimmed(path) && '\n' !in path && content != "" && Trimmed(content)
    requires AllSpace(gap) && '\n' in gap
    ensures var s := path + gap + content;
            var eol := IndexOf(s, "\n");
            eol >= 0 && TrimSpace(s[..eol]) == path && TrimSpace(s[eol + 1..]) == content
  {
    hide IndexOf, TrimSpace;
    var s := path + gap + content;
    ContainsChar(s, '\n');
    var eol := IndexOf(s, "\n");
    assert forall i | 0 <= i < |path| :: s[i] == path[i];
    var k :| 0 <= k < |gap| && gap[k] == '\n';
    assert s[|path| + k] == '\n' && s[eol] == '\n';
    assert forall i | 0 <= i < eol :: s[i] == s[..eol][i];
    var before, after := gap[..eol - |path|], gap[eol + 1 - |path|..];
    assert s[..eol] == "" + path + before;
    assert s[eol + 1..] == after + content + "";
    TrimPadded("", path, before);
    TrimPadded(after, content, "");
  }

  /** The section of a well-formed file reads back as that file. */
  lemma SectionRoundTrip(f: RefinedFile, pad: Padding)
    requires WellFormed(f) && pad.Valid()
    ensures ParseSection(Section(f, pad)) == [f] && !Contains(Section(f, pad), MARKER)
  {
    hide IndexOf, TrimSpace, Contains;
    var gap := pad.afterPath + "\n" + pad.beforeContent;
    var middle := f.path + gap + f.content;
    assert gap[|pad.afterPath|] == '\n';
    assert Section(f, pad) == pad.beforePath + middle + pad.afterContent;
    TrimPadded(pad.beforePath, middle, pad.afterContent);
    FirstLineIsPath(f.path, gap, f.content);
    if Contains(Section(f, pad), MARKER) {
      SectionContains(f, pad);
    }
  }

  /** The trimmed form of a part of a marker-free text is marker-free. */
  lemma FieldFree(text: string, a: int, b: int)
    requires 0 <= a <= b <= |text| && !Contains(text, MARKER)
    ensures Trimmed(TrimSpace(text[a..b])) && !Contains(TrimSpace(text[a..b]), MARKER)
  {
    hide TrimSpace, Contains, IndexOf;
    var i, j := TrimSplits(text[a..b]);
    SliceOfSlice(text, a, b, i, j);
    if Contains(TrimSpace(text[a..b]), MARKER) {
      SubstringContains(text, a + i, a + j, MARKER);
    }
  }

  /** A text with a non-space at one end does not trim to nothing. */
  lemma TrimKeepsEnds(s: string)
    requires s != "" && (!IsSpace(s[0]) || !IsSpace(s[|s| - 1]))
    ensures TrimSpace(s) != ""
  {
    var i, j := TrimSplits(s);
    assert forall k | 0 <= k < i :: s[k] == s[..i][k];
    assert forall k | j <= k < |s| :: s[k] == s[j..][k - j];
  }

  /** Reading never makes a malformed file out of a marker-free section. */
  lemma SectionWellFormed(raw: string)
    requires !Contains(raw, MARKER)
    ensures forall f | f in ParseSection(raw) :: WellFormed(f)
  {
    var section := TrimSpace(raw);
    var eol := IndexOf(section, "\n");
    if eol >= 0 {
      assert raw == raw[0..|raw|];
      FieldFree(raw, 0, |raw|);
      assert section[..eol] == section[0..eol] && section[eol + 1..] == section[eol + 1..|section|];
      FieldFree(section, 0, eol);
      FieldFree(section, eol + 1, |section|);
      ContainsChar(section, '\n');
      TrimKeepsEnds(section[..eol]);
      TrimKeepsEnds(section[eol + 1..]);
      var i, j := TrimSplits(section[..eol]);
      assert forall c | c in section[..eol][i..j] :: c in section[..eol];
    }
  }

  lemma {:induction false} SectionsWellFormed(raws: seq<string>)
    requires forall r | r in raws :: !Contains(r, MARKER)
    ensures forall f | f in ParseSections(raws) :: WellFormed(f)
  {
    hide ParseSection, Contains, WellFormed;
    if raws != [] {
      SectionWellFormed(raws[0]);
      SectionsWellFormed(raws[1..]);
    }
  }

  /** Whatever the text, every file read from a marked section is well-formed. */
  lemma MarkedFilesWellFormed(content: string)
    ensures forall f | f in MarkedFiles(content) :: WellFormed(f)
  {
    SplitPieces(content, MARKER);
    SectionsWellFormed(Split(content, MARKER)[1..]);
  }

  lemma {:induction false} SectionsRoundTrip(files: seq<RefinedFile>, pads: seq<Padding>)
    requires |files| == |pads| && (forall pad | pad in pads :: pad.Valid()) && forall f | f in files :: WellFormed(f)
    ensures ParseSections(Sections(files, pads)) == files
    ensures forall r | r in Sections(files, pads) :: !Contains(r, MARKER)
  {
    hide ParseSection, Section, Contains, WellFormed;
    if files != [] {
      var raws := Sections(files, pads);
      SectionRoundTrip(files[0], pads[0]);
      SectionsRoundTrip(files[1..], pads[1..]);
      assert raws[1..] == Sections(files[1..], pads[1..]);
      assert raws == [raws[0]] + raws[1..];
    }
  }

  /** A rendered file is longer than its content, so the whole text is never taken as one of the contents. */
  lemma RenderedIsLonger(preamble: string, files: seq<RefinedFile>, pads: seq<Padding>)
    requires |files| == |pads|
    ensures files != [] ==> files[0].content != Render(preamble, files, pads)
  {
    if files != [] {
      var parts := [preamble] + Sections(files, pads);
      assert parts[1..][0] == Section(files[0], pads[0]);
      assert |Join(parts[1..], MARKER)| >= |parts[1..][0]|;
    }
  }

  /** Parsing inverts rendering on exactly the non-empty lists of well-formed files, however they are padded. */
  lemma ParseInvertsRender(preamble: string, files: seq<RefinedFile>, pads: seq<Padding>)
    requires |files| == |pads| && (forall pad | pad in pads :: pad.Valid()) && !Contains(preamble, MARKER)
    ensures Parse(Render(preamble, files, pads)) == files <==> files != [] && forall f | f in files :: WellFormed(f)
  {
    MarkerShape();
    var raws := Sections(files, pads);
    var text := Render(preamble, files, pads);
    if files != [] && forall f | f in files :: WellFormed(f) {
      SectionsRoundTrip(files, pads);
      SplitOfJoin([preamble] + raws, MARKER);
      assert ([preamble] + raws)[1..] == raws;
    }
    if Parse(text) == files {
      MarkedFilesWellFormed(text);
      RenderedIsLonger(preamble, files, pads);
    }
  }

  /** Reading is a normal form: rendering what was read from marked sections and reading again changes nothing. */
  lemma ParseNormalizes(content: string, pads: seq<Padding>)
    requires MarkedFiles(content) != [] && |pads| == |Parse(content)| && forall pad | pad in pads :: pad.Valid()
    ensures Parse(Render("", Parse(content), pads)) == Parse(content)
  {
    MarkedFilesWellFormed(content);
    ParseInvertsRender("", Parse(content), pads);
  }

  // ---------------------------------------------------------------- texts without files

  /** A text without the marker becomes one file, README.md, unchanged. */
  lemma UnmarkedIsReadme(content: string)
    requires !Contains(content, MARKER)
    ensures Parse(content) == [RefinedFile("README.md", content)]
  {
    MarkerShape();
    SplitOfJoin([content], MARKER);
    assert Join([content], MARKER) == content;
    assert [content][1..] == [];
  }

  /** So does a text whose marked sections all have a single line or none. */
  lemma SectionsWithoutContent(content: string)
    requires forall raw | raw in Split(content, MARKER)[1..] :: '\n' !in TrimSpace(raw)
    ensures Parse(content) == [RefinedFile("README.md", content)]
  {
    NoFilesIn(Split(content, MARKER)[1..]);
  }

  lemma {:induction false} NoFilesIn(raws: seq<string>)
    requires forall raw | raw in raws :: '\n' !in TrimSpace(raw)
    ensures ParseSections(raws) == []
  {
    if raws != [] {
      ContainsChar(TrimSpace(raws[0]), '\n');
      NoFilesIn(raws[1..]);
    }
  }

  /** The spaces that are trimmed around paths and contents: the ASCII ones, the next-line character and the no-break
      space, and Unicode's other white space. */
  lemma SpacesAre()
    ensures AllSpace(" \t\n\r") && IsSpace('\U{0B}') && IsSpace('\U{0C}') && IsSpace('\U{85}') && IsSpace('\U{A0}')
    ensures IsSpace('\U{1680}') && IsSpace('\U{2000}') && IsSpace('\U{200A}') && IsSpace('\U{2028}') &&
        IsSpace('\U{2029}')
    ensures IsSpace('\U{202F}') && IsSpace('\U{205F}') && IsSpace('\U{3000}')
    ensures !IsSpace('a') && !IsSpace('#') && !IsSpace('.') && !IsSpace('/') && !IsSpace('_') && !IsSpace('\U{200B}')
  {
  }

  /** A section as it is usually written: a space before the path, a line break after it, an empty line at the end. */
  lemma UsualLayout(f: RefinedFile)
    requires WellFormed(f)
    ensures Parse("Plan\n\n" + MARKER + " " + f.path + "\n" + f.content + "\n\n") == [f]
  {
    hide Parse;
    var pad := Padding(" ", "", "", "\n\n");
    SpacesAre();
    NoMarkerInTitle();
    assert Section(f, pad) == " " + f.path + "\n" + f.content + "\n\n";
    assert [f] == [f][..];
    ParseInvertsRender("Plan\n\n", [f], [pad]);
    TwoParts("Plan\n\n", Section(f, pad));
    assert Sections([f], [pad]) == [Section(f, pad)];
    assert ["Plan\n\n"] + [Section(f, pad)] == ["Plan\n\n", Section(f, pad)];
    assert "Plan\n\n" + MARKER + " " + f.path + "\n" + f.content + "\n\n" == "Plan\n\n" + MARKER + Section(f, pad);
  }

  lemma TwoParts(a: string, b: string)
    ensures Join([a, b], MARKER) == a + MARKER + b
  {
    assert [a, b][1..] == [b];
    assert Join([b], MARKER) == b;
  }

  lemma NoMarkerInTitle()
    ensures !Contains("Plan\n\n", MARKER)
  {
    ShorterHoldsNone("Plan\n\n", MARKER);
  }
}
