/** The metadata file of the corpus index: one line per document, printed and parsed again at every update. */
module CorpusIndex {
  import opened Outcomes
  import opened Numbers
  import opened Text
  import opened Timestamps

  type Index = map<string, Stamp>

  function Line(path: string, t: Stamp): string {
    path + "\t" + Format(t)
  }

  /** The lines of an index, in the order its paths happen to be visited. */
  function Lines(order: seq<string>, index: Index): seq<string>
    requires forall p | p in order :: p in index
  {
    seq(|order|, i requires 0 <= i < |order| => Line(order[i], index[order[i]]))
  }

  function Print(order: seq<string>, index: Index): string
    requires forall p | p in order :: p in index
  {
    Join(Lines(order, index), "\n")
  }

  /** An order in which a loop over the index may visit its paths. */
  ghost predicate Orders(order: seq<string>, index: Index) {
    (forall p :: p in order <==> p in index) && forall i, j | 0 <= i < j < |order| :: order[i] != order[j]
  }

  /** A line counts when it has a tab and a timestamp after the first one. */
  function ParseLine(line: string): Option<(string, Stamp)> {
    var tab := IndexOf(line, "\t");
    if tab < 0 then None
    else
      var t := Parse(line[tab + 1..]);
      if t.None? then None else Some((line[..tab], t.value))
  }

  /** Later lines win. */
  function ParseLines(lines: seq<string>): Index {
    if lines == [] then map[]
    else
      var index, entry := ParseLines(lines[..|lines| - 1]), ParseLine(lines[|lines| - 1]);
      if entry.None? then index else index[entry.value.0 := entry.value.1]
  }

  function ParseText(text: string): Index {
    ParseLines(Split(text, "\n"))
  }

  /** What a metadata file says; without a file, nothing. */
  function Meaning(file: Option<string>): Index {
    if file.None? then map[] else ParseText(file.value)
  }

  predicate CleanPath(p: string) {
    '\t' !in p && '\n' !in p
  }

  // ---------------------------------------------------------------- print and parse

  predicate NoBreaks(s: string) {
    forall i | 0 <= i < |s| :: s[i] != '\t' && s[i] != '\n'
  }

  lemma FormatHasNoBreaks(t: Stamp)
    ensures NoBreaks(Format(t))
  {
    hide Civil, Digits, Two, Four;
    var local := LocalSeconds(t);
    assert NoBreaks(DateText(Civil(local / DAY)));
    assert NoBreaks(ClockText(local % DAY));
    assert NoBreaks(ZoneText(t.offset));
  }

  lemma LineHasNoNewline(path: string, t: Stamp)
    requires CleanPath(path)
    ensures '\n' !in Line(path, t)
  {
    hide Format;
    FormatHasNoBreaks(t);
  }

  /** The line of a clean path reads back as the path and the truncated time, or not at all. */
  lemma LineRoundTrip(path: string, t: Stamp)
    requires CleanPath(path)
    ensures ParseLine(Line(path, t)) == if Printable(t) then Some((path, Truncated(t))) else None
  {
    hide Format, Parse, Printable, Truncated;
    ContainsChar(path, '\t');
    FirstSeparator(path, "\t", Format(t));
    FormatRoundTrip(t);
    assert Line(path, t)[..|path|] == path && Line(path, t)[|path| + 1..] == Format(t);
  }

  /** The part of an index that survives printing: printable times, cut to seconds. */
  function Surviving(index: Index): Index {
    map p | p in index && Printable(index[p]) :: Truncated(index[p])
  }

  lemma ParseLinesStep(lines: seq<string>, n: nat)
    requires n < |lines|
    ensures ParseLines(lines[..n + 1]) ==
              var index, entry := ParseLines(lines[..n]), ParseLine(lines[n]);
              if entry.None? then index else index[entry.value.0 := entry.value.1]
  {
    hide ParseLine;
    assert lines[..n + 1][..n] == lines[..n] && lines[..n + 1][n] == lines[n];
  }

  lemma {:induction false} LinesRoundTrip(order: seq<string>, index: Index, n: nat)
    requires Orders(order, index) && n <= |order| && forall p | p in index :: CleanPath(p)
    ensures ParseLines(Lines(order, index)[..n]) ==
              map p | p in order[..n] && Printable(index[p]) :: Truncated(index[p])
  {
    hide ParseLines, ParseLine, Printable, Truncated, Line, CleanPath;
    var lines := Lines(order, index);
    if n > 0 {
      LinesRoundTrip(order, index, n - 1);
      var p := order[n - 1];
      LineRoundTrip(p, index[p]);
      ParseLinesStep(lines, n - 1);
      assert order[..n] == order[..n - 1] + [p];
    } else {
      assert lines[..0] == [];
      ParseNoLines();
    }
  }

  lemma ParseNoLines()
    ensures ParseLines([]) == map[]
  {
  }

  lemma PrintedLinesSplit(order: seq<string>, index: Index)
    requires Orders(order, index) && order != [] && forall p | p in index :: CleanPath(p)
    ensures Split(Print(order, index), "\n") == Lines(order, index)
  {
    hide Split, Contains, Line, CleanPath;
    var lines := Lines(order, index);
    forall line | line in lines ensures !Contains(line, "\n") {
      var i :| 0 <= i < |lines| && line == lines[i];
      LineHasNoNewline(order[i], index[order[i]]);
      ContainsChar(line, '\n');
    }
    SplitOfJoin(lines, "\n");
  }

  lemma EmptyTextMeansNothing()
    ensures ParseText("") == map[]
  {
  }

  /** Printing clean paths in any order and parsing gives back the printable part of the index, cut to seconds. */
  lemma CleanIndexRoundTrip(order: seq<string>, index: Index)
    requires Orders(order, index) && forall p | p in index :: CleanPath(p)
    ensures ParseText(Print(order, index)) == Surviving(index)
  {
    hide Split, ParseLines, Printable, Truncated, Line, CleanPath;
    if order == [] {
      EmptyTextMeansNothing();
      assert index == map[];
    } else {
      PrintedLinesSplit(order, index);
      LinesRoundTrip(order, index, |order|);
      assert Lines(order, index)[..|order|] == Lines(order, index) && order[..|order|] == order;
    }
  }

  /** An index as any file may say it. */
  predicate Readable(index: Index) {
    forall p | p in index :: CleanPath(p) && FourDigitYear(index[p])
  }

  lemma ParsedLineIsReadable(line: string)
    requires '\n' !in line && ParseLine(line).Some?
    ensures var (p, t) := ParseLine(line).value; CleanPath(p) && FourDigitYear(t)
  {
    hide Parse, FourDigitYear;
    var tab := IndexOf(line, "\t");
    ContainsChar(line, '\t');
    ParsedYear(line[tab + 1..]);
    assert forall c | c in line[..tab] :: c in line;
  }

  lemma {:induction false} ParsedLinesAreReadable(lines: seq<string>)
    requires forall line | line in lines :: '\n' !in line
    ensures Readable(ParseLines(lines))
  {
    hide ParseLine, FourDigitYear, CleanPath;
    if lines != [] {
      ParsedLinesAreReadable(lines[..|lines| - 1]);
      var last := lines[|lines| - 1];
      if ParseLine(last).Some? {
        ParsedLineIsReadable(last);
      }
    }
  }

  /** Whatever a file holds, the index read from it has clean paths and times whose local year has four digits. */
  lemma ReadIndexIsReadable(file: Option<string>)
    ensures Readable(Meaning(file))
  {
    hide ParseLines, Split, Readable;
    if file.Some? {
      SplitPieces(file.value, "\n");
      forall line | line in Split(file.value, "\n") ensures '\n' !in line {
        ContainsChar(line, '\n');
      }
      ParsedLinesAreReadable(Split(file.value, "\n"));
    } else {
      EmptyIsReadable();
    }
  }

  lemma EmptyIsReadable()
    ensures Readable(map[])
  {
  }

  /** The round trip holds, up to truncation to seconds, exactly when no path holds a tab or a newline and every time is
      printable, whatever order the lines are written in. */
  lemma RoundTripExact(order: seq<string>, index: Index)
    requires Orders(order, index)
    ensures ParseText(Print(order, index)) == (map p | p in index :: Truncated(index[p])) <==>
            forall p | p in index :: CleanPath(p) && Printable(index[p])
  {
    hide ParseText, Print, Printable, Truncated, CleanPath;
    var whole := map p | p in index :: Truncated(index[p]);
    var text := Print(order, index);
    if ParseText(text) == whole {
      ReadIndexIsReadable(Some(text));
      assert forall p | p in index :: p in whole;
    }
    if forall p | p in index :: CleanPath(p) {
      CleanIndexRoundTrip(order, index);
      if ParseText(text) == whole {
        assert forall p | p in index :: p in Surviving(index);
      }
    }
  }

  /** A file that reads as `index` and then has the time of `path` replaced. */
  ghost predicate Rewritten(file: Option<string>, path: string, t: Stamp, file': Option<string>) {
    var index := Meaning(file)[path := t];
    exists order :: Orders(order, index) && file' == Some(Print(order, index))
  }

  /** Rewriting any file for a clean path drops what cannot be printed and cuts every time to seconds. */
  lemma RewritingSurvives(file: Option<string>, path: string, t: Stamp, file': Option<string>)
    requires Rewritten(file, path, t, file') && CleanPath(path)
    ensures Meaning(file') == Surviving(Meaning(file)[path := t])
  {
    hide ParseText, Print, Printable, FourDigitYear, Truncated, CleanPath;
    ReadIndexIsReadable(file);
    var index := Meaning(file)[path := t];
    var order :| Orders(order, index) && file' == Some(Print(order, index));
    CleanIndexRoundTrip(order, index);
  }

  /** The entry of `p` comes through printing unchanged. */
  predicate Settled(index: Index, p: string)
    requires p in index
  {
    Printable(index[p]) && Truncated(index[p]) == index[p]
  }

  /** Rewriting is one map update, cut to seconds, exactly when the path is clean, the time is printable, and every
      other entry was settled: a fraction of a second that somebody wrote into the file is lost with the next update
      of any path. */
  lemma RewritingExact(file: Option<string>, path: string, t: Stamp, file': Option<string>)
    requires Rewritten(file, path, t, file')
    ensures Meaning(file') == Meaning(file)[path := Truncated(t)] <==>
            CleanPath(path) && Printable(t) && forall p | p in Meaning(file) && p != path :: Settled(Meaning(file), p)
  {
    hide Meaning, Rewritten, Printable, Truncated, CleanPath;
    var before, after := Meaning(file), Meaning(file');
    if after == before[path := Truncated(t)] {
      ReadIndexIsReadable(file');
      assert path in after;
    }
    if CleanPath(path) {
      RewritingSurvives(file, path, t, file');
      if after == before[path := Truncated(t)] {
        assert path in Surviving(before[path := t]);
        forall p | p in before && p != path ensures Settled(before, p) {
          assert p in Surviving(before[path := t]) && after[p] == before[p];
        }
      }
    }
  }

  /** An index as the file holds it after an update. */
  predicate Storable(index: Index) {
    forall p | p in index :: CleanPath(p) && Settled(index, p)
  }

  lemma TruncatedIsSettled(t: Stamp)
    requires Printable(t)
    ensures Printable(Truncated(t)) && Truncated(Truncated(t)) == Truncated(t)
  {
    hide Civil;
    assert LocalSeconds(Truncated(t)) == LocalSeconds(t);
  }

  /** After one rewrite for a clean path every entry is settled, whatever the file held before. */
  lemma RewritingSettles(file: Option<string>, path: string, t: Stamp, file': Option<string>)
    requires Rewritten(file, path, t, file') && CleanPath(path)
    ensures Storable(Meaning(file'))
  {
    hide Meaning, Rewritten, Printable, FourDigitYear, Truncated, CleanPath;
    RewritingSurvives(file, path, t, file');
    ReadIndexIsReadable(file');
    forall p | p in Meaning(file') ensures Settled(Meaning(file'), p) {
      TruncatedIsSettled(Meaning(file)[path := t][p]);
    }
  }

  /** The map a list of updates leads to; a time that cannot be printed removes its path. */
  function Updated(index: Index, updates: seq<(string, Stamp)>): Index {
    if updates == [] then index
    else
      var before, (p, t) := Updated(index, updates[..|updates| - 1]), updates[|updates| - 1];
      if Printable(t) then before[p := Truncated(t)] else before - {p}
  }

  lemma SurvivingUpdate(index: Index, path: string, t: Stamp)
    ensures Surviving(index[path := t]) == if Printable(t) then Surviving(index)[path := Truncated(t)]
        else Surviving(index) - {path}
  {
    hide Printable, Truncated;
  }

  lemma StorableSurvives(index: Index)
    requires Storable(index)
    ensures Surviving(index) == index
  {
    hide Printable, Truncated, CleanPath;
  }

  lemma {:induction false} UpdatesAreStorable(index: Index, updates: seq<(string, Stamp)>)
    requires Storable(index) && forall u | u in updates :: CleanPath(u.0)
    ensures Storable(Updated(index, updates))
  {
    hide Printable, Truncated, CleanPath;
    if updates != [] {
      var n := |updates| - 1;
      UpdatesAreStorable(index, updates[..n]);
      if Printable(updates[n].1) {
        TruncatedIsSettled(updates[n].1);
      }
    }
  }

  lemma SurvivingIsStorable(index: Index)
    requires forall p | p in index :: CleanPath(p)
    ensures Storable(Surviving(index))
  {
    hide Printable, Truncated, CleanPath;
    forall p | p in Surviving(index) ensures Settled(Surviving(index), p) {
      TruncatedIsSettled(index[p]);
    }
  }

  /** What is left of an index once any update at all is made. */
  function Base(index: Index, updates: seq<(string, Stamp)>): Index {
    if updates == [] then index else Surviving(index)
  }

  /** One more rewrite at the end of a sequence of them. */
  lemma RewriteExtends(index: Index, updates: seq<(string, Stamp)>, file: Option<string>, path: string, t: Stamp,
      file': Option<string>)
    requires Readable(index) && CleanPath(path) && forall u | u in updates :: CleanPath(u.0)
    requires Meaning(file) == Updated(Base(index, updates), updates) && Rewritten(file, path, t, file')
    ensures Meaning(file') == Updated(Surviving(index), updates + [(path, t)])
  {
    hide Meaning, Rewritten, Printable, FourDigitYear, Truncated, CleanPath, Surviving, Updated, Storable;
    RewritingSurvives(file, path, t, file');
    SurvivingUpdate(Meaning(file), path, t);
    UpdatedStep(Surviving(index), updates, path, t);
    if updates == [] {
      NoUpdates(index);
      NoUpdates(Surviving(index));
    } else {
      SurvivingIsStorable(index);
      UpdatesAreStorable(Surviving(index), updates);
      StorableSurvives(Meaning(file));
    }
  }

  lemma NoUpdates(index: Index)
    ensures Updated(index, []) == index
  {
  }

  lemma UpdatedStep(index: Index, updates: seq<(string, Stamp)>, p: string, t: Stamp)
    ensures Updated(index, updates + [(p, t)]) ==
              if Printable(t) then Updated(index, updates)[p := Truncated(t)] else Updated(index, updates) - {p}
  {
    hide Printable, Truncated;
    assert (updates + [(p, t)])[..|updates|] == updates;
  }

  /** Any sequence of read-modify-write updates of any file refines the same sequence of map updates, once the first
      of them has cut the entries it found. */
  lemma {:induction false} RewritesRefineUpdates(files: seq<Option<string>>, updates: seq<(string, Stamp)>)
    requires |files| == |updates| + 1
    requires forall i | 0 <= i < |updates| :: Rewritten(files[i], updates[i].0, updates[i].1, files[i + 1])
    requires forall i | 0 <= i < |updates| :: CleanPath(updates[i].0)
    ensures Meaning(files[|updates|]) == Updated(Base(Meaning(files[0]), updates), updates)
  {
    hide Meaning, Rewritten, Printable, FourDigitYear, Truncated, CleanPath, Surviving, Readable;
    var n := |updates|;
    if n > 0 {
      RewritesRefineUpdates(files[..n], updates[..n - 1]);
      ReadIndexIsReadable(files[0]);
      var (p, t) := updates[n - 1];
      RewriteExtends(Meaning(files[0]), updates[..n - 1], files[n - 1], p, t, files[n]);
      assert updates == updates[..n - 1] + [(p, t)];
    }
  }

  /** Starting without a file, nothing but seconds is ever lost. */
  lemma OwnFileRefinesUpdates(files: seq<Option<string>>, updates: seq<(string, Stamp)>)
    requires |files| == |updates| + 1 && files[0] == None
    requires forall i | 0 <= i < |updates| :: Rewritten(files[i], updates[i].0, updates[i].1, files[i + 1])
    requires forall i | 0 <= i < |updates| :: CleanPath(updates[i].0)
    ensures Meaning(files[|updates|]) == Updated(map[], updates) && Storable(Meaning(files[|updates|]))
  {
    hide Rewritten, Printable, Truncated, CleanPath;
    RewritesRefineUpdates(files, updates);
    assert Surviving(map[]) == map[];
    UpdatesAreStorable(map[], updates);
  }

  const HALF_SECOND_FILE: string := "a" + "\t" + HALF_SECOND

  /** The meaning of a file of one line. */
  lemma OneLineFile(path: string, text: string, t: Stamp)
    requires CleanPath(path) && '\n' !in text && Parse(text) == Some(t)
    ensures ParseText(path + "\t" + text) == map[path := t]
  {
    hide Parse, Split, Contains, IndexOf;
    var line := path + "\t" + text;
    ContainsChar(path, '\t');
    FirstSeparator(path, "\t", text);
    assert line[..|path|] == path && line[|path| + 1..] == text;
    ContainsChar(line, '\n');
    SplitOfJoin([line], "\n");
    assert Join([line], "\n") == line;
    assert [line][..0] == [] && [line][0] == line;
    ParseNoLines();
  }

  lemma HalfSecondFile()
    ensures Meaning(Some(HALF_SECOND_FILE)) == map["a" := Instant(1_704_067_200_500_000_000, 0)]
    ensures Printable(Instant(1_704_067_200_500_000_000, 0))
  {
    hide Parse, ParseText, FourDigitYear;
    HalfSecondIsRead();
    ParsedYear(HALF_SECOND);
    OneLineFile("a", HALF_SECOND, Instant(1_704_067_200_500_000_000, 0));
  }

  /** A file with a fraction of a second in it: updating another path changes the entry that has it. */
  lemma FractionIsLost(t: Stamp, file': Option<string>)
    requires Rewritten(Some(HALF_SECOND_FILE), "b", t, file')
    ensures "a" in Meaning(Some(HALF_SECOND_FILE)) && "a" in Meaning(file')
    ensures Meaning(file')["a"].ns == Meaning(Some(HALF_SECOND_FILE))["a"].ns - 500_000_000
  {
    hide Rewritten, Meaning, Printable;
    HalfSecondFile();
    RewritingSurvives(Some(HALF_SECOND_FILE), "b", t, file');
  }

  class MetadataFile {
    var file: Option<string>

    constructor ()
      ensures file == None
    {
      file := None;
    }

    method GetEmbeddingsMetadata() returns (metadata: Index)
      ensures metadata == Meaning(file)
    {
      hide ParseLine, Split;
      metadata := map[];
      if file.None? {
        return;
      }
      var lines := Split(file.value, "\n");
      var i := 0;
      while i < |lines|
        invariant 0 <= i <= |lines|
        invariant metadata == ParseLines(lines[..i])
      {
        assert lines[..i + 1][..i] == lines[..i];
        var entry := ParseLine(lines[i]);
        if entry.Some? {
          metadata := metadata[entry.value.0 := entry.value.1];
        }
        i := i + 1;
      }
      assert lines[..i] == lines;
    }

    /** Reads the file, replaces one time, and writes all lines back in an arbitrary order, unless writing fails. */
    method UpdateEmbeddingMetadata(path: string, indexTime: Stamp, writable: bool) returns (ok: bool)
      modifies this
      ensures ok == writable
      ensures if ok then Rewritten(old(file), path, indexTime, file) else file == old(file)
    {
      hide Line, ParseText;
      var metadata := GetEmbeddingsMetadata();
      metadata := metadata[path := indexTime];
      var lines: seq<string> := [];
      ghost var order: seq<string> := [];
      var rest := metadata.Keys;
      while rest != {}
        invariant rest <= metadata.Keys
        invariant forall p :: p in order <==> p in metadata && p !in rest
        invariant forall i, j | 0 <= i < j < |order| :: order[i] != order[j]
        invariant lines == Lines(order, metadata)
      {
        var p :| p in rest;
        lines := lines + [Line(p, metadata[p])];
        order := order + [p];
        rest := rest - {p};
      }
      if !writable {
        return false;
      }
      assert Orders(order, metadata);
      file := Some(Join(lines, "\n"));
      ok := true;
    }
  }
}
