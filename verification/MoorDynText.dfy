/** The mooring file as text: words padded with blanks, one line each, come apart into the same words. */
module MoorDynText {
  import opened Wrappers
  import opened Text
  import opened MoorDyn
  import opened MoorDynTitles
  import opened MoorDynChannels
  import opened MoorDynRoundTrip
  import opened MoorDynRows

  // ---------- one line ----------

  /** The blanks in front of each word of a line, and behind the last one. */
  type Gaps = seq<nat>

  predicate AreGaps(gaps: Gaps, line: Line) {
    |gaps| == |line| + 1 && forall i :: 0 < i < |line| ==> gaps[i] > 0
  }

  /** The padded cells of a line, whatever their alignment and width. */
  function LineText(line: Line, gaps: Gaps): string
    requires AreGaps(gaps, line)
  {
    Blanks(gaps[0]) + (if line == [] then "" else line[0] + LineText(line[1..], gaps[1..]))
  }

  lemma {:induction false} LineTextSplit(line: Line, gaps: Gaps)
    requires AreGaps(gaps, line) && AreWords(line)
    ensures Words(LineText(line, gaps)) == line
  {
    if line == [] {
      WordsSkipBlank(Blanks(gaps[0]), "");
    } else {
      var rest := LineText(line[1..], gaps[1..]);
      LineTextSplit(line[1..], gaps[1..]);
      RestStartsBlank(line, gaps);
      WordsOfWord(line[0], rest);
      WordsSkipBlank(Blanks(gaps[0]), line[0] + rest);
      assert line == [line[0]] + line[1..];
    }
  }

  lemma RestStartsBlank(line: Line, gaps: Gaps)
    requires AreGaps(gaps, line) && line != []
    ensures var rest := LineText(line[1..], gaps[1..]); rest == "" || IsSpace(rest[0])
  {
    if gaps[1] > 0 {
      assert Blanks(gaps[1])[0] in Blanks(gaps[1]);
    }
  }

  lemma {:induction false} LineTextUnbroken(line: Line, gaps: Gaps)
    requires AreGaps(gaps, line) && AreWords(line)
    ensures '\n' !in LineText(line, gaps)
  {
    forall c | c in Blanks(gaps[0]) ensures c != '\n' {
      BlanksAreSpaces(gaps[0], c);
    }
    if line != [] {
      assert IsWord(line[0]) && IsSpace('\n');
      LineTextUnbroken(line[1..], gaps[1..]);
    }
  }

  lemma BlanksAreSpaces(n: nat, c: char)
    requires c in Blanks(n)
    ensures c == ' '
  {
  }

  // ---------- the file ----------

  predicate AllGaps(gaps: seq<Gaps>, lines: seq<Line>) {
    |gaps| == |lines| && forall i :: 0 <= i < |lines| ==> AreGaps(gaps[i], lines[i])
  }

  /** Every line is written with a line break behind it. */
  function FileText(lines: seq<Line>, gaps: seq<Gaps>): string
    requires AllGaps(gaps, lines)
  {
    if lines == [] then ""
    else LineText(lines[0], gaps[0]) + ("\n" + FileText(lines[1..], gaps[1..]))
  }

  /** The lines of a file, each split into its words. */
  function LinesOf(text: string): seq<Line> {
    Map(Words, Lines(text))
  }

  lemma {:induction false} FileTextSplit(lines: seq<Line>, gaps: seq<Gaps>)
    requires AllGaps(gaps, lines) && forall i :: 0 <= i < |lines| ==> AreWords(lines[i])
    ensures LinesOf(FileText(lines, gaps)) == lines
  {
    if lines != [] {
      var line := LineText(lines[0], gaps[0]);
      FileTextSplit(lines[1..], gaps[1..]);
      LineTextUnbroken(lines[0], gaps[0]);
      LinesOfLine(line, FileText(lines[1..], gaps[1..]));
      LineTextSplit(lines[0], gaps[0]);
      MapFirst(Words, [line] + Lines(FileText(lines[1..], gaps[1..])));
      assert lines == [lines[0]] + lines[1..];
    }
  }

  // ---------- the words of a printed file ----------

  /** Every cell of the model, and every word of the lines below a heading, is a word. */
  ghost predicate HasWords(m: Model, titles: Titles) {
    && (forall k: Kind, i :: 0 <= i < |RowsOf(m, k)| ==> AreWords(RowsOf(m, k)[i]))
    && (forall k: Kind :: AreWords(titles(k).0) && AreWords(titles(k).1))
    && (forall i :: 0 <= i < |m.options| ==> AreWords(OptionRow(m.options[i])))
    && AreWords(m.channels)
  }

  predicate AllWords(lines: seq<Line>) {
    forall i :: 0 <= i < |lines| ==> AreWords(lines[i])
  }

  lemma DashesAreWord(n: nat)
    requires n > 0
    ensures IsWord(Dashes(n))
  {
  }

  lemma TitleWords(kind: Kind)
    ensures AreWords(Title(kind))
  {
  }

  lemma FramedWords(n: nat, words: Line, m: nat)
    requires n > 0 && m > 0 && AreWords(words)
    ensures AreWords(Framed(n, words, m))
  {
    DashesAreWord(n);
    DashesAreWord(m);
  }

  lemma HeadingWords(kind: Kind)
    ensures AreWords(Heading(kind))
  {
    TitleWords(kind);
    FramedWords(Margins(kind).0, Title(kind), Margins(kind).1);
  }

  lemma FileTitleWords()
    ensures AreWords(FileTitle())
  {
    assert AreWords(["MoorDyn", "Input", "File"]);
    FramedWords(21, ["MoorDyn", "Input", "File"], 36);
  }

  lemma DroppedWords()
    ensures AreWords(MADE_BY) && AreWords(DROPPED)
  {
  }

  lemma NoteWords()
    ensures AreWords(NOTE)
  {
  }

  lemma PreambleWords()
    ensures AllWords(Preamble())
  {
    FileTitleWords();
    DroppedWords();
    NoteWords();
  }

  lemma ConcatWords(a: seq<Line>, b: seq<Line>)
    requires AllWords(a) && AllWords(b)
    ensures AllWords(a + b)
  {
  }

  lemma {:induction false} TableWords(m: Model, titles: Titles, kinds: seq<Kind>)
    requires HasWords(m, titles)
    ensures AllWords(PrintedTables(m, titles, kinds))
  {
    if kinds != [] {
      var k := kinds[0];
      HeadingWords(k);
      assert AllWords(RowsOf(m, k));
      assert AllWords([Heading(k), titles(k).0, titles(k).1]);
      ConcatWords([Heading(k), titles(k).0, titles(k).1], RowsOf(m, k));
      TableWords(m, titles, kinds[1..]);
      ConcatWords(PrintedTable(m, titles, k), PrintedTables(m, titles, kinds[1..]));
    }
  }

  lemma OptionWords(m: Model, titles: Titles)
    requires HasWords(m, titles)
    ensures AllWords(PrintedOptions(m))
  {
    HeadingWords(Options);
    ConcatWords([Heading(Options)], Map(OptionRow, m.options));
  }

  lemma OutputWords(m: Model, titles: Titles)
    requires HasWords(m, titles)
    ensures AllWords(PrintedOutputs(m))
  {
    HeadingWords(Outputs);
    HeadingWords(Other);
    ConcatWords([Heading(Outputs)], Map(ChannelRow, m.channels));
    ConcatWords([Heading(Outputs)] + Map(ChannelRow, m.channels), [Heading(Other)]);
  }

  lemma PrintedWords(m: Model, titles: Titles)
    requires HasWords(m, titles)
    ensures AllWords(Printed(m, titles))
  {
    PreambleWords();
    TableWords(m, titles, KINDS);
    OptionWords(m, titles);
    OutputWords(m, titles);
    ConcatWords(Preamble(), PrintedTables(m, titles, KINDS));
    ConcatWords(Preamble() + PrintedTables(m, titles, KINDS), PrintedOptions(m));
    ConcatWords(Preamble() + PrintedTables(m, titles, KINDS) + PrintedOptions(m), PrintedOutputs(m));
  }

  /** The text of a printed model, with any padding of its cells, is read back as its words are. */
  lemma TextRoundTrip(m: Model, titles: Titles, gaps: seq<Gaps>)
    requires IsPrintable(m) && HasWords(m, titles) && AllGaps(gaps, Printed(m, titles))
    ensures var r := ReadFrom(LineKind, LinesOf(FileText(Printed(m, titles), gaps)), 0, NOTHING);
      && r.Done?
      && (forall k: Kind :: Held(r.tables, k) == if k in KINDS then CellsOf(m, k) else [])
      && (r.tables.channels == AllOf(m.channels) <==> forall i :: 0 <= i < |m.channels| ==> IsChannel(m.channels[i]))
      && (r.tables.extras == Map(ExtraIn, m.lineTypes) <==> AllAligned(m.lineTypes))
      && (r.tables.options == m.options <==> forall o <- m.options :: IsKept(o))
  {
    PrintedWords(m, titles);
    FileTextSplit(Printed(m, titles), gaps);
    MoorDynRoundTrip.MoorDynRoundTrip(m, titles);
  }

  /** On the text, too, a model is read back as it was if and only if its rows, options and names are of
      the form that can be told apart. */
  lemma TextRestoredExactly(m: Model, titles: Titles, gaps: seq<Gaps>)
    requires IsShaped(m) && HasWords(m, titles) && AllGaps(gaps, Printed(m, titles))
    ensures var r := ReadFrom(LineKind, LinesOf(FileText(Printed(m, titles), gaps)), 0, NOTHING);
      r.Done? && ModelBack(m, r.tables) <==> Survives(m)
  {
    PrintedWords(m, titles);
    FileTextSplit(Printed(m, titles), gaps);
    ModelRestoredExactly(m, titles);
  }
}
