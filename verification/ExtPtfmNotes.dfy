/**
 Lines of the platform files that are neither titles nor numbers: which are passed over, wherever they
 stand between the matrices, and which are refused. The files the module reads begin with such comments.
 */
module ExtPtfmNotes {
  import opened Wrappers
  import opened Text
  import opened ExtPtfm

  // ---------- reading on ----------

  lemma {:induction false} MatrixMore(lines: seq<string>, more: seq<string>, rows: nat, cols: nat)
    requires ParseMatrix(lines, rows, cols).Success?
    ensures ParseMatrix(lines + more, rows, cols) == ParseMatrix(lines, rows, cols)
  {
    if rows > 0 {
      assert (lines + more)[1..] == lines[1..] + more;
      MatrixMore(lines[1..], more, rows - 1, cols);
    }
  }

  lemma BlockMore(fmt: Format, lines: seq<string>, more: seq<string>, st: Contents)
    requires |st.mats| == |fmt.sections| && lines != [] && ParseBlock(fmt, lines, st).Success?
    ensures ParseBlock(fmt, lines + more, st) == ParseBlock(fmt, lines, st)
  {
    var k := FindSection(fmt.sections, Lower(lines[0]));
    assert (lines + more)[0] == lines[0] && (lines + more)[1..] == lines[1..] + more;
    if k < |fmt.sections| {
      MatrixMore(lines[1..], more, fmt.sections[k].Rows(st.count), fmt.sections[k].Cols(st.count));
    }
  }

  /** Lines that are read to their end without an error leave the reader at the lines behind them. */
  lemma {:induction false} ReadOn(fmt: Format, lines: seq<string>, more: seq<string>, st: Contents)
    requires |st.mats| == |fmt.sections| && Parse(fmt, lines, st).Success?
    ensures var st' := Parse(fmt, lines, st).value;
      |st'.mats| == |fmt.sections| && Parse(fmt, lines + more, st) == Parse(fmt, more, st')
    decreases |lines|
  {
    if lines == [] {
      assert lines + more == more;
    } else {
      BlockMore(fmt, lines, more, st);
      var (used, st1) := ParseBlock(fmt, lines, st).value;
      assert (lines + more)[used..] == lines[used..] + more;
      ReadOn(fmt, lines[used..], more, st1);
    }
  }

  lemma Grouped(a: seq<string>, b: seq<string>, c: seq<string>)
    ensures a + b + c == a + (b + c)
  {
  }

  // ---------- what is passed over ----------

  predicate StartsWithKey(fmt: Format, line: string) {
    fmt.countKey <= Lower(line) || exists s :: s in fmt.sections && s.key <= Lower(line)
  }

  /** A blank line, or a comment: a line that starts with '!' and with no key. */
  predicate IsNote(fmt: Format, line: string) {
    IsBlank(line) || (line[0] == '!' && !StartsWithKey(fmt, line))
  }

  /** A line that is neither blank nor starts with '!'. */
  predicate IsStray(line: string) {
    !IsBlank(line) && line[0] != '!'
  }

  lemma LowerKeepsFirst(line: string)
    ensures line != [] ==> (Lower(line)[0] == '!' <==> line[0] == '!')
    ensures IsBlank(Lower(line)) <==> IsBlank(line)
  {
    forall i | 0 <= i < |line| ensures IsSpace(Lower(line)[i]) <==> IsSpace(line[i]) {
    }
    if IsBlank(Lower(line)) {
      forall c | c in line ensures IsSpace(c) {
        var i :| 0 <= i < |line| && line[i] == c;
        assert Lower(line)[i] in Lower(line);
      }
    }
    if IsBlank(line) {
      forall c | c in Lower(line) ensures IsSpace(c) {
        var i :| 0 <= i < |line| && Lower(line)[i] == c;
        assert line[i] in line;
      }
    }
  }

  lemma {:induction false} NoSection(sections: seq<Section>, line: string)
    requires forall s <- sections :: !(s.key <= line)
    ensures FindSection(sections, line) == |sections|
  {
    if sections != [] {
      NoSection(sections[1..], line);
    }
  }

  /** No key starts a line that does not start with '!'. */
  lemma KeysAreMarked(fmt: Format, line: string)
    requires WellTitled(fmt) && (line == [] || line[0] != '!')
    ensures FindSection(fmt.sections, Lower(line)) == |fmt.sections|
  {
    LowerKeepsFirst(line);
    forall s | s in fmt.sections ensures !(s.key <= Lower(line)) {
      var k :| 0 <= k < |fmt.sections| && fmt.sections[k] == s;
      assert fmt.sections[k].key[0] == '!';
    }
    NoSection(fmt.sections, Lower(line));
  }

  lemma NotePassed(fmt: Format, line: string, rest: seq<string>, st: Contents)
    requires WellTitled(fmt) && |st.mats| == |fmt.sections| && IsNote(fmt, line)
    ensures Parse(fmt, [line] + rest, st) == Parse(fmt, rest, st)
  {
    LowerKeepsFirst(line);
    if line != [] && line[0] == '!' {
      assert !IsSpace(line[0]);
      assert !IsBlank(line);
      NoSection(fmt.sections, Lower(line));
    } else {
      KeysAreMarked(fmt, line);
    }
    assert ([line] + rest)[0] == line && ([line] + rest)[1..] == rest;
    assert ParseBlock(fmt, [line] + rest, st) == Success((1, st));
  }

  lemma {:induction false} NotesPassed(fmt: Format, notes: seq<string>, rest: seq<string>, st: Contents)
    requires WellTitled(fmt) && |st.mats| == |fmt.sections| && forall line <- notes :: IsNote(fmt, line)
    ensures Parse(fmt, notes + rest, st) == Parse(fmt, rest, st)
  {
    if notes == [] {
      assert notes + rest == rest;
    } else {
      assert notes + rest == [notes[0]] + (notes[1..] + rest);
      NotePassed(fmt, notes[0], notes[1..] + rest, st);
      NotesPassed(fmt, notes[1..], rest, st);
    }
  }

  /** Blank lines and comments make no difference wherever they stand outside a matrix: in front of the
      file, behind the count line, between two matrices or at the end. */
  lemma {:induction false} NotesMakeNoDifference(
      fmt: Format, front: seq<string>, notes: seq<string>, rest: seq<string>, st: Contents)
    requires WellTitled(fmt) && |st.mats| == |fmt.sections| && forall line <- notes :: IsNote(fmt, line)
    requires Parse(fmt, front, st).Success?
    ensures Parse(fmt, front + notes + rest, st) == Parse(fmt, front + rest, st)
  {
    ReadOn(fmt, front, notes + rest, st);
    ReadOn(fmt, front, rest, st);
    Grouped(front, notes, rest);
    NotesPassed(fmt, notes, rest, Parse(fmt, front, st).value);
  }

  /** Any other line there is refused, unless it starts with '!'. */
  lemma {:induction false} StrayRefused(
      fmt: Format, front: seq<string>, line: string, rest: seq<string>, st: Contents)
    requires WellTitled(fmt) && |st.mats| == |fmt.sections| && IsStray(line) && Parse(fmt, front, st).Success?
    ensures Parse(fmt, front + [line] + rest, st) == Failure("unexpected content")
  {
    ReadOn(fmt, front, [line] + rest, st);
    Grouped(front, [line], rest);
    LowerKeepsFirst(line);
    assert line != [];
    KeysAreMarked(fmt, line);
  }

  /** A printed file behind any number of comment and blank lines is read as the printed file is. */
  lemma {:induction false} CommentedRoundTrip(fmt: Format, count: nat, mats: seq<Matrix>, notes: seq<string>)
    requires WellTitled(fmt) && Fits(fmt, count, mats)
    requires notes != [] && forall line <- notes :: IsNote(fmt, line) && '\n' !in line
    ensures var text := JoinLines(notes) + ("\n" + Print(fmt, count, mats));
      Parse(fmt, Lines(text), Nothing(fmt)) == Success(Contents(count, Found(mats))) <==>
      forall i :: 0 <= i < |mats| ==> AllSpaced(mats[i])
  {
    forall i | 0 <= i < |notes| ensures '\n' !in notes[i] {
      assert notes[i] in notes;
    }
    LinesOfJoined(notes, Print(fmt, count, mats));
    NotesPassed(fmt, notes, Lines(Print(fmt, count, mats)), Nothing(fmt));
    FileRoundTrip(fmt, count, mats);
  }

  // ---------- titles and numbers ----------

  /** What a line of numbers stands for: its words, or one word for all columns. */
  ghost predicate IsRowOf(row: seq<string>, line: string, cols: nat) {
    && |row| == cols
    && (row == Words(line) || (|Words(line)| == 1 && forall i :: 0 <= i < cols ==> row[i] == Words(line)[0]))
  }

  lemma RowReadExactly(line: string, cols: nat)
    ensures ParseRow(line, cols).Success? <==> |Words(line)| == cols || |Words(line)| == 1
    ensures ParseRow(line, cols).Success? ==> IsRowOf(ParseRow(line, cols).value, line, cols)
  {
  }

  /** A matrix is read exactly if there are enough lines, each with as many numbers as columns or with
      one; its rows are these numbers. */
  lemma {:induction false} MatrixReadExactly(lines: seq<string>, rows: nat, cols: nat)
    ensures var r := ParseMatrix(lines, rows, cols);
      && (r.Success? <==>
            rows <= |lines| &&
            forall j :: 0 <= j < rows ==> |Words(lines[j])| == cols || |Words(lines[j])| == 1)
      && (r.Success? ==>
            |r.value| == rows && forall j :: 0 <= j < rows ==> IsRowOf(r.value[j], lines[j], cols))
  {
    if rows > 0 && lines != [] {
      RowReadExactly(lines[0], cols);
      MatrixReadExactly(lines[1..], rows - 1, cols);
      var r := ParseMatrix(lines, rows, cols);
      if r.Success? {
        forall j | 0 <= j < rows
          ensures IsRowOf(r.value[j], lines[j], cols) && (|Words(lines[j])| == cols || |Words(lines[j])| == 1)
        {
          if j > 0 {
            assert lines[j] == lines[1..][j - 1] && r.value[j] == r.value[1..][j - 1];
          }
        }
      } else if rows <= |lines| && (|Words(lines[0])| == cols || |Words(lines[0])| == 1) {
        var j :| 0 <= j < rows - 1 && |Words(lines[1..][j])| != cols && |Words(lines[1..][j])| != 1;
        assert lines[1..][j] == lines[j + 1];
      }
    }
  }

  /** The line is a title of section k: the first section whose key starts it in lower case. */
  ghost predicate IsTitleOf(fmt: Format, line: string, k: nat) {
    && k < |fmt.sections| && fmt.sections[k].key <= Lower(line)
    && forall j :: 0 <= j < k ==> !(fmt.sections[j].key <= Lower(line))
  }

  /** The matrix behind a title of section k, of the size the count calls for. */
  function MatrixBehind(fmt: Format, k: nat, count: nat, rest: seq<string>): Result<Matrix>
    requires k < |fmt.sections|
  {
    var s := fmt.sections[k];
    ParseMatrix(rest, s.rowsPer * count + s.rowsPlus, s.colsPer * count + s.colsPlus)
  }

  lemma TitleStep(fmt: Format, title: string, k: nat, rest: seq<string>, st: Contents)
    requires |st.mats| == |fmt.sections| && IsTitleOf(fmt, title, k)
    ensures TitleStored(fmt, k, rest, st, Parse(fmt, [title] + rest, st))
  {
    var lines := [title] + rest;
    TitleBlock(fmt, title, k, rest, st);
    BlockParsed(fmt, lines, st, ParseBlock(fmt, lines, st));
    if st.count >= fmt.minCount && MatrixBehind(fmt, k, st.count, rest).Success? {
      BehindTitle(title, rest, |MatrixBehind(fmt, k, st.count, rest).value|);
    }
  }

  lemma BehindTitle(title: string, rest: seq<string>, n: nat)
    requires n <= |rest|
    ensures ([title] + rest)[1 + n..] == rest[n..]
  {
  }

  lemma BlockParsed(fmt: Format, lines: seq<string>, st: Contents, b: Result<(nat, Contents)>)
    requires |st.mats| == |fmt.sections| && lines != [] && b == ParseBlock(fmt, lines, st)
    ensures b.Failure? ==> Parse(fmt, lines, st) == Failure(b.reason)
    ensures b.Success? ==> Parse(fmt, lines, st) == Parse(fmt, lines[b.value.0..], b.value.1)
  {
  }

  lemma TitleBlock(fmt: Format, title: string, k: nat, rest: seq<string>, st: Contents)
    requires |st.mats| == |fmt.sections| && IsTitleOf(fmt, title, k)
    ensures ParseBlock(fmt, [title] + rest, st) ==
      if st.count < fmt.minCount then Failure("count not properly set") else
      var m := MatrixBehind(fmt, k, st.count, rest);
      if m.Failure? then Failure(m.reason) else Success((1 + |m.value|, st.(mats := st.mats[k := Some(m.value)])))
  {
    FindAt(fmt.sections, Lower(title), k);
    var lines := [title] + rest;
    assert lines[0] == title && lines[1..] == rest;
  }

  /** The matrix behind the title of section k has been stored, and the lines behind it read. */
  ghost predicate TitleStored(fmt: Format, k: nat, rest: seq<string>, st: Contents, r: Result<Contents>)
    requires |st.mats| == |fmt.sections| && k < |fmt.sections|
  {
    if st.count < fmt.minCount then r == Failure("count not properly set") else
    var m := MatrixBehind(fmt, k, st.count, rest);
    if m.Failure? then r == Failure(m.reason)
    else r == Parse(fmt, rest[|m.value|..], st.(mats := st.mats[k := Some(m.value)]))
  }

  /** A title stores the matrix behind it under its section, if the count has been set and the matrix has
      as many rows and columns as the count calls for; otherwise the file is refused. */
  lemma {:induction false} TitleStores(
      fmt: Format, front: seq<string>, title: string, k: nat, rest: seq<string>, st: Contents)
    requires |st.mats| == |fmt.sections| && IsTitleOf(fmt, title, k) && Parse(fmt, front, st).Success?
    ensures |Parse(fmt, front, st).value.mats| == |fmt.sections|
    ensures TitleStored(fmt, k, rest, Parse(fmt, front, st).value, Parse(fmt, front + ([title] + rest), st))
  {
    ReadOn(fmt, front, [title] + rest, st);
    TitleStep(fmt, title, k, rest, Parse(fmt, front, st).value);
  }

  /** A line with the count key sets the count to the integer behind its first colon. */
  lemma {:induction false} CountSet(
      fmt: Format, front: seq<string>, line: string, rest: seq<string>, st: Contents, n: int)
    requires WellTitled(fmt) && |st.mats| == |fmt.sections| && Parse(fmt, front, st).Success?
    requires fmt.countKey <= Lower(line) && ParseCount(Lower(line)) == Success(n)
    ensures var st1 := Parse(fmt, front, st).value;
      |st1.mats| == |fmt.sections| &&
      Parse(fmt, front + ([line] + rest), st) == Parse(fmt, rest, st1.(count := n))
  {
    ReadOn(fmt, front, [line] + rest, st);
    NoKeyStarts(fmt, fmt.sections, Lower(line));
    var lines := [line] + rest;
    assert lines[0] == line && lines[1..] == rest;
  }

  /** The superelement is refused when a title comes before a dimension of at least one, the other three
      files when it comes before a count of at least zero. */
  lemma {:induction false} CountRequired(
      fmt: Format, n: nat, front: seq<string>, title: string, k: nat, rest: seq<string>, st: Contents)
    requires fmt == SUPERELEMENT || fmt == Connections(n) || fmt == UserForcing(n) || fmt == ConnForcing(n)
    requires |st.mats| == |fmt.sections| && IsTitleOf(fmt, title, k) && Parse(fmt, front, st).Success?
    requires Parse(fmt, front, st).value.count < if fmt == SUPERELEMENT then 1 else 0
    ensures Parse(fmt, front + ([title] + rest), st).Failure?
  {
    TitleStores(fmt, front, title, k, rest, st);
  }

  // ---------- the titles of the four files ----------

  /** What starts a title of the superelement, in any mixture of cases. */
  lemma SuperelementKeys(line: string)
    ensures var l := Lower(line);
      && (IsTitleOf(SUPERELEMENT, line, 0) <==> "!mass" <= l)
      && (IsTitleOf(SUPERELEMENT, line, 1) <==> "!stiffness" <= l)
      && (IsTitleOf(SUPERELEMENT, line, 2) <==> "!damping" <= l)
      && (IsTitleOf(SUPERELEMENT, line, 3) <==> "!weight constant" <= l)
      && (IsTitleOf(SUPERELEMENT, line, 4) <==> "!weight stiffness" <= l)
    ensures |SUPERELEMENT.sections| == 5 && (SUPERELEMENT.countKey <= Lower(line) <==> "!dimension" <= Lower(line))
  {
    SecondLetters(Lower(line));
  }

  lemma SecondLetters(l: string)
    ensures "!mass" <= l ==> |l| > 1 && l[1] == 'm'
    ensures "!stiffness" <= l ==> |l| > 1 && l[1] == 's'
    ensures "!damping" <= l ==> |l| > 1 && l[1] == 'd'
    ensures "!weight constant" <= l ==> |l| > 8 && l[1] == 'w' && l[8] == 'c'
    ensures "!weight stiffness" <= l ==> |l| > 8 && l[1] == 'w' && l[8] == 's'
  {
  }

  /** And one of the other three. */
  lemma OtherKeys(n: nat, line: string)
    ensures var l := Lower(line);
      && (IsTitleOf(Connections(n), line, 0) <==> "!connection" <= l)
      && (IsTitleOf(Connections(n), line, 1) <==> "!displacement" <= l)
      && (IsTitleOf(UserForcing(n), line, 0) <==> "!forcing" <= l)
      && (IsTitleOf(ConnForcing(n), line, 0) <==> "!forcing" <= l)
    ensures |Connections(n).sections| == 2 && |UserForcing(n).sections| == |ConnForcing(n).sections| == 1
    ensures Connections(n).countKey <= Lower(line) <==> "!nconn" <= Lower(line)
    ensures UserForcing(n).countKey <= Lower(line) <==> "!nsteps" <= Lower(line)
    ensures ConnForcing(n).countKey <= Lower(line) <==> "!nsteps" <= Lower(line)
  {
    ConnectionLetters(Lower(line));
  }

  lemma ConnectionLetters(l: string)
    ensures "!connection" <= l ==> |l| > 1 && l[1] == 'c'
    ensures "!displacement" <= l ==> |l| > 1 && l[1] == 'd'
  {
  }
}
