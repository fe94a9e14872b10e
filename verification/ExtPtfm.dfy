/**
 The four text files of the external platform module: the superelement, its
 connection points, and the two forcing time series. Each is a count line and a
 list of titled matrices; the printers use 16-column fields and the parsers jump
 through the lines by index.
 */
module ExtPtfm {
  import opened Wrappers
  import opened Text

  /** A number is the text it is printed as. */
  type Matrix = seq<seq<string>>

  /** One titled matrix. It has rowsPer*count + rowsPlus rows and colsPer*count + colsPlus columns. */
  datatype Section = Section(title: string, key: string, rowsPer: nat, rowsPlus: nat, colsPer: nat, colsPlus: nat)
  {
    function Rows(count: nat): nat {
      rowsPer * count + rowsPlus
    }

    function Cols(count: nat): nat {
      colsPer * count + colsPlus
    }
  }

  datatype Format = Format(countTitle: string, countKey: string, minCount: nat, sections: seq<Section>)

  const SUPERELEMENT := Format("!Dimension", "!dimension", 1, [
    Section("!Mass Matrix", "!mass", 1, 0, 1, 0),
    Section("!Stiffness Matrix", "!stiffness", 1, 0, 1, 0),
    Section("!Damping Matrix", "!damping", 1, 0, 1, 0),
    Section("!Weight constant", "!weight constant", 0, 1, 1, 0),
    Section("!Weight stiffness matrix", "!weight stiffness", 1, 0, 1, 0)])

  function Connections(nDOF: nat): Format {
    Format("!nConn", "!nconn", 0, [
      Section("!Connections", "!connection", 1, 0, 0, 3),
      Section("!Displacement", "!displacement", 3, 0, 0, nDOF)])
  }

  function UserForcing(nDOF: nat): Format {
    Format("!nSteps", "!nsteps", 0, [Section("!Forcing:", "!forcing", 1, 0, 0, 1 + nDOF)])
  }

  function ConnForcing(nConn: nat): Format {
    Format("!nSteps", "!nsteps", 0, [Section("!Forcing:", "!forcing", 1, 0, 0, 1 + 3 * nConn)])
  }

  /** What a file holds. While reading, the count is -1 and matrices are missing until their lines are met. */
  datatype Contents = Contents(count: int, mats: seq<Option<Matrix>>)

  function Nothing(fmt: Format): Contents {
    Contents(-1, seq(|fmt.sections|, _ => None))
  }

  // ---------- printing ----------

  function RowText(row: seq<string>): string {
    if row == [] then [] else RowText(row[..|row| - 1]) + PadLeft(row[|row| - 1], 16)
  }

  function RowTexts(m: Matrix): (lines: seq<string>)
    ensures |lines| == |m|
  {
    seq(|m|, i requires 0 <= i < |m| => RowText(m[i]))
  }

  function MatricesText(sections: seq<Section>, mats: seq<Matrix>): string
    requires |sections| == |mats|
  {
    if sections == [] then [] else
    var body := sections[0].title + ("\n" + JoinLines(RowTexts(mats[0])));
    if |sections| == 1 then body else body + ("\n\n" + MatricesText(sections[1..], mats[1..]))
  }

  /** toString of the writers. */
  function Print(fmt: Format, count: nat, mats: seq<Matrix>): string
    requires |fmt.sections| == |mats|
  {
    fmt.countTitle + (": " + NatText(count)) + ("\n\n" + MatricesText(fmt.sections, mats))
  }

  // ---------- parsing ----------

  /** A line of a matrix; a single number is broadcast over the row. */
  function ParseRow(line: string, cols: nat): Result<seq<string>> {
    var ws := Words(line);
    if |ws| == cols then Success(ws)
    else if |ws| == 1 then Success(seq(cols, _ => ws[0]))
    else Failure("could not broadcast input array")
  }

  /** readmat on the lines that follow the title. */
  function ParseMatrix(lines: seq<string>, rows: nat, cols: nat): (r: Result<Matrix>)
    ensures r.Success? ==> rows <= |lines| && |r.value| == rows
  {
    if rows == 0 then Success([])
    else if lines == [] then Failure("list index out of range") else
    var row :- ParseRow(lines[0], cols);
    var m :- ParseMatrix(lines[1..], rows - 1, cols);
    Success([row] + m)
  }

  /** The first section whose key starts the lower-cased line, or the number of sections. */
  function FindSection(sections: seq<Section>, line: string): (k: nat)
    ensures k <= |sections|
    ensures k < |sections| ==> sections[k].key <= line
  {
    if sections == [] || sections[0].key <= line then 0 else 1 + FindSection(sections[1..], line)
  }

  function ParseCount(line: string): Result<int> {
    var part :- SecondPart(line, ':');
    ParseInt(part)
  }

  /** What one pass of the line machine does at its first line: the number of lines it uses up, and
      the new state. */
  function ParseBlock(fmt: Format, lines: seq<string>, st: Contents): (r: Result<(nat, Contents)>)
    requires |st.mats| == |fmt.sections| && lines != []
    ensures r.Success? ==> 1 <= r.value.0 <= |lines| && |r.value.1.mats| == |fmt.sections|
  {
    var l := Lower(lines[0]);
    var k := FindSection(fmt.sections, l);
    if k < |fmt.sections| then
      if st.count < fmt.minCount then Failure("count not properly set") else
      var rows := fmt.sections[k].Rows(st.count);
      var m :- ParseMatrix(lines[1..], rows, fmt.sections[k].Cols(st.count));
      Success((1 + rows, st.(mats := st.mats[k := Some(m)])))
    else if l == [] then Success((1, st))
    else if l[0] == '!' then
      if fmt.countKey <= l then
        var n :- ParseCount(l);
        Success((1, st.(count := n)))
      else Success((1, st))
    else if IsBlank(l) then Success((1, st))
    else Failure("unexpected content")
  }

  /** The line machine, from the first unread line on. */
  function Parse(fmt: Format, lines: seq<string>, st: Contents): Result<Contents>
    requires |st.mats| == |fmt.sections|
    decreases |lines|
  {
    if lines == [] then Success(st) else
    var (used, st') :- ParseBlock(fmt, lines, st);
    Parse(fmt, lines[used..], st')
  }

  /** readmat as it runs: by line index, one row at a time. */
  method ReadMatrix(n: nat, cols: nat, lines: seq<string>, iStart: nat) returns (r: Result<Matrix>)
    requires iStart <= |lines|
    ensures r == ParseMatrix(lines[iStart..], n, cols)
  {
    var m: Matrix := [];
    var j := 0;
    NothingBefore(ParseMatrix(lines[iStart..], n, cols));
    while j < n
      invariant 0 <= j <= n && iStart + j <= |lines|
      invariant ParseMatrix(lines[iStart..], n, cols) ==
        var rest := ParseMatrix(lines[iStart + j..], n - j, cols);
        if rest.Failure? then rest else Success(m + rest.value)
    {
      var i := iStart + j;
      if i >= |lines| {
        return Failure("list index out of range");
      }
      assert lines[i..][1..] == lines[i + 1..];
      var row := ParseRow(lines[i], cols);
      if row.Failure? {
        return Failure(row.reason);
      }
      ghost var rest := ParseMatrix(lines[i + 1..], n - j - 1, cols);
      assert rest.Success? ==> m + ([row.value] + rest.value) == m + [row.value] + rest.value;
      m := m + [row.value];
      j := j + 1;
    }
    assert m + [] == m;
    return Success(m);
  }

  lemma NothingBefore(r: Result<Matrix>)
    ensures r == if r.Failure? then r else Success([] + r.value)
  {
    assert r.Success? ==> [] + r.value == r.value;
  }

  /** The body of the loop in detectAndReadExtPtfm..., at line i: the index of the next line. */
  method ReadBlock(fmt: Format, lines: seq<string>, i: nat, st: Contents) returns (r: Result<(nat, Contents)>)
    requires |st.mats| == |fmt.sections| && i < |lines|
    ensures var p := ParseBlock(fmt, lines[i..], st);
      r == if p.Failure? then Failure(p.reason) else Success((i + p.value.0, p.value.1))
  {
    var l := Lower(lines[i]);
    assert lines[i..][1..] == lines[i + 1..];
    var k := FindSection(fmt.sections, l);
    if k < |fmt.sections| {
      if st.count < fmt.minCount {
        return Failure("count not properly set");
      }
      var rows := fmt.sections[k].Rows(st.count);
      var m := ReadMatrix(rows, fmt.sections[k].Cols(st.count), lines, i + 1);
      if m.Failure? {
        return Failure(m.reason);
      }
      return Success((i + rows + 1, st.(mats := st.mats[k := Some(m.value)])));
    }
    if |l| > 0 {
      if l[0] == '!' {
        if fmt.countKey <= l {
          var n := ParseCount(l);
          if n.Failure? {
            return Failure(n.reason);
          }
          return Success((i + 1, st.(count := n.value)));
        }
      } else if !IsBlank(l) {
        return Failure("unexpected content");
      }
    }
    return Success((i + 1, st));
  }

  /** detectAndReadExtPtfm...: a line index that is moved past each matrix. */
  method ReadFile(fmt: Format, lines: seq<string>) returns (r: Result<Contents>)
    ensures r == Parse(fmt, lines, Nothing(fmt))
  {
    var st := Nothing(fmt);
    var i := 0;
    while i < |lines|
      invariant 0 <= i <= |lines| && |st.mats| == |fmt.sections|
      invariant Parse(fmt, lines, Nothing(fmt)) == Parse(fmt, lines[i..], st)
    {
      var b := ReadBlock(fmt, lines, i, st);
      if b.Failure? {
        return Failure(b.reason);
      }
      assert lines[i..][b.value.0 - i..] == lines[b.value.0..];
      i, st := b.value.0, b.value.1;
    }
    return Success(st);
  }

  // ---------- rows ----------

  predicate AllWords(row: seq<string>) {
    forall w <- row :: IsWord(w)
  }

  ghost predicate IsRow(row: seq<string>, cols: nat) {
    |row| == cols && AllWords(row)
  }

  /** Every number but the first of its row leaves at least one blank in its field. */
  predicate Spaced(row: seq<string>) {
    forall i :: 1 <= i < |row| ==> |row[i]| < 16
  }

  predicate AllSpaced(m: Matrix) {
    forall row <- m :: Spaced(row)
  }

  /** The words a printed row falls into: a number that fills its field is glued to the one before. */
  function Glued(row: seq<string>): (ws: seq<string>)
    ensures |ws| <= |row| && (row != [] ==> ws != [])
  {
    if row == [] then [] else
    var n := |row| - 1;
    var ws := Glued(row[..n]);
    if n > 0 && |row[n]| >= 16 then Extended(ws, row[n]) else ws + [row[n]]
  }

  predicate EndsInWord(s: string) {
    s != [] && !IsSpace(s[|s| - 1])
  }

  /** A field behind text that ends in a word. */
  lemma {:induction false} WordsOfField(front: string, w: string)
    requires EndsInWord(front) && IsWord(w)
    ensures var ws := Words(front);
      && ws != []
      && Words(front + PadLeft(w, 16)) ==
           if |w| < 16 then ws + [w] else Extended(ws, w)
  {
    WordsGlue(front, w);
    OneWord(w);
    if |w| < 16 {
      WordsConcat(front, Blanks(16 - |w|), w);
    } else {
      assert PadLeft(w, 16) == w;
    }
  }

  lemma {:induction false} WordsOfRow(row: seq<string>)
    requires AllWords(row)
    ensures Words(RowText(row)) == Glued(row)
    ensures row != [] ==> EndsInWord(RowText(row))
  {
    if row != [] {
      var n := |row| - 1;
      var front, w := RowText(row[..n]), row[n];
      assert IsWord(w);
      WordsOfRow(row[..n]);
      var pad := PadLeft(w, 16);
      assert pad[|pad| - 1] == w[|w| - 1];
      if n > 0 {
        WordsOfField(front, w);
      } else {
        assert front + pad == pad;
        OneWord(w);
        WordsSkipBlank(pad[..|pad| - |w|], w);
      }
    }
  }

  lemma {:induction false} GluedExactly(row: seq<string>)
    requires AllWords(row)
    ensures Spaced(row) ==> Glued(row) == row
    ensures !Spaced(row) ==> |Glued(row)| < |row|
    ensures row != [] ==> row[0] <= Glued(row)[0]
    ensures !Spaced(row) && |Glued(row)| == 1 ==> |Glued(row)[0]| > |row[0]|
  {
    if row != [] {
      var n := |row| - 1;
      GluedExactly(row[..n]);
      SpacedNext(row);
      GluedNext(row, Glued(row[..n]), Glued(row));
    }
  }

  lemma SpacedNext(row: seq<string>)
    requires row != []
    ensures var n := |row| - 1; Spaced(row) <==> Spaced(row[..n]) && (n > 0 ==> |row[n]| < 16)
  {
  }

  lemma GluedNext(row: seq<string>, ws: seq<string>, next: seq<string>)
    requires row != [] && (|row| > 1 ==> ws != []) && |ws| < |row|
    requires var n := |row| - 1;
      next == if n > 0 && |row[n]| >= 16 then Extended(ws, row[n]) else ws + [row[n]]
    ensures var n := |row| - 1;
      && next != [] && (n == 0 ==> next[0] == row[0]) && (n > 0 ==> ws[0] <= next[0])
      && (n > 0 && |row[n]| >= 16 ==> |next| == |ws| && (|ws| == 1 ==> |next[0]| > |ws[0]|))
      && (n == 0 || |row[n]| < 16 ==> |next| == |ws| + 1)
      && (ws == row[..n] && (n == 0 || |row[n]| < 16) ==> next == row)
  {
    var n := |row| - 1;
    assert row == row[..n] + [row[n]];
    if n == 0 {
      assert ws == [];
    }
  }

  /** A row survives printing and parsing exactly when its numbers are spaced. */
  lemma {:induction false} RowRoundTrip(row: seq<string>, cols: nat)
    requires IsRow(row, cols)
    ensures ParseRow(RowText(row), cols) == Success(row) <==> Spaced(row)
  {
    WordsOfRow(row);
    GluedExactly(row);
    if !Spaced(row) && |Glued(row)| == 1 && ParseRow(RowText(row), cols).Success? {
      assert ParseRow(RowText(row), cols).value[0] == Glued(row)[0] != row[0];
    }
  }

  // ---------- matrices ----------

  ghost predicate IsMatrix(m: Matrix, rows: nat, cols: nat) {
    |m| == rows && forall i :: 0 <= i < |m| ==> IsRow(m[i], cols)
  }

  /** The printed rows parsed one by one. */
  function Reparsed(m: Matrix, cols: nat): Result<Matrix> {
    ParseMatrix(RowTexts(m), |m|, cols)
  }

  lemma {:induction false} ParseMatrixIgnoresRest(lines: seq<string>, rest: seq<string>, cols: nat)
    ensures ParseMatrix(lines + rest, |lines|, cols) == ParseMatrix(lines, |lines|, cols)
  {
    if lines != [] {
      assert (lines + rest)[1..] == lines[1..] + rest;
      ParseMatrixIgnoresRest(lines[1..], rest, cols);
    }
  }

  lemma {:induction false} MatrixRoundTrip(m: Matrix, cols: nat)
    requires IsMatrix(m, |m|, cols)
    ensures Reparsed(m, cols) == Success(m) <==> AllSpaced(m)
  {
    if m != [] {
      assert m == [m[0]] + m[1..];
      assert RowTexts(m)[1..] == RowTexts(m[1..]);
      RowRoundTrip(m[0], cols);
      MatrixRoundTrip(m[1..], cols);
      assert AllSpaced(m) <==> Spaced(m[0]) && AllSpaced(m[1..]);
    }
  }

  // ---------- files ----------

  /** A title whose lower-cased form starts with its key. */
  ghost predicate Recognised(title: string, key: string) {
    key <= Lower(title) && |key| > 2 && '\n' !in title && title != []
  }

  /** Keys of which neither starts the other. */
  ghost predicate Apart(key: string, other: string) {
    exists p :: 0 <= p < |key| && p < |other| && key[p] != other[p]
  }

  /** A section whose title is recognised by its key, which differs from the count key in the third letter. */
  ghost predicate IsTitled(s: Section, third: char) {
    Recognised(s.title, s.key) && s.key[0] == '!' && s.key[2] != third
  }

  /** What makes the lines of a format tell apart: each title is found by its own key and by no
      earlier one, and the count line starts with the count key and with no section key. */
  ghost predicate WellTitled(fmt: Format) {
    && Recognised(fmt.countTitle, fmt.countKey) && fmt.countKey[0] == '!' && ':' !in fmt.countTitle
    && (forall k :: 0 <= k < |fmt.sections| ==> IsTitled(fmt.sections[k], fmt.countKey[2]))
    && (forall j, k :: 0 <= j < k < |fmt.sections| ==> Apart(fmt.sections[j].key, fmt.sections[k].key))
  }

  lemma {:induction false} TitleFound(fmt: Format, k: nat)
    requires WellTitled(fmt) && k < |fmt.sections|
    ensures FindSection(fmt.sections, Lower(fmt.sections[k].title)) == k
  {
    var line := Lower(fmt.sections[k].title);
    assert Recognised(fmt.sections[k].title, fmt.sections[k].key);
    forall j | 0 <= j < k ensures !(fmt.sections[j].key <= line) {
      assert Apart(fmt.sections[j].key, fmt.sections[k].key);
    }
    FindAt(fmt.sections, line, k);
  }

  lemma {:induction false} FindAt(sections: seq<Section>, line: string, k: nat)
    requires k < |sections| && sections[k].key <= line
    requires forall j :: 0 <= j < k ==> !(sections[j].key <= line)
    ensures FindSection(sections, line) == k
  {
    if k > 0 {
      FindAt(sections[1..], line, k - 1);
    }
  }

  /** Matrices of the sizes the format asks for, without empty rows. */
  ghost predicate Fits(fmt: Format, count: nat, mats: seq<Matrix>) {
    && |mats| == |fmt.sections|
    && fmt.minCount <= count
    && forall k :: 0 <= k < |mats| ==>
         && IsMatrix(mats[k], fmt.sections[k].Rows(count), fmt.sections[k].Cols(count))
         && fmt.sections[k].Cols(count) >= 1
  }

  ghost predicate NoEmptyRows(m: Matrix) {
    forall i :: 0 <= i < |m| ==> m[i] != [] && AllWords(m[i])
  }

  /** The lines from the k-th title on. */
  function MatrixLines(sections: seq<Section>, mats: seq<Matrix>): seq<string>
    requires |sections| == |mats|
  {
    if sections == [] then []
    else if |sections| == 1 then [sections[0].title] + RowTexts(mats[0])
    else [sections[0].title] + RowTexts(mats[0]) + Gap(mats[0]) + MatrixLines(sections[1..], mats[1..])
  }

  /** The blank lines before the next title; a matrix without rows leaves one more. */
  function Gap(m: Matrix): seq<string> {
    if m == [] then ["", ""] else [""]
  }

  lemma {:induction false} RowTextHasNoBreak(row: seq<string>)
    requires AllWords(row)
    ensures '\n' !in RowText(row)
  {
    if row != [] {
      RowTextHasNoBreak(row[..|row| - 1]);
      assert IsWord(row[|row| - 1]);
    }
  }

  lemma {:induction false} EmptyLine(rest: string)
    ensures Lines("\n" + rest) == [""] + Lines(rest)
  {
    LinesOfLine("", rest);
    assert "" + ("\n" + rest) == "\n" + rest;
  }

  lemma TwoBreaks(rest: string)
    ensures "\n\n" + rest == "\n" + ("\n" + rest)
  {
  }

  lemma {:induction false} LinesOfRows(m: Matrix, rest: string)
    requires m != [] && forall i :: 0 <= i < |m| ==> AllWords(m[i])
    ensures Lines(JoinLines(RowTexts(m)) + ("\n" + ("\n" + rest))) == RowTexts(m) + ([""] + Lines(rest))
  {
    var rows := RowTexts(m);
    forall i | 0 <= i < |rows| ensures '\n' !in rows[i] {
      RowTextHasNoBreak(m[i]);
    }
    EmptyLine(rest);
    LinesOfJoined(rows, "\n" + rest);
  }

  /** A title and its rows, followed by two breaks and further text. */
  lemma {:induction false} LinesOfSection(title: string, m: Matrix, rest: string)
    requires '\n' !in title && forall i :: 0 <= i < |m| ==> AllWords(m[i])
    ensures Lines(title + ("\n" + JoinLines(RowTexts(m))) + ("\n\n" + rest)) ==
            [title] + RowTexts(m) + Gap(m) + Lines(rest)
  {
    var body := JoinLines(RowTexts(m));
    var tail := "\n" + ("\n" + rest);
    TwoBreaks(rest);
    ConcatShift(title, "\n", body, tail);
    LinesOfLine(title, body + tail);
    LinesOfBody(m, rest);
    Regroup([title], RowTexts(m), Gap(m), Lines(rest));
  }

  lemma {:induction false} LinesOfBody(m: Matrix, rest: string)
    requires forall i :: 0 <= i < |m| ==> AllWords(m[i])
    ensures Lines(JoinLines(RowTexts(m)) + ("\n" + ("\n" + rest))) == RowTexts(m) + (Gap(m) + Lines(rest))
  {
    if m == [] {
      EmptyBody(rest);
    } else {
      LinesOfRows(m, rest);
    }
  }

  lemma {:induction false} EmptyBody(rest: string)
    ensures Lines([] + ("\n" + ("\n" + rest))) == [] + (["", ""] + Lines(rest))
  {
    EmptyLine(rest);
    EmptyLine("\n" + rest);
    Leading("\n" + ("\n" + rest));
  }

  lemma Leading(s: string)
    ensures [] + s == s
  {
  }

  lemma Regroup(a: seq<string>, b: seq<string>, c: seq<string>, d: seq<string>)
    ensures a + (b + (c + d)) == a + b + c + d
  {
  }

  /** The last section: nothing follows its last row. */
  lemma {:induction false} LinesOfLastSection(title: string, m: Matrix)
    requires '\n' !in title && title != [] && NoEmptyRows(m)
    ensures Lines(title + ("\n" + JoinLines(RowTexts(m)))) == [title] + RowTexts(m)
  {
    var rows := RowTexts(m);
    forall i | 0 <= i < |rows| ensures '\n' !in rows[i] && rows[i] != [] {
      RowTextHasNoBreak(m[i]);
      WordsOfRow(m[i]);
    }
    LinesOfLine(title, JoinLines(rows));
    LinesOfClosed(rows);
  }

  /** Joined lines of which the last is not empty. */
  lemma {:induction false} LinesOfClosed(lines: seq<string>)
    requires forall i :: 0 <= i < |lines| ==> '\n' !in lines[i] && lines[i] != []
    ensures Lines(JoinLines(lines)) == lines
  {
    if |lines| == 1 {
      LinesOfLast(lines[0]);
    } else if lines != [] {
      var n := |lines| - 1;
      var front, last := lines[..n], lines[n];
      JoinSplit(lines);
      LinesOfLast(last);
      LinesOfJoined(front, last);
      assert lines == front + [last];
    }
  }

  lemma {:induction false} JoinSplit(lines: seq<string>)
    requires |lines| >= 2
    ensures JoinLines(lines) == JoinLines(lines[..|lines| - 1]) + ("\n" + lines[|lines| - 1])
  {
    var n := |lines| - 1;
    if n == 1 {
      assert lines[..1] == [lines[0]] && lines[1..] == [lines[1]];
    } else {
      JoinSplit(lines[1..]);
      assert lines[1..][..n - 1] == lines[..n][1..];
      ConcatShift(lines[0], "\n", JoinLines(lines[1..n]), "\n" + lines[n]);
      assert lines[1..n] == lines[..n][1..];
    }
  }

  lemma {:induction false} LinesOfMatrices(sections: seq<Section>, mats: seq<Matrix>)
    requires |sections| == |mats|
    requires forall s <- sections :: '\n' !in s.title && s.title != []
    requires forall i :: 0 <= i < |mats| ==> NoEmptyRows(mats[i])
    ensures Lines(MatricesText(sections, mats)) == MatrixLines(sections, mats)
  {
    if |sections| == 1 {
      LinesOfLastSection(sections[0].title, mats[0]);
    } else if sections != [] {
      LinesOfMatrices(sections[1..], mats[1..]);
      LinesOfSection(sections[0].title, mats[0], MatricesText(sections[1..], mats[1..]));
    }
  }

  /** Empty lines are passed over. */
  lemma {:induction false} SkipEmpty(fmt: Format, lines: seq<string>, st: Contents)
    requires WellTitled(fmt) && |st.mats| == |fmt.sections|
    ensures Parse(fmt, [""] + lines, st) == Parse(fmt, lines, st)
  {
    NoKeyStarts(fmt, fmt.sections, "");
    assert ([""] + lines)[1..] == lines;
  }

  lemma {:induction false} NoKeyStarts(fmt: Format, sections: seq<Section>, line: string)
    requires forall s <- sections :: |s.key| > 2 && (|line| > 2 ==> s.key[2] != line[2])
    ensures FindSection(sections, line) == |sections|
  {
    if sections != [] {
      NoKeyStarts(fmt, sections[1..], line);
    }
  }

  lemma {:induction false} SkipGap(fmt: Format, m: Matrix, lines: seq<string>, st: Contents)
    requires WellTitled(fmt) && |st.mats| == |fmt.sections|
    ensures Parse(fmt, Gap(m) + lines, st) == Parse(fmt, lines, st)
  {
    SkipEmpty(fmt, lines, st);
    if m == [] {
      SkipEmpty(fmt, [""] + lines, st);
      assert Gap(m) + lines == [""] + ([""] + lines);
    }
  }

  /** One matrix is parsed row by row and stored under its own section. */
  lemma {:induction false} ParseSection(fmt: Format, k: nat, m: Matrix, rest: seq<string>, st: Contents)
    requires WellTitled(fmt) && k < |fmt.sections| && |st.mats| == |fmt.sections|
    requires fmt.minCount <= st.count && |m| == fmt.sections[k].Rows(st.count)
    ensures Parse(fmt, [fmt.sections[k].title] + RowTexts(m) + rest, st) ==
      var r := Reparsed(m, fmt.sections[k].Cols(st.count));
      if r.Failure? then Failure(r.reason)
      else Parse(fmt, rest, st.(mats := st.mats[k := Some(r.value)]))
  {
    var rows := RowTexts(m);
    var lines := [fmt.sections[k].title] + rows + rest;
    assert lines[1..] == rows + rest;
    assert lines[1 + |m|..] == rest;
    TitleFound(fmt, k);
    ParseMatrixIgnoresRest(rows, rest, fmt.sections[k].Cols(st.count));
  }

  /** The outcome of parsing all matrices from section k on. */
  function ReparsedFrom(fmt: Format, count: nat, mats: seq<Matrix>, k: nat, st: Contents): Result<Contents>
    requires |mats| == |fmt.sections| == |st.mats| && k <= |mats|
    decreases |mats| - k
  {
    if k == |mats| then Success(st) else
    var m :- Reparsed(mats[k], fmt.sections[k].Cols(count));
    ReparsedFrom(fmt, count, mats, k + 1, st.(mats := st.mats[k := Some(m)]))
  }

  lemma {:induction false} ParseMatrices(fmt: Format, count: nat, mats: seq<Matrix>, k: nat, st: Contents)
    requires WellTitled(fmt) && Fits(fmt, count, mats) && k <= |mats|
    requires st.count == count && |st.mats| == |mats|
    ensures Parse(fmt, MatrixLines(fmt.sections[k..], mats[k..]), st) == ReparsedFrom(fmt, count, mats, k, st)
    decreases |mats| - k
  {
    if k < |mats| {
      var sections, rest := fmt.sections[k..], mats[k..];
      var section := [sections[0].title] + RowTexts(rest[0]);
      var more := if |sections| == 1 then [] else Gap(rest[0]) + MatrixLines(sections[1..], rest[1..]);
      assert MatrixLines(sections, rest) == section + more;
      ParseSection(fmt, k, mats[k], more, st);
      var r := Reparsed(mats[k], fmt.sections[k].Cols(count));
      if r.Success? {
        var st' := st.(mats := st.mats[k := Some(r.value)]);
        ParseMatrices(fmt, count, mats, k + 1, st');
        assert sections[1..] == fmt.sections[k + 1..] && rest[1..] == mats[k + 1..];
        if |sections| > 1 {
          SkipGap(fmt, mats[k], MatrixLines(sections[1..], rest[1..]), st');
        }
      }
    }
  }

  function Found(mats: seq<Matrix>): seq<Option<Matrix>> {
    seq(|mats|, i requires 0 <= i < |mats| => Some(mats[i]))
  }

  /** The matrices come back exactly when every row does. */
  lemma {:induction false} MatricesRestored(fmt: Format, count: nat, mats: seq<Matrix>, k: nat, st: Contents)
    requires Fits(fmt, count, mats) && k <= |mats| && |st.mats| == |mats|
    ensures var r := ReparsedFrom(fmt, count, mats, k, st);
      && (r.Success? ==> r.value.count == st.count && |r.value.mats| == |mats| && r.value.mats[..k] == st.mats[..k])
      && ((r.Success? && forall i :: k <= i < |mats| ==> r.value.mats[i] == Some(mats[i])) <==>
          forall i :: k <= i < |mats| ==> AllSpaced(mats[i]))
    decreases |mats| - k
  {
    if k < |mats| {
      var cols := fmt.sections[k].Cols(count);
      MatrixRoundTrip(mats[k], cols);
      var m := Reparsed(mats[k], cols);
      if m.Success? {
        var st' := st.(mats := st.mats[k := Some(m.value)]);
        MatricesRestored(fmt, count, mats, k + 1, st');
        var r := ReparsedFrom(fmt, count, mats, k + 1, st');
        if r.Success? {
          assert r.value.mats[k] == r.value.mats[..k + 1][k] == Some(m.value);
          assert st'.mats[..k + 1][..k] == st.mats[..k] && r.value.mats[..k + 1][..k] == r.value.mats[..k];
        }
      }
    }
  }

  /** The count line is recognised and sets the count. */
  lemma {:induction false} ParseCountLine(fmt: Format, count: nat, rest: seq<string>, st: Contents)
    requires WellTitled(fmt) && |st.mats| == |fmt.sections|
    ensures Parse(fmt, [fmt.countTitle + (": " + NatText(count))] + rest, st) == Parse(fmt, rest, st.(count := count))
  {
    var line := fmt.countTitle + (": " + NatText(count));
    CountOfLine(fmt.countTitle, count);
    NoKeyStarts(fmt, fmt.sections, Lower(line));
    assert ([line] + rest)[1..] == rest;
  }

  lemma {:induction false} CountOfLine(title: string, count: nat)
    requires ':' !in title
    ensures var l := Lower(title + (": " + NatText(count)));
      Lower(title) <= l && ParseCount(l) == Success(count)
  {
    var low, n := Lower(title), NatText(count);
    LowerCountLine(title, count);
    forall c | c in n ensures c != ':' {
      DigitIsPlain(c);
    }
    SecondPartAt(low, ':', " " + n);
    ColonFirst(n);
    ParseNatText(count);
  }

  lemma ColonFirst(n: string)
    ensures ": " + n == [':'] + (" " + n)
  {
  }

  lemma {:induction false} LowerCountLine(title: string, count: nat)
    ensures Lower(title + (": " + NatText(count))) == Lower(title) + (": " + NatText(count))
  {
    var n := NatText(count);
    assert forall i :: 0 <= i < |n| ==> IsDigit(n[i]) && LowerChar(n[i]) == n[i];
  }

  /** Reading back a printed file yields the same count and matrices exactly when every number but
      the first of its row is shorter than its 16-column field. In particular no line index runs
      past the end. */
  lemma {:induction false} FileRoundTrip(fmt: Format, count: nat, mats: seq<Matrix>)
    requires WellTitled(fmt) && Fits(fmt, count, mats)
    ensures Parse(fmt, Lines(Print(fmt, count, mats)), Nothing(fmt)) == Success(Contents(count, Found(mats))) <==>
            forall i :: 0 <= i < |mats| ==> AllSpaced(mats[i])
  {
    PrintedLines(fmt, count, mats);
    var lines := MatrixLines(fmt.sections, mats);
    var first := fmt.countTitle + (": " + NatText(count));
    ParseCountLine(fmt, count, [""] + lines, Nothing(fmt));
    var st := Nothing(fmt).(count := count);
    SkipEmpty(fmt, lines, st);
    ParseMatrices(fmt, count, mats, 0, st);
    assert fmt.sections[0..] == fmt.sections && mats[0..] == mats;
    MatricesRestored(fmt, count, mats, 0, st);
    SameContents(ReparsedFrom(fmt, count, mats, 0, st), count, mats);
  }

  lemma {:induction false} SameContents(r: Result<Contents>, count: nat, mats: seq<Matrix>)
    requires r.Success? ==> r.value.count == count && |r.value.mats| == |mats|
    ensures r == Success(Contents(count, Found(mats))) <==>
            r.Success? && forall i :: 0 <= i < |mats| ==> r.value.mats[i] == Some(mats[i])
  {
    if r.Success? && forall i :: 0 <= i < |mats| ==> r.value.mats[i] == Some(mats[i]) {
      assert r.value.mats == Found(mats);
    }
  }

  lemma {:induction false} PrintedLines(fmt: Format, count: nat, mats: seq<Matrix>)
    requires WellTitled(fmt) && Fits(fmt, count, mats)
    ensures Lines(Print(fmt, count, mats)) ==
            [fmt.countTitle + (": " + NatText(count))] + ([""] + MatrixLines(fmt.sections, mats))
  {
    var first := fmt.countTitle + (": " + NatText(count));
    var text := MatricesText(fmt.sections, mats);
    forall c | c in NatText(count) ensures c != '\n' {
      DigitIsPlain(c);
    }
    assert "\n\n" + text == "\n" + ("\n" + text);
    LinesOfLine(first, "\n" + text);
    LinesOfLine("", text);
    assert "" + ("\n" + text) == "\n" + text;
    LinesOfMatrices(fmt.sections, mats);
  }

  // ---------- the four formats ----------

  lemma SuperelementTitles()
    ensures Recognised("!Dimension", "!dimension") && ':' !in "!Dimension"
    ensures Recognised("!Mass Matrix", "!mass")
    ensures Recognised("!Stiffness Matrix", "!stiffness")
    ensures Recognised("!Damping Matrix", "!damping")
  {
  }

  lemma WeightTitles()
    ensures Recognised("!Weight constant", "!weight constant")
    ensures Recognised("!Weight stiffness matrix", "!weight stiffness")
  {
  }

  lemma OtherTitles()
    ensures Recognised("!nConn", "!nconn") && ':' !in "!nConn"
    ensures Recognised("!nSteps", "!nsteps") && ':' !in "!nSteps"
    ensures Recognised("!Connections", "!connection")
    ensures Recognised("!Displacement", "!displacement")
    ensures Recognised("!Forcing:", "!forcing")
  {
  }

  lemma ApartAt(key: string, other: string, p: nat)
    requires p < |key| && p < |other| && key[p] != other[p]
    ensures Apart(key, other)
  {
  }

  lemma SuperelementSection(k: nat)
    requires k < 5
    ensures var s := SUPERELEMENT.sections[k];
      && IsTitled(s, 'i')
      && forall n: nat :: n >= 1 ==> s.Cols(n) == n && s.Rows(n) == if k == 3 then 1 else n
  {
    SuperelementTitles();
    WeightTitles();
    var s := SUPERELEMENT.sections[k];
    if k == 0 {
      assert s.title == "!Mass Matrix" && s.key == "!mass";
    } else if k == 1 {
      assert s.title == "!Stiffness Matrix" && s.key == "!stiffness";
    } else if k == 2 {
      assert s.title == "!Damping Matrix" && s.key == "!damping";
    } else if k == 3 {
      assert s.title == "!Weight constant" && s.key == "!weight constant";
    } else {
      assert s.title == "!Weight stiffness matrix" && s.key == "!weight stiffness";
    }
  }

  lemma SuperelementApart(j: nat, k: nat)
    requires j < k < 5
    ensures Apart(SUPERELEMENT.sections[j].key, SUPERELEMENT.sections[k].key)
  {
    ApartAt(SUPERELEMENT.sections[j].key, SUPERELEMENT.sections[k].key, if j == 3 then 8 else 1);
  }

  lemma SuperelementCount()
    ensures Recognised(SUPERELEMENT.countTitle, SUPERELEMENT.countKey) && ':' !in SUPERELEMENT.countTitle
    ensures SUPERELEMENT.countKey[0] == '!' && SUPERELEMENT.countKey[2] == 'i' && |SUPERELEMENT.sections| == 5
  {
    SuperelementTitles();
  }

  lemma TitledFormat(fmt: Format)
    requires Recognised(fmt.countTitle, fmt.countKey) && fmt.countKey[0] == '!' && ':' !in fmt.countTitle
    requires forall k :: 0 <= k < |fmt.sections| ==> IsTitled(fmt.sections[k], fmt.countKey[2])
    requires forall j, k :: 0 <= j < k < |fmt.sections| ==> Apart(fmt.sections[j].key, fmt.sections[k].key)
    ensures WellTitled(fmt)
  {
  }

  lemma {:induction false} SuperelementTitled()
    ensures WellTitled(SUPERELEMENT)
  {
    var fmt := SUPERELEMENT;
    SuperelementCount();
    forall k | 0 <= k < |fmt.sections| ensures IsTitled(fmt.sections[k], fmt.countKey[2]) {
      SuperelementSection(k);
    }
    forall j, k | 0 <= j < k < |fmt.sections| ensures Apart(fmt.sections[j].key, fmt.sections[k].key) {
      SuperelementApart(j, k);
    }
    TitledFormat(fmt);
  }

  lemma {:induction false} SuperelementFits(nDOF: nat, mats: seq<Matrix>)
    requires nDOF >= 1 && |mats| == 5
    requires forall k :: 0 <= k < 5 ==> IsMatrix(mats[k], if k == 3 then 1 else nDOF, nDOF)
    ensures Fits(SUPERELEMENT, nDOF, mats)
  {
    forall k | 0 <= k < 5
      ensures SUPERELEMENT.sections[k].Rows(nDOF) == (if k == 3 then 1 else nDOF)
      ensures SUPERELEMENT.sections[k].Cols(nDOF) == nDOF
    {
      SuperelementSection(k);
    }
  }

  lemma {:induction false} OthersTitled(n: nat)
    ensures WellTitled(Connections(n)) && WellTitled(UserForcing(n)) && WellTitled(ConnForcing(n))
  {
    OtherTitles();
    ApartAt("!connection", "!displacement", 1);
  }

  /** Reading the printed superelement back restores dimension and matrices exactly when no number
      but the first of its row fills its field, for every dimension from 1 on. */
  lemma {:induction false} SuperelementRoundTrip(nDOF: nat, mats: seq<Matrix>)
    requires nDOF >= 1 && |mats| == 5
    requires forall k :: 0 <= k < 5 ==> IsMatrix(mats[k], if k == 3 then 1 else nDOF, nDOF)
    ensures Parse(SUPERELEMENT, Lines(Print(SUPERELEMENT, nDOF, mats)), Nothing(SUPERELEMENT)) ==
              Success(Contents(nDOF, Found(mats))) <==>
            forall i :: 0 <= i < |mats| ==> AllSpaced(mats[i])
  {
    SuperelementTitled();
    SuperelementFits(nDOF, mats);
    FileRoundTrip(SUPERELEMENT, nDOF, mats);
  }

  /** The same for connection points and displacements, for any number of connections. */
  lemma {:induction false} ConnectionsRoundTrip(nDOF: nat, nConn: nat, mats: seq<Matrix>)
    requires nDOF >= 1 && |mats| == 2
    requires IsMatrix(mats[0], nConn, 3) && IsMatrix(mats[1], 3 * nConn, nDOF)
    ensures var fmt := Connections(nDOF);
      Parse(fmt, Lines(Print(fmt, nConn, mats)), Nothing(fmt)) == Success(Contents(nConn, Found(mats))) <==>
      forall i :: 0 <= i < |mats| ==> AllSpaced(mats[i])
  {
    OthersTitled(nDOF);
    FileRoundTrip(Connections(nDOF), nConn, mats);
  }

  /** The same for both forcing files, for any number of time steps. */
  lemma {:induction false} ForcingRoundTrip(fmt: Format, n: nat, steps: nat, mats: seq<Matrix>)
    requires |mats| == 1
    requires (fmt == UserForcing(n) && IsMatrix(mats[0], steps, 1 + n)) ||
             (fmt == ConnForcing(n) && IsMatrix(mats[0], steps, 1 + 3 * n))
    ensures Parse(fmt, Lines(Print(fmt, steps, mats)), Nothing(fmt)) == Success(Contents(steps, Found(mats))) <==>
            forall i :: 0 <= i < |mats| ==> AllSpaced(mats[i])
  {
    OthersTitled(n);
    FileRoundTrip(fmt, steps, mats);
  }
}
