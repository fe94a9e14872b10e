/**
 What the reader of the mooring file makes of any one line: the part a heading opens, the cells of a
 row, the line numbers of a control, and the names on a channel line.
 */
module MoorDynLines {
  import opened Wrappers
  import opened Text
  import opened MoorDyn
  import opened MoorDynTitles
  import opened MoorDynRoundTrip

  // ---------- headings ----------

  predicate Surrounds(s: string, a: string, k: string, b: string) {
    s == a + k + b
  }

  lemma ContainsExactly(s: string, k: string)
    ensures Contains(s, k) <==> exists a, b :: Surrounds(s, a, k, b)
  {
    if i :| 0 <= i <= |s| && Occurs(s, k, i) {
      assert s == s[..i] + s[i..i + |k|] + s[i + |k|..];
      assert Surrounds(s, s[..i], k, s[i + |k|..]);
    }
    if a, b :| Surrounds(s, a, k, b) {
      assert s[|a|..|a| + |k|] == k;
      assert Occurs(s, k, |a|);
    }
  }

  /** The part a keyword in a heading stands for. */
  function Part(word: string): Kind {
    match word
    case "linetypes" | "linedictionary" => LineTypes
    case "rodtypes" | "roddictionary" => RodTypes
    case "bodies" | "bodylist" | "bodyproperties" => Bodies
    case "rods" | "rodlist" | "rodproperties" => Rods
    case "points" | "connectionproperties" | "nodeproperties" | "pointproperties" | "pointlist" => Points
    case "lines" | "lineproperties" | "linelist" => MooringLines
    case "failure" => Failures
    case "control" => Controls
    case "external" => Externals
    case "options" => Options
    case "outputs" => Outputs
    case _ => Other
  }

  /** The text mentions the part by one of its keywords. */
  ghost predicate Mentions(text: string, kind: Kind) {
    exists word :: Part(word) == kind && Contains(text, word)
  }

  lemma MentionNames(text: string, kind: Kind, word: string)
    requires kind != Other && Part(word) == kind && Contains(text, word)
    ensures Names(kind, text)
  {
  }

  lemma NamesMention(text: string, kind: Kind) returns (word: string)
    requires kind != Other && Names(kind, text)
    ensures Part(word) == kind && Contains(text, word)
  {
    match kind
    case LineTypes => word := if Contains(text, "linetypes") then "linetypes" else "linedictionary";
    case RodTypes => word := if Contains(text, "rodtypes") then "rodtypes" else "roddictionary";
    case Bodies => word := BodyMentioned(text);
    case Rods => word := RodMentioned(text);
    case Points => word := PointMentioned(text);
    case MooringLines => word := LineMentioned(text);
    case Failures => word := "failure";
    case Controls => word := "control";
    case Externals => word := "external";
    case Options => word := "options";
    case Outputs => word := "outputs";
  }

  lemma BodyMentioned(text: string) returns (word: string)
    requires Names(Bodies, text)
    ensures Part(word) == Bodies && Contains(text, word)
  {
    word := if Contains(text, "bodies") then "bodies"
      else if Contains(text, "bodylist") then "bodylist" else "bodyproperties";
  }

  lemma RodMentioned(text: string) returns (word: string)
    requires Names(Rods, text)
    ensures Part(word) == Rods && Contains(text, word)
  {
    word := if Contains(text, "rods") then "rods" else if Contains(text, "rodlist") then "rodlist" else "rodproperties";
  }

  lemma LineMentioned(text: string) returns (word: string)
    requires Names(MooringLines, text)
    ensures Part(word) == MooringLines && Contains(text, word)
  {
    word := if Contains(text, "lines") then "lines"
      else if Contains(text, "lineproperties") then "lineproperties" else "linelist";
  }

  lemma PointMentioned(text: string) returns (word: string)
    requires Names(Points, text)
    ensures Part(word) == Points && Contains(text, word)
  {
    word := if Contains(text, "points") then "points"
      else if Contains(text, "connectionproperties") then "connectionproperties"
      else if Contains(text, "nodeproperties") then "nodeproperties"
      else if Contains(text, "pointproperties") then "pointproperties" else "pointlist";
  }

  lemma MentionsPart(text: string, kind: Kind)
    requires kind != Other
    ensures Mentions(text, kind) <==> Names(kind, text)
  {
    if word :| Part(word) == kind && Contains(text, word) {
      MentionNames(text, kind, word);
    }
    if Names(kind, text) {
      var word := NamesMention(text, kind);
    }
  }

  /** A line opens the first part, in the order in which they are tried, that its words, glued together
      and in lower case, mention; a line that mentions none is passed over. */
  lemma DispatchExactly(line: Line, kind: Kind)
    requires kind != Other
    ensures LineKind(line) == kind <==>
      Mentions(Key(line), kind) && forall k: Kind :: Rank(k) < Rank(kind) ==> !Mentions(Key(line), k)
    ensures LineKind(line) == Other <==> forall k: Kind :: k != Other ==> !Mentions(Key(line), k)
  {
    var key := Key(line);
    forall k: Kind | k != Other ensures Mentions(key, k) <==> Names(k, key) {
      MentionsPart(key, k);
    }
    assert forall k: Kind :: Rank(k) < Rank(kind) ==> k != Other;
    FirstNamed(key, kind);
  }

  lemma FirstNamed(key: string, kind: Kind)
    requires kind != Other
    ensures KindOf(key) == kind <==> Names(kind, key) && forall k: Kind :: Rank(k) < Rank(kind) ==> !Names(k, key)
    ensures KindOf(key) == Other <==> forall k: Kind :: k != Other ==> !Names(k, key)
  {
    var first := KindOf(key);
    forall k: Kind | Names(k, key) ensures Rank(first) <= Rank(k) {
      NamedLater(key, k);
    }
    assert Names(first, key);
    SameRank(first, kind);
    SameRank(first, Other);
  }

  lemma NamedLater(key: string, k: Kind)
    requires Names(k, key)
    ensures Rank(KindOf(key)) <= Rank(k)
  {
  }

  lemma SameRank(k: Kind, k': Kind)
    ensures Rank(k) == Rank(k') <==> k == k'
    ensures Rank(k) <= 11 && (Rank(k) == 11 <==> k == Other)
  {
  }

  // ---------- what is printed ----------

  /** The rules that head the parts of a printed file, and the one that closes it. */
  lemma HeadingsPrinted()
    ensures Heading(LineTypes) == [Dashes(23), "LINE", "TYPES", Dashes(42)]
    ensures Heading(Bodies) == [Dashes(23), "BODIES", Dashes(42)]
    ensures Heading(Points) == [Dashes(22), "POINTS", Dashes(32)]
    ensures Heading(MooringLines) == [Dashes(22), "LINES", Dashes(38)]
    ensures Heading(Failures) == [Dashes(22), "FAILURE", Dashes(22)]
    ensures Heading(Controls) == [Dashes(22), "CONTROL", Dashes(39)]
    ensures Heading(Externals) == [Dashes(22), "EXTERNAL", "LOADS", Dashes(32)]
    ensures Heading(Options) == [Dashes(22), "SOLVER", "OPTIONS", Dashes(39)]
    ensures Heading(Outputs) == [Dashes(24), "OUTPUTS", Dashes(44)]
    ensures Heading(Other) == [Dashes(25), "END", Dashes(38)]
    ensures FileTitle() == [Dashes(21), "MoorDyn", "Input", "File", Dashes(36)]
  {
  }

  /** A table is printed below its heading and two lines; bodies, failures, controls and external loads
      only if there are any. */
  lemma TablePrinted(m: Model, titles: Titles, kind: Kind)
    ensures PrintedTable(m, titles, kind) ==
      if RowsOf(m, kind) == [] && kind in {Bodies, Failures, Controls, Externals} then []
      else [Heading(kind), titles(kind).0, titles(kind).1] + RowsOf(m, kind)
  {
  }

  // ---------- rows ----------

  /** How many cells of a row are stored; a control row needs one, and all its line numbers are stored. */
  function Cells(kind: Kind): nat
    requires IsTable(kind)
  {
    match kind
    case LineTypes => 10
    case RodTypes => 7
    case Bodies => 14
    case Rods => 11
    case Points => 9
    case MooringLines => 7
    case Failures => 5
    case Controls => 1
    case Externals => 6
  }

  /** A row that is too short is an index error, of a longer one the cells behind the last are ignored. */
  lemma RowAdded(kind: Kind, table: Table, row: Line)
    requires IsTable(kind)
    ensures AddRow(kind, table, row).None? <==> |row| < Cells(kind)
    ensures |row| >= Cells(kind) && kind != Controls ==>
      AddRow(kind, table, row).value.rows == table.rows + [row[..Cells(kind)]]
    ensures |row| >= Cells(kind) && kind != LineTypes ==> AddRow(kind, table, row).value.extras == table.extras
  {
  }

  /** The optional columns of a line type are stored when there are none, one or three of them; with any
      other number nothing is appended to their lists, which are then shorter than the table. */
  lemma ExtrasAdded(table: Table, row: Line)
    requires |row| >= 10
    ensures var extras := AddRow(LineTypes, table, row).value.extras;
      && (|row| == 10 ==> extras == table.extras + [Extra(None, None, None)])
      && (|row| == 11 ==> extras == table.extras + [Extra(Some(row[10]), None, None)])
      && (|row| == 13 ==> extras == table.extras + [Extra(Some(row[10]), Some(row[11]), Some(row[12]))])
      && (|row| == 12 || |row| > 13 ==> extras == table.extras)
  {
  }

  /** A table that is read again replaces the one read before, and no other table. */
  lemma TableStored(t: Tables, kind: Kind, table: Table, k: Kind)
    ensures var t' := StoreTable(t, kind, table);
      && Held(t', k) == (if k == kind then table.rows else Held(t, k))
      && t'.extras == (if kind == LineTypes then table.extras else t.extras)
      && t'.options == t.options && t'.channels == t.channels
  {
  }

  // ---------- comments ----------

  /** An empty line, or one whose first character is a comment mark. */
  predicate IsComment(line: Line) {
    line == [] || (line[0] != "" && line[0][0] == '!')
  }

  function Moved<T>(r: Reading<T>, n: nat): Reading<T> {
    if r.End? then End(r.value, r.at + n) else r
  }

  lemma {:induction false} ReadElsewhere<T>(
      stop: Line -> bool, step: (T, Line) -> Option<T>, before: seq<Line>, lines: seq<Line>, i: nat, acc: T)
    ensures ReadItems(stop, step, before + lines, |before| + i, acc) ==
            Moved(ReadItems(stop, step, lines, i, acc), |before|)
    decreases |lines| - i
  {
    if i < |lines| {
      assert (before + lines)[|before| + i] == lines[i];
      if IsFiltered(lines[i]) {
        ReadElsewhere(stop, step, before, lines, i + 1, acc);
      } else if !stop(lines[i]) {
        match step(acc, lines[i])
        case None =>
        case Some(next) => ReadElsewhere(stop, step, before, lines, i + 1, next);
      }
    }
  }

  /** What reading a part gives when n lines are put in at position k. */
  function Displaced<T>(r: Reading<T>, k: nat, n: nat): Reading<T> {
    if r.End? then End(r.value, if r.at < k then r.at else r.at + n) else r
  }

  /** Empty lines and comments make no difference wherever they stand in a part. */
  lemma {:induction false} CommentsIgnored<T>(
      stop: Line -> bool, step: (T, Line) -> Option<T>, front: seq<Line>, notes: seq<Line>, rest: seq<Line>,
      i: nat, acc: T)
    requires i <= |front| && forall j :: 0 <= j < |notes| ==> IsComment(notes[j])
    ensures ReadItems(stop, step, front + notes + rest, i, acc) ==
            Displaced(ReadItems(stop, step, front + rest, i, acc), |front|, |notes|)
    decreases |front| - i
  {
    var all, less := front + notes + rest, front + rest;
    if i == |front| {
      forall j | i <= j < i + |notes| ensures IsFiltered(all[j]) {
        assert all[j] == notes[j - i];
      }
      ReadItemsSkips(stop, step, all, i, i + |notes|, acc);
      ReadElsewhere(stop, step, front + notes, rest, 0, acc);
      ReadElsewhere(stop, step, front, rest, 0, acc);
    } else {
      assert all[i] == front[i] && less[i] == front[i];
      if IsFiltered(front[i]) {
        CommentsIgnored(stop, step, front, notes, rest, i + 1, acc);
      } else if !stop(front[i]) {
        match step(acc, front[i])
        case None =>
        case Some(next) => CommentsIgnored(stop, step, front, notes, rest, i + 1, next);
      }
    }
  }

  // ---------- line numbers ----------

  lemma {:induction false} WithoutEmptyConcat(a: seq<string>, b: seq<string>)
    ensures WithoutEmpty(a + b) == WithoutEmpty(a) + WithoutEmpty(b)
  {
    if a == [] {
      assert a + b == b;
    } else {
      assert (a + b)[1..] == a[1..] + b;
      WithoutEmptyConcat(a[1..], b);
    }
  }

  lemma {:induction false} LineNumbersConcat(a: Line, b: Line)
    ensures LineNumbers(a + b) == LineNumbers(a) + LineNumbers(b)
  {
    if a == [] {
      assert a + b == b;
    } else {
      assert (a + b)[1..] == a[1..] + b;
      LineNumbersConcat(a[1..], b);
      assert LineNumbers(a + b) ==
        WithoutEmpty(Split(a[0], ',')) + (LineNumbers(a[1..]) + LineNumbers(b));
    }
  }

  /** The line numbers of a control row: those of all its words behind the first, which may be separated
      by commas, by blanks or by both. */
  lemma {:induction false} ControlNumbers(table: Table, row: Line, i: nat, parts: seq<string>)
    requires 0 < i < |row| && parts != [] && (forall j :: 0 <= j < |parts| ==> ',' !in parts[j])
    requires row[i] == JoinBy(parts, ',')
    ensures AddRow(Controls, table, row) == Some(table.(rows := table.rows + [
      [row[0]] + (LineNumbers(row[1..i]) + WithoutEmpty(parts) + LineNumbers(row[i + 1..]))]))
  {
    OneWordNumbers(row[i], parts);
    assert row[1..] == row[1..i] + ([row[i]] + row[i + 1..]);
    LineNumbersConcat(row[1..i], [row[i]] + row[i + 1..]);
    LineNumbersConcat([row[i]], row[i + 1..]);
    Regroup(LineNumbers(row[1..i]), WithoutEmpty(parts), LineNumbers(row[i + 1..]));
  }

  lemma OneWordNumbers(word: string, parts: seq<string>)
    requires parts != [] && (forall j :: 0 <= j < |parts| ==> ',' !in parts[j]) && word == JoinBy(parts, ',')
    ensures LineNumbers([word]) == WithoutEmpty(parts)
  {
    JoinedSplit(parts, ',');
    assert [word][1..] == [];
    assert WithoutEmpty(parts) + [] == WithoutEmpty(parts);
  }

  /** Empty parts are dropped and nothing else. */
  lemma {:induction false} PartKept(parts: seq<string>, i: nat)
    requires i < |parts|
    ensures WithoutEmpty(parts) ==
      WithoutEmpty(parts[..i]) + (if parts[i] == "" then [] else [parts[i]]) + WithoutEmpty(parts[i + 1..])
  {
    assert parts == parts[..i] + ([parts[i]] + parts[i + 1..]);
    WithoutEmptyConcat(parts[..i], [parts[i]] + parts[i + 1..]);
    assert ([parts[i]] + parts[i + 1..])[1..] == parts[i + 1..];
  }

  // ---------- channel lines ----------

  lemma {:induction false} SpacedJoined(line: Line)
    ensures Spaced(line) == JoinBy(line, ' ')
  {
    if |line| > 1 {
      SpacedJoined(line[1..]);
    }
  }

  lemma PlainNames(line: Line, parts: seq<string>)
    requires '\"' !in Spaced(line) && Split(Spaced(line), ',') == parts
    ensures NamesOn(line) == set i | 0 <= i < |parts| :: Strip(parts[i])
  {
  }

  lemma QuotedNames(line: Line)
    requires '\"' in Spaced(line)
    ensures NamesOn(line) == {""}
  {
    SplitWhole("", ',');
    var parts := Split("", ',');
    assert parts == [""] && Strip(parts[0]) == "";
  }

  /** A channel line without quotes lists the texts between its commas, without the blanks around them;
      with a quote in it it stands for one empty name. */
  lemma NamesListed(line: Line, parts: seq<string>)
    requires parts != [] && forall j :: 0 <= j < |parts| ==> ',' !in parts[j]
    requires JoinBy(line, ' ') == JoinBy(parts, ',')
    ensures '\"' !in JoinBy(line, ' ') ==> NamesOn(line) == set i | 0 <= i < |parts| :: Strip(parts[i])
    ensures '\"' in JoinBy(line, ' ') ==> NamesOn(line) == {""}
  {
    SpacedJoined(line);
    JoinedSplit(parts, ',');
    if '\"' in JoinBy(line, ' ') {
      QuotedNames(line);
    } else {
      PlainNames(line, parts);
    }
  }
}
