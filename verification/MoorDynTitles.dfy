/** Which part of the mooring file each printed heading names, and that the printed preamble names
    none but the options. */
module MoorDynTitles {
  import opened Text
  import opened MoorDyn

  /** The order in which the reader tries the parts. */
  function Rank(kind: Kind): nat {
    match kind
    case LineTypes => 0
    case RodTypes => 1
    case Bodies => 2
    case Rods => 3
    case Points => 4
    case MooringLines => 5
    case Failures => 6
    case Controls => 7
    case Externals => 8
    case Options => 9
    case Outputs => 10
    case Other => 11
  }

  // ---------- absence of keywords ----------

  /** Each keyword of a part of rank below r holds one of these letter groups. */
  predicate IsTelling(r: nat, a: char, b: char, c: char) {
    match a
    case 'y' => r > 0 && b == 'p'
    case 'c' => r > 0 && b == 't'
    case 'b' => r > 2 && b == 'o'
    case 'o' => (r > 3 && b == 'd') || (r > 4 && b == 'i')
    case 'l' => r > 5 && b == 'i' && c == 'n'
    case 'a' => r > 6 && b == 'i'
    case 't' => r > 7 && b == 'r'
    case 'x' => r > 8 && b == 't'
    case 'p' => r > 9 && b == 't'
    case 'u' => r > 10 && b == 't' && c == 's'
    case _ => false
  }

  function LowerAt(s: string, p: nat): char {
    if p < |s| then LowerChar(s[p]) else ' '
  }

  predicate IsFreeAt(r: nat, s: string, p: nat) {
    !IsTelling(r, LowerAt(s, p), LowerAt(s, p + 1), LowerAt(s, p + 2))
  }

  predicate IsFree(r: nat, s: string) {
    forall p: nat :: p < |s| ==> IsFreeAt(r, s, p)
  }

  /** A keyword with a telling group at j does not occur in a text that is free of them. */
  lemma NoKeyword(r: nat, s: string, k: string, j: nat)
    requires IsFree(r, s) && j + 2 < |k| && IsTelling(r, k[j], k[j + 1], k[j + 2])
    ensures !Contains(Lower(s), k)
  {
    forall i | 0 <= i && i + |k| <= |Lower(s)| ensures !Occurs(Lower(s), k, i) {
      var lower := Lower(s)[i..i + |k|];
      if lower[j] == k[j] && lower[j + 1] == k[j + 1] {
        assert IsFreeAt(r, s, i + j);
      }
    }
  }

  lemma NoTypes(r: nat, s: string)
    requires IsFree(r, s) && r > 0
    ensures !Names(LineTypes, Lower(s)) && !Names(RodTypes, Lower(s))
  {
    NoKeyword(r, s, "linetypes", 5);
    NoKeyword(r, s, "linedictionary", 6);
    NoKeyword(r, s, "rodtypes", 4);
    NoKeyword(r, s, "roddictionary", 5);
  }

  lemma NoBodies(r: nat, s: string)
    requires IsFree(r, s) && r > 2
    ensures !Names(Bodies, Lower(s))
  {
    NoKeyword(r, s, "bodies", 0);
    NoKeyword(r, s, "bodylist", 0);
    NoKeyword(r, s, "bodyproperties", 0);
  }

  lemma NoRods(r: nat, s: string)
    requires IsFree(r, s) && r > 3
    ensures !Names(Rods, Lower(s))
  {
    NoKeyword(r, s, "rods", 1);
    NoKeyword(r, s, "rodlist", 1);
    NoKeyword(r, s, "rodproperties", 1);
  }

  lemma NoPoints(r: nat, s: string)
    requires IsFree(r, s) && r > 4
    ensures !Names(Points, Lower(s))
  {
    NoKeyword(r, s, "points", 1);
    NoKeyword(r, s, "connectionproperties", 5);
    NoKeyword(r, s, "nodeproperties", 1);
    NoKeyword(r, s, "pointproperties", 1);
    NoKeyword(r, s, "pointlist", 1);
  }

  lemma NoLines(r: nat, s: string)
    requires IsFree(r, s) && r > 5
    ensures !Names(MooringLines, Lower(s))
  {
    NoKeyword(r, s, "lines", 0);
    NoKeyword(r, s, "lineproperties", 0);
    NoKeyword(r, s, "linelist", 0);
  }

  lemma NoLater(r: nat, s: string)
    requires IsFree(r, s)
    ensures r > 6 ==> !Names(Failures, Lower(s))
    ensures r > 7 ==> !Names(Controls, Lower(s))
    ensures r > 8 ==> !Names(Externals, Lower(s))
    ensures r > 9 ==> !Names(Options, Lower(s))
    ensures r > 10 ==> !Names(Outputs, Lower(s))
  {
    if r > 6 { NoKeyword(r, s, "failure", 1); }
    if r > 7 { NoKeyword(r, s, "control", 3); }
    if r > 8 { NoKeyword(r, s, "external", 1); }
    if r > 9 { NoKeyword(r, s, "options", 1); }
    if r > 10 { NoKeyword(r, s, "outputs", 4); }
  }

  /** A text that names a part and holds no group that tells an earlier one is dispatched to that part. */
  lemma Dispatched(kind: Kind, s: string)
    requires IsFree(Rank(kind), s) && Names(kind, Lower(s))
    requires kind != RodTypes && kind != Rods
    ensures KindOf(Lower(s)) == kind
  {
    var r := Rank(kind);
    if r > 0 { NoTypes(r, s); }
    if r > 2 { NoBodies(r, s); }
    if r > 3 { NoRods(r, s); }
    if r > 4 { NoPoints(r, s); }
    if r > 5 { NoLines(r, s); }
    NoLater(r, s);
  }

  // ---------- headings ----------

  function Dashes(n: nat): (s: string)
    ensures |s| == n && forall i :: 0 <= i < n ==> s[i] == '-'
  {
    seq(n, _ => '-')
  }

  /** IsFreeAt at the four positions from p on that lie below n. */
  predicate AreFree(r: nat, s: string, p: nat, n: nat) {
    && (p < n ==> IsFreeAt(r, s, p)) && (p + 1 < n ==> IsFreeAt(r, s, p + 1))
    && (p + 2 < n ==> IsFreeAt(r, s, p + 2)) && (p + 3 < n ==> IsFreeAt(r, s, p + 3))
  }

  /** IsFreeAt at the first n positions, at most sixteen. */
  predicate StartsFree(r: nat, s: string, n: nat) {
    AreFree(r, s, 0, n) && AreFree(r, s, 4, n) && AreFree(r, s, 8, n) && AreFree(r, s, 12, n)
  }

  lemma ShortIsFree(r: nat, s: string)
    requires |s| <= 16 && StartsFree(r, s, |s|)
    ensures IsFree(r, s)
  {
  }

  /** Dashes around a text neither hide a keyword nor make one. */
  lemma DashesAround(r: nat, n: nat, w: string, m: nat)
    requires IsFree(r, w)
    ensures IsFree(r, Dashes(n) + (w + Dashes(m)))
  {
    var s := Dashes(n) + (w + Dashes(m));
    forall p: nat | p < |s| ensures IsFreeAt(r, s, p) {
      if n <= p < n + |w| {
        assert IsFreeAt(r, w, p - n);
        assert LowerAt(s, p) == LowerAt(w, p - n);
      } else {
        assert LowerAt(s, p) == '-';
      }
    }
  }

  lemma KeywordInside(s: string, k: string, a: string, b: string)
    requires s == a + (k + b)
    ensures Contains(s, k)
  {
    assert Occurs(s, k, |a|);
  }

  function Framed(n: nat, words: Line, m: nat): Line {
    [Dashes(n)] + words + [Dashes(m)]
  }

  lemma {:induction false} GluedConcat(a: Line, b: Line)
    ensures Glued(a + b) == Glued(a) + Glued(b)
  {
    if a == [] {
      assert a + b == b;
    } else {
      assert (a + b)[1..] == a[1..] + b;
      GluedConcat(a[1..], b);
    }
  }

  lemma GluedWord(word: string)
    ensures Glued([word]) == word
  {
    assert word + [] == word;
  }

  lemma GluedFramed(n: nat, words: Line, m: nat)
    ensures Glued(Framed(n, words, m)) == Dashes(n) + (Glued(words) + Dashes(m))
  {
    GluedConcat([Dashes(n)] + words, [Dashes(m)]);
    GluedConcat([Dashes(n)], words);
    GluedWord(Dashes(n));
    GluedWord(Dashes(m));
  }

  /** The keyword in the printed heading of a part. */
  function Keyword(kind: Kind): string {
    match kind
    case LineTypes => "linetypes"
    case RodTypes => "rodtypes"
    case Bodies => "bodies"
    case Rods => "rods"
    case Points => "points"
    case MooringLines => "lines"
    case Failures => "failure"
    case Controls => "control"
    case Externals => "external"
    case Options => "options"
    case Outputs => "outputs"
    case Other => ""
  }

  /** The words between the dashes of a printed heading. */
  function Title(kind: Kind): Line {
    match kind
    case LineTypes => ["LINE", "TYPES"]
    case RodTypes => ["ROD", "TYPES"]
    case Bodies => ["BODIES"]
    case Rods => ["RODS"]
    case Points => ["POINTS"]
    case MooringLines => ["LINES"]
    case Failures => ["FAILURE"]
    case Controls => ["CONTROL"]
    case Externals => ["EXTERNAL", "LOADS"]
    case Options => ["SOLVER", "OPTIONS"]
    case Outputs => ["OUTPUTS"]
    case Other => ["END"]
  }

  /** The numbers of dashes on both sides. */
  function Margins(kind: Kind): (nat, nat) {
    match kind
    case LineTypes | RodTypes | Bodies | Rods => (23, 42)
    case Points | Externals => (22, 32)
    case MooringLines => (22, 38)
    case Failures => (22, 22)
    case Controls | Options => (22, 39)
    case Outputs => (24, 44)
    case Other => (25, 38)
  }

  function Heading(kind: Kind): Line {
    Framed(Margins(kind).0, Title(kind), Margins(kind).1)
  }

  /** The parts a file without rods can have. */
  predicate IsPrinted(kind: Kind) {
    kind != RodTypes && kind != Rods && kind != Other
  }

  /** The words of a heading, glued together. */
  function TitleText(kind: Kind): string {
    match kind
    case LineTypes => "LINETYPES"
    case Externals => "EXTERNALLOADS"
    case Options => "SOLVEROPTIONS"
    case _ => if Title(kind) == [] then "" else Title(kind)[0]
  }

  lemma GluedTitle(kind: Kind)
    requires IsPrinted(kind)
    ensures Glued(Title(kind)) == TitleText(kind)
  {
    var title := Title(kind);
    GluedWord(title[0]);
    if |title| == 2 {
      GluedWord(title[1]);
      GluedConcat([title[0]], [title[1]]);
      assert title == [title[0]] + [title[1]];
    }
  }

  lemma TitleIsFree(kind: Kind)
    requires IsPrinted(kind)
    ensures IsFree(Rank(kind), TitleText(kind))
  {
    match kind
    case LineTypes =>
    case Bodies => ShortIsFree(2, "BODIES");
    case Points => ShortIsFree(4, "POINTS");
    case MooringLines => ShortIsFree(5, "LINES");
    case Externals => ExternalIsFree();
    case Options => SolverIsFree();
    case Failures | Controls | Outputs => LateTitleIsFree(kind);
  }

  lemma LateTitleIsFree(kind: Kind)
    requires kind == Failures || kind == Controls || kind == Outputs
    ensures IsFree(Rank(kind), TitleText(kind))
  {
    match kind
    case Failures => ShortIsFree(6, "FAILURE");
    case Controls => ShortIsFree(7, "CONTROL");
    case Outputs => ShortIsFree(10, "OUTPUTS");
  }

  lemma ExternalIsFree()
    ensures IsFree(8, "EXTERNALLOADS")
  {
    ShortIsFree(8, "EXTERNALLOADS");
  }

  lemma SolverIsFree()
    ensures IsFree(9, "SOLVEROPTIONS")
  {
    ShortIsFree(9, "SOLVEROPTIONS");
  }

  /** What surrounds the keyword in the lower-case title. */
  function Around(kind: Kind): (string, string) {
    match kind
    case Externals => ("", "loads")
    case Options => ("solver", "")
    case _ => ("", "")
  }

  lemma TitleHoldsKeyword(kind: Kind)
    requires IsPrinted(kind)
    ensures Lower(TitleText(kind)) == Around(kind).0 + (Keyword(kind) + Around(kind).1)
  {
    match kind
    case LineTypes | Externals | Options => LongTitleHoldsKeyword(kind);
    case _ =>
  }

  lemma LongTitleHoldsKeyword(kind: Kind)
    requires kind == LineTypes || kind == Externals || kind == Options
    ensures Lower(TitleText(kind)) == Around(kind).0 + (Keyword(kind) + Around(kind).1)
  {
  }

  /** Every printed heading sends the reader to its own part, for it names that part and no earlier one. */
  lemma HeadingDispatched(kind: Kind)
    requires IsPrinted(kind)
    ensures LineKind(Heading(kind)) == kind
  {
    var (n, m) := Margins(kind);
    var text := TitleText(kind);
    var s := Dashes(n) + (text + Dashes(m));
    GluedTitle(kind);
    GluedFramed(n, Title(kind), m);
    TitleIsFree(kind);
    DashesAround(Rank(kind), n, text, m);
    TitleHoldsKeyword(kind);
    NamesInside(kind, s, n, text, m);
    Dispatched(kind, s);
  }

  lemma NamesInside(kind: Kind, s: string, n: nat, text: string, m: nat)
    requires s == Dashes(n) + (text + Dashes(m))
    requires Lower(text) == Around(kind).0 + (Keyword(kind) + Around(kind).1)
    ensures Names(kind, Lower(s))
  {
    var (before, after) := Around(kind);
    LowerConcat(Dashes(n), text + Dashes(m));
    LowerConcat(text, Dashes(m));
    Nested(Lower(Dashes(n)), before, Keyword(kind), after, Lower(Dashes(m)));
    KeywordInside(Lower(s), Keyword(kind), Lower(Dashes(n)) + before, after + Lower(Dashes(m)));
    KeywordNames(kind, Lower(s));
  }

  lemma LowerConcat(a: string, b: string)
    ensures Lower(a + b) == Lower(a) + Lower(b)
  {
  }

  lemma Nested(a: string, b: string, k: string, c: string, d: string)
    ensures a + (b + (k + c) + d) == a + b + (k + (c + d))
  {
  }

  lemma KeywordNames(kind: Kind, s: string)
    requires Contains(s, Keyword(kind))
    ensures Names(kind, s)
  {
  }

  lemma HeadingIsRule(kind: Kind)
    ensures IsRule(Heading(kind)) && !IsFiltered(Heading(kind))
  {
    var dashes := Dashes(Margins(kind).0);
    assert |dashes| > 3 && dashes[..3] == "---" && dashes[..1][0] == '-';
    assert Heading(kind)[0] == dashes;
  }

  // ---------- the preamble ----------

  const MADE_BY: Line := ["Generated", "with", "OpenFAST_IO"]
  const DROPPED: Line :=
    ["Comments", "from", "seed", "file", "have", "been", "dropped.", "Output", "Channels", "are", "not", "yet",
     "fully", "supported"]
  const NOTE: Line :=
    ["NOTE:", "MoorDyn", "does", "not", "use", "ECHO,", "instead", "use", "WriteLog", "of", "0,", "1,", "2,", "or", "3",
     "in", "the", "options", "list"]

  function WordAt(line: Line, i: nat): string {
    if i < |line| then line[i] else ""
  }

  /** No telling group begins in word i. */
  predicate IsFreeWord(r: nat, line: Line, i: nat) {
    && 0 < |WordAt(line, i)| <= 16
    && StartsFree(r, WordAt(line, i) + (WordAt(line, i + 1) + WordAt(line, i + 2)), |WordAt(line, i)|)
  }

  lemma GluedAhead(line: Line)
    requires line != [] && forall w <- line :: w != ""
    ensures var s := Glued(line); var t := WordAt(line, 0) + (WordAt(line, 1) + WordAt(line, 2));
      forall p: nat :: p < |line[0]| + 2 ==> LowerAt(s, p) == LowerAt(t, p)
  {
    assert Glued(line) == line[0] + Glued(line[1..]);
    if |line| > 1 {
      assert Glued(line[1..]) == line[1] + Glued(line[2..]);
      assert line[1] in line;
      if |line| > 2 {
        assert Glued(line[2..]) == line[2] + Glued(line[3..]);
        assert line[2] in line;
      }
    }
  }

  lemma {:induction false} WordsAreFree(r: nat, line: Line)
    requires forall i: nat :: i < |line| ==> IsFreeWord(r, line, i)
    ensures IsFree(r, Glued(line))
  {
    if line != [] {
      var s, rest := Glued(line), line[1..];
      forall i: nat | i < |rest| ensures IsFreeWord(r, rest, i) {
        assert IsFreeWord(r, line, i + 1);
      }
      WordsAreFree(r, rest);
      forall w | w in line ensures w != "" {
        var i :| 0 <= i < |line| && line[i] == w;
        assert IsFreeWord(r, line, i);
      }
      GluedAhead(line);
      forall p: nat | p < |s| ensures IsFreeAt(r, s, p) {
        if p < |line[0]| {
          assert IsFreeWord(r, line, 0);
          var t := WordAt(line, 0) + (WordAt(line, 1) + WordAt(line, 2));
          assert IsFreeAt(r, t, p);
        } else {
          assert IsFreeAt(r, Glued(rest), p - |line[0]|);
        }
      }
    }
  }

  lemma MadeByIsFree(i: nat)
    requires i < |MADE_BY|
    ensures IsFreeWord(11, MADE_BY, i)
  {
  }

  lemma DroppedIsFree(i: nat)
    requires i < |DROPPED|
    ensures IsFreeWord(11, DROPPED, i)
  {
    if i < 4 {
      DroppedFront(i);
    } else if i < 7 {
      DroppedMiddle(i);
    } else if i < 11 {
      DroppedThird(i);
    } else {
      DroppedBack(i);
    }
  }

  lemma DroppedFront(i: nat)
    requires i < 4
    ensures IsFreeWord(11, DROPPED, i)
  {
  }

  lemma DroppedMiddle(i: nat)
    requires 4 <= i < 7
    ensures IsFreeWord(11, DROPPED, i)
  {
  }

  lemma DroppedThird(i: nat)
    requires 7 <= i < 11
    ensures IsFreeWord(11, DROPPED, i)
  {
  }

  lemma DroppedBack(i: nat)
    requires 11 <= i < 14
    ensures IsFreeWord(11, DROPPED, i)
  {
  }

  lemma NoteIsFree(i: nat)
    requires i < |NOTE|
    ensures IsFreeWord(9, NOTE, i)
  {
    if i < 4 {
      NoteFront(i);
    } else if i < 8 {
      NoteMiddle(i);
    } else if i < 13 {
      NoteThird(i);
    } else {
      NoteBack(i);
    }
  }

  lemma NoteFront(i: nat)
    requires i < 4
    ensures IsFreeWord(9, NOTE, i)
  {
  }

  lemma NoteMiddle(i: nat)
    requires 4 <= i < 8
    ensures IsFreeWord(9, NOTE, i)
  {
  }

  lemma NoteThird(i: nat)
    requires 8 <= i < 13
    ensures IsFreeWord(9, NOTE, i)
  {
  }

  lemma NoteBack(i: nat)
    requires 13 <= i < 19
    ensures IsFreeWord(9, NOTE, i)
  {
  }

  /** The title line of the file. */
  function FileTitle(): Line {
    Framed(21, ["MoorDyn", "Input", "File"], 36)
  }

  lemma FileTitleIsFree()
    ensures IsFree(11, Glued(FileTitle()))
  {
    var words := ["MoorDyn", "Input", "File"];
    GluedFramed(21, words, 36);
    forall i: nat | i < |words| ensures IsFreeWord(11, words, i) {
    }
    WordsAreFree(11, words);
    DashesAround(11, 21, Glued(words), 36);
  }

  lemma WordInside(line: Line, i: nat)
    requires i < |line|
    ensures Contains(Key(line), Lower(line[i]))
  {
    var front, back := line[..i], line[i + 1..];
    assert line == front + ([line[i]] + back);
    GluedConcat(front, [line[i]] + back);
    GluedConcat([line[i]], back);
    GluedWord(line[i]);
    LowerConcat(Glued(front), line[i] + Glued(back));
    LowerConcat(line[i], Glued(back));
    KeywordInside(Key(line), Lower(line[i]), Lower(Glued(front)), Lower(Glued(back)));
  }

  lemma OptionsNamed(line: Line, i: nat)
    requires i < |line| && line[i] == "options"
    ensures Names(Options, Key(line))
  {
    WordInside(line, i);
    assert Lower("options") == "options";
  }

  lemma WordsPassedOver(line: Line)
    requires forall i: nat :: i < |line| ==> IsFreeWord(11, line, i)
    ensures LineKind(line) == Other
  {
    WordsAreFree(11, line);
    Dispatched(Other, Glued(line));
  }

  lemma NoteTaken(line: Line, i: nat)
    requires forall i: nat :: i < |line| ==> IsFreeWord(9, line, i)
    requires i < |line| && line[i] == "options"
    ensures LineKind(line) == Options
  {
    WordsAreFree(9, line);
    OptionsNamed(line, i);
    Dispatched(Options, Glued(line));
  }

  lemma MadeByPassedOver()
    ensures LineKind(MADE_BY) == Other
  {
    forall i: nat | i < |MADE_BY| ensures IsFreeWord(11, MADE_BY, i) { MadeByIsFree(i); }
    WordsPassedOver(MADE_BY);
  }

  lemma DroppedPassedOver()
    ensures LineKind(DROPPED) == Other
  {
    forall i: nat | i < |DROPPED| ensures IsFreeWord(11, DROPPED, i) { DroppedIsFree(i); }
    WordsPassedOver(DROPPED);
  }

  lemma NoteDispatched()
    ensures LineKind(NOTE) == Options
  {
    forall i: nat | i < |NOTE| ensures IsFreeWord(9, NOTE, i) { NoteIsFree(i); }
    NoteTaken(NOTE, 17);
  }

  /** The first three printed lines are passed over; the fourth is taken for the heading of the options. */
  lemma PreambleDispatched()
    ensures LineKind(FileTitle()) == Other && LineKind(MADE_BY) == Other && LineKind(DROPPED) == Other
    ensures LineKind(NOTE) == Options
  {
    FileTitleIsFree();
    Dispatched(Other, Glued(FileTitle()));
    MadeByPassedOver();
    DroppedPassedOver();
    NoteDispatched();
  }
}
