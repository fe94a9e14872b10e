/** The OutList section of an input file: one quoted channel per line, closed by a line that starts with END. */
module OutlistFile {
  import opened Wrappers
  import opened Text
  import opened Outlist

  const DELIMITERS := "\"',;\t"

  predicate IsEnd(line: string) {
    "END" <= Strip(line)
  }

  /** A line ends the section if its first three letters behind white space are END. */
  lemma EndExactly(line: string)
    ensures IsEnd(line) <==> exists pad, rest :: IsBlank(pad) && Starts(line, pad, rest)
  {
    if IsEnd(line) {
      var pad, pad' := StripSplits(line);
      assert Starts(line, pad, Strip(line)[3..] + pad');
    }
    if pad, rest :| IsBlank(pad) && Starts(line, pad, rest) {
      EndBehindBlanks(line, pad, rest);
    }
  }

  predicate Starts(line: string, pad: string, rest: string) {
    line == pad + ("END" + rest)
  }

  lemma {:induction false} EndBehindBlanks(line: string, pad: string, rest: string)
    requires IsBlank(pad) && Starts(line, pad, rest)
    ensures IsEnd(line)
  {
    var a, b := StripSplits(rest);
    var core := Strip(rest);
    if core == "" {
      assert IsBlank(a + b);
      StripExactly(pad, "END", a + b);
      assert line == pad + "END" + (a + b);
    } else {
      var long := "END" + (a + core);
      assert long[|long| - 1] == core[|core| - 1];
      StripExactly(pad, long, b);
      assert line == pad + long + b;
    }
  }

  /** Each delimiter replaced by a space. */
  function Blanked(s: string): (r: string)
    ensures |r| == |s|
  {
    seq(|s|, i requires 0 <= i < |s| => if s[i] in DELIMITERS then ' ' else s[i])
  }

  /** The channels on a line: its words in front of the first dash. */
  function ChannelsOf(line: string): seq<string> {
    Words(Blanked(line[..SpanEnd(line, Is('-'))]))
  }

  /** What the loop sees in a line. */
  datatype Content = Blank | End | Channels(names: seq<string>)

  function ContentOf(line: string): Content {
    if IsBlank(line) then Blank
    else if IsEnd(line) then End
    else Channels(ChannelsOf(line))
  }

  /** The channels on the lines from i up to the first END line, with the position behind that line;
      None when the reading never ends because there is no such line. */
  function ReadWith(see: string -> Content, lines: seq<string>, i: nat): Option<(seq<string>, nat)>
    decreases |lines| - i
  {
    if i >= |lines| then None
    else
      match see(lines[i])
      case Blank => ReadWith(see, lines, i + 1)
      case End => Some(([], i + 1))
      case Channels(names) => Prepend(names, ReadWith(see, lines, i + 1))
  }

  function ReadNames(lines: seq<string>, i: nat): Option<(seq<string>, nat)> {
    ReadWith(ContentOf, lines, i)
  }

  function Prepend(names: seq<string>, r: Option<(seq<string>, nat)>): Option<(seq<string>, nat)> {
    match r
    case None => None
    case Some((more, pos)) => Some((names + more, pos))
  }

  lemma PrependTwice(a: seq<string>, b: seq<string>, r: Option<(seq<string>, nat)>)
    ensures Prepend(a, Prepend(b, r)) == Prepend(a + b, r)
    ensures Prepend([], r) == r
  {
    if r.Some? {
      assert a + (b + r.value.0) == a + b + r.value.0;
      assert [] + r.value.0 == r.value.0;
    }
  }

  // ---------- the loops ----------

  /** f.readline() and strip: past the last line it returns the empty text and moves nothing. */
  function ReadLine(lines: seq<string>, pos: nat): (string, nat) {
    if pos < |lines| then (lines[pos], pos + 1) else ("", pos)
  }

  /** Reads a line, and further lines while they are blank. Once the end of the file is reached the
      loop's state no longer changes, so it runs forever: None. */
  method NextLine(see: string -> Content, lines: seq<string>, pos: nat) returns (r: Option<(string, nat)>)
    requires pos <= |lines| && see("") == Blank
    ensures r.None? ==> ReadWith(see, lines, pos) == None
    ensures r.Some? ==> var (data, p) := r.value;
      && pos < p <= |lines| && data == lines[p - 1] && !see(data).Blank?
      && ReadWith(see, lines, pos) == ReadWith(see, lines, p - 1)
  {
    var data, p := ReadLine(lines, pos).0, ReadLine(lines, pos).1;
    var at := pos;  // where the line in data was read
    while see(data).Blank?
      invariant pos <= at <= p <= |lines| && (data, p) == ReadLine(lines, at)
      invariant ReadWith(see, lines, pos) == ReadWith(see, lines, at)
      decreases |lines| - at
    {
      if at == |lines| {
        assert ReadLine(lines, p) == (data, p);
        return None;
      }
      at := p;
      data, p := ReadLine(lines, p).0, ReadLine(lines, p).1;
    }
    return Some((data, p));
  }

  method ReadLines(see: string -> Content, lines: seq<string>, start: nat) returns (r: Option<(seq<string>, nat)>)
    requires start <= |lines| && see("") == Blank
    ensures r == ReadWith(see, lines, start)
  {
    var all_channels := [];
    var line := NextLine(see, lines, start);
    if line.None? {
      return None;
    }
    var data, pos := line.value.0, line.value.1;
    PrependTwice([], [], ReadWith(see, lines, start));
    while !see(data).End?
      invariant start < pos <= |lines| && data == lines[pos - 1] && !see(data).Blank?
      invariant ReadWith(see, lines, start) == Prepend(all_channels, ReadWith(see, lines, pos - 1))
      decreases |lines| - pos
    {
      PrependTwice(all_channels, see(data).names, ReadWith(see, lines, pos));
      all_channels := all_channels + see(data).names;
      line := NextLine(see, lines, pos);
      if line.None? {
        return None;
      }
      data, pos := line.value.0, line.value.1;
    }
    assert all_channels + [] == all_channels;
    return Some((all_channels, pos));
  }

  /** read_outlist from line `start` on. */
  method ReadOutlist(lines: seq<string>, start: nat) returns (r: Option<(seq<string>, nat)>)
    requires start <= |lines|
    ensures r == ReadNames(lines, start)
  {
    r := ReadLines(ContentOf, lines, start);
  }

  // ---------- where it ends and what it returns ----------

  lemma {:induction false} EndsAtFirst(see: string -> Content, lines: seq<string>, start: nat)
    requires ReadWith(see, lines, start).Some?
    ensures var pos := ReadWith(see, lines, start).value.1;
      && start < pos <= |lines| && see(lines[pos - 1]).End?
      && forall i :: start <= i < pos - 1 ==> !see(lines[i]).End?
    decreases |lines| - start
  {
    if !see(lines[start]).End? {
      EndsAtFirst(see, lines, start + 1);
    }
  }

  lemma {:induction false} EndFound(see: string -> Content, lines: seq<string>, start: nat, i: nat)
    requires start <= i < |lines| && see(lines[i]).End?
    ensures ReadWith(see, lines, start).Some?
    decreases |lines| - start
  {
    if start < i {
      EndFound(see, lines, start + 1, i);
    }
  }

  /** The names on the lines from i to j. */
  function AllWith(see: string -> Content, lines: seq<string>, i: nat, j: nat): seq<string>
    requires i <= j <= |lines|
    decreases j - i
  {
    if i == j then []
    else (if see(lines[i]).Channels? then see(lines[i]).names else []) + AllWith(see, lines, i + 1, j)
  }

  lemma {:induction false} NamesBeforeEnd(see: string -> Content, lines: seq<string>, start: nat)
    requires ReadWith(see, lines, start).Some? && start < ReadWith(see, lines, start).value.1 <= |lines|
    ensures var (names, pos) := ReadWith(see, lines, start).value; names == AllWith(see, lines, start, pos - 1)
    decreases |lines| - start
  {
    if !see(lines[start]).End? {
      EndsAtFirst(see, lines, start + 1);
      NamesBeforeEnd(see, lines, start + 1);
    }
  }

  /** The words of the non-blank lines from i to j, each cut at its first dash. */
  function AllChannels(lines: seq<string>, i: nat, j: nat): seq<string>
    requires i <= j <= |lines|
    decreases j - i
  {
    if i == j then []
    else if IsBlank(lines[i]) then AllChannels(lines, i + 1, j)
    else ChannelsOf(lines[i]) + AllChannels(lines, i + 1, j)
  }

  lemma EndIsEnd(line: string)
    ensures ContentOf(line).End? <==> IsEnd(line)
  {
    if IsBlank(line) {
      BlankIsNoEnd(line);
    }
  }

  lemma {:induction false} SameChannels(lines: seq<string>, i: nat, j: nat)
    requires i <= j <= |lines| && forall k :: i <= k < j ==> !ContentOf(lines[k]).End?
    ensures AllWith(ContentOf, lines, i, j) == AllChannels(lines, i, j)
    decreases j - i
  {
    if i < j {
      SameChannels(lines, i + 1, j);
      assert [] + AllWith(ContentOf, lines, i + 1, j) == AllWith(ContentOf, lines, i + 1, j);
    }
  }

  /** Reading terminates exactly when an END line lies ahead; it then returns the channels of the
      non-blank lines before the first one, in order, and stops right behind it. */
  lemma ReadNamesExactly(lines: seq<string>, start: nat)
    requires start <= |lines|
    ensures ReadNames(lines, start).Some? <==> exists i :: start <= i < |lines| && IsEnd(lines[i])
    ensures ReadNames(lines, start).Some? ==>
      var (names, pos) := ReadNames(lines, start).value;
      && start < pos <= |lines| && IsEnd(lines[pos - 1])
      && (forall i :: start <= i < pos - 1 ==> !IsEnd(lines[i]))
      && names == AllChannels(lines, start, pos - 1)
  {
    forall line ensures ContentOf(line).End? <==> IsEnd(line) {
      EndIsEnd(line);
    }
    if ReadNames(lines, start).Some? {
      EndsAtFirst(ContentOf, lines, start);
      NamesBeforeEnd(ContentOf, lines, start);
      SameChannels(lines, start, ReadNames(lines, start).value.1 - 1);
    }
    if i :| start <= i < |lines| && IsEnd(lines[i]) {
      EndFound(ContentOf, lines, start, i);
    }
  }

  lemma {:induction false} BlankIsNoEnd(line: string)
    requires IsBlank(line)
    ensures !IsEnd(line) && Strip(line) == []
  {
    if line != [] {
      BlankIsNoEnd(line[1..]);
    }
  }

  // ---------- printing and reading back ----------

  /** A channel name the reader leaves whole. */
  predicate IsClean(name: string) {
    IsWord(name) && forall c <- name :: c != '-' && c != '\"' && c != '\'' && c != ',' && c != ';'
  }

  function Quoted(name: string): string {
    "\"" + name + "\""
  }

  /** The section as the writers print it; the closing line differs from module to module. */
  function Printed(names: seq<string>, closing: string): seq<string> {
    if names == [] then [closing] else [Quoted(names[0])] + Printed(names[1..], closing)
  }

  /** A printed line is never taken for a blank line or for the end of the section. */
  lemma QuotedIsRead(name: string)
    ensures !IsBlank(Quoted(name)) && !IsEnd(Quoted(name))
  {
    var line := Quoted(name);
    assert line[0] == '\"' && line[|line| - 1] == '\"';
    assert Strip(line) == line;
  }

  lemma CleanUnchanged(name: string)
    requires IsClean(name)
    ensures Blanked(name) == name
  {
    forall i | 0 <= i < |name| ensures name[i] !in DELIMITERS {
      assert name[i] in name;
    }
  }

  lemma {:induction false} QuotedReadBack(name: string)
    requires IsClean(name)
    ensures ChannelsOf(Quoted(name)) == [name]
  {
    var line := Quoted(name);
    assert forall c <- line :: c != '-';
    SpanEndAt(line, Is('-'), []);
    assert line + [] == line && line[..|line|] == line;
    CleanUnchanged(name);
    assert Blanked(line) == " " + (name + " ");
    WordsSkipBlank(" ", name + " ");
    WordsOfWord(name, " ");
    assert Words(" ") == [];
  }

  // ---------- any line of channels ----------

  /** Blanks and delimiters. */
  predicate IsGap(g: string) {
    forall i :: 0 <= i < |g| ==>
      IsSpace(g[i]) || g[i] == '\"' || g[i] == '\'' || g[i] == ',' || g[i] == ';' || g[i] == '\t'
  }

  predicate AreGaps(gaps: seq<string>, n: nat) {
    |gaps| == n + 1 && forall i :: 0 <= i <= n ==> IsGap(gaps[i]) && (0 < i < n ==> gaps[i] != [])
  }

  /** Names with gaps around them. */
  function Listed(names: seq<string>, gaps: seq<string>): string
    requires |gaps| == |names| + 1
  {
    if names == [] then gaps[0] else gaps[0] + (names[0] + Listed(names[1..], gaps[1..]))
  }

  lemma BlankedConcat(a: string, b: string)
    ensures Blanked(a + b) == Blanked(a) + Blanked(b)
  {
  }

  lemma GapBlanked(g: string)
    requires IsGap(g)
    ensures IsBlank(Blanked(g)) && '-' !in g
  {
    forall c | c in Blanked(g) ensures IsSpace(c) {
      var i :| 0 <= i < |g| && Blanked(g)[i] == c;
      assert IsSpace(g[i]) || g[i] in DELIMITERS;
    }
  }

  lemma {:induction false} ListedWords(names: seq<string>, gaps: seq<string>)
    requires AreGaps(gaps, |names|) && forall i :: 0 <= i < |names| ==> IsClean(names[i])
    ensures Words(Blanked(Listed(names, gaps))) == names && '-' !in Listed(names, gaps)
    ensures names != [] && gaps[0] != [] ==> IsSpace(Blanked(Listed(names, gaps))[0])
  {
    GapBlanked(gaps[0]);
    if names == [] {
      assert Blanked(gaps[0]) + "" == Blanked(gaps[0]);
      WordsSkipBlank(Blanked(gaps[0]), "");
    } else {
      var rest := Listed(names[1..], gaps[1..]);
      ListedWords(names[1..], gaps[1..]);
      CleanUnchanged(names[0]);
      BlankedConcat(gaps[0], names[0] + rest);
      BlankedConcat(names[0], rest);
      RestIsApart(names, gaps);
      WordsSkipBlank(Blanked(gaps[0]), names[0] + Blanked(rest));
      WordsOfWord(names[0], Blanked(rest));
      assert names == [names[0]] + names[1..];
    }
  }

  lemma RestIsApart(names: seq<string>, gaps: seq<string>)
    requires names != [] && AreGaps(gaps, |names|)
    ensures var rest := Blanked(Listed(names[1..], gaps[1..])); rest == [] || IsSpace(rest[0])
  {
    var gap := gaps[1..][0];
    GapBlanked(gap);
    var rest := Listed(names[1..], gaps[1..]);
    if rest != [] {
      assert gap != [] && rest[0] == gap[0];
      assert Blanked(rest)[0] == Blanked(gap)[0];
      assert Blanked(gap)[0] in Blanked(gap);
    }
  }

  /** A line may list several channels, with blanks and delimiters between them, and a comment behind a
      dash: it stands for exactly these channels. */
  lemma {:induction false} ChannelsListed(names: seq<string>, gaps: seq<string>, comment: string)
    requires AreGaps(gaps, |names|) && forall i :: 0 <= i < |names| ==> IsClean(names[i])
    requires comment == [] || comment[0] == '-'
    ensures ChannelsOf(Listed(names, gaps) + comment) == names
  {
    var front := Listed(names, gaps);
    ListedWords(names, gaps);
    SpanEndAt(front, Is('-'), comment);
    assert (front + comment)[..|front|] == front;
  }

  // ---------- reading a printed section ----------

  /** What the reader gets from the printed lines of these names. */
  function Returned(names: seq<string>): seq<string> {
    if names == [] then [] else ChannelsOf(Quoted(names[0])) + Returned(names[1..])
  }

  /** The lines of the section, for any way of seeing them in which no printed line is blank or END. */
  lemma {:induction false} SectionRead(
      see: string -> Content, before: seq<string>, names: seq<string>, closing: string, after: seq<string>)
    requires see(closing).End? && forall i :: 0 <= i < |names| ==> see(Quoted(names[i])).Channels?
    ensures ReadWith(see, before + Printed(names, closing) + after, |before|) ==
            Some((SeenIn(see, names), |before| + |Printed(names, closing)|))
    decreases |names|
  {
    var lines := before + Printed(names, closing) + after;
    if names == [] {
      assert lines[|before|] == closing;
    } else {
      var line, rest := Quoted(names[0]), Printed(names[1..], closing);
      SectionRead(see, before + [line], names[1..], closing, after);
      LineThenRest(before, line, rest, after);
    }
  }

  function SeenIn(see: string -> Content, names: seq<string>): seq<string>
    requires forall i :: 0 <= i < |names| ==> see(Quoted(names[i])).Channels?
  {
    if names == [] then [] else see(Quoted(names[0])).names + SeenIn(see, names[1..])
  }

  lemma {:induction false} SeenReturned(names: seq<string>)
    requires forall i :: 0 <= i < |names| ==> ContentOf(Quoted(names[i])).Channels?
    ensures SeenIn(ContentOf, names) == Returned(names)
  {
    if names != [] {
      SeenReturned(names[1..]);
    }
  }

  lemma PrintedRead(before: seq<string>, names: seq<string>, closing: string, after: seq<string>)
    requires IsEnd(closing)
    ensures ReadNames(before + Printed(names, closing) + after, |before|) ==
            Some((Returned(names), |before| + |Printed(names, closing)|))
  {
    EndIsEnd(closing);
    forall i | 0 <= i < |names| ensures ContentOf(Quoted(names[i])).Channels? {
      QuotedIsRead(names[i]);
    }
    SectionRead(ContentOf, before, names, closing, after);
    SeenReturned(names);
  }

  lemma LineThenRest(before: seq<string>, line: string, rest: seq<string>, after: seq<string>)
    ensures before + ([line] + rest) + after == before + [line] + rest + after
    ensures (before + ([line] + rest) + after)[|before|] == line
  {
  }

  // ---------- which names survive ----------

  lemma {:induction false} WordChars(s: string, w: string, c: char)
    requires w in Words(s) && c in w
    ensures c in s
    decreases |s|
  {
    if IsSpace(s[0]) {
      WordChars(s[1..], w, c);
    } else {
      var n := SpanEnd(s, IsSpace);
      if w != s[..n] {
        WordChars(s[n..], w, c);
      }
    }
  }

  /** A channel read from any line is a clean name. */
  lemma ChannelsAreClean(line: string, name: string)
    requires name in ChannelsOf(line)
    ensures IsClean(name)
  {
    var front := line[..SpanEnd(line, Is('-'))];
    forall c | c in name ensures c != '-' && c !in DELIMITERS {
      WordChars(Blanked(front), name, c);
      var i :| 0 <= i < |front| && Blanked(front)[i] == c;
      assert !IsSpace(c) && front[i] in front;
    }
  }

  lemma {:induction false} ReturnedAreClean(names: seq<string>, name: string)
    requires name in Returned(names)
    ensures IsClean(name)
  {
    if name in ChannelsOf(Quoted(names[0])) {
      ChannelsAreClean(Quoted(names[0]), name);
    } else {
      ReturnedAreClean(names[1..], name);
    }
  }

  lemma {:induction false} ReturnedExactly(names: seq<string>)
    ensures Returned(names) == names <==> forall n <- names :: IsClean(n)
  {
    if Returned(names) == names {
      forall n | n in names ensures IsClean(n) {
        ReturnedAreClean(names, n);
      }
    } else if names != [] && IsClean(names[0]) {
      QuotedReadBack(names[0]);
      ReturnedExactly(names[1..]);
      assert names == [names[0]] + names[1..];
    }
  }

  /** A section printed into a larger file is left right behind its closing line, whatever the names
      are, and returns them as printed exactly when all of them are clean. */
  lemma PrintedReadBack(before: seq<string>, names: seq<string>, closing: string, after: seq<string>)
    requires IsEnd(closing)
    ensures var r := ReadNames(before + Printed(names, closing) + after, |before|);
      && r.Some? && r.value.1 == |before| + |Printed(names, closing)|
      && (r.value.0 == names <==> forall n <- names :: IsClean(n))
  {
    PrintedRead(before, names, closing, after);
    ReturnedExactly(names);
  }

  lemma {:induction false} CleanKeepsName(name: string)
    requires ' ' !in name
    ensures DropBlanks(name) == name
  {
    if name != [] {
      CleanKeepsName(name[1..]);
    }
  }

  lemma NamesRestored(t: Flags, names: seq<string>)
    requires t.Node?
    requires forall n :: n in names <==> IsTrueName(t, n)
    requires forall n <- names :: IsClean(n)
    ensures MarkAll(AllOff(t), SetAll(names)) == t <==> NamesAgree(t)
  {
    forall n | n in names ensures DropBlanks(n) == n {
      assert IsClean(n);
      CleanKeepsName(n);
    }
    FlagsRestored(t, names);
  }

  /** Printing the true channels of a module, in any order, into a larger file and reading them back
      into the same tree with all flags off: reading ends behind the section, returns the names as
      printed, and restores every flag exactly when no leaf name is on in one branch and off in another. */
  lemma {:induction false} OutlistRoundTrip(
      t: Flags, names: seq<string>, before: seq<string>, closing: string, after: seq<string>)
    requires t.Node?
    requires forall n :: n in names <==> IsTrueName(t, n)
    requires IsEnd(closing) && forall n <- names :: IsClean(n)
    ensures var r := ReadNames(before + Printed(names, closing) + after, |before|);
      && r == Some((names, |before| + |Printed(names, closing)|))
      && (MarkAll(AllOff(t), SetAll(r.value.0)) == t <==> NamesAgree(t))
  {
    PrintedReadBack(before, names, closing, after);
    NamesRestored(t, names);
  }
}
