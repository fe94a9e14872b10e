/** The channel list of the mooring file: one name a line, up to the first line with END in it. */
module MoorDynChannels {
  import opened Wrappers
  import opened Text
  import opened MoorDyn
  import opened MoorDynTitles

  function ChannelRow(name: string): Line {
    [name]
  }

  function AllOf(names: seq<string>): set<string> {
    set n | n in names
  }

  /** A name the reader leaves whole. */
  predicate IsChannel(name: string) {
    ',' !in name && '\"' !in name && !("!" <= name) && !Contains(name, "END")
  }

  predicate AreWords(names: seq<string>) {
    forall i :: 0 <= i < |names| ==> IsWord(names[i])
  }

  /** The names the reader gets from these lines. */
  function Kept(names: seq<string>): set<string> {
    if names == [] then {}
    else if IsFiltered(ChannelRow(names[0])) then Kept(names[1..])
    else if IsEnd(ChannelRow(names[0])) then {}
    else NamesOn(ChannelRow(names[0])) + Kept(names[1..])
  }

  /** Whatever the names are, the closing line ends the reading, if nothing did before. */
  lemma {:induction false} ChannelsRead(
      before: seq<Line>, names: seq<string>, rows: seq<Line>, closing: Line, acc: set<string>)
    requires rows == Map(ChannelRow, names) && IsEnd(closing) && !IsFiltered(closing)
    ensures var r := ReadItems(IsEnd, AddNames, before + rows + [closing], |before|, acc);
      r.End? && r.value == acc + Kept(names)
    decreases |names|
  {
    var lines := before + rows + [closing];
    if names == [] {
      assert lines[|before|] == closing;
    } else {
      var row := ChannelRow(names[0]);
      assert lines[|before|] == row;
      assert lines == before + [row] + rows[1..] + [closing];
      if IsFiltered(row) {
        ChannelsRead(before + [row], names[1..], rows[1..], closing, acc);
      } else if !IsEnd(row) {
        ChannelsRead(before + [row], names[1..], rows[1..], closing, acc + NamesOn(row));
      }
    }
  }

  // ---------- which names survive ----------

  ghost predicate Stands(s: string, sep: char, part: string, at: nat) {
    sep !in part && at + |part| <= |s| && s[at..at + |part|] == part
  }

  /** A part of a split text stands in the text and is free of the separator. */
  lemma {:induction false} PartInside(s: string, sep: char, parts: seq<string>, i: nat) returns (at: nat)
    requires parts == Split(s, sep) && i < |parts|
    ensures Stands(s, sep, parts[i], at)
    decreases |s|
  {
    var n, tail := FirstPart(s, sep, parts);
    if i == 0 {
      return 0;
    }
    var rest := PartInside(tail, sep, parts[1..], i - 1);
    at := StandsFurther(s, n + 1, tail, sep, parts[i], rest);
  }

  lemma FirstPart(s: string, sep: char, parts: seq<string>) returns (n: nat, tail: string)
    requires parts == Split(s, sep)
    ensures parts != [] && Stands(s, sep, parts[0], 0)
    ensures |parts| > 1 ==> n < |s| && tail == s[n + 1..] && parts[1..] == Split(tail, sep)
  {
    n := SpanEnd(s, Is(sep));
    tail := if n < |s| then s[n + 1..] else "";
    SplitNext(s, sep);
  }

  lemma StandsFurther(s: string, from: nat, tail: string, sep: char, part: string, rest: nat) returns (at: nat)
    requires from <= |s| && tail == s[from..] && Stands(tail, sep, part, rest)
    ensures Stands(s, sep, part, at)
  {
    SliceOfSlice(s, from, |s|, rest, rest + |part|);
    assert s[from..] == s[from..|s|];
    at := from + rest;
  }

  lemma SliceOfSlice(s: string, from: nat, to: nat, i: nat, j: nat)
    requires from <= to <= |s| && i <= j <= to - from
    ensures s[from..to][i..j] == s[from + i..from + j]
  {
    var inner, outer := s[from..to][i..j], s[from + i..from + j];
    forall k | 0 <= k < j - i ensures inner[k] == outer[k] {
      assert s[from..to][i + k] == s[from + i + k];
    }
    assert inner == outer;
  }

  lemma KeywordOfPart(s: string, part: string, at: nat, k: string)
    requires at + |part| <= |s| && s[at..at + |part|] == part && Contains(part, k)
    ensures Contains(s, k)
  {
    var i :| 0 <= i <= |part| && Occurs(part, k, i);
    SliceOfSlice(s, at, at + |part|, i, i + |k|);
    assert Occurs(s, k, at + i);
  }

  lemma PartOfWord(w: string, part: string, at: nat)
    requires IsWord(w) && at + |part| <= |w| && w[at..at + |part|] == part
    ensures Strip(part) == part
  {
    forall i | 0 <= i < |part| ensures !IsSpace(part[i]) {
      assert part[i] == w[at + i];
      assert w[at + i] in w;
    }
    if part != "" {
      StripWord(part);
    }
  }

  /** A name without quotes contributes its parts. */
  lemma PartOnLine(name: string, e: string)
    requires IsWord(name) && '\"' !in name && e in NamesOn(ChannelRow(name))
    ensures ',' !in e && '\"' !in e
    ensures Contains(e, "END") ==> Contains(name, "END")
    ensures ',' !in name ==> e == name
  {
    var parts := Split(name, ',');
    var i :| 0 <= i < |parts| && e == Strip(parts[i]);
    var at := PartInside(name, ',', Split(name, ','), i);
    PartOfWord(name, parts[i], at);
    forall c | c in e ensures c in name {
      assert c in name[at..at + |e|];
    }
    if Contains(e, "END") {
      KeywordOfPart(name, e, at, "END");
    }
    if ',' !in name {
      SplitWhole(name, ',');
    }
  }

  /** What a line contributes. */
  lemma NameOnLine(name: string, e: string)
    requires IsWord(name) && e in NamesOn(ChannelRow(name))
    ensures ',' !in e && '\"' !in e
    ensures Contains(e, "END") ==> Contains(name, "END")
    ensures ',' !in name && '\"' !in name ==> e == name
  {
    if '\"' in name {
      SplitWhole("", ',');
      assert Strip("") == "";
      assert NamesOn(ChannelRow(name)) == {""} by {
        assert Spaced(ChannelRow(name)) == name;
      }
    } else {
      PartOnLine(name, e);
    }
  }

  lemma {:induction false} KeptNames(names: seq<string>, e: string)
    requires AreWords(names) && e in Kept(names)
    ensures ',' !in e && '\"' !in e && !Contains(e, "END")
    ensures (forall i :: 0 <= i < |names| ==> ',' !in names[i] && '\"' !in names[i]) ==> !("!" <= e)
  {
    var row := ChannelRow(names[0]);
    if !IsFiltered(row) && e in NamesOn(row) {
      NameOnLine(names[0], e);
    } else {
      KeptNames(names[1..], e);
    }
  }

  lemma {:induction false} ChannelsKept(names: seq<string>)
    requires AreWords(names) && forall i :: 0 <= i < |names| ==> IsChannel(names[i])
    ensures Kept(names) == AllOf(names)
  {
    if names != [] {
      var row := ChannelRow(names[0]);
      SplitWhole(names[0], ',');
      StripWord(names[0]);
      assert NamesOn(row) == {names[0]};
      ChannelsKept(names[1..]);
      assert names == [names[0]] + names[1..];
    }
  }

  /** The channels come back exactly when no name holds a comma, a quote or END or begins with a
      comment mark. */
  lemma {:induction false} ChannelsKeptExactly(names: seq<string>)
    requires AreWords(names)
    ensures Kept(names) == AllOf(names) <==> forall i :: 0 <= i < |names| ==> IsChannel(names[i])
  {
    if forall i :: 0 <= i < |names| ==> IsChannel(names[i]) {
      ChannelsKept(names);
    } else {
      var bad: nat;
      if j: nat :| j < |names| && (',' in names[j] || '\"' in names[j]) {
        bad := j;
      } else {
        bad :| bad < |names| && !IsChannel(names[bad]);
      }
      assert names[bad] in AllOf(names);
      if names[bad] in Kept(names) {
        KeptNames(names, names[bad]);
      }
    }
  }

  // ---------- what ends the list ----------

  predicate Ends(line: Line) {
    !IsFiltered(line) && IsEnd(line)
  }

  /** A step that adds what a line holds and never fails. */
  ghost predicate Collects(step: (set<string>, Line) -> Option<set<string>>, names: Line -> set<string>) {
    forall acc, line :: step(acc, line) == Some(acc + names(line))
  }

  /** What is collected from the lines from i to j that are not filtered. */
  function Collected(names: Line -> set<string>, lines: seq<Line>, i: nat, j: nat): set<string>
    requires i <= j <= |lines|
    decreases j - i
  {
    if i == j then {}
    else (if IsFiltered(lines[i]) then {} else names(lines[i])) + Collected(names, lines, i + 1, j)
  }

  predicate Stops(stop: Line -> bool, line: Line) {
    !IsFiltered(line) && stop(line)
  }

  /** Such a loop ends at the first line that stops it, if there is one, with everything before it. */
  lemma {:induction false} CollectingEnds(
      stop: Line -> bool, step: (set<string>, Line) -> Option<set<string>>, names: Line -> set<string>,
      lines: seq<Line>, i: nat, acc: set<string>)
    requires Collects(step, names) && i <= |lines|
    ensures var r := ReadItems(stop, step, lines, i, acc);
      match r
      case Raise => false
      case Hang => forall j :: i <= j < |lines| ==> !Stops(stop, lines[j])
      case End(value, at) =>
        && i <= at < |lines| && Stops(stop, lines[at])
        && (forall j :: i <= j < at ==> !Stops(stop, lines[j]))
        && value == acc + Collected(names, lines, i, at)
    decreases |lines| - i
  {
    if i < |lines| && !Stops(stop, lines[i]) {
      if IsFiltered(lines[i]) {
        CollectingEnds(stop, step, names, lines, i + 1, acc);
      } else {
        assert step(acc, lines[i]) == Some(acc + names(lines[i]));
        CollectingEnds(stop, step, names, lines, i + 1, acc + names(lines[i]));
      }
    }
  }

  /** Reading the channels ends exactly when a line with END lies ahead that is not filtered, and never
      ends otherwise. It then ends at the first such line and has added the names before it. */
  lemma ChannelsEndExactly(lines: seq<Line>, i: nat, acc: set<string>)
    requires i <= |lines|
    ensures var r := ReadItems(IsEnd, AddNames, lines, i, acc);
      && !r.Raise?
      && (r.End? <==> exists j :: i <= j < |lines| && Ends(lines[j]))
      && (r.End? ==>
            && i <= r.at < |lines| && Ends(lines[r.at])
            && (forall j :: i <= j < r.at ==> !Ends(lines[j]))
            && r.value == acc + Collected(NamesOn, lines, i, r.at))
  {
    CollectingEnds(IsEnd, AddNames, NamesOn, lines, i, acc);
    assert forall line :: Ends(line) <==> Stops(IsEnd, line);
  }

  /** A rule does not end the list: it is no END line, and what it adds is a channel made of dashes. */
  lemma RuleIsChannel(n: nat)
    requires n >= 3
    ensures var rule := [Dashes(n)];
      IsRule(rule) && !IsFiltered(rule) && !IsEnd(rule) && NamesOn(rule) == {Dashes(n)}
  {
    var dashes := Dashes(n);
    assert dashes[..3] == "---" && dashes[..1][0] == '-';
    forall i | 0 <= i && i + 3 <= n ensures !Occurs(dashes, "END", i) {
      assert dashes[i..i + 3][0] == '-';
    }
    SplitWhole(dashes, ',');
    StripWord(dashes);
  }

  /** The stop the comment in the source describes. */
  function DocumentedStop(): Line -> bool {
    (line: Line) => IsRule(line) || IsEnd(line)
  }

  predicate IsOpenRule(line: Line) {
    !IsFiltered(line) && IsRule(line) && !IsEnd(line)
  }

  /** The list is read as the comment says exactly when every rule without END in it stands behind
      a line with END. */
  lemma DocumentedExactly(lines: seq<Line>, i: nat, acc: set<string>)
    requires i <= |lines|
    ensures ReadItems(IsEnd, AddNames, lines, i, acc) == ReadItems(DocumentedStop(), AddNames, lines, i, acc) <==>
      forall j :: i <= j < |lines| && IsOpenRule(lines[j]) ==> exists k :: i <= k < j && Ends(lines[k])
  {
    var r, d := ReadItems(IsEnd, AddNames, lines, i, acc), ReadItems(DocumentedStop(), AddNames, lines, i, acc);
    CollectingEnds(IsEnd, AddNames, NamesOn, lines, i, acc);
    CollectingEnds(DocumentedStop(), AddNames, NamesOn, lines, i, acc);
    StopsApart(lines, i, if r.End? then r.at else |lines|, if d.End? then d.at else |lines|);
  }

  /** The first lines to stop the two loops are the same exactly under that condition. */
  lemma StopsApart(lines: seq<Line>, i: nat, at: nat, at': nat)
    requires i <= at <= |lines| && i <= at' <= |lines|
    requires (at < |lines| ==> Stops(IsEnd, lines[at])) && (at' < |lines| ==> Stops(DocumentedStop(), lines[at']))
    requires forall j :: i <= j < at ==> !Stops(IsEnd, lines[j])
    requires forall j :: i <= j < at' ==> !Stops(DocumentedStop(), lines[j])
    ensures at == at' <==>
      forall j :: i <= j < |lines| && IsOpenRule(lines[j]) ==> exists k :: i <= k < j && Ends(lines[k])
  {
    assert forall line :: Ends(line) <==> Stops(IsEnd, line);
    assert forall line :: Stops(DocumentedStop(), line) <==> Ends(line) || IsOpenRule(line);
    if at == at' {
      forall j | i <= j < |lines| && IsOpenRule(lines[j]) ensures i <= at < j && Ends(lines[at]) {
        assert !Ends(lines[j]) && Stops(DocumentedStop(), lines[j]);
      }
    }
  }
}
