/** What the reader of the mooring file makes of an option line, whatever its letters are. */
module MoorDynOptions {
  import opened Wrappers
  import opened MoorDyn
  import opened MoorDynRoundTrip

  predicate IsSmall(c: char) {
    'a' <= c <= 'z'
  }

  /** The text in capitals: no small letter is left, and every other character is the one it was. */
  ghost predicate InCapitals(read: string, stored: string) {
    && |stored| == |read|
    && forall i :: 0 <= i < |read| ==>
         && !IsSmall(stored[i])
         && if IsSmall(read[i]) then stored[i] as int == read[i] as int - 32 else stored[i] == read[i]
  }

  lemma UpperExactly(s: string)
    ensures InCapitals(s, Upper(s))
  {
  }

  function Quotes(n: nat): string {
    seq(n, _ => '\"')
  }

  predicate IsUnquoted(s: string) {
    s == [] || (s[0] != '\"' && s[|s| - 1] != '\"')
  }

  /** All quotes at both ends are taken off, and nothing else. */
  lemma {:induction false} UnquotedSplits(s: string) returns (m: nat, n: nat)
    ensures s == Quotes(m) + Unquoted(s) + Quotes(n) && IsUnquoted(Unquoted(s))
    decreases |s|
  {
    if s != [] && s[0] == '\"' {
      m, n := UnquotedSplits(s[1..]);
      OneMoreInFront(m, Unquoted(s), n);
      assert s == ['\"'] + s[1..];
      m := m + 1;
    } else if s != [] && s[|s| - 1] == '\"' {
      m, n := UnquotedSplits(s[..|s| - 1]);
      OneMoreBehind(m, Unquoted(s), n);
      assert s == s[..|s| - 1] + ['\"'];
      n := n + 1;
    } else {
      m, n := 0, 0;
    }
  }

  lemma OneMoreInFront(m: nat, text: string, n: nat)
    ensures Quotes(m + 1) + text + Quotes(n) == ['\"'] + (Quotes(m) + text + Quotes(n))
  {
  }

  lemma OneMoreBehind(m: nat, text: string, n: nat)
    ensures Quotes(m) + text + Quotes(n + 1) == Quotes(m) + text + Quotes(n) + ['\"']
  {
  }

  /** A text in m and n quotes. */
  predicate Quoted(s: string, m: nat, text: string, n: nat) {
    s == Quotes(m) + text + Quotes(n)
  }

  /** How an option line is stored: the name and the value in capitals, the value without the quotes
      around it, and the words behind them, or a dash if there are none. */
  ghost predicate IsStored(row: Line, o: Opt) {
    && |row| >= 2
    && InCapitals(row[1], o.name)
    && (exists m: nat, n: nat, value ::
          Quoted(row[0], m, value, n) && IsUnquoted(value) && InCapitals(value, o.value))
    && o.description == if |row| == 2 then ["-"] else row[2..]
  }

  /** Every option line is stored in this way. */
  lemma OptionStored(row: Line)
    requires |row| >= 2
    ensures IsStored(row, OptionOf(row))
  {
    var m, n := UnquotedSplits(Upper(row[0]));
    var value := QuotesStay(row[0], m, Unquoted(Upper(row[0])), n);
    assert Quoted(row[0], m, value, n);
    UpperExactly(row[1]);
  }

  /** A text whose capitals are quoted is quoted itself. */
  lemma QuotesStay(s: string, m: nat, text: string, n: nat) returns (value: string)
    requires Quoted(Upper(s), m, text, n) && IsUnquoted(text)
    ensures Quoted(s, m, value, n) && IsUnquoted(value) && InCapitals(value, text)
  {
    assert |s| == m + |text| + n;
    value := s[m..m + |text|];
    UpperExactly(value);
    assert Upper(value) == Upper(s)[m..m + |text|] == text;
    QuotesInFront(s, m, n, |text|);
  }

  lemma QuotesInFront(s: string, m: nat, n: nat, size: nat)
    requires |s| == m + size + n
    requires Upper(s)[..m] == Quotes(m) && Upper(s)[m + size..] == Quotes(n)
    ensures Quoted(s, m, s[m..m + size], n)
  {
    assert Upper(s[..m]) == Upper(s)[..m] && Upper(s[m + size..]) == Upper(s)[m + size..];
    OnlyQuotes(s[..m]);
    OnlyQuotes(s[m + size..]);
    assert s == s[..m] + s[m..m + size] + s[m + size..];
  }

  lemma OnlyQuotes(s: string)
    requires Upper(s) == Quotes(|s|)
    ensures s == Quotes(|s|)
  {
    forall i | 0 <= i < |s| ensures s[i] == '\"' {
      assert Upper(s)[i] == '\"';
    }
  }

  /** A part with these option lines, up to a rule, stores them in order. */
  lemma OptionsStored(before: seq<Line>, rows: seq<Line>, after: seq<Line>) returns (options: seq<Opt>)
    requires AllPlain(rows) && (forall i :: 0 <= i < |rows| ==> |rows[i]| >= 2) && StartsWithRule(after)
    ensures ReadItems(IsRule, AddOption, before + rows + after, |before|, []) == End(options, |before| + |rows|)
    ensures |options| == |rows| && forall i :: 0 <= i < |rows| ==> IsStored(rows[i], options[i])
  {
    forall i | 0 <= i < |rows| ensures !IsFiltered(rows[i]) && !IsRule(rows[i]) {
      assert IsPlain(rows[i]);
    }
    ItemsRead(IsRule, AddOption, before, rows, after, []);
    options := FoldedOptions(rows, []);
    assert [] + options == options;
  }

  lemma {:induction false} FoldedOptions(rows: seq<Line>, acc: seq<Opt>) returns (options: seq<Opt>)
    requires forall i :: 0 <= i < |rows| ==> |rows[i]| >= 2
    ensures Fold(AddOption, rows, acc) == Some(acc + options)
    ensures |options| == |rows| && forall i :: 0 <= i < |rows| ==> IsStored(rows[i], options[i])
  {
    if rows == [] {
      assert acc + [] == acc;
      return [];
    }
    OptionStored(rows[0]);
    var rest := FoldedOptions(rows[1..], acc + [OptionOf(rows[0])]);
    options := [OptionOf(rows[0])] + rest;
    assert acc + [OptionOf(rows[0])] + rest == acc + options;
    forall i | 0 <= i < |rows| ensures IsStored(rows[i], options[i]) {
      if i > 0 {
        assert rows[i] == rows[1..][i - 1];
      }
    }
  }

  /** A line of one word in that part is an index error. */
  lemma {:induction false} ShortOptionRaises(
      before: seq<Line>, rows: seq<Line>, row: Line, after: seq<Line>, acc: seq<Opt>)
    requires AllPlain(rows) && (forall i :: 0 <= i < |rows| ==> |rows[i]| >= 2) && IsPlain(row) && |row| < 2
    ensures ReadItems(IsRule, AddOption, before + rows + [row] + after, |before|, acc) == Raise
    decreases |rows|
  {
    var lines := before + rows + [row] + after;
    if rows == [] {
      assert lines[|before|] == row;
    } else {
      assert lines[|before|] == rows[0];
      assert before + [rows[0]] + rows[1..] + [row] + after == lines;
      ShortOptionRaises(before + [rows[0]], rows[1..], row, after, acc + [OptionOf(rows[0])]);
    }
  }
}
