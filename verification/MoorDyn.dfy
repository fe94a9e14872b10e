/**
 The reader of the mooring input file. It decides by substrings of a title which part comes next,
 reads that part to the rule or the END line behind it, and goes on from there. A line is given by
 its words.
 */
module MoorDyn {
  import opened Wrappers
  import opened Text

  type Line = seq<string>

  // ---------- recognising a title ----------

  /** The parts of the file, in the order the reader tries them; Other is text it passes over. */
  datatype Kind =
    | LineTypes | RodTypes | Bodies | Rods | Points | MooringLines
    | Failures | Controls | Externals | Options | Outputs | Other

  predicate Occurs(s: string, k: string, i: int) {
    0 <= i && i + |k| <= |s| && s[i..i + |k|] == k
  }

  predicate Contains(s: string, k: string) {
    exists i :: 0 <= i <= |s| && Occurs(s, k, i)
  }

  /** ''.join(words) */
  function Glued(line: Line): string {
    if line == [] then [] else line[0] + Glued(line[1..])
  }

  /** The text the dispatcher looks at: the words of the line glued together, in lower case. */
  function Key(line: Line): string {
    Lower(Glued(line))
  }

  predicate Names(kind: Kind, key: string) {
    match kind
    case LineTypes => Contains(key, "linetypes") || Contains(key, "linedictionary")
    case RodTypes => Contains(key, "rodtypes") || Contains(key, "roddictionary")
    case Bodies => Contains(key, "bodies") || Contains(key, "bodylist") || Contains(key, "bodyproperties")
    case Rods => Contains(key, "rods") || Contains(key, "rodlist") || Contains(key, "rodproperties")
    case Points =>
      || Contains(key, "points") || Contains(key, "connectionproperties") || Contains(key, "nodeproperties")
      || Contains(key, "pointproperties") || Contains(key, "pointlist")
    case MooringLines => Contains(key, "lines") || Contains(key, "lineproperties") || Contains(key, "linelist")
    case Failures => Contains(key, "failure")
    case Controls => Contains(key, "control")
    case Externals => Contains(key, "external")
    case Options => Contains(key, "options")
    case Outputs => Contains(key, "outputs")
    case Other => true
  }

  function KindOf(key: string): Kind {
    if Names(LineTypes, key) then LineTypes
    else if Names(RodTypes, key) then RodTypes
    else if Names(Bodies, key) then Bodies
    else if Names(Rods, key) then Rods
    else if Names(Points, key) then Points
    else if Names(MooringLines, key) then MooringLines
    else if Names(Failures, key) then Failures
    else if Names(Controls, key) then Controls
    else if Names(Externals, key) then Externals
    else if Names(Options, key) then Options
    else if Names(Outputs, key) then Outputs
    else Other
  }

  // ---------- lines ----------

  /** Empty lines and comment lines, which readline_filterComments passes over. */
  predicate IsFiltered(line: Line) {
    line == [] || "!" <= line[0]
  }

  predicate IsRule(line: Line) {
    line != [] && "---" <= line[0]
  }

  /** ' '.join(words) */
  function Spaced(line: Line): string {
    if line == [] then [] else if |line| == 1 then line[0] else line[0] + (" " + Spaced(line[1..]))
  }

  /** What ends the channel list. The test for a rule next to it looks at one character only and
      never holds. */
  predicate IsEnd(line: Line) {
    Contains(Spaced(line), "END")
  }

  // ---------- what a line contributes ----------

  /** The columns of a line type that may be left out. */
  datatype Extra = Extra(cl: Option<string>, dF: Option<string>, cF: Option<string>)

  /** The lists of one table; the optional columns are lists of their own. */
  datatype Table = Table(rows: seq<Line>, extras: seq<Extra>)

  datatype Opt = Opt(value: string, name: string, description: Line)

  /** The number of columns a row must have. */
  function Columns(kind: Kind): nat {
    match kind
    case LineTypes => 10
    case RodTypes => 7
    case Bodies => 14
    case Rods => 11
    case Points => 9
    case MooringLines => 7
    case Failures => 5
    case Controls => 1
    case Externals => 6
    case _ => 0
  }

  /** The optional columns are stored when there are none, one or three of them, and not otherwise. */
  function ExtrasOf(row: Line): seq<Extra> {
    if |row| == 10 then [Extra(None, None, None)]
    else if |row| == 11 then [Extra(Some(row[10]), None, None)]
    else if |row| == 13 then [Extra(Some(row[10]), Some(row[11]), Some(row[12]))]
    else []
  }

  /** The line numbers of a control row: split at commas, empty parts dropped. */
  function LineNumbers(words: Line): seq<string> {
    if words == [] then [] else WithoutEmpty(Split(words[0], ',')) + LineNumbers(words[1..])
  }

  function WithoutEmpty(parts: seq<string>): seq<string> {
    if parts == [] then [] else (if parts[0] == [] then [] else [parts[0]]) + WithoutEmpty(parts[1..])
  }

  function Stored(kind: Kind, row: Line): Line
    requires |row| >= Columns(kind)
  {
    if kind == Controls then [row[0]] + LineNumbers(row[1..]) else row[..Columns(kind)]
  }

  /** A row appended to its table; None is the index error for a missing column. */
  function AddRow(kind: Kind, table: Table, row: Line): Option<Table> {
    if |row| < Columns(kind) then None
    else Some(Table(table.rows + [Stored(kind, row)],
                    if kind == LineTypes then table.extras + ExtrasOf(row) else table.extras))
  }

  function UpperChar(c: char): char {
    if 'a' <= c <= 'z' then c - 'a' + 'A' else c
  }

  function Upper(s: string): (u: string)
    ensures |u| == |s|
  {
    seq(|s|, i requires 0 <= i < |s| => UpperChar(s[i]))
  }

  /** strip of double quotes at both ends. */
  function Unquoted(s: string): string
    decreases |s|
  {
    if s != [] && s[0] == '\"' then Unquoted(s[1..])
    else if s != [] && s[|s| - 1] == '\"' then Unquoted(s[..|s| - 1])
    else s
  }

  function OptionOf(row: Line): Opt
    requires |row| >= 2
  {
    Opt(Unquoted(Upper(row[0])), Upper(row[1]), if |row| > 2 then row[2..] else ["-"])
  }

  function AddOption(options: seq<Opt>, row: Line): Option<seq<Opt>> {
    if |row| < 2 then None else Some(options + [OptionOf(row)])
  }

  /** The names on a channel line. Whatever a line with a quote holds, the pattern applied to it
      finds the empty text first. */
  function NamesOn(line: Line): set<string> {
    var data := Spaced(line);
    var parts := Split(if '\"' in data then "" else data, ',');
    set i | 0 <= i < |parts| :: Strip(parts[i])
  }

  function AddNames(channels: set<string>, line: Line): Option<set<string>> {
    Some(channels + NamesOn(line))
  }

  // ---------- reading ----------

  /** The state at the line that ended the loop; or an index error; or the end of the file, which
      the loop that skips empty lines never gets past. */
  datatype Reading<T> = End(value: T, at: nat) | Raise | Hang

  /** The loop every part is read by: lines from i on that are not filtered go through `step`,
      until one satisfies `stop`. */
  function ReadItems<T>(
      stop: Line -> bool, step: (T, Line) -> Option<T>, lines: seq<Line>, i: nat, acc: T): (r: Reading<T>)
    ensures r.End? ==> i <= r.at < |lines| && stop(lines[r.at])
    decreases |lines| - i
  {
    if i >= |lines| then Hang
    else if IsFiltered(lines[i]) then ReadItems(stop, step, lines, i + 1, acc)
    else if stop(lines[i]) then End(acc, i)
    else
      match step(acc, lines[i])
      case None => Raise
      case Some(next) => ReadItems(stop, step, lines, i + 1, next)
  }

  function RowStep(kind: Kind): (Table, Line) -> Option<Table> {
    (table: Table, row: Line) => AddRow(kind, table, row)
  }

  const NO_ROWS := Table([], [])

  /** What has been read. */
  datatype Tables = Tables(rows: map<Kind, seq<Line>>, extras: seq<Extra>, options: seq<Opt>, channels: set<string>)

  const NOTHING := Tables(map[], [], [], {})

  function StoreTable(t: Tables, kind: Kind, table: Table): Tables {
    t.(rows := t.rows[kind := table.rows], extras := if kind == LineTypes then table.extras else t.extras)
  }

  datatype Outcome = Done(tables: Tables) | Raises | Hangs

  function LineKind(line: Line): Kind {
    KindOf(Key(line))
  }

  /** read_MoorDyn from line i on, for a given way of telling what a line announces. */
  function ReadFrom(kindOf: Line -> Kind, lines: seq<Line>, i: nat, t: Tables): Outcome
    decreases |lines| - i
  {
    if i >= |lines| then Done(t)
    else
      var kind := kindOf(lines[i]);
      if kind == Other then ReadFrom(kindOf, lines, i + 1, t)
      else if kind == Outputs then
        match ReadItems(IsEnd, AddNames, lines, i + 1, t.channels)
        case End(channels, _) => Done(t.(channels := channels))
        case Raise => Raises
        case Hang => Hangs
      else if kind == Options then
        match ReadItems(IsRule, AddOption, lines, i + 1, [])
        case End(options, at) => ReadFrom(kindOf, lines, at, t.(options := options))
        case Raise => Raises
        case Hang => Hangs
      else
        match ReadItems(IsRule, RowStep(kind), lines, i + 3, NO_ROWS)
        case End(table, at) => ReadFrom(kindOf, lines, at, StoreTable(t, kind, table))
        case Raise => Raises
        case Hang => Hangs
  }

  // ---------- the loops ----------

  /** readline_filterComments: the position of the next line that is not filtered. */
  method NextLine(lines: seq<Line>, start: nat) returns (r: Option<nat>)
    ensures r.None? ==> forall j :: start <= j < |lines| ==> IsFiltered(lines[j])
    ensures r.Some? ==>
      && start <= r.value < |lines| && !IsFiltered(lines[r.value])
      && forall j :: start <= j < r.value ==> IsFiltered(lines[j])
  {
    var i := start;
    while i < |lines|
      invariant start <= i
      invariant forall j :: start <= j < i && j < |lines| ==> IsFiltered(lines[j])
    {
      if !IsFiltered(lines[i]) {
        return Some(i);
      }
      i := i + 1;
    }
    return None;
  }

  /** Filtered lines do not take part in the reading. */
  lemma {:induction false} ReadItemsSkips<T>(
      stop: Line -> bool, step: (T, Line) -> Option<T>, lines: seq<Line>, i: nat, j: nat, acc: T)
    requires i <= j <= |lines| && forall k :: i <= k < j ==> IsFiltered(lines[k])
    ensures ReadItems(stop, step, lines, i, acc) == ReadItems(stop, step, lines, j, acc)
    decreases j - i
  {
    if i < j {
      ReadItemsSkips(stop, step, lines, i + 1, j, acc);
    }
  }

  /** One part of the file, read line by line. */
  method ReadPart<T>(stop: Line -> bool, step: (T, Line) -> Option<T>, lines: seq<Line>, start: nat, acc: T)
      returns (r: Reading<T>)
    ensures r == ReadItems(stop, step, lines, start, acc)
  {
    var value := acc;
    var next := NextLine(lines, start);
    if next.None? {
      if start <= |lines| {
        ReadItemsSkips(stop, step, lines, start, |lines|, acc);
      }
      return Hang;
    }
    var i := next.value;
    ReadItemsSkips(stop, step, lines, start, i, acc);
    while !stop(lines[i])
      invariant i < |lines| && !IsFiltered(lines[i])
      invariant ReadItems(stop, step, lines, start, acc) == ReadItems(stop, step, lines, i, value)
      decreases |lines| - i
    {
      var more := step(value, lines[i]);
      if more.None? {
        return Raise;
      }
      value := more.value;
      next := NextLine(lines, i + 1);
      if next.None? {
        ReadItemsSkips(stop, step, lines, i + 1, |lines|, value);
        return Hang;
      }
      ReadItemsSkips(stop, step, lines, i + 1, next.value, value);
      i := next.value;
    }
    return End(value, i);
  }

  /** read_MoorDyn into tables of its own. */
  method ReadMoorDyn(lines: seq<Line>) returns (r: Outcome)
    ensures r == ReadFrom(LineKind, lines, 0, NOTHING)
  {
    var tables, i := NOTHING, 0;
    while i < |lines|
      invariant ReadFrom(LineKind, lines, 0, NOTHING) == ReadFrom(LineKind, lines, i, tables)
      decreases |lines| - i
    {
      var kind := LineKind(lines[i]);
      if kind == Other {
        i := i + 1;
      } else if kind == Outputs {
        var channels := ReadPart(IsEnd, AddNames, lines, i + 1, tables.channels);
        match channels
        case End(names, _) => return Done(tables.(channels := names));
        case Raise => return Raises;
        case Hang => return Hangs;
      } else if kind == Options {
        var options := ReadPart(IsRule, AddOption, lines, i + 1, []);
        match options
        case End(opts, at) => tables, i := tables.(options := opts), at;
        case Raise => return Raises;
        case Hang => return Hangs;
      } else {
        var table := ReadPart(IsRule, RowStep(kind), lines, i + 3, NO_ROWS);
        match table
        case End(read, at) => tables, i := StoreTable(tables, kind, read), at;
        case Raise => return Raises;
        case Hang => return Hangs;
      }
    }
    return Done(tables);
  }
}
