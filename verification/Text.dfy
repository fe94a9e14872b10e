/** The parts of text handling the printers and parsers share: words, lines, padding, decimal counts. */
module Text {
  import opened Wrappers

  // ---------- characters ----------

  /** White space as str.split() and str.strip() see it, up to code point 255. */
  predicate IsSpace(c: char) {
    '\t' <= c <= '\r' || '\U{1C}' <= c <= ' ' || c == '\U{85}' || c == '\U{A0}'
  }

  /** The code points of white space up to 255. */
  lemma SpaceExactly(c: char)
    requires c < '\U{100}'
    ensures IsSpace(c) <==> c as int in {9, 10, 11, 12, 13, 28, 29, 30, 31, 32, 133, 160}
  {
  }

  /** A non-empty string free of white space. */
  predicate IsWord(s: string) {
    s != [] && forall c <- s :: !IsSpace(c)
  }

  predicate IsBlank(s: string) {
    forall c <- s :: IsSpace(c)
  }

  function LowerChar(c: char): char {
    if 'A' <= c <= 'Z' then c - 'A' + 'a' else c
  }

  function Lower(s: string): (l: string)
    ensures |l| == |s|
  {
    seq(|s|, i requires 0 <= i < |s| => LowerChar(s[i]))
  }

  /** The text in lower case: no upper-case letter is left, and each letter is the one it was. */
  lemma LowerExactly(s: string, i: nat)
    requires i < |s|
    ensures !('A' <= Lower(s)[i] <= 'Z')
    ensures Lower(s)[i] == s[i] || ('A' <= s[i] <= 'Z' && Lower(s)[i] as int == s[i] as int + 32)
  {
  }

  /** Length of the longest prefix without a stopping character. */
  function SpanEnd(s: string, stop: char -> bool): (n: nat)
    ensures n <= |s| && (n < |s| ==> stop(s[n]))
    ensures forall c <- s[..n] :: !stop(c)
    ensures s != [] && !stop(s[0]) ==> n > 0
  {
    if s == [] || stop(s[0]) then 0
    else
      assert s[..1 + SpanEnd(s[1..], stop)] == [s[0]] + s[1..][..SpanEnd(s[1..], stop)];
      1 + SpanEnd(s[1..], stop)
  }

  lemma {:induction false} SpanEndAt(a: string, stop: char -> bool, rest: string)
    requires (forall c <- a :: !stop(c)) && (rest == [] || stop(rest[0]))
    ensures SpanEnd(a + rest, stop) == |a|
  {
    if a == [] {
      assert a + rest == rest;
    } else {
      assert (a + rest)[0] == a[0] && (a + rest)[1..] == a[1..] + rest;
      SpanEndAt(a[1..], stop, rest);
    }
  }

  // ---------- words ----------

  /** str.split() without arguments. */
  function Words(s: string): (ws: seq<string>)
    ensures forall w <- ws :: IsWord(w)
    decreases |s|
  {
    if s == [] then []
    else if IsSpace(s[0]) then Words(s[1..])
    else var n := SpanEnd(s, IsSpace); [s[..n]] + Words(s[n..])
  }

  /** A word at the front, delimited by a space or the end, is the first word. */
  lemma {:induction false} WordsOfWord(w: string, rest: string)
    requires IsWord(w) && (rest == [] || IsSpace(rest[0]))
    ensures Words(w + rest) == [w] + Words(rest)
  {
    SpanEndAt(w, IsSpace, rest);
    assert (w + rest)[0] == w[0];
    assert (w + rest)[..|w|] == w && (w + rest)[|w|..] == rest;
  }

  lemma {:induction false} WordsSkipBlank(pad: string, rest: string)
    requires IsBlank(pad)
    ensures Words(pad + rest) == Words(rest)
  {
    if pad == [] {
      assert pad + rest == rest;
    } else {
      assert (pad + rest)[0] == pad[0] && (pad + rest)[1..] == pad[1..] + rest;
      WordsSkipBlank(pad[1..], rest);
    }
  }

  /** Behind white space, text is split on its own. */
  lemma {:induction false} WordsConcat(s: string, gap: string, rest: string)
    requires gap != [] && IsBlank(gap)
    ensures Words(s + (gap + rest)) == Words(s) + Words(rest)
    decreases |s|
  {
    if s == [] {
      assert s + (gap + rest) == gap + rest;
      WordsSkipBlank(gap, rest);
    } else if IsSpace(s[0]) {
      assert (s + (gap + rest))[1..] == s[1..] + (gap + rest);
      WordsConcat(s[1..], gap, rest);
    } else {
      var n := SpanEnd(s, IsSpace);
      WordsConcat(s[n..], gap, rest);
      WordInFront(s[..n], s[n..], gap, rest);
      assert s == s[..n] + s[n..];
    }
  }

  lemma WordInFront(w: string, s: string, gap: string, rest: string)
    requires IsWord(w) && (s == [] || IsSpace(s[0])) && gap != [] && IsBlank(gap)
    requires Words(s + (gap + rest)) == Words(s) + Words(rest)
    ensures Words(w + s + (gap + rest)) == Words(w + s) + Words(rest)
  {
    assert (gap + rest)[0] == gap[0];
    FirstWord(w, s, gap + rest);
  }

  /** The first word is split off in the same way when more text follows. */
  lemma {:induction false} FirstWord(w: string, s: string, more: string)
    requires IsWord(w) && (s == [] || IsSpace(s[0])) && more != [] && IsSpace(more[0])
    ensures Words(w + s) == [w] + Words(s)
    ensures Words(w + s + more) == [w] + Words(s + more)
  {
    WordsOfWord(w, s);
    WordsOfWord(w, s + more);
    assert w + s + more == w + (s + more);
  }

  /** Without white space between them, a word extends the last one. */
  lemma {:induction false} WordsGlue(s: string, w: string)
    requires s != [] && !IsSpace(s[|s| - 1]) && IsWord(w)
    ensures Words(s) != []
    ensures Words(s + w) == Extended(Words(s), w)
    decreases |s|
  {
    if IsSpace(s[0]) {
      assert (s + w)[1..] == s[1..] + w;
      WordsGlue(s[1..], w);
    } else {
      var n := SpanEnd(s, IsSpace);
      if n == |s| {
        OneWord(s);
        OneWord(s + w);
      } else {
        assert s == s[..n] + s[n..];
        WordsGlue(s[n..], w);
        GlueBehindWord(s[..n], s[n..], w);
      }
    }
  }

  function Extended(ws: seq<string>, w: string): seq<string>
    requires ws != []
  {
    ws[..|ws| - 1] + [ws[|ws| - 1] + w]
  }

  lemma {:induction false} OneWord(w: string)
    requires IsWord(w)
    ensures Words(w) == [w]
  {
    WordsOfWord(w, []);
    assert w + [] == w;
  }

  lemma {:induction false} GlueBehindWord(first: string, rest: string, w: string)
    requires IsWord(first) && rest != [] && IsSpace(rest[0]) && Words(rest) != []
    requires Words(rest + w) == Extended(Words(rest), w)
    ensures Words(first + rest) == [first] + Words(rest)
    ensures Words(first + rest + w) == Extended([first] + Words(rest), w)
  {
    assert (rest + w)[0] == rest[0];
    WordsOfWord(first, rest);
    WordsOfWord(first, rest + w);
    ExtendedBehind(first, Words(rest), w);
    Grouped(first, rest, w);
  }

  lemma Grouped(a: string, b: string, c: string)
    ensures a + b + c == a + (b + c)
  {
  }

  lemma ExtendedBehind(first: string, ws: seq<string>, w: string)
    requires ws != []
    ensures Extended([first] + ws, w) == [first] + Extended(ws, w)
  {
  }

  // ---------- lines ----------

  function Is(sep: char): char -> bool {
    c => c == sep
  }

  /** str.splitlines() for text whose only line break is '\n': a final break ends the last line. */
  function Lines(s: string): seq<string>
    decreases |s|
  {
    if s == [] then []
    else var n := SpanEnd(s, Is('\n')); [s[..n]] + (if n < |s| then Lines(s[n + 1..]) else [])
  }

  lemma {:induction false} LinesOfLine(line: string, rest: string)
    requires '\n' !in line
    ensures Lines(line + ("\n" + rest)) == [line] + Lines(rest)
  {
    SpanEndAt(line, Is('\n'), "\n" + rest);
    Parts(line, '\n', rest);
  }

  lemma Parts(a: string, c: char, b: string)
    ensures var s := a + ([c] + b); s[..|a|] == a && s[|a|] == c && s[|a| + 1..] == b
  {
  }

  lemma {:induction false} LinesOfLast(line: string)
    requires '\n' !in line
    ensures Lines(line) == if line == [] then [] else [line]
  {
    SpanEndAt(line, Is('\n'), []);
    assert line + [] == line && line[..|line|] == line;
  }

  /** '\n'.join(lines). */
  function JoinLines(lines: seq<string>): string {
    if lines == [] then []
    else if |lines| == 1 then lines[0]
    else lines[0] + ("\n" + JoinLines(lines[1..]))
  }

  /** Joined lines, followed by more text on lines of its own, come apart again. */
  lemma {:induction false} LinesOfJoined(lines: seq<string>, rest: string)
    requires lines != [] && forall i :: 0 <= i < |lines| ==> '\n' !in lines[i]
    ensures Lines(JoinLines(lines) + ("\n" + rest)) == lines + Lines(rest)
  {
    if |lines| == 1 {
      assert lines == [lines[0]];
      LinesOfLine(lines[0], rest);
    } else {
      var tail := JoinLines(lines[1..]) + ("\n" + rest);
      LinesOfJoined(lines[1..], rest);
      LinesOfLine(lines[0], tail);
      JoinedText(lines, "\n" + rest);
      assert Lines(lines[0] + ("\n" + tail)) == [lines[0]] + (lines[1..] + Lines(rest));
      Front(lines, Lines(rest));
    }
  }

  lemma Front(lines: seq<string>, more: seq<string>)
    requires lines != []
    ensures [lines[0]] + (lines[1..] + more) == lines + more
  {
    assert lines == [lines[0]] + lines[1..];
  }

  lemma {:induction false} JoinedText(lines: seq<string>, rest: string)
    requires |lines| > 1
    ensures JoinLines(lines) + rest == lines[0] + ("\n" + (JoinLines(lines[1..]) + rest))
  {
    ConcatShift(lines[0], "\n", JoinLines(lines[1..]), rest);
  }

  lemma ConcatShift(a: string, b: string, c: string, d: string)
    ensures a + (b + c) + d == a + (b + (c + d))
  {
  }

  // ---------- padding ----------

  function Blanks(n: nat): (s: string)
    ensures |s| == n && IsBlank(s)
  {
    seq(n, _ => ' ')
  }

  /** Right alignment in a field of at least `width` columns. */
  function PadLeft(s: string, width: nat): string {
    Blanks(if |s| < width then width - |s| else 0) + s
  }

  // ---------- decimal counts ----------

  predicate IsDigit(c: char) {
    '0' <= c <= '9'
  }

  /** A digit is neither white space nor a sign. */
  lemma DigitIsPlain(c: char)
    requires IsDigit(c)
    ensures !IsSpace(c) && c !in "+-:!"
  {
  }

  function DigitChar(d: nat): char
    requires d < 10
  {
    '0' + d as char
  }

  function NatText(n: nat): (s: string)
    ensures s != [] && forall c <- s :: IsDigit(c)
  {
    if n < 10 then [DigitChar(n)] else NatText(n / 10) + [DigitChar(n % 10)]
  }

  function NatValue(s: string): int
    requires forall c <- s :: IsDigit(c)
  {
    if s == [] then 0 else 10 * NatValue(s[..|s| - 1]) + (s[|s| - 1] as int - '0' as int)
  }

  lemma {:induction false} NatTextValue(n: nat)
    ensures NatValue(NatText(n)) == n
  {
    if n >= 10 {
      NatTextValue(n / 10);
      assert NatText(n)[..|NatText(n)| - 1] == NatText(n / 10);
    } else {
      assert NatText(n)[..0] == [];
    }
  }

  /** str.strip() without arguments. */
  function Strip(s: string): string
    decreases |s|
  {
    if s != [] && IsSpace(s[0]) then Strip(s[1..])
    else if s != [] && IsSpace(s[|s| - 1]) then Strip(s[..|s| - 1])
    else s
  }

  /** Neither begins nor ends with white space. */
  predicate IsStripped(s: string) {
    s == [] || (!IsSpace(s[0]) && !IsSpace(s[|s| - 1]))
  }

  /** Stripping removes all white space at both ends and nothing else. */
  lemma {:induction false} StripExactly(pad: string, core: string, pad': string)
    requires IsBlank(pad) && IsBlank(pad') && IsStripped(core)
    ensures Strip(pad + core + pad') == core
    decreases |pad| + |pad'|
  {
    var s := pad + core + pad';
    if pad != [] {
      assert s[0] == pad[0] && s[1..] == pad[1..] + core + pad';
      StripExactly(pad[1..], core, pad');
    } else if pad' != [] {
      var n := |pad'| - 1;
      assert s[|s| - 1] == pad'[n] && s[..|s| - 1] == pad + core + pad'[..n];
      if core == [] {
        assert s[0] == pad'[0] && s[1..] == pad + core + pad'[1..];
        StripExactly(pad, core, pad'[1..]);
      } else {
        assert s[0] == core[0];
        StripExactly(pad, core, pad'[..n]);
      }
    } else {
      assert s == core;
    }
  }

  /** Every text is of that form. */
  lemma {:induction false} StripSplits(s: string) returns (pad: string, pad': string)
    ensures IsBlank(pad) && IsBlank(pad') && IsStripped(Strip(s)) && s == pad + Strip(s) + pad'
    decreases |s|
  {
    if s != [] && IsSpace(s[0]) {
      pad, pad' := StripSplits(s[1..]);
      pad := [s[0]] + pad;
    } else if s != [] && IsSpace(s[|s| - 1]) {
      pad, pad' := StripSplits(s[..|s| - 1]);
      pad' := pad' + [s[|s| - 1]];
    } else {
      pad, pad' := [], [];
    }
  }

  lemma StripWord(w: string)
    requires IsWord(w)
    ensures Strip(w) == w
  {
  }

  /** int(text): an optional sign and digits, surrounded by white space. */
  function ParseInt(text: string): Result<int> {
    var s := Strip(text);
    var neg := s != [] && s[0] == '-';
    var digits := if s != [] && s[0] in "+-" then s[1..] else s;
    if digits == [] || exists c <- digits :: !IsDigit(c) then Failure("invalid literal for int()")
    else Success(if neg then -NatValue(digits) else NatValue(digits))
  }

  predicate AreDigits(s: string) {
    s != [] && forall c <- s :: IsDigit(c)
  }

  /** The integers that are read: digits with at most one sign in front and white space around them. */
  lemma {:induction false} ParseIntExactly(pad: string, sign: string, digits: string, pad': string)
    requires IsBlank(pad) && IsBlank(pad') && AreDigits(digits) && sign in {"", "+", "-"}
    ensures ParseInt(pad + (sign + digits) + pad') ==
            Success(if sign == "-" then -NatValue(digits) else NatValue(digits))
  {
    var s := sign + digits;
    assert digits[0] in digits && digits[|digits| - 1] in digits && s[|s| - 1] == digits[|digits| - 1];
    DigitIsPlain(digits[0]);
    DigitIsPlain(digits[|digits| - 1]);
    StripExactly(pad, s, pad');
    SignSplit(sign, digits);
  }

  lemma SignSplit(sign: string, digits: string)
    requires AreDigits(digits) && sign in {"", "+", "-"}
    ensures var s := sign + digits;
      && (s[0] == '-' <==> sign == "-")
      && (if s[0] in "+-" then s[1..] else s) == digits
  {
    var s := sign + digits;
    if sign == "" {
      assert s == digits && digits[0] in digits;
      DigitIsPlain(digits[0]);
    } else {
      assert s[0] == sign[0] && s[1..] == digits;
    }
  }

  /** Nothing else is. */
  lemma {:induction false} ParseIntForm(text: string) returns (pad: string, sign: string, digits: string, pad': string)
    requires ParseInt(text).Success?
    ensures IsBlank(pad) && IsBlank(pad') && AreDigits(digits) && sign in {"", "+", "-"}
    ensures text == pad + (sign + digits) + pad'
  {
    pad, pad' := StripSplits(text);
    var s := Strip(text);
    if s != [] && s[0] in "+-" {
      sign, digits := [s[0]], s[1..];
    } else {
      sign, digits := "", s;
    }
    assert s == sign + digits;
  }

  lemma {:induction false} ParseNatText(n: nat)
    ensures ParseInt(" " + NatText(n)) == Success(n)
  {
    var s := NatText(n);
    assert (" " + s)[1..] == s;
    DigitIsPlain(s[0]);
    DigitIsPlain(s[|s| - 1]);
    assert Strip(s) == s;
    assert Strip(" " + s) == s;
    NatTextValue(n);
  }

  /** str.split(sep): one part more than there are separators. */
  function Split(s: string, sep: char): (parts: seq<string>)
    decreases |s|
  {
    var n := SpanEnd(s, Is(sep));
    if n == |s| then [s] else [s[..n]] + Split(s[n + 1..], sep)
  }

  lemma SplitNext(s: string, sep: char)
    ensures var n := SpanEnd(s, Is(sep));
      && sep !in s[..n]
      && Split(s, sep) == if n == |s| then [s[..n]] else [s[..n]] + Split(s[n + 1..], sep)
  {
    var n := SpanEnd(s, Is(sep));
    SpanIsFree(s, sep);
    if n == |s| {
      assert s[..n] == s;
    }
  }

  lemma SpanIsFree(s: string, sep: char)
    ensures sep !in s[..SpanEnd(s, Is(sep))]
  {
    var front := s[..SpanEnd(s, Is(sep))];
    assert forall c <- front :: !Is(sep)(c);
  }

  /** sep.join(parts) */
  function JoinBy(parts: seq<string>, sep: char): string {
    if parts == [] then [] else if |parts| == 1 then parts[0] else parts[0] + ([sep] + JoinBy(parts[1..], sep))
  }

  /** The parts are free of the separator and joined give the text again. */
  lemma {:induction false} SplitJoined(s: string, sep: char)
    ensures Split(s, sep) != [] && JoinBy(Split(s, sep), sep) == s
    ensures forall i :: 0 <= i < |Split(s, sep)| ==> sep !in Split(s, sep)[i]
    decreases |s|
  {
    var n := SpanEnd(s, Is(sep));
    SplitNext(s, sep);
    if n == |s| {
      assert s[..n] == s;
    } else {
      var rest := Split(s[n + 1..], sep);
      SplitJoined(s[n + 1..], sep);
      assert ([s[..n]] + rest)[1..] == rest;
      assert s == s[..n] + ([sep] + s[n + 1..]);
    }
  }

  /** Joined parts come apart again. */
  lemma {:induction false} JoinedSplit(parts: seq<string>, sep: char)
    requires parts != [] && forall i :: 0 <= i < |parts| ==> sep !in parts[i]
    ensures Split(JoinBy(parts, sep), sep) == parts
  {
    if |parts| == 1 {
      SplitWhole(parts[0], sep);
      assert parts == [parts[0]];
    } else {
      JoinedSplit(parts[1..], sep);
      SplitFirst(parts[0], sep, JoinBy(parts[1..], sep));
      assert parts == [parts[0]] + parts[1..];
    }
  }

  /** The part between the first and the second separator; split(sep)[1]. */
  function SecondPart(s: string, sep: char): Result<string> {
    var n := SpanEnd(s, Is(sep));
    if n == |s| then Failure("list index out of range")
    else var rest := s[n + 1..]; Success(rest[..SpanEnd(rest, Is(sep))])
  }

  lemma {:induction false} SecondPartAt(a: string, sep: char, b: string)
    requires sep !in a && sep !in b
    ensures SecondPart(a + ([sep] + b), sep) == Success(b)
  {
    SpanEndAt(a, Is(sep), [sep] + b);
    SpanEndAt(b, Is(sep), []);
    assert (a + ([sep] + b))[|a| + 1..] == b && b + [] == b && b[..|b|] == b;
  }

  /** It is the second of the parts, and missing when there is only one. */
  lemma {:induction false} SecondPartExactly(s: string, sep: char)
    ensures SecondPart(s, sep) ==
      if |Split(s, sep)| < 2 then Failure("list index out of range") else Success(Split(s, sep)[1])
  {
    var n := SpanEnd(s, Is(sep));
    SplitNext(s, sep);
    if n < |s| {
      SplitNext(s[n + 1..], sep);
    }
  }

  lemma {:induction false} SplitFirst(a: string, sep: char, b: string)
    requires sep !in a
    ensures Split(a + ([sep] + b), sep) == [a] + Split(b, sep)
  {
    SpanEndAt(a, Is(sep), [sep] + b);
    Parts(a, sep, b);
  }

  lemma {:induction false} SplitWhole(s: string, sep: char)
    requires sep !in s
    ensures Split(s, sep) == [s]
  {
    SpanEndAt(s, Is(sep), []);
    assert s + [] == s;
  }
}
