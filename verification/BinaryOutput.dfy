/**
 load_binary_output: the four binary output formats, decoded byte by byte. Integers are
 little-endian two's complement; what real number a stored float stands for is a parameter.
 */
module BinaryOutput {
  import opened Wrappers
  import opened Text

  type byte = b: int | 0 <= b < 256
  type Bytes = seq<byte>

  /** The values of 4-byte and 8-byte floats. */
  datatype Floats = Floats(single: Bytes -> real, double: Bytes -> real)

  /** A computed number; dividing by a zero slope yields no finite one. */
  datatype Num = Finite(x: real) | NonFinite

  const WITH_TIME := 1
  const WITHOUT_TIME := 2
  const NO_COMPRESS := 3
  const CHAN_LEN_IN := 4

  // ---------- integers ----------

  /** Unsigned little-endian value. */
  function Unsigned(bs: Bytes): nat {
    if bs == [] then 0 else bs[0] + 256 * Unsigned(bs[1..])
  }

  function Power256(n: nat): (p: nat)
    ensures p > 0
  {
    if n == 0 then 1 else 256 * Power256(n - 1)
  }

  function Signed(bs: Bytes): int {
    var u := Unsigned(bs);
    if 2 * u < Power256(|bs|) then u else u - Power256(|bs|)
  }

  function UnsignedBytes(u: nat, n: nat): (bs: Bytes)
    ensures |bs| == n
  {
    if n == 0 then [] else [u % 256] + UnsignedBytes(u / 256, n - 1)
  }

  predicate InRange(v: int, n: nat) {
    0 <= 2 * v + Power256(n) && 2 * v < Power256(n)
  }

  function SignedBytes(v: int, n: nat): (bs: Bytes)
    requires InRange(v, n)
    ensures |bs| == n
  {
    UnsignedBytes(if v < 0 then v + Power256(n) else v, n)
  }

  lemma {:induction false} UnsignedRoundTrip(u: nat, n: nat)
    requires u < Power256(n)
    ensures Unsigned(UnsignedBytes(u, n)) == u
  {
    if n > 0 {
      UnsignedRoundTrip(u / 256, n - 1);
      assert UnsignedBytes(u, n)[1..] == UnsignedBytes(u / 256, n - 1);
    }
  }

  lemma {:induction false} SignedRoundTrip(v: int, n: nat)
    requires InRange(v, n)
    ensures Signed(SignedBytes(v, n)) == v
  {
    UnsignedRoundTrip(if v < 0 then v + Power256(n) else v, n);
  }

  // ---------- reading ----------

  /** struct.unpack(fmt * n, fid.read(width * n)) on what is left of the file: n items and the rest.
      A negative count reads everything and then unpacks nothing, which fails unless nothing is left. */
  function Fread(rest: Bytes, n: int, width: nat): (r: Result<(seq<Bytes>, Bytes)>)
    ensures r.Success? && n >= 0 ==> |r.value.0| == n
    decreases if n < 0 then 0 else n
  {
    if n < 0 then
      if rest == [] then Success(([], [])) else Failure("unpack requires a buffer of 0 bytes")
    else if n == 0 then Success(([], rest))
    else if |rest| < width then Failure("unpack requires more bytes")
    else
      var (items, rest') :- Fread(rest[width..], n - 1, width);
      Success(([rest[..width]] + items, rest'))
  }

  function FreadInt(rest: Bytes, width: nat): Result<(int, Bytes)> {
    var (items, rest') :- Fread(rest, 1, width);
    if items == [] then Failure("no item") else Success((Signed(items[0]), rest'))
  }

  /** len characters. */
  function FreadBlock(rest: Bytes, len: int): Result<(Bytes, Bytes)> {
    var (chars, rest') :- Fread(rest, len, 1);
    Success((Joined(chars), rest'))
  }

  /** A block of characters per name; a count below zero is no name. */
  function FreadNames(rest: Bytes, count: int, len: int): (r: Result<(seq<Bytes>, Bytes)>)
    decreases if count < 0 then 0 else count
  {
    if count <= 0 then Success(([], rest))
    else
      var (names, rest1) :- FreadNames(rest, count - 1, len);
      var (block, rest2) :- FreadBlock(rest1, len);
      Success((names + [block], rest2))
  }

  function Joined(items: seq<Bytes>): Bytes {
    if items == [] then [] else items[0] + Joined(items[1..])
  }

  /** "".join(map(chr, ...)).strip() */
  function TextOf(bs: Bytes): string {
    Strip(seq(|bs|, i requires 0 <= i < |bs| => bs[i] as char))
  }

  /** The text without its first and last character. */
  function Inner(s: string): string {
    if |s| < 2 then "" else s[1..|s| - 1]
  }

  datatype Head = Head(
    id: int, lenName: int, nChan: int, nt: int, t1: Bytes, t2: Bytes,
    scl: seq<Bytes>, off: seq<Bytes>, desc: Bytes, names: seq<Bytes>, units: seq<Bytes>)

  /** FileID, LenName, NumOutChans and NT. */
  function ReadSizes(file: Bytes): Result<((int, int, int, int), Bytes)> {
    var (id, r1) :- FreadInt(file, 2);
    var (lenName, r2) :- if id == CHAN_LEN_IN then FreadInt(r1, 2) else Success((10, r1));
    var (nChan, r3) :- FreadInt(r2, 4);
    var (nt, r4) :- FreadInt(r3, 4);
    Success(((id, lenName, nChan, nt), r4))
  }

  function ReadScales(id: int, nChan: int, rest: Bytes): (r: Result<((seq<Bytes>, seq<Bytes>), Bytes)>)
    ensures r.Success? && id != NO_COMPRESS && nChan >= 0 ==> |r.value.0.0| == |r.value.0.1| == nChan
  {
    if id == NO_COMPRESS then Success((([], []), rest)) else
    var (scl, r1) :- Fread(rest, nChan, 4);
    var (off, r2) :- Fread(r1, nChan, 4);
    Success(((scl, off), r2))
  }

  /** Description, names and units. */
  function ReadTexts(nChan: int, lenName: int, rest: Bytes): Result<((Bytes, seq<Bytes>, seq<Bytes>), Bytes)> {
    var (lenDesc, r1) :- FreadInt(rest, 4);
    var (desc, r2) :- FreadBlock(r1, lenDesc);
    var (names, r3) :- FreadNames(r2, nChan + 1, lenName);
    var (units, r4) :- FreadNames(r3, nChan + 1, lenName);
    Success(((desc, names, units), r4))
  }

  function ReadHead(file: Bytes): (r: Result<(Head, Bytes)>)
    ensures r.Success? && r.value.0.id != NO_COMPRESS && r.value.0.nChan >= 0 ==>
      |r.value.0.scl| == |r.value.0.off| == r.value.0.nChan
  {
    var (sizes, r1) :- ReadSizes(file);
    var (t1, r2) :- FreadBlock(r1, 8);
    var (t2, r3) :- FreadBlock(r2, 8);
    var (scales, r4) :- ReadScales(sizes.0, sizes.2, r3);
    var (texts, r5) :- ReadTexts(sizes.2, sizes.1, r4);
    Success((Head(sizes.0, sizes.1, sizes.2, sizes.3, t1, t2, scales.0, scales.1, texts.0, texts.1, texts.2), r5))
  }

  function DataWidth(id: int): nat {
    if id == NO_COMPRESS then 8 else 2
  }

  /** The packed time stamps and the packed channel values, row by row. */
  function ReadSeries(h: Head, rest: Bytes): (r: Result<((seq<Bytes>, seq<Bytes>), Bytes)>)
    ensures r.Success? && h.nt >= 0 && h.id == WITH_TIME ==> |r.value.0.0| == h.nt
    ensures r.Success? && h.nt * h.nChan >= 0 ==> |r.value.0.1| == h.nt * h.nChan
  {
    var (times, r1) :- if h.id == WITH_TIME then Fread(rest, h.nt, 4) else Success(([], rest));
    var (data, r2) :- Fread(r1, h.nt * h.nChan, DataWidth(h.id));
    Success(((times, data), r2))
  }

  // ---------- computing ----------

  function Scaled(p: int, scl: real, off: real): Num {
    if scl == 0.0 then NonFinite else Finite((p as real - off) / scl)
  }

  /** Row t of an array reshaped to nt rows of n items. */
  function RowOf(items: seq<Bytes>, t: nat, nt: nat, n: nat): (row: seq<Bytes>)
    requires t < nt && |items| == nt * n
    ensures |row| == n
  {
    RowBounds(t, nt, n);
    items[t * n..(t + 1) * n]
  }

  lemma RowBounds(t: nat, nt: nat, n: nat)
    requires t < nt
    ensures 0 <= t * n <= (t + 1) * n <= nt * n && (t + 1) * n - t * n == n
  {
    assert (t + 1) * n == t * n + n;
  }

  /** One computed value: (pack - ColOff) / ColScl with the channel's own offset and slope; format 3 is
      taken as it is stored. */
  function Entry(f: Floats, h: Head, stored: Bytes, c: nat): Num
    requires h.id != NO_COMPRESS ==> c < |h.scl| == |h.off|
  {
    if h.id == NO_COMPRESS then Finite(f.double(stored))
    else Scaled(Signed(stored), f.single(h.scl[c]), f.single(h.off[c]))
  }

  /** One stored value as a number. */
  function PackEntry(f: Floats, h: Head, stored: Bytes): Num {
    Finite(if h.id == NO_COMPRESS then f.double(stored) else Signed(stored) as real)
  }

  function TimeEntry(f: Floats, h: Head, times: seq<Bytes>, t: nat): Num
    requires h.id == WITH_TIME ==> t < |times|
  {
    if h.id == WITH_TIME then Scaled(Signed(times[t]), f.double(h.t1), f.double(h.t2))
    else Finite(f.double(h.t1) + f.double(h.t2) * t as real)
  }

  function DataRow(f: Floats, h: Head, row: seq<Bytes>): (r: seq<Num>)
    requires h.id != NO_COMPRESS ==> |row| == |h.scl| == |h.off|
    ensures |r| == |row|
  {
    seq(|row|, c requires 0 <= c < |row| => Entry(f, h, row[c], c))
  }

  function PackRow(f: Floats, h: Head, row: seq<Bytes>): (r: seq<Num>)
    ensures |r| == |row|
  {
    seq(|row|, c requires 0 <= c < |row| => PackEntry(f, h, row[c]))
  }

  datatype Output = Output(
    desc: string, names: seq<string>, units: seq<string>, data: seq<seq<Num>>, pack: seq<seq<Num>>)

  function Texts(blocks: seq<Bytes>): seq<string> {
    seq(|blocks|, i requires 0 <= i < |blocks| => TextOf(blocks[i]))
  }

  function Units(blocks: seq<Bytes>): seq<string> {
    seq(|blocks|, i requires 0 <= i < |blocks| => Inner(TextOf(blocks[i])))
  }

  function Assemble(f: Floats, h: Head, times: seq<Bytes>, data: seq<Bytes>): Output
    requires h.nt >= 0 && h.nChan >= 0 && |data| == h.nt * h.nChan
    requires h.id == WITH_TIME ==> |times| == h.nt
    requires h.id != NO_COMPRESS ==> |h.scl| == |h.off| == h.nChan
  {
    var rows := seq(h.nt, t requires 0 <= t < h.nt => RowOf(data, t, h.nt, h.nChan));
    Output(
      TextOf(h.desc), Texts(h.names), Units(h.units),
      seq(h.nt, t requires 0 <= t < h.nt => [TimeEntry(f, h, times, t)] + DataRow(f, h, rows[t])),
      seq(h.nt, t requires 0 <= t < h.nt => [TimeEntry(f, h, times, t)] + PackRow(f, h, rows[t])))
  }

  lemma ProductPositive(a: nat, b: nat)
    ensures a * b >= 0 && (a * b > 0 ==> b > 0)
  {
  }

  /** load_binary_output. Negative sizes end in an array that cannot be reshaped. */
  function Decode(f: Floats, file: Bytes): Result<Output> {
    var (h, rest) :- ReadHead(file);
    var (series, behind) :- ReadSeries(h, rest);
    if h.nt < 0 || h.nChan < 0 then Failure("cannot reshape array")
    else
      ProductPositive(h.nt, h.nChan);
      Success(Assemble(f, h, series.0, series.1))
  }

  // ---------- reading as the program does it ----------

  /** The outcome of a method that reads, against what the specification reads. */
  ghost predicate Follows<T>(s: Result<(T, Bytes)>, r: Result<T>, rest: Bytes) {
    if s.Success? then r == Success(s.value.0) && rest == s.value.1 else r == Failure(s.reason)
  }

  /** The items cut off so far, in front of what is still to be read. */
  ghost function Behind(items: seq<Bytes>, r: Result<(seq<Bytes>, Bytes)>): Result<(seq<Bytes>, Bytes)> {
    if r.Failure? then r else Success((items + r.value.0, r.value.1))
  }

  lemma BehindNothing(r: Result<(seq<Bytes>, Bytes)>)
    ensures Behind([], r) == r
  {
    if r.Success? {
      assert [] + r.value.0 == r.value.0;
    }
  }

  lemma BehindNext(items: seq<Bytes>, item: Bytes, r: Result<(seq<Bytes>, Bytes)>)
    ensures Behind(items, Behind([item], r)) == Behind(items + [item], r)
  {
    if r.Success? {
      assert items + ([item] + r.value.0) == items + [item] + r.value.0;
    }
  }

  lemma BufferSize(n: int, width: nat)
    requires width > 0
    ensures n < 0 <==> n * width < 0
  {
  }

  lemma FirstItem(buffer: Bytes, rest: Bytes, n: nat, width: nat)
    requires n > 0 && |buffer| == n * width
    ensures width <= |buffer| && |buffer[width..]| == (n - 1) * width
    ensures Fread(buffer + rest, n, width) == Behind([buffer[..width]], Fread(buffer[width..] + rest, n - 1, width))
  {
    assert (n - 1) * width == n * width - width && (n - 1) * width >= 0;
    assert (buffer + rest)[..width] == buffer[..width];
    assert (buffer + rest)[width..] == buffer[width..] + rest;
  }

  lemma {:induction false} ShortBuffer(buffer: Bytes, n: nat, width: nat)
    requires |buffer| < n * width
    ensures Fread(buffer, n, width) == Failure("unpack requires more bytes")
  {
    if n > 0 && |buffer| >= width {
      assert (n - 1) * width == n * width - width;
      ShortBuffer(buffer[width..], n - 1, width);
    }
  }

  class OutputFile {
    var rest: Bytes  // what has not been read yet

    constructor (file: Bytes)
      ensures rest == file
    {
      rest := file;
    }

    /** fid.read: as many bytes as there are left, and all of them when the count is negative. */
    method Read(count: int) returns (data: Bytes)
      modifies this
      ensures data + rest == old(rest)
      ensures |data| == if 0 <= count <= |old(rest)| then count else |old(rest)|
    {
      var n := if 0 <= count <= |rest| then count else |rest|;
      data := rest[..n];
      rest := rest[n..];
    }

    /** fread: reads the bytes of n items and cuts them up, which struct.unpack does only if the
        buffer has exactly their size. */
    method FreadItems(n: int, width: nat) returns (r: Result<seq<Bytes>>)
      requires width > 0
      modifies this
      ensures Follows(Fread(old(rest), n, width), r, rest)
    {
      BufferSize(n, width);
      var buffer := Read(n * width);
      if n < 0 {
        return if buffer == [] then Success([]) else Failure("unpack requires a buffer of 0 bytes");
      }
      if |buffer| != n * width {
        ShortBuffer(buffer, n, width);
        assert rest == [] && buffer + [] == buffer;
        return Failure("unpack requires more bytes");
      }
      var items: seq<Bytes> := [];
      var k := 0;
      BehindNothing(Fread(buffer + rest, n, width));
      while k < n
        invariant 0 <= k <= n && |buffer| == (n - k) * width
        invariant Fread(old(rest), n, width) == Behind(items, Fread(buffer + rest, n - k, width))
      {
        FirstItem(buffer, rest, n - k, width);
        BehindNext(items, buffer[..width], Fread(buffer[width..] + rest, n - k - 1, width));
        items := items + [buffer[..width]];
        buffer := buffer[width..];
        k := k + 1;
      }
      assert |buffer| == 0 && buffer + rest == rest;
      assert items + [] == items;
      return Success(items);
    }

    /** fread(fid, 1, ...)[0] of an integer. */
    method FreadOne(width: nat) returns (r: Result<int>)
      requires width > 0
      modifies this
      ensures Follows(FreadInt(old(rest), width), r, rest)
    {
      var items :- FreadItems(1, width);
      return Success(Signed(items[0]));
    }

    /** The characters of one text. */
    method FreadText(len: int) returns (r: Result<Bytes>)
      modifies this
      ensures Follows(FreadBlock(old(rest), len), r, rest)
    {
      var chars :- FreadItems(len, 1);
      return Success(Joined(chars));
    }

    /** The loop over iChan that collects names or units. */
    method FreadBlocks(count: int, len: int) returns (r: Result<seq<Bytes>>)
      modifies this
      ensures Follows(FreadNames(old(rest), count, len), r, rest)
    {
      var blocks: seq<Bytes> := [];
      var iChan := 0;
      ghost var start := rest;
      while iChan < count
        invariant 0 <= iChan && (if count >= 0 then iChan <= count else iChan == 0)
        invariant FreadNames(start, iChan, len) == Success((blocks, rest))
      {
        var block := FreadText(len);
        if block.Failure? {
          NamesFailEarly(start, iChan + 1, count, len);
          return Failure(block.reason);
        }
        blocks := blocks + [block.value];
        iChan := iChan + 1;
      }
      assert FreadNames(start, count, len) == FreadNames(start, iChan, len);
      return Success(blocks);
    }

    method LoadSizes() returns (r: Result<(int, int, int, int)>)
      modifies this
      ensures Follows(ReadSizes(old(rest)), r, rest)
    {
      var id :- FreadOne(2);
      var lenName := 10;
      if id == CHAN_LEN_IN {
        lenName :- FreadOne(2);
      }
      var nChan :- FreadOne(4);
      var nt :- FreadOne(4);
      return Success((id, lenName, nChan, nt));
    }

    method LoadScales(id: int, nChan: int) returns (r: Result<(seq<Bytes>, seq<Bytes>)>)
      modifies this
      ensures Follows(ReadScales(id, nChan, old(rest)), r, rest)
    {
      if id == NO_COMPRESS {
        return Success(([], []));
      }
      var scl :- FreadItems(nChan, 4);
      var off :- FreadItems(nChan, 4);
      return Success((scl, off));
    }

    method LoadTexts(nChan: int, lenName: int) returns (r: Result<(Bytes, seq<Bytes>, seq<Bytes>)>)
      modifies this
      ensures Follows(ReadTexts(nChan, lenName, old(rest)), r, rest)
    {
      var lenDesc :- FreadOne(4);
      var desc :- FreadText(lenDesc);
      var names :- FreadBlocks(nChan + 1, lenName);
      var units :- FreadBlocks(nChan + 1, lenName);
      return Success((desc, names, units));
    }

    method LoadHead() returns (r: Result<Head>)
      modifies this
      ensures Follows(ReadHead(old(rest)), r, rest)
    {
      var sizes :- LoadSizes();
      var t1 :- FreadText(8);
      var t2 :- FreadText(8);
      var scales :- LoadScales(sizes.0, sizes.2);
      var texts :- LoadTexts(sizes.2, sizes.1);
      return Success(Head(sizes.0, sizes.1, sizes.2, sizes.3, t1, t2, scales.0, scales.1, texts.0, texts.1, texts.2));
    }

    method LoadSeries(h: Head) returns (r: Result<(seq<Bytes>, seq<Bytes>)>)
      modifies this
      ensures Follows(ReadSeries(h, old(rest)), r, rest)
    {
      var times: seq<Bytes> := [];
      if h.id == WITH_TIME {
        times :- FreadItems(h.nt, 4);
      }
      var data :- FreadItems(h.nt * h.nChan, DataWidth(h.id));
      return Success((times, data));
    }

    method Load(f: Floats) returns (r: Result<Output>)
      modifies this
      ensures r == Decode(f, old(rest))
    {
      var h :- LoadHead();
      var series :- LoadSeries(h);
      if h.nt < 0 || h.nChan < 0 {
        return Failure("cannot reshape array");
      }
      ProductPositive(h.nt, h.nChan);
      return Success(Assemble(f, h, series.0, series.1));
    }
  }

  lemma {:induction false} NamesFailEarly(rest: Bytes, k: int, count: int, len: int)
    requires 0 <= k <= count && FreadNames(rest, k, len).Failure?
    ensures FreadNames(rest, count, len) == FreadNames(rest, k, len)
    decreases count
  {
    if k < count {
      NamesFailEarly(rest, k, count - 1, len);
    }
  }

  // ---------- the layout of a file ----------

  /** Every item takes that many bytes. */
  predicate Sized(items: seq<Bytes>, width: nat) {
    forall i :: 0 <= i < |items| ==> |items[i]| == width
  }

  /** A head as the format requires it, with the time stamps and the channel values. A format other than
      1, 3 and 4 is laid out as format 2 is. */
  ghost predicate Formatted(h: Head, times: seq<Bytes>, data: seq<Bytes>) {
    && -0x8000 <= h.id < 0x8000
    && (if h.id == 4 then 0 <= h.lenName < 0x8000 else h.lenName == 10)
    && 0 <= h.nChan < 0x8000_0000 && 0 <= h.nt < 0x8000_0000 && |h.desc| < 0x8000_0000
    && |h.t1| == |h.t2| == 8
    && (if h.id == 3 then h.scl == h.off == [] else |h.scl| == |h.off| == h.nChan)
    && Sized(h.scl, 4) && Sized(h.off, 4)
    && |h.names| == |h.units| == h.nChan + 1 && Sized(h.names, h.lenName) && Sized(h.units, h.lenName)
    && (if h.id == 1 then |times| == h.nt else times == []) && Sized(times, 4)
    && |data| == h.nt * h.nChan && Sized(data, if h.id == 3 then 8 else 2)
  }

  lemma FieldRanges(v: int)
    ensures -0x8000 <= v < 0x8000 ==> InRange(v, 2)
    ensures 0 <= v < 0x8000_0000 ==> InRange(v, 4)
  {
    assert Power256(2) == 256 * (256 * Power256(0));
    assert Power256(4) == 256 * (256 * Power256(2));
  }

  ghost function SeriesBytes(times: seq<Bytes>, data: seq<Bytes>): Bytes {
    Joined(times) + Joined(data)
  }

  /** The file of a given content; every field follows the one before it. */
  ghost function Layout(h: Head, times: seq<Bytes>, data: seq<Bytes>): Bytes
    requires Formatted(h, times, data)
  {
    FieldRanges(h.id);
    FieldRanges(h.lenName);
    FieldRanges(h.nChan);
    FieldRanges(h.nt);
    FieldRanges(|h.desc|);
    SignedBytes(h.id, 2) + ((if h.id == 4 then SignedBytes(h.lenName, 2) else []) +
    (SignedBytes(h.nChan, 4) + (SignedBytes(h.nt, 4) + (h.t1 + (h.t2 +
    (Joined(h.scl) + (Joined(h.off) + (SignedBytes(|h.desc|, 4) + (h.desc +
    (Joined(h.names) + (Joined(h.units) + SeriesBytes(times, data))))))))))))
  }

  lemma Regroup(a: Bytes, b: Bytes, c: Bytes)
    ensures a + b + c == a + (b + c)
  {
  }

  lemma Front(a: Bytes, b: Bytes)
    ensures (a + b)[..|a|] == a && (a + b)[|a|..] == b
  {
  }

  lemma {:induction false} FreadJoined(items: seq<Bytes>, width: nat, rest: Bytes)
    requires Sized(items, width)
    ensures Fread(Joined(items) + rest, |items|, width) == Success((items, rest))
  {
    if items == [] {
      assert Joined(items) + rest == rest;
    } else {
      var more := Joined(items[1..]) + rest;
      Regroup(items[0], Joined(items[1..]), rest);
      Front(items[0], more);
      FreadJoined(items[1..], width, rest);
      assert items == [items[0]] + items[1..];
    }
  }

  lemma {:induction false} FreadBlockBack(block: Bytes, rest: Bytes)
    ensures FreadBlock(block + rest, |block|) == Success((block, rest))
  {
    var chars := seq(|block|, i requires 0 <= i < |block| => [block[i]]);
    JoinedSingles(block);
    FreadJoined(chars, 1, rest);
  }

  lemma {:induction false} JoinedSingles(block: Bytes)
    ensures Joined(seq(|block|, i requires 0 <= i < |block| => [block[i]])) == block
  {
    var chars := seq(|block|, i requires 0 <= i < |block| => [block[i]]);
    if block != [] {
      JoinedSingles(block[1..]);
      assert chars[1..] == seq(|block[1..]|, i requires 0 <= i < |block[1..]| => [block[1..][i]]);
    }
  }

  lemma {:induction false} FreadIntBack(v: int, width: nat, rest: Bytes)
    requires InRange(v, width)
    ensures FreadInt(SignedBytes(v, width) + rest, width) == Success((v, rest))
  {
    var bs := SignedBytes(v, width);
    FreadJoined([bs], width, rest);
    assert Joined([bs]) == bs;
    SignedRoundTrip(v, width);
  }

  lemma {:induction false} JoinedSplit(items: seq<Bytes>)
    requires items != []
    ensures Joined(items) == Joined(items[..|items| - 1]) + items[|items| - 1]
  {
    if |items| > 1 {
      JoinedSplit(items[1..]);
      assert items[1..][..|items| - 2] == items[..|items| - 1][1..];
      Regroup(items[0], Joined(items[..|items| - 1][1..]), items[|items| - 1]);
    }
  }

  lemma {:induction false} FreadNamesBack(names: seq<Bytes>, len: nat, rest: Bytes)
    requires Sized(names, len)
    ensures FreadNames(Joined(names) + rest, |names|, len) == Success((names, rest))
  {
    if names == [] {
      assert Joined(names) + rest == rest;
    } else {
      var n := |names| - 1;
      JoinedSplit(names);
      Regroup(Joined(names[..n]), names[n], rest);
      FreadNamesBack(names[..n], len, names[n] + rest);
      FreadBlockBack(names[n], rest);
      assert names == names[..n] + [names[n]];
    }
  }

  lemma {:induction false} SizesBack(h: Head, times: seq<Bytes>, data: seq<Bytes>, rest: Bytes)
    requires Formatted(h, times, data)
    ensures InRange(h.id, 2) && InRange(h.lenName, 2) && InRange(h.nChan, 4) && InRange(h.nt, 4)
    ensures ReadSizes(SignedBytes(h.id, 2) + ((if h.id == CHAN_LEN_IN then SignedBytes(h.lenName, 2) else []) +
                      (SignedBytes(h.nChan, 4) + (SignedBytes(h.nt, 4) + rest)))) ==
            Success(((h.id, h.lenName, h.nChan, h.nt), rest))
  {
    FieldRanges(h.id);
    FieldRanges(h.lenName);
    FieldRanges(h.nChan);
    FieldRanges(h.nt);
    var r2 := SignedBytes(h.nChan, 4) + (SignedBytes(h.nt, 4) + rest);
    var r1 := (if h.id == CHAN_LEN_IN then SignedBytes(h.lenName, 2) else []) + r2;
    FreadIntBack(h.id, 2, r1);
    if h.id == CHAN_LEN_IN {
      FreadIntBack(h.lenName, 2, r2);
    } else {
      assert r1 == r2;
    }
    FreadIntBack(h.nChan, 4, SignedBytes(h.nt, 4) + rest);
    FreadIntBack(h.nt, 4, rest);
  }

  lemma {:induction false} ScalesBack(h: Head, times: seq<Bytes>, data: seq<Bytes>, rest: Bytes)
    requires Formatted(h, times, data)
    ensures ReadScales(h.id, h.nChan, Joined(h.scl) + (Joined(h.off) + rest)) == Success(((h.scl, h.off), rest))
  {
    if h.id == NO_COMPRESS {
      assert Joined(h.scl) + (Joined(h.off) + rest) == rest;
    } else {
      FreadJoined(h.scl, 4, Joined(h.off) + rest);
      FreadJoined(h.off, 4, rest);
    }
  }

  lemma {:induction false} TextsBack(h: Head, times: seq<Bytes>, data: seq<Bytes>, rest: Bytes)
    requires Formatted(h, times, data)
    ensures InRange(|h.desc|, 4)
    ensures ReadTexts(h.nChan, h.lenName,
              SignedBytes(|h.desc|, 4) + (h.desc + (Joined(h.names) + (Joined(h.units) + rest)))) ==
            Success(((h.desc, h.names, h.units), rest))
  {
    FieldRanges(|h.desc|);
    FreadIntBack(|h.desc|, 4, h.desc + (Joined(h.names) + (Joined(h.units) + rest)));
    FreadBlockBack(h.desc, Joined(h.names) + (Joined(h.units) + rest));
    FreadNamesBack(h.names, h.lenName, Joined(h.units) + rest);
    FreadNamesBack(h.units, h.lenName, rest);
  }

  lemma {:induction false} HeadBack(h: Head, times: seq<Bytes>, data: seq<Bytes>)
    requires Formatted(h, times, data)
    ensures ReadHead(Layout(h, times, data)) == Success((h, SeriesBytes(times, data)))
  {
    var r5 := SeriesBytes(times, data);
    TextsBack(h, times, data, r5);
    var r4 := SignedBytes(|h.desc|, 4) + (h.desc + (Joined(h.names) + (Joined(h.units) + r5)));
    ScalesBack(h, times, data, r4);
    var r3 := Joined(h.scl) + (Joined(h.off) + r4);
    FreadBlockBack(h.t2, r3);
    FreadBlockBack(h.t1, h.t2 + r3);
    SizesBack(h, times, data, h.t1 + (h.t2 + r3));
  }

  /** For every format, every number of channels and time steps and every name length: decoding a file
      laid out as the format requires recovers all fields and uses up exactly its bytes. */
  lemma {:induction false} DecodeRecovers(f: Floats, h: Head, times: seq<Bytes>, data: seq<Bytes>)
    requires Formatted(h, times, data)
    ensures ReadHead(Layout(h, times, data)) == Success((h, SeriesBytes(times, data)))
    ensures ReadSeries(h, SeriesBytes(times, data)) == Success(((times, data), []))
    ensures Decode(f, Layout(h, times, data)) == Success(Assemble(f, h, times, data))
  {
    HeadBack(h, times, data);
    SeriesBack(h, times, data);
    ProductPositive(h.nt, h.nChan);
  }

  lemma {:induction false} SeriesBack(h: Head, times: seq<Bytes>, data: seq<Bytes>)
    requires Formatted(h, times, data)
    ensures ReadSeries(h, SeriesBytes(times, data)) == Success(((times, data), []))
  {
    FreadJoined(data, DataWidth(h.id), []);
    assert Joined(data) + [] == Joined(data);
    if h.id == WITH_TIME {
      FreadJoined(times, 4, Joined(data));
    } else {
      assert Joined(times) + Joined(data) == Joined(data);
    }
  }

  // ---------- the table ----------

  lemma RowEntry(items: seq<Bytes>, t: nat, nt: nat, n: nat, c: nat)
    requires t < nt && |items| == nt * n && c < n
    ensures t * n + c < |items| && RowOf(items, t, nt, n)[c] == items[t * n + c]
  {
    RowBounds(t, nt, n);
  }

  /** The decoded table of a formatted file: entry (t, c + 1) comes from stored value i = t*NumOutChans + c
      with the slope and offset of channel c, or is that value in format 3; column 0 holds the times;
      and there are as many names and units as columns. */
  lemma {:induction false} AssembledEntry(
      f: Floats, h: Head, times: seq<Bytes>, data: seq<Bytes>, out: Output, t: nat, c: nat, i: nat)
    requires Formatted(h, times, data) && t < h.nt && c < h.nChan && i == t * h.nChan + c
    requires out == Assemble(f, h, times, data)
    ensures i < |data|
    ensures |out.data| == |out.pack| == h.nt
    ensures |out.data[t]| == |out.pack[t]| == h.nChan + 1 == |out.names| == |out.units|
    ensures out.data[t][c + 1] == Entry(f, h, data[i], c)
    ensures out.pack[t][c + 1] == PackEntry(f, h, data[i])
    ensures out.data[t][0] == out.pack[t][0] == TimeEntry(f, h, times, t)
  {
    RowEntry(data, t, h.nt, h.nChan, c);
  }

  lemma AssembledTime(f: Floats, h: Head, times: seq<Bytes>, data: seq<Bytes>, out: Output, t: nat)
    requires Formatted(h, times, data) && t < h.nt && out == Assemble(f, h, times, data)
    ensures |out.data| == |out.pack| == h.nt && out.data[t] != [] && out.pack[t] != []
    ensures out.data[t][0] == out.pack[t][0] == TimeEntry(f, h, times, t)
  {
  }

  // ---------- quantisation ----------

  /** The stored integer is a nearest one to ColScl*x + ColOff. */
  ghost predicate Nearest(p: int, x: real, scl: real, off: real) {
    -0.5 <= p as real - (scl * x + off) <= 0.5
  }

  /** A decoded value lies within half a step, 1/(2*|ColScl|), of the original one. */
  lemma {:induction false} QuantisationError(p: int, x: real, scl: real, off: real)
    requires scl != 0.0 && Nearest(p, x, scl, off)
    ensures Scaled(p, scl, off).Finite?
    ensures var e := Scaled(p, scl, off).x - x;
      var step := 1.0 / (if scl < 0.0 then -scl else scl);
      -step / 2.0 <= e <= step / 2.0
  {
    var d := Scaled(p, scl, off).x;
    assert d * scl == p as real - off;
    var e := d - x;
    assert e * scl == p as real - (scl * x + off);
    var a := if scl < 0.0 then -scl else scl;
    var step := 1.0 / a;
    assert step * a == 1.0;
    assert -0.5 <= e * a <= 0.5;
    Divide(e, a, step);
  }

  lemma Divide(e: real, a: real, step: real)
    requires a > 0.0 && step * a == 1.0 && -0.5 <= e * a <= 0.5
    ensures -step / 2.0 <= e <= step / 2.0
  {
    assert step > 0.0;
    assert (e * a) * step == e * (a * step) == e;
    Scale(e * a, 0.5, step);
    Scale(-0.5, e * a, step);
  }

  lemma Scale(v: real, w: real, s: real)
    requires v <= w && s > 0.0
    ensures v * s <= w * s
  {
  }

  /** A positive slope keeps the order of the stored values, a negative one reverses it. */
  lemma {:induction false} DecodingKeepsOrder(p: int, q: int, scl: real, off: real)
    requires scl != 0.0
    ensures scl > 0.0 ==> (p <= q <==> Scaled(p, scl, off).x <= Scaled(q, scl, off).x)
    ensures scl < 0.0 ==> (p <= q <==> Scaled(p, scl, off).x >= Scaled(q, scl, off).x)
  {
    var a, b := Scaled(p, scl, off).x, Scaled(q, scl, off).x;
    assert a * scl == p as real - off && b * scl == q as real - off;
    assert (b - a) * scl == (q - p) as real;
  }
}
