/**
 What a recorded file decodes to, in terms of the values that were recorded; and that a file cut
 short is not decoded at all.
 */
module BinaryValues {
  import opened Wrappers
  import opened Text
  import opened BinaryOutput

  // ---------- stored integers ----------

  /** Two bytes, the low one first; the top bit is the sign. */
  function Int16(b: Bytes): int
    requires |b| == 2
  {
    var lo: int, hi: int := b[0], b[1];
    lo + 0x100 * hi - if hi >= 0x80 then 0x1_0000 else 0
  }

  function Int32(b: Bytes): int
    requires |b| == 4
  {
    var b0: int, b1: int, b2: int, b3: int := b[0], b[1], b[2], b[3];
    b0 + 0x100 * b1 + 0x1_0000 * b2 + 0x100_0000 * b3 - if b3 >= 0x80 then 0x1_0000_0000 else 0
  }

  lemma SignedTwo(b: Bytes)
    requires |b| == 2
    ensures Signed(b) == Int16(b)
  {
    assert Unsigned(b) == b[0] + 256 * Unsigned(b[1..]);
    assert Unsigned(b[1..]) == b[1] + 256 * Unsigned(b[2..]);
    assert Power256(2) == 256 * (256 * Power256(0));
  }

  lemma SignedFour(b: Bytes)
    requires |b| == 4
    ensures Signed(b) == Int32(b)
  {
    assert Unsigned(b) == b[0] + 256 * Unsigned(b[1..]);
    assert Unsigned(b[1..]) == b[1] + 256 * Unsigned(b[2..]);
    assert Unsigned(b[2..]) == b[2] + 256 * Unsigned(b[3..]);
    assert Unsigned(b[3..]) == b[3] + 256 * Unsigned(b[4..]);
    assert Power256(4) == 256 * (256 * (256 * (256 * Power256(0))));
  }

  // ---------- the table ----------

  /** The decoded file, and where its entries come from. */
  lemma DecodedTable(f: Floats, h: Head, times: seq<Bytes>, data: seq<Bytes>) returns (out: Output)
    requires Formatted(h, times, data)
    ensures Decode(f, Layout(h, times, data)) == Success(out) && out == Assemble(f, h, times, data)
    ensures |out.data| == |out.pack| == h.nt && |out.names| == |out.units| == h.nChan + 1
    ensures forall t :: 0 <= t < h.nt ==> |out.data[t]| == |out.pack[t]| == h.nChan + 1
  {
    DecodeRecovers(f, h, times, data);
    out := Assemble(f, h, times, data);
  }

  /** At most 1/(2*|scl|). */
  predicate WithinStep(e: real, scl: real)
    requires scl != 0.0
  {
    var step := 1.0 / (if scl < 0.0 then -scl else scl);
    -step / 2.0 <= e <= step / 2.0
  }

  lemma EntryWithin(f: Floats, h: Head, stored: Bytes, c: nat, x: real)
    requires h.id != 3 && c < |h.scl| == |h.off| && |stored| == 2
    ensures var scl, off := f.single(h.scl[c]), f.single(h.off[c]);
      && PackEntry(f, h, stored) == Finite(Int16(stored) as real)
      && (scl == 0.0 ==> Entry(f, h, stored, c) == NonFinite)
      && (scl != 0.0 && Nearest(Int16(stored), x, scl, off) ==>
            Entry(f, h, stored, c).Finite? && WithinStep(Entry(f, h, stored, c).x - x, scl))
  {
    SignedTwo(stored);
    var scl, off := f.single(h.scl[c]), f.single(h.off[c]);
    if scl != 0.0 && Nearest(Int16(stored), x, scl, off) {
      QuantisationError(Int16(stored), x, scl, off);
    }
  }

  /** Compressed formats. A value x that was stored as a nearest integer to ColScl[c]*x + ColOff[c] is
      found at (t, c + 1) within half a step, and the stored integer itself in the packed table. */
  lemma ValueDecoded(
      f: Floats, h: Head, times: seq<Bytes>, data: seq<Bytes>, t: nat, c: nat, i: nat, x: real) returns (out: Output)
    requires Formatted(h, times, data) && h.id != 3 && t < h.nt && c < h.nChan && i == t * h.nChan + c
    ensures Decode(f, Layout(h, times, data)) == Success(out)
    ensures i < |data| && |data[i]| == 2
    ensures t < |out.data| && t < |out.pack| && c + 1 < |out.data[t]| && c + 1 < |out.pack[t]|
    ensures out.pack[t][c + 1] == Finite(Int16(data[i]) as real)
    ensures var scl, off := f.single(h.scl[c]), f.single(h.off[c]);
      && (scl == 0.0 ==> out.data[t][c + 1] == NonFinite)
      && (scl != 0.0 && Nearest(Int16(data[i]), x, scl, off) ==>
            out.data[t][c + 1].Finite? && WithinStep(out.data[t][c + 1].x - x, scl))
  {
    out := DecodedTable(f, h, times, data);
    AssembledEntry(f, h, times, data, out, t, c, i);
    EntryWithin(f, h, data[i], c, x);
  }

  /** The uncompressed format holds 8-byte floats, which both tables take over. */
  lemma FloatDecoded(f: Floats, h: Head, times: seq<Bytes>, data: seq<Bytes>, t: nat, c: nat, i: nat)
    returns (out: Output)
    requires Formatted(h, times, data) && h.id == 3 && t < h.nt && c < h.nChan && i == t * h.nChan + c
    ensures Decode(f, Layout(h, times, data)) == Success(out)
    ensures i < |data| && |data[i]| == 8
    ensures t < |out.data| && t < |out.pack| && c + 1 < |out.data[t]| && c + 1 < |out.pack[t]|
    ensures out.data[t][c + 1] == out.pack[t][c + 1] == Finite(f.double(data[i]))
  {
    out := DecodedTable(f, h, times, data);
    AssembledEntry(f, h, times, data, out, t, c, i);
  }

  /** With stored times the number whose scaled value is the stored one, and else the first time plus t
      increments. */
  ghost predicate IsTime(f: Floats, h: Head, times: seq<Bytes>, t: nat, x: Num) {
    var a, b := f.double(h.t1), f.double(h.t2);
    if h.id != 1 then x == Finite(a + t as real * b)
    else
      && t < |times| && |times[t]| == 4
      && if a == 0.0 then x == NonFinite else x.Finite? && a * x.x + b == Int32(times[t]) as real
  }

  lemma TimeOf(f: Floats, h: Head, times: seq<Bytes>, t: nat)
    requires h.id == 1 ==> t < |times| && |times[t]| == 4
    ensures IsTime(f, h, times, t, TimeEntry(f, h, times, t))
  {
    if h.id == 1 {
      SignedFour(times[t]);
    }
  }

  /** Column 0 of both tables holds the times. */
  lemma TimeDecoded(f: Floats, h: Head, times: seq<Bytes>, data: seq<Bytes>, t: nat) returns (out: Output, x: Num)
    requires Formatted(h, times, data) && t < h.nt
    ensures Decode(f, Layout(h, times, data)) == Success(out)
    ensures t < |out.data| && t < |out.pack| && out.data[t] != [] && out.pack[t] != []
    ensures out.data[t][0] == x && out.pack[t][0] == x && IsTime(f, h, times, t, x)
  {
    out := DecodedTable(f, h, times, data);
    AssembledTime(f, h, times, data, out, t);
    TimeOf(f, h, times, t);
    x := TimeEntry(f, h, times, t);
  }

  // ---------- the texts ----------

  predicate IsLatin(s: string) {
    forall i :: 0 <= i < |s| ==> s[i] < '\U{100}'
  }

  /** One byte per character. */
  function BytesOf(s: string): (b: Bytes)
    requires IsLatin(s)
    ensures |b| == |s|
  {
    seq(|s|, i requires 0 <= i < |s| => s[i] as byte)
  }

  lemma TextBack(s: string, pad: string, core: string, pad': string)
    requires IsLatin(s) && s == pad + core + pad'
    requires IsBlank(pad) && IsBlank(pad') && IsStripped(core)
    ensures TextOf(BytesOf(s)) == core
  {
    var b := BytesOf(s);
    assert seq(|b|, i requires 0 <= i < |b| => b[i] as char) == s;
    StripExactly(pad, core, pad');
  }

  /** A name padded with blanks is found without them; of a unit its first and last character are taken
      off as well, which are its brackets. */
  lemma TextsDecoded(
      f: Floats, h: Head, times: seq<Bytes>, data: seq<Bytes>, k: nat,
      s: string, pad: string, core: string, pad': string)
    returns (out: Output)
    requires Formatted(h, times, data) && k <= h.nChan
    requires IsLatin(s) && s == pad + core + pad'
    requires IsBlank(pad) && IsBlank(pad') && IsStripped(core)
    ensures Decode(f, Layout(h, times, data)) == Success(out)
    ensures |out.names| == |out.units| == h.nChan + 1
    ensures h.desc == BytesOf(s) ==> out.desc == core
    ensures h.names[k] == BytesOf(s) ==> out.names[k] == core
    ensures h.units[k] == BytesOf(s) ==> out.units[k] == if |core| < 2 then "" else core[1..|core| - 1]
  {
    out := DecodedTable(f, h, times, data);
    TextBack(s, pad, core, pad');
  }

  // ---------- files cut short ----------

  /** What was read from a part of a file is read from the file, and the rest of the file is left. */
  ghost predicate Extends<T>(part: Result<(T, Bytes)>, whole: Result<(T, Bytes)>, more: Bytes) {
    part.Success? ==> whole == Success((part.value.0, part.value.1 + more))
  }

  lemma {:induction false} FreadMore(a: Bytes, b: Bytes, n: nat, width: nat)
    ensures Extends(Fread(a, n, width), Fread(a + b, n, width), b)
  {
    if n > 0 && |a| >= width {
      assert (a + b)[..width] == a[..width] && (a + b)[width..] == a[width..] + b;
      FreadMore(a[width..], b, n - 1, width);
    }
  }

  lemma IntMore(a: Bytes, b: Bytes, width: nat)
    ensures Extends(FreadInt(a, width), FreadInt(a + b, width), b)
  {
    FreadMore(a, b, 1, width);
  }

  lemma BlockMore(a: Bytes, b: Bytes, len: nat)
    ensures Extends(FreadBlock(a, len), FreadBlock(a + b, len), b)
  {
    FreadMore(a, b, len, 1);
  }

  lemma {:induction false} NamesMore(a: Bytes, b: Bytes, count: int, len: nat)
    ensures Extends(FreadNames(a, count, len), FreadNames(a + b, count, len), b)
    decreases if count < 0 then 0 else count
  {
    if count > 0 {
      NamesMore(a, b, count - 1, len);
      var names := FreadNames(a, count - 1, len);
      if names.Success? {
        BlockMore(names.value.1, b, len);
      }
    }
  }

  lemma SizesMore(a: Bytes, b: Bytes)
    ensures Extends(ReadSizes(a), ReadSizes(a + b), b)
  {
    IntMore(a, b, 2);
    var id := FreadInt(a, 2);
    if id.Success? {
      var r1 := id.value.1;
      IntMore(r1, b, 2);
      var lenName := if id.value.0 == CHAN_LEN_IN then FreadInt(r1, 2) else Success((10, r1));
      if lenName.Success? {
        var r2 := lenName.value.1;
        IntMore(r2, b, 4);
        var nChan := FreadInt(r2, 4);
        if nChan.Success? {
          IntMore(nChan.value.1, b, 4);
        }
      }
    }
  }

  lemma ScalesMore(id: int, nChan: nat, a: Bytes, b: Bytes)
    ensures Extends(ReadScales(id, nChan, a), ReadScales(id, nChan, a + b), b)
  {
    FreadMore(a, b, nChan, 4);
    var scl := Fread(a, nChan, 4);
    if scl.Success? {
      FreadMore(scl.value.1, b, nChan, 4);
    }
  }

  lemma TextsMore(nChan: int, lenName: nat, a: Bytes, b: Bytes)
    requires FreadInt(a + b, 4).Success? ==> FreadInt(a + b, 4).value.0 >= 0
    ensures Extends(ReadTexts(nChan, lenName, a), ReadTexts(nChan, lenName, a + b), b)
  {
    IntMore(a, b, 4);
    var lenDesc := FreadInt(a, 4);
    if lenDesc.Success? {
      BlockMore(lenDesc.value.1, b, lenDesc.value.0);
      var desc := FreadBlock(lenDesc.value.1, lenDesc.value.0);
      if desc.Success? {
        var r2 := desc.value.1;
        NamesMore(r2, b, nChan + 1, lenName);
        var names := FreadNames(r2, nChan + 1, lenName);
        if names.Success? {
          NamesMore(names.value.1, b, nChan + 1, lenName);
        }
      }
    }
  }

  lemma SeriesMore(h: Head, a: Bytes, b: Bytes)
    requires h.nt >= 0 && h.nChan >= 0
    ensures Extends(ReadSeries(h, a), ReadSeries(h, a + b), b)
  {
    ProductPositive(h.nt, h.nChan);
    FreadMore(a, b, h.nt, 4);
    var times := if h.id == WITH_TIME then Fread(a, h.nt, 4) else Success(([], a));
    if times.Success? {
      FreadMore(times.value.1, b, h.nt * h.nChan, DataWidth(h.id));
    }
  }

  /** The head read from a part of a formatted file is its head. */
  lemma HeadCut(h: Head, times: seq<Bytes>, data: seq<Bytes>, a: Bytes, b: Bytes)
    requires Formatted(h, times, data) && a + b == Layout(h, times, data) && ReadHead(a).Success?
    ensures ReadHead(a).value.0 == h && ReadHead(a).value.1 + b == SeriesBytes(times, data)
  {
    HeadBack(h, times, data);
    HeadMore(h, times, data, a, b);
  }

  /** The fields from the description on, and those from the slopes on. */
  ghost function TextBytes(h: Head, times: seq<Bytes>, data: seq<Bytes>): Bytes
    requires Formatted(h, times, data)
  {
    FieldRanges(|h.desc|);
    SignedBytes(|h.desc|, 4) + (h.desc + (Joined(h.names) + (Joined(h.units) + SeriesBytes(times, data))))
  }

  lemma TextPartMore(h: Head, times: seq<Bytes>, data: seq<Bytes>, a: Bytes, b: Bytes)
    requires Formatted(h, times, data) && a + b == TextBytes(h, times, data)
    ensures Extends(ReadTexts(h.nChan, h.lenName, a), ReadTexts(h.nChan, h.lenName, a + b), b)
  {
    FieldRanges(|h.desc|);
    FreadIntBack(|h.desc|, 4, h.desc + (Joined(h.names) + (Joined(h.units) + SeriesBytes(times, data))));
    TextsMore(h.nChan, h.lenName, a, b);
  }

  lemma ScalePartMore(h: Head, times: seq<Bytes>, data: seq<Bytes>, a: Bytes, b: Bytes)
    requires Formatted(h, times, data)
    requires a + b == Joined(h.scl) + (Joined(h.off) + TextBytes(h, times, data))
    ensures Extends(ReadScales(h.id, h.nChan, a), ReadScales(h.id, h.nChan, a + b), b)
    ensures var r := ReadScales(h.id, h.nChan, a);
      r.Success? ==> r.value.1 + b == TextBytes(h, times, data)
  {
    ScalesBack(h, times, data, TextBytes(h, times, data));
    ScalesMore(h.id, h.nChan, a, b);
  }

  lemma HeadMore(h: Head, times: seq<Bytes>, data: seq<Bytes>, a: Bytes, b: Bytes)
    requires Formatted(h, times, data) && a + b == Layout(h, times, data)
    ensures Extends(ReadHead(a), ReadHead(a + b), b)
  {
    var r3 := Joined(h.scl) + (Joined(h.off) + TextBytes(h, times, data));
    SizesBack(h, times, data, h.t1 + (h.t2 + r3));
    SizesMore(a, b);
    var sizes := ReadSizes(a);
    if sizes.Success? {
      StampsMore(h.t1, h.t2, r3, sizes.value.1, b);
      var t1 := FreadBlock(sizes.value.1, 8);
      if t1.Success? && FreadBlock(t1.value.1, 8).Success? {
        var a3 := FreadBlock(t1.value.1, 8).value.1;
        ScalePartMore(h, times, data, a3, b);
        var scales := ReadScales(h.id, h.nChan, a3);
        if scales.Success? {
          TextPartMore(h, times, data, scales.value.1, b);
        }
      }
    }
  }

  /** The two time stamps. */
  lemma StampsMore(t1: Bytes, t2: Bytes, rest: Bytes, a: Bytes, b: Bytes)
    requires |t1| == |t2| == 8 && a + b == t1 + (t2 + rest)
    ensures Extends(FreadBlock(a, 8), FreadBlock(a + b, 8), b)
    ensures var r := FreadBlock(a, 8);
      r.Success? ==> Extends(FreadBlock(r.value.1, 8), FreadBlock(r.value.1 + b, 8), b) &&
                     r.value.1 + b == t2 + rest &&
                     (FreadBlock(r.value.1, 8).Success? ==> FreadBlock(r.value.1, 8).value.1 + b == rest)
  {
    BlockMore(a, b, 8);
    FreadBlockBack(t1, t2 + rest);
    var r := FreadBlock(a, 8);
    if r.Success? {
      BlockMore(r.value.1, b, 8);
      FreadBlockBack(t2, rest);
    }
  }

  /** No proper part of a formatted file is decoded: every byte is needed. */
  lemma {:induction false} CutFileRejected(f: Floats, h: Head, times: seq<Bytes>, data: seq<Bytes>, a: Bytes, b: Bytes)
    requires Formatted(h, times, data) && a + b == Layout(h, times, data) && b != []
    ensures Decode(f, a).Failure?
  {
    if Decode(f, a).Success? {
      HeadCut(h, times, data, a, b);
      SeriesMore(h, ReadHead(a).value.1, b);
      SeriesBack(h, times, data);
      assert false;
    }
  }
}
