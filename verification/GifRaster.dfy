/** The imperative side of the GIF raster: the bit output stream, the LZW table, and getLZWRaster. */
module GifRaster {
  import opened Prelude
  import opened Bits
  import opened Lzw
  import opened RasterLength

  /** The zero bits that complete the last byte of n bits. */
  function Padding(n: nat): seq<bool> {
    seq((8 - n % 8) % 8, _ => false)
  }

  /** bitOutputStream: codes packed into bytes, least significant bit first. */
  class BitOutputStream {
    var out: seq<nat>
    var bitLength: nat
    var bitBuffer: nat

    ghost predicate Valid()
      reads this
    {
      bitLength < 8 && bitBuffer < Pow2(bitLength) && forall b <- out :: b < 256
    }

    /** Every bit written so far. */
    ghost function Contents(): (bits: seq<bool>)
      reads this
      ensures |bits| == 8 * |out| + bitLength
    {
      StreamBits(out) + LsbBits(bitBuffer, bitLength)
    }

    constructor ()
      ensures Valid() && Contents() == []
    {
      out, bitLength, bitBuffer := [], 0, 0;
    }

    /** Appends the length low bits of code; throws, before writing anything, if code is wider. The
        disjoint bits of (data << bitLength) | bitBuffer are added. */
    method Write(code: nat, length: nat) returns (ok: bool)
      requires Valid()
      modifies this
      ensures Valid()
      ensures ok <==> code < Pow2(length)
      ensures Contents() == if ok then old(Contents()) + LsbBits(code, length) else old(Contents())
    {
      hide LsbBits, StreamBits, Shl, Shr;
      ShrIsZero(code, length);
      if Shr(code, length) != 0 {
        return false;
      }
      var data: nat, left: nat := code, length;
      while bitLength + left >= 8
        invariant Valid() && data < Pow2(left)
        invariant Contents() + LsbBits(data, left) == old(Contents()) + LsbBits(code, length)
        decreases bitLength + left
      {
        ByteWritten(out, bitBuffer, bitLength, data, left);
        out := out + [(Shl(data, bitLength) + bitBuffer) % 256];
        ShrBound(data, 8 - bitLength, left);
        data, left := Shr(data, 8 - bitLength), left - (8 - bitLength);
        bitBuffer := 0;
        bitLength := 0;
        assert LsbBits(0, 0) == [];
      }
      LsbBitsOfSum(data, bitLength, bitBuffer, left);
      SumBound(data, left, bitBuffer, bitLength);
      bitBuffer := Shl(data, bitLength) + bitBuffer;
      bitLength := bitLength + left;
      return true;
    }

    /** The last, partly filled byte. */
    method Flush()
      requires Valid()
      modifies this
      ensures StreamBits(out) == old(Contents()) + Padding(|old(Contents())|)
      ensures forall b <- out :: b < 256
    {
      hide LsbBits, StreamBits, Pow2;
      assert |Contents()| % 8 == bitLength;
      if bitLength > 0 {
        LastByte(out, bitBuffer, bitLength);
        out := out + [bitBuffer];
      } else {
        NoBits(bitBuffer);
      }
    }
  }

  lemma {:induction false} SumBound(high: nat, len: nat, low: nat, k: nat)
    requires high < Pow2(len) && low < Pow2(k)
    ensures Shl(high, k) + low < Pow2(k + len)
  {
    if k > 0 {
      SumBound(high, len, low / 2, k - 1);
    }
  }

  lemma ByteWritten(out: seq<nat>, bitBuffer: nat, bitLength: nat, data: nat, left: nat)
    requires bitLength < 8 && bitBuffer < Pow2(bitLength) && bitLength + left >= 8 && data < Pow2(left)
    ensures var rest := 8 - bitLength;
            StreamBits(out + [(Shl(data, bitLength) + bitBuffer) % 256]) + LsbBits(Shr(data, rest), left - rest)
            == StreamBits(out) + LsbBits(bitBuffer, bitLength) + LsbBits(data, left)
  {
    hide LsbBits;
    var rest := 8 - bitLength;
    var sum := Shl(data, bitLength) + bitBuffer;
    LowByte(sum);
    LsbBitsOfSum(data, bitLength, bitBuffer, rest);
    LsbBitsOfShr(data, rest, left);
    assert (out + [sum % 256])[..|out|] == out;
  }

  lemma LastByte(out: seq<nat>, bitBuffer: nat, bitLength: nat)
    requires 0 < bitLength < 8 && bitBuffer < Pow2(bitLength)
    ensures bitBuffer < 256
    ensures StreamBits(out + [bitBuffer]) == StreamBits(out) + LsbBits(bitBuffer, bitLength) + seq(8 - bitLength, _ => false)
  {
    hide LsbBits;
    PadToByte(bitBuffer, bitLength);
    Pow2Monotone(bitLength, 8);
    assert Pow2(8) == 256;
    assert (out + [bitBuffer])[..|out|] == out;
  }

  lemma NoBits(num: nat)
    ensures LsbBits(num, 0) == []
  {
  }

  lemma PadToByte(low: nat, k: nat)
    requires 0 < k < 8 && low < Pow2(k)
    ensures LsbBits(low, 8) == LsbBits(low, k) + seq(8 - k, _ => false)
  {
    LsbBitsOfShr(low, k, 8);
    ShrIsZero(low, k);
    ZeroBits(8 - k);
  }

  lemma {:induction false} ZeroBits(n: nat)
    ensures LsbBits(0, n) == seq(n, _ => false)
  {
    if n > 0 {
      ZeroBits(n - 1);
    }
  }

  /** lzwTable: strings to code numbers, in order of arrival. */
  class LzwTable {
    var entries: map<pixels, nat>
    var size: nat

    /** The table holds exactly the strings of dict, numbered by position. */
    ghost predicate Holds(dict: seq<pixels>)
      reads this
    {
      && size == |dict| && Distinct(dict)
      && (forall i :: 0 <= i < |dict| ==> dict[i] in entries && entries[dict[i]] == i)
      && (forall s <- entries :: entries[s] < |dict| && dict[entries[s]] == s)
    }

    constructor ()
      ensures Holds([])
    {
      entries, size := map[], 0;
    }

    /** Throws for a string that is already there. */
    method Add(key: pixels, ghost dict: seq<pixels>) returns (ok: bool)
      requires Holds(dict)
      modifies this
      ensures ok <==> key !in dict
      ensures Holds(if ok then dict + [key] else dict)
    {
      if key in entries {
        return false;
      }
      entries := entries[key := size];
      size := size + 1;
      return true;
    }
  }

  /** getLZWRaster for lzwMinCodeSize 2, which is all the writer uses. No write and no add throws. */
  method GetLZWRaster(data: pixels) returns (bytes: seq<nat>)
    requires ArePixels(data)
    ensures forall b <- bytes :: b < 256
    ensures StreamBits(bytes) == RasterBits(data) + Padding(|RasterBits(data)|)
  {
    hide Codes, Final, LsbBits, StreamBits, CodeBits, InStep, Encoder.Valid, BitOutputStream.Contents, LzwTable.Holds,
      Padding, RasterBits, ArePixels, Rest, Started;
    var table := InitialTable();
    var bitOut := new BitOutputStream();
    Begin(data);
    var ok := bitOut.Write(CLEAR_CODE, FIRST_WIDTH);
    assert ok;
    var s, width;
    ghost var e;
    s, width, e := EncodePixels(table, bitOut, data, Started(data));
    LastCode(e);
    WriteCode(table, bitOut, s, width, e);
    ok := bitOut.Write(END_CODE, width);
    assert ok;
    assert bitOut.Contents() == RasterBits(data);
    bitOut.Flush();
    bytes := bitOut.out;
  }

  lemma Begin(data: pixels)
    requires ArePixels(data)
    ensures var e, rest := Started(data), Rest(data);
            && e.Valid() && ArePixels(rest) && CanCode(e, rest) && e.dict == InitialDict()
            && RasterBits(data) == LsbBits(CLEAR_CODE, FIRST_WIDTH) + CodeBits(Codes(e, rest)) + LsbBits(END_CODE, Final(e, rest).width)
    ensures CLEAR_CODE < Pow2(FIRST_WIDTH)
  {
    hide LsbBits, Codes, Final, CodeBits;
    StartedValid(data);
    Pow2AtWidths();
  }

  /** The loop over the pixels after the first. */
  method EncodePixels(table: LzwTable, bitOut: BitOutputStream, data: pixels, ghost start: Encoder)
    returns (s: pixels, width: nat, ghost e: Encoder)
    requires ArePixels(data) && start == Started(data) && start.Valid() && ArePixels(Rest(data))
    requires table.Holds(start.dict) && bitOut.Valid() && CanCode(start, Rest(data))
    modifies table, bitOut
    ensures e == Final(start, Rest(data)) && e.Valid() && e.s == s && e.width == width
    ensures table.Holds(e.dict) && bitOut.Valid() && CanCode(e, [])
    ensures bitOut.Contents() + CodeBits(Codes(e, [])) == old(bitOut.Contents()) + CodeBits(Codes(start, Rest(data)))
  {
    hide Codes, LsbBits, StreamBits, CodeBits, Encoder.Valid, BitOutputStream.Contents, LzwTable.Holds, ArePixels;
    s, width, e := [FirstPixel(data)], FIRST_WIDTH, start;
    ghost var rest := Rest(data);
    var dataIndex := 1;
    while dataIndex < |data|
      invariant 1 <= dataIndex && rest == (if dataIndex <= |data| then data[dataIndex..] else [])
      invariant ArePixels(rest) && CanCode(e, rest)
      invariant e.Valid() && e.s == s && e.width == width && table.Holds(e.dict) && bitOut.Valid()
      invariant Final(e, rest) == Final(start, Rest(data))
      invariant bitOut.Contents() + CodeBits(Codes(e, rest)) == old(bitOut.Contents()) + CodeBits(Codes(start, Rest(data)))
    {
      var c := data[dataIndex];
      dataIndex := dataIndex + 1;
      RestPixels(rest);
      s, width, e := Step(table, bitOut, s, width, c, e, rest);
      rest := rest[1..];
    }
  }

  lemma RestPixels(rest: pixels)
    requires rest != [] && ArePixels(rest)
    ensures ArePixels(rest[1..])
  {
    assert forall p <- rest[1..] :: p in rest;
  }

  ghost predicate CanCode(e: Encoder, rest: pixels) {
    e.s in e.dict && forall p <- rest :: [p] in e.dict
  }

  /** The four pixels and the two special codes, added one by one. */
  method InitialTable() returns (table: LzwTable)
    ensures fresh(table) && table.Holds(InitialDict())
  {
    hide InitialDict, LzwTable.Holds;
    table := new LzwTable();
    ghost var dict := InitialDict();
    InitialEntries();
    var ok;
    for i := 0 to CLEAR_CODE
      invariant table.Holds(dict[..i])
    {
      FreshEntry(dict, i);
      ok := table.Add([i], dict[..i]);
    }
    FreshEntry(dict, CLEAR_CODE);
    ok := table.Add([CLEAR_CODE], dict[..CLEAR_CODE]);
    FreshEntry(dict, END_CODE);
    ok := table.Add([END_CODE], dict[..END_CODE]);
    assert dict[..6] == dict;
  }

  lemma InitialEntries()
    ensures |InitialDict()| == 6 && Distinct(InitialDict())
    ensures forall i :: 0 <= i < 6 ==> InitialDict()[i] == [i]
  {
  }

  lemma FreshEntry(dict: seq<pixels>, i: nat)
    requires Distinct(dict) && i < |dict|
    ensures dict[i] !in dict[..i] && dict[..i] + [dict[i]] == dict[..i + 1]
    ensures dict[..0] == []
  {
  }

  /** The body of the loop over the pixels. */
  method Step(table: LzwTable, bitOut: BitOutputStream, s: pixels, width: nat, c: nat, ghost e: Encoder, ghost rest: pixels)
    returns (nextS: pixels, nextWidth: nat, ghost f: Encoder)
    requires table.Holds(e.dict) && e.Valid() && e.s == s && e.width == width && bitOut.Valid()
    requires ArePixels(rest) && rest != [] && rest[0] == c && CanCode(e, rest)
    modifies table, bitOut
    ensures f.Valid() && f.s == nextS && f.width == nextWidth && table.Holds(f.dict) && bitOut.Valid()
    ensures CanCode(f, rest[1..]) && Final(f, rest[1..]) == Final(e, rest)
    ensures bitOut.Contents() + CodeBits(Codes(f, rest[1..])) == old(bitOut.Contents()) + CodeBits(Codes(e, rest))
  {
    hide LsbBits, StreamBits, Encoder.Valid, CodeBits, Encoder.Emitted, LzwTable.Holds;
    assert c in rest && forall p <- rest[1..] :: p in rest;
    InTable(table, e.dict, s + [c]);
    if s + [c] in table.entries {
      nextS, nextWidth := s + [c], width;
      f := e.(s := s + [c]);
      GrowValid(e, c);
    } else {
      f := e.Emitted(c);
      EmitValid(e, c);
      EmittedKeeps(e, c);
      nextWidth := Emit(table, bitOut, s, width, c, e);
      nextS := [c];
      CodesSplit(e, rest);
    }
  }

  lemma InTable(table: LzwTable, dict: seq<pixels>, s: pixels)
    requires table.Holds(dict)
    ensures s in table.entries <==> s in dict
  {
  }

  lemma EmittedKeeps(e: Encoder, c: nat)
    requires e.Valid() && c < CLEAR_CODE
    ensures e.Emitted(c).s == [c] && [c] in e.Emitted(c).dict && forall s <- e.dict :: s in e.Emitted(c).dict
  {
    assert e.dict[c] == [c];
  }

  lemma CodesSplit(e: Encoder, rest: pixels)
    requires e.Valid() && ArePixels(rest) && rest != [] && CanCode(e, rest) && e.s + [rest[0]] !in e.dict
    requires CanCode(e.Emitted(rest[0]), rest[1..])
    ensures CodeBits(Codes(e, rest)) ==
            LsbBits(IndexOf(e.dict, e.s), e.width) + CodeBits(Codes(e.Emitted(rest[0]), rest[1..]))
  {
    hide LsbBits, Encoder.Emitted, Encoder.Valid;
    var tail := Codes(e.Emitted(rest[0]), rest[1..]);
    assert ([(IndexOf(e.dict, e.s), e.width)] + tail)[1..] == tail;
  }

  /** bitOut.write(table.indexOf(s), bitLength), which never throws. */
  method WriteCode(table: LzwTable, bitOut: BitOutputStream, s: pixels, width: nat, ghost e: Encoder)
    requires table.Holds(e.dict) && e.Valid() && e.s == s && e.width == width && bitOut.Valid()
    modifies bitOut
    ensures bitOut.Valid()
    ensures bitOut.Contents() == old(bitOut.Contents()) + LsbBits(IndexOf(e.dict, s), width)
  {
    hide LsbBits, StreamBits, InitialDict, ArePixels;
    NotASpecialCode(e);
    IndexOfUnique(e.dict, s, table.entries[s]);
    var ok := bitOut.Write(table.entries[s], width);
    assert ok;
  }

  /** The branch that writes the code of s. */
  method Emit(table: LzwTable, bitOut: BitOutputStream, s: pixels, width: nat, c: nat, ghost e: Encoder)
    returns (nextWidth: nat)
    requires table.Holds(e.dict) && e.Valid() && e.s == s && e.width == width && bitOut.Valid()
    requires s + [c] !in e.dict
    modifies table, bitOut
    ensures nextWidth == e.Emitted(c).width && table.Holds(e.Emitted(c).dict) && bitOut.Valid()
    ensures bitOut.Contents() == old(bitOut.Contents()) + LsbBits(IndexOf(e.dict, s), width)
  {
    hide LsbBits, StreamBits, InitialDict, ArePixels;
    nextWidth := width;
    WriteCode(table, bitOut, s, width, e);
    if table.size < FULL {
      ShlOne(width);
      if table.size == Shl(1, width) {
        nextWidth := nextWidth + 1;
      }
      var ok := table.Add(s + [c], e.dict);
      assert ok;
    }
  }

  lemma {:induction false} ShlOne(k: nat)
    ensures Shl(1, k) == Pow2(k)
  {
    if k > 0 {
      ShlOne(k - 1);
    }
  }

  lemma LastCode(e: Encoder)
    requires e.Valid()
    ensures Final(e, []) == e && CodeBits(Codes(e, [])) == LsbBits(IndexOf(e.dict, e.s), e.width)
    ensures IndexOf(e.dict, e.s) < Pow2(e.width) && END_CODE < Pow2(e.width)
  {
    hide LsbBits;
    NotASpecialCode(e);
    Pow2Monotone(FIRST_WIDTH, e.width);
    Pow2AtWidths();
  }

  /** Reading the raster back: always exactly the image, for every image of pixels below 4. The end code is
      found except where the raster has eleven codes, which fill the table to 16 entries and the stream to
      exactly six bytes: the decoder then expects a wider end code than is there. */
  lemma RasterDecodes(data: pixels, bytes: seq<nat>)
    requires ArePixels(data) && data != []
    requires StreamBits(bytes) == RasterBits(data) + Padding(|RasterBits(data)|)
    ensures Decode(StreamBits(bytes), START) == (data, |RasterCodes(data)| != 11)
  {
    hide Decode, RasterBits, StreamBits, WidensAtEnd, RasterCodes, ArePixels, Padding;
    PaddedRaster(data, RasterBits(data));
    LosesExactly(data);
    assert [data[0]] + data[1..] == data;
  }

  /** Every image of more than 66 pixels is read back with its end code; the smallest symbol has 441. */
  lemma LargeRasterDecodes(data: pixels, bytes: seq<nat>)
    requires ArePixels(data) && |data| > 66
    requires StreamBits(bytes) == RasterBits(data) + Padding(|RasterBits(data)|)
    ensures Decode(StreamBits(bytes), START) == (data, true)
  {
    RasterDecodes(data, bytes);
    if |RasterCodes(data)| == 11 {
      ElevenCodesAreShort(data);
    }
  }

  lemma PaddedRaster(data: pixels, bits: seq<bool>)
    requires ArePixels(data) && bits == RasterBits(data)
    ensures Decode(bits + Padding(|bits|), START) ==
            ([FirstPixel(data)] + Rest(data), !WidensAtEnd(data) || |bits| % 8 != 0)
  {
    hide *;
    var zeros: nat := |Padding(|bits|)|;
    PaddingZeros(|bits|);
    RasterRoundTrip(data, zeros);
  }

  lemma PaddingZeros(n: nat)
    ensures Padding(n) == seq(|Padding(n)|, _ => false) && (|Padding(n)| > 0 <==> n % 8 != 0)
  {
    SomePadding(n);
  }

  lemma SomePadding(n: nat)
    ensures (8 - n % 8) % 8 > 0 <==> n % 8 != 0
  {
  }

  /** 66 is sharp: an image of 66 zeros, which is smaller than any symbol, loses its end code. */
  lemma EndCodeCanBeLost()
    ensures ArePixels(Zeros(66))
    ensures var bits := RasterBits(Zeros(66)); Decode(bits + Padding(|bits|), START) == (Zeros(66), false)
  {
    hide Decode, RasterBits, WidensAtEnd, RasterCodes, Zeros;
    var data := Zeros(66);
    ElevenCodesOfZeros();
    PaddedRaster(data, RasterBits(data));
    LosesExactly(data);
    assert [data[0]] + data[1..] == data;
  }
}
