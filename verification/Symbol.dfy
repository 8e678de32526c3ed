/** The whole way from segments to modules and back. */
module Symbol {
  import opened Prelude
  import opened Bits
  import opened BitBuffer
  import opened QRMath
  import opened ReedSolomon
  import opened Segments
  import opened CreateData
  import opened CreateBytes
  import opened MapData

  /** createData: the codewords of a symbol, or the reason why the encoder throws. */
  method CreateCodewords(t: Tables, typeNumber: int, rsBlocks: seq<RsBlock>, dataList: seq<Segment>)
    returns (codewords: seq<byte>, error: Option<EncodeError>)
    requires t.Valid() && ValidBlocks(rsBlocks)
    ensures error.None? <==> Fits(typeNumber, rsBlocks, dataList)
    ensures IsEncodeError(dataList, typeNumber, Sum(DataCounts(rsBlocks)), error)
    ensures error == if dataList != [] && typeNumber >= 41 then Some(BadType)
                     else if !AllEncodable(dataList) then Some(IllegalCharacter)
                     else if |SegmentsBits(dataList, typeNumber)| > 8 * Sum(DataCounts(rsBlocks)) then Some(CodeLengthOverflow)
                     else None
    ensures error.None? ==> codewords == SymbolCodewords(typeNumber, rsBlocks, dataList)
  {
    hide SegmentsBits, Filler, Codewords, AllEncodable, BytesBits, DataCounts, IsEncodeError;
    codewords := [];
    var totalDataCount := 0;
    for i := 0 to |rsBlocks|
      invariant totalDataCount == Sum(DataCounts(rsBlocks[..i]))
    {
      CountsExtended(rsBlocks, i);
      var d := DataCounts(rsBlocks[..i]);
      assert (d + [rsBlocks[i].dataCount])[..|d|] == d;
      totalDataCount := totalDataCount + rsBlocks[i].dataCount;
    }
    assert rsBlocks[..|rsBlocks|] == rsBlocks;
    var buffer;
    buffer, error := FillBuffer(typeNumber, totalDataCount, dataList);
    if error.Some? {
      return;
    }
    BufferIsDataBytes(buffer, DataBits(typeNumber, rsBlocks, dataList), totalDataCount);
    codewords := CreateBytes.CreateBytes(t, buffer, rsBlocks);
  }

  ghost predicate Fits(typeNumber: int, rsBlocks: seq<RsBlock>, dataList: seq<Segment>) {
    && (dataList == [] || typeNumber < 41) && AllEncodable(dataList)
    && |SegmentsBits(dataList, typeNumber)| <= 8 * Sum(DataCounts(rsBlocks))
  }

  /** The data bits of the symbol: segments, terminator, padding. */
  ghost function DataBits(typeNumber: int, rsBlocks: seq<RsBlock>, dataList: seq<Segment>): (bits: seq<bool>)
    requires Fits(typeNumber, rsBlocks, dataList)
    ensures |bits| == 8 * Sum(DataCounts(rsBlocks))
  {
    var bits := SegmentsBits(dataList, typeNumber);
    bits + Filler(|bits|, 8 * Sum(DataCounts(rsBlocks)))
  }

  ghost function SymbolData(typeNumber: int, rsBlocks: seq<RsBlock>, dataList: seq<Segment>): (data: seq<byte>)
    requires Fits(typeNumber, rsBlocks, dataList)
    ensures |data| == Sum(DataCounts(rsBlocks))
  {
    hide *;
    BitsBytes(DataBits(typeNumber, rsBlocks, dataList))
  }

  ghost function SymbolCodewords(typeNumber: int, rsBlocks: seq<RsBlock>, dataList: seq<Segment>): seq<byte>
    requires Fits(typeNumber, rsBlocks, dataList) && ValidBlocks(rsBlocks)
  {
    Codewords(SymbolData(typeNumber, rsBlocks, dataList), rsBlocks)
  }

  lemma BufferIsDataBytes(buffer: QrBitBuffer, bits: seq<bool>, k: nat)
    requires buffer.Valid() && buffer.Contents() == bits && |bits| == 8 * k
    ensures buffer.buffer == BitsBytes(bits) && |buffer.buffer| == k
  {
    hide BytesBits, BitsBytes;
    assert BytesBits(buffer.buffer)[..buffer.length] == BytesBits(buffer.buffer);
    BitsBytesOfBytesBits(buffer.buffer);
  }

  // ----- the reader

  /** Walks the zig-zag, unmasks, de-interleaves and parses the segments. */
  ghost function ReadSymbol(n: nat, g: grid, h: grid, pattern: nat, typeNumber: int, rsBlocks: seq<RsBlock>): Option<seq<Segment>>
    requires IsSize(n) && IsGrid(g, n) && IsGrid(h, n)
  {
    var bits := ReadBack(n, g, h, pattern, PathLength(n));
    var count := 8 * Sum(TotalCounts(rsBlocks));
    if |bits| < count then None
    else
      var codewords := BitsBytes(bits[..count]);
      DecodeSegments(BytesBits(DataBytes(codewords, rsBlocks, |rsBlocks|)), typeNumber)
  }

  /** The reader sees the codewords bit by bit. */
  lemma CodewordsRead(n: nat, g: grid, h: grid, pattern: nat, codewords: seq<byte>)
    requires IsGrid(g, n) && IsGrid(h, n) && IsSize(n)
    requires IsPlaced(n, g, h, codewords, pattern, PathLength(n))
    requires 8 * |codewords| <= FreeBefore(n, g, PathLength(n))
    ensures var bits := ReadBack(n, g, h, pattern, PathLength(n));
            |bits| >= 8 * |codewords| && BitsBytes(bits[..8 * |codewords|]) == codewords
  {
    hide IsPlaced, ReadBack, BytesBits, BitsBytes, FreeBefore, PathLength;
    ReadBackIsData(n, g, h, codewords, pattern, PathLength(n));
    DataBitsAre(codewords);
    assert ReadBack(n, g, h, pattern, PathLength(n))[..8 * |codewords|] == BytesBits(codewords);
    BitsBytesOfBytesBits(codewords);
  }

  /** Undoing the interleaving and parsing gives the segments. */
  lemma CodewordsDecode(typeNumber: int, rsBlocks: seq<RsBlock>, dataList: seq<Segment>)
    requires 1 <= typeNumber <= 40
    requires ValidBlocks(rsBlocks) && Fits(typeNumber, rsBlocks, dataList)
    requires Sum(DataCounts(rsBlocks)) <= MaxDataCount(typeNumber)
    ensures var codewords := SymbolCodewords(typeNumber, rsBlocks, dataList);
            && |codewords| == Sum(TotalCounts(rsBlocks))
            && DecodeSegments(BytesBits(DataBytes(codewords, rsBlocks, |rsBlocks|)), typeNumber) == Some(dataList)
  {
    hide DecodeSegments, BytesBits, BitsBytes, Codewords, DataBytes, SegmentsBits, Filler, CountsFit, EndsMessage;
    var bits := DataBits(typeNumber, rsBlocks, dataList);
    var data := SymbolData(typeNumber, rsBlocks, dataList);
    CodewordsLength(data, rsBlocks);
    DataRecovered(data, rsBlocks, |rsBlocks|);
    assert rsBlocks[..|rsBlocks|] == rsBlocks;
    assert DataBytes(Codewords(data, rsBlocks), rsBlocks, |rsBlocks|) == data;
    BytesBitsOfBitsBytes(bits);
    var content := SegmentsBits(dataList, typeNumber);
    var capacity := 8 * Sum(DataCounts(rsBlocks));
    CapacityBoundsCounts(dataList, typeNumber, Sum(DataCounts(rsBlocks)));
    FillerEndsMessage(|content|, capacity);
    SegmentsRoundTrip(dataList, typeNumber, Filler(|content|, capacity));
  }

  /** For every symbol size, block list, mask and list of encodable segments: if createData accepts
      the segments, a reader of the modules that mapData leaves gets exactly those segments. The
      capacities are those of the fixed tables. */
  lemma SymbolRoundTrip(n: nat, g: grid, h: grid, pattern: nat, typeNumber: int, rsBlocks: seq<RsBlock>, dataList: seq<Segment>)
    requires 1 <= typeNumber <= 40 && n == 4 * typeNumber + 17 && IsGrid(g, n) && IsGrid(h, n)
    requires ValidBlocks(rsBlocks) && Fits(typeNumber, rsBlocks, dataList)
    requires Sum(DataCounts(rsBlocks)) <= MaxDataCount(typeNumber)
    requires 8 * Sum(TotalCounts(rsBlocks)) <= FreeBefore(n, g, PathLength(n))
    requires IsPlaced(n, g, h, SymbolCodewords(typeNumber, rsBlocks, dataList), pattern, PathLength(n))
    ensures ReadSymbol(n, g, h, pattern, typeNumber, rsBlocks) == Some(dataList)
  {
    hide IsPlaced, ReadBack, PathLength, DecodeSegments, BytesBits, BitsBytes, DataBytes, Sum, FreeBefore,
      MaxDataCount, SymbolCodewords, Fits;
    CodewordsDecode(typeNumber, rsBlocks, dataList);
    CodewordsRead(n, g, h, pattern, SymbolCodewords(typeNumber, rsBlocks, dataList));
  }

  lemma DataBitsAre(data: seq<byte>)
    ensures forall k :: 0 <= k < 8 * |data| ==> DataBit(data, k) == BytesBits(data)[k]
  {
  }

  /** A damaged block has only one explanation within half its error correction bytes: its own codeword. */
  lemma DamagedBlockRecoverable(bytes: seq<byte>, blocks: seq<RsBlock>, r: nat, received: seq<byte>, candidate: seq<byte>)
    requires ValidBlocks(blocks) && |bytes| == Sum(DataCounts(blocks)) && r < |blocks| && blocks[r].totalCount <= 255
    requires |received| == |candidate| == blocks[r].totalCount
    requires var c := Codewords(bytes, blocks);
             Distance(DataOfBlock(c, blocks, r) + EcOfBlock(c, blocks, r), received) <= blocks[r].EcCount() / 2
    requires IsCodeword(candidate, blocks[r].EcCount()) && Distance(candidate, received) <= blocks[r].EcCount() / 2
    ensures candidate[..blocks[r].dataCount] == DataRows(bytes, blocks)[r]
  {
    hide Codewords, IsCodeword, Distance, DataRows, EcRows;
    var c := Codewords(bytes, blocks);
    BlockIsCodeword(bytes, blocks, r);
    BlockRecovered(bytes, blocks, r);
    ErrorsCorrectable(received, DataOfBlock(c, blocks, r) + EcOfBlock(c, blocks, r), candidate, blocks[r].EcCount());
  }
}
