/** The final codeword sequence of a symbol (section 7.6 of ISO/IEC 18004:2015): the data split into
    blocks, each block's error correction bytes, both interleaved column by column. */
module CreateBytes {
  import opened Prelude
  import opened BitBuffer
  import opened GaloisField
  import opened QRMath
  import opened Polynomial
  import opened ReedSolomon

  datatype RsBlock = RsBlock(totalCount: nat, dataCount: nat) {
    /** As in the fixed block tables. */
    predicate Valid() {
      dataCount <= totalCount && totalCount - dataCount < ORDER
    }

    function EcCount(): nat
      requires Valid()
    {
      totalCount - dataCount
    }
  }

  predicate ValidBlocks(blocks: seq<RsBlock>) {
    forall b <- blocks :: b.Valid()
  }

  function Sum(lens: seq<nat>): nat {
    if lens == [] then 0 else Sum(lens[..|lens| - 1]) + lens[|lens| - 1]
  }

  function DataCounts(blocks: seq<RsBlock>): (lens: seq<nat>)
    ensures |lens| == |blocks|
  {
    seq(|blocks|, r requires 0 <= r < |blocks| => blocks[r].dataCount)
  }

  function EcCounts(blocks: seq<RsBlock>): (lens: seq<nat>)
    requires ValidBlocks(blocks)
    ensures |lens| == |blocks|
  {
    seq(|blocks|, r requires 0 <= r < |blocks| => blocks[r].EcCount())
  }

  function TotalCounts(blocks: seq<RsBlock>): (lens: seq<nat>)
    ensures |lens| == |blocks|
  {
    seq(|blocks|, r requires 0 <= r < |blocks| => blocks[r].totalCount)
  }

  type rows = seq<seq<byte>>

  function Lengths(m: rows): (lens: seq<nat>)
    ensures |lens| == |m|
  {
    seq(|m|, r requires 0 <= r < |m| => |m[r]|)
  }

  // ----- interleaving

  /** How many of the first r rows reach column i. */
  function CountInColumn(lens: seq<nat>, i: nat, r: nat): (n: nat)
    requires r <= |lens|
    ensures n <= r
  {
    if r == 0 then 0 else CountInColumn(lens, i, r - 1) + if i < lens[r - 1] then 1 else 0
  }

  /** Where column i starts. */
  function ColumnStart(lens: seq<nat>, i: nat): nat {
    if i == 0 then 0 else ColumnStart(lens, i - 1) + CountInColumn(lens, i - 1, |lens|)
  }

  /** Where the byte of row r and column i goes. */
  function Position(lens: seq<nat>, r: nat, i: nat): nat
    requires r <= |lens|
  {
    ColumnStart(lens, i) + CountInColumn(lens, i, r)
  }

  /** The bytes of the first r rows in column i. */
  ghost function Column(m: rows, i: nat, r: nat): (c: seq<byte>)
    requires r <= |m|
    ensures |c| == CountInColumn(Lengths(m), i, r)
  {
    if r == 0 then [] else Column(m, i, r - 1) + if i < |m[r - 1]| then [m[r - 1][i]] else []
  }

  ghost function Interleaved(m: rows, columns: nat): (s: seq<byte>)
    ensures |s| == ColumnStart(Lengths(m), columns)
  {
    if columns == 0 then [] else Interleaved(m, columns - 1) + Column(m, columns - 1, |m|)
  }

  lemma {:induction false} ColumnHolds(m: rows, i: nat, r: nat, n: nat)
    requires r < n <= |m| && i < |m[r]|
    ensures CountInColumn(Lengths(m), i, r) < CountInColumn(Lengths(m), i, n)
    ensures Column(m, i, n)[CountInColumn(Lengths(m), i, r)] == m[r][i]
  {
    if r < n - 1 {
      ColumnHolds(m, i, r, n - 1);
    }
  }

  /** Every byte of every row is found at its position. */
  lemma {:induction false} InterleavedHolds(m: rows, columns: nat, r: nat, i: nat)
    requires r < |m| && i < |m[r]| && i < columns
    ensures Position(Lengths(m), r, i) < ColumnStart(Lengths(m), columns)
    ensures Interleaved(m, columns)[Position(Lengths(m), r, i)] == m[r][i]
  {
    hide Column, Lengths, CountInColumn;
    if i == columns - 1 {
      ColumnHolds(m, i, r, |m|);
    } else {
      InterleavedHolds(m, columns - 1, r, i);
    }
  }

  lemma {:induction false} CountExtended(lens: seq<nat>, l: nat, i: nat, r: nat)
    requires r <= |lens|
    ensures CountInColumn(lens + [l], i, r) == CountInColumn(lens, i, r)
  {
    if r > 0 {
      CountExtended(lens, l, i, r - 1);
    }
  }

  lemma {:induction false} ColumnStartExtended(lens: seq<nat>, l: nat, i: nat)
    ensures ColumnStart(lens + [l], i) == ColumnStart(lens, i) + if l < i then l else i
  {
    if i > 0 {
      ColumnStartExtended(lens, l, i - 1);
      CountExtended(lens, l, i - 1, |lens|);
    }
  }

  predicate AtMost(lens: seq<nat>, bound: nat) {
    forall r :: 0 <= r < |lens| ==> lens[r] <= bound
  }

  /** Enough columns hold every byte of every row, and nothing more. */
  lemma {:induction false} ColumnsHoldAll(lens: seq<nat>, columns: nat)
    requires AtMost(lens, columns)
    ensures ColumnStart(lens, columns) == Sum(lens)
  {
    if lens == [] {
      NoRows(columns);
    } else {
      var n := |lens| - 1;
      ColumnsHoldAll(lens[..n], columns);
      ColumnStartExtended(lens[..n], lens[n], columns);
      assert lens == lens[..n] + [lens[n]];
    }
  }

  lemma {:induction false} NoRows(columns: nat)
    ensures ColumnStart([], columns) == 0
  {
    if columns > 0 {
      NoRows(columns - 1);
    }
  }

  lemma {:induction false} CountMonotone(lens: seq<nat>, i: nat, r: nat, n: nat)
    requires r <= n <= |lens|
    ensures CountInColumn(lens, i, r) <= CountInColumn(lens, i, n)
    ensures r < n && i < lens[r] ==> CountInColumn(lens, i, r) < CountInColumn(lens, i, n)
  {
    if r < n {
      CountMonotone(lens, i, r, n - 1);
    }
  }

  lemma {:induction false} ColumnStartMonotone(lens: seq<nat>, i: nat, j: nat)
    requires i <= j
    ensures ColumnStart(lens, i) <= ColumnStart(lens, j)
  {
    if i < j {
      ColumnStartMonotone(lens, i, j - 1);
    }
  }

  ghost predicate IsCell(lens: seq<nat>, r: nat, i: nat) {
    r < |lens| && i < lens[r]
  }

  /** No two bytes share a position. */
  lemma PositionInjective(lens: seq<nat>, r: nat, i: nat, q: nat, j: nat)
    requires IsCell(lens, r, i) && IsCell(lens, q, j)
    requires Position(lens, r, i) == Position(lens, q, j)
    ensures r == q && i == j
  {
    if i < j {
      CountMonotone(lens, i, r, |lens|);
      ColumnStartMonotone(lens, i + 1, j);
    } else if j < i {
      CountMonotone(lens, j, q, |lens|);
      ColumnStartMonotone(lens, j + 1, i);
    } else if r < q {
      CountMonotone(lens, i, r, q);
    } else if q < r {
      CountMonotone(lens, i, q, r);
    }
  }

  lemma ColumnMajor(lens: seq<nat>, r: nat, i: nat, q: nat, j: nat)
    requires IsCell(lens, r, i) && IsCell(lens, q, j)
    requires i < j || (i == j && r < q)
    ensures Position(lens, r, i) < Position(lens, q, j)
  {
    if i < j {
      CountMonotone(lens, i, r, |lens|);
      ColumnStartMonotone(lens, i + 1, j);
    } else {
      CountMonotone(lens, i, r, q);
    }
  }

  /** Column by column, and in a column block by block: of two bytes the one with the smaller index in its block comes
      first, and of two with the same index the one of the earlier block. With PositionSurjective, which leaves no slot
      free, this determines every position. */
  lemma ColumnMajorExactly(lens: seq<nat>, r: nat, i: nat, q: nat, j: nat)
    requires IsCell(lens, r, i) && IsCell(lens, q, j)
    ensures Position(lens, r, i) < Position(lens, q, j) <==> i < j || (i == j && r < q)
    ensures Position(lens, r, i) < Sum(lens)
  {
    if i < j || (i == j && r < q) {
      ColumnMajor(lens, r, i, q, j);
    } else if j < i || (i == j && q < r) {
      ColumnMajor(lens, q, j, r, i);
    }
    var columns := MaxOf(lens);
    ColumnsHoldAll(lens, columns);
    CountMonotone(lens, i, r, |lens|);
    ColumnStartMonotone(lens, i + 1, columns);
  }

  /** Every position is taken: with PositionInjective, interleaving is a bijection. */
  lemma {:induction false} PositionSurjective(lens: seq<nat>, columns: nat, k: nat) returns (r: nat, i: nat)
    requires k < ColumnStart(lens, columns)
    ensures IsCell(lens, r, i) && i < columns && Position(lens, r, i) == k
  {
    if k < ColumnStart(lens, columns - 1) {
      r, i := PositionSurjective(lens, columns - 1, k);
    } else {
      i := columns - 1;
      r := RowOfCount(lens, i, |lens|, k - ColumnStart(lens, i));
    }
  }

  lemma {:induction false} RowOfCount(lens: seq<nat>, i: nat, n: nat, c: nat) returns (r: nat)
    requires n <= |lens| && c < CountInColumn(lens, i, n)
    ensures r < n && i < lens[r] && CountInColumn(lens, i, r) == c
  {
    if c < CountInColumn(lens, i, n - 1) {
      r := RowOfCount(lens, i, n - 1, c);
    } else {
      r := n - 1;
    }
  }

  /** One pair of nested loops of createBytes, from slot start on. */
  method Interleave(data: array<byte>, start: nat, m: rows, columns: nat) returns (index: nat)
    requires start + ColumnStart(Lengths(m), columns) <= data.Length
    modifies data
    ensures index == start + ColumnStart(Lengths(m), columns)
    ensures data[..index] == old(data[..start]) + Interleaved(m, columns)
  {
    hide Lengths, Column, CountInColumn;
    index := start;
    ghost var before := data[..start];
    for i := 0 to columns
      invariant index == start + ColumnStart(Lengths(m), i) <= data.Length
      invariant data[..index] == before + Interleaved(m, i)
    {
      ColumnStartMonotone(Lengths(m), i + 1, columns);
      ghost var sofar := data[..index];
      index := InterleaveColumn(data, index, m, i);
      assert data[..index] == before + (Interleaved(m, i) + Column(m, i, |m|));
    }
  }

  method InterleaveColumn(data: array<byte>, start: nat, m: rows, i: nat) returns (index: nat)
    requires start + CountInColumn(Lengths(m), i, |m|) <= data.Length
    modifies data
    ensures index == start + CountInColumn(Lengths(m), i, |m|)
    ensures data[..index] == old(data[..start]) + Column(m, i, |m|)
  {
    hide Lengths, Column, CountInColumn;
    index := start;
    BeforeRows(m, i);
    for r := 0 to |m|
      invariant index == start + CountInColumn(Lengths(m), i, r) <= data.Length
      invariant data[..index] == old(data[..start]) + Column(m, i, r)
    {
      CountMonotone(Lengths(m), i, r + 1, |m|);
      NextRow(m, i, r);
      if i < |m[r]| {
        ghost var sofar := data[..index];
        data[index] := m[r][i];
        index := index + 1;
        assert data[..index] == sofar + [m[r][i]];
      }
    }
  }

  lemma LengthsAt(m: rows, r: nat)
    requires r < |m|
    ensures Lengths(m)[r] == |m[r]|
  {
  }

  lemma BeforeRows(m: rows, i: nat)
    ensures CountInColumn(Lengths(m), i, 0) == 0 && Column(m, i, 0) == []
  {
  }

  lemma NextRow(m: rows, i: nat, r: nat)
    requires r < |m|
    ensures CountInColumn(Lengths(m), i, r + 1) == CountInColumn(Lengths(m), i, r) + if i < |m[r]| then 1 else 0
    ensures Column(m, i, r + 1) == Column(m, i, r) + if i < |m[r]| then [m[r][i]] else []
  {
  }

  // ----- the whole of createBytes

  /** The blocks' data: consecutive slices. */
  ghost function DataRows(bytes: seq<byte>, blocks: seq<RsBlock>): (m: rows)
    requires |bytes| == Sum(DataCounts(blocks))
    ensures |m| == |blocks| && Lengths(m) == DataCounts(blocks)
    decreases |blocks|
  {
    if blocks == [] then []
    else
      var n := |blocks| - 1;
      SumOfInit(blocks);
      var offset := |bytes| - blocks[n].dataCount;
      var init, last := DataRows(bytes[..offset], blocks[..n]), bytes[offset..];
      assert Lengths(init + [last]) == Lengths(init) + [|last|];
      assert DataCounts(blocks) == DataCounts(blocks[..n]) + [|last|];
      init + [last]
  }

  lemma SumOfInit(blocks: seq<RsBlock>)
    requires blocks != []
    ensures Sum(DataCounts(blocks)) == Sum(DataCounts(blocks[..|blocks| - 1])) + blocks[|blocks| - 1].dataCount
  {
    assert DataCounts(blocks)[..|blocks| - 1] == DataCounts(blocks[..|blocks| - 1]);
  }

  ghost function EcRows(m: rows, blocks: seq<RsBlock>): (e: rows)
    requires ValidBlocks(blocks) && |m| == |blocks|
    ensures |e| == |blocks| && Lengths(e) == EcCounts(blocks)
  {
    seq(|blocks|, r requires 0 <= r < |blocks| => EcBytes(m[r], blocks[r].EcCount()))
  }

  function MaxOf(lens: seq<nat>): (m: nat)
    ensures AtMost(lens, m)
  {
    if lens == [] then 0
    else
      var m := MaxOf(lens[..|lens| - 1]);
      if m < lens[|lens| - 1] then lens[|lens| - 1] else m
  }

  /** The final codeword sequence. */
  ghost function Codewords(bytes: seq<byte>, blocks: seq<RsBlock>): (s: seq<byte>)
    requires ValidBlocks(blocks) && |bytes| == Sum(DataCounts(blocks))
  {
    var m := DataRows(bytes, blocks);
    Interleaved(m, MaxOf(DataCounts(blocks))) + Interleaved(EcRows(m, blocks), MaxOf(EcCounts(blocks)))
  }

  lemma {:induction false} SumsAdd(blocks: seq<RsBlock>)
    requires ValidBlocks(blocks)
    ensures Sum(TotalCounts(blocks)) == Sum(DataCounts(blocks)) + Sum(EcCounts(blocks))
  {
    if blocks != [] {
      var n := |blocks| - 1;
      SumsAdd(blocks[..n]);
      assert TotalCounts(blocks)[..n] == TotalCounts(blocks[..n]);
      assert DataCounts(blocks)[..n] == DataCounts(blocks[..n]);
      assert EcCounts(blocks)[..n] == EcCounts(blocks[..n]);
    }
  }

  lemma CodewordsLength(bytes: seq<byte>, blocks: seq<RsBlock>)
    requires ValidBlocks(blocks) && |bytes| == Sum(DataCounts(blocks))
    ensures |Codewords(bytes, blocks)| == Sum(TotalCounts(blocks))
  {
    ColumnsHoldAll(DataCounts(blocks), MaxOf(DataCounts(blocks)));
    ColumnsHoldAll(EcCounts(blocks), MaxOf(EcCounts(blocks)));
    SumsAdd(blocks);
  }

  lemma {:induction false} DataRowIsSlice(bytes: seq<byte>, blocks: seq<RsBlock>, r: nat)
    requires |bytes| == Sum(DataCounts(blocks)) && r < |blocks|
    ensures Sum(DataCounts(blocks[..r])) + blocks[r].dataCount == Sum(DataCounts(blocks[..r + 1])) <= |bytes|
    ensures DataRows(bytes, blocks)[r] == bytes[Sum(DataCounts(blocks[..r]))..][..blocks[r].dataCount]
    decreases |blocks|
  {
    hide DataRows, DataCounts, Sum;
    var n := |blocks| - 1;
    SumOfInit(blocks);
    LastDataRow(bytes, blocks);
    var offset := |bytes| - blocks[n].dataCount;
    if r < n {
      DataRowIsSlice(bytes[..offset], blocks[..n], r);
      assert blocks[..n][..r] == blocks[..r] && blocks[..n][..r + 1] == blocks[..r + 1];
      assert DataRows(bytes, blocks)[r] == DataRows(bytes[..offset], blocks[..n])[r];
      var at := Sum(DataCounts(blocks[..r]));
      assert bytes[..offset][at..][..blocks[r].dataCount] == bytes[at..][..blocks[r].dataCount];
    } else {
      assert blocks[..r + 1] == blocks;
    }
  }

  lemma LastDataRow(bytes: seq<byte>, blocks: seq<RsBlock>)
    requires |bytes| == Sum(DataCounts(blocks)) && blocks != []
    ensures var n := |blocks| - 1;
            var offset := |bytes| - blocks[n].dataCount;
            && offset == Sum(DataCounts(blocks[..n]))
            && DataRows(bytes, blocks) == DataRows(bytes[..offset], blocks[..n]) + [bytes[offset..]]
  {
    hide Sum, DataCounts, Lengths;
    SumOfInit(blocks);
  }

  ghost predicate RowsSoFar(bytes: seq<byte>, blocks: seq<RsBlock>, r: nat, dcdata: rows, ecdata: rows) {
    && ValidBlocks(blocks) && |bytes| == Sum(DataCounts(blocks)) && r <= |blocks|
    && dcdata == DataRows(bytes, blocks)[..r]
    && ecdata == EcRows(DataRows(bytes, blocks), blocks)[..r]
  }

  /** createBytes: no step throws, every slot is filled, and the result is the final sequence. */
  method CreateBytes(t: Tables, buffer: QrBitBuffer, rsBlocks: seq<RsBlock>) returns (result: seq<byte>)
    requires t.Valid() && ValidBlocks(rsBlocks)
    requires |buffer.buffer| == Sum(DataCounts(rsBlocks))
    ensures result == Codewords(buffer.buffer, rsBlocks)
    ensures |result| == Sum(TotalCounts(rsBlocks))
  {
    hide Codewords, EcBytes, DataRows, EcRows, Interleaved, Lengths, DataCounts, EcCounts, TotalCounts;
    var bytes := buffer.buffer;
    var dcdata, ecdata, maxDcCount, maxEcCount := CollectRows(t, bytes, rsBlocks);
    var totalCodeCount := 0;
    for i := 0 to |rsBlocks|
      invariant totalCodeCount == Sum(TotalCounts(rsBlocks[..i]))
    {
      SumOfTotals(rsBlocks, i);
      totalCodeCount := totalCodeCount + rsBlocks[i].totalCount;
    }
    assert rsBlocks[..|rsBlocks|] == rsBlocks;
    ColumnsHoldAll(DataCounts(rsBlocks), maxDcCount);
    ColumnsHoldAll(EcCounts(rsBlocks), maxEcCount);
    SumsAdd(rsBlocks);
    var data := new byte[totalCodeCount];
    var index := Interleave(data, 0, dcdata, maxDcCount);
    index := Interleave(data, index, ecdata, maxEcCount);
    result := data[..];
    CodewordsParts(bytes, rsBlocks);
  }

  lemma SumOfTotals(blocks: seq<RsBlock>, i: nat)
    requires i < |blocks|
    ensures Sum(TotalCounts(blocks[..i + 1])) == Sum(TotalCounts(blocks[..i])) + blocks[i].totalCount
    ensures Sum(TotalCounts(blocks[..0])) == 0
  {
    assert TotalCounts(blocks[..i + 1])[..i] == TotalCounts(blocks[..i]);
  }

  lemma CodewordsParts(bytes: seq<byte>, blocks: seq<RsBlock>)
    requires ValidBlocks(blocks) && |bytes| == Sum(DataCounts(blocks))
    ensures Codewords(bytes, blocks) ==
            Interleaved(DataRows(bytes, blocks), MaxOf(DataCounts(blocks)))
            + Interleaved(EcRows(DataRows(bytes, blocks), blocks), MaxOf(EcCounts(blocks)))
  {
  }

  /** The loop over the blocks. */
  method CollectRows(t: Tables, bytes: seq<byte>, rsBlocks: seq<RsBlock>)
    returns (dcdata: rows, ecdata: rows, maxDcCount: nat, maxEcCount: nat)
    requires t.Valid() && ValidBlocks(rsBlocks) && |bytes| == Sum(DataCounts(rsBlocks))
    ensures dcdata == DataRows(bytes, rsBlocks) && ecdata == EcRows(dcdata, rsBlocks)
    ensures maxDcCount == MaxOf(DataCounts(rsBlocks)) && maxEcCount == MaxOf(EcCounts(rsBlocks))
  {
    hide EcBytes, DataRows, EcRows, RowsSoFar, DataCounts, EcCounts;
    var offset := 0;
    dcdata, ecdata, maxDcCount, maxEcCount := [], [], 0, 0;
    RowsStart(bytes, rsBlocks);
    for r := 0 to |rsBlocks|
      invariant offset == Sum(DataCounts(rsBlocks[..r]))
      invariant RowsSoFar(bytes, rsBlocks, r, dcdata, ecdata)
      invariant maxDcCount == MaxOf(DataCounts(rsBlocks[..r])) && maxEcCount == MaxOf(EcCounts(rsBlocks[..r]))
    {
      var dcCount := rsBlocks[r].dataCount;
      var ecCount := rsBlocks[r].totalCount - dcCount;
      CountsExtended(rsBlocks, r);
      maxDcCount := if maxDcCount < dcCount then dcCount else maxDcCount;
      maxEcCount := if maxEcCount < ecCount then ecCount else maxEcCount;
      DataRowIsSlice(bytes, rsBlocks, r);
      var row := CopyRow(bytes, offset, dcCount);
      offset := offset + dcCount;
      assert rsBlocks[r].Valid();
      var ec := ErrorCorrection(t, row, ecCount);
      RowsNext(bytes, rsBlocks, r, dcdata, ecdata, row, ec.value);
      dcdata := dcdata + [row];
      ecdata := ecdata + [ec.value];
    }
    assert rsBlocks[..|rsBlocks|] == rsBlocks;
    RowsEnd(bytes, rsBlocks, dcdata, ecdata);
  }

  lemma RowsStart(bytes: seq<byte>, blocks: seq<RsBlock>)
    requires ValidBlocks(blocks) && |bytes| == Sum(DataCounts(blocks))
    ensures RowsSoFar(bytes, blocks, 0, [], [])
    ensures Sum(DataCounts(blocks[..0])) == 0
    ensures MaxOf(DataCounts(blocks[..0])) == MaxOf(EcCounts(blocks[..0])) == 0
  {
  }

  lemma RowsNext(bytes: seq<byte>, blocks: seq<RsBlock>, r: nat, dcdata: rows, ecdata: rows, row: seq<byte>, ec: seq<byte>)
    requires RowsSoFar(bytes, blocks, r, dcdata, ecdata) && r < |blocks|
    requires row == DataRows(bytes, blocks)[r] && ec == EcBytes(row, blocks[r].EcCount())
    ensures RowsSoFar(bytes, blocks, r + 1, dcdata + [row], ecdata + [ec])
  {
    hide EcBytes, DataRows;
  }

  lemma RowsEnd(bytes: seq<byte>, blocks: seq<RsBlock>, dcdata: rows, ecdata: rows)
    requires RowsSoFar(bytes, blocks, |blocks|, dcdata, ecdata)
    ensures dcdata == DataRows(bytes, blocks) && ecdata == EcRows(dcdata, blocks)
  {
    hide EcBytes, DataRows;
  }

  lemma CountsExtended(blocks: seq<RsBlock>, r: nat)
    requires ValidBlocks(blocks) && r < |blocks|
    ensures DataCounts(blocks[..r + 1]) == DataCounts(blocks[..r]) + [blocks[r].dataCount]
    ensures EcCounts(blocks[..r + 1]) == EcCounts(blocks[..r]) + [blocks[r].EcCount()]
    ensures var d, e := DataCounts(blocks[..r]), EcCounts(blocks[..r]);
            && (d + [blocks[r].dataCount])[..|d|] == d && (e + [blocks[r].EcCount()])[..|e|] == e
  {
  }

  method CopyRow(bytes: seq<byte>, offset: nat, count: nat) returns (row: seq<byte>)
    requires offset + count <= |bytes|
    ensures row == bytes[offset..][..count]
  {
    var slots := new byte[count];
    for i := 0 to count
      invariant slots[..i] == bytes[offset..][..i]
    {
      slots[i] := 0xff & bytes[i + offset];
    }
    row := slots[..];
  }

  // ----- undoing it

  /** Block r's data, collected from its positions. */
  function DataOfBlock(codewords: seq<byte>, blocks: seq<RsBlock>, r: nat): (d: seq<byte>)
    requires r < |blocks|
  {
    seq(blocks[r].dataCount, i requires 0 <= i =>
      var k := Position(DataCounts(blocks), r, i);
      if k < |codewords| then codewords[k] else 0)
  }

  /** Block r's error correction bytes, which follow all the data. */
  function EcOfBlock(codewords: seq<byte>, blocks: seq<RsBlock>, r: nat): (e: seq<byte>)
    requires r < |blocks| && ValidBlocks(blocks)
  {
    seq(blocks[r].EcCount(), i requires 0 <= i =>
      var k := Sum(DataCounts(blocks)) + Position(EcCounts(blocks), r, i);
      if k < |codewords| then codewords[k] else 0)
  }

  /** The data of the first r blocks, in order. */
  function DataBytes(codewords: seq<byte>, blocks: seq<RsBlock>, r: nat): seq<byte>
    requires r <= |blocks|
  {
    if r == 0 then [] else DataBytes(codewords, blocks, r - 1) + DataOfBlock(codewords, blocks, r - 1)
  }

  lemma BlockRecovered(bytes: seq<byte>, blocks: seq<RsBlock>, r: nat)
    requires ValidBlocks(blocks) && |bytes| == Sum(DataCounts(blocks)) && r < |blocks|
    ensures DataOfBlock(Codewords(bytes, blocks), blocks, r) == DataRows(bytes, blocks)[r]
    ensures EcOfBlock(Codewords(bytes, blocks), blocks, r) == EcRows(DataRows(bytes, blocks), blocks)[r]
  {
    hide EcBytes, DataRows, Interleaved, EcRows, Lengths;
    var m := DataRows(bytes, blocks);
    var e := EcRows(m, blocks);
    var dcs, ecs := DataCounts(blocks), EcCounts(blocks);
    LengthsAt(m, r);
    LengthsAt(e, r);
    ColumnsHoldAll(dcs, MaxOf(dcs));
    forall i | 0 <= i < dcs[r] ensures DataOfBlock(Codewords(bytes, blocks), blocks, r)[i] == m[r][i] {
      InterleavedHolds(m, MaxOf(dcs), r, i);
    }
    forall i | 0 <= i < ecs[r] ensures EcOfBlock(Codewords(bytes, blocks), blocks, r)[i] == e[r][i] {
      InterleavedHolds(e, MaxOf(ecs), r, i);
    }
  }

  predicate SlotHolds(codewords: seq<byte>, k: nat, source: seq<byte>, i: nat) {
    k < |codewords| && i < |source| && codewords[k] == source[i]
  }

  lemma EcRowIs(m: rows, blocks: seq<RsBlock>, r: nat)
    requires ValidBlocks(blocks) && |m| == |blocks| && r < |blocks|
    ensures EcRows(m, blocks)[r] == EcBytes(m[r], blocks[r].EcCount())
  {
    hide EcBytes;
  }

  /** The data comes back, and every block is a codeword of the error correction code. */
  lemma {:induction false} DataRecovered(bytes: seq<byte>, blocks: seq<RsBlock>, r: nat)
    requires ValidBlocks(blocks) && |bytes| == Sum(DataCounts(blocks)) && r <= |blocks|
    ensures Sum(DataCounts(blocks[..r])) <= |bytes|
    ensures DataBytes(Codewords(bytes, blocks), blocks, r) == bytes[..Sum(DataCounts(blocks[..r]))]
  {
    hide DataOfBlock, Codewords;
    if r > 0 {
      DataRecovered(bytes, blocks, r - 1);
      BlockRecovered(bytes, blocks, r - 1);
      DataRowIsSlice(bytes, blocks, r - 1);
    } else {
      assert blocks[..0] == [];
    }
  }

  /** Where each codeword goes: first the data bytes, byte i of block r of which is byte i behind the data of the blocks
      before, and then the error correction bytes of the blocks. */
  lemma CodewordAt(bytes: seq<byte>, blocks: seq<RsBlock>, r: nat, i: nat)
    requires ValidBlocks(blocks) && |bytes| == Sum(DataCounts(blocks)) && r < |blocks|
    ensures i < blocks[r].dataCount ==>
              SlotHolds(Codewords(bytes, blocks), Position(DataCounts(blocks), r, i),
                        bytes, Sum(DataCounts(blocks[..r])) + i)
    ensures i < blocks[r].EcCount() ==>
              SlotHolds(Codewords(bytes, blocks), Sum(DataCounts(blocks)) + Position(EcCounts(blocks), r, i),
                        EcBytes(DataRows(bytes, blocks)[r], blocks[r].EcCount()), i)
  {
    hide EcBytes, DataRows, EcRows, Codewords, Position, Sum;
    var c := Codewords(bytes, blocks);
    BlockRecovered(bytes, blocks, r);
    CodewordsLength(bytes, blocks);
    SumsAdd(blocks);
    if i < blocks[r].dataCount {
      ColumnMajorExactly(DataCounts(blocks), r, i, r, i);
      DataRowIsSlice(bytes, blocks, r);
      assert DataOfBlock(c, blocks, r)[i] == c[Position(DataCounts(blocks), r, i)];
    }
    if i < blocks[r].EcCount() {
      ColumnMajorExactly(EcCounts(blocks), r, i, r, i);
      EcRowIs(DataRows(bytes, blocks), blocks, r);
      assert EcOfBlock(c, blocks, r)[i] == c[Sum(DataCounts(blocks)) + Position(EcCounts(blocks), r, i)];
    }
  }

  lemma BlockIsCodeword(bytes: seq<byte>, blocks: seq<RsBlock>, r: nat)
    requires ValidBlocks(blocks) && |bytes| == Sum(DataCounts(blocks)) && r < |blocks|
    ensures var c := Codewords(bytes, blocks);
            IsCodeword(DataOfBlock(c, blocks, r) + EcOfBlock(c, blocks, r), blocks[r].EcCount())
  {
    hide Codewords, EcBytes, DataOfBlock, EcOfBlock, DataRows;
    BlockRecovered(bytes, blocks, r);
    var d, e := DataRows(bytes, blocks)[r], EcRows(DataRows(bytes, blocks), blocks)[r];
    assert (d + e)[..|d + e| - |e|] == d;
  }
}
