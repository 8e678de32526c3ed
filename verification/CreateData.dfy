/** Filling a symbol's data codewords (sections 7.4.9 and 7.4.10 of ISO/IEC 18004:2015), and the
    decoder that reads the segments back out of them. */
module CreateData {
  import opened Prelude
  import opened Bits
  import opened BitBuffer
  import opened Segments

  datatype EncodeError = BadType | IllegalCharacter | CodeLengthOverflow

  const PAD0: nat := 0xEC
  const PAD1: nat := 0x11

  /** The width of a segment's character count, or nothing where the encoder throws. */
  function LengthInBits(mode: nat, typeNumber: int): Option<nat> {
    if 1 <= typeNumber < 10 then
      match mode { case 1 => Some(10) case 2 => Some(9) case 4 => Some(8) case 8 => Some(8) case _ => None }
    else if typeNumber < 27 then
      match mode { case 1 => Some(12) case 2 => Some(11) case 4 => Some(16) case 8 => Some(10) case _ => None }
    else if typeNumber < 41 then
      match mode { case 1 => Some(14) case 2 => Some(13) case 4 => Some(16) case 8 => Some(12) case _ => None }
    else None
  }

  function CountBits(seg: Segment, typeNumber: int): nat {
    match LengthInBits(seg.Mode(), typeNumber)
    case Some(n) => n
    case None => 0
  }

  function SegmentBits(seg: Segment, typeNumber: int): seq<bool> {
    NatBits(seg.Mode(), 4) + NatBits(seg.Length(), CountBits(seg, typeNumber)) + seg.Payload()
  }

  function SegmentsBits(list: seq<Segment>, typeNumber: int): seq<bool> {
    if list == [] then [] else SegmentsBits(list[..|list| - 1], typeNumber) + SegmentBits(list[|list| - 1], typeNumber)
  }

  /** Tables 2 and 3 of the standard: the mode indicator and how wide the character count is. */
  lemma HeaderIsStandard(seg: Segment, typeNumber: int)
    requires 1 <= typeNumber <= 40
    ensures seg.Numeric? ==>
              SegmentBits(seg, typeNumber) ==
              [false, false, false, true]
              + NatBits(|seg.text|, if typeNumber <= 9 then 10 else if typeNumber <= 26 then 12 else 14) + NumberBits(seg.text)
    ensures seg.Alphanumeric? ==>
              SegmentBits(seg, typeNumber) ==
              [false, false, true, false]
              + NatBits(|seg.text|, if typeNumber <= 9 then 9 else if typeNumber <= 26 then 11 else 13) + AlphaNumBits(seg.text)
    ensures seg.Bytes? ==>
              SegmentBits(seg, typeNumber) ==
              [false, true, false, false] + NatBits(|seg.bytes|, if typeNumber <= 9 then 8 else 16) + OctetBits(seg.bytes)
  {
    ModeBits();
    hide NatBits;
  }

  lemma ModeBits()
    ensures NatBits(1, 4) == [false, false, false, true]
    ensures NatBits(2, 4) == [false, false, true, false]
    ensures NatBits(4, 4) == [false, true, false, false]
  {
  }

  predicate AllEncodable(list: seq<Segment>) {
    forall seg <- list :: seg.Encodable()
  }

  /** What writing one segment throws: the version is looked at before the characters. */
  function SegmentError(seg: Segment, typeNumber: int): Option<EncodeError> {
    if typeNumber >= 41 then Some(BadType) else if !seg.Encodable() then Some(IllegalCharacter) else None
  }

  /** The error of the first segment that has one. */
  predicate IsFirstError(list: seq<Segment>, typeNumber: int, error: Option<EncodeError>) {
    match error
    case None => forall seg <- list :: SegmentError(seg, typeNumber).None?
    case Some(_) => exists i :: 0 <= i < |list| && FailsFirst(list, typeNumber, i) && SegmentError(list[i], typeNumber) == error
  }

  predicate FailsFirst(list: seq<Segment>, typeNumber: int, i: nat)
    requires i < |list|
  {
    SegmentError(list[i], typeNumber).Some? && forall seg <- list[..i] :: SegmentError(seg, typeNumber).None?
  }

  /** The mode indicator, the character count and the payload of one segment. */
  method WriteSegment(buffer: QrBitBuffer, typeNumber: int, data: Segment) returns (error: Option<EncodeError>)
    requires buffer.Valid()
    modifies buffer
    ensures buffer.Valid()
    ensures error == SegmentError(data, typeNumber)
    ensures error.None? ==> buffer.Contents() == old(buffer.Contents()) + SegmentBits(data, typeNumber)
  {
    hide NatBits, NumberBits, AlphaNumBits, OctetBits, AllDigits, AllCoded;
    buffer.Put(data.Mode(), 4);
    var width := LengthInBits(data.Mode(), typeNumber);
    if width.None? {
      return Some(BadType);
    }
    buffer.Put(data.Length(), width.value);
    var ok := true;
    match data {
      case Numeric(text) => ok := WriteNumber(buffer, text);
      case Alphanumeric(text) => ok := WriteAlphaNum(buffer, text);
      case Bytes(bytes) => WriteBytes(buffer, bytes);
    }
    error := if ok then None else Some(IllegalCharacter);
  }

  method WriteSegments(buffer: QrBitBuffer, typeNumber: int, list: seq<Segment>) returns (error: Option<EncodeError>)
    requires buffer.Valid()
    modifies buffer
    ensures buffer.Valid()
    ensures error.None? <==> (list == [] || typeNumber < 41) && AllEncodable(list)
    ensures IsFirstError(list, typeNumber, error)
    ensures error.None? ==> buffer.Contents() == old(buffer.Contents()) + SegmentsBits(list, typeNumber)
  {
    hide SegmentBits;
    for i := 0 to |list|
      invariant buffer.Valid()
      invariant (i == 0 || typeNumber < 41) && AllEncodable(list[..i])
      invariant forall seg <- list[..i] :: SegmentError(seg, typeNumber).None?
      invariant buffer.Contents() == old(buffer.Contents()) + SegmentsBits(list[..i], typeNumber)
    {
      assert list[..i + 1][..i] == list[..i];
      error := WriteSegment(buffer, typeNumber, list[i]);
      if error.Some? {
        assert FailsFirst(list, typeNumber, i);
        return;
      }
    }
    assert list[..|list|] == list;
    return None;
  }

  // ----- terminator and padding

  function ZeroBits(n: nat): (bits: seq<bool>)
    ensures |bits| == n && forall i :: 0 <= i < n ==> !bits[i]
  {
    seq(n, _ => false)
  }

  /** n pad codewords, alternately 0xEC and 0x11. */
  function PadBytes(n: nat): (bits: seq<bool>)
    ensures |bits| == 8 * n
  {
    if n == 0 then [] else PadBytes(n - 1) + NatBits(if (n - 1) % 2 == 0 then PAD0 else PAD1, 8)
  }

  lemma WholeBytesRemain(used: nat, capacity: nat)
    requires used <= capacity && capacity % 8 == 0
    ensures used + (8 - used % 8) % 8 <= capacity
    ensures 8 * ((capacity - used - (8 - used % 8) % 8) / 8) == capacity - used - (8 - used % 8) % 8
  {
    var q, r := used / 8, used % 8;
    var pad := (8 - r) % 8;
    assert used == 8 * q + r && capacity == 8 * (capacity / 8);
    assert used + pad == 8 * (if r == 0 then q else q + 1);
  }

  /** What fills a symbol of capacity bits behind length bits of segments. */
  function Filler(length: nat, capacity: nat): (bits: seq<bool>)
    requires length <= capacity && capacity % 8 == 0
    ensures |bits| == capacity - length
  {
    var terminator := if capacity - length < 4 then capacity - length else 4;
    var toByte := (8 - (length + terminator) % 8) % 8;
    var rest := capacity - length - terminator - toByte;
    WholeBytesRemain(length + terminator, capacity);
    ZeroBits(terminator) + ZeroBits(toByte) + PadBytes(rest / 8)
  }

  lemma {:induction false} PadBytesAt(n: nat, k: nat)
    requires k < n
    ensures PadBytes(n)[8 * k..8 * k + 8] ==
            if k % 2 == 0 then [true, true, true, false, true, true, false, false]
            else [false, false, false, true, false, false, false, true]
  {
    hide NatBits;
    PadBits();
    if k < n - 1 {
      PadBytesAt(n - 1, k);
      assert PadBytes(n)[8 * k..8 * k + 8] == PadBytes(n - 1)[8 * k..8 * k + 8];
    }
  }

  lemma PadBits()
    ensures NatBits(PAD0, 8) == [true, true, true, false, true, true, false, false]
    ensures NatBits(PAD1, 8) == [false, false, false, true, false, false, false, true]
  {
  }

  /** Section 7.4.10: up to four zeros, zeros to the next byte, and from there 11101100 and 00010001 in turn. */
  lemma FillerIsStandard(length: nat, capacity: nat, start: nat)
    requires length <= capacity && capacity % 8 == 0
    requires var terminated := if capacity < length + 4 then capacity else length + 4;
             start % 8 == 0 && terminated <= start < terminated + 8
    ensures start <= capacity
    ensures forall i :: 0 <= i < start - length ==> !Filler(length, capacity)[i]
    ensures forall k: nat :: start + 8 * k < capacity ==>
              PadAt(Filler(length, capacity), start - length + 8 * k,
                    if k % 2 == 0 then [true, true, true, false, true, true, false, false]
                    else [false, false, false, true, false, false, false, true])
  {
    hide PadBytes;
    var n := (capacity - start) / 8;
    assert start <= capacity && start + 8 * n == capacity;
    FillerParts(length, capacity, start - length, n);
    forall k: nat | start + 8 * k < capacity
      ensures PadAt(Filler(length, capacity), start - length + 8 * k,
                    if k % 2 == 0 then [true, true, true, false, true, true, false, false]
                    else [false, false, false, true, false, false, false, true])
    {
      PadBytesAt(n, k);
      Behind(ZeroBits(start - length), PadBytes(n), 8 * k);
    }
  }

  lemma Behind(zeros: seq<bool>, pads: seq<bool>, i: nat)
    requires i + 8 <= |pads|
    ensures PadAt(zeros + pads, |zeros| + i, pads[i..i + 8])
  {
    assert (zeros + pads)[|zeros| + i..|zeros| + i + 8] == pads[i..i + 8];
  }

  predicate PadAt(bits: seq<bool>, i: nat, codeword: seq<bool>) {
    i + 8 <= |bits| && bits[i..i + 8] == codeword
  }

  /** What createData throws: the first segment's error, or else an overflow. */
  predicate IsEncodeError(list: seq<Segment>, typeNumber: int, totalDataCount: nat, error: Option<EncodeError>) {
    if error.None? || error == Some(CodeLengthOverflow) then
      && IsFirstError(list, typeNumber, None)
      && (error.Some? <==> |SegmentsBits(list, typeNumber)| > 8 * totalDataCount)
    else IsFirstError(list, typeNumber, error)
  }

  /** The part of createData that fills the buffer: exactly 8 * totalDataCount bits, or an error. */
  method FillBuffer(typeNumber: int, totalDataCount: nat, list: seq<Segment>)
    returns (buffer: QrBitBuffer, error: Option<EncodeError>)
    ensures fresh(buffer) && buffer.Valid()
    ensures error.None? <==>
      && (list == [] || typeNumber < 41) && AllEncodable(list)
      && |SegmentsBits(list, typeNumber)| <= 8 * totalDataCount
    ensures IsEncodeError(list, typeNumber, totalDataCount, error)
    ensures error == if list != [] && typeNumber >= 41 then Some(BadType)
                     else if !AllEncodable(list) then Some(IllegalCharacter)
                     else if |SegmentsBits(list, typeNumber)| > 8 * totalDataCount then Some(CodeLengthOverflow)
                     else None
    ensures error.None? ==>
      var bits := SegmentsBits(list, typeNumber);
      buffer.Contents() == bits + Filler(|bits|, 8 * totalDataCount)
  {
    hide SegmentsBits, AllEncodable, Filler, IsFirstError;
    buffer := new QrBitBuffer();
    error := WriteSegments(buffer, typeNumber, list);
    if error.Some? {
      NotAnOverflow(list, typeNumber, error);
      WhichError(list, typeNumber, error);
      return;
    }
    if buffer.length > totalDataCount * 8 {
      return buffer, Some(CodeLengthOverflow);
    }
    Pad(buffer, totalDataCount);
  }

  lemma WhichError(list: seq<Segment>, typeNumber: int, error: Option<EncodeError>)
    requires IsFirstError(list, typeNumber, error) && error.Some?
    ensures error == if list != [] && typeNumber >= 41 then Some(BadType) else Some(IllegalCharacter)
    ensures list != [] && typeNumber < 41 ==> !AllEncodable(list)
    ensures list != []
  {
    var i :| 0 <= i < |list| && FailsFirst(list, typeNumber, i) && SegmentError(list[i], typeNumber) == error;
    assert list[i] in list;
  }

  lemma NotAnOverflow(list: seq<Segment>, typeNumber: int, error: Option<EncodeError>)
    requires IsFirstError(list, typeNumber, error)
    ensures error != Some(CodeLengthOverflow)
  {
  }

  /** The end code, where there is room for it, and zeros to the next byte boundary. */
  method EndCode(buffer: QrBitBuffer, totalDataCount: nat)
    requires buffer.Valid() && buffer.length <= 8 * totalDataCount
    modifies buffer
    ensures buffer.Valid() && buffer.length % 8 == 0
    ensures var n := old(buffer.length);
            var terminator := if 8 * totalDataCount - n < 4 then 8 * totalDataCount - n else 4;
            && n + terminator <= buffer.length < n + terminator + 8
            && buffer.Contents() == old(buffer.Contents()) + ZeroBits(buffer.length - n)
  {
    hide NatBits;
    ghost var start, length := buffer.Contents(), buffer.length;
    if buffer.length + 4 <= totalDataCount * 8 {
      buffer.Put(0, 4);
      FourZeros();
    }
    AlignToByte(buffer);
    assert ZeroBits(buffer.length - length) == buffer.Contents()[length..];
  }

  method AlignToByte(buffer: QrBitBuffer)
    requires buffer.Valid()
    modifies buffer
    ensures buffer.Valid() && buffer.length % 8 == 0 && old(buffer.length) <= buffer.length < old(buffer.length) + 8
    ensures buffer.Contents() == old(buffer.Contents()) + ZeroBits(buffer.length - old(buffer.length))
  {
    hide BytesBits, ZeroBits;
    ghost var start := buffer.Contents();
    ghost var target := |start| + 7 - (|start| + 7) % 8;
    ghost var zeros := 0;
    while buffer.length % 8 != 0
      invariant buffer.Valid() && buffer.length == |start| + zeros <= target
      invariant buffer.Contents() == start + ZeroBits(zeros)
      decreases target - buffer.length
    {
      buffer.PutBit(false);
      assert ZeroBits(zeros + 1) == ZeroBits(zeros) + [false];
      zeros := zeros + 1;
    }
  }

  /** The pad codewords. */
  method PadCodewords(buffer: QrBitBuffer, totalDataCount: nat)
    requires buffer.Valid() && buffer.length % 8 == 0 && buffer.length <= 8 * totalDataCount
    modifies buffer
    ensures buffer.Valid() && buffer.length == 8 * totalDataCount
    ensures buffer.Contents() == old(buffer.Contents()) + PadBytes(totalDataCount - old(buffer.length) / 8)
  {
    hide NatBits, PadBytes;
    ghost var n := totalDataCount - buffer.length / 8;
    ghost var aligned, k := buffer.Contents(), 0;
    PadBytesNext(0);
    while true
      invariant buffer.Valid() && buffer.length == |aligned| + 8 * k && k <= n && k % 2 == 0
      invariant buffer.Contents() == aligned + PadBytes(k)
      decreases n - k
    {
      if buffer.length >= totalDataCount * 8 {
        break;
      }
      PutPad(buffer, PAD0, aligned, k);
      k := k + 1;
      if buffer.length >= totalDataCount * 8 {
        break;
      }
      PutPad(buffer, PAD1, aligned, k);
      k := k + 1;
    }
  }

  method PutPad(buffer: QrBitBuffer, pad: nat, ghost aligned: seq<bool>, ghost k: nat)
    requires pad == if k % 2 == 0 then PAD0 else PAD1
    requires buffer.Valid() && buffer.Contents() == aligned + PadBytes(k)
    modifies buffer
    ensures buffer.Valid() && buffer.Contents() == aligned + PadBytes(k + 1)
  {
    hide NatBits, PadBytes;
    PadBytesNext(k);
    buffer.Put(pad, 8);
  }

  method Pad(buffer: QrBitBuffer, totalDataCount: nat)
    requires buffer.Valid() && buffer.length <= 8 * totalDataCount
    modifies buffer
    ensures buffer.Valid()
    ensures buffer.Contents() == old(buffer.Contents()) + Filler(old(buffer.length), 8 * totalDataCount)
  {
    hide PadBytes, Filler;
    ghost var length := buffer.length;
    EndCode(buffer, totalDataCount);
    ghost var zeros := buffer.length - length;
    PadCodewords(buffer, totalDataCount);
    FillerParts(length, 8 * totalDataCount, zeros, totalDataCount - (length + zeros) / 8);
  }

  lemma PadBytesNext(k: nat)
    ensures PadBytes(0) == []
    ensures PadBytes(k + 1) == PadBytes(k) + NatBits(if k % 2 == 0 then PAD0 else PAD1, 8)
  {
    hide NatBits;
  }

  lemma FillerParts(length: nat, capacity: nat, zeros: nat, k: nat)
    requires length <= capacity && capacity % 8 == 0 && length + zeros + 8 * k == capacity
    requires (length + zeros) % 8 == 0
    requires var terminator := if capacity - length < 4 then capacity - length else 4;
             terminator <= zeros < terminator + 8
    ensures Filler(length, capacity) == ZeroBits(zeros) + PadBytes(k)
  {
    hide PadBytes;
    var terminator := if capacity - length < 4 then capacity - length else 4;
    assert ZeroBits(terminator) + ZeroBits(zeros - terminator) == ZeroBits(zeros);
  }

  // ----- reading the segments back

  function DecodeSegments(bits: seq<bool>, typeNumber: int): Option<seq<Segment>>
    decreases |bits|
  {
    if |bits| < 4 || BitsNat(bits[..4]) == 0 then Some([])
    else
      var mode := BitsNat(bits[..4]);
      match LengthInBits(mode, typeNumber)
      case None => None
      case Some(width) =>
        if |bits| < 4 + width then None
        else
          var count := BitsNat(bits[4..][..width]);
          match DecodePayload(mode, count, bits[4..][width..])
          case None => None
          case Some((seg, rest)) =>
            match DecodeSegments(rest, typeNumber)
            case None => None
            case Some(segs) => Some([seg] + segs)
  }

  function DecodePayload(mode: nat, count: nat, bits: seq<bool>): (r: Option<(Segment, seq<bool>)>)
    ensures r.Some? ==> |r.value.1| <= |bits|
  {
    match mode
    case 1 =>
      (match DecodeNumber(bits, count)
       case None => None
       case Some((text, rest)) => Some((Numeric(text), rest)))
    case 2 =>
      (match DecodeAlphaNum(bits, count)
       case None => None
       case Some((text, rest)) => Some((Alphanumeric(text), rest)))
    case 4 =>
      (match DecodeBytes(bits, count)
       case None => None
       case Some((bytes, rest)) => Some((Bytes(bytes), rest)))
    case _ => None
  }

  /** The count of every segment fits its field. */
  predicate CountsFit(list: seq<Segment>, typeNumber: int) {
    forall seg <- list :: seg.Length() < Pow2(CountBits(seg, typeNumber))
  }

  ghost predicate EndsMessage(tail: seq<bool>) {
    |tail| < 4 || tail[..4] == [false, false, false, false]
  }

  lemma PayloadRoundTrip(seg: Segment, rest: seq<bool>)
    requires seg.Encodable()
    ensures DecodePayload(seg.Mode(), seg.Length(), seg.Payload() + rest) == Some((seg, rest))
  {
    match seg
    case Numeric(text) => NumberRoundTrip(text, rest);
    case Alphanumeric(text) => AlphaNumRoundTrip(text, rest);
    case Bytes(bytes) => BytesRoundTrip(bytes, rest);
  }

  lemma {:induction false} FirstSegment(list: seq<Segment>, typeNumber: int)
    requires list != []
    ensures SegmentsBits(list, typeNumber) == SegmentBits(list[0], typeNumber) + SegmentsBits(list[1..], typeNumber)
  {
    hide SegmentBits, SegmentsBits;
    var n := |list| - 1;
    LastSegment(list, typeNumber);
    if n == 0 {
      NoSegments(typeNumber);
      assert list[..0] == [] && list[1..] == [];
    } else {
      FirstSegment(list[..n], typeNumber);
      LastSegment(list[1..], typeNumber);
      assert list[..n][1..] == list[1..][..n - 1];
    }
  }

  lemma LastSegment(list: seq<Segment>, typeNumber: int)
    requires list != []
    ensures SegmentsBits(list, typeNumber) ==
            SegmentsBits(list[..|list| - 1], typeNumber) + SegmentBits(list[|list| - 1], typeNumber)
  {
  }

  /** Decoding what the encoder wrote, whatever follows the terminator, gives the segments back. */
  lemma {:induction false} SegmentsRoundTrip(list: seq<Segment>, typeNumber: int, tail: seq<bool>)
    requires AllEncodable(list) && CountsFit(list, typeNumber) && EndsMessage(tail)
    requires list == [] || typeNumber < 41
    ensures DecodeSegments(SegmentsBits(list, typeNumber) + tail, typeNumber) == Some(list)
    decreases list
  {
    hide BitsNat, SegmentBits, SegmentsBits, Pow2;
    assert SegmentsBits([], typeNumber) == [] by { NoSegments(typeNumber); }
    var bits := SegmentsBits(list, typeNumber) + tail;
    if list == [] {
      assert bits == tail;
      if |tail| >= 4 {
        FourZeros();
      }
    } else {
      FirstSegment(list, typeNumber);
      DecodeFirst(list[0], typeNumber, SegmentsBits(list[1..], typeNumber) + tail);
      assert bits == SegmentBits(list[0], typeNumber) + (SegmentsBits(list[1..], typeNumber) + tail);
      SegmentsRoundTrip(list[1..], typeNumber, tail);
      assert list == [list[0]] + list[1..];
    }
  }

  lemma NoSegments(typeNumber: int)
    ensures SegmentsBits([], typeNumber) == []
  {
  }

  lemma DecodeFirst(seg: Segment, typeNumber: int, rest: seq<bool>)
    requires seg.Encodable() && typeNumber < 41 && seg.Length() < Pow2(CountBits(seg, typeNumber))
    ensures DecodeSegments(SegmentBits(seg, typeNumber) + rest, typeNumber) ==
            match DecodeSegments(rest, typeNumber) { case None => None case Some(segs) => Some([seg] + segs) }
  {
    hide NatBits, BitsNat, DecodePayload, Pow2, DecodeNumber, DecodeAlphaNum, DecodeBytes;
    var width := CountBits(seg, typeNumber);
    var body := seg.Payload() + rest;
    var bits := SegmentBits(seg, typeNumber) + rest;
    Pow2Values();
    FieldReadBack(seg.Length(), width, body);
    FieldReadBack(seg.Mode(), 4, NatBits(seg.Length(), width) + body);
    assert bits == NatBits(seg.Mode(), 4) + (NatBits(seg.Length(), width) + body);
    PayloadRoundTrip(seg, rest);
  }

  lemma FourZeros()
    ensures NatBits(0, 4) == ZeroBits(4) == [false, false, false, false]
    ensures BitsNat([false, false, false, false]) == 0
  {
    assert NatBits(0, 4) == [false, false, false, false];
    BitsNatOfNatBits(0, 4);
  }

  lemma FillerEndsMessage(length: nat, capacity: nat)
    requires length <= capacity && capacity % 8 == 0
    ensures EndsMessage(Filler(length, capacity))
  {
    hide PadBytes;
  }

  // ----- the count field never overflows where the symbol's capacity is that of the standard

  /** The most data codewords any symbol of this size class has (levels L of 9, 26 and 40). */
  function MaxDataCount(typeNumber: int): nat {
    if typeNumber < 10 then 232 else if typeNumber < 27 then 1370 else 2956
  }

  lemma {:induction false} PayloadSize(seg: Segment)
    ensures seg.Numeric? ==> 10 * seg.Length() <= 3 * |seg.Payload()|
    ensures seg.Alphanumeric? ==> 11 * seg.Length() <= 2 * |seg.Payload()|
    ensures seg.Bytes? ==> 8 * seg.Length() == |seg.Payload()|
    decreases seg.Length()
  {
    match seg
    case Numeric(text) => if |text| >= 3 { PayloadSize(Numeric(text[3..])); }
    case Alphanumeric(text) => if |text| >= 2 { PayloadSize(Alphanumeric(text[2..])); }
    case Bytes(bytes) =>
  }

  lemma {:induction false} SegmentFitsTotal(list: seq<Segment>, typeNumber: int, i: nat)
    requires i < |list|
    ensures |list[i].Payload()| <= |SegmentsBits(list, typeNumber)|
  {
    if i < |list| - 1 {
      SegmentFitsTotal(list[..|list| - 1], typeNumber, i);
    }
  }

  lemma CapacityBoundsCounts(list: seq<Segment>, typeNumber: int, totalDataCount: nat)
    requires 1 <= typeNumber <= 40 && totalDataCount <= MaxDataCount(typeNumber)
    requires |SegmentsBits(list, typeNumber)| <= 8 * totalDataCount
    ensures CountsFit(list, typeNumber)
  {
    forall i | 0 <= i < |list| ensures list[i].Length() < Pow2(CountBits(list[i], typeNumber)) {
      SegmentFitsTotal(list, typeNumber, i);
      PayloadSize(list[i]);
      Pow2Values();
    }
  }
}
