/** The variable-width LZW coder of the GIF writer, and an ordinary GIF decoder whose dictionary
    lags one entry behind. */
module Lzw {
  import opened Prelude
  import opened Bits

  type pixels = seq<nat>

  const CLEAR_CODE: nat := 4
  const END_CODE: nat := 5
  const FIRST_WIDTH: nat := 3
  const MAX_WIDTH: nat := 12

  /** The encoder stops adding entries at this size. */
  const FULL: nat := 0xfff

  /** What both sides start from: the four pixels, and the two codes that stand for no pixels. */
  function InitialDict(): seq<pixels> {
    [[0], [1], [2], [3], [CLEAR_CODE], [END_CODE]]
  }

  predicate ArePixels(data: pixels) {
    forall p <- data :: p < CLEAR_CODE
  }

  // ----- the encoder, as a function of its state

  /** The table as a sequence of strings, the string being matched, and the current code width. */
  datatype Encoder = Encoder(dict: seq<pixels>, s: pixels, width: nat) {
    ghost predicate Valid() {
      && InitialDict() <= dict
      && |dict| <= FULL && FIRST_WIDTH <= width <= MAX_WIDTH
      && |dict| <= Pow2(width) && (width > FIRST_WIDTH ==> |dict| > Pow2(width - 1))
      && Distinct(dict)
      && s != [] && ArePixels(s) && s in dict
    }

    /** The table and width after the code of s is written and the next pixel is c. */
    function Emitted(c: nat): Encoder {
      if |dict| < FULL then
        Encoder(dict + [s + [c]], [c], if |dict| == Pow2(width) then width + 1 else width)
      else
        Encoder(dict, [c], width)
    }
  }

  predicate Distinct(dict: seq<pixels>) {
    forall i, j :: 0 <= i < j < |dict| ==> dict[i] != dict[j]
  }

  function IndexOf(dict: seq<pixels>, s: pixels): (i: nat)
    requires s in dict
    ensures i < |dict| && dict[i] == s
  {
    if dict[0] == s then 0 else 1 + IndexOf(dict[1..], s)
  }

  /** The codes still to come, each with its width, when rest is left to read. */
  function Codes(e: Encoder, rest: pixels): seq<(nat, nat)>
    requires e.s in e.dict
    requires forall p <- rest :: [p] in e.dict
    decreases |rest|
  {
    if rest == [] then [(IndexOf(e.dict, e.s), e.width)]
    else if e.s + [rest[0]] in e.dict then Codes(e.(s := e.s + [rest[0]]), rest[1..])
    else
      [(IndexOf(e.dict, e.s), e.width)] + Codes(e.Emitted(rest[0]), rest[1..])
  }

  /** The encoder's state when the last code is written. */
  function Final(e: Encoder, rest: pixels): Encoder
    decreases |rest|
  {
    if rest == [] then e
    else if e.s + [rest[0]] in e.dict then Final(e.(s := e.s + [rest[0]]), rest[1..])
    else Final(e.Emitted(rest[0]), rest[1..])
  }

  // ----- the decoder

  /** The lagging dictionary, the previous string, and the width of the next code. */
  datatype Decoder = Decoder(dict: seq<pixels>, prev: Option<pixels>, width: nat) {
    /** The string a code stands for; a code one past the dictionary repeats the previous string. */
    function Entry(code: nat): Option<pixels> {
      if code < |dict| then Some(dict[code])
      else if code == |dict| && prev.Some? && prev.value != [] then Some(prev.value + [prev.value[0]])
      else None
    }

    /** After a code that stands for entry: one more string, and a wider code once the dictionary fills the width. */
    function Next(entry: pixels): Decoder
      requires entry != []
    {
      if prev.None? || |dict| > FULL then Decoder(dict, Some(entry), width)
      else
        var longer := dict + [prev.value + [entry[0]]];
        Decoder(longer, Some(entry), if |longer| == Pow2(width) && width < MAX_WIDTH then width + 1 else width)
    }
  }

  const START := Decoder(InitialDict(), None, FIRST_WIDTH)

  // ----- keeping step

  /** The decoder is ready for the code of e.s. */
  ghost predicate InStep(e: Encoder, d: Decoder) {
    && d.width == e.width && e.s != []
    && match d.prev
       case None => d.dict == e.dict && |e.dict| == 6
       case Some(p) =>
         && p != []
         && (|| e.dict == d.dict + [p + [e.s[0]]]
             || (|e.dict| == FULL && e.dict <= d.dict && |d.dict| <= FULL + 1))
  }

  lemma {:induction false} IndexOfUnique(dict: seq<pixels>, s: pixels, i: nat)
    requires Distinct(dict) && i < |dict| && dict[i] == s
    ensures IndexOf(dict, s) == i
  {
    if i > 0 {
      IndexOfUnique(dict[1..], s, i - 1);
    }
  }

  lemma NotASpecialCode(e: Encoder)
    requires e.Valid()
    ensures IndexOf(e.dict, e.s) != CLEAR_CODE && IndexOf(e.dict, e.s) != END_CODE
    ensures IndexOf(e.dict, e.s) < Pow2(e.width)
  {
    assert e.dict[CLEAR_CODE] == [CLEAR_CODE] && e.dict[END_CODE] == [END_CODE];
    assert e.s[0] in e.s;
  }

  /** The code of e.s decodes to e.s, also when the decoder does not have the entry yet. */
  lemma EntryOfCode(e: Encoder, d: Decoder)
    requires e.Valid() && InStep(e, d)
    ensures d.Entry(IndexOf(e.dict, e.s)) == Some(e.s)
  {
  }

  lemma GrowValid(e: Encoder, c: nat)
    requires e.Valid() && e.s + [c] in e.dict && c < CLEAR_CODE
    ensures e.(s := e.s + [c]).Valid()
  {
  }

  /** Reading one more pixel into the match keeps the two in step. */
  lemma GrowKeepsStep(e: Encoder, d: Decoder, c: nat)
    requires e.Valid() && InStep(e, d) && e.s + [c] in e.dict && c < CLEAR_CODE
    ensures e.(s := e.s + [c]).Valid() && InStep(e.(s := e.s + [c]), d)
  {
  }

  lemma Pow2AtWidths()
    ensures Pow2(2) == 4 && Pow2(3) == 8 && Pow2(11) == 2048 && Pow2(12) == 4096
  {
  }

  lemma EmitValid(e: Encoder, c: nat)
    requires e.Valid() && e.s + [c] !in e.dict && c < CLEAR_CODE
    ensures e.Emitted(c).Valid()
  {
    Pow2AtWidths();
    assert e.dict[c] == [c];
    if e.width != MAX_WIDTH {
      Pow2Monotone(e.width, 11);
    }
  }

  /** So does writing the code of e.s and starting over with c. */
  lemma EmitKeepsStep(e: Encoder, d: Decoder, c: nat)
    requires e.Valid() && InStep(e, d) && e.s + [c] !in e.dict && c < CLEAR_CODE
    ensures e.Emitted(c).Valid() && InStep(e.Emitted(c), d.Next(e.s))
  {
    EmitValid(e, c);
    Pow2AtWidths();
  }

  // ----- the bit stream

  function CodeBits(codes: seq<(nat, nat)>): seq<bool> {
    if codes == [] then [] else LsbBits(codes[0].0, codes[0].1) + CodeBits(codes[1..])
  }

  /** Reads codes up to the end code: the pixels, and whether the end code was there. */
  function Decode(bits: seq<bool>, d: Decoder): (pixels, bool)
    decreases |bits|
  {
    if d.width == 0 || |bits| < d.width then ([], false)
    else
      var code, rest := LsbNat(bits[..d.width]), bits[d.width..];
      if code == END_CODE then ([], true)
      else if code == CLEAR_CODE then Decode(rest, START)
      else
        match d.Entry(code)
        case None => ([], false)
        case Some(entry) =>
          if entry == [] then ([], false)
          else
            var (more, ended) := Decode(rest, d.Next(entry));
            (entry + more, ended)
  }

  /** The width the decoder expects after the last code; the encoder has not widened yet. */
  function WidthAfter(f: Encoder): nat {
    if |f.dict| == Pow2(f.width) && f.width < MAX_WIDTH then f.width + 1 else f.width
  }

  lemma DecodeOne(e: Encoder, d: Decoder, tail: seq<bool>)
    requires e.Valid() && InStep(e, d)
    ensures var (more, ended) := Decode(tail, d.Next(e.s));
            Decode(LsbBits(IndexOf(e.dict, e.s), e.width) + tail, d) == (e.s + more, ended)
  {
    hide LsbBits, LsbNat;
    var code := IndexOf(e.dict, e.s);
    NotASpecialCode(e);
    EntryOfCode(e, d);
    LsbNatOfLsbBits(code, e.width, 0);
    var bits := LsbBits(code, e.width) + tail;
    assert bits[..e.width] == LsbBits(code, e.width) + seq(0, _ => false);
    assert bits[e.width..] == tail;
  }

  lemma LastWidth(f: Encoder, d: Decoder)
    requires f.Valid() && InStep(f, d)
    ensures d.Next(f.s).width == WidthAfter(f)
  {
    Pow2AtWidths();
  }

  lemma SingletonsInDict(rest: pixels, dict: seq<pixels>)
    requires ArePixels(rest) && InitialDict() <= dict
    ensures forall p <- rest :: [p] in dict
  {
    forall p <- rest ensures [p] in dict {
      assert dict[p] == [p];
    }
  }

  ghost predicate CodeFits(code: (nat, nat)) {
    code.0 < Pow2(code.1) && FIRST_WIDTH <= code.1 <= MAX_WIDTH
  }

  /** Every code fits its width, and no width exceeds 12. */
  lemma {:induction false} CodesFit(e: Encoder, rest: pixels)
    requires e.Valid() && ArePixels(rest)
    ensures forall p <- rest :: [p] in e.dict
    ensures e.s in e.dict && forall k :: 0 <= k < |Codes(e, rest)| ==> CodeFits(Codes(e, rest)[k])
    decreases |rest|
  {
    hide Encoder.Emitted, IndexOf, Pow2;
    SingletonsInDict(rest, e.dict);
    NotASpecialCode(e);
    if rest != [] {
      var c := rest[0];
      assert c in rest && forall p <- rest[1..] :: p in rest;
      if e.s + [c] in e.dict {
        GrowValid(e, c);
        CodesFit(e.(s := e.s + [c]), rest[1..]);
      } else {
        EmitValid(e, c);
        CodesFit(e.Emitted(c), rest[1..]);
      }
    }
  }

  /** The decoder turns the codes back into the pixels and then reads on at the width it expects. */
  lemma {:induction false} DecodeFollowsEncode(e: Encoder, rest: pixels, d: Decoder, tail: seq<bool>) returns (after: Decoder)
    requires e.Valid() && InStep(e, d) && ArePixels(rest)
    ensures forall p <- rest :: [p] in e.dict
    ensures Final(e, rest).Valid() && after.width == WidthAfter(Final(e, rest))
    ensures var (more, ended) := Decode(tail, after);
            Decode(CodeBits(Codes(e, rest)) + tail, d) == (e.s + rest + more, ended)
    decreases |rest|
  {
    hide Decode, LsbBits, InStep, IndexOf, Encoder.Emitted, Decoder.Next, Encoder.Valid, WidthAfter;
    ValidDict(e);
    SingletonsInDict(rest, e.dict);
    var code := IndexOf(e.dict, e.s);
    if rest == [] {
      DecodeOne(e, d, tail);
      LastWidth(e, d);
      after := d.Next(e.s);
      assert CodeBits([(code, e.width)]) + tail == LsbBits(code, e.width) + tail;
      assert e.s + rest == e.s;
    } else {
      assert rest[0] in rest && forall p <- rest[1..] :: p in rest;
      var c := rest[0];
      if e.s + [c] in e.dict {
        GrowKeepsStep(e, d, c);
        after := DecodeFollowsEncode(e.(s := e.s + [c]), rest[1..], d, tail);
        assert e.s + [c] + rest[1..] == e.s + rest;
      } else {
        EmitKeepsStep(e, d, c);
        var f := e.Emitted(c);
        after := DecodeFollowsEncode(f, rest[1..], d.Next(e.s), tail);
        var more := CodeBits(Codes(f, rest[1..])) + tail;
        DecodeOne(e, d, more);
        assert CodeBits(Codes(e, rest)) + tail == LsbBits(code, e.width) + more;
        EmittedStarts(e, c);
        Regroup(e.s, c, rest, Decode(tail, after).0);
      }
    }
  }

  lemma ValidDict(e: Encoder)
    requires e.Valid()
    ensures InitialDict() <= e.dict && e.s in e.dict && e.s != []
  {
  }

  lemma Regroup(s: pixels, c: nat, rest: pixels, more: pixels)
    requires rest != [] && rest[0] == c
    ensures s + ([c] + rest[1..] + more) == s + rest + more
  {
  }

  lemma EmittedStarts(e: Encoder, c: nat)
    ensures e.Emitted(c).s == [c]
  {
  }

  // ----- the whole raster

  /** The first pixel; of an empty image the writer encodes a pixel 0 that is not there. */
  function FirstPixel(data: pixels): nat {
    if data == [] then 0 else data[0]
  }

  function Started(data: pixels): Encoder {
    Encoder(InitialDict(), [FirstPixel(data)], FIRST_WIDTH)
  }

  function Rest(data: pixels): pixels {
    if data == [] then [] else data[1..]
  }

  lemma StartedValid(data: pixels)
    requires ArePixels(data)
    ensures Started(data).Valid() && InStep(Started(data), START) && ArePixels(Rest(data))
    ensures forall p <- Rest(data) :: [p] in InitialDict()
    ensures Started(data).s in InitialDict()
  {
    Pow2AtWidths();
    var p := FirstPixel(data);
    assert data != [] ==> data[0] in data;
    assert InitialDict()[p] == [p];
    assert forall q <- Rest(data) :: q in data;
    SingletonsInDict(Rest(data), InitialDict());
  }

  /** The codes between the clear code and the end code. */
  function RasterCodes(data: pixels): seq<(nat, nat)>
    requires ArePixels(data)
  {
    StartedValid(data);
    Codes(Started(data), Rest(data))
  }

  /** The bits getLZWRaster writes: clear code, codes, end code. */
  ghost function RasterBits(data: pixels): seq<bool>
    requires ArePixels(data)
  {
    LsbBits(CLEAR_CODE, FIRST_WIDTH) + CodeBits(RasterCodes(data))
    + LsbBits(END_CODE, Final(Started(data), Rest(data)).width)
  }

  /** For every image all codes written, the clear code and the end code included, fit their widths of 3 to 12. */
  lemma RasterCodesFit(data: pixels)
    requires ArePixels(data)
    ensures var last := Final(Started(data), Rest(data)).width;
            forall code <- [(CLEAR_CODE, FIRST_WIDTH)] + RasterCodes(data) + [(END_CODE, last)] :: CodeFits(code)
  {
    hide Codes, Final;
    StartedValid(data);
    CodesFit(Started(data), Rest(data));
    FinalValid(Started(data), Rest(data));
    Pow2AtWidths();
    Pow2Monotone(FIRST_WIDTH, Final(Started(data), Rest(data)).width);
  }

  lemma {:induction false} FinalValid(e: Encoder, rest: pixels)
    requires e.Valid() && ArePixels(rest)
    ensures Final(e, rest).Valid()
    decreases |rest|
  {
    hide Encoder.Emitted, Encoder.Valid;
    if rest != [] {
      var c := rest[0];
      assert c in rest && forall p <- rest[1..] :: p in rest;
      if e.s + [c] in e.dict {
        GrowValid(e, c);
        FinalValid(e.(s := e.s + [c]), rest[1..]);
      } else {
        EmitValid(e, c);
        FinalValid(e.Emitted(c), rest[1..]);
      }
    }
  }

  /** The table is exactly full for the code width when the last code is written. */
  ghost predicate WidensAtEnd(data: pixels) {
    WidthAfter(Final(Started(data), Rest(data))) != Final(Started(data), Rest(data)).width
  }

  lemma EndCodeRead(f: Encoder, after: Decoder, zeros: nat)
    requires f.Valid() && after.width == WidthAfter(f)
    ensures var bits := LsbBits(END_CODE, f.width) + seq(zeros, _ => false);
            Decode(bits, after) == ([], after.width == f.width || zeros > 0)
  {
    var pad := seq(zeros, _ => false);
    var bits := LsbBits(END_CODE, f.width) + pad;
    Pow2AtWidths();
    Pow2Monotone(3, f.width);
    var extra := after.width - f.width;
    if extra <= zeros {
      LsbNatOfLsbBits(END_CODE, f.width, extra);
      assert bits[..after.width] == LsbBits(END_CODE, f.width) + seq(extra, _ => false);
    }
  }

  /** For every image of pixels below 4, reading the raster's bits, zero-padded to whole bytes, gives
      exactly the pixels. The end code is found as well, except where the decoder has widened for it
      and no padding bit completes the wider code. */
  lemma RasterRoundTrip(data: pixels, zeros: nat)
    requires ArePixels(data)
    ensures Decode(RasterBits(data) + seq(zeros, _ => false), START) ==
            ([FirstPixel(data)] + Rest(data), !WidensAtEnd(data) || zeros > 0)
  {
    hide Decode, LsbBits, Encoder.Valid, WidthAfter, CodeBits, Codes, InStep;
    var e, rest := Started(data), Rest(data);
    StartedValid(data);
    var f := Final(e, rest);
    var pad := seq(zeros, _ => false);
    var tail := LsbBits(END_CODE, f.width) + pad;
    var after := DecodeFollowsEncode(e, rest, START, tail);
    EndCodeRead(f, after, zeros);
    var body := CodeBits(Codes(e, rest)) + tail;
    ClearFirst(body);
    assert RasterBits(data) + pad == LsbBits(CLEAR_CODE, FIRST_WIDTH) + body;
    assert e.s + rest + [] == [FirstPixel(data)] + rest;
  }

  lemma ClearFirst(rest: seq<bool>)
    ensures Decode(LsbBits(CLEAR_CODE, FIRST_WIDTH) + rest, START) == Decode(rest, START)
  {
    var bits := LsbBits(CLEAR_CODE, FIRST_WIDTH) + rest;
    Pow2AtWidths();
    LsbNatOfLsbBits(CLEAR_CODE, FIRST_WIDTH, 0);
    assert bits[..FIRST_WIDTH] == LsbBits(CLEAR_CODE, FIRST_WIDTH) + seq(0, _ => false);
    assert bits[FIRST_WIDTH..] == rest;
  }
}
