/** How long a raster is: the table's size fixes the code width and how many pixels a code can cover, which
    decides when the end code is lost. */
module RasterLength {
  import opened Prelude
  import opened Bits
  import opened Lzw

  // ----- the width at each table size

  function WidthFor(size: nat): nat {
    if size <= 8 then 3 else if size <= 16 then 4 else if size <= 32 then 5 else if size <= 64 then 6
    else if size <= 128 then 7 else if size <= 256 then 8 else if size <= 512 then 9 else if size <= 1024 then 10
    else if size <= 2048 then 11 else 12
  }

  lemma PowersOfTwo()
    ensures Pow2(2) == 4 && Pow2(3) == 8 && Pow2(4) == 16 && Pow2(5) == 32 && Pow2(6) == 64 && Pow2(7) == 128
    ensures Pow2(8) == 256 && Pow2(9) == 512 && Pow2(10) == 1024 && Pow2(11) == 2048 && Pow2(12) == 4096
  {
    assert Pow2(4) == 16 && Pow2(6) == 64 && Pow2(8) == 256 && Pow2(10) == 1024;
  }

  lemma WidthIs(e: Encoder)
    requires e.Valid()
    ensures e.width == WidthFor(|e.dict|) && 6 <= |e.dict| <= FULL
  {
    hide Pow2;
    PowersOfTwo();
    assert e.width == 3 || e.width == 4 || e.width == 5 || e.width == 6 || e.width == 7 || e.width == 8
        || e.width == 9 || e.width == 10 || e.width == 11 || e.width == 12;
  }

  /** The bits of the codes written while the table grows from 6 to size entries. */
  function LengthTo(size: nat): nat {
    if size < 6 then 0 else LengthTo(size - 1) + WidthFor(size)
  }

  lemma {:induction false} Stretch(a: nat, b: nat, width: nat)
    requires 6 <= a <= b && forall size :: a < size <= b ==> WidthFor(size) == width
    ensures LengthTo(b) == LengthTo(a) + width * (b - a)
  {
    hide WidthFor;
    if a < b {
      Stretch(a, b - 1, width);
    }
  }

  /** The length when the table is full for its width: each width from 4 on fills whole bytes. */
  lemma FullLengths()
    ensures LengthTo(8) == 9 && LengthTo(16) == 41 && LengthTo(32) == 121 && LengthTo(64) == 313
    ensures LengthTo(128) == 761 && LengthTo(256) == 1785 && LengthTo(512) == 4089 && LengthTo(1024) == 9209
    ensures LengthTo(2048) == 20473
  {
    hide LengthTo;
    FirstLength();
    Stretch(8, 16, 4);
    Stretch(16, 32, 5);
    Stretch(32, 64, 6);
    Stretch(64, 128, 7);
    Stretch(128, 256, 8);
    Stretch(256, 512, 9);
    Stretch(512, 1024, 10);
    Stretch(1024, 2048, 11);
  }

  lemma FirstLength()
    ensures LengthTo(8) == 9
  {
    assert LengthTo(6) == 3;
  }

  // ----- codes and their bits

  lemma CodeBitsFirst(codes: seq<(nat, nat)>)
    requires codes != []
    ensures |CodeBits(codes)| == codes[0].1 + |CodeBits(codes[1..])|
  {
    hide LsbBits;
  }

  ghost predicate CountedFrom(e: Encoder, codes: seq<(nat, nat)>, size: nat) {
    && 1 <= |e.dict| <= size && |codes| >= size - |e.dict| + 1
    && (size < FULL ==> |codes| == size - |e.dict| + 1 && |CodeBits(codes)| == LengthTo(size) - LengthTo(|e.dict| - 1))
  }

  /** As long as the table is not full, each code but the last adds one entry. */
  lemma {:induction false} CodesCounted(e: Encoder, rest: pixels)
    requires e.Valid() && ArePixels(rest)
    ensures forall p <- rest :: [p] in e.dict
    ensures e.s in e.dict && CountedFrom(e, Codes(e, rest), |Final(e, rest).dict|)
    decreases |rest|
  {
    hide IndexOf, LsbBits, CodeBits;
    SingletonsInDict(rest, e.dict);
    WidthIs(e);
    var codes := Codes(e, rest);
    if rest == [] {
      CodeBitsFirst(codes);
      assert codes[1..] == [];
      NoCodeBits();
    } else {
      var c := rest[0];
      assert c in rest && forall p <- rest[1..] :: p in rest;
      if e.s + [c] in e.dict {
        GrowValid(e, c);
        CodesCounted(e.(s := e.s + [c]), rest[1..]);
      } else {
        EmitValid(e, c);
        CodesCounted(e.Emitted(c), rest[1..]);
        CodeBitsFirst(codes);
        assert codes[1..] == Codes(e.Emitted(c), rest[1..]);
      }
    }
  }

  lemma NoCodeBits()
    ensures CodeBits([]) == []
  {
  }

  /** The decoder widens for the end code and no padding helps it exactly when the raster has eleven codes. */
  lemma LosesExactly(data: pixels)
    requires ArePixels(data)
    ensures WidensAtEnd(data) && |RasterBits(data)| % 8 == 0 <==> |RasterCodes(data)| == 11
  {
    hide Codes, Final, CodeBits, LsbBits, Pow2, LengthTo, Encoder.Valid;
    StartedValid(data);
    var f := Final(Started(data), Rest(data));
    FinalValid(Started(data), Rest(data));
    CodesCounted(Started(data), Rest(data));
    WidthIs(f);
    NoLength();
    if |f.dict| < FULL {
      RasterSize(data);
      SizesAtPowers(|f.dict|);
    }
  }

  lemma NoLength()
    ensures LengthTo(5) == 0
  {
  }

  lemma RasterSize(data: pixels)
    requires ArePixels(data)
    ensures |RasterBits(data)| == 3 + |CodeBits(RasterCodes(data))| + Final(Started(data), Rest(data)).width
  {
    hide Codes, Final, CodeBits, LsbBits;
  }

  lemma SizesAtPowers(size: nat)
    requires 6 <= size < FULL
    ensures Pow2(WidthFor(size)) == size && WidthFor(size) < MAX_WIDTH ==>
              ((3 + LengthTo(size) + WidthFor(size)) % 8 == 0 <==> size == 16)
    ensures size == 16 ==> Pow2(WidthFor(size)) == size && WidthFor(size) < MAX_WIDTH
  {
    hide Pow2, LengthTo;
    PowersOfTwo();
    FullLengths();
  }

  // ----- how many pixels the codes cover

  /** The entry at i stands for at most i - 4 pixels, one of the first six for one. */
  predicate ShortEntries(dict: seq<pixels>) {
    forall i :: 0 <= i < |dict| ==> |dict[i]| <= if i < 6 then 1 else i - 4
  }

  /** The pixels that codes written at table sizes 6 to size can cover. */
  function CoverTo(size: nat): nat {
    if size < 6 then 0 else CoverTo(size - 1) + (size - 5)
  }

  lemma {:induction false} PixelsCovered(e: Encoder, rest: pixels)
    requires e.Valid() && ArePixels(rest) && ShortEntries(e.dict) && |Final(e, rest).dict| < FULL
    ensures |e.dict| <= |Final(e, rest).dict|
    ensures |e.s| + |rest| <= CoverTo(|Final(e, rest).dict|) - CoverTo(|e.dict| - 1)
    decreases |rest|
  {
    hide Pow2;
    assert |e.dict| >= 6;
    var i :| 0 <= i < |e.dict| && e.dict[i] == e.s;
    if rest != [] {
      var c := rest[0];
      assert c in rest && forall p <- rest[1..] :: p in rest;
      if e.s + [c] in e.dict {
        GrowValid(e, c);
        PixelsCovered(e.(s := e.s + [c]), rest[1..]);
      } else {
        EmitValid(e, c);
        StillFree(e.Emitted(c), rest[1..]);
        PixelsCovered(e.Emitted(c), rest[1..]);
      }
    }
  }

  lemma {:induction false} StillFree(e: Encoder, rest: pixels)
    ensures |e.dict| <= |Final(e, rest).dict|
    decreases |rest|
  {
    if rest != [] {
      var c := rest[0];
      if e.s + [c] in e.dict {
        StillFree(e.(s := e.s + [c]), rest[1..]);
      } else {
        StillFree(e.Emitted(c), rest[1..]);
      }
    }
  }

  lemma CoverOfSixteen()
    ensures CoverTo(16) == 66 && CoverTo(5) == 0
  {
    assert CoverTo(8) == 6;
    assert CoverTo(10) == 15;
    assert CoverTo(12) == 28;
    assert CoverTo(14) == 45;
  }

  /** Eleven codes cover at most 66 pixels. */
  lemma ElevenCodesAreShort(data: pixels)
    requires ArePixels(data) && |RasterCodes(data)| == 11
    ensures |data| <= 66
  {
    hide Codes, Final, CoverTo, Encoder.Valid;
    StartedValid(data);
    CodesCounted(Started(data), Rest(data));
    assert |Final(Started(data), Rest(data)).dict| == 16;
    PixelsCovered(Started(data), Rest(data));
    CoverOfSixteen();
  }

  // ----- the longest image that loses its end code

  function Zeros(n: nat): (z: pixels)
    ensures |z| == n && ArePixels(z)
  {
    seq(n, _ => 0)
  }

  /** The table after k codes of an image of zeros. */
  function ZeroDict(k: nat): (dict: seq<pixels>)
    ensures |dict| == 6 + k
  {
    InitialDict() + seq(k, i requires 0 <= i < k => Zeros(i + 2))
  }

  function AtZeros(k: nat, j: nat): Encoder {
    Encoder(ZeroDict(k), Zeros(j), WidthFor(6 + k))
  }

  lemma ZerosIn(k: nat, j: nat)
    requires j >= 1
    ensures Zeros(j) in ZeroDict(k) <==> j <= k + 1
  {
    var dict := ZeroDict(k);
    if j == 1 {
      assert dict[0] == Zeros(1);
    } else if j <= k + 1 {
      assert dict[6 + (j - 2)] == Zeros(j);
    } else {
      forall i | 0 <= i < |dict| ensures dict[i] != Zeros(j) {
        assert |dict[i]| == if i < 6 then 1 else i - 4;
      }
    }
  }

  lemma ZeroEmits(k: nat)
    requires 6 + k < FULL
    ensures AtZeros(k, k + 1).Emitted(0) == AtZeros(k + 1, 1)
  {
    hide Pow2;
    PowersOfTwo();
    assert Zeros(k + 1) + [0] == Zeros(k + 2) && [0] == Zeros(1);
    assert ZeroDict(k) + [Zeros(k + 2)] == ZeroDict(k + 1);
  }

  /** From a match of j zeros, the k + 1 - j zeros that complete the next code. */
  lemma {:induction false} ZeroGrows(k: nat, j: nat, m: nat)
    requires 1 <= j <= k + 1 && m >= k + 1 - j
    ensures Final(AtZeros(k, j), Zeros(m)) == Final(AtZeros(k, k + 1), Zeros(m - (k + 1 - j)))
    decreases k + 1 - j
  {
    hide Final, AtZeros, Zeros;
    if j < k + 1 {
      ZeroStep(k, j, m);
      ZeroGrows(k, j + 1, m - 1);
    }
  }

  lemma ZeroStep(k: nat, j: nat, m: nat)
    requires 1 <= j < k + 1 && m > 0
    ensures Final(AtZeros(k, j), Zeros(m)) == Final(AtZeros(k, j + 1), Zeros(m - 1))
  {
    ZerosIn(k, j + 1);
    assert Zeros(j) + [0] == Zeros(j + 1) && Zeros(m)[1..] == Zeros(m - 1);
    hide ZeroDict, Zeros;
  }

  /** Code k covers k + 1 zeros. */
  lemma ZeroCode(k: nat, m: nat)
    requires m >= k + 1 && 6 + k < FULL
    ensures Final(AtZeros(k, 1), Zeros(m)) == Final(AtZeros(k + 1, 1), Zeros(m - (k + 1)))
  {
    ZeroGrows(k, 1, m);
    ZerosIn(k, k + 2);
    ZeroEmits(k);
    assert Zeros(k + 1) + [0] == Zeros(k + 2) && Zeros(m - k)[1..] == Zeros(m - k - 1);
  }

  /** 66 zeros make eleven codes, of one to eleven zeros. */
  lemma ElevenCodesOfZeros()
    ensures |RasterCodes(Zeros(66))| == 11 && ArePixels(Zeros(66))
  {
    hide Codes, Final, ZeroDict, Encoder.Valid;
    var data := Zeros(66);
    ZeroStarts(data);
    ZeroCode(0, 65);
    ZeroCode(1, 64);
    ZeroCode(2, 62);
    ZeroCode(3, 59);
    ZeroCode(4, 55);
    ZeroCode(5, 50);
    ZeroCode(6, 44);
    ZeroCode(7, 37);
    ZeroCode(8, 29);
    ZeroCode(9, 20);
    ZeroGrows(10, 1, 10);
    ZeroEnds(10);
    StartedValid(data);
    CodesCounted(Started(data), Rest(data));
  }

  lemma ZeroStarts(data: pixels)
    requires data == Zeros(66)
    ensures Started(data) == AtZeros(0, 1) && Rest(data) == Zeros(65)
  {
    assert ZeroDict(0) == InitialDict() && [0] == Zeros(1);
  }

  lemma ZeroEnds(k: nat)
    ensures |Final(AtZeros(k, k + 1), Zeros(0)).dict| == 6 + k
  {
  }
}
