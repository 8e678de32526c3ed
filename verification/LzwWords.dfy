/** What the codes of a raster stand for, without a table: the image cut into words, each of which is one pixel or an
    earlier word and the first pixel of the word after that. */
module LzwWords {
  import opened Prelude
  import opened Bits
  import opened Lzw

  function Concat(words: seq<pixels>): pixels {
    if words == [] then [] else words[0] + Concat(words[1..])
  }

  /** Code number k stands for word k: a pixel, or word code - 6 and the first pixel of word code - 5, which may be
      word k itself. */
  predicate StandsFor(words: seq<pixels>, k: nat, code: nat) {
    k < |words| && words[k] != [] &&
    if code < 4 then words[k] == [code]
    else
      && 6 <= code && code - 5 <= k && words[code - 5] != []
      && words[k] == words[code - 6] + [words[code - 5][0]]
  }

  /** The width of code number k: that of a table of k + 6 strings, or of 4095. */
  predicate HasWidth(k: nat, width: nat) {
    var size := if k + 6 < 4095 then k + 6 else 4095;
    3 <= width <= 12 && size <= Pow2(width) && (width > 3 ==> size > Pow2(width - 1))
  }

  /** The table after the codes of words, when the next word starts with c. */
  ghost predicate TableOf(dict: seq<pixels>, words: seq<pixels>, c: nat) {
    && |dict| == (if |words| + 6 < 4095 then |words| + 6 else 4095)
    && (forall i :: 0 <= i < 6 ==> dict[i] == [i])
    && forall i :: 6 <= i < |dict| ==> IsEntry(dict[i], words, i - 6, c)
  }

  predicate IsEntry(entry: pixels, words: seq<pixels>, m: nat, c: nat) {
    m < |words| &&
    if m + 1 < |words| then words[m + 1] != [] && entry == words[m] + [words[m + 1][0]] else entry == words[m] + [c]
  }

  predicate AllStand(words: seq<pixels>, from: nat, codes: seq<(nat, nat)>) {
    forall k :: 0 <= k < |codes| ==> StandsFor(words, from + k, codes[k].0) && HasWidth(from + k, codes[k].1)
  }

  /** The code written for the match stands for it. */
  lemma CodeOfMatch(e: Encoder, words: seq<pixels>, more: seq<pixels>)
    requires e.Valid() && TableOf(e.dict, words, e.s[0])
    ensures StandsFor(words + [e.s] + more, |words|, IndexOf(e.dict, e.s)) && HasWidth(|words|, e.width)
  {
    NotASpecialCode(e);
    var i, all := IndexOf(e.dict, e.s), words + [e.s] + more;
    assert all[|words|] == e.s;
    if i >= 6 {
      assert IsEntry(e.dict[i], words, i - 6, e.s[0]);
    }
  }

  lemma EmittedTable(e: Encoder, words: seq<pixels>, c: nat)
    requires e.Valid() && TableOf(e.dict, words, e.s[0])
    ensures TableOf(e.Emitted(c).dict, words + [e.s], c)
  {
    var f, all := e.Emitted(c), words + [e.s];
    forall i | 6 <= i < |f.dict| ensures IsEntry(f.dict[i], all, i - 6, c) {
      if i < |e.dict| {
        assert IsEntry(e.dict[i], words, i - 6, e.s[0]);
      }
    }
  }

  lemma OneMore(all: seq<pixels>, from: nat, code: (nat, nat), codes: seq<(nat, nat)>)
    requires StandsFor(all, from, code.0) && HasWidth(from, code.1) && AllStand(all, from + 1, codes)
    ensures AllStand(all, from, [code] + codes)
  {
    hide StandsFor, HasWidth;
    var more := [code] + codes;
    forall k | 0 <= k < |more| ensures StandsFor(all, from + k, more[k].0) && HasWidth(from + k, more[k].1) {
      if k > 0 {
        assert codes[k - 1] == more[k] && from + 1 + (k - 1) == from + k;
      }
    }
  }

  /** The words of the codes to come. */
  ghost predicate AreWords(e: Encoder, rest: pixels, words: seq<pixels>, more: seq<pixels>, codes: seq<(nat, nat)>) {
    |more| == |codes| && Concat(more) == e.s + rest && AllStand(words + more, |words|, codes)
  }

  /** From a state of the encoder on: the words of the codes to come. */
  lemma {:induction false} WordsOf(e: Encoder, rest: pixels, words: seq<pixels>) returns (more: seq<pixels>)
    requires e.Valid() && ArePixels(rest) && Fits(e, words)
    ensures forall p <- rest :: [p] in e.dict
    ensures e.s in e.dict && AreWords(e, rest, words, more, Codes(e, rest))
    decreases |rest|
  {
    hide IndexOf, Fits, AreWords, Encoder.Emitted, Encoder.Valid;
    SingletonsIn(e, rest);
    if rest == [] {
      more := [e.s];
      LastWord(e, words);
    } else {
      var c := rest[0];
      PixelsAfter(rest);
      if e.s + [c] in e.dict {
        GrowValid(e, c);
        FitsLonger(e, c, words);
        more := WordsOf(e.(s := e.s + [c]), rest[1..], words);
        LongerWord(e, c, rest, words, more);
      } else {
        EmitValid(e, c);
        EmittedFits(e, words, c);
        var others := WordsOf(e.Emitted(c), rest[1..], words + [e.s]);
        more := [e.s] + others;
        NextWord(e, c, rest, words, others, Codes(e.Emitted(c), rest[1..]));
      }
    }
  }

  ghost predicate Fits(e: Encoder, words: seq<pixels>) {
    e.s != [] && TableOf(e.dict, words, e.s[0])
  }

  lemma SingletonsIn(e: Encoder, rest: pixels)
    requires e.Valid() && ArePixels(rest)
    ensures (forall p <- rest :: [p] in e.dict) && e.s in e.dict
  {
    SingletonsInDict(rest, e.dict);
  }

  lemma PixelsAfter(rest: pixels)
    requires rest != [] && ArePixels(rest)
    ensures rest[0] < CLEAR_CODE && ArePixels(rest[1..])
  {
    assert rest[0] in rest && forall p <- rest[1..] :: p in rest;
  }

  lemma FitsLonger(e: Encoder, c: nat, words: seq<pixels>)
    requires Fits(e, words)
    ensures Fits(e.(s := e.s + [c]), words)
  {
    hide TableOf;
  }

  lemma EmittedFits(e: Encoder, words: seq<pixels>, c: nat)
    requires e.Valid() && Fits(e, words)
    ensures Fits(e.Emitted(c), words + [e.s])
  {
    hide TableOf, Encoder.Valid;
    EmittedStarts(e, c);
    EmittedTable(e, words, c);
  }

  lemma LongerWord(e: Encoder, c: nat, rest: pixels, words: seq<pixels>, more: seq<pixels>)
    requires rest != [] && rest[0] == c
    ensures forall codes :: AreWords(e.(s := e.s + [c]), rest[1..], words, more, codes) ==> AreWords(e, rest, words, more, codes)
  {
    hide AllStand;
    assert e.s + [c] + rest[1..] == e.s + rest;
  }

  lemma NextWord(e: Encoder, c: nat, rest: pixels, words: seq<pixels>, others: seq<pixels>, codes: seq<(nat, nat)>)
    requires e.Valid() && Fits(e, words) && rest != [] && rest[0] == c
    requires AreWords(e.Emitted(c), rest[1..], words + [e.s], others, codes)
    ensures AreWords(e, rest, words, [e.s] + others, [(IndexOf(e.dict, e.s), e.width)] + codes)
  {
    hide IndexOf, StandsFor, HasWidth, AllStand, TableOf;
    EmittedStarts(e, c);
    CodeOfMatch(e, words, others);
    hide Encoder.Valid, Encoder.Emitted;
    OneMore(words + [e.s] + others, |words|, (IndexOf(e.dict, e.s), e.width), codes);
    assert words + [e.s] + others == words + ([e.s] + others);
    assert e.s + ([c] + rest[1..]) == e.s + rest;
    assert ([e.s] + others)[1..] == others;
  }

  lemma LastWord(e: Encoder, words: seq<pixels>)
    requires e.Valid() && Fits(e, words)
    ensures AreWords(e, [], words, [e.s], [(IndexOf(e.dict, e.s), e.width)])
  {
    hide IndexOf, StandsFor, HasWidth, TableOf;
    CodeOfMatch(e, words, []);
    var all, code := words + [e.s], (IndexOf(e.dict, e.s), e.width);
    assert all + [] == all && [code] + [] == [code];
    OneMore(all, |words|, code, []);
    assert Concat([e.s]) == e.s + Concat([]) && e.s + [] == e.s;
  }

  /** For every nonempty image: its codes stand for words that make up the image, at the widths of the growing table. */
  lemma RasterIsWords(data: pixels) returns (words: seq<pixels>)
    requires ArePixels(data) && data != []
    ensures Concat(words) == data && |words| == |RasterCodes(data)|
    ensures forall k :: 0 <= k < |words| ==>
              StandsFor(words, k, RasterCodes(data)[k].0) && HasWidth(k, RasterCodes(data)[k].1)
    ensures RasterBits(data) ==
            [false, false, true] + CodeBits(RasterCodes(data)) + LsbBits(5, Final(Started(data), Rest(data)).width)
  {
    StartedValid(data);
    StartTable(data);
    words := WordsOf(Started(data), Rest(data), []);
    hide StandsFor, HasWidth, Codes, Concat;
    assert [data[0]] + data[1..] == data;
    assert [] + words == words;
    ClearBits();
    assert AllStand(words, 0, RasterCodes(data));
  }

  lemma StartTable(data: pixels)
    requires data != []
    ensures Fits(Started(data), [])
  {
  }

  lemma ClearBits()
    ensures LsbBits(4, 3) == [false, false, true]
  {
  }
}
