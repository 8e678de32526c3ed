/** The streaming base64 coder and decoder (section 4 of RFC 4648). Both keep a 32-bit accumulator
    whose used-up high bits are never cleared. */
module Base64 {
  import opened Prelude
  import opened Bits

  type sextet = n: nat | n < 64

  // ----- RFC 4648: the bits of the bytes, zero-padded, in groups of six

  function CharOf(n: sextet): char {
    if n < 26 then (0x41 + n) as char
    else if n < 52 then (0x61 + (n - 26)) as char
    else if n < 62 then (0x30 + (n - 52)) as char
    else if n == 62 then '+'
    else '/'
  }

  /** The character for the low six bits of v. */
  function Letter(v: nat): char {
    CharOf(v % 64)
  }

  /** The zero bits that complete the last group. */
  function Fill(n: nat): seq<bool> {
    seq((6 - n % 6) % 6, _ => false)
  }

  /** One character for each whole group of six bits. */
  function Text(bits: seq<bool>): (s: string)
    ensures |s| == |bits| / 6
  {
    if |bits| < 6 then ""
    else
      BitsNatBound(bits[..6]);
      assert Pow2(6) == 64;
      [CharOf(BitsNat(bits[..6]))] + Text(bits[6..])
  }

  function Encoded(bytes: seq<octet>): string {
    var bits := OctetBits(bytes);
    Text(bits + Fill(|bits|)) + seq((3 - |bytes| % 3) % 3, _ => '=')
  }

  lemma {:induction false} TextExtended(bits: seq<bool>, group: seq<bool>)
    requires |bits| % 6 == 0 && |group| == 6 && BitsNat(group) < 64
    ensures Text(bits + group) == Text(bits) + [CharOf(BitsNat(group))]
  {
    hide CharOf, BitsNat;
    if bits == [] {
      assert bits + group == group && group[..6] == group;
    } else {
      TextExtended(bits[6..], group);
      assert (bits + group)[..6] == bits[..6] && (bits + group)[6..] == bits[6..] + group;
    }
  }

  // ----- the encoder

  /** The low six bits that writeEncoded writes. */
  lemma SixBits(v: nat)
    ensures BitsNat(NatBits(v, 6)) == v % 64
  {
    Pow2Six();
    NatBitsOfMod(v, 6, 6);
    BitsNatOfNatBits(v % 64, 6);
  }

  lemma Pow2Six()
    ensures Pow2(6) == 64 && Pow2(8) == 256
  {
  }

  lemma {:induction false} ZeroNatBits(k: nat)
    ensures NatBits(0, k) == seq(k, _ => false)
    ensures 0 < Pow2(k)
  {
    if k > 0 {
      ZeroNatBits(k - 1);
    }
  }

  /** base64EncodeOutputStream. The 32-bit accumulator is a number below 2^32; an or of disjoint bits
      is a sum. */
  class EncodeStream {
    var buffer: nat
    var buflen: nat
    var length: nat
    var base64: string
    ghost var bytes: seq<octet>

    /** The characters so far and the pending bits together hold the bytes written. */
    ghost predicate Valid()
      reads this
    {
      length == |bytes| && buflen < 6 && Holds(OctetBits(bytes), |OctetBits(bytes)| / 6, base64, buffer, buflen)
    }

    constructor ()
      ensures Valid() && bytes == []
    {
      buffer, buflen, length, base64, bytes := 0, 0, 0, "", [];
    }

    method WriteByte(n: octet)
      requires Valid()
      modifies this
      ensures Valid() && bytes == old(bytes) + [n]
    {
      hide NatBits, Pow2, Shl, Shr, Text, Holds, Letter;
      ghost var groups: nat := |OctetBits(bytes)| / 6;
      assert (bytes + [n])[..|bytes|] == bytes;
      bytes := bytes + [n];
      ByteArrives(OctetBits(old(bytes)), groups, base64, buffer, buflen, n);
      buffer := Shl(buffer, 8) % Pow2(32) + n;
      buflen := buflen + 8;
      length := length + 1;
      while buflen >= 6
        invariant bytes == old(bytes) + [n] && length == |bytes|
        invariant Holds(OctetBits(bytes), groups, base64, buffer, buflen)
      {
        GroupLeaves(OctetBits(bytes), groups, base64, buffer, buflen - 6);
        base64 := base64 + [Letter(Shr(buffer, buflen - 6))];
        buflen := buflen - 6;
        groups := groups + 1;
      }
      HoldsCount(OctetBits(bytes), groups, base64, buffer, buflen);
    }

    method Flush()
      requires Valid()
      modifies this
      ensures base64 == Encoded(old(bytes)) && bytes == old(bytes)
    {
      hide Letter, NatBits, Pow2, Shl, Text, OctetBits, Holds;
      if buflen > 0 {
        LastGroup(OctetBits(bytes), |OctetBits(bytes)| / 6, base64, buffer, buflen, 6 - buflen);
        base64 := base64 + [Letter(Shl(buffer, 6 - buflen) % Pow2(32))];
        buffer := 0;
        buflen := 0;
      } else {
        NoLastGroup(OctetBits(bytes), |OctetBits(bytes)| / 6, base64, buffer);
      }
      ghost var body := base64;
      if length % 3 != 0 {
        var padlen := 3 - length % 3;
        for i := 0 to padlen
          invariant base64 == body + seq(i, _ => '=') && bytes == old(bytes)
        {
          base64 := base64 + "=";
        }
      }
    }
  }

  /** base64 spells the first groups of bits, and the low buflen bits of the accumulator are the rest. */
  ghost predicate Holds(bits: seq<bool>, groups: nat, base64: string, buffer: nat, buflen: nat) {
    && |bits| == 6 * groups + buflen
    && base64 == Text(bits[..6 * groups])
    && NatBits(buffer, buflen) == bits[6 * groups..]
  }

  lemma HoldsCount(bits: seq<bool>, groups: nat, base64: string, buffer: nat, buflen: nat)
    requires Holds(bits, groups, base64, buffer, buflen) && buflen < 6
    ensures groups == |bits| / 6
  {
  }

  lemma ByteArrives(bits: seq<bool>, groups: nat, base64: string, buffer: nat, buflen: nat, n: octet)
    requires Holds(bits, groups, base64, buffer, buflen) && buflen < 8
    ensures Holds(bits + NatBits(n, 8), groups, base64, Shl(buffer, 8) % Pow2(32) + n, buflen + 8)
  {
    hide NatBits, Pow2, Shl, Text;
    Pow2Six();
    Accumulated(buffer, n, buflen, 8);
    assert (bits + NatBits(n, 8))[..6 * groups] == bits[..6 * groups];
  }

  lemma GroupLeaves(bits: seq<bool>, groups: nat, base64: string, buffer: nat, k: nat)
    requires Holds(bits, groups, base64, buffer, k + 6)
    ensures Holds(bits, groups + 1, base64 + [Letter(Shr(buffer, k))], buffer, k)
  {
    hide CharOf, NatBits, BitsNat, Shr, Text;
    var prefix := bits[..6 * groups];
    NatBitsOfShr(buffer, 6, k);
    SixBits(Shr(buffer, k));
    TextExtended(prefix, NatBits(Shr(buffer, k), 6));
    assert bits == prefix + NatBits(Shr(buffer, k), 6) + NatBits(buffer, k);
    assert bits[..6 * (groups + 1)] == prefix + NatBits(Shr(buffer, k), 6);
  }

  lemma FillIs(n: nat, groups: nat, r: nat)
    requires n == 6 * groups + r && r < 6
    ensures Fill(n) == seq(if r == 0 then 0 else 6 - r, _ => false)
  {
    RemainderUnique(n, 6, groups, r);
  }

  lemma LastGroup(bits: seq<bool>, groups: nat, base64: string, buffer: nat, buflen: nat, k: nat)
    requires Holds(bits, groups, base64, buffer, buflen) && k + buflen == 6 && 0 < k < 6
    ensures Text(bits + Fill(|bits|)) == base64 + [Letter(Shl(buffer, k) % Pow2(32))]
  {
    Flushed(buffer, buflen);
    FillIs(|bits|, groups, buflen);
    LastLetter(bits, groups, base64, NatBits(buffer, buflen), Shl(buffer, k) % Pow2(32));
  }

  lemma LastLetter(bits: seq<bool>, groups: nat, base64: string, low: seq<bool>, v: nat)
    requires |bits| == 6 * groups + |low| && base64 == Text(bits[..6 * groups]) && bits[6 * groups..] == low
    requires NatBits(v, 6) == low + Fill(|bits|)
    ensures Text(bits + Fill(|bits|)) == base64 + [Letter(v)]
  {
    hide CharOf, NatBits, BitsNat, Text, Fill;
    var prefix := bits[..6 * groups];
    SixBits(v);
    TextExtended(prefix, NatBits(v, 6));
    Glued(bits, prefix, low, Fill(|bits|), NatBits(v, 6));
  }

  lemma Glued(bits: seq<bool>, prefix: seq<bool>, low: seq<bool>, fill: seq<bool>, tail: seq<bool>)
    requires bits == prefix + low && tail == low + fill
    ensures bits + fill == prefix + tail
  {
  }

  lemma NoLastGroup(bits: seq<bool>, groups: nat, base64: string, buffer: nat)
    requires Holds(bits, groups, base64, buffer, 0)
    ensures Text(bits + Fill(|bits|)) == base64
  {
    hide Text, Fill, NatBits;
    FillIs(|bits|, groups, 0);
    assert bits + Fill(|bits|) == bits;
    assert bits == bits[..6 * groups];
  }

  lemma Accumulated(buffer: nat, n: nat, buflen: nat, k: nat)
    requires buflen + k <= 32 && n < Pow2(k)
    ensures NatBits(Shl(buffer, k) % Pow2(32) + n, buflen + k) == NatBits(buffer, buflen) + NatBits(n, k)
  {
    hide NatBits, Pow2;
    ShlMod(buffer, k, 32 - k);
    NatBitsOfSum(buffer % Pow2(32 - k), buflen, n, k);
    NatBitsOfMod(buffer, 32 - k, buflen);
  }

  /** Shifting left in a register drops the bits that leave it. */
  lemma {:induction false} ShlMod(num: nat, k: nat, width: nat)
    ensures Shl(num, k) % Pow2(width + k) == Shl(num % Pow2(width), k)
  {
    if k > 0 {
      ShlMod(num, k - 1, width);
      DoubleMod(Shl(num, k - 1), Pow2(width + k - 1));
    }
  }

  lemma DoubleMod(num: nat, m: nat)
    requires m > 0
    ensures 2 * num % (2 * m) == 2 * (num % m)
  {
    RemainderUnique(2 * num, 2 * m, num / m, 2 * (num % m));
  }

  lemma Flushed(buffer: nat, buflen: nat)
    requires 0 < buflen < 6
    ensures NatBits(Shl(buffer, 6 - buflen) % Pow2(32), 6) == NatBits(buffer, buflen) + seq(6 - buflen, _ => false)
    ensures BitsNat(NatBits(Shl(buffer, 6 - buflen) % Pow2(32), 6)) < 64
  {
    hide NatBits, Pow2, Shl, BitsNat;
    var k := 6 - buflen;
    NatBitsOfMod(Shl(buffer, k), 32, 6);
    ZeroNatBits(k);
    NatBitsOfSum(buffer, buflen, 0, k);
    SixBits(Shl(buffer, k) % Pow2(32));
  }

  // ----- table 1 and section 4 of RFC 4648, in numbers

  const UPPER := "ABCDEFGHIJKLMNOPQRSTUVWXYZ"
  const LOWER := "abcdefghijklmnopqrstuvwxyz"
  const DIGITS := "0123456789"

  /** The character of a six-bit value. */
  predicate IsLetter(c: char, n: nat) {
    if n < 26 then c == UPPER[n]
    else if n < 52 then c == LOWER[n - 26]
    else if n < 62 then c == DIGITS[n - 52]
    else if n == 62 then c == '+'
    else n == 63 && c == '/'
  }

  lemma LettersAre(n: sextet)
    ensures IsLetter(CharOf(n), n)
  {
    UpperAt(n);
    if 26 <= n < 52 {
      LowerAt(n - 26);
    }
    if 52 <= n < 62 {
      DigitAt(n - 52);
    }
  }

  lemma UpperAt(n: nat)
    ensures n < 26 ==> UPPER[n] as int == 65 + n
  {
  }

  lemma LowerAt(n: nat)
    ensures n < 26 ==> LOWER[n] as int == 97 + n
  {
  }

  lemma DigitAt(n: nat)
    ensures n < 10 ==> DIGITS[n] as int == 48 + n
  {
  }

  /** Three bytes are a number of 24 bits, and its four digits to the base 64 are written; behind one or two last bytes come
      four or two zero bits, and padding. */
  predicate IsEncoding(bytes: seq<octet>, text: string) {
    if bytes == [] then text == ""
    else
      var a: nat := bytes[0];
      if |bytes| == 1 then |text| == 4 && IsGroup(text[..2], a * 16) && text[2..] == "=="
      else
        var b: nat := bytes[1];
        if |bytes| == 2 then |text| == 4 && IsGroup(text[..3], (a * 256 + b) * 4) && text[3..] == "="
        else
          var c: nat := bytes[2];
          |text| >= 4 && IsGroup(text[..4], a * 65536 + b * 256 + c) && IsEncoding(bytes[3..], text[4..])
  }

  /** The digits of v to the base 64, the most significant first. */
  predicate IsGroup(text: string, v: nat) {
    if text == "" then v == 0
    else IsLetter(text[|text| - 1], v % 64) && IsGroup(text[..|text| - 1], v / 64)
  }

  /** The letters of the low 6n bits of v. */
  function Group(v: nat, n: nat): (text: string)
    ensures |text| == n
  {
    if n == 0 then "" else Group(v / 64, n - 1) + [CharOf(v % 64)]
  }

  lemma {:induction false} GroupIs(v: nat, n: nat)
    requires v < Pow2(6 * n)
    ensures IsGroup(Group(v, n), v)
  {
    hide CharOf, IsLetter, Pow2;
    LettersAre(v % 64);
    SixMore(n);
    if n > 0 {
      SixMore(n - 1);
      GroupIs(v / 64, n - 1);
    }
  }

  lemma SixMore(n: nat)
    ensures Pow2(6 * n + 6) == 64 * Pow2(6 * n) && Pow2(0) == 1
  {
    var k := 6 * n;
    assert Pow2(k + 2) == 2 * Pow2(k + 1) == 4 * Pow2(k);
    assert Pow2(k + 4) == 2 * Pow2(k + 3) == 4 * Pow2(k + 2);
    assert Pow2(k + 6) == 2 * Pow2(k + 5) == 4 * Pow2(k + 4);
  }

  lemma ShrSix(v: nat)
    ensures Shr(v, 6) == v / 64
  {
    assert Shr(v, 6) == Shr(v / 2, 5) == Shr(v / 2 / 2, 4);
    assert Shr(v / 2 / 2, 4) == Shr(v / 2 / 2 / 2, 3) == Shr(v / 2 / 2 / 2 / 2, 2);
    assert Shr(v / 2 / 2 / 2 / 2, 2) == Shr(v / 2 / 2 / 2 / 2 / 2, 1) == v / 2 / 2 / 2 / 2 / 2 / 2;
  }

  lemma {:induction false} TextOfGroup(v: nat, n: nat)
    ensures Text(NatBits(v, 6 * n)) == Group(v, n)
  {
    hide NatBits, CharOf, Text, Shr;
    if n == 0 {
      NoText();
      assert NatBits(v, 0) == [];
    } else {
      TextOfGroup(v / 64, n - 1);
      ShrSix(v);
      NatBitsOfShr(v, 6 * (n - 1), 6);
      SixBits(v);
      TextExtended(NatBits(v / 64, 6 * (n - 1)), NatBits(v, 6));
    }
  }

  lemma NoText()
    ensures Text([]) == ""
  {
  }

  lemma {:induction false} TextBehind(bits: seq<bool>, rest: seq<bool>)
    requires |bits| % 6 == 0
    ensures Text(bits + rest) == Text(bits) + Text(rest)
    decreases |bits|
  {
    hide CharOf, BitsNat, Text;
    if bits == [] {
      NoText();
      assert bits + rest == rest;
    } else {
      TextBehind(bits[6..], rest);
      TextFirst(bits[..6], bits[6..]);
      TextFirst(bits[..6], bits[6..] + rest);
      assert bits + rest == bits[..6] + (bits[6..] + rest) && bits == bits[..6] + bits[6..];
    }
  }

  lemma TextFirst(group: seq<bool>, rest: seq<bool>)
    requires |group| == 6
    ensures Text(group + rest) == Text(group) + Text(rest)
  {
    hide CharOf, BitsNat;
    assert (group + rest)[..6] == group && (group + rest)[6..] == rest;
    assert group[..6] == group && group[6..] == [];
  }

  lemma Eight(high: nat, len: nat, low: octet)
    ensures NatBits(256 * high + low, len + 8) == NatBits(high, len) + NatBits(low, 8)
  {
    Pow2Six();
    ShlTwice(high, 0);
    ShlTwice(high, 2);
    ShlTwice(high, 4);
    ShlTwice(high, 6);
    NatBitsOfSum(high, len, low, 8);
  }

  lemma Zeros(v: nat, len: nat)
    ensures NatBits(4 * v, len + 2) == NatBits(v, len) + [false, false]
    ensures NatBits(16 * v, len + 4) == NatBits(v, len) + [false, false, false, false]
  {
    assert NatBits(2 * v, len + 1) == NatBits(v, len) + [false];
    assert NatBits(8 * v, len + 3) == NatBits(4 * v, len + 2) + [false];
  }

  /** The encoder's text is the one RFC 4648 describes. */
  lemma {:induction false} EncodedIsStandard(bytes: seq<octet>)
    ensures IsEncoding(bytes, Encoded(bytes))
    decreases |bytes|
  {
    hide NatBits, Text, CharOf, IsGroup, OctetBits;
    if bytes == [] {
      NothingEncoded();
    } else if |bytes| == 1 {
      OneByte(bytes[0]);
      assert bytes == [bytes[0]];
    } else if |bytes| == 2 {
      TwoBytes(bytes[0], bytes[1]);
      assert bytes == [bytes[0], bytes[1]];
    } else {
      ThreeBytes(bytes[0], bytes[1], bytes[2], bytes[3..]);
      assert bytes == [bytes[0], bytes[1], bytes[2]] + bytes[3..];
      EncodedIsStandard(bytes[3..]);
    }
  }

  lemma NothingEncoded()
    ensures Encoded([]) == ""
  {
    assert OctetBits([]) + Fill(0) == [];
  }

  lemma OneByte(a: octet)
    ensures var text := Encoded([a]); |text| == 4 && IsGroup(text[..2], a * 16) && text[2..] == "=="
  {
    hide NatBits, Text, CharOf, IsGroup, Pow2, Group;
    assert OctetBits([a]) == NatBits(a, 8) by { OctetsOf(a, []); }
    Zeros(a, 8);
    assert Fill(8) == [false, false, false, false];
    TextOfGroup(a * 16, 2);
    Sizes();
    GroupIs(a * 16, 2);
    assert Encoded([a]) == Group(a * 16, 2) + "==";
  }

  lemma TwoBytes(a: octet, b: octet)
    ensures var text := Encoded([a, b]); |text| == 4 && IsGroup(text[..3], (a * 256 + b) * 4) && text[3..] == "="
  {
    hide NatBits, Text, CharOf, IsGroup, Pow2, Group;
    var v: nat := a * 256 + b;
    assert OctetBits([a, b]) == NatBits(v, 16) by {
      OctetsOf(a, [b]);
      OctetsOf(b, []);
      Eight(a, 8, b);
    }
    Zeros(v, 16);
    assert Fill(16) == [false, false];
    TextOfGroup(v * 4, 3);
    Sizes();
    GroupIs(v * 4, 3);
    assert Encoded([a, b]) == Group(v * 4, 3) + "=";
  }

  lemma OctetsOf(a: octet, rest: seq<octet>)
    ensures OctetBits([a] + rest) == NatBits(a, 8) + OctetBits(rest) && OctetBits([]) == []
  {
    hide NatBits;
    OctetBitsFirst([a] + rest);
  }

  lemma Sizes()
    ensures Pow2(12) == 4096 && Pow2(18) == 262144 && Pow2(24) == 16777216
  {
    assert Pow2(6) == 64;
    SixMore(1);
    SixMore(2);
    SixMore(3);
  }

  predicate StartsWith(text: string, n: nat, v: nat, rest: string) {
    |text| >= n && IsGroup(text[..n], v) && text[n..] == rest
  }

  lemma ThreeBytes(a: octet, b: octet, c: octet, rest: seq<octet>)
    ensures StartsWith(Encoded([a, b, c] + rest), 4, a * 65536 + b * 256 + c, Encoded(rest))
  {
    hide NatBits, Text, CharOf, IsGroup, Pow2, OctetBits, Group;
    var v: nat := a * 65536 + b * 256 + c;
    var bits, more := OctetBits([a, b, c] + rest), OctetBits(rest);
    ThreeOctets(a, b, c, rest);
    SameEnd(bits, more, |[a, b, c] + rest|, |rest|);
    TextBehind(NatBits(v, 24), more + Fill(|more|));
    TextOfGroup(v, 4);
    Sizes();
    GroupIs(v, 4);
    Glue(bits, NatBits(v, 24), more, Fill(|more|));
    EncodedParts([a, b, c] + rest);
    EncodedParts(rest);
    hide Encoded, Fill;
    Regrouped(Group(v, 4), Text(more + Fill(|more|)), Ends(|rest|), Encoded(rest), v);
  }

  function Ends(n: nat): string {
    seq((3 - n % 3) % 3, _ => '=')
  }

  lemma EncodedParts(bytes: seq<octet>)
    ensures Encoded(bytes) == Text(OctetBits(bytes) + Fill(|OctetBits(bytes)|)) + Ends(|bytes|)
  {
    hide Text, OctetBits, Fill;
  }

  lemma Glue(bits: seq<bool>, group: seq<bool>, more: seq<bool>, fill: seq<bool>)
    requires bits == group + more
    ensures bits + fill == group + (more + fill)
  {
  }

  lemma Regrouped(group: string, text: string, ends: string, encoded: string, v: nat)
    requires encoded == text + ends && |group| == 4 && IsGroup(group, v)
    ensures StartsWith(group + text + ends, 4, v, encoded)
  {
    hide IsGroup;
    assert (group + text + ends)[..4] == group && (group + text + ends)[4..] == encoded;
  }

  lemma SameEnd(bits: seq<bool>, more: seq<bool>, m: nat, n: nat)
    requires |bits| == 24 + |more| && m == 3 + n
    ensures Fill(|bits|) == Fill(|more|) && Ends(m) == Ends(n)
  {
  }

  lemma ThreeOctets(a: octet, b: octet, c: octet, rest: seq<octet>)
    ensures OctetBits([a, b, c] + rest) == NatBits(a * 65536 + b * 256 + c, 24) + OctetBits(rest)
  {
    hide NatBits, OctetBits;
    Eight(a, 8, b);
    Eight(a * 256 + b, 16, c);
    OctetsOf(a, [b, c] + rest);
    OctetsOf(b, [c] + rest);
    OctetsOf(c, rest);
    assert [a] + ([b, c] + rest) == [a, b, c] + rest && [b] + ([c] + rest) == [b, c] + rest && [c] + rest == [c] + rest;
  }

  // ----- the decoder

  datatype ReadResult = Octet(n: octet) | EndOfData | UnexpectedEndOfFile | BadCharacter

  datatype State = State(pos: nat, buffer: nat, buflen: nat)

  /** What the source's pattern for white space matches. */
  predicate IsSpace(c: char) {
    c in " \t\n\r" || c as int in {0x0B, 0x0C, 0xA0, 0x1680, 0x2028, 0x2029, 0x202F, 0x205F, 0x3000, 0xFEFF}
    || 0x2000 <= c as int <= 0x200A
  }

  function ValueOf(c: char): (r: Option<nat>)
    ensures r.Some? ==> r.value < 64
  {
    if 'A' <= c <= 'Z' then Some(c as int - 0x41)
    else if 'a' <= c <= 'z' then Some(c as int - 0x61 + 26)
    else if '0' <= c <= '9' then Some(c as int - 0x30 + 52)
    else if c == '+' then Some(62)
    else if c == '/' then Some(63)
    else None
  }

  lemma ValueOfCharOf(n: sextet)
    ensures ValueOf(CharOf(n)) == Some(n) && CharOf(n) != '=' && !IsSpace(CharOf(n))
  {
  }

  /** One call of read. */
  function Read(str: string, st: State): (r: (ReadResult, State))
    ensures st.pos <= |str| ==> st.pos <= r.1.pos <= |str|
    ensures r.0.Octet? && st.pos <= |str| ==> 8 * (|str| - r.1.pos) + r.1.buflen < 8 * (|str| - st.pos) + st.buflen
    decreases |str| - st.pos
  {
    if st.buflen >= 8 then
      (Octet(Shr(st.buffer, st.buflen - 8) % 256), st.(buflen := st.buflen - 8))
    else if st.pos >= |str| then
      (if st.buflen == 0 then EndOfData else UnexpectedEndOfFile, st)
    else
      var c := str[st.pos];
      if c == '=' then (EndOfData, State(st.pos + 1, st.buffer, 0))
      else if IsSpace(c) then Read(str, st.(pos := st.pos + 1))
      else
        match ValueOf(c)
        case None => (BadCharacter, st.(pos := st.pos + 1))
        case Some(v) => Read(str, State(st.pos + 1, Shl(st.buffer, 6) % Pow2(32) + v, st.buflen + 6))
  }

  /** base64DecodeInputStream */
  class DecodeStream {
    const str: string
    var pos: nat
    var buffer: nat
    var buflen: nat

    ghost function Now(): State
      reads this
    {
      State(pos, buffer, buflen)
    }

    constructor (str: string)
      ensures this.str == str && Now() == State(0, 0, 0)
    {
      this.str := str;
      pos, buffer, buflen := 0, 0, 0;
    }

    method ReadNext() returns (r: ReadResult)
      requires pos <= |str|
      modifies this
      ensures pos <= |str| && (r, Now()) == Read(str, old(Now()))
    {
      hide Shl, Shr, Pow2, IsSpace, ValueOf;
      while buflen < 8
        invariant pos <= |str| && Read(str, Now()) == Read(str, old(Now()))
        decreases |str| - pos
      {
        if pos >= |str| {
          if buflen == 0 {
            return EndOfData;
          }
          return UnexpectedEndOfFile;
        }
        var c := str[pos];
        pos := pos + 1;
        if c == '=' {
          buflen := 0;
          return EndOfData;
        } else if IsSpace(c) {
          continue;
        }
        var v := ValueOf(c);
        if v.None? {
          return BadCharacter;
        }
        buffer := Shl(buffer, 6) % Pow2(32) + v.value;
        buflen := buflen + 6;
      }
      r := Octet(Shr(buffer, buflen - 8) % 256);
      buflen := buflen - 8;
    }
  }

  /** What ends a read and what it skips, with fewer than eight bits at hand. */
  lemma ReadMeans(str: string, st: State)
    requires st.buflen < 8 && st.pos <= |str|
    ensures st.pos == |str| ==> Read(str, st).0 == if st.buflen == 0 then EndOfData else UnexpectedEndOfFile
    ensures st.pos < |str| && str[st.pos] == '=' ==> Read(str, st).0 == EndOfData
    ensures st.pos < |str| && str[st.pos] in " \t\n\r" ==> Read(str, st) == Read(str, st.(pos := st.pos + 1))
  {
    hide ValueOf, Shl, Pow2;
  }

  /** The other printable characters are refused. */
  lemma ReadRefuses(str: string, st: State, c: char)
    requires st.buflen < 8 && st.pos < |str| && str[st.pos] == c
    requires '!' <= c <= '*' || ',' <= c <= '.' || ':' <= c <= '<' || '>' <= c <= '@' || '[' <= c <= '`' || '{' <= c <= '~'
    ensures Read(str, st).0 == BadCharacter
  {
    hide Shl, Pow2;
  }

  /** Reading until the end of the data; nothing where the stream throws. */
  function ReadAll(str: string, st: State): Option<seq<octet>>
    requires st.pos <= |str|
    decreases 8 * (|str| - st.pos) + st.buflen
  {
    var (r, next) := Read(str, st);
    match r
    case Octet(n) =>
      (match ReadAll(str, next)
       case None => None
       case Some(more) => Some([n] + more))
    case EndOfData => Some([])
    case _ => None
  }

  // ----- the two together

  /** After k bytes the accumulator holds the bits read beyond them. */
  ghost predicate ReadUpTo(bits: seq<bool>, str: string, st: State, k: nat) {
    && 6 * st.pos == 8 * k + st.buflen <= |bits| && |bits| % 6 == 0
    && |bits| / 6 <= |str| && str[..|bits| / 6] == Text(bits)
    && NatBits(st.buffer, st.buflen) == bits[8 * k..6 * st.pos]
  }

  lemma {:induction false} TextAt(bits: seq<bool>, i: nat)
    requires 6 * i + 6 <= |bits|
    ensures BitsNat(bits[6 * i..6 * i + 6]) < 64
    ensures Text(bits)[i] == CharOf(BitsNat(bits[6 * i..6 * i + 6]))
  {
    hide CharOf;
    BitsNatBound(bits[6 * i..6 * i + 6]);
    Pow2Six();
    if i > 0 {
      TextAt(bits[6..], i - 1);
      assert bits[6..][6 * (i - 1)..6 * i] == bits[6 * i..6 * i + 6];
    }
  }

  lemma CharacterArrives(bits: seq<bool>, str: string, st: State, k: nat)
    requires ReadUpTo(bits, str, st, k) && st.buflen < 8 && 6 * st.pos + 6 <= |bits|
    ensures var v := ValueOf(str[st.pos]);
            && str[st.pos] != '=' && !IsSpace(str[st.pos]) && v.Some?
            && ReadUpTo(bits, str, State(st.pos + 1, Shl(st.buffer, 6) % Pow2(32) + v.value, st.buflen + 6), k)
  {
    hide CharOf, NatBits, BitsNat, Shl, Text, Pow2, IsSpace, ValueOf;
    var i := st.pos;
    var group := bits[6 * i..6 * i + 6];
    TextAt(bits, i);
    assert str[i] == str[..|bits| / 6][i];
    ValueOfCharOf(BitsNat(group));
    NatBitsOfBitsNat(group);
    Pow2Six();
    Accumulated(st.buffer, BitsNat(group), st.buflen, 6);
    assert bits[8 * k..6 * i + 6] == bits[8 * k..6 * i] + group;
  }

  lemma {:induction false} OctetBitsAt(bytes: seq<octet>, k: nat)
    requires k < |bytes|
    ensures OctetBits(bytes)[8 * k..8 * k + 8] == NatBits(bytes[k], 8)
  {
    hide NatBits;
    if k < |bytes| - 1 {
      OctetBitsAt(bytes[..|bytes| - 1], k);
    }
  }

  lemma OctetLeaves(bits: seq<bool>, str: string, st: State, k: nat, n: octet)
    requires ReadUpTo(bits, str, st, k) && st.buflen >= 8
    requires 8 * k + 8 <= |bits| && bits[8 * k..8 * k + 8] == NatBits(n, 8)
    ensures Shr(st.buffer, st.buflen - 8) % 256 == n
    ensures ReadUpTo(bits, str, st.(buflen := st.buflen - 8), k + 1)
  {
    hide NatBits, BitsNat, Shr, Text, Pow2;
    var v := Shr(st.buffer, st.buflen - 8);
    NatBitsOfShr(st.buffer, 8, st.buflen - 8);
    assert NatBits(st.buffer, st.buflen)[..8] == bits[8 * k..8 * k + 8];
    assert NatBits(v, 8) == NatBits(n, 8);
    Pow2Six();
    NatBitsOfMod(v, 8, 8);
    BitsNatOfNatBits(v % 256, 8);
    BitsNatOfNatBits(n, 8);
  }

  /** The next read returns the next byte. */
  lemma {:induction false} ReadsOctet(bytes: seq<octet>, bits: seq<bool>, str: string, st: State, k: nat)
    requires k < |bytes| && OctetBits(bytes) <= bits
    requires ReadUpTo(bits, str, st, k)
    ensures var (r, next) := Read(str, st);
            r == Octet(bytes[k]) && ReadUpTo(bits, str, next, k + 1) && (st.buflen < 14 ==> next.buflen < 6)
    decreases |str| - st.pos
  {
    hide NatBits, Shl, Shr, Text, Pow2, ReadUpTo, IsSpace, ValueOf, OctetBits;
    UpToFits(bits, str, st, k);
    OctetBitsAt(bytes, k);
    SliceOfPrefix(OctetBits(bytes), bits, 8 * k, 8 * k + 8);
    if st.buflen >= 8 {
      OctetLeaves(bits, str, st, k, bytes[k]);
    } else {
      CharacterArrives(bits, str, st, k);
      var v := ValueOf(str[st.pos]).value;
      ReadsOctet(bytes, bits, str, State(st.pos + 1, Shl(st.buffer, 6) % Pow2(32) + v, st.buflen + 6), k);
    }
  }

  lemma SliceOfPrefix(part: seq<bool>, whole: seq<bool>, i: nat, j: nat)
    requires part <= whole && i <= j <= |part|
    ensures whole[i..j] == part[i..j]
  {
  }

  lemma UpToFits(bits: seq<bool>, str: string, st: State, k: nat)
    requires ReadUpTo(bits, str, st, k)
    ensures 6 * st.pos == 8 * k + st.buflen <= |bits| && |bits| % 6 == 0 && |bits| / 6 <= |str|
    ensures st.pos <= |bits| / 6
  {
  }

  /** From byte k on, reading gives the remaining bytes and then the end of the data. */
  lemma {:induction false} ReadsRest(bytes: seq<octet>, bits: seq<bool>, str: string, st: State, k: nat)
    requires k <= |bytes| && OctetBits(bytes) <= bits && |bits| < |OctetBits(bytes)| + 6
    requires ReadUpTo(bits, str, st, k) && st.buflen < 6
    requires |str| > |bits| / 6 ==> str[|bits| / 6] == '='
    requires |str| == |bits| / 6 ==> |bytes| % 3 == 0
    ensures st.pos <= |str| && ReadAll(str, st) == Some(bytes[k..])
    decreases |bytes| - k
  {
    hide NatBits, Shl, Shr, Text, Pow2, ReadUpTo, IsSpace, ValueOf, OctetBits, Read;
    UpToFits(bits, str, st, k);
    if k < |bytes| {
      ReadsOctet(bytes, bits, str, st, k);
      var (r, next) := Read(str, st);
      ReadsRest(bytes, bits, str, next, k + 1);
      assert bytes[k..] == [bytes[k]] + bytes[k + 1..];
    } else {
      ReadsEnd(str, st);
    }
  }

  lemma ReadsEnd(str: string, st: State)
    requires st.buflen < 8
    requires (st.pos < |str| && str[st.pos] == '=') || (st.pos == |str| && st.buflen == 0)
    ensures Read(str, st).0 == EndOfData
  {
  }

  /** For every byte string: decoding what the encoder wrote gives the bytes back, and then the end. */
  lemma Base64RoundTrip(bytes: seq<octet>)
    ensures ReadAll(Encoded(bytes), State(0, 0, 0)) == Some(bytes)
  {
    hide ReadAll, Text, Encoded, ReadUpTo;
    var data := OctetBits(bytes);
    var bits := data + Fill(|data|);
    EncodedStarts(bytes, data, bits);
    ReadsRest(bytes, bits, Encoded(bytes), State(0, 0, 0), 0);
    assert bytes[0..] == bytes;
  }

  lemma EncodedStarts(bytes: seq<octet>, data: seq<bool>, bits: seq<bool>)
    requires data == OctetBits(bytes) && bits == data + Fill(|data|)
    ensures ReadUpTo(bits, Encoded(bytes), State(0, 0, 0), 0) && |bits| < |data| + 6
    ensures |Encoded(bytes)| > |bits| / 6 ==> Encoded(bytes)[|bits| / 6] == '='
    ensures |Encoded(bytes)| == |bits| / 6 ==> |bytes| % 3 == 0
  {
    hide Text, NatBits, OctetBits, Fill;
    FilledUp(|data|);
    Padded(Text(bits), |bytes|, Encoded(bytes));
    NothingRead(bits, Encoded(bytes));
  }

  lemma FilledUp(n: nat)
    ensures |Fill(n)| < 6 && (n + |Fill(n)|) % 6 == 0
  {
    FillIs(n, n / 6, n % 6);
  }

  lemma Padded(text: string, n: nat, str: string)
    requires str == text + seq((3 - n % 3) % 3, _ => '=')
    ensures text <= str
    ensures |str| > |text| ==> str[|text|] == '='
    ensures |str| == |text| ==> n % 3 == 0
  {
  }

  lemma NothingRead(bits: seq<bool>, str: string)
    requires |bits| % 6 == 0 && Text(bits) <= str
    ensures ReadUpTo(bits, str, State(0, 0, 0), 0)
  {
    hide Text;
    assert str[..|bits| / 6] == Text(bits);
    assert NatBits(0, 0) == bits[0..0];
  }
}
