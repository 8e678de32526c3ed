/** The data segments of a symbol (sections 7.4.3 to 7.4.5 of ISO/IEC 18004:2015): how qrNumber,
    qrAlphaNum and qr8BitByte write them, and a decoder that reads them back. */
module Segments {
  import opened Prelude
  import opened Bits
  import opened BitBuffer

  datatype Segment =
    | Numeric(text: string)
    | Alphanumeric(text: string)
    | Bytes(bytes: seq<octet>)
  {
    function Mode(): nat {
      match this
      case Numeric(_) => 1
      case Alphanumeric(_) => 2
      case Bytes(_) => 4
    }

    function Length(): nat {
      match this
      case Numeric(text) => |text|
      case Alphanumeric(text) => |text|
      case Bytes(bytes) => |bytes|
    }

    /** The encoder throws on a character outside the mode's alphabet. */
    predicate Encodable() {
      match this
      case Numeric(text) => AllDigits(text)
      case Alphanumeric(text) => AllCoded(text)
      case Bytes(_) => true
    }

    function Payload(): seq<bool> {
      match this
      case Numeric(text) => NumberBits(text)
      case Alphanumeric(text) => AlphaNumBits(text)
      case Bytes(bytes) => OctetBits(bytes)
    }
  }

  // ----- numeric mode

  predicate IsDigit(c: char) {
    '0' <= c <= '9'
  }

  predicate AllDigits(s: string) {
    forall c <- s :: IsDigit(c)
  }

  function DigitValue(c: char): (d: nat)
    ensures d < 10
  {
    if IsDigit(c) then c as int - '0' as int else 0
  }

  function DigitChar(d: nat): (c: char)
    requires d < 10
    ensures IsDigit(c) && DigitValue(c) == d
  {
    (d + '0' as int) as char
  }

  /** The decimal value of a digit string. */
  function StrToNum(s: string): nat {
    if s == "" then 0 else 10 * StrToNum(s[..|s| - 1]) + DigitValue(s[|s| - 1])
  }

  function NumberBits(s: string): seq<bool> {
    if |s| >= 3 then NatBits(StrToNum(s[..3]), 10) + NumberBits(s[3..])
    else if |s| == 2 then NatBits(StrToNum(s), 7)
    else if |s| == 1 then NatBits(StrToNum(s), 4)
    else []
  }

  predicate IsDecimal(c: char, d: nat) {
    d < 10 && c as int == 48 + d
  }

  /** The bits of a digit string: ten for each three digits, and seven or four for the rest. */
  lemma NumberGroups(x: char, a: nat, y: char, b: nat, z: char, c: nat, rest: string)
    requires IsDecimal(x, a) && IsDecimal(y, b) && IsDecimal(z, c)
    ensures NumberBits("") == [] && NumberBits([x]) == NatBits(a, 4) && NumberBits([x, y]) == NatBits(10 * a + b, 7)
    ensures NumberBits([x, y, z] + rest) == NatBits(100 * a + 10 * b + c, 10) + NumberBits(rest)
  {
    hide NatBits, StrToNum;
    StrToNumSmall([x]);
    StrToNumSmall([x, y]);
    StrToNumSmall([x, y, z]);
    var s := [x, y, z] + rest;
    assert s[..3] == [x, y, z] && s[3..] == rest;
  }

  lemma StrToNumSmall(s: string)
    requires |s| <= 3
    ensures |s| == 1 ==> StrToNum(s) == DigitValue(s[0])
    ensures |s| == 2 ==> StrToNum(s) == 10 * DigitValue(s[0]) + DigitValue(s[1])
    ensures |s| == 3 ==> StrToNum(s) == 100 * DigitValue(s[0]) + 10 * DigitValue(s[1]) + DigitValue(s[2])
  {
    if |s| == 2 {
      StrToNumSmall(s[..1]);
    } else if |s| == 3 {
      StrToNumSmall(s[..2]);
    }
  }

  method StrToNumLoop(s: string) returns (r: Option<nat>)
    ensures r.Some? <==> AllDigits(s)
    ensures r.Some? ==> r.value == StrToNum(s)
  {
    var num := 0;
    for i := 0 to |s|
      invariant AllDigits(s[..i])
      invariant num == StrToNum(s[..i])
    {
      if !IsDigit(s[i]) {
        return None;
      }
      assert s[..i + 1][..i] == s[..i];
      num := num * 10 + DigitValue(s[i]);
    }
    assert s[..|s|] == s;
    return Some(num);
  }

  /** qrNumber.write: groups of three digits in ten bits, the rest in seven or four. */
  method WriteNumber(buffer: QrBitBuffer, data: string) returns (ok: bool)
    requires buffer.Valid()
    modifies buffer
    ensures buffer.Valid()
    ensures ok <==> AllDigits(data)
    ensures ok ==> buffer.Contents() == old(buffer.Contents()) + NumberBits(data)
  {
    hide StrToNum;
    var i := 0;
    while i + 2 < |data|
      invariant i <= |data| && buffer.Valid()
      invariant AllDigits(data[..i])
      invariant buffer.Contents() + NumberBits(data[i..]) == old(buffer.Contents()) + NumberBits(data)
    {
      ghost var before := buffer.Contents();
      var group := StrToNumLoop(data[i..i + 3]);
      AllDigitsSplit(data, i, i + 3);
      if group.None? {
        return false;
      }
      assert data[i..][..3] == data[i..i + 3] && data[i..][3..] == data[i + 3..];
      buffer.Put(group.value, 10);
      assert before + NumberBits(data[i..]) == buffer.Contents() + NumberBits(data[i + 3..]);
      i := i + 3;
    }
    AllDigitsSplit(data, i, |data|);
    if i < |data| {
      var group := StrToNumLoop(data[i..]);
      if group.None? {
        return false;
      }
      if |data| - i == 1 {
        buffer.Put(group.value, 4);
      } else if |data| - i == 2 {
        buffer.Put(group.value, 7);
      }
    }
    return true;
  }

  lemma AllDigitsSplit(s: string, i: nat, j: nat)
    requires i <= j <= |s|
    ensures AllDigits(s) ==> AllDigits(s[i..j])
    ensures AllDigits(s[..i]) && AllDigits(s[i..j]) ==> AllDigits(s[..j])
    ensures s[..|s|] == s
  {
    assert s[..j] == s[..i] + s[i..j];
  }

  /** Reads count digits. */
  function DecodeNumber(bits: seq<bool>, count: nat): (r: Option<(string, seq<bool>)>)
    ensures r.Some? ==> |r.value.1| <= |bits|
    decreases count
  {
    if count >= 3 then
      if |bits| < 10 || BitsNat(bits[..10]) >= 1000 then None
      else
        match DecodeNumber(bits[10..], count - 3)
        case None => None
        case Some((text, rest)) => Some((Digits(BitsNat(bits[..10]), 3) + text, rest))
    else if count == 2 then
      if |bits| < 7 || BitsNat(bits[..7]) >= 100 then None
      else Some((Digits(BitsNat(bits[..7]), 2), bits[7..]))
    else if count == 1 then
      if |bits| < 4 || BitsNat(bits[..4]) >= 10 then None
      else Some((Digits(BitsNat(bits[..4]), 1), bits[4..]))
    else Some(("", bits))
  }

  lemma {:induction false} NumberRoundTrip(s: string, rest: seq<bool>)
    requires AllDigits(s)
    ensures DecodeNumber(NumberBits(s) + rest, |s|) == Some((s, rest))
  {
    hide NatBits, BitsNat, StrToNum, Digits, Pow2;
    var bits := NumberBits(s) + rest;
    Pow2Values();
    if |s| >= 3 {
      DigitsOfGroup(s[..3]);
      FieldReadBack(StrToNum(s[..3]), 10, NumberBits(s[3..]) + rest);
      assert bits == NatBits(StrToNum(s[..3]), 10) + (NumberBits(s[3..]) + rest);
      NumberRoundTrip(s[3..], rest);
      assert s == s[..3] + s[3..];
    } else if |s| > 0 {
      DigitsOfGroup(s);
      FieldReadBack(StrToNum(s), if |s| == 2 then 7 else 4, rest);
    } else {
      assert bits == rest;
    }
  }

  lemma FieldReadBack(v: nat, n: nat, rest: seq<bool>)
    requires v < Pow2(n)
    ensures (NatBits(v, n) + rest)[n..] == rest
    ensures BitsNat((NatBits(v, n) + rest)[..n]) == v
  {
    hide NatBits, BitsNat, Pow2;
    BitsNatOfNatBits(v, n);
    assert (NatBits(v, n) + rest)[..n] == NatBits(v, n);
  }

  /** The digits of a group, recovered from its value. */
  function Digits(v: nat, count: nat): string {
    if count == 3 then [DigitChar(v / 100 % 10), DigitChar(v / 10 % 10), DigitChar(v % 10)]
    else if count == 2 then [DigitChar(v / 10 % 10), DigitChar(v % 10)]
    else [DigitChar(v % 10)]
  }

  lemma DigitsOfGroup(s: string)
    requires 1 <= |s| <= 3 && AllDigits(s)
    ensures StrToNum(s) < (if |s| == 3 then 1000 else if |s| == 2 then 100 else 10)
    ensures Digits(StrToNum(s), |s|) == s
  {
    hide StrToNum, Digits, DigitChar, DigitValue;
    StrToNumSmall(s);
    forall i | 0 <= i < |s| ensures DigitChar(DigitValue(s[i])) == s[i] {
      DigitCharOfValue(s[i]);
    }
    if |s| == 3 {
      ThreeDigits(DigitValue(s[0]), DigitValue(s[1]), DigitValue(s[2]));
    } else if |s| == 2 {
      TwoDigits(DigitValue(s[0]), DigitValue(s[1]));
    } else {
      OneDigit(DigitValue(s[0]));
    }
  }

  lemma ThreeDigits(a: nat, b: nat, c: nat)
    requires a < 10 && b < 10 && c < 10
    ensures Digits(100 * a + 10 * b + c, 3) == [DigitChar(a), DigitChar(b), DigitChar(c)]
  {
    hide DigitChar;
    var v := 100 * a + 10 * b + c;
    assert v / 10 == 10 * a + b && v / 100 == a && v % 10 == c;
  }

  lemma TwoDigits(a: nat, b: nat)
    requires a < 10 && b < 10
    ensures Digits(10 * a + b, 2) == [DigitChar(a), DigitChar(b)]
  {
    hide DigitChar;
    assert (10 * a + b) / 10 == a && (10 * a + b) % 10 == b;
  }

  lemma OneDigit(a: nat)
    requires a < 10
    ensures Digits(a, 1) == [DigitChar(a)]
  {
  }

  lemma DigitCharOfValue(c: char)
    requires IsDigit(c)
    ensures DigitChar(DigitValue(c)) == c
  {
  }

  // ----- alphanumeric mode

  const PUNCTUATION := " $%*+-./:"

  /** The value of a character, or nothing where getCode throws. */
  function GetCode(c: char): (r: Option<nat>)
    ensures r.Some? ==> r.value < 45
  {
    if '0' <= c <= '9' then Some(c as int - '0' as int)
    else if 'A' <= c <= 'Z' then Some(c as int - 'A' as int + 10)
    else
      match c
      case ' ' => Some(36)
      case '$' => Some(37)
      case '%' => Some(38)
      case '*' => Some(39)
      case '+' => Some(40)
      case '-' => Some(41)
      case '.' => Some(42)
      case '/' => Some(43)
      case ':' => Some(44)
      case _ => None
  }

  predicate AllCoded(s: string) {
    forall c <- s :: GetCode(c).Some?
  }

  function CodeValue(c: char): (n: nat)
    ensures n < 45
  {
    match GetCode(c)
    case Some(n) => n
    case None => 0
  }

  /** The character of a value (table 5 of the standard). */
  function CharOf(n: nat): char
    requires n < 45
  {
    if n < 10 then (n + '0' as int) as char
    else if n < 36 then (n - 10 + 'A' as int) as char
    else PUNCTUATION[n - 36]
  }

  lemma CharOfGetCode(c: char)
    requires GetCode(c).Some?
    ensures CharOf(CodeValue(c)) == c
  {
  }

  /** Table 5 of the standard, in the order of the values. */
  const ALPHABET := "0123456789ABCDEFGHIJKLMNOPQRSTUVWXYZ $%*+-./:"

  /** Exactly the characters of the table have a code: their place in it. */
  lemma CodesAreTable(c: char)
    ensures GetCode(c).Some? <==> c in ALPHABET
    ensures GetCode(c).Some? ==> ALPHABET[GetCode(c).value] == c
  {
    if GetCode(c).Some? {
      TableAt(GetCode(c).value);
      CharOfGetCode(c);
    }
    if c in ALPHABET {
      var k :| 0 <= k < |ALPHABET| && ALPHABET[k] == c;
      TableAt(k);
    }
  }

  lemma TableAt(k: nat)
    requires k < 45
    ensures |ALPHABET| == 45 && ALPHABET[k] == CharOf(k) && GetCode(CharOf(k)) == Some(k)
  {
    CodeOfChar(k);
    hide GetCode, CharOf;
    assert "0123456789" + "ABCDEFGHIJKLMNOPQRSTUVWXYZ" + PUNCTUATION == ALPHABET;
    Digits10(k);
    Letters26(k);
    Rest9(k);
  }

  lemma CodeOfChar(k: nat)
    requires k < 45
    ensures GetCode(CharOf(k)) == Some(k)
  {
  }

  lemma Rest9(k: nat)
    ensures 36 <= k < 45 ==> PUNCTUATION[k - 36] == CharOf(k)
  {
  }

  lemma Digits10(k: nat)
    ensures k < 10 ==> "0123456789"[k] == CharOf(k)
  {
  }

  lemma Letters26(k: nat)
    ensures 10 <= k < 36 ==> "ABCDEFGHIJKLMNOPQRSTUVWXYZ"[k - 10] == CharOf(k)
  {
  }

  predicate IsCharacter(c: char, code: nat) {
    code < |ALPHABET| && ALPHABET[code] == c
  }

  /** The bits of an alphanumeric string: eleven for each pair, and six for a last single character. */
  lemma PairsOfCodes(x: char, a: nat, y: char, b: nat, rest: string)
    requires IsCharacter(x, a) && IsCharacter(y, b)
    ensures AlphaNumBits("") == [] && AlphaNumBits([x]) == NatBits(a, 6)
    ensures AlphaNumBits([x, y] + rest) == NatBits(45 * a + b, 11) + AlphaNumBits(rest)
  {
    CodeIs(x, a);
    CodeIs(y, b);
    hide IsCharacter, CodeValue, NatBits;
    var s := [x, y] + rest;
    assert s[2..] == rest;
  }

  lemma CodeIs(c: char, code: nat)
    requires IsCharacter(c, code)
    ensures CodeValue(c) == code
  {
    TableSize();
    TableAt(code);
  }

  lemma TableSize()
    ensures |ALPHABET| == 45
  {
  }

  function AlphaNumBits(s: string): seq<bool> {
    if |s| >= 2 then NatBits(CodeValue(s[0]) * 45 + CodeValue(s[1]), 11) + AlphaNumBits(s[2..])
    else if |s| == 1 then NatBits(CodeValue(s[0]), 6)
    else []
  }

  /** qrAlphaNum.write: pairs in eleven bits, a last single character in six. */
  method WriteAlphaNum(buffer: QrBitBuffer, s: string) returns (ok: bool)
    requires buffer.Valid()
    modifies buffer
    ensures buffer.Valid()
    ensures ok <==> AllCoded(s)
    ensures ok ==> buffer.Contents() == old(buffer.Contents()) + AlphaNumBits(s)
  {
    hide GetCode, NatBits;
    var i := 0;
    while i + 1 < |s|
      invariant i <= |s| && buffer.Valid()
      invariant AllCoded(s[..i])
      invariant buffer.Contents() + AlphaNumBits(s[i..]) == old(buffer.Contents()) + AlphaNumBits(s)
    {
      ghost var before := buffer.Contents();
      var first, second := GetCode(s[i]), GetCode(s[i + 1]);
      if first.None? || second.None? {
        return false;
      }
      assert s[..i + 2] == s[..i] + [s[i], s[i + 1]];
      NextPair(s, i);
      buffer.Put(first.value * 45 + second.value, 11);
      assert before + AlphaNumBits(s[i..]) == buffer.Contents() + AlphaNumBits(s[i + 2..]);
      i := i + 2;
    }
    assert s == s[..i] + s[i..];
    if i < |s| {
      var last := GetCode(s[i]);
      if last.None? {
        return false;
      }
      buffer.Put(last.value, 6);
      assert s[i..] == [s[i]];
    }
    return true;
  }

  lemma NextPair(s: string, i: nat)
    requires i + 1 < |s| && GetCode(s[i]).Some? && GetCode(s[i + 1]).Some?
    ensures AlphaNumBits(s[i..]) ==
            NatBits(GetCode(s[i]).value * 45 + GetCode(s[i + 1]).value, 11) + AlphaNumBits(s[i + 2..])
  {
    hide GetCode, NatBits;
    assert s[i..][2..] == s[i + 2..] && s[i..][0] == s[i] && s[i..][1] == s[i + 1];
  }

  function DecodeAlphaNum(bits: seq<bool>, count: nat): (r: Option<(string, seq<bool>)>)
    ensures r.Some? ==> |r.value.1| <= |bits|
    decreases count
  {
    if count >= 2 then
      if |bits| < 11 || BitsNat(bits[..11]) >= 45 * 45 then None
      else
        var v := BitsNat(bits[..11]);
        match DecodeAlphaNum(bits[11..], count - 2)
        case None => None
        case Some((text, rest)) => Some(([CharOf(v / 45), CharOf(v % 45)] + text, rest))
    else if count == 1 then
      if |bits| < 6 || BitsNat(bits[..6]) >= 45 then None
      else Some(([CharOf(BitsNat(bits[..6]))], bits[6..]))
    else Some(("", bits))
  }

  lemma {:induction false} AlphaNumRoundTrip(s: string, rest: seq<bool>)
    requires AllCoded(s)
    ensures DecodeAlphaNum(AlphaNumBits(s) + rest, |s|) == Some((s, rest))
  {
    hide GetCode, CharOf, NatBits, BitsNat, CodeValue, Pow2;
    var bits := AlphaNumBits(s) + rest;
    Pow2Values();
    if |s| >= 2 {
      var a, b := CodeValue(s[0]), CodeValue(s[1]);
      var v := a * 45 + b;
      assert v / 45 == a && v % 45 == b;
      FieldReadBack(v, 11, AlphaNumBits(s[2..]) + rest);
      assert bits == NatBits(v, 11) + (AlphaNumBits(s[2..]) + rest);
      AlphaNumRoundTrip(s[2..], rest);
      CharOfGetCode(s[0]);
      CharOfGetCode(s[1]);
      assert s == [s[0], s[1]] + s[2..];
    } else if |s| == 1 {
      FieldReadBack(CodeValue(s[0]), 6, rest);
      CharOfGetCode(s[0]);
      assert s == [s[0]];
    } else {
      assert bits == rest;
    }
  }

  // ----- byte mode

  /** qr8BitByte.write */
  method WriteBytes(buffer: QrBitBuffer, bytes: seq<octet>)
    requires buffer.Valid()
    modifies buffer
    ensures buffer.Valid()
    ensures buffer.Contents() == old(buffer.Contents()) + OctetBits(bytes)
  {
    for i := 0 to |bytes|
      invariant buffer.Valid()
      invariant buffer.Contents() == old(buffer.Contents()) + OctetBits(bytes[..i])
    {
      assert bytes[..i + 1][..i] == bytes[..i];
      buffer.Put(bytes[i], 8);
    }
    assert bytes[..|bytes|] == bytes;
  }

  function DecodeBytes(bits: seq<bool>, count: nat): (r: Option<(seq<octet>, seq<bool>)>)
    ensures r.Some? ==> |r.value.1| <= |bits|
    decreases count
  {
    if count == 0 then Some(([], bits))
    else if |bits| < 8 then None
    else
      var v := BitsNat(bits[..8]);
      if v >= 256 then None
      else
        match DecodeBytes(bits[8..], count - 1)
        case None => None
        case Some((bytes, rest)) => Some(([v] + bytes, rest))
  }

  lemma {:induction false} BytesRoundTrip(bytes: seq<octet>, rest: seq<bool>)
    ensures DecodeBytes(OctetBits(bytes) + rest, |bytes|) == Some((bytes, rest))
    decreases |bytes|
  {
    hide OctetBits, NatBits, BitsNat, Pow2;
    var bits := OctetBits(bytes) + rest;
    if bytes == [] {
      assert bits == rest;
    } else {
      Pow2Values();
      OctetBitsFirst(bytes);
      FieldReadBack(bytes[0], 8, OctetBits(bytes[1..]) + rest);
      assert bits == NatBits(bytes[0], 8) + (OctetBits(bytes[1..]) + rest);
      BytesRoundTrip(bytes[1..], rest);
      assert bytes == [bytes[0]] + bytes[1..];
    }
  }

  lemma Pow2Values()
    ensures Pow2(4) == 16 && Pow2(6) == 64 && Pow2(7) == 128 && Pow2(8) == 256
    ensures Pow2(9) == 512 && Pow2(10) == 1024 && Pow2(11) == 2048 && Pow2(12) == 4096
    ensures Pow2(13) == 8192 && Pow2(14) == 16384 && Pow2(16) == 65536
  {
  }
}
