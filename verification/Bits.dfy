/** Numbers and bytes as bit sequences, most significant bit first. */
module Bits {
  import opened Prelude

  function Pow2(k: nat): (r: nat)
    ensures r > 0
  {
    if k == 0 then 1 else 2 * Pow2(k - 1)
  }

  /** The k-fold right shift of an unsigned number. */
  function Shr(num: nat, k: nat): nat {
    if k == 0 then num else Shr(num / 2, k - 1)
  }

  /** The low len bits of num. */
  function NatBits(num: nat, len: nat): (bits: seq<bool>)
    ensures |bits| == len
  {
    if len == 0 then [] else NatBits(num / 2, len - 1) + [num % 2 == 1]
  }

  function BitsNat(bits: seq<bool>): nat {
    if bits == [] then 0
    else 2 * BitsNat(bits[..|bits| - 1]) + if bits[|bits| - 1] then 1 else 0
  }

  lemma {:induction false} NatBitsAt(num: nat, len: nat, i: nat)
    requires i < len
    ensures NatBits(num, len)[i] == (Shr(num, len - 1 - i) % 2 == 1)
  {
    if i < len - 1 {
      NatBitsAt(num / 2, len - 1, i);
    }
  }

  lemma {:induction false} BitsNatOfNatBits(num: nat, len: nat)
    requires num < Pow2(len)
    ensures BitsNat(NatBits(num, len)) == num
  {
    if len > 0 {
      BitsNatOfNatBits(num / 2, len - 1);
      assert NatBits(num, len)[..len - 1] == NatBits(num / 2, len - 1);
    }
  }

  lemma {:induction false} BitsNatBound(bits: seq<bool>)
    ensures BitsNat(bits) < Pow2(|bits|)
  {
    if bits != [] {
      BitsNatBound(bits[..|bits| - 1]);
    }
  }

  lemma {:induction false} NatBitsOfBitsNat(bits: seq<bool>)
    ensures NatBits(BitsNat(bits), |bits|) == bits
  {
    if bits != [] {
      NatBitsOfBitsNat(bits[..|bits| - 1]);
    }
  }

  type octet = n: nat | n < 256

  /** The bits of a string of bytes given as numbers. */
  function OctetBits(bytes: seq<octet>): (bits: seq<bool>)
    ensures |bits| == 8 * |bytes|
  {
    if bytes == [] then [] else OctetBits(bytes[..|bytes| - 1]) + NatBits(bytes[|bytes| - 1], 8)
  }

  lemma {:induction false} OctetBitsFirst(bytes: seq<octet>)
    requires bytes != []
    ensures OctetBits(bytes) == NatBits(bytes[0], 8) + OctetBits(bytes[1..])
  {
    hide NatBits;
    var n := |bytes| - 1;
    if n > 0 {
      OctetBitsFirst(bytes[..n]);
      assert bytes[..n][1..] == bytes[1..][..n - 1];
    } else {
      assert bytes[1..] == [] && bytes[..n] == [];
    }
  }

  /** Bits shifted in from below. */
  lemma {:induction false} NatBitsOfSum(high: nat, len: nat, low: nat, k: nat)
    requires low < Pow2(k)
    ensures NatBits(Shl(high, k) + low, len + k) == NatBits(high, len) + NatBits(low, k)
  {
    if k > 0 {
      NatBitsOfSum(high, len, low / 2, k - 1);
      var sum := Shl(high, k) + low;
      assert sum / 2 == Shl(high, k - 1) + low / 2 && sum % 2 == low % 2;
    }
  }

  /** Bits above a right shift. */
  lemma {:induction false} NatBitsOfShr(num: nat, len: nat, k: nat)
    ensures NatBits(num, len + k) == NatBits(Shr(num, k), len) + NatBits(num, k)
  {
    if k > 0 {
      NatBitsOfShr(num / 2, len, k - 1);
    }
  }

  /** Dropping bits above a register's width. */
  lemma {:induction false} NatBitsOfMod(num: nat, width: nat, len: nat)
    requires len <= width
    ensures NatBits(num % Pow2(width), len) == NatBits(num, len)
  {
    if len > 0 {
      HalfOfMod(num, Pow2(width - 1));
      NatBitsOfMod(num / 2, width - 1, len - 1);
    }
  }

  lemma HalfOfMod(num: nat, m: nat)
    requires m > 0
    ensures num % (2 * m) / 2 == num / 2 % m && num % (2 * m) % 2 == num % 2
  {
    var q, r := num / 2 / m, num / 2 % m;
    assert num / 2 == q * m + r;
    assert num == q * (2 * m) + (2 * r + num % 2);
    RemainderUnique(num, 2 * m, q, 2 * r + num % 2);
  }

  lemma RemainderUnique(num: nat, m: nat, q: nat, r: nat)
    requires r < m && num == q * m + r
    ensures num % m == r
  {
    var a, b := num / m, num % m;
    DivisionUnique(a, b, q, r, m);
  }

  lemma DivisionUnique(a: nat, b: nat, q: nat, r: nat, m: nat)
    requires b < m && r < m && a * m + b == q * m + r
    ensures b == r
  {
    if a > q {
      Larger(a, q, m);
    } else if a < q {
      Larger(q, a, m);
    }
  }

  lemma Larger(a: nat, q: nat, m: nat)
    requires a > q
    ensures a * m >= q * m + m
  {
    assert (a - q - 1) * m >= 0;
    assert a * m == q * m + m + (a - q - 1) * m;
  }

  function ByteBits(b: byte): (bits: seq<bool>)
    ensures |bits| == 8
  {
    [b & 0x80 != 0, b & 0x40 != 0, b & 0x20 != 0, b & 0x10 != 0,
     b & 0x08 != 0, b & 0x04 != 0, b & 0x02 != 0, b & 0x01 != 0]
  }

  function BitsByte(bits: seq<bool>): byte
    requires |bits| == 8
  {
    (if bits[0] then 0x80 else 0) | (if bits[1] then 0x40 else 0)
    | (if bits[2] then 0x20 else 0) | (if bits[3] then 0x10 else 0)
    | (if bits[4] then 0x08 else 0) | (if bits[5] then 0x04 else 0)
    | (if bits[6] then 0x02 else 0) | (if bits[7] then 0x01 else 0)
  }

  lemma BitsByteOfByteBits(b: byte)
    ensures BitsByte(ByteBits(b)) == b
  {
  }

  lemma ByteBitsOfBitsByte(bits: seq<bool>)
    requires |bits| == 8
    ensures ByteBits(BitsByte(bits)) == bits
  {
  }

  /** Setting the bit that 0x80 >> i masks. */
  lemma SetBit(b: byte, i: nat)
    requires i < 8
    ensures ByteBits(b | (0x80 >> i)) == ByteBits(b)[i := true]
  {
    if i < 2 {
      SetHighBit(b, i);
    } else if i < 4 {
      SetMiddleBit(b, i);
    } else {
      SetLowBit(b, i);
    }
  }

  lemma SetHighBit(b: byte, i: nat)
    requires i < 2
    ensures ByteBits(b | (0x80 >> i)) == ByteBits(b)[i := true]
  {
    if
    case i == 0 =>
    case i == 1 =>
  }

  lemma SetMiddleBit(b: byte, i: nat)
    requires 2 <= i < 4
    ensures ByteBits(b | (0x80 >> i)) == ByteBits(b)[i := true]
  {
    if
    case i == 2 =>
    case i == 3 =>
  }

  lemma SetLowBit(b: byte, i: nat)
    requires 4 <= i < 8
    ensures ByteBits(b | (0x80 >> i)) == ByteBits(b)[i := true]
  {
    if
    case i == 4 =>
    case i == 5 =>
    case i == 6 =>
    case i == 7 =>
  }

  /** Reading the bit that a shift by 7 - i brings down. */
  lemma GetBit(b: byte, i: nat)
    requires i < 8
    ensures ((b >> (7 - i)) & 1 == 1) == ByteBits(b)[i]
  {
    if
    case i == 0 =>
    case i == 1 =>
    case i == 2 =>
    case i == 3 =>
    case i == 4 =>
    case i == 5 =>
    case i == 6 =>
    case i == 7 =>
  }

  function BytesBits(bytes: seq<byte>): (bits: seq<bool>)
    ensures |bits| == 8 * |bytes|
  {
    if bytes == [] then [] else BytesBits(bytes[..|bytes| - 1]) + ByteBits(bytes[|bytes| - 1])
  }

  lemma {:induction false} BytesBitsAt(bytes: seq<byte>, k: nat)
    requires k < 8 * |bytes|
    ensures BytesBits(bytes)[k] == ByteBits(bytes[k / 8])[k % 8]
  {
    hide ByteBits;
    if k < 8 * (|bytes| - 1) {
      BytesBitsAt(bytes[..|bytes| - 1], k);
    } else {
      assert k / 8 == |bytes| - 1;
    }
  }

  function BitsBytes(bits: seq<bool>): (bytes: seq<byte>)
    requires |bits| % 8 == 0
    ensures |bytes| == |bits| / 8
  {
    if bits == [] then [] else BitsBytes(bits[..|bits| - 8]) + [BitsByte(bits[|bits| - 8..])]
  }

  lemma {:induction false} BitsBytesOfBytesBits(bytes: seq<byte>)
    ensures BitsBytes(BytesBits(bytes)) == bytes
  {
    hide ByteBits, BitsByte;
    if bytes != [] {
      var init, last := bytes[..|bytes| - 1], bytes[|bytes| - 1];
      BitsBytesOfBytesBits(init);
      BitsByteOfByteBits(last);
      var bits := BytesBits(bytes);
      assert bits[..|bits| - 8] == BytesBits(init) && bits[|bits| - 8..] == ByteBits(last);
    }
  }

  lemma {:induction false} BytesBitsOfBitsBytes(bits: seq<bool>)
    requires |bits| % 8 == 0
    ensures BytesBits(BitsBytes(bits)) == bits
  {
    hide BytesBits, ByteBits, BitsByte;
    if bits == [] {
      NoBytesBits();
    } else {
      var init, last := bits[..|bits| - 8], bits[|bits| - 8..];
      BytesBitsOfBitsBytes(init);
      ByteBitsOfBitsByte(last);
      BytesBitsNext(BitsBytes(init), BitsByte(last));
      assert bits == init + last;
    }
  }

  lemma NoBytesBits()
    ensures BytesBits([]) == []
  {
  }

  lemma BytesBitsNext(bytes: seq<byte>, b: byte)
    ensures BytesBits(bytes + [b]) == BytesBits(bytes) + ByteBits(b)
  {
    hide ByteBits;
    assert (bytes + [b])[..|bytes|] == bytes;
  }

  // ----- least significant bit first

  function Shl(num: nat, k: nat): nat {
    if k == 0 then num else 2 * Shl(num, k - 1)
  }

  /** The low len bits of num, least significant first. */
  function LsbBits(num: nat, len: nat): (bits: seq<bool>)
    ensures |bits| == len
  {
    if len == 0 then [] else [num % 2 == 1] + LsbBits(num / 2, len - 1)
  }

  function LsbNat(bits: seq<bool>): nat {
    if bits == [] then 0 else (if bits[0] then 1 else 0) + 2 * LsbNat(bits[1..])
  }

  lemma {:induction false} LsbNatOfLsbBits(num: nat, len: nat, zeros: nat)
    requires num < Pow2(len)
    ensures LsbNat(LsbBits(num, len) + seq(zeros, _ => false)) == num
  {
    var pad := seq(zeros, _ => false);
    if len > 0 {
      LsbNatOfLsbBits(num / 2, len - 1, zeros);
      assert (LsbBits(num, len) + pad)[1..] == LsbBits(num / 2, len - 1) + pad;
    } else if zeros > 0 {
      LsbNatOfLsbBits(0, 0, zeros - 1);
      assert (LsbBits(0, 0) + pad)[1..] == LsbBits(0, 0) + seq(zeros - 1, _ => false);
    }
  }

  lemma {:induction false} LsbBitsOfSum(high: nat, k: nat, low: nat, len: nat)
    requires low < Pow2(k)
    ensures LsbBits(Shl(high, k) + low, k + len) == LsbBits(low, k) + LsbBits(high, len)
  {
    if k > 0 {
      LsbBitsOfSum(high, k - 1, low / 2, len);
      var sum := Shl(high, k) + low;
      assert sum / 2 == Shl(high, k - 1) + low / 2 && sum % 2 == low % 2;
    }
  }

  lemma {:induction false} LsbBitsOfShr(num: nat, k: nat, len: nat)
    requires k <= len
    ensures LsbBits(num, len) == LsbBits(num, k) + LsbBits(Shr(num, k), len - k)
  {
    if k > 0 {
      LsbBitsOfShr(num / 2, k - 1, len - 1);
    }
  }

  lemma {:induction false} ShrBound(num: nat, k: nat, len: nat)
    requires k <= len && num < Pow2(len)
    ensures Shr(num, k) < Pow2(len - k)
  {
    if k > 0 {
      ShrBound(num / 2, k - 1, len - 1);
    }
  }

  lemma {:induction false} ShrIsZero(num: nat, k: nat)
    ensures Shr(num, k) == 0 <==> num < Pow2(k)
  {
    if k > 0 {
      ShrIsZero(num / 2, k - 1);
    }
  }

  lemma ShlTwice(num: nat, k: nat)
    ensures Shl(num, 0) == num && Shl(num, k + 2) == 4 * Shl(num, k)
  {
    assert Shl(num, k + 1) == 2 * Shl(num, k);
  }

  lemma LowByte(num: nat)
    ensures LsbBits(num % 256, 8) == LsbBits(num, 8)
  {
    var high := num / 256;
    assert Pow2(8) == 256;
    ShlTwice(high, 0);
    ShlTwice(high, 2);
    ShlTwice(high, 4);
    ShlTwice(high, 6);
    LsbBitsOfSum(num / 256, 8, num % 256, 0);
  }

  /** The bits of a byte stream, each byte's least significant bit first. */
  function StreamBits(bytes: seq<nat>): (bits: seq<bool>)
    ensures |bits| == 8 * |bytes|
  {
    if bytes == [] then [] else StreamBits(bytes[..|bytes| - 1]) + LsbBits(bytes[|bytes| - 1], 8)
  }

  lemma {:induction false} Pow2Monotone(a: nat, b: nat)
    requires a <= b
    ensures Pow2(a) <= Pow2(b)
  {
    if a < b {
      Pow2Monotone(a, b - 1);
    }
  }
}
