/** qrBitBuffer: bits packed into bytes as they arrive. */
module BitBuffer {
  import opened Prelude
  import opened Bits

  class QrBitBuffer {
    var buffer: seq<byte>
    var length: nat

    /** As many bytes as the bits need, and every unused bit zero. */
    ghost predicate Valid()
      reads this
    {
      && |buffer| == (length + 7) / 8
      && ZeroFrom(buffer, length)
    }

    /** Everything put so far. */
    ghost function Contents(): (bits: seq<bool>)
      requires Valid()
      reads this
      ensures |bits| == length
    {
      BytesBits(buffer)[..length]
    }

    constructor ()
      ensures Valid() && Contents() == []
    {
      buffer := [];
      length := 0;
    }

    method PutBit(bit: bool)
      requires Valid()
      modifies this
      ensures Valid() && Contents() == old(Contents()) + [bit]
    {
      hide BytesBits, WithBit, ByteBits;
      ghost var before := buffer;
      var bufIndex := length / 8;
      if |buffer| <= bufIndex {
        buffer := buffer + [0];
        Extended(before);
      }
      assert ZeroFrom(buffer, length) && BytesBits(buffer)[..length] == old(Contents());
      ghost var padded := buffer;
      if bit {
        buffer := WithBit(buffer, bufIndex, length % 8);
      }
      assert BytesBits(buffer) == BytesBits(padded)[length := bit];
      length := length + 1;
    }

    /** The low length bits of num, most significant first. */
    method Put(num: nat, length: nat)
      requires Valid()
      modifies this
      ensures Valid() && Contents() == old(Contents()) + NatBits(num, length)
    {
      for i := 0 to length
        invariant Valid() && Contents() == old(Contents()) + NatBits(num, length)[..i]
      {
        NatBitsAt(num, length, i);
        PutBit(Shr(num, length - i - 1) % 2 == 1);
      }
      assert NatBits(num, length)[..length] == NatBits(num, length);
    }

    /** Bit number index; bits that were never put read as false. */
    method GetAt(index: nat) returns (bit: bool)
      requires Valid()
      ensures bit == (index < length && Contents()[index])
    {
      var bufIndex := index / 8;
      if bufIndex >= |buffer| {
        return false;
      }
      bit := (buffer[bufIndex] >> (7 - index % 8)) & 1 == 1;
      GetBit(buffer[bufIndex], index % 8);
      BytesBitsAt(buffer, index);
    }
  }

  ghost predicate ZeroFrom(bytes: seq<byte>, n: nat) {
    forall k :: n <= k < 8 * |bytes| ==> !BytesBits(bytes)[k]
  }

  lemma Extended(bytes: seq<byte>)
    ensures BytesBits(bytes + [0]) == BytesBits(bytes) + [false, false, false, false, false, false, false, false]
  {
    assert (bytes + [0])[..|bytes|] == bytes;
    assert ByteBits(0) == [false, false, false, false, false, false, false, false];
  }

  lemma ByteReplaced(bytes: seq<byte>, j: nat, b: byte, i: nat, bit: bool)
    requires j < |bytes| && i < 8 && ByteBits(b) == ByteBits(bytes[j])[i := bit]
    ensures BytesBits(bytes[j := b]) == BytesBits(bytes)[8 * j + i := bit]
  {
    hide ByteBits, BytesBits;
    var after := bytes[j := b];
    forall k | 0 <= k < 8 * |bytes| ensures BytesBits(after)[k] == BytesBits(bytes)[8 * j + i := bit][k] {
      BytesBitsAt(after, k);
      BytesBitsAt(bytes, k);
      assert k == 8 * (k / 8) + k % 8;
    }
  }

  /** bytes with bit i of byte j switched on. */
  function WithBit(bytes: seq<byte>, j: nat, i: nat): (r: seq<byte>)
    requires j < |bytes| && i < 8
    ensures |r| == |bytes| && BytesBits(r) == BytesBits(bytes)[8 * j + i := true]
  {
    SetBit(bytes[j], i);
    ByteReplaced(bytes, j, bytes[j] | (0x80 >> i), i, true);
    bytes[j := bytes[j] | (0x80 >> i)]
  }
}
