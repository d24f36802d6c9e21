/** Bytes and fixed-width little-endian integers. */
module Bytes {

  type byte = x: int | 0 <= x < 256

  /** 256 to the power `width`: one more than the largest value `width` bytes can hold. */
  function Limit(width: nat): (r: nat)
    ensures r > 0
  {
    if width == 0 then 1 else 256 * Limit(width - 1)
  }

  function ToLittleEndian(n: nat, width: nat): (r: seq<byte>)
    requires n < Limit(width)
    ensures |r| == width
  {
    if width == 0 then [] else [n % 256] + ToLittleEndian(n / 256, width - 1)
  }

  function FromLittleEndian(bytes: seq<byte>): (r: nat)
    ensures r < Limit(|bytes|)
  {
    if bytes == [] then 0 else bytes[0] + 256 * FromLittleEndian(bytes[1..])
  }

  lemma {:induction false} LittleEndianRoundTrip(n: nat, width: nat)
    requires n < Limit(width)
    ensures FromLittleEndian(ToLittleEndian(n, width)) == n
  {
    if width > 0 {
      LittleEndianRoundTrip(n / 256, width - 1);
      assert ToLittleEndian(n, width)[1..] == ToLittleEndian(n / 256, width - 1);
    }
  }

  lemma {:induction false} LowestByte(low: byte, rest: nat)
    ensures (low + 256 * rest) % 256 == low && (low + 256 * rest) / 256 == rest
  {
  }

  lemma {:induction false} LittleEndianIsUnique(bytes: seq<byte>)
    ensures ToLittleEndian(FromLittleEndian(bytes), |bytes|) == bytes
  {
    if bytes != [] {
      var rest := FromLittleEndian(bytes[1..]);
      LittleEndianIsUnique(bytes[1..]);
      LowestByte(bytes[0], rest);
      assert bytes == [bytes[0]] + bytes[1..];
    }
  }

  /** A byte counts for 256 to the power of the number of bytes before it. */
  lemma {:induction false} LastByteCountsMost(bytes: seq<byte>, last: byte)
    ensures FromLittleEndian(bytes + [last]) == FromLittleEndian(bytes) + last * Limit(|bytes|)
  {
    if bytes == [] {
      assert FromLittleEndian([last]) == last + 256 * FromLittleEndian([]) && Limit(0) == 1;
    } else {
      var limit := Limit(|bytes| - 1);
      assert (bytes + [last])[0] == bytes[0] && (bytes + [last])[1..] == bytes[1..] + [last];
      LastByteCountsMost(bytes[1..], last);
      assert 256 * (last * limit) == last * (256 * limit);
    }
  }

  lemma {:induction false} Limits()
    ensures Limit(4) == 0x1_0000_0000
    ensures Limit(8) == 0x1_0000_0000_0000_0000
  {
    assert Limit(2) == 65536;
    assert Limit(4) == 65536 * Limit(2) by { assert Limit(3) == 256 * Limit(2); }
    assert Limit(6) == 65536 * Limit(4) by { assert Limit(5) == 256 * Limit(4); }
    assert Limit(8) == 65536 * Limit(6) by { assert Limit(7) == 256 * Limit(6); }
  }
}
