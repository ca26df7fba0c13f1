/** Machine words, little-endian fields and the 64-bit FNV-1a hash.
    Words are natural numbers below a power of two, so every wrap-around is a visible `%`. */
module Words {
  type byte = x: int | 0 <= x < 256

  const U32: nat := 0x1_0000_0000
  const U64: nat := 0x1_0000_0000_0000_0000

  /** `value` as `n` little-endian bytes; the bits above are dropped, as a narrowing cast drops them. */
  function LittleEndian(value: nat, n: nat): (r: seq<byte>)
    ensures |r| == n
  {
    if n == 0 then [] else [value % 256] + LittleEndian(value / 256, n - 1)
  }

  function FromLittleEndian(bytes: seq<byte>): nat {
    if bytes == [] then 0 else bytes[0] + 256 * FromLittleEndian(bytes[1..])
  }

  function Pow256(n: nat): nat {
    if n == 0 then 1 else 256 * Pow256(n - 1)
  }

  lemma {:induction false} LittleEndianRoundTrip(value: nat, n: nat)
    requires value < Pow256(n)
    ensures FromLittleEndian(LittleEndian(value, n)) == value
  {
    if n > 0 {
      LittleEndianRoundTrip(value / 256, n - 1);
      assert LittleEndian(value, n)[1..] == LittleEndian(value / 256, n - 1);
    }
  }

  lemma {:induction false} FromLittleEndianRoundTrip(bytes: seq<byte>)
    ensures FromLittleEndian(bytes) < Pow256(|bytes|)
    ensures LittleEndian(FromLittleEndian(bytes), |bytes|) == bytes
  {
    if bytes != [] {
      var b, tail := bytes[0], bytes[1..];
      FromLittleEndianRoundTrip(tail);
      SplitLowByte(b, FromLittleEndian(tail));
      assert bytes == [b] + tail;
    }
  }

  lemma SplitLowByte(b: byte, rest: nat)
    ensures (b + 256 * rest) % 256 == b && (b + 256 * rest) / 256 == rest
  {
  }

  lemma WordWidths()
    ensures Pow256(4) == U32 && Pow256(8) == U64
  {
    assert Pow256(4) == 256 * (256 * (256 * (256 * Pow256(0))));
    assert Pow256(8) == 256 * (256 * (256 * (256 * Pow256(4))));
  }

  /** Bitwise exclusive or. */
  function Xor(a: nat, b: nat): nat
    decreases a + b
  {
    if a == 0 then b else if b == 0 then a
    else (if a % 2 == b % 2 then 0 else 1) + 2 * Xor(a / 2, b / 2)
  }

  const FNV_OFFSET_BASIS: nat := 0xcbf29ce484222325
  const FNV_PRIME: nat := 0x100000001b3

  function FnvByte(hash: nat, b: byte): nat {
    (Xor(hash, b) * FNV_PRIME) % U64
  }

  /** The running hash after `bytes`. Nothing below assumes that it is injective. */
  function DigestExtend(hash: nat, bytes: seq<byte>): nat
    decreases |bytes|
  {
    if bytes == [] then hash else DigestExtend(FnvByte(hash, bytes[0]), bytes[1..])
  }

  function Digest(bytes: seq<byte>): nat {
    DigestExtend(FNV_OFFSET_BASIS, bytes)
  }

  lemma {:induction false} DigestExtendConcat(hash: nat, a: seq<byte>, b: seq<byte>)
    ensures DigestExtend(DigestExtend(hash, a), b) == DigestExtend(hash, a + b)
    decreases |a|
  {
    if a == [] {
      assert a + b == b;
    } else {
      DigestExtendConcat(FnvByte(hash, a[0]), a[1..], b);
      assert (a + b)[0] == a[0] && (a + b)[1..] == a[1..] + b;
    }
  }

  lemma {:induction false} DigestIsWord(hash: nat, bytes: seq<byte>)
    requires hash < U64
    ensures DigestExtend(hash, bytes) < U64
    decreases |bytes|
  {
    if bytes != [] {
      DigestIsWord(FnvByte(hash, bytes[0]), bytes[1..]);
    }
  }

  /** The loop the file store runs over a record: fold every byte into the running value. */
  method ExtendDigest(start: nat, bytes: seq<byte>) returns (value: nat)
    ensures value == DigestExtend(start, bytes)
  {
    value := start;
    for i := 0 to |bytes|
      invariant DigestExtend(value, bytes[i..]) == DigestExtend(start, bytes)
    {
      assert bytes[i..][1..] == bytes[i + 1..];
      value := FnvByte(value, bytes[i]);
    }
  }
}
