/** Numbers as little-endian byte strings. */
module LittleEndian {
  import opened Objects

  function Pow256(n: nat): (p: nat)
    ensures p > 0
  {
    if n == 0 then 1 else 0x100 * Pow256(n - 1)
  }

  /** The number whose little-endian bytes these are. */
  function FromBytes(bytes: seq<u8>): nat
  {
    if bytes == [] then 0 else bytes[0] as nat + 0x100 * FromBytes(bytes[1..])
  }

  /** Byte `k` of a number. */
  function ByteAt(value: nat, k: nat): u8
    decreases k
  {
    if k == 0 then value % 0x100 else ByteAt(value / 0x100, k - 1)
  }

  /** The low `n` bytes of a number. */
  function ToBytes(value: nat, n: nat): (bytes: seq<u8>)
    ensures |bytes| == n
    decreases n
  {
    if n == 0 then [] else [value % 0x100] + ToBytes(value / 0x100, n - 1)
  }

  /** A number below 256^n is recovered from its n little-endian bytes. */
  lemma {:induction false} BytesRoundTrip(value: nat, n: nat, bytes: seq<u8>)
    requires value < Pow256(n) && |bytes| == n && forall k :: 0 <= k < n ==> bytes[k] == ByteAt(value, k)
    ensures FromBytes(bytes) == value
    decreases n
  {
    if n > 0 {
      forall k | 0 <= k < n - 1 ensures bytes[1..][k] == ByteAt(value / 0x100, k) {
        assert bytes[1..][k] == bytes[k + 1];
      }
      BytesRoundTrip(value / 0x100, n - 1, bytes[1..]);
    }
  }

  lemma {:induction false} FromTo(value: nat, n: nat)
    requires value < Pow256(n)
    ensures FromBytes(ToBytes(value, n)) == value
    decreases n
  {
    if n > 0 {
      FromTo(value / 0x100, n - 1);
      assert ToBytes(value, n)[1..] == ToBytes(value / 0x100, n - 1);
    }
  }

  lemma {:induction false} ToFrom(bytes: seq<u8>)
    ensures FromBytes(bytes) < Pow256(|bytes|) && ToBytes(FromBytes(bytes), |bytes|) == bytes
  {
    if bytes != [] {
      ToFrom(bytes[1..]);
      LowAndHigh(bytes[0], FromBytes(bytes[1..]));
      assert bytes == [bytes[0]] + bytes[1..];
    }
  }

  lemma LowAndHigh(low: u8, high: nat)
    ensures (low + 0x100 * high) % 0x100 == low && (low + 0x100 * high) / 0x100 == high
  {
  }

  lemma {:induction false} FromBytesAppend(bytes: seq<u8>, last: u8)
    ensures FromBytes(bytes + [last]) == FromBytes(bytes) + last * Pow256(|bytes|)
  {
    if bytes == [] {
      assert [last][1..] == [];
    } else {
      assert (bytes + [last])[1..] == bytes[1..] + [last];
      FromBytesAppend(bytes[1..], last);
    }
  }
}
