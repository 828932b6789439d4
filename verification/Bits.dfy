/** Powers of two, division, and the bits of a number. */
module Bits {
  import opened LittleEndian
  import opened Objects

  function Pow2(n: nat): (p: nat)
    ensures p > 0
  {
    if n == 0 then 1 else 2 * Pow2(n - 1)
  }

  // -------------------------------------------------------------- arithmetic

  lemma MulAtLeast(a: int, d: int)
    requires a >= 1 && d > 0
    ensures a * d >= d
  {
  }

  lemma DivUnique(n: int, d: int, q: int, r: int)
    requires d > 0 && 0 <= r < d && n == q * d + r
    ensures n / d == q && n % d == r
  {
    var p, t := n / d, n % d;
    assert n == p * d + t;
    assert (q - p) * d == t - r;
    if q > p { MulAtLeast(q - p, d); }
    if p > q { MulAtLeast(p - q, d); }
  }

  lemma SubtractMultiple(a: int, b: int, d: int)
    ensures (a - b) * d == a * d - b * d
  {
  }

  lemma MulLess(a: nat, b: nat, d: nat)
    requires d > 0
    ensures a * d < b * d <==> a < b
  {
    assert (b - a) * d == b * d - a * d;
    if a < b { MulAtLeast(b - a, d); } else if a > b { MulAtLeast(a - b, d); assert (a - b) * d == a * d - b * d; }
  }

  lemma DivMonotone(a: int, b: int, d: int)
    requires d > 0 && a <= b
    ensures a / d <= b / d
  {
    if a / d > b / d {
      assert (a / d - b / d) * d == (a - a % d) - (b - b % d);
      MulAtLeast(a / d - b / d, d);
    }
  }

  lemma HalveThenDivide(n: nat, d: nat)
    requires d > 0
    ensures (n / 2) / d == n / (2 * d) && n % (2 * d) == n % 2 + 2 * ((n / 2) % d)
  {
    var q, r := (n / 2) / d, (n / 2) % d;
    assert n / 2 == q * d + r;
    assert n == q * (2 * d) + (2 * r + n % 2);
    DivUnique(n, 2 * d, q, 2 * r + n % 2);
  }

  lemma {:induction false} PowAdds(a: nat, b: nat)
    ensures Pow2(a + b) == Pow2(a) * Pow2(b)
  {
    if a > 0 {
      PowAdds(a - 1, b);
      assert Pow2(a + b) == 2 * (Pow2(a - 1) * Pow2(b));
    }
  }

  lemma {:induction false} PowGrows(a: nat, b: nat)
    requires a <= b
    ensures Pow2(a) <= Pow2(b)
  {
    if a < b { PowGrows(a, b - 1); }
  }

  const SPAN_32: nat := 0x1_0000_0000

  lemma Pow32()
    ensures Pow2(32) == SPAN_32 && Pow2(31) == 0x8000_0000
  {
    assert Pow2(8) == 0x100;
    PowAdds(8, 8);
    PowAdds(16, 16);
  }

  // -------------------------------------------------------------- extraction

  lemma QuotientIsNat(n: nat, d: nat)
    requires d > 0
    ensures n / d >= 0
  {
  }

  /** The number without its low `k` bits. */
  function Shifted(n: nat, k: nat): nat
  {
    QuotientIsNat(n, Pow2(k));
    n / Pow2(k)
  }

  /** `size` bits of a number from bit `offset` on. */
  function Extract(n: nat, offset: nat, size: nat): nat
  {
    Shifted(n, offset) % Pow2(size)
  }

  function Bit(n: nat, k: nat): (b: nat)
    ensures b < 2
    decreases k
  {
    if k == 0 then n % 2 else Bit(n / 2, k - 1)
  }

  /** One more bit on top of the low `s` bits. */
  lemma {:induction false} NextBit(n: nat, s: nat)
    ensures n % Pow2(s + 1) == n % Pow2(s) + Bit(n, s) * Pow2(s)
    decreases s
  {
    if s > 0 {
      NextBit(n / 2, s - 1);
      DoubleBack(n, Pow2(s - 1), Bit(n, s));
    }
  }

  lemma DoubleBack(n: nat, p: nat, b: nat)
    requires p > 0 && (n / 2) % (2 * p) == (n / 2) % p + b * p
    ensures n % (2 * (2 * p)) == n % (2 * p) + b * (2 * p)
  {
    HalveThenDivide(n, 2 * p);
    HalveThenDivide(n, p);
  }

  lemma {:induction false} BitShifts(n: nat, offset: nat, s: nat)
    ensures Bit(Shifted(n, offset), s) == Bit(n, offset + s)
    decreases offset
  {
    if offset > 0 {
      BitShifts(n / 2, offset - 1, s);
      HalveThenDivide(n, Pow2(offset - 1));
    }
  }

  lemma {:induction false} AddHighPart(low: nat, high: nat, n: nat, k: nat)
    requires k < n
    ensures Bit(low + Pow2(n) * high, k) == Bit(low, k)
    decreases n
  {
    var whole := low + Pow2(n) * high;
    assert whole == low + 2 * (Pow2(n - 1) * high);
    if k > 0 {
      assert whole / 2 == low / 2 + Pow2(n - 1) * high;
      AddHighPart(low / 2, high, n - 1, k - 1);
    }
  }

  /** Bit `k` of the number is bit `k % 8` of byte `k / 8`. */
  lemma {:induction false} BitOfByte(bytes: seq<u8>, k: nat)
    requires k < 8 * |bytes|
    ensures Bit(FromBytes(bytes), k) == Bit(bytes[k / 8], k % 8)
    decreases |bytes|
  {
    var rest := FromBytes(bytes[1..]);
    if k < 8 {
      LowByte(bytes[0], rest, k);
    } else {
      BitOfByte(bytes[1..], k - 8);
      SkipByte(bytes[0], rest, k);
    }
  }

  lemma LowByte(low: u8, rest: nat, k: nat)
    requires k < 8
    ensures Bit(low + 0x100 * rest, k) == Bit(low, k)
  {
    assert Pow2(8) == 0x100;
    AddHighPart(low, rest, 8, k);
  }

  lemma SkipByte(low: u8, rest: nat, k: nat)
    requires k >= 8
    ensures Bit(low + 0x100 * rest, k) == Bit(rest, k - 8)
  {
    BitShifts(low + 0x100 * rest, 8, k - 8);
    assert Pow2(8) == 0x100;
    DivUnique(low + 0x100 * rest, 0x100, rest, low);
  }

  lemma ExtractNext(bytes: seq<u8>, offset: nat, bit: nat)
    requires offset + bit < 8 * |bytes|
    ensures Extract(FromBytes(bytes), offset, bit + 1) ==
      Extract(FromBytes(bytes), offset, bit) + Bit(bytes[(offset + bit) / 8], (offset + bit) % 8) * Pow2(bit)
  {
    BitOfByte(bytes, offset + bit);
    BitShifts(FromBytes(bytes), offset, bit);
    NextBit(Shifted(FromBytes(bytes), offset), bit);
  }

  lemma {:induction false} BytesArePow2(n: nat)
    ensures Pow256(n) == Pow2(8 * n)
  {
    if n > 0 {
      BytesArePow2(n - 1);
      PowAdds(8, 8 * (n - 1));
      assert Pow2(8) == 0x100;
    }
  }
}
