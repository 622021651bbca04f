/** The FNV-1a digest of accepted replay facts, on 64-bit words as bounded naturals. */
module Digest {

  const MODULUS: nat := 0x1_0000_0000_0000_0000
  const OFFSET_BASIS: Word := 0xcbf29ce484222325
  const PRIME: nat := 0x100000001b3
  /** The multiplicative inverse of the prime modulo 2^64. */
  const PRIME_INVERSE: nat := 0xce965057aff6957b

  type Word = n: nat | n < 0x1_0000_0000_0000_0000

  type Byte = n: nat | n < 256

  function Pow2(n: nat): (p: nat)
    ensures p > 0
  {
    if n == 0 then 1 else 2 * Pow2(n - 1)
  }

  /** Bitwise exclusive or of the low `n` bits. */
  function Xor(a: nat, b: nat, n: nat): (r: nat)
    ensures r < Pow2(n)
  {
    if n == 0 then 0 else 2 * Xor(a / 2, b / 2, n - 1) + (a % 2 + b % 2) % 2
  }

  lemma XorParts(a: nat, b: nat, n: nat)
    requires n > 0
    ensures Xor(a, b, n) / 2 == Xor(a / 2, b / 2, n - 1) && Xor(a, b, n) % 2 == (a % 2 + b % 2) % 2
  {}

  /** Bit `k` of a number. */
  function Bit(x: nat, k: nat): nat {
    if k == 0 then x % 2 else Bit(x / 2, k - 1)
  }

  /** Each bit of the result is set exactly when the two bits differ. */
  lemma {:induction false} XorBits(a: nat, b: nat, n: nat, k: nat)
    requires k < n
    ensures Bit(Xor(a, b, n), k) == if Bit(a, k) != Bit(b, k) then 1 else 0
  {
    XorParts(a, b, n);
    if k == 0 {
    } else {
      XorBits(a / 2, b / 2, n - 1, k - 1);
    }
  }

  lemma BitBack(p: nat, q: nat)
    requires p < 2 && q < 2
    ensures ((p + q) % 2 + q) % 2 == p
  {}

  lemma {:induction false} XorBack(a: nat, b: nat, n: nat)
    requires a < Pow2(n)
    ensures Xor(Xor(a, b, n), b, n) == a
  {
    if n == 0 {
    } else {
      var x := Xor(a, b, n);
      XorBack(a / 2, b / 2, n - 1);
      XorParts(a, b, n);
      XorParts(x, b, n);
      BitBack(a % 2, b % 2);
      assert Xor(x, b, n) == 2 * (Xor(x, b, n) / 2) + Xor(x, b, n) % 2;
    }
  }

  lemma BitDiffers(p: nat, q: nat, r: nat)
    requires p < 2 && q < 2 && r < 2 && (p + q) % 2 == (p + r) % 2
    ensures q == r
  {}

  /** Exclusive or separates its second argument. */
  lemma {:induction false} XorDiffers(a: nat, b: nat, c: nat, n: nat)
    requires b < Pow2(n) && c < Pow2(n) && Xor(a, b, n) == Xor(a, c, n)
    ensures b == c
  {
    if n == 0 {
    } else {
      XorParts(a, b, n);
      XorParts(a, c, n);
      BitDiffers(a % 2, b % 2, c % 2);
      XorDiffers(a / 2, b / 2, c / 2, n - 1);
    }
  }

  lemma {:induction false} Pow2Add(m: nat, n: nat)
    ensures Pow2(m + n) == Pow2(m) * Pow2(n)
  {
    if m == 0 {
    } else {
      Pow2Add(m - 1, n);
      assert 2 * (Pow2(m - 1) * Pow2(n)) == (2 * Pow2(m - 1)) * Pow2(n);
    }
  }

  lemma Pow2Of64()
    ensures Pow2(64) == MODULUS
  {
    assert Pow2(8) == 256;
    Pow2Add(8, 8);
    Pow2Add(16, 16);
    Pow2Add(32, 32);
  }

  /** `digest ^ u64::from(byte)`. */
  function XorByte(digest: Word, byte: Byte): Word {
    Pow2Of64();
    Xor(digest, byte, 64)
  }

  /** `wrapping_mul`. */
  function WrappingMul(x: Word, factor: nat): Word {
    x * factor % MODULUS
  }

  function Step(digest: Word, byte: Byte): Word {
    WrappingMul(XorByte(digest, byte), PRIME)
  }

  function Unstep(digest: Word, byte: Byte): Word {
    XorByte(WrappingMul(digest, PRIME_INVERSE), byte)
  }

  /** `mix`, as a fold over the bytes. */
  function Mix(digest: Word, bytes: seq<Byte>): Word {
    if bytes == [] then digest else Step(Mix(digest, bytes[..|bytes| - 1]), bytes[|bytes| - 1])
  }

  lemma XorByteBack(digest: Word, byte: Byte)
    ensures XorByte(XorByte(digest, byte), byte) == digest
  {
    Pow2Of64();
    XorBack(digest, byte, 64);
  }

  lemma MultiplyBack(x: Word)
    ensures WrappingMul(WrappingMul(x, PRIME), PRIME_INVERSE) == x
    ensures WrappingMul(WrappingMul(x, PRIME_INVERSE), PRIME) == x
  {
    Cancel(x, PRIME, PRIME_INVERSE);
    Cancel(x, PRIME_INVERSE, PRIME);
  }

  lemma Cancel(x: Word, p: nat, q: nat)
    requires p * q % MODULUS == 1
    ensures WrappingMul(WrappingMul(x, p), q) == x
  {
    var k, c := p * q / MODULUS, x * p / MODULUS;
    calc {
      WrappingMul(x, p) * q;
      (x * p - c * MODULUS) * q;
      x * (p * q) - c * MODULUS * q;
      x * (k * MODULUS + 1) - c * MODULUS * q;
      (x * k - c * q) * MODULUS + x;
    }
    Remainder(x * k - c * q, x);
  }

  lemma Remainder(m: int, x: Word)
    ensures (m * MODULUS + x) % MODULUS == x
  {}

  /** One digest step is a bijection on the 64-bit state, for each byte. */
  lemma StepBijective(digest: Word, byte: Byte)
    ensures Unstep(Step(digest, byte), byte) == digest
    ensures Step(Unstep(digest, byte), byte) == digest
  {
    MultiplyBack(XorByte(digest, byte));
    XorByteBack(digest, byte);
    MultiplyBack(digest);
    XorByteBack(WrappingMul(digest, PRIME_INVERSE), byte);
  }

  lemma StepInjective(left: Word, right: Word, byte: Byte)
    requires Step(left, byte) == Step(right, byte)
    ensures left == right
  {
    StepBijective(left, byte);
    StepBijective(right, byte);
  }

  /** From one state, different bytes lead to different states. */
  lemma StepSeparates(digest: Word, left: Byte, right: Byte)
    requires Step(digest, left) == Step(digest, right)
    ensures left == right
  {
    MultiplyBack(XorByte(digest, left));
    MultiplyBack(XorByte(digest, right));
    Pow2Of64();
    XorDiffers(digest, left, right, 64);
  }

  /** Different starting digests never merge under the same facts. */
  lemma {:induction false} MixInjective(left: Word, right: Word, bytes: seq<Byte>)
    requires Mix(left, bytes) == Mix(right, bytes)
    ensures left == right
  {
    if bytes == [] {
    } else {
      var n := |bytes| - 1;
      StepInjective(Mix(left, bytes[..n]), Mix(right, bytes[..n]), bytes[n]);
      MixInjective(left, right, bytes[..n]);
    }
  }

  /** Facts that differ in exactly one byte always give different digests. */
  lemma {:induction false} OneByteChangesDigest(digest: Word, left: seq<Byte>, right: seq<Byte>, i: nat)
    requires |left| == |right| && i < |left| && left[i] != right[i]
    requires forall k :: 0 <= k < |left| && k != i ==> left[k] == right[k]
    ensures Mix(digest, left) != Mix(digest, right)
  {
    var n := |left| - 1;
    if Mix(digest, left) == Mix(digest, right) {
      if i == n {
        assert left[..n] == right[..n];
        StepSeparates(Mix(digest, left[..n]), left[n], right[n]);
      } else {
        StepInjective(Mix(digest, left[..n]), Mix(digest, right[..n]), left[n]);
        OneByteChangesDigest(digest, left[..n], right[..n], i);
      }
    }
  }

  lemma {:induction false} MixAppend(digest: Word, first: seq<Byte>, second: seq<Byte>)
    ensures Mix(digest, first + second) == Mix(Mix(digest, first), second)
  {
    if second == [] {
      assert first + second == first;
    } else {
      var n := |second| - 1;
      MixAppend(digest, first, second[..n]);
      assert (first + second)[..|first| + n] == first + second[..n];
    }
  }

  lemma {:induction false} BitsDetermine(x: nat, y: nat, n: nat)
    requires x < Pow2(n) && y < Pow2(n) && forall k: nat :: k < n ==> Bit(x, k) == Bit(y, k)
    ensures x == y
  {
    if n == 0 {
    } else {
      assert Bit(x, 0) == Bit(y, 0);
      forall k: nat | k < n - 1 ensures Bit(x / 2, k) == Bit(y / 2, k) {
        assert Bit(x, k + 1) == Bit(y, k + 1);
      }
      BitsDetermine(x / 2, y / 2, n - 1);
    }
  }

  /** One step in arithmetic: the word whose bits are the differing ones, times the FNV prime, modulo 2^64. */
  lemma StepMeaning(digest: Word, byte: Byte, y: Word)
    requires forall k: nat :: k < 64 ==> Bit(y, k) == if Bit(digest, k) != Bit(byte, k) then 1 else 0
    ensures Step(digest, byte) == y * 0x100000001b3 % 0x1_0000_0000_0000_0000
  {
    Pow2Of64();
    forall k: nat | k < 64 ensures Bit(XorByte(digest, byte), k) == Bit(y, k) {
      XorBits(digest, byte, 64, k);
    }
    BitsDetermine(XorByte(digest, byte), y, 64);
  }

  // ---- the byte stream of one record ----

  /** The `n` low bytes of a number, least significant first (`to_le_bytes`). */
  function LittleEndian(value: nat, n: nat): (bytes: seq<Byte>)
    ensures |bytes| == n
  {
    if n == 0 then [] else [value % 256] + LittleEndian(value / 256, n - 1)
  }

  /** Little-endian bytes determine the number they spell. */
  lemma {:induction false} LittleEndianInjective(a: nat, b: nat, n: nat)
    requires a < Pow2(8 * n) && b < Pow2(8 * n) && LittleEndian(a, n) == LittleEndian(b, n)
    ensures a == b
  {
    if n == 0 {
    } else {
      Pow2Add(8, 8 * (n - 1));
      assert Pow2(8) == 256;
      assert a % 256 == LittleEndian(a, n)[0] == LittleEndian(b, n)[0] == b % 256;
      assert LittleEndian(a / 256, n - 1) == LittleEndian(a, n)[1..] == LittleEndian(b / 256, n - 1);
      LittleEndianInjective(a / 256, b / 256, n - 1);
    }
  }

  /** `mix` as the source runs it, byte by byte over the accumulator. */
  method MixLoop(digest: Word, bytes: seq<Byte>) returns (r: Word)
    ensures r == Mix(digest, bytes)
  {
    r := digest;
    for i := 0 to |bytes|
      invariant r == Mix(digest, bytes[..i])
    {
      assert bytes[..i + 1][..i] == bytes[..i];
      r := XorByte(r, bytes[i]);
      r := WrappingMul(r, PRIME);
    }
    assert bytes[..|bytes|] == bytes;
  }
}
