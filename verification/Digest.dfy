/**
 The seal's arithmetic (src/checkpoint.rs): FNV-1a over 128 bits, and the
 thirty-two hex digits a document carries it as.

 A digest is a natural below `MODULUS`: the source's `u128`, its
 `wrapping_mul` written out as the remainder.
 */
module Digest {
  import opened Wrappers

  const MODULUS: nat := 0x1_0000_0000_0000_0000_0000_0000_0000_0000
  const NOTHING_DIGESTED: nat := 0x6c62_272e_07bb_0142_62b8_2175_6295_c58d
  const FNV_PRIME: nat := 0x0100_0000_0000_0000_0000_013b  // 2^88 + 0x13b

  /** The prime's inverse: it is odd, so multiplying by it loses nothing. */
  const FNV_INVERSE: nat := 0xb104_1ad2_562f_f2ff_2ff2_ff2f_f2ff_2ff3

  /** Exclusive or, of the last `bits` bits. */
  function Xor(a: nat, b: nat, bits: nat): nat {
    if bits == 0 then 0 else Xor(a / 2, b / 2, bits - 1) * 2 + (a % 2 + b % 2) % 2
  }

  /** One byte taken: mixed in, then multiplied, as the source wraps it. */
  function Stepped(digest: nat, byte: Byte): nat {
    Xor(digest, byte, 128) * FNV_PRIME % MODULUS
  }

  function Digested(from: nat, bytes: seq<Byte>): nat
    decreases |bytes|
  {
    if bytes == [] then from else Digested(Stepped(from, bytes[0]), bytes[1..])
  }

  // ---- the digest streams, and loses nothing -----------------------------

  /** The digest of a longer prefix is reached from the one already taken and the bytes that arrived. */
  lemma {:induction false} DigestStreams(from: nat, a: seq<Byte>, b: seq<Byte>)
    ensures Digested(from, a + b) == Digested(Digested(from, a), b)
    decreases |a|
  {
    if a == [] {
      assert a + b == b;
    } else {
      assert (a + b)[1..] == a[1..] + b;
      DigestStreams(Stepped(from, a[0]), a[1..], b);
    }
  }

  function Power2(bits: nat): (p: nat)
    ensures p > 0
  {
    if bits == 0 then 1 else 2 * Power2(bits - 1)
  }

  /** The xor's last bit, and the rest of it. */
  lemma XorSplits(a: nat, b: nat, bits: nat)
    requires bits > 0
    ensures Xor(a, b, bits) / 2 == Xor(a / 2, b / 2, bits - 1)
    ensures Xor(a, b, bits) % 2 == (a % 2 + b % 2) % 2
  {
    var high, low := Xor(a / 2, b / 2, bits - 1), (a % 2 + b % 2) % 2;
    assert Xor(a, b, bits) == high * 2 + low;
  }

  lemma BitTwice(p: nat, q: nat, r: nat)
    requires p < 2 && q < 2 && r < 2
    ensures ((p + q) % 2 + q) % 2 == p
    ensures (p + q) % 2 == (p + r) % 2 ==> q == r
  {
  }

  lemma {:induction false} XorTwice(a: nat, b: nat, bits: nat)
    requires a < Power2(bits)
    ensures Xor(a, b, bits) < Power2(bits)
    ensures Xor(Xor(a, b, bits), b, bits) == a
  {
    if bits > 0 {
      XorTwice(a / 2, b / 2, bits - 1);
      XorSplits(a, b, bits);
      XorSplits(Xor(a, b, bits), b, bits);
      BitTwice(a % 2, b % 2, 0);
    }
  }

  lemma {:induction false} XorApart(a: nat, x: nat, y: nat, bits: nat)
    requires x < Power2(bits) && y < Power2(bits)
    requires Xor(a, x, bits) == Xor(a, y, bits)
    ensures x == y
  {
    if bits > 0 {
      XorSplits(a, x, bits);
      XorSplits(a, y, bits);
      XorApart(a / 2, x / 2, y / 2, bits - 1);
      BitTwice(a % 2, x % 2, y % 2);
    }
  }

  lemma WholeWord()
    ensures Power2(128) == MODULUS && Power2(8) == 256
  {
    HalfWord();
    DoubledOver(64, 64);
    DoubledOver(4, 4);
    assert Power2(4) == 16;
  }

  lemma HalfWord()
    ensures Power2(64) == 0x1_0000_0000_0000_0000
  {
    assert Power2(4) == 16;
    DoubledOver(4, 4);
    DoubledOver(8, 8);
    assert Power2(16) == 0x1_0000;
    DoubledOver(16, 16);
    assert Power2(32) == 0x1_0000_0000;
    DoubledOver(32, 32);
  }

  lemma {:induction false} DoubledOver(a: nat, b: nat)
    ensures Power2(a + b) == Power2(a) * Power2(b)
  {
    if b > 0 {
      DoubledOver(a, b - 1);
      assert Power2(a + b) == 2 * (Power2(a) * Power2(b - 1));
    }
  }

  lemma InverseIsInverse()
    ensures FNV_PRIME * FNV_INVERSE == MODULUS * TURNS + 1
  {
  }

  /** Multiplying by one of the pair and then the other is no change, below the modulus. */
  lemma MultipliedBack(h: nat, p: nat, q: nat, turns: nat)
    requires h < MODULUS && p * q == MODULUS * turns + 1
    ensures (h * p % MODULUS) * q % MODULUS == h
  {
    var k, r := h * p / MODULUS, h * p % MODULUS;
    assert h * p == MODULUS * k + r;
    assert r * q == (h * p - MODULUS * k) * q;
    assert (h * p) * q == h * (p * q);
    assert h * (p * q) == MODULUS * (h * turns) + h;
    assert (MODULUS * k) * q == MODULUS * (k * q);
    assert r * q == MODULUS * (h * turns - k * q) + h;
    Remainder(r * q, h * turns - k * q, h);
  }

  lemma Remainder(x: int, quotient: int, rest: nat)
    requires x == MODULUS * quotient + rest && rest < MODULUS
    ensures x % MODULUS == rest
  {
    assert MODULUS * (x / MODULUS - quotient) == rest - x % MODULUS;
  }

  const TURNS: nat := 213999254309421075624096729

  function Unstepped(digest: nat, byte: Byte): nat {
    Xor(digest * FNV_INVERSE % MODULUS, byte, 128)
  }

  lemma StepUndone(digest: nat, byte: Byte)
    requires digest < MODULUS
    ensures Stepped(digest, byte) < MODULUS && Unstepped(Stepped(digest, byte), byte) == digest
    ensures Unstepped(digest, byte) < MODULUS && Stepped(Unstepped(digest, byte), byte) == digest
  {
    WholeWord();
    InverseIsInverse();
    XorTwice(digest, byte, 128);
    MultipliedBack(Xor(digest, byte, 128), FNV_PRIME, FNV_INVERSE, TURNS);
    XorTwice(digest * FNV_INVERSE % MODULUS, byte, 128);
    MultipliedBack(digest, FNV_INVERSE, FNV_PRIME, TURNS);
  }

  lemma StepsApart(digest: nat, x: Byte, y: Byte)
    requires digest < MODULUS && Stepped(digest, x) == Stepped(digest, y)
    ensures x == y
  {
    WholeWord();
    InverseIsInverse();
    XorTwice(digest, x, 128);
    XorTwice(digest, y, 128);
    MultipliedBack(Xor(digest, x, 128), FNV_PRIME, FNV_INVERSE, TURNS);
    MultipliedBack(Xor(digest, y, 128), FNV_PRIME, FNV_INVERSE, TURNS);
    XorApart(digest, x, y, 128);
  }

  /** One bit of a number, from the lowest. */
  ghost function Bit(n: nat, k: nat): nat {
    n / Power2(k) % 2
  }

  lemma BitAbove(n: nat, k: nat)
    requires k > 0
    ensures Bit(n, k) == Bit(n / 2, k - 1)
  {
    DividedTwice(n, Power2(k - 1));
  }

  lemma DividedTwice(n: nat, p: nat)
    requires p > 0
    ensures n / (2 * p) == n / 2 / p
  {
    var q, r := n / 2 / p, n / 2 % p;
    assert n / 2 == p * q + r;
    var low := 2 * r + n % 2;
    assert n == 2 * p * q + low && low < 2 * p;
    Quotient(n, 2 * p, q, low);
  }

  lemma Scaled(d: nat, x: int, y: int)
    requires x <= y
    ensures d * x <= d * y
  {
  }

  lemma Quotient(n: nat, d: nat, q: nat, rest: nat)
    requires d > 0 && rest < d && n == d * q + rest
    ensures n / d == q
  {
    var e := n / d;
    assert d * e <= n < d * e + d;
    Apart(n, d, q, e);
  }

  lemma Apart(n: nat, d: nat, q: int, e: int)
    requires d * q <= n < d * q + d && d * e <= n < d * e + d
    ensures q == e
  {
    if e > q {
      Scaled(d, q + 1, e);
    } else if q > e {
      Scaled(d, e + 1, q);
    }
  }

  lemma {:induction false} XorBit(a: nat, b: nat, bits: nat, k: nat)
    requires k < bits
    ensures Bit(Xor(a, b, bits), k) == if Bit(a, k) == Bit(b, k) then 0 else 1
    decreases k
  {
    XorSplits(a, b, bits);
    if k > 0 {
      BitAbove(a, k);
      BitAbove(b, k);
      BitAbove(Xor(a, b, bits), k);
      XorBit(a / 2, b / 2, bits - 1, k - 1);
    } else {
      LowestBit(a);
      LowestBit(b);
      LowestBit(Xor(a, b, bits));
    }
  }

  lemma LowestBit(n: nat)
    ensures Bit(n, 0) == n % 2
  {
  }

  /** A byte is mixed into the digest bit by bit, and the whole then multiplied: FNV-1a, in that order. */
  lemma MixesThenMultiplies(digest: nat, byte: Byte) returns (mixed: nat)
    requires digest < MODULUS
    ensures mixed < MODULUS && Stepped(digest, byte) == mixed * FNV_PRIME % MODULUS
    ensures forall k: nat :: k < 128 ==> Bit(mixed, k) == if Bit(digest, k) == Bit(byte, k) then 0 else 1
  {
    mixed := Xor(digest, byte, 128);
    WholeWord();
    XorTwice(digest, byte, 128);
    forall k: nat | k < 128 ensures Bit(mixed, k) == if Bit(digest, k) == Bit(byte, k) then 0 else 1 {
      XorBit(digest, byte, 128, k);
    }
  }

  /** The digest a byte string was digested from, off where it ended. */
  function Undigested(to: nat, bytes: seq<Byte>): nat
    decreases |bytes|
  {
    if bytes == [] then to
    else
      var last := |bytes| - 1;
      Undigested(Unstepped(to, bytes[last]), bytes[..last])
  }

  lemma DigestsOneMore(from: nat, bytes: seq<Byte>)
    requires bytes != []
    ensures Digested(from, bytes) == Stepped(Digested(from, bytes[..|bytes| - 1]), bytes[|bytes| - 1])
  {
    var last := |bytes| - 1;
    assert bytes == bytes[..last] + [bytes[last]];
    DigestStreams(from, bytes[..last], [bytes[last]]);
    assert [bytes[last]][1..] == [];
  }

  lemma {:induction false} DigestUndone(from: nat, bytes: seq<Byte>)
    requires from < MODULUS
    ensures Digested(from, bytes) < MODULUS && Undigested(Digested(from, bytes), bytes) == from
    decreases |bytes|
  {
    if bytes != [] {
      var last := |bytes| - 1;
      DigestUndone(from, bytes[..last]);
      DigestsOneMore(from, bytes);
      StepUndone(Digested(from, bytes[..last]), bytes[last]);
    }
  }

  lemma {:induction false} UndigestRedone(to: nat, bytes: seq<Byte>)
    requires to < MODULUS
    ensures Undigested(to, bytes) < MODULUS && Digested(Undigested(to, bytes), bytes) == to
    decreases |bytes|
  {
    if bytes != [] {
      var last := |bytes| - 1;
      StepUndone(to, bytes[last]);
      UndigestRedone(Unstepped(to, bytes[last]), bytes[..last]);
      DigestsOneMore(Undigested(to, bytes), bytes);
    }
  }

  /** Every byte string permutes the digests: two that start apart end apart, and every digest is reached. */
  lemma DigestIsPermutation(a: nat, b: nat, bytes: seq<Byte>)
    requires a < MODULUS && b < MODULUS
    ensures Digested(a, bytes) == Digested(b, bytes) <==> a == b
    ensures exists from: nat :: from < MODULUS && Digested(from, bytes) == a
  {
    DigestUndone(a, bytes);
    DigestUndone(b, bytes);
    UndigestRedone(a, bytes);
    assert Digested(Undigested(a, bytes), bytes) == a;
  }

  /** Inputs that differ in one byte, at one place, never share a digest. */
  lemma OneByteApart(from: nat, before: seq<Byte>, x: Byte, y: Byte, after: seq<Byte>)
    requires from < MODULUS
    ensures Digested(from, before + [x] + after) == Digested(from, before + [y] + after) <==> x == y
  {
    var at := Digested(from, before);
    DigestUndone(from, before);
    JoinedAt(from, before, x, after);
    JoinedAt(from, before, y, after);
    StepUndone(at, x);
    StepUndone(at, y);
    DigestIsPermutation(Stepped(at, x), Stepped(at, y), after);
    if Stepped(at, x) == Stepped(at, y) {
      StepsApart(at, x, y);
    }
  }

  lemma JoinedAt(from: nat, before: seq<Byte>, byte: Byte, after: seq<Byte>)
    ensures Digested(from, before + [byte] + after) == Digested(Stepped(Digested(from, before), byte), after)
  {
    assert before + [byte] + after == before + ([byte] + after);
    DigestStreams(from, before, [byte] + after);
    assert ([byte] + after)[1..] == after;
  }

  // ---- thirty-two lower-case hex digits ----------------------------------

  function DigitChar(d: nat): char
    requires d < 16
  {
    if d < 10 then '0' + d as char else 'a' + (d - 10) as char
  }

  /** `n` as its last `width` hex digits. */
  function Hex(n: nat, width: nat): (written: string)
    ensures |written| == width
  {
    if width == 0 then "" else Hex(n / 16, width - 1) + [DigitChar(n % 16)]
  }

  function AsHex(digest: nat): (written: string)
    requires digest < MODULUS
  {
    Hex(digest, 32)
  }

  function DigitOf(c: char): Option<nat> {
    if '0' <= c <= '9' then Some(c as nat - '0' as nat)
    else if 'a' <= c <= 'f' then Some(c as nat - 'a' as nat + 10)
    else None
  }

  function Radix16(written: string): nat
    requires forall i :: 0 <= i < |written| ==> DigitOf(written[i]).Some?
  {
    if written == "" then 0
    else Radix16(written[..|written| - 1]) * 16 + DigitOf(written[|written| - 1]).value
  }

  predicate IsHex(written: string) {
    |written| == 32 && forall i :: 0 <= i < |written| ==> DigitOf(written[i]).Some?
  }

  /** `of_hex`: a digest, or a refusal of anything `AsHex` would not have written. */
  function OfHex(written: string): Result<nat, string> {
    if IsHex(written) then Ok(Radix16(written)) else Err("not 32 lower-case hex digits")
  }

  lemma DigitReads(d: nat)
    requires d < 16
    ensures DigitOf(DigitChar(d)) == Some(d)
  {
  }

  lemma DigitWrites(c: char)
    requires DigitOf(c).Some?
    ensures DigitOf(c).value < 16 && DigitChar(DigitOf(c).value) == c
  {
  }

  function Power16(width: nat): (p: nat)
    ensures p > 0
  {
    if width == 0 then 1 else 16 * Power16(width - 1)
  }

  lemma {:induction false} HexReads(n: nat, width: nat)
    requires n < Power16(width)
    ensures forall i :: 0 <= i < width ==> DigitOf(Hex(n, width)[i]).Some?
    ensures Radix16(Hex(n, width)) == n
  {
    if width > 0 {
      HexReads(n / 16, width - 1);
      DigitReads(n % 16);
      assert Hex(n, width)[..width - 1] == Hex(n / 16, width - 1);
    }
  }

  lemma {:induction false} ReadHexes(written: string)
    requires forall i :: 0 <= i < |written| ==> DigitOf(written[i]).Some?
    ensures Radix16(written) < Power16(|written|)
    ensures Hex(Radix16(written), |written|) == written
  {
    if written != "" {
      var last := |written| - 1;
      DigitWrites(written[last]);
      ReadHexes(written[..last]);
      var high, low := Radix16(written[..last]), DigitOf(written[last]).value;
      assert (high * 16 + low) / 16 == high && (high * 16 + low) % 16 == low;
      assert written == written[..last] + [written[last]];
    }
  }

  lemma WholeWidth()
    ensures Power16(32) == MODULUS
  {
    assert Power16(4) == 0x1_0000;
    assert Power16(8) == 0x1_0000_0000;
    assert Power16(12) == 0x1_0000_0000_0000;
    assert Power16(16) == 0x1_0000_0000_0000_0000;
    assert Power16(20) == 0x1_0000_0000_0000_0000_0000;
    assert Power16(24) == 0x1_0000_0000_0000_0000_0000_0000;
    assert Power16(28) == 0x1_0000_0000_0000_0000_0000_0000_0000;
  }

  /** `of_hex` undoes `as_hex`, and accepts exactly what `as_hex` writes. */
  lemma HexRoundTrips(digest: nat, written: string)
    requires digest < MODULUS
    ensures OfHex(AsHex(digest)) == Ok(digest)
    ensures OfHex(written).Ok? <==> exists d: nat :: d < MODULUS && AsHex(d) == written
    ensures OfHex(written).Ok? ==> OfHex(written).value < MODULUS && AsHex(OfHex(written).value) == written
  {
    WholeWidth();
    HexReads(digest, 32);
    if IsHex(written) {
      ReadHexes(written);
      assert AsHex(Radix16(written)) == written;
    }
    forall d: nat | d < MODULUS && AsHex(d) == written ensures IsHex(written) {
      HexReads(d, 32);
    }
  }
}
