/**
 * The 64-bit FNV-1a hash behind the cache keys (hash/fnv New64a, used at src/query_cache.go:130-194).
 * Every byte acts on the 64-bit state as a permutation, so chaining more input
 * after a digest can never merge two digests.
 */
module Fnv {
  import opened Common

  const OFFSET_BASIS: uint64 := 0xcbf29ce484222325

  /** The FNV prime 2^40 + 435. */
  const PRIME: nat := 0x100000001b3

  /** The inverse of the prime modulo 2^64. */
  const PRIME_INVERSE: nat := 0xCE965057AFF6957B

  /** Bitwise exclusive or on unbounded naturals. */
  function Xor(a: nat, b: nat): nat {
    if a == 0 && b == 0 then 0 else 2 * Xor(a / 2, b / 2) + (a % 2 + b % 2) % 2
  }

  ghost function Pow2(n: nat): nat {
    if n == 0 then 1 else 2 * Pow2(n - 1)
  }

  lemma {:induction false} XorBound(a: nat, b: nat, n: nat)
    requires a < Pow2(n) && b < Pow2(n)
    ensures Xor(a, b) < Pow2(n)
  {
    if n > 0 && !(a == 0 && b == 0) {
      XorBound(a / 2, b / 2, n - 1);
    }
  }

  lemma {:induction false} Pow2Sum(m: nat, n: nat)
    ensures Pow2(m + n) == Pow2(m) * Pow2(n)
  {
    if m > 0 {
      Pow2Sum(m - 1, n);
    }
  }

  lemma Pow2Of64()
    ensures Pow2(64) == TWO_64
  {
    assert Pow2(8) == 256;
    Pow2Sum(8, 8);
    Pow2Sum(16, 16);
    Pow2Sum(32, 32);
  }

  lemma XorUint64(a: uint64, b: uint64)
    ensures Xor(a, b) < TWO_64
  {
    Pow2Of64();
    XorBound(a, b, 64);
  }

  /** The last bit of an exclusive or, and the rest. */
  lemma XorHalves(a: nat, b: nat)
    ensures Xor(a, b) / 2 == Xor(a / 2, b / 2)
    ensures Xor(a, b) % 2 == (a % 2 + b % 2) % 2
  {
  }

  lemma SameHalves(y: nat, a: nat, d: nat, e: nat)
    requires d == a % 2 && e < 2 && y % 2 == ((d + e) % 2 + e) % 2 && y / 2 == a / 2
    ensures y == a
  {
  }

  /** Xor with a fixed word undoes itself. */
  lemma {:induction false} XorInvolutive(a: nat, b: nat)
    ensures Xor(Xor(a, b), b) == a
  {
    if !(a == 0 && b == 0) {
      var x := Xor(a, b);
      XorHalves(a, b);
      XorHalves(x, b);
      XorInvolutive(a / 2, b / 2);
      SameHalves(Xor(x, b), a, a % 2, b % 2);
    }
  }

  lemma {:induction false} XorCommutes(a: nat, b: nat)
    ensures Xor(a, b) == Xor(b, a)
  {
    if a == 0 && b == 0 {
    } else {
      XorCommutes(a / 2, b / 2);
    }
  }

  /** Multiplying by `p` and then by `i`, dropping multiples of `m` in between, adds a multiple of `m`. */
  lemma TimesInverse(x: int, p: int, i: int, m: int, k: int, q: int)
    requires p * i == k * m + 1
    ensures (x * p - q * m) * i == x + m * (k * x - q * i)
  {
    calc {
      (x * p - q * m) * i;
      x * p * i - q * m * i;
      { assert x * p * i == x * (p * i); }
      x * (k * m + 1) - q * m * i;
    }
  }

  lemma SameResidue(x: uint64, t: int)
    ensures (x + TWO_64 * t) % TWO_64 == x
  {
  }

  /** If p * i is 1 modulo 2^64, multiplying by i undoes multiplying by p. */
  lemma InverseUndoes(x: uint64, p: nat, i: nat)
    requires p * i % TWO_64 == 1
    ensures x * p % TWO_64 * i % TWO_64 == x
  {
    var k, q := p * i / TWO_64, x * p / TWO_64;
    TimesInverse(x, p, i, TWO_64, k, q);
    SameResidue(x, k * x - q * i);
  }

  /** Multiplication by the prime modulo 2^64, and by its inverse, undo each other. */
  lemma PrimeIsInvertible(x: uint64)
    ensures x * PRIME % TWO_64 * PRIME_INVERSE % TWO_64 == x
    ensures x * PRIME_INVERSE % TWO_64 * PRIME % TWO_64 == x
  {
    assert PRIME * PRIME_INVERSE % TWO_64 == 1;
    assert PRIME_INVERSE * PRIME % TWO_64 == 1;
    InverseUndoes(x, PRIME, PRIME_INVERSE);
    InverseUndoes(x, PRIME_INVERSE, PRIME);
  }

  /** One round: xor the byte in, multiply by the prime in wrapping arithmetic. */
  function Mix(h: uint64, b: byte): uint64 {
    Xor(h, b) * PRIME % TWO_64
  }

  /** The round run backwards. */
  function Unmix(h: uint64, b: byte): uint64 {
    XorUint64(h * PRIME_INVERSE % TWO_64, b);
    Xor(h * PRIME_INVERSE % TWO_64, b)
  }

  lemma MixIsAPermutation(h: uint64, b: byte)
    ensures Unmix(Mix(h, b), b) == h
    ensures Mix(Unmix(h, b), b) == h
  {
    XorUint64(h, b);
    PrimeIsInvertible(Xor(h, b));
    XorInvolutive(h, b);
    PrimeIsInvertible(h);
    XorInvolutive(h * PRIME_INVERSE % TWO_64, b);
  }

  /** From one state, different bytes lead to different states. */
  lemma MixSeparatesBytes(h: uint64, b: byte, c: byte)
    requires Mix(h, b) == Mix(h, c)
    ensures b == c
  {
    XorUint64(h, b);
    XorUint64(h, c);
    PrimeIsInvertible(Xor(h, b));
    PrimeIsInvertible(Xor(h, c));
    XorCommutes(h, b);
    XorCommutes(h, c);
    XorInvolutive(b, h);
    XorInvolutive(c, h);
  }

  /** Feeding a sequence to a state, one element at a time. */
  function Fold<S, T>(step: (S, T) -> S, s: S, data: seq<T>): S {
    if data == [] then s else Fold(step, step(s, data[0]), data[1..])
  }

  /** Undoing the steps of a sequence, last one first. */
  function Unfold<S, T>(back: (S, T) -> S, s: S, data: seq<T>): S {
    if data == [] then s else back(Unfold(back, s, data[1..]), data[0])
  }

  lemma {:induction false} FoldConcat<S, T>(step: (S, T) -> S, s: S, a: seq<T>, b: seq<T>)
    ensures Fold(step, s, a + b) == Fold(step, Fold(step, s, a), b)
  {
    if a == [] {
      assert a + b == b;
    } else {
      assert (a + b)[1..] == a[1..] + b;
      FoldConcat(step, step(s, a[0]), a[1..], b);
    }
  }

  lemma FoldSnoc<S, T>(step: (S, T) -> S, s: S, a: seq<T>, t: T)
    ensures Fold(step, s, a + [t]) == step(Fold(step, s, a), t)
  {
    FoldConcat(step, s, a, [t]);
    var m := Fold(step, s, a);
    assert Fold(step, m, [t]) == Fold(step, step(m, t), [t][1..]);
  }

  lemma {:induction false} FoldIsABijection<S(!new), T(!new)>(step: (S, T) -> S, back: (S, T) -> S, s: S, data: seq<T>)
    requires forall s, t :: back(step(s, t), t) == s
    requires forall s, t :: step(back(s, t), t) == s
    ensures Unfold(back, Fold(step, s, data), data) == s
    ensures Fold(step, Unfold(back, s, data), data) == s
  {
    if data != [] {
      FoldIsABijection(step, back, step(s, data[0]), data[1..]);
      FoldIsABijection(step, back, s, data[1..]);
    }
  }

  /** The state after writing `data` into state `h`. */
  function Absorb(h: uint64, data: seq<byte>): uint64 {
    Fold(Mix, h, data)
  }

  function Unabsorb(h: uint64, data: seq<byte>): uint64 {
    Unfold(Unmix, h, data)
  }

  /** Writing in two calls is writing the concatenation: the hash is streaming. */
  lemma AbsorbConcat(h: uint64, a: seq<byte>, b: seq<byte>)
    ensures Absorb(h, a + b) == Absorb(Absorb(h, a), b)
  {
    FoldConcat(Mix, h, a, b);
  }

  /** Absorbing any fixed input is a bijection of the 64-bit states. */
  lemma AbsorbIsABijection(h: uint64, data: seq<byte>)
    ensures Unabsorb(Absorb(h, data), data) == h
    ensures Absorb(Unabsorb(h, data), data) == h
  {
    forall s: uint64, t: byte
      ensures Unmix(Mix(s, t), t) == s && Mix(Unmix(s, t), t) == s
    {
      MixIsAPermutation(s, t);
    }
    FoldIsABijection(Mix, Unmix, h, data);
  }

  lemma AbsorbInjective(h1: uint64, h2: uint64, data: seq<byte>)
    requires Absorb(h1, data) == Absorb(h2, data)
    ensures h1 == h2
  {
    AbsorbIsABijection(h1, data);
    AbsorbIsABijection(h2, data);
  }

  /** Inputs of one length that differ in exactly one byte never share a digest. */
  lemma OneByteChangesDigest(h: uint64, a: seq<byte>, b: seq<byte>, i: nat)
    requires |a| == |b| && i < |a|
    requires a[i] != b[i]
    requires forall j :: 0 <= j < |a| && j != i ==> a[j] == b[j]
    ensures Absorb(h, a) != Absorb(h, b)
  {
    var pre, post := a[..i], a[i + 1..];
    assert a == pre + ([a[i]] + post);
    assert b == pre + ([b[i]] + post);
    AbsorbConcat(h, pre, [a[i]] + post);
    AbsorbConcat(h, pre, [b[i]] + post);
    var g := Absorb(h, pre);
    assert ([a[i]] + post)[1..] == post && ([b[i]] + post)[1..] == post;
    if Absorb(h, a) == Absorb(h, b) {
      AbsorbInjective(Mix(g, a[i]), Mix(g, b[i]), post);
      MixSeparatesBytes(g, a[i], b[i]);
    }
  }

  /** The hash object: `Write` feeds bytes one at a time, `Sum64` reads the state. */
  class Hash64a {
    var h: uint64

    constructor ()
      ensures h == OFFSET_BASIS
    {
      h := OFFSET_BASIS;
    }

    method Write(data: seq<byte>)
      modifies this
      ensures h == Absorb(old(h), data)
    {
      assert data[..|data|] == data;
      for i := 0 to |data|
        invariant h == Absorb(old(h), data[..i])
      {
        assert data[..i + 1] == data[..i] + [data[i]];
        FoldSnoc(Mix, old(h), data[..i], data[i]);
        h := Mix(h, data[i]);
      }
    }

    method Sum64() returns (digest: uint64)
      ensures digest == h
    {
      digest := h;
    }
  }

  lemma {:induction false} XorZero(a: nat)
    ensures Xor(a, 0) == a
  {
    if a > 0 {
      XorZero(a / 2);
    }
  }

  lemma SameNumber(x: nat, y: nat)
    requires x / 2 == y / 2 && x % 2 == y % 2
    ensures x == y
  {
  }

  /** Appending the bits d and e to two words. */
  lemma XorGrow(a: nat, b: nat, x: nat, a1: nat, b1: nat, x1: nat, d: nat, e: nat, f: nat)
    requires Xor(a, b) == x && d < 2 && e < 2 && f < 2 && f == if d == e then 0 else 1
    requires a1 == 2 * a + d && b1 == 2 * b + e && x1 == 2 * x + f
    ensures Xor(a1, b1) == x1
  {
    assert a1 / 2 == a && b1 / 2 == b && a1 % 2 == d && b1 % 2 == e;
    XorHalves(a1, b1);
    SameNumber(Xor(a1, b1), x1);
  }

  lemma XorHighBits(q: nat, a: nat, b: nat, x: nat)
    requires a == 16 * q + 2 && b == 6 && x == 16 * q + 4
    ensures Xor(a, b) == x
  {
    XorZero(2 * q);
    XorGrow(2 * q, 0, 2 * q, 4 * q, 1, 4 * q + 1, 0, 1, 1);
    XorGrow(4 * q, 1, 4 * q + 1, 8 * q + 1, 3, 8 * q + 2, 1, 1, 0);
    XorGrow(8 * q + 1, 3, 8 * q + 2, a, b, x, 0, 0, 0);
  }

  /** The letter a, 01100001, against a word that ends in 00100101 as the offset basis does. */
  lemma XorLetterA(q: nat, a: nat, b: nat, x: nat)
    requires a == 256 * q + 0x25 && b == 97 && x == 256 * q + 0x44
    ensures Xor(a, b) == x
  {
    XorHighBits(q, 16 * q + 2, 6, 16 * q + 4);
    XorGrow(16 * q + 2, 6, 16 * q + 4, 32 * q + 4, 12, 32 * q + 8, 0, 0, 0);
    XorGrow(32 * q + 4, 12, 32 * q + 8, 64 * q + 9, 24, 64 * q + 17, 1, 0, 1);
    XorGrow(64 * q + 9, 24, 64 * q + 17, 128 * q + 18, 48, 128 * q + 34, 0, 0, 0);
    XorGrow(128 * q + 18, 48, 128 * q + 34, a, b, x, 1, 1, 0);
  }

  lemma AbsorbOne(h: uint64, b: byte)
    ensures Absorb(h, []) == h
    ensures Absorb(h, [b]) == Xor(h, b) * PRIME % TWO_64
  {
    assert [b][1..] == [];
    assert Fold(Mix, Mix(h, b), []) == Mix(h, b);
  }

  lemma KnownProduct(x: nat)
    requires x == 0xcbf29ce484222344
    ensures x * PRIME % TWO_64 == 0xaf63dc4c8601ec8c
  {
  }

  /** The published digests of the empty input and of the letter a. */
  lemma KnownDigests(h: uint64, q: nat, a: byte)
    requires h == OFFSET_BASIS && h == 256 * q + 0x25 && a == 97
    ensures Absorb(h, []) == 0xcbf29ce484222325
    ensures Absorb(h, [a]) == 0xaf63dc4c8601ec8c
  {
    AbsorbOne(h, a);
    XorLetterA(q, h, a, 0xcbf29ce484222344);
    KnownProduct(Xor(h, a));
  }
}
