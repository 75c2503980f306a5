/** Unsigned integers as little-endian bytes, and the library's way of reading them back. */
module Integers {
  import opened Basics

  function Pow256(w: nat): nat {
    if w == 0 then 1 else 256 * Pow256(w - 1)
  }

  /** The low w bytes of a number, least significant first. */
  function Encode(n: nat, w: nat): (b: Bytes)
    ensures |b| == w
  {
    if w == 0 then [] else [n % 256] + Encode(n / 256, w - 1)
  }

  function Value(b: Bytes): nat {
    if b == [] then 0 else b[0] + 256 * Value(b[1..])
  }

  lemma {:induction false} ValueOfEncode(n: nat, w: nat)
    requires n < Pow256(w)
    ensures Value(Encode(n, w)) == n
  {
    if w > 0 { ValueOfEncode(n / 256, w - 1); }
  }

  lemma {:induction false} EncodeOfValue(b: Bytes)
    ensures Encode(Value(b), |b|) == b && Value(b) < Pow256(|b|)
  {
    if b != [] {
      EncodeOfValue(b[1..]);
      assert Value(b) % 256 == b[0] && Value(b) / 256 == Value(b[1..]);
    }
  }

  lemma Widths()
    ensures Pow256(1) == 0x100 && Pow256(2) == 0x1_0000 && Pow256(4) == 0x1_0000_0000 && Pow256(8) == SEQ_LIMIT
  {
    assert Pow256(3) == 0x100_0000;
    assert Pow256(4) == 0x1_0000_0000;
    assert Pow256(6) == 0x1_0000_0000_0000;
  }

  // ---------------------------------------------------------------- reading back through signed chars

  /** OR-ing bytes widened from a signed char: a byte of 128 or more sets every bit above it. */
  function Smear(b: Bytes, ones: bool): (r: Bytes)
    ensures |r| == |b|
  {
    if b == [] then [] else [if ones then 255 else b[0]] + Smear(b[1..], ones || b[0] >= 128)
  }

  /** `toUint64`: 0 unless the part has eight bytes. */
  function ToUint64(b: Bytes): nat {
    if |b| != 8 then 0 else Value(Smear(b, false))
  }

  /** Every byte above one of 128 or more is 255. */
  predicate SignExtended(b: Bytes) {
    b == [] || (SignExtended(b[1..]) && (b[0] >= 128 ==> forall i :: 1 <= i < |b| ==> b[i] == 255))
  }

  lemma {:induction false} SmearRaises(b: Bytes, ones: bool)
    ensures Value(Smear(b, ones)) >= Value(b)
    ensures Value(Smear(b, ones)) == Value(b) <==> Smear(b, ones) == b
  {
    if b != [] {
      SmearRaises(b[1..], ones || b[0] >= 128);
    }
  }

  lemma {:induction false} SmearOnes(b: Bytes)
    ensures Smear(b, true) == b <==> forall i :: 0 <= i < |b| ==> b[i] == 255
  {
    if b != [] {
      SmearOnes(b[1..]);
      assert Smear(b, true) == [255] + Smear(b[1..], true);
      assert b == [b[0]] + b[1..];
      assert (forall i :: 0 <= i < |b| ==> b[i] == 255) <==>
             b[0] == 255 && forall i :: 0 <= i < |b[1..]| ==> b[1..][i] == 255 by {
        assert forall i :: 1 <= i < |b| ==> b[i] == b[1..][i - 1];
      }
    }
  }

  lemma {:induction false} SmearIsIdentityExactly(b: Bytes)
    ensures Smear(b, false) == b <==> SignExtended(b)
  {
    if b != [] {
      assert b == [b[0]] + b[1..];
      if b[0] >= 128 {
        SmearOnes(b[1..]);
        if forall i :: 0 <= i < |b[1..]| ==> b[1..][i] == 255 { AllOnes(b[1..]); }
        assert (forall i :: 1 <= i < |b| ==> b[i] == 255) <==> forall i :: 0 <= i < |b[1..]| ==> b[1..][i] == 255 by {
          assert forall i :: 1 <= i < |b| ==> b[i] == b[1..][i - 1];
        }
      } else {
        SmearIsIdentityExactly(b[1..]);
      }
    }
  }

  lemma {:induction false} AllOnes(b: Bytes)
    requires forall i :: 0 <= i < |b| ==> b[i] == 255
    ensures SignExtended(b)
  {
    if b != [] { AllOnes(b[1..]); }
  }

  /** Reading back a written number can only raise it, stays within 64 bits, and gives the number itself exactly
      when every byte above one of 128 or more is 255. */
  lemma ReadBack(n: nat)
    requires n < SEQ_LIMIT
    ensures n <= ToUint64(Encode(n, 8)) < SEQ_LIMIT
    ensures ToUint64(Encode(n, 8)) == n <==> SignExtended(Encode(n, 8))
  {
    Widths();
    var b := Encode(n, 8);
    ValueOfEncode(n, 8);
    SmearRaises(b, false);
    SmearIsIdentityExactly(b);
    EncodeOfValue(Smear(b, false));
  }

  lemma {:induction false} ValueOfOnes(b: Bytes)
    ensures Value(Smear(b, true)) == Pow256(|b|) - 1
  {
    if b != [] { ValueOfOnes(b[1..]); }
  }

  /** The round trip fails for every number from 128 to 255: it comes back 2^64 - 256 higher. */
  lemma ReadBackJumps(n: nat)
    requires 128 <= n < 256
    ensures ToUint64(Encode(n, 8)) == SEQ_LIMIT - 256 + n
  {
    Widths();
    var b := Encode(n, 8);
    assert b == [n] + Encode(0, 7) && b[1..] == Encode(0, 7);
    assert Smear(b, false) == [n] + Smear(Encode(0, 7), true);
    assert Smear(b, false)[1..] == Smear(Encode(0, 7), true);
    ValueOfOnes(Encode(0, 7));
  }

  /** The least significant byte comes first. */
  lemma {:induction false} EncodeAt(n: nat, w: nat, k: nat)
    requires k < w
    ensures Pow256(k) > 0 && Encode(n, w)[k] == (n / Pow256(k)) % 256
  {
    PowPositive(k);
    if k > 0 {
      EncodeAt(n / 256, w - 1, k - 1);
      DivTwice(n, Pow256(k - 1));
    }
  }

  lemma {:induction false} PowPositive(k: nat)
    ensures Pow256(k) > 0
  {
    if k > 0 { PowPositive(k - 1); }
  }

  lemma DivTwice(n: nat, p: nat)
    requires p > 0
    ensures (n / 256) / p == n / (256 * p)
  {
    var q, r := n / (256 * p), n % (256 * p);
    assert n == 256 * (p * q) + r;
    assert n / 256 == p * q + r / 256;
    assert 0 <= r / 256 < p;
    DivExact(n / 256, p, q, r / 256);
  }

  lemma DivExact(m: nat, p: nat, q: nat, r: nat)
    requires p > 0 && m == p * q + r && r < p
    ensures m / p == q
  {
    var d, e := m / p, m % p;
    assert m == p * d + e && e < p;
    if d < q { OneMoreTimes(p, d, q); }
    if q < d { OneMoreTimes(p, q, d); }
  }

  lemma RemainderExact(m: nat, d: nat, q: nat, r: nat)
    requires d > 0 && m == d * q + r && r < d
    ensures m % d == r
  {
    DivExact(m, d, q, r);
    assert m == d * (m / d) + m % d;
  }

  lemma {:induction false} OneMoreTimes(p: nat, a: nat, b: nat)
    requires a < b
    ensures p * a + p <= p * b
  {
    assert p * b == p * (b - 1) + p;
    if a + 1 < b { OneMoreTimes(p, a, b - 1); }
  }
}
