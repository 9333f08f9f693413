/** The initialisation vectors of AES-GCM.

    Source: src/privacy_zone/crypto.cpp, increment and gcm_encrypt. */
module Iv {
  import opened Arith
  import opened LittleEndian

  const IV_SIZE: nat := 12

  /** The big-endian value of a byte string. */
  function Value(b: seq<byte>): (n: nat) {
    if b == [] then 0 else Value(b[..|b| - 1]) * 256 + b[|b| - 1] as nat
  }

  lemma {:induction false} ValueBound(b: seq<byte>)
    ensures Value(b) < Pow(256, |b|)
  {
    if b != [] { ValueBound(b[..|b| - 1]); }
  }

  lemma {:induction false} ValueOfConcat(a: seq<byte>, b: seq<byte>)
    ensures Value(a + b) == Value(a) * Pow(256, |b|) + Value(b)
  {
    if b == [] {
      assert a + b == a;
    } else {
      var c := b[..|b| - 1];
      ValueOfConcat(a, c);
      assert (a + b)[..|a + b| - 1] == a + c;
      assert Value(a) * Pow(256, |c|) * 256 == Value(a) * Pow(256, |b|);
    }
  }

  /** Equal length and equal value mean equal bytes. */
  lemma {:induction false} ValueIsInjective(a: seq<byte>, b: seq<byte>)
    requires |a| == |b| && Value(a) == Value(b)
    ensures a == b
  {
    if a != [] {
      var n := |a| - 1;
      DivModUnique(256, Value(a[..n]), a[n] as int, Value(b[..n]), b[n] as int);
      ValueIsInjective(a[..n], b[..n]);
      assert a == a[..n] + [a[n]] && b == b[..n] + [b[n]];
    }
  }

  function Zeros(n: nat): (z: seq<byte>) {
    seq(n, _ => 0 as byte)
  }

  lemma {:induction false} ValueOfZeros(n: nat)
    ensures Value(Zeros(n)) == 0
  {
    if n > 0 {
      ValueOfZeros(n - 1);
      assert Zeros(n)[..n - 1] == Zeros(n - 1);
    }
  }

  lemma ValueOfSnoc(head: seq<byte>, x: byte)
    ensures Value(head + [x]) == Value(head) * 256 + x as nat
  {
    assert (head + [x])[..|head|] == head;
  }

  /** The carry stops at byte `x`: the whole value grows by one. */
  lemma CarryStops(head: seq<byte>, x: byte, tail: seq<byte>)
    requires x < 255 && Value(tail) + 1 == Pow(256, |tail|)
    ensures Value((head + [x + 1]) + Zeros(|tail|)) == Value((head + [x]) + tail) + 1
  {
    var a, b := head + [x], head + [x + 1];
    assert Value(b) == Value(a) + 1 by {
      ValueOfSnoc(head, x);
      ValueOfSnoc(head, x + 1);
    }
    ValueOfConcat(a, tail);
    assert Value(b + Zeros(|tail|)) == Value(b) * Pow(256, |tail|) by {
      ValueOfConcat(b, Zeros(|tail|));
      ValueOfZeros(|tail|);
    }
    Successor(Value(a), Value(b), Pow(256, |tail|));
  }

  /** A byte 0xFF in front of an all-ones tail carries on. */
  lemma CarryGoesOn(tail: seq<byte>)
    requires Value(tail) + 1 == Pow(256, |tail|)
    ensures Value([255] + tail) + 1 == Pow(256, |tail| + 1)
  {
    ValueOfSnoc([], 255);
    assert [] + [255 as byte] == [255];
    ValueOfConcat([255], tail);
    var p := Pow(256, |tail|);
    assert 255 * p + p == 256 * p;
  }

  lemma Successor(x: nat, y: nat, p: nat)
    requires y == x + 1
    ensures y * p == x * p + p
  {
  }

  lemma NoWrap(b: seq<byte>)
    ensures Value(b) == Value(b) % Pow(256, |b|)
  {
    ValueBound(b);
    DivModOf(Value(b), Pow(256, |b|), 0, Value(b));
  }

  /** Big-endian addition of 1, modulo 256 to the number of bytes. */
  ghost predicate Follows(a: seq<byte>, b: seq<byte>) {
    |b| == |a| && Value(b) == (Value(a) + 1) % Pow(256, |a|)
  }

  /** The bytes behind `i` were all 0xFF and are 0 now; the others are as they were. */
  ghost predicate Carried(before: seq<byte>, now: seq<byte>, i: int) {
    && -1 <= i < |before| == |now|
    && now == before[..i + 1] + Zeros(|before| - 1 - i)
    && Value(before[i + 1..]) + 1 == Pow(256, |before[i + 1..]|)
  }

  lemma CarryOn(before: seq<byte>, now: seq<byte>, i: nat)
    requires Carried(before, now, i) && now[i] == 255
    ensures Carried(before, now[i := 0], i - 1)
  {
    assert before[i..] == [255] + before[i + 1..];
    CarryGoesOn(before[i + 1..]);
    assert now[i := 0] == before[..i] + Zeros(|before| - i);
  }

  lemma CarryEnds(before: seq<byte>, now: seq<byte>, i: nat)
    requires Carried(before, now, i) && now[i] < 255
    ensures Follows(before, now[i := now[i] + 1])
  {
    CarryAdds(before, now, i);
    NoWrap(now[i := now[i] + 1]);
  }

  lemma CarryAdds(before: seq<byte>, now: seq<byte>, i: nat)
    requires Carried(before, now, i) && now[i] < 255
    ensures Value(now[i := now[i] + 1]) == Value(before) + 1
  {
    var head, x, tail := before[..i], before[i], before[i + 1..];
    CarryStops(head, x, tail);
    assert before == (head + [x]) + tail;
    assert now[i := now[i] + 1] == (head + [x + 1]) + Zeros(|tail|);
  }

  lemma CarriedOut(before: seq<byte>, now: seq<byte>)
    requires Carried(before, now, -1)
    ensures Follows(before, now)
  {
    assert before[0..] == before && now == Zeros(|before|);
    ValueOfZeros(|before|);
    DivModOf(Value(before) + 1, Pow(256, |before|), 1, 0);
  }

  /** increment: the carry loop from the last byte to the first. */
  method Increment(iv: array<byte>)
    modifies iv
    ensures Follows(old(iv[..]), iv[..])
  {
    ghost var before := iv[..];
    var i := iv.Length - 1;
    while i >= 0
      invariant -1 <= i < iv.Length
      invariant Carried(before, iv[..], i)
    {
      ghost var now := iv[..];
      if iv[i] == 0xFF {
        CarryOn(before, now, i);
        iv[i] := 0;
        assert iv[..] == now[i := 0];
      } else {
        CarryEnds(before, now, i);
        iv[i] := iv[i] + 1;
        assert iv[..] == now[i := now[i] + 1];
        return;
      }
      i := i - 1;
    }
    CarriedOut(before, iv[..]);
  }

  /** gcm_encrypt, `n` times: each call increments the vector and sends it along. */
  method EncryptAll(iv: array<byte>, n: nat) returns (ivs: seq<seq<byte>>)
    requires iv.Length == IV_SIZE
    modifies iv
    ensures |ivs| == n && Successive(ivs) && (n > 0 ==> Follows(old(iv[..]), ivs[0]) && iv[..] == ivs[n - 1])
    ensures n <= 0x1_0000_0000_0000_0000_0000_0000 ==> forall i, j | 0 <= i < j < n :: ivs[i] != ivs[j]
  {
    ivs := [];
    while |ivs| < n
      invariant |ivs| <= n && Successive(ivs)
      invariant if ivs == [] then iv[..] == old(iv[..]) else Follows(old(iv[..]), ivs[0]) && iv[..] == ivs[|ivs| - 1]
    {
      Increment(iv);
      ivs := ivs + [iv[..]];
    }
    forall i, j | n <= 0x1_0000_0000_0000_0000_0000_0000 && 0 <= i < j < n ensures ivs[i] != ivs[j] {
      VectorsNeverRepeat(ivs, i, j);
    }
  }

  /** The vectors of successive encryptions in one process: each is the one before, incremented. */
  ghost predicate Successive(ivs: seq<seq<byte>>) {
    && (forall k | 0 <= k < |ivs| :: |ivs[k]| == IV_SIZE)
    && (forall k | 0 <= k < |ivs| - 1 :: Follows(ivs[k], ivs[k + 1]))
  }

  lemma {:induction false} ValueOfKth(ivs: seq<seq<byte>>, k: nat)
    requires Successive(ivs) && k < |ivs|
    ensures Value(ivs[k]) == (Value(ivs[0]) + k) % Pow(256, IV_SIZE)
  {
    var m := Pow(256, IV_SIZE);
    if k == 0 {
      ValueBound(ivs[0]);
      DivModOf(Value(ivs[0]), m, 0, Value(ivs[0]));
    } else {
      ValueOfKth(ivs, k - 1);
      assert Follows(ivs[k - 1], ivs[(k - 1) + 1]);
      ModSum(Value(ivs[0]) + (k - 1), 1, m);
    }
  }

  lemma TwoTo96()
    ensures Pow(256, IV_SIZE) == 0x1_0000_0000_0000_0000_0000_0000
  {
    assert Pow(256, 2) == 256 * Pow(256, 1);
    assert Pow(256, 3) == 256 * Pow(256, 2);
    PowAdd(256, 3, 3);
    PowAdd(256, 6, 6);
  }

  /** Up to 2^96 encryptions in one process use pairwise different vectors, as section 8 of NIST
      SP 800-38D demands. */
  lemma VectorsNeverRepeat(ivs: seq<seq<byte>>, i: nat, j: nat)
    requires Successive(ivs) && |ivs| <= 0x1_0000_0000_0000_0000_0000_0000 && i < j < |ivs|
    ensures ivs[i] != ivs[j]
  {
    TwoTo96();
    var m, x := Pow(256, IV_SIZE), Value(ivs[0]);
    ValueOfKth(ivs, i);
    ValueOfKth(ivs, j);
    ModShift(x + i, j - i, m);
  }
}
