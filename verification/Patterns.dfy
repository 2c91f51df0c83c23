/** Patterns of one or two wrong bits. */
module Patterns {
  import opened Words
  import opened Crc16

  /** The pattern of two wrong bits, n apart, with k bits before and m behind. */
  function Pair(k: nat, n: nat, m: nat): seq<bool>
    requires n > 0
  {
    Zeros(k) + [true] + Zeros(n - 1) + [true] + Zeros(m)
  }

  /** The pattern is determined by where the bits are. */
  lemma IsPair(e: seq<bool>, i: nat, j: nat)
    requires i < j < |e| && forall k :: 0 <= k < |e| ==> e[k] == (k == i || k == j)
    ensures e == Pair(i, j - i, |e| - 1 - j)
  {
  }

  /** Two messages that differ in two bits only. */
  predicate Differ(a: seq<bool>, b: seq<bool>, i: nat, j: nat) {
    |a| == |b| && i < j < |a| && forall k :: 0 <= k < |a| ==> (a[k] != b[k] <==> k == i || k == j)
  }

  lemma DifferIsPair(a: seq<bool>, b: seq<bool>, i: nat, j: nat)
    requires |a| == |b|
    ensures Differ(a, b, i, j) <==> i < j < |a| && Xor(a, b) == Pair(i, j - i, |a| - 1 - j)
  {
    if Differ(a, b, i, j) { IsPair(Xor(a, b), i, j); }
    if i < j < |a| && Xor(a, b) == Pair(i, j - i, |a| - 1 - j) {
      forall k | 0 <= k < |a| ensures a[k] != b[k] <==> k == i || k == j {
        assert Xor(a, b)[k] == (k == i || k == j);
      }
    }
  }

  lemma TwoBits(e: seq<bool>) returns (i: nat, j: nat)
    requires Weight(e) == 2
    ensures i < j < |e| && forall k :: 0 <= k < |e| ==> e[k] == (k == i || k == j)
  {
    i := First(e);
    var rest := e[i + 1..];
    var t := First(rest);
    None(rest[t + 1..]);
    j := i + 1 + t;
    forall k | 0 <= k < |e| ensures e[k] == (k == i || k == j) {
      if i < k { assert e[k] == rest[k - i - 1]; }
      if j < k { assert e[k] == rest[t + 1..][k - j - 1]; }
    }
  }

  lemma {:induction false} First(e: seq<bool>) returns (i: nat)
    requires Weight(e) > 0
    ensures i < |e| && e[i] && (forall k :: 0 <= k < i ==> !e[k])
    ensures Weight(e[i + 1..]) == Weight(e) - 1
  {
    if e[0] {
      i := 0;
    } else {
      i := First(e[1..]);
      assert e[1..][i + 1..] == e[i + 2..];
      assert forall k :: 0 < k <= i ==> e[k] == e[1..][k - 1];
      i := i + 1;
    }
  }

  lemma {:induction false} None(e: seq<bool>)
    requires Weight(e) == 0
    ensures forall k :: 0 <= k < |e| ==> !e[k]
  {
    if e != [] {
      None(e[1..]);
      assert forall k :: 0 < k < |e| ==> e[k] == e[1..][k - 1];
    }
  }
}
