/**
 Bit vectors of symbolic width, least significant bit first, and the Gray
 code arithmetic that the dual-clock FIFO relies on.
 */
module Words {
  type Word = seq<bool>

  function Pow2(k: nat): (p: nat)
    ensures p >= 1
  {
    if k == 0 then 1 else 2 * Pow2(k - 1)
  }

  /** The smallest k with n <= 2^k, as the system function of the same name. */
  function Clog2(n: nat): (k: nat)
    ensures n <= Pow2(k)
    ensures k > 0 ==> Pow2(k - 1) < n
  {
    if n <= 1 then 0 else 1 + Clog2((n + 1) / 2)
  }

  /** The k low bits of the unbounded number n. */
  function Enc(n: nat, k: nat): (w: Word)
    ensures |w| == k
  {
    if k == 0 then [] else [n % 2 == 1] + Enc(n / 2, k - 1)
  }

  function Dec(w: Word): nat
  {
    if w == [] then 0 else (if w[0] then 1 else 0) + 2 * Dec(w[1..])
  }

  /** Ripple-carry increment; the carry out of the top bit is lost. */
  function Inc(w: Word): (r: Word)
    ensures |r| == |w|
  {
    if w == [] then [] else if w[0] then [false] + Inc(w[1..]) else [true] + w[1..]
  }

  function Xor(a: Word, b: Word): (r: Word)
    requires |a| == |b|
    ensures |r| == |a|
  {
    seq(|a|, i requires 0 <= i < |a| => a[i] != b[i])
  }

  /** Complement of the most significant bit. */
  function FlipTop(w: Word): (r: Word)
    requires |w| > 0
    ensures |r| == |w|
  {
    if |w| == 1 then [!w[0]] else [w[0]] + FlipTop(w[1..])
  }

  // ---------------------------------------------------------------- counters

  lemma {:induction false} DecEnc(n: nat, k: nat)
    ensures Dec(Enc(n, k)) == n % Pow2(k)
  {
    if k > 0 {
      DecEnc(n / 2, k - 1);
      var p := Pow2(k - 1);
      assert Enc(n, k)[1..] == Enc(n / 2, k - 1);
      ModDouble(n, p);
    }
  }

  lemma DoubleProduct(p: nat, d: nat)
    ensures 2 * p * d == 2 * (p * d)
  {
  }

  lemma ModDouble(n: nat, p: nat)
    requires p > 0
    ensures n % (2 * p) == n % 2 + 2 * ((n / 2) % p)
  {
    var q, r := (n / 2) / p, (n / 2) % p;
    assert n == 2 * (q * p + r) + n % 2;
    assert n == q * (2 * p) + (2 * r + n % 2);
    ModUnique(n, 2 * p, q, 2 * r + n % 2);
  }

  lemma MulGe(a: int, d: nat)
    requires a >= 1
    ensures a * d >= d
  {
    assert a * d == (a - 1) * d + d;
  }

  lemma ModUnique(n: nat, d: nat, q: nat, r: nat)
    requires d > 0 && n == q * d + r && r < d
    ensures n % d == r && n / d == q
  {
    var q', r' := n / d, n % d;
    assert n == q' * d + r';
    assert (q - q') * d == q * d - q' * d == r' - r;
    if q' < q { MulGe(q - q', d); assert false; }
    if q' > q { MulGe(q' - q, d); assert false; }
  }

  lemma {:induction false} IncEnc(n: nat, k: nat)
    ensures Inc(Enc(n, k)) == Enc(n + 1, k)
  {
    if k > 0 {
      IncEnc(n / 2, k - 1);
      var w := Enc(n, k);
      assert w[1..] == Enc(n / 2, k - 1);
      if n % 2 == 1 {
        assert (n + 1) / 2 == n / 2 + 1;
      }
    }
  }

  /** Two counters less than 2^k apart have the same low bits only if equal. */
  lemma {:induction false} EncWindow(a: nat, b: nat, k: nat)
    requires a <= b < a + Pow2(k)
    ensures Enc(a, k) == Enc(b, k) <==> a == b
  {
    if k > 0 {
      var x, y := Enc(a, k), Enc(b, k);
      assert x[1..] == Enc(a / 2, k - 1) && y[1..] == Enc(b / 2, k - 1);
      if x == y {
        assert x[0] == y[0];
        EncWindow(a / 2, b / 2, k - 1);
      }
    }
  }

  lemma HalfAdd(n: nat, p: nat)
    ensures (n + 2 * p) / 2 == n / 2 + p && (n + 2 * p) % 2 == n % 2
  {
  }

  lemma FlipTopBase(n: nat)
    ensures FlipTop(Enc(n, 1)) == Enc(n + 1, 1)
  {
    assert Enc(n / 2, 0) == Enc((n + 1) / 2, 0) == [];
  }

  lemma FlipTopStep(n: nat, m: nat, k: nat)
    requires m % 2 == n % 2 && k > 0
    requires FlipTop(Enc(n / 2, k)) == Enc(m / 2, k)
    ensures FlipTop(Enc(n, k + 1)) == Enc(m, k + 1)
  {
    assert Enc(n, k + 1)[1..] == Enc(n / 2, k);
  }

  /** Adding half the range flips exactly the top bit. */
  lemma {:induction false} FlipTopEnc(n: nat, k: nat)
    ensures FlipTop(Enc(n, k + 1)) == Enc(n + Pow2(k), k + 1)
  {
    if k == 0 {
      FlipTopBase(n);
    } else {
      FlipTopEnc(n / 2, k - 1);
      HalfAdd(n, Pow2(k - 1));
      FlipTopStep(n, n + Pow2(k), k);
    }
  }

  lemma {:induction false} EncLow(n: nat, k: nat, j: nat)
    requires j <= k
    ensures Enc(n, k)[..j] == Enc(n, j)
  {
    if j > 0 {
      EncLow(n / 2, k - 1, j - 1);
      var w := Enc(n, k);
      assert w[..j] == [n % 2 == 1] + Enc(n / 2, k - 1)[..j - 1];
    }
  }

  /** The memory address is the pointer without its wrap bit. */
  lemma Address(n: nat, k: nat)
    ensures Dec(Enc(n, k + 1)[..k]) == n % Pow2(k) < Pow2(k)
  {
    EncLow(n, k + 1, k);
    DecEnc(n, k);
  }

  /** Distinct positions less than a full turn apart use distinct addresses. */
  lemma AddressesDiffer(a: nat, b: nat, depth: nat)
    requires 0 < depth && a < b < a + depth
    ensures a % depth != b % depth
  {
    if a % depth == b % depth {
      var qa, qb := a / depth, b / depth;
      assert a == qa * depth + a % depth && b == qb * depth + a % depth;
      assert (qb - qa) * depth == qb * depth - qa * depth == b - a;
      if qb > qa { MulGe(qb - qa, depth); }
      assert false;
    }
  }

  // ---------------------------------------------------------------- Gray code

  /** b ^ (b >> 1) */
  function Bin2Gray(b: Word): (g: Word)
    ensures |g| == |b|
  {
    if b == [] then [] else Xor(b, b[1..] + [false])
  }

  /** Xor-reduction of all the bits. */
  function Parity(w: Word): bool
  {
    if w == [] then false else w[0] != Parity(w[1..])
  }

  /** Bit i is the parity of g >> i. */
  function GrayBinary(g: Word): (b: Word)
    ensures |b| == |g|
  {
    seq(|g|, i requires 0 <= i < |g| => Parity(g[i..]))
  }

  lemma {:induction false} ParityOfGray(b: Word)
    ensures b != [] ==> Parity(Bin2Gray(b)) == b[0]
    ensures b == [] ==> !Parity(Bin2Gray(b))
  {
    if b != [] {
      ParityOfGray(b[1..]);
      var g := Bin2Gray(b);
      if |b| > 1 {
        assert g[1..] == Bin2Gray(b[1..]);
        assert g[0] == (b[0] != b[1]);
      } else {
        assert g[1..] == [];
      }
    }
  }

  /** The two conversions are inverse to each other at every width. */
  lemma {:induction false} GrayInverse(w: Word)
    ensures GrayBinary(Bin2Gray(w)) == w
    ensures Bin2Gray(GrayBinary(w)) == w
  {
    var g := Bin2Gray(w);
    forall i | 0 <= i < |w| ensures GrayBinary(g)[i] == w[i] {
      assert g[i..] == Bin2Gray(w[i..]);
      ParityOfGray(w[i..]);
    }
    var b := GrayBinary(w);
    forall i | 0 <= i < |w| ensures Bin2Gray(b)[i] == w[i] {
      assert w[i..][1..] == w[i + 1..];
      assert Parity(w[i..]) == (w[i] != Parity(w[i + 1..]));
      if i + 1 == |w| { assert w[i + 1..] == []; } else { assert b[i + 1] == Parity(w[i + 1..]); }
    }
  }

  /** The loop of `gray2bin`: every output bit is an xor-reduction of a suffix. */
  method Gray2Bin(g: Word) returns (b: Word)
    ensures Bin2Gray(b) == g
    ensures forall c: Word :: Bin2Gray(c) == g ==> c == b
  {
    b := [];
    for i := 0 to |g|
      invariant |b| == i
      invariant b == GrayBinary(g)[..i]
    {
      b := b + [Parity(g[i..])];
    }
    assert b == GrayBinary(g);
    GrayInverse(g);
    forall c: Word | Bin2Gray(c) == g ensures c == b { GrayInverse(c); }
  }

  /** Number of positions in which two words of one width differ. */
  function Distance(a: Word, b: Word): nat
    requires |a| == |b|
  {
    if a == [] then 0 else (if a[0] != b[0] then 1 else 0) + Distance(a[1..], b[1..])
  }

  lemma {:induction false} DistanceZero(a: Word, b: Word)
    requires |a| == |b|
    ensures Distance(a, b) == 0 <==> a == b
  {
    if a != [] {
      DistanceZero(a[1..], b[1..]);
      assert a == [a[0]] + a[1..] && b == [b[0]] + b[1..];
    }
  }

  /** Consecutive pointers, the wrap included, have codes one bit apart. */
  lemma {:induction false} GrayOneBit(w: Word)
    requires w != []
    ensures Distance(Bin2Gray(w), Bin2Gray(Inc(w))) == 1
  {
    var t, g, g' := w[1..], Bin2Gray(w), Bin2Gray(Inc(w));
    assert g[1..] == Bin2Gray(t);
    assert Inc(w)[1..] == if w[0] then Inc(t) else t;
    assert g'[1..] == Bin2Gray(if w[0] then Inc(t) else t);
    DistanceZero(Bin2Gray(t), Bin2Gray(t));
    if t != [] && w[0] {
      GrayOneBit(t);
      assert Inc(t)[0] == !t[0];
    }
  }

  /** v takes every bit from either a or b: what a flop may see at a coincident edge. */
  ghost predicate Mixes(v: Word, a: Word, b: Word)
  {
    |v| == |a| == |b| && forall i :: 0 <= i < |v| ==> v[i] == a[i] || v[i] == b[i]
  }

  /** Sampling a code while it moves by one step yields the old or the new one. */
  lemma {:induction false} MixOneBit(v: Word, a: Word, b: Word)
    requires Mixes(v, a, b) && Distance(a, b) <= 1
    ensures v == a || v == b
  {
    if v != [] {
      assert v == [v[0]] + v[1..] && a == [a[0]] + a[1..] && b == [b[0]] + b[1..];
      if a[0] != b[0] {
        DistanceZero(a[1..], b[1..]);
        assert v[1..] == a[1..];
      } else {
        MixOneBit(v[1..], a[1..], b[1..]);
      }
    }
  }

  /** {2'b11, 0...}: the mask of the full comparison. */
  function FlipTopTwo(g: Word): (r: Word)
    requires |g| >= 2
    ensures |r| == |g|
  {
    seq(|g|, i requires 0 <= i < |g| => if i >= |g| - 2 then !g[i] else g[i])
  }

  lemma {:induction false} FlipTopIsTop(w: Word)
    requires w != []
    ensures forall i :: 0 <= i < |w| ==> FlipTop(w)[i] == if i == |w| - 1 then !w[i] else w[i]
  {
    if |w| > 1 {
      FlipTopIsTop(w[1..]);
      forall i | 0 < i < |w| ensures FlipTop(w)[i] == FlipTop(w[1..])[i - 1] && w[i] == w[1..][i - 1] {}
    }
  }

  lemma GrayBit(w: Word, i: nat)
    requires i < |w|
    ensures Bin2Gray(w)[i] == (w[i] != (i + 1 < |w| && w[i + 1]))
  {
  }

  lemma GrayFlipAt(w: Word, f: Word, i: nat)
    requires i < |w| == |f|
    requires forall j :: 0 <= j < |w| ==> f[j] == if j == |w| - 1 then !w[j] else w[j]
    ensures Bin2Gray(f)[i] == if i + 2 >= |w| then !Bin2Gray(w)[i] else Bin2Gray(w)[i]
  {
    GrayBit(w, i);
    GrayBit(f, i);
  }

  lemma GrayFlip(w: Word)
    requires |w| >= 2
    ensures Bin2Gray(FlipTop(w)) == FlipTopTwo(Bin2Gray(w))
  {
    FlipTopIsTop(w);
    var f, g := FlipTop(w), Bin2Gray(w);
    forall i | 0 <= i < |w| ensures Bin2Gray(f)[i] == FlipTopTwo(g)[i] {
      GrayFlipAt(w, f, i);
    }
  }

  lemma GrayInjective(a: Word, b: Word)
    requires Bin2Gray(a) == Bin2Gray(b)
    ensures a == b
  {
    GrayInverse(a);
    GrayInverse(b);
  }

  /** The Gray full test holds exactly when the counters are 2^k apart. */
  lemma GrayFullTest(wr: nat, rd: nat, k: nat)
    requires k >= 1 && rd <= wr <= rd + Pow2(k)
    ensures Bin2Gray(Enc(wr, k + 1)) == FlipTopTwo(Bin2Gray(Enc(rd, k + 1))) <==> wr == rd + Pow2(k)
  {
    FlipTopEnc(rd, k);
    GrayFlip(Enc(rd, k + 1));
    EncWindow(wr, rd + Pow2(k), k + 1);
    if Bin2Gray(Enc(wr, k + 1)) == FlipTopTwo(Bin2Gray(Enc(rd, k + 1))) {
      GrayInjective(Enc(wr, k + 1), Enc(rd + Pow2(k), k + 1));
    }
  }

  /** The Gray empty test holds exactly when the counters agree. */
  lemma GrayEmptyTest(wr: nat, rd: nat, k: nat)
    requires rd <= wr < rd + Pow2(k)
    ensures Bin2Gray(Enc(rd, k)) == Bin2Gray(Enc(wr, k)) <==> wr == rd
  {
    EncWindow(rd, wr, k);
    if Bin2Gray(Enc(rd, k)) == Bin2Gray(Enc(wr, k)) {
      GrayInjective(Enc(rd, k), Enc(wr, k));
    }
  }

  /** The binary full test of the single-clock FIFO: top bits differ, rest equal. */
  lemma FullTest(wr: nat, rd: nat, k: nat)
    requires rd <= wr <= rd + Pow2(k)
    ensures Enc(wr, k + 1) == FlipTop(Enc(rd, k + 1)) <==> wr == rd + Pow2(k)
  {
    FlipTopEnc(rd, k);
    EncWindow(wr, rd + Pow2(k), k + 1);
  }
}
