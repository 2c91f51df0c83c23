/**
 Wrong bits in a token. The polynomial x^5 + x^2 + 1 divides x^n + 1 exactly for
 the multiples n of 31, and a token has sixteen bits.
 */
module TokenErrors {
  import opened Words
  import opened Crc16
  import opened Crc5
  import opened Patterns

  lemma TurnLinear(t: Word, u: Word, d: bool, e: bool)
    requires |t| == |u| == 5
    ensures Turn(Xor(t, u), d != e) == Xor(Turn(t, d), Turn(u, e))
  {
    var x := Xor(t, u);
    assert forall i :: 0 <= i < 5 ==> x[i] == (t[i] != u[i]);
    hide Xor;
    TurnBits(t, d);
    TurnBits(u, e);
    TurnBits(x, d != e);
    XorBits(Turn(x, d != e), Turn(t, d), Turn(u, e));
  }

  lemma TurnBits(t: Word, d: bool)
    requires |t| == 5
    ensures forall i :: 0 <= i < 5 ==> Turn(t, d)[i] == (t[(i + 1) % 5] != ((i == 4 && d) || (i == 2 && t[0] != d)))
  {
  }

  lemma XorBits(x: Word, a: Word, b: Word)
    requires |x| == |a| == |b| && forall i :: 0 <= i < |x| ==> x[i] == (a[i] != b[i])
    ensures x == Xor(a, b)
  {
  }

  lemma {:induction false} TurnsLinear(t: Word, u: Word, a: seq<bool>, b: seq<bool>)
    requires |t| == |u| == 5 && |a| == |b|
    ensures Turns(Xor(t, u), Xor(a, b)) == Xor(Turns(t, a), Turns(u, b))
    decreases |a|
  {
    hide Turn;
    if a != [] {
      var n := |a| - 1;
      assert Xor(a, b)[..n] == Xor(a[..n], b[..n]);
      TurnsLinear(t, u, a[..n], b[..n]);
      TurnLinear(Turns(t, a[..n]), Turns(u, b[..n]), a[n], b[n]);
    }
  }

  /** A changed token is accepted exactly if its changed bits, fed alone, leave nothing. */
  lemma TokenErrors(token: seq<bool>, token': seq<bool>)
    requires |token| == |token'| && Accepts(token)
    ensures Accepts(token') <==> Turns(Zeros(5), Xor(token, token')) == Zeros(5)
  {
    hide Turns;
    var ones, t, t' := Ones(5), Turns(Ones(5), token), Turns(Ones(5), token');
    TurnsLinear(ones, ones, token, token');
    assert Xor(ones, ones) == Zeros(5);
    SameWords(t, t');
  }

  lemma SameWords(t: Word, u: Word)
    requires |t| == |u|
    ensures Xor(t, u) == Zeros(|t|) <==> t == u
  {
    if Xor(t, u) == Zeros(|t|) {
      forall i | 0 <= i < |t| ensures t[i] == u[i] { assert !Xor(t, u)[i]; }
    }
  }

  /** Turns without a message. */
  function Idles(n: nat, t: Word): (t': Word)
    requires |t| == 5
    ensures |t'| == 5
  {
    if n == 0 then t else Turn(Idles(n - 1, t), false)
  }

  lemma {:induction false} IdlesAppend(n: nat, m: nat, t: Word)
    requires |t| == 5
    ensures Idles(n + m, t) == Idles(m, Idles(n, t))
    decreases m
  {
    if m > 0 {
      IdlesAppend(n, m - 1, t);
      assert n + m - 1 == n + (m - 1);
    }
  }

  lemma {:induction false} IdlesInjective(n: nat, t: Word, u: Word)
    requires |t| == |u| == 5
    ensures Idles(n, t) == Idles(n, u) <==> t == u
  {
    if n > 0 {
      TurnInjective(Idles(n - 1, t), Idles(n - 1, u));
      IdlesInjective(n - 1, t, u);
    }
  }

  lemma TurnInjective(t: Word, u: Word)
    requires |t| == |u| == 5
    ensures Turn(t, false) == Turn(u, false) <==> t == u
  {
    var a, b := Turn(t, false), Turn(u, false);
    if a == b {
      assert t[0] == a[4] && t[1] == a[0] && t[2] == a[1] && t[3] == (a[2] != a[4]) && t[4] == a[3];
      assert u[0] == b[4] && u[1] == b[0] && u[2] == b[1] && u[3] == (b[2] != b[4]) && u[4] == b[3];
    }
  }

  function At(n: nat, t: Word, j: nat): bool
    requires |t| == 5 && j < 5
  {
    Idles(n, t)[j]
  }

  /** The polynomial: x^5 = x^2 + 1. */
  lemma FiveIdles(n: nat, t: Word, j: nat)
    requires |t| == 5 && j < 5
    ensures At(n + 5, t, j) == (At(n + 2, t, j) != At(n, t, j))
  {
    var u := Idles(n, t);
    assert Idles(n + 1, t) == Turn(u, false);
    assert Idles(n + 2, t) == Turn(Turn(u, false), false);
    assert Idles(n + 3, t) == Turn(Idles(n + 2, t), false);
    assert Idles(n + 4, t) == Turn(Idles(n + 3, t), false);
  }

  lemma EightIdles(n: nat, t: Word, j: nat)
    requires |t| == 5 && j < 5
    ensures At(n + 8, t, j) == ((At(n + 3, t, j) != At(n + 2, t, j)) != At(n, t, j))
  {
    hide At;
    FiveIdles(n, t, j);
    FiveIdles(n + 3, t, j);
  }

  lemma SixteenIdles(n: nat, t: Word, j: nat)
    requires |t| == 5 && j < 5
    ensures At(n + 16, t, j) == (((At(n + 4, t, j) != At(n + 3, t, j)) != At(n + 1, t, j)) != At(n, t, j))
  {
    hide At;
    EightIdles(n + 8, t, j);
    EightIdles(n + 3, t, j);
    EightIdles(n + 2, t, j);
    EightIdles(n, t, j);
    FiveIdles(n + 1, t, j);
  }

  lemma ThirtyTwo(t: Word, j: nat)
    requires |t| == 5 && j < 5
    ensures At(32, t, j) == At(1, t, j)
  {
    hide At;
    SixteenIdles(16, t, j);
    SixteenIdles(4, t, j);
    SixteenIdles(3, t, j);
    SixteenIdles(1, t, j);
    SixteenIdles(0, t, j);
    EightIdles(0, t, j);
    FiveIdles(1, t, j);
  }

  /** Every register comes back after 31 turns. */
  lemma Returns(t: Word)
    requires |t| == 5
    ensures Idles(31, t) == t
  {
    hide Turn;
    forall j | 0 <= j < 5 ensures Idles(32, t)[j] == Idles(1, t)[j] {
      ThirtyTwo(t, j);
      assert At(32, t, j) == At(1, t, j);
    }
    IdlesAppend(31, 1, t);
    IdlesInjective(1, Idles(31, t), t);
  }

  /** A single wrong bit. */
  function One(): (t: Word)
    ensures |t| == 5
  {
    [true] + Zeros(4)
  }

  lemma {:induction false} ReturnsOften(n: nat, r: nat, t: Word)
    requires |t| == 5 && Idles(n, t) == t
    ensures Idles(n * r, t) == t
    decreases r
  {
    if r == 0 {
      assert n * r == 0;
    } else {
      ReturnsOften(n, r - 1, t);
      assert n * r == n * (r - 1) + n;
      IdlesAppend(n * (r - 1), n, t);
    }
  }

  /** 31 is prime, so a shorter way round would be one of a single turn. */
  lemma {:induction false} NoShortcut(r: nat)
    requires 0 < r < 31
    ensures Idles(r, One()) != One()
    decreases r
  {
    if r == 1 {
      assert Idles(0, One()) == One();
    } else if Idles(r, One()) == One() {
      Shorter(r, One());
      NoShortcut(31 % r);
      assert false;
    }
  }

  lemma Shorter(r: nat, t: Word)
    requires |t| == 5 && 1 < r < 31 && Idles(r, t) == t
    ensures 31 % r > 0 && Idles(31 % r, t) == t
  {
    hide Idles;
    var q, s := 31 / r, 31 % r;
    ReturnsOften(r, q, t);
    assert 31 == r * q + s;
    IdlesAppend(r * q, s, t);
    Returns(t);
  }

  lemma OneReturns(n: nat)
    ensures Idles(n, One()) == One() <==> n % 31 == 0
  {
    hide One, Idles;
    var q, r := n / 31, n % 31;
    Returns(One());
    ReturnsOften(31, q, One());
    IdlesAppend(31 * q, r, One());
    if r == 0 { IdlesZero(One()); } else { NoShortcut(r); }
  }

  lemma IdlesZero(t: Word)
    requires |t| == 5
    ensures Idles(0, t) == t
  {
  }

  lemma {:induction false} TurnsZeros(t: Word, n: nat)
    requires |t| == 5
    ensures Turns(t, Zeros(n)) == Idles(n, t)
  {
    if n > 0 {
      assert Zeros(n)[..n - 1] == Zeros(n - 1);
      TurnsZeros(t, n - 1);
    }
  }

  lemma {:induction false} TurnsAppend(t: Word, a: seq<bool>, b: seq<bool>)
    requires |t| == 5
    ensures Turns(t, a + b) == Turns(Turns(t, a), b)
    decreases |b|
  {
    hide Turn;
    if b == [] {
      assert a + b == a;
    } else {
      var n := |b| - 1;
      assert (a + b)[..|a + b| - 1] == a + b[..n];
      TurnsAppend(t, a, b[..n]);
    }
  }

  /** Behind the first wrong bit. */
  lemma FirstBit(i: nat, n: nat)
    requires n > 0
    ensures Turns(Zeros(5), Zeros(i) + [true] + Zeros(n - 1)) == Idles(n, One())
  {
    hide Turns, Idles, Turn;
    var z := Zeros(5);
    TurnsAppend(z, Zeros(i) + [true], Zeros(n - 1));
    OneTurn(z, Zeros(i), true);
    TurnsZeros(z, i);
    IdlesOfZeros(i);
    TurnOfOne();
    TurnsZeros(Turn(z, true), n - 1);
    IdlesAppend(1, n - 1, One());
    OneIdle(One());
  }

  lemma OneIdle(t: Word)
    requires |t| == 5
    ensures Idles(1, t) == Turn(t, false)
  {
    assert Idles(0, t) == t;
  }

  lemma TurnOfOne()
    ensures Turn(Zeros(5), true) == Turn(One(), false)
  {
  }

  lemma Cancelled(t: Word)
    requires |t| == 5
    ensures Turn(t, true) == Zeros(5) <==> t == One()
  {
    var x := Turn(t, true);
    if x == Zeros(5) {
      assert !x[0] && !x[1] && !x[2] && !x[3] && !x[4];
      assert t == One();
    }
  }

  lemma {:induction false} IdlesOfZeros(n: nat)
    ensures Idles(n, Zeros(5)) == Zeros(5)
  {
    if n > 0 {
      IdlesOfZeros(n - 1);
      assert Turn(Zeros(5), false) == Zeros(5);
    }
  }

  lemma PairRemains(i: nat, n: nat, l: nat)
    requires n > 0
    ensures Turns(Zeros(5), Pair(i, n, l)) == Zeros(5) <==> n % 31 == 0
  {
    hide Turn, Turns, Idles, One;
    var z, u := Zeros(5), Idles(n, One());
    var front := Zeros(i) + [true] + Zeros(n - 1);
    FirstBit(i, n);
    OneTurn(z, front, true);
    Cancelled(u);
    OneReturns(n);
    TurnsAppend(z, front + [true], Zeros(l));
    TurnsZeros(Turn(u, true), l);
    IdlesOfZeros(l);
    IdlesInjective(l, Turn(u, true), z);
  }

  /** At any length, two wrong bits go unnoticed exactly if they are a multiple of 31 bits apart. */
  lemma PairExactly(token: seq<bool>, token': seq<bool>, i: nat, j: nat)
    requires Accepts(token) && Differ(token, token', i, j)
    ensures Accepts(token') <==> (j - i) % 31 == 0
  {
    hide Turns, Pair, Differ;
    assert |token| == |token'| && i < j < |token| by { LengthOfPair(token, token', i, j); }
    DifferIsPair(token, token', i, j);
    PairRemains(i, j - i, |token| - 1 - j);
    TokenErrors(token, token');
  }

  lemma LengthOfPair(a: seq<bool>, b: seq<bool>, i: nat, j: nat)
    requires Differ(a, b, i, j)
    ensures |a| == |b| && i < j < |a|
  {
  }

  /** A single wrong bit never passes. */
  lemma OneDetected(token: seq<bool>, token': seq<bool>, i: nat)
    requires Accepts(token) && |token| == |token'| && i < |token|
    requires forall k :: 0 <= k < |token| ==> (token[k] != token'[k] <==> k == i)
    ensures !Accepts(token')
  {
    hide Turns, Idles;
    var l := |token| - 1 - i;
    var e := Xor(token, token');
    assert e == Zeros(i) + [true] + Zeros(0) + Zeros(l);
    TurnsAppend(Zeros(5), Zeros(i) + [true] + Zeros(0), Zeros(l));
    FirstBit(i, 1);
    TurnsZeros(Idles(1, One()), l);
    IdlesOfZeros(l);
    IdlesOfZeros(1);
    IdlesInjective(l, Idles(1, One()), Zeros(5));
    IdlesInjective(1, One(), Zeros(5));
    assert One()[0] && !Zeros(5)[0];
    TokenErrors(token, token');
  }

  /** So one or two wrong bits in the sixteen of a token are always detected. */
  lemma TokenProtected(token: seq<bool>, token': seq<bool>)
    requires |token| == |token'| == 16 && Accepts(token)
    requires 1 <= Weight(Xor(token, token')) <= 2
    ensures !Accepts(token')
  {
    hide Accepts;
    var e := Xor(token, token');
    if Weight(e) == 2 {
      var i, j := TwoBits(e);
      IsPair(e, i, j);
      DifferIsPair(token, token', i, j);
      PairExactly(token, token', i, j);
    } else {
      var i := First(e);
      None(e[i + 1..]);
      forall k | 0 <= k < 16 ensures token[k] != token'[k] <==> k == i {
        assert e[k] == (token[k] != token'[k]);
        if k > i { assert e[k] == e[i + 1..][k - i - 1]; }
      }
      OneDetected(token, token', i);
    }
  }
}
