/**
 The CRC of USB data packets: a 16-bit register, fed the bits of a message,
 least significant bit of each byte first. Registers are bit vectors, lowest
 bit first, so a shift to the right drops the first bit.
 */
module Crc16 {
  import opened Words

  type Byte = b: nat | b < 256

  type Register = w: Word | |w| == 16 witness Enc(0, 16)

  function Zeros(n: nat): (w: Word)
    ensures |w| == n
  {
    seq(n, i => false)
  }

  function Ones(n: nat): (w: Word)
    ensures |w| == n
  {
    seq(n, i => true)
  }

  function Start(): Register { Ones(16) }

  function Polynomial(): Register { [true] + Zeros(12) + [true, false, true] }

  function Residue(): Register { [true] + Zeros(11) + [true, true, false, true] }

  lemma {:induction false} DecAppend(a: Word, b: Word)
    ensures Dec(a + b) == Dec(a) + Pow2(|a|) * Dec(b)
  {
    if a == [] {
      assert a + b == b;
    } else {
      assert (a + b)[1..] == a[1..] + b;
      DecAppend(a[1..], b);
      DoubleProduct(Pow2(|a| - 1), Dec(b));
    }
  }

  lemma {:induction false} DecZerosOnes(n: nat)
    ensures Dec(Zeros(n)) == 0 && Dec(Ones(n)) == Pow2(n) - 1
  {
    if n > 0 {
      assert Zeros(n)[1..] == Zeros(n - 1) && Ones(n)[1..] == Ones(n - 1);
      DecZerosOnes(n - 1);
    }
  }

  lemma Sparse(n: nat, top: Word)
    ensures Dec([true] + Zeros(n) + top) == 1 + Pow2(n + 1) * Dec(top)
  {
    DecAppend([true] + Zeros(n), top);
    DecAppend([true], Zeros(n));
    DecZerosOnes(n);
  }

  lemma SmallWords()
    ensures Dec([true, false, true]) == 5 && Dec([true, true, false, true]) == 11
  {
    assert [true, true, false, true][1..] == [true, false, true];
    assert [true, false, true][1..] == [false, true] && [false, true][1..] == [true];
  }

  lemma Constants()
    ensures Dec(Start()) == 0xFFFF && Dec(Polynomial()) == 0xA001 && Dec(Residue()) == 0xB001
  {
    hide Dec, Zeros, Ones;
    DecZerosOnes(16);
    Sparse(12, [true, false, true]);
    Sparse(11, [true, true, false, true]);
    assert Pow2(12) == 4096 && Pow2(13) == 8192 && Pow2(16) == 65536;
    SmallWords();
  }

  /** One turn of the register: out goes the lowest bit, and the polynomial comes in if it was set. */
  function Shift(r: Register): Register {
    Xor(r[1..] + [false], if r[0] then Polynomial() else Zeros(16))
  }

  function Mix(r: Register, b: bool): Register { r[0 := r[0] != b] }

  function Feed(r: Register, bits: seq<bool>): Register
    decreases |bits|
  {
    if bits == [] then r else Feed(Shift(Mix(r, bits[0])), bits[1..])
  }

  function Bits(bytes: seq<Byte>): (bits: seq<bool>)
    ensures |bits| == 8 * |bytes|
  {
    if bytes == [] then [] else Bits(bytes[..|bytes| - 1]) + Enc(bytes[|bytes| - 1], 8)
  }

  function Not(w: Word): (r: Word)
    ensures |r| == |w|
  {
    seq(|w|, i requires 0 <= i < |w| => !w[i])
  }

  /** The register's complement after a message: what a transmitter appends. */
  function Crc(bytes: seq<Byte>): Register { Not(Feed(Start(), Bits(bytes))) }

  function Low(crc: Register): Byte { ByteOf(crc[..8]) }

  function High(crc: Register): Byte { ByteOf(crc[8..]) }

  function ByteOf(w: Word): (b: Byte)
    requires |w| == 8
  {
    DecBound(w);
    assert Pow2(8) == 256;
    Dec(w)
  }

  /** What a receiver tests, over the data and the two CRC bytes. */
  predicate Checks(bytes: seq<Byte>) {
    Feed(Start(), Bits(bytes)) == Residue()
  }

  lemma {:induction false} DecBound(w: Word)
    ensures Dec(w) < Pow2(|w|)
    ensures Enc(Dec(w), |w|) == w
  {
    if w != [] { DecBound(w[1..]); }
  }

  /** A byte is determined by its bits, and any eight bits are those of a byte. */
  lemma ByteBits(b: Byte, w: Word)
    requires |w| == 8
    ensures Enc(b, 8) == w <==> b == ByteOf(w)
  {
    hide Enc, Dec;
    DecBound(w);
    DecEnc(b, 8);
    EightBits(b);
  }

  lemma EightBits(b: Byte)
    ensures b % Pow2(8) == b
  {
    assert Pow2(8) == 256;
  }

  // ------------------------------------------------------------ the algorithm

  lemma {:induction false} FeedAppend(r: Register, a: seq<bool>, b: seq<bool>)
    ensures Feed(r, a + b) == Feed(Feed(r, a), b)
    decreases |a|
  {
    if a == [] {
      assert a + b == b;
    } else {
      assert (a + b)[1..] == a[1..] + b;
      FeedAppend(Shift(Mix(r, a[0])), a[1..], b);
    }
  }

  /** A sixteen-bit variable shifted to the right. */
  function ShiftRight(r: Register): Register { r[1..] + [false] }

  method Calc(bytes: seq<Byte>) returns (crc: Register)
    ensures crc == Crc(bytes)
  {
    var r := Start();
    for i := 0 to |bytes|
      invariant r == Feed(Start(), Bits(bytes[..i]))
    {
      var val: Register := Enc(bytes[i], 16);
      NextByte(bytes, i);
      for j := 8 downto 0
        invariant Feed(r, val[..j]) == Feed(Start(), Bits(bytes[..i + 1]))
      {
        FeedOne(r, val, j);
        r := Xor(ShiftRight(r), if val[0] != r[0] then Polynomial() else Zeros(16));
        val := ShiftRight(val);
      }
    }
    assert bytes[..|bytes|] == bytes;
    crc := Not(r);
  }

  lemma NextByte(bytes: seq<Byte>, i: nat)
    requires i < |bytes|
    ensures Feed(Feed(Start(), Bits(bytes[..i])), Enc(bytes[i], 16)[..8]) == Feed(Start(), Bits(bytes[..i + 1]))
  {
    assert bytes[..i + 1][..i] == bytes[..i];
    EncLow(bytes[i], 16, 8);
    FeedAppend(Start(), Bits(bytes[..i]), Enc(bytes[i], 8));
  }

  lemma FeedOne(r: Register, val: Register, j: nat)
    requires j < 16
    ensures Feed(r, val[..j + 1])
         == Feed(Xor(ShiftRight(r), if val[0] != r[0] then Polynomial() else Zeros(16)), ShiftRight(val)[..j])
  {
    assert val[..j + 1][1..] == ShiftRight(val)[..j];
    assert Mix(r, val[0])[1..] == r[1..];
  }

  method Check(bytes: seq<Byte>) returns (ok: bool)
    ensures ok <==> Checks(bytes)
  {
    var crc := Calc(bytes);
    assert Not(crc) == Feed(Start(), Bits(bytes));
    ok := Not(crc) == Residue();
  }

  // ------------------------------------------------- algebra of the register

  lemma ShiftLinear(r: Register, s: Register)
    ensures Shift(Xor(r, s)) == Xor(Shift(r), Shift(s))
  {
  }

  /** The polynomial's top bit tells whether a one was shifted out. */
  lemma ShiftInjective(r: Register, s: Register)
    ensures Shift(r) == Shift(s) <==> r == s
  {
    if Shift(r) == Shift(s) {
      assert Shift(r)[15] == r[0] && Shift(s)[15] == s[0];
      forall i | 1 <= i < 16 ensures r[i] == s[i] {
        assert Shift(r)[i - 1] == (r[i] != (r[0] && Polynomial()[i - 1]));
        assert Shift(s)[i - 1] == (s[i] != (s[0] && Polynomial()[i - 1]));
      }
    }
  }

  function Shifts(n: nat, r: Register): Register {
    if n == 0 then r else Shifts(n - 1, Shift(r))
  }

  lemma {:induction false} ShiftsInjective(n: nat, r: Register, s: Register)
    ensures Shifts(n, r) == Shifts(n, s) <==> r == s
  {
    if n > 0 {
      ShiftInjective(r, s);
      ShiftsInjective(n - 1, Shift(r), Shift(s));
    }
  }

  lemma {:induction false} ShiftsZero(n: nat)
    ensures Shifts(n, Zeros(16)) == Zeros(16)
  {
    if n > 0 {
      assert Shift(Zeros(16)) == Zeros(16);
      ShiftsZero(n - 1);
    }
  }

  /** Feeding is linear: changed bits act on the register independently of the message. */
  lemma {:induction false} FeedLinear(r: Register, s: Register, a: seq<bool>, b: seq<bool>)
    requires |a| == |b|
    ensures Feed(Xor(r, s), Xor(a, b)) == Xor(Feed(r, a), Feed(s, b))
    decreases |a|
  {
    if a != [] {
      assert Xor(a, b)[1..] == Xor(a[1..], b[1..]);
      assert Mix(Xor(r, s), a[0] != b[0]) == Xor(Mix(r, a[0]), Mix(s, b[0]));
      ShiftLinear(Mix(r, a[0]), Mix(s, b[0]));
      FeedLinear(Shift(Mix(r, a[0])), Shift(Mix(s, b[0])), a[1..], b[1..]);
    }
  }

  function Padded(bits: seq<bool>): Register
    requires |bits| <= 16
  {
    bits + Zeros(16 - |bits|)
  }

  lemma AbsorbOne(r: Register, bits: seq<bool>)
    requires 1 <= |bits| <= 16
    ensures Xor(Shift(Mix(r, bits[0])), Padded(bits[1..])) == Shift(Xor(r, Padded(bits)))
  {
    var p := Padded(bits);
    assert p[1..] + [false] == Padded(bits[1..]);
  }

  /** Up to sixteen bits may be added to the register at once and shifted out afterwards. */
  lemma {:induction false} Absorb(r: Register, bits: seq<bool>)
    requires |bits| <= 16
    ensures Feed(r, bits) == Shifts(|bits|, Xor(r, Padded(bits)))
    decreases |bits|
  {
    if bits == [] {
      assert Xor(r, Padded(bits)) == r;
    } else {
      AbsorbOne(r, bits);
      Absorb(Shift(Mix(r, bits[0])), bits[1..]);
    }
  }

  lemma {:induction false} FeedZeros(r: Register, n: nat)
    ensures Feed(r, Zeros(n)) == Shifts(n, r)
    decreases n
  {
    if n > 0 {
      assert Zeros(n)[1..] == Zeros(n - 1);
      assert Mix(r, false) == r;
      FeedZeros(Shift(r), n - 1);
    }
  }

  // ------------------------------------------------------- the residue theorem

  lemma {:induction false} BitsAppend(m: seq<Byte>, n: seq<Byte>)
    ensures Bits(m + n) == Bits(m) + Bits(n)
    decreases |n|
  {
    hide Enc;
    if n == [] {
      assert m + n == m;
    } else {
      assert (m + n)[..|m + n| - 1] == m + n[..|n| - 1];
      BitsAppend(m, n[..|n| - 1]);
      assert (m + n)[|m + n| - 1] == n[|n| - 1];
    }
  }

  lemma TwoBytes(a: Byte, b: Byte)
    ensures Bits([a, b]) == Enc(a, 8) + Enc(b, 8)
  {
    assert [a, b][..1] == [a] && [a][..0] == [];
    assert Bits([a]) == Enc(a, 8);
  }

  lemma {:induction false} ShiftsAppend(n: nat, m: nat, r: Register)
    ensures Shifts(n + m, r) == Shifts(m, Shifts(n, r))
    decreases n
  {
    if n > 0 { ShiftsAppend(n - 1, m, Shift(r)); }
  }

  /** The register that started with ones, after 2 * j + 2 turns. */
  function Fading(j: nat): Register
    requires j <= 6
  {
    Ones(12 - 2 * j) + [false, true] + Zeros(2 * j) + [true, false]
  }

  lemma FadesOn(j: nat)
    requires j < 6
    ensures Shift(Shift(Fading(j))) == Fading(j + 1)
  {
    var s := Shift(Fading(j));
    assert s == [false] + Ones(10 - 2 * j) + [false, true] + Zeros(2 * j) + [false, false, true];
  }

  lemma FadingStarts()
    ensures Shift(Shift(Ones(16))) == Fading(0)
  {
    assert Shift(Ones(16)) == [false] + Ones(12) + [false, true, true];
  }

  lemma TwoShifts(r: Register)
    ensures Shifts(2, r) == Shift(Shift(r))
  {
    hide Shift;
    assert Shifts(1, Shift(r)) == Shifts(0, Shift(Shift(r)));
  }

  lemma {:induction false} Fades(j: nat)
    requires j <= 6
    ensures Shifts(2 * j + 2, Ones(16)) == Fading(j)
  {
    hide Shift, Shifts, Fading;
    if j == 0 {
      FadingStarts();
      TwoShifts(Ones(16));
    } else {
      Fades(j - 1);
      FadesOn(j - 1);
      ShiftsAppend(2 * j, 2, Ones(16));
      TwoShifts(Fading(j - 1));
    }
  }

  lemma ResidueOfOnes()
    ensures Shifts(16, Ones(16)) == Residue()
  {
    Fades(6);
    ShiftsAppend(14, 2, Ones(16));
    assert !Fading(6)[0];
    assert Shift(Fading(6)) == [true] + Zeros(12) + [true, false, false];
  }

  /** A message passes the check exactly when its last two bytes are the CRC of the rest. */
  lemma ResidueTheorem(m: seq<Byte>, a: Byte, b: Byte)
    ensures Checks(m + [a, b]) <==> a == Low(Crc(m)) && b == High(Crc(m))
  {
    var r := Feed(Start(), Bits(m));
    var trailer := Bits([a, b]);
    BitsAppend(m, [a, b]);
    FeedAppend(Start(), Bits(m), trailer);
    Absorb(r, trailer);
    assert Padded(trailer) == trailer;
    ResidueOfOnes();
    ShiftsInjective(16, Xor(r, trailer), Ones(16));
    ComplementsAgree(r, trailer);
    TwoBytes(a, b);
    ByteBits(a, Not(r)[..8]);
    ByteBits(b, Not(r)[8..]);
  }

  lemma ComplementsAgree(r: Register, t: Register)
    ensures Xor(r, t) == Ones(16) <==> t == Not(r)
    ensures t == Not(r) <==> t[..8] == Not(r)[..8] && t[8..] == Not(r)[8..]
  {
    if Xor(r, t) == Ones(16) {
      forall i | 0 <= i < 16 ensures t[i] == Not(r)[i] {
        assert Xor(r, t)[i];
      }
    }
    assert t == t[..8] + t[8..] && Not(r) == Not(r)[..8] + Not(r)[8..];
  }

  // ----------------------------------------------------------- error detection

  lemma XorZero(r: Register, s: Register)
    ensures Xor(r, r) == Zeros(16)
    ensures Xor(r, s) == Zeros(16) <==> r == s
  {
    if Xor(r, s) == Zeros(16) {
      forall i | 0 <= i < 16 ensures r[i] == s[i] {
        assert !Xor(r, s)[i];
      }
    }
  }

  /** A changed message passes exactly when its changed bits, fed alone, leave nothing in the register. */
  lemma ErrorsAlone(m: seq<Byte>, m': seq<Byte>)
    requires |m| == |m'| && Checks(m)
    ensures Checks(m') <==> Feed(Zeros(16), Xor(Bits(m), Bits(m'))) == Zeros(16)
  {
    FeedLinear(Start(), Start(), Bits(m), Bits(m'));
    XorZero(Start(), Start());
    XorZero(Feed(Start(), Bits(m)), Feed(Start(), Bits(m')));
  }

  /** An error pattern that starts and ends with zeros is a burst shifted out for a while. */
  lemma FeedBurst(k: nat, burst: seq<bool>, n: nat)
    requires |burst| <= 16
    ensures Feed(Zeros(16), Zeros(k) + burst + Zeros(n)) == Shifts(n, Shifts(|burst|, Padded(burst)))
  {
    FeedAppend(Zeros(16), Zeros(k) + burst, Zeros(n));
    FeedAppend(Zeros(16), Zeros(k), burst);
    FeedZeros(Zeros(16), k);
    ShiftsZero(k);
    Absorb(Zeros(16), burst);
    assert Xor(Zeros(16), Padded(burst)) == Padded(burst);
    FeedZeros(Feed(Zeros(16), burst), n);
  }

  lemma Isolated(e: seq<bool>, k: nat) returns (burst: seq<bool>)
    requires true in e && forall i :: 0 <= i < |e| && e[i] ==> k <= i < k + 16
    ensures |burst| <= 16 && true in burst && k + |burst| <= |e|
    ensures e == Zeros(k) + burst + Zeros(|e| - k - |burst|)
  {
    var end := if k + 16 < |e| then k + 16 else |e|;
    var i :| 0 <= i < |e| && e[i];
    burst := e[k..end];
    assert burst[i - k];
  }

  lemma BurstRemains(k: nat, burst: seq<bool>, n: nat)
    requires |burst| <= 16 && true in burst
    ensures Feed(Zeros(16), Zeros(k) + burst + Zeros(n)) != Zeros(16)
  {
    FeedBurst(k, burst, n);
    var i :| 0 <= i < |burst| && burst[i];
    assert Padded(burst)[i] && !Zeros(16)[i];
    ShiftsInjective(|burst|, Padded(burst), Zeros(16));
    ShiftsZero(|burst|);
    ShiftsInjective(n, Shifts(|burst|, Padded(burst)), Zeros(16));
    ShiftsZero(n);
  }

  lemma {:induction false} BytesDiffer(m: seq<Byte>, m': seq<Byte>)
    requires |m| == |m'| && Bits(m) == Bits(m')
    ensures m == m'
  {
    if m != [] {
      var n := |m| - 1;
      assert Bits(m)[..8 * n] == Bits(m[..n]) && Bits(m)[8 * n..] == Enc(m[n], 8);
      assert Bits(m')[..8 * n] == Bits(m'[..n]) && Bits(m')[8 * n..] == Enc(m'[n], 8);
      BytesDiffer(m[..n], m'[..n]);
      ByteBits(m[n], Enc(m[n], 8));
      ByteBits(m'[n], Enc(m[n], 8));
      assert m == m[..n] + [m[n]] && m' == m'[..n] + [m'[n]];
    }
  }

  /** However long the message, errors confined to sixteen consecutive bits are detected. */
  lemma BurstDetected(m: seq<Byte>, m': seq<Byte>, k: nat)
    requires |m| == |m'| && m != m' && Checks(m)
    requires forall i :: 0 <= i < 8 * |m| && Bits(m)[i] != Bits(m')[i] ==> k <= i < k + 16
    ensures !Checks(m')
  {
    hide Bits, Feed, Zeros;
    var e := Xor(Bits(m), Bits(m'));
    if Bits(m) == Bits(m') { BytesDiffer(m, m'); assert false; }
    var i :| 0 <= i < |e| && Bits(m)[i] != Bits(m')[i];
    assert e[i];
    var burst := Isolated(e, k);
    BurstRemains(k, burst, |e| - k - |burst|);
    ErrorsAlone(m, m');
  }

  lemma PolynomialCancels()
    ensures Feed(Zeros(16), [true] + Polynomial()) == Zeros(16)
  {
    var zero, p := Zeros(16), Polynomial();
    assert ([true] + p)[1..] == p && Shift(Mix(zero, true)) == p;
    Absorb(p, p);
    assert Padded(p) == p;
    XorZero(p, p);
    ShiftsZero(16);
  }

  /** Sixteen is the most: this burst of seventeen bits goes unnoticed wherever it strikes. */
  lemma SeventeenUndetected(m: seq<Byte>, m': seq<Byte>, k: nat, n: nat)
    requires |m| == |m'| && Checks(m)
    requires Xor(Bits(m), Bits(m')) == Zeros(k) + ([true] + Polynomial()) + Zeros(n)
    ensures Checks(m')
  {
    hide Bits;
    var zero, burst := Zeros(16), [true] + Polynomial();
    FeedAppend(zero, Zeros(k) + burst, Zeros(n));
    FeedAppend(zero, Zeros(k), burst);
    FeedZeros(zero, k);
    ShiftsZero(k);
    PolynomialCancels();
    FeedZeros(zero, n);
    ShiftsZero(n);
    ErrorsAlone(m, m');
  }

  /** The number of wrong bits. */
  function Weight(e: seq<bool>): nat {
    if e == [] then 0 else (if e[0] then 1 else 0) + Weight(e[1..])
  }

  lemma {:induction false} ParityXor(a: Word, b: Word)
    requires |a| == |b|
    ensures Parity(Xor(a, b)) == (Parity(a) != Parity(b))
  {
    if a != [] {
      assert Xor(a, b)[1..] == Xor(a[1..], b[1..]);
      ParityXor(a[1..], b[1..]);
    }
  }

  lemma {:induction false} ParityAppend(a: Word, b: Word)
    ensures Parity(a + b) == (Parity(a) != Parity(b))
  {
    if a == [] {
      assert a + b == b;
    } else {
      assert (a + b)[1..] == a[1..] + b;
      ParityAppend(a[1..], b);
    }
  }

  lemma {:induction false} ParityZeros(n: nat)
    ensures !Parity(Zeros(n))
  {
    if n > 0 {
      assert Zeros(n)[1..] == Zeros(n - 1);
      ParityZeros(n - 1);
    }
  }

  lemma ParityPolynomial()
    ensures Parity(Polynomial())
  {
    ParityZeros(12);
    ParityAppend([true] + Zeros(12), [true, false, true]);
    ParityAppend([true], Zeros(12));
    assert [true, false, true][1..] == [false, true] && [false, true][1..] == [true];
  }

  /** The polynomial has an odd number of terms, so a turn of the register keeps its parity. */
  lemma ShiftParity(r: Register, b: bool)
    ensures Parity(Shift(Mix(r, b))) == (Parity(r) != b)
  {
    var x := Mix(r, b);
    ParityXor(x[1..] + [false], if x[0] then Polynomial() else Zeros(16));
    ParityAppend(x[1..], [false]);
    ParityPolynomial();
    ParityZeros(16);
    assert x[1..] == r[1..];
  }

  lemma {:induction false} FeedParity(r: Register, e: seq<bool>)
    ensures Parity(Feed(r, e)) == (Parity(r) != (Weight(e) % 2 == 1))
    decreases |e|
  {
    if e != [] {
      ShiftParity(r, e[0]);
      FeedParity(Shift(Mix(r, e[0])), e[1..]);
    }
  }

  /** However long the message, an odd number of wrong bits is detected. */
  lemma OddDetected(m: seq<Byte>, m': seq<Byte>)
    requires |m| == |m'| && Checks(m)
    requires Weight(Xor(Bits(m), Bits(m'))) % 2 == 1
    ensures !Checks(m')
  {
    FeedParity(Zeros(16), Xor(Bits(m), Bits(m')));
    ParityZeros(16);
    ErrorsAlone(m, m');
  }
}
