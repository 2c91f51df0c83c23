/**
 The CRC of USB token packets: five bits over eleven. The calculation keeps its
 register in the top bits of the word it shifts out; the check uses the
 register the other way round.
 */
module Crc5 {
  import opened Words
  import opened Crc16

  /** One turn of the register, lowest bit first, for one bit of the message. */
  function Turn(t: Word, d: bool): (t': Word)
    requires |t| == 5
    ensures |t'| == 5
  {
    var b := t[0] != d;
    [t[1], t[2], t[3] != b, t[4], b]
  }

  function Turns(t: Word, bits: seq<bool>): (t': Word)
    requires |t| == 5
    ensures |t'| == 5
    decreases |bits|
  {
    if bits == [] then t else Turn(Turns(t, bits[..|bits| - 1]), bits[|bits| - 1])
  }

  /** The five bits that follow eleven bits of payload. */
  function TokenCrc(payload: seq<bool>): (c: Word)
    ensures |c| == 5
  {
    Not(Turns(Ones(5), payload))
  }

  /** What a receiver accepts: 0x0C, read from the top. */
  predicate Accepts(token: seq<bool>) {
    Turns(Ones(5), token) == [false, true, true, false, false]
  }

  lemma OneTurn(t: Word, bits: seq<bool>, d: bool)
    requires |t| == 5
    ensures Turns(t, bits + [d]) == Turn(Turns(t, bits), d)
  {
    assert (bits + [d])[..|bits|] == bits;
  }

  lemma LastFive(t: Word, c: Word)
    requires |t| == |c| == 5
    ensures Turn(Turn(Turn(Turn(Turn(t, c[0]), c[1]), c[2]), c[3]), c[4]) == [false, true, true, false, false]
       <==> c == Not(t)
  {
  }

  /** A token passes exactly when its last five bits are the CRC of the others. */
  lemma TokenResidue(payload: seq<bool>, c: Word)
    requires |c| == 5
    ensures Accepts(payload + c) <==> c == TokenCrc(payload)
  {
    hide Turn, Turns, Ones, Not;
    var ones := Ones(5);
    var p1, p2 := payload + [c[0]], payload + [c[0], c[1]];
    var p3, p4 := payload + [c[0], c[1], c[2]], payload + [c[0], c[1], c[2], c[3]];
    assert p2 == p1 + [c[1]] && p3 == p2 + [c[2]] && p4 == p3 + [c[3]] && payload + c == p4 + [c[4]];
    OneTurn(ones, payload, c[0]);
    OneTurn(ones, p1, c[1]);
    OneTurn(ones, p2, c[2]);
    OneTurn(ones, p3, c[3]);
    OneTurn(ones, p4, c[4]);
    LastFive(Turns(ones, payload), c);
  }

  /** One turn of the calculation's word: its register is in the top five bits. */
  function TurnWord(crc: Word): (crc': Word)
    requires |crc| == 16
    ensures |crc'| == 16
  {
    Xor(crc[1..] + [false], Zeros(13) + [crc[11] != crc[0], false, crc[11] != crc[0]])
  }

  lemma TurnsTop(crc: Word)
    requires |crc| == 16
    ensures TurnWord(crc)[11..] == Turn(crc[11..], crc[0])
    ensures forall j :: 0 <= j <= 10 ==> TurnWord(crc)[..j] == crc[1..j + 1]
  {
  }

  method Calc5(dat: Word) returns (token: Word)
    requires |dat| == 16
    ensures token == dat[..11] + TokenCrc(dat[..11])
    ensures Accepts(token)
  {
    hide Turn, TurnWord;
    var crc := dat[..11] + Ones(5);
    for j := 11 downto 0
      invariant |crc| == 16
      invariant crc[..j] == dat[11 - j..11]
      invariant crc[11..] == Turns(Ones(5), dat[..11 - j])
    {
      assert crc[..j + 1][0] == dat[10 - j];
      assert dat[..11 - j] == dat[..10 - j] + [dat[10 - j]];
      OneTurn(Ones(5), dat[..10 - j], dat[10 - j]);
      TurnsTop(crc);
      assert crc[1..j + 1] == crc[..j + 1][1..];
      crc := TurnWord(crc);
    }
    token := dat[..11] + Not(crc[11..]);
    TokenResidue(dat[..11], Not(crc[11..]));
  }

  /** The low five bits of the check's register are the other register, reversed. */
  predicate Mirrors(crc: Word, t: Word) {
    |crc| == 8 && |t| == 5 && forall i :: 0 <= i < 5 ==> crc[i] == t[4 - i]
  }

  /** One turn of the check's register: left shift, and the polynomial 5. */
  function TurnLeft(crc: Word, d: bool): (crc': Word)
    requires |crc| == 8
    ensures |crc'| == 8
  {
    var b := d != crc[4];
    Xor([false] + crc[..7], [b, false, b] + Zeros(5))
  }

  lemma MirroredTurn(crc: Word, t: Word, d: bool)
    requires Mirrors(crc, t)
    ensures Mirrors(TurnLeft(crc, d), Turn(t, d))
  {
  }

  method Check5(dat: Word) returns (ok: bool)
    requires |dat| == 16
    ensures ok <==> Accepts(dat)
  {
    hide Turn, TurnLeft;
    var crc := Ones(5) + Zeros(3);
    for j := 0 to 16
      invariant |crc| == 8 && Mirrors(crc, Turns(Ones(5), dat[..j]))
    {
      assert dat[..j + 1] == dat[..j] + [dat[j]];
      OneTurn(Ones(5), dat[..j], dat[j]);
      MirroredTurn(crc, Turns(Ones(5), dat[..j]), dat[j]);
      crc := TurnLeft(crc, dat[j]);
    }
    assert dat[..16] == dat;
    ok := crc[..5] == [false, false, true, true, false];
    Reversed(crc, Turns(Ones(5), dat));
  }

  lemma Reversed(crc: Word, t: Word)
    requires Mirrors(crc, t)
    ensures crc[..5] == [false, false, true, true, false] <==> t == [false, true, true, false, false]
  {
    assert forall i :: 0 <= i < 5 ==> t[i] == crc[..5][4 - i];
    assert forall i :: 0 <= i < 5 ==> crc[..5][i] == t[4 - i];
  }
}
