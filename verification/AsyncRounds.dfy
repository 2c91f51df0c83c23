/**
 Progress on two clocks that tick as they like: if each edge of the clock that
 is waited for brings a goal nearer, and no other edge does harm, then the goal
 is reached once both clocks have ticked often enough.
 */
module AsyncRounds {
  import opened Streams
  import opened AsyncFifo
  import W = FifoWrite

  /**
   What is to be reached, how far away it is, whether the read clock is waited
   for (otherwise the write clock), and what holds at the pins meanwhile.
   */
  datatype Goal = Goal(reached: Fifo -> bool, distance: Fifo -> nat, reader: Fifo -> bool, pins: Tick -> bool)

  predicate Forward(g: Goal, f: Fifo, t: Tick) { if g.reader(f) then t.mEdge else t.sEdge }

  ghost predicate Pursues(c: Config, g: Goal, f: Fifo, t: Tick) {
    Inv(c, f) && !g.reached(f) && g.pins(t)
  }

  ghost predicate Nearer(c: Config, g: Goal, f: Fifo, t: Tick)
    requires Sound(c, f)
  {
    var f' := Step(c, f, t);
    || g.reached(f')
    || (g.distance(f') + W.Count(Forward(g, f, t)) <= g.distance(f)
        && (Forward(g, f, t) || g.reader(f') == g.reader(f)))
  }

  ghost predicate Approaches(c: Config, g: Goal) {
    forall f, t :: Pursues(c, g, f, t) ==> Sound(c, f) && Nearer(c, g, f, t)
  }

  /** Some edges of each clock. */
  predicate Round(g: Goal, ts: seq<Tick>) {
    && (forall t :: t in ts ==> g.pins(t))
    && (exists t :: t in ts && t.sEdge)
    && (exists t :: t in ts && t.mEdge)
  }

  lemma ExecuteOne(c: Config, ins: seq<Tick>, t: Tick)
    requires c.Valid()
    ensures Execute(c, ins + [t]) == Step(c, Execute(c, ins), t)
  {
    assert (ins + [t])[..|ins|] == ins;
  }

  predicate SomeForward(g: Goal, f: Fifo, ts: seq<Tick>) { exists t :: t in ts && Forward(g, f, t) }

  lemma {:induction false} Edges(c: Config, g: Goal, ins: seq<Tick>, ts: seq<Tick>) returns (k: nat)
    requires c.Valid() && Approaches(c, g) && forall t :: t in ts ==> g.pins(t)
    ensures k <= |ts|
    ensures var f, f' := Execute(c, ins), Execute(c, ins + ts);
      g.reached(Execute(c, ins + ts[..k])) || g.distance(f') + W.Count(SomeForward(g, f, ts)) <= g.distance(f)
    decreases |ts|
  {
    hide Step, Execute, Inv, Forward;
    var f := Execute(c, ins);
    k := 0;
    assert ins + ts[..0] == ins;
    if ts == [] {
      assert ins + ts == ins;
    } else if !g.reached(f) {
      assert ts[0] in ts;
      assert Pursues(c, g, f, ts[0]);
      ExecuteOne(c, ins, ts[0]);
      Later(g, f, Execute(c, ins + [ts[0]]), ts);
      k := Edges(c, g, ins + [ts[0]], ts[1..]);
      k := k + 1;
      Moved(ins, ts, k);
      if g.reached(Execute(c, ins + [ts[0]])) {
        assert ts[..1] == [ts[0]];
        k := 1;
      }
    }
  }

  lemma Moved(ins: seq<Tick>, ts: seq<Tick>, k: nat)
    requires 0 < k <= |ts|
    ensures ins + [ts[0]] + ts[1..] == ins + ts
    ensures ins + [ts[0]] + ts[1..][..k - 1] == ins + ts[..k]
  {
  }

  lemma Later(g: Goal, f: Fifo, f': Fifo, ts: seq<Tick>)
    requires ts != []
    ensures (Forward(g, f, ts[0]) || g.reader(f') == g.reader(f)) && SomeForward(g, f, ts) ==>
      Forward(g, f, ts[0]) || SomeForward(g, f', ts[1..])
  {
    if g.reader(f') == g.reader(f) && SomeForward(g, f, ts) && !Forward(g, f, ts[0]) {
      var t :| t in ts && Forward(g, f, t);
      assert t in ts[1..] && Forward(g, f', t);
    }
  }

  lemma {:induction false} Rounds(c: Config, g: Goal, ins: seq<Tick>, rounds: seq<seq<Tick>>) returns (k: nat)
    requires c.Valid() && Approaches(c, g) && forall ts :: ts in rounds ==> Round(g, ts)
    ensures k <= |Concat(rounds)|
    ensures g.reached(Execute(c, ins + Concat(rounds)[..k]))
         || g.distance(Execute(c, ins + Concat(rounds))) + |rounds| <= g.distance(Execute(c, ins))
  {
    hide Execute, SomeForward, Step, Approaches;
    k := 0;
    if rounds == [] {
      assert ins + Concat(rounds) == ins;
    } else {
      var front, ts := rounds[..|rounds| - 1], rounds[|rounds| - 1];
      var all := Concat(front);
      k := Rounds(c, g, ins, front);
      assert Concat(rounds)[..k] == all[..k];
      if !g.reached(Execute(c, ins + all[..k])) {
        assert ts in rounds;
        SomeEdge(g, Execute(c, ins + all), ts);
        k := Edges(c, g, ins + all, ts);
        Joined(ins, all, ts, k);
        k := |all| + k;
      }
    }
  }

  lemma Joined(ins: seq<Tick>, all: seq<Tick>, ts: seq<Tick>, k: nat)
    requires k <= |ts|
    ensures ins + (all + ts) == ins + all + ts
    ensures ins + (all + ts)[..|all| + k] == ins + all + ts[..k]
  {
  }

  lemma SomeEdge(g: Goal, f: Fifo, ts: seq<Tick>)
    requires Round(g, ts)
    ensures SomeForward(g, f, ts)
  {
  }
}
