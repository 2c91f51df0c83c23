/** A circular memory as a window on the unbounded sequence of words stored in it. */
module Ring {
  import opened Words

  /** The memory holds the words of log from position lo on, each at its position modulo the depth. */
  ghost predicate Holds<T>(mem: seq<T>, lo: nat, log: seq<T>)
    requires |mem| > 0
  {
    forall i :: lo <= i < |log| ==> mem[i % |mem|] == log[i]
  }

  /** Storing below capacity overwrites nothing that is still to be read. */
  lemma HoldsStore<T>(mem: seq<T>, lo: nat, log: seq<T>, x: T)
    requires |mem| > 0 && Holds(mem, lo, log) && lo <= |log| < lo + |mem|
    ensures Holds(mem[|log| % |mem| := x], lo, log + [x])
  {
    forall i | lo <= i < |log| ensures i % |mem| != |log| % |mem| {
      AddressesDiffer(i, |log|, |mem|);
    }
  }

  /** The low bits of two wrapped pointers give their distance. */
  lemma Distance(wr: nat, rd: nat, m: nat)
    requires m > 0 && rd <= wr < rd + m
    ensures (wr % m + m - rd % m) % m == wr - rd
  {
    var b, q, d := rd % m, rd / m, wr - rd;
    assert rd == q * m + b;
    if b + d < m {
      ModUnique(wr, m, q, b + d);
      ModUnique(d + m, m, 1, d);
    } else {
      assert (q + 1) * m == q * m + m;
      ModUnique(wr, m, q + 1, b + d - m);
      ModUnique(d, m, 0, d);
    }
  }
}
