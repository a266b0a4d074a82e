/** Packet number generators: one that counts, and one that leaves out a number every now and then. */
module PacketNumbers {
  import opened Common

  const SKIP_INITIAL_PERIOD := 256
  const SKIP_MAX_PERIOD := 128 * 1024
  const MAX_INT32 := 0x7FFF_FFFF

  datatype Generator =
    | Sequential(next: nat)
    | Skipping(next: nat, nextToSkip: nat, period: nat, maxPeriod: nat)

  /** What one Pop reported. */
  datatype Popped = Popped(skipped: bool, pn: nat)

  /** The next number to skip is not behind, and the argument of Int31n is positive and fits in 32 bits. */
  predicate Valid(g: Generator) {
    g.Skipping? ==> g.next <= g.nextToSkip && 0 < g.period && 0 < g.maxPeriod && 2 * g.period <= MAX_INT32
                    && 2 * g.maxPeriod <= MAX_INT32
  }

  /** The random numbers `Int31n` may return. */
  predicate Random(g: Generator, r: nat) {
    g.Skipping? ==> r < 2 * g.period
  }

  function Peek(g: Generator): nat {
    if g.Skipping? && g.next == g.nextToSkip then g.next + 1 else g.next
  }

  function WithNewSkip(g: Generator, r: nat): Generator
    requires g.Skipping?
  {
    g.(nextToSkip := g.next + 3 + r, period := Min(2 * g.period, g.maxPeriod))
  }

  function Pop(g: Generator, r: nat): (Generator, Popped) {
    if g.Skipping? && g.next == g.nextToSkip then
      (WithNewSkip(g.(next := g.next + 2), r), Popped(true, g.next + 1))
    else
      (g.(next := g.next + 1), Popped(false, g.next))
  }

  class SequentialGenerator {
    var next: nat

    ghost function Contents(): Generator
      reads this
    {
      Sequential(next)
    }

    constructor (initial: nat)
      ensures Contents() == Sequential(initial)
    {
      next := initial;
    }

    method PeekNumber() returns (pn: nat)
      ensures pn == Peek(Contents())
    {
      return next;
    }

    method PopNumber() returns (p: Popped)
      modifies this
      ensures (Contents(), p) == Pop(old(Contents()), 0)
      ensures p.pn == Peek(old(Contents()))
    {
      p := Popped(false, next);
      next := next + 1;
    }
  }

  class SkippingGenerator {
    var period: nat
    var maxPeriod: nat
    var next: nat
    var nextToSkip: nat

    ghost function Contents(): Generator
      reads this
    {
      Skipping(next, nextToSkip, period, maxPeriod)
    }

    /** `r` is what the random number generator returns. */
    constructor (initial: nat, initialPeriod: nat, maxPeriod: nat, r: nat)
      requires 0 < initialPeriod && 2 * initialPeriod <= MAX_INT32 && 0 < maxPeriod && 2 * maxPeriod <= MAX_INT32
      requires r < 2 * initialPeriod
      ensures Contents() == WithNewSkip(Skipping(initial, initial, initialPeriod, maxPeriod), r)
      ensures Valid(Contents())
    {
      next := initial;
      nextToSkip := initial;
      period := initialPeriod;
      this.maxPeriod := maxPeriod;
      new;
      GenerateNewSkip(r);
    }

    method PeekNumber() returns (pn: nat)
      ensures pn == Peek(Contents())
    {
      if next == nextToSkip {
        return next + 1;
      }
      return next;
    }

    method PopNumber(r: nat) returns (p: Popped)
      requires Valid(Contents()) && Random(Contents(), r)
      modifies this
      ensures (Contents(), p) == Pop(old(Contents()), r)
      ensures Valid(Contents()) && p.pn == Peek(old(Contents()))
    {
      var n := next;
      if next == nextToSkip {
        n := n + 1;
        next := next + 2;
        GenerateNewSkip(r);
        return Popped(true, n);
      }
      next := next + 1;
      return Popped(false, n);
    }

    method GenerateNewSkip(r: nat)
      requires 0 < period && r < 2 * period && 2 * period <= MAX_INT32
      modifies this
      ensures Contents() == WithNewSkip(old(Contents()), r)
    {
      nextToSkip := next + 3 + r;
      period := Min(2 * period, maxPeriod);
    }
  }

  // ---------------------------------------------------------------------------------------------
  // Runs

  ghost predicate IsRun(gs: seq<Generator>, rs: seq<nat>, ps: seq<Popped>) {
    && |gs| == |rs| + 1 == |ps| + 1 && Valid(gs[0])
    && forall i :: 0 <= i < |rs| ==> Random(gs[i], rs[i]) && (gs[i + 1], ps[i]) == Pop(gs[i], rs[i])
  }

  /** The numbers an already popped prefix has left out are well below the next one that will be. */
  ghost predicate SkipsBelow(ps: seq<Popped>, g: Generator) {
    forall i :: 0 <= i < |ps| && ps[i].skipped ==> g.Skipping? && ps[i].pn + 4 <= g.nextToSkip
  }

  /**
    Every number from the first one is popped or skipped, in order; a skipped number is the one before
    the popped one; and between two skipped numbers there are at least four others.
   */
  lemma {:induction false} RunNumbers(gs: seq<Generator>, rs: seq<nat>, ps: seq<Popped>)
    requires IsRun(gs, rs, ps)
    ensures Valid(gs[|rs|]) && SkipsBelow(ps, gs[|rs|])
    ensures |ps| > 0 ==> gs[|rs|].next == ps[|ps| - 1].pn + 1
    ensures forall i :: 0 <= i < |ps| ==> ps[i].pn == Peek(gs[i])
    ensures forall i :: 0 < i < |ps| ==> ps[i].pn == ps[i - 1].pn + (if ps[i].skipped then 2 else 1)
    ensures forall i, j :: 0 <= i < j < |ps| && ps[i].skipped && ps[j].skipped ==> ps[i].pn - 1 + 5 <= ps[j].pn - 1
  {
    hide Pop, Valid, Peek, Random;
    if |rs| > 0 {
      var n := |rs| - 1;
      RunNumbers(gs[..n + 1], rs[..n], ps[..n]);
      PopFacts(gs[n], rs[n], gs[n + 1], ps[n]);
      forall i, j | 0 <= i < j < |ps| && ps[i].skipped && ps[j].skipped ensures ps[i].pn + 5 <= ps[j].pn {
        assert ps[i] == ps[..n][i] && (j < n ==> ps[j] == ps[..n][j]);
      }
    }
  }

  lemma PopFacts(g: Generator, r: nat, g': Generator, p: Popped)
    requires Valid(g) && Random(g, r) && (g', p) == Pop(g, r)
    ensures Valid(g') && p.pn == Peek(g) && g'.next == p.pn + 1
    ensures p.pn == g.next + (if p.skipped then 1 else 0)
    ensures p.skipped ==> g.Skipping? && p.pn == g.nextToSkip + 1 && g'.Skipping? && p.pn + 4 <= g'.nextToSkip
    ensures g.Skipping? ==> g'.Skipping? && g.nextToSkip <= g'.nextToSkip
  {
  }
}
