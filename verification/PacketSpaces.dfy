/** One packet number space of the sent packet handler: the history, the number generator and the timers. */
module PacketSpaces {
  import opened Common
  import opened LossRecovery
  import H = SentPacketHistory
  import N = PacketNumbers

  /** Times are numbers, with 0 for the zero time. */
  datatype Space = Space(
    history: H.State,
    pns: N.Generator,
    lossTime: int,
    lastAckElicitingTime: int,
    largestAcked: int,
    largestSent: int)

  /** A packet that goes out: it is ack-eliciting if it has frames. */
  datatype Outgoing = Outgoing(
    level: H.Level,
    time: int,
    frames: seq<nat>,
    largestAcked: int,
    size: nat,
    isPathMTUProbe: bool)

  function NewSpace(pns: N.Generator): Space {
    Space(H.EMPTY, pns, 0, 0, H.INVALID_PACKET_NUMBER, H.INVALID_PACKET_NUMBER)
  }

  ghost predicate OnlySkipped(h: H.State) {
    forall p :: H.Tracks(h, p) ==> p.skipped
  }

  ghost predicate SpaceOk(sp: Space) {
    && H.Valid(sp.history) && PacketsOk(sp.history.packets) && N.Valid(sp.pns)
    && 0 <= sp.lossTime && 0 <= sp.lastAckElicitingTime
    && (sp.lastAckElicitingTime == 0 ==> OnlySkipped(sp.history))
  }

  /** The generator goes on where the history ends. */
  predicate Aligned(sp: Space) {
    sp.history.highest == H.INVALID_PACKET_NUMBER || sp.history.highest + 1 == sp.pns.next
  }

  // ---------------------------------------------------------------------------------------------
  // The operations

  function PopHistory(h: H.State, p: N.Popped): H.State {
    if p.skipped then H.SkipNumber(h, p.pn - 1) else h
  }

  function PopSpace(sp: Space, r: nat): Space {
    var (g, p) := N.Pop(sp.pns, r);
    sp.(pns := g, history := PopHistory(sp.history, p))
  }

  function NextNumber(sp: Space): nat {
    N.Peek(sp.pns)
  }

  function PacketOf(pn: int, x: Outgoing): H.Packet {
    H.Packet(pn, x.time, x.frames, x.largestAcked, x.size, x.level, x.isPathMTUProbe, true, false)
  }

  function SentSpace(sp: Space, pn: int, x: Outgoing): Space {
    if x.frames == [] then
      sp.(largestSent := pn, history := H.SendNonAckEliciting(sp.history, pn))
    else
      sp.(largestSent := pn, lastAckElicitingTime := x.time, history := H.SendAckEliciting(sp.history, PacketOf(pn, x)))
  }

  /** A number is popped and not used. */
  function SkipSpace(sp: Space, r: nat): Space {
    var sp1 := PopSpace(sp, r);
    sp1.(history := H.SkipNumber(sp1.history, NextNumber(sp)))
  }

  function AckedSpace(sp: Space, acked: seq<H.Packet>, largestAcked: int): Space {
    sp.(history := RemoveAll(sp.history, acked), largestAcked := Max(sp.largestAcked, largestAcked))
  }

  function LostPackets(sp: Space, now: nat, lossDelay: nat): seq<H.Packet> {
    LosingPackets(sp.history.packets, sp.largestAcked, now, lossDelay)
  }

  function LossSpace(sp: Space, now: nat, lossDelay: nat): Space {
    sp.(history := LoseAll(sp.history, LostPackets(sp, now, lossDelay)),
        lossTime := LossTime(sp.history.packets, sp.largestAcked, now, lossDelay))
  }

  function ProbedSpace(sp: Space, p: H.Packet): Space {
    sp.(history := LoseOne(sp.history, p.number))
  }

  // ---------------------------------------------------------------------------------------------
  // What they keep

  /** A history with fewer packets is as good. */
  lemma FewerPackets(sp: Space, sp': Space)
    requires SpaceOk(sp) && H.Valid(sp'.history) && sp'.pns == sp.pns
    requires sp'.lastAckElicitingTime == sp.lastAckElicitingTime && 0 <= sp'.lossTime
    requires forall q :: H.Tracks(sp'.history, q) ==> H.Tracks(sp.history, q)
    ensures SpaceOk(sp')
  {
    hide H.Valid;
    var s' := sp'.history.packets;
    forall i | 0 <= i < |s'| && s'[i].Some? ensures PacketOk(s'[i].value) {
      assert H.Tracks(sp'.history, s'[i].value);
    }
  }

  lemma NewSpaceOk(g: N.Generator)
    requires N.Valid(g)
    ensures SpaceOk(NewSpace(g)) && Aligned(NewSpace(g))
  {
  }

  /** A slot is added. */
  lemma GrownOk(sp: Space, sp': Space, x: Option<H.Packet>)
    requires SpaceOk(sp) && H.Valid(sp'.history) && N.Valid(sp'.pns) && sp'.lossTime == sp.lossTime
    requires 0 <= sp'.lastAckElicitingTime
    requires sp'.history.packets == sp.history.packets + [x] || (x.None? && sp'.history.packets == sp.history.packets)
    requires x.Some? ==> PacketOk(x.value)
    requires sp'.lastAckElicitingTime == 0 ==> sp.lastAckElicitingTime == 0 && (x.Some? ==> x.value.skipped)
    ensures SpaceOk(sp')
  {
    hide H.Valid;
    var s' := sp'.history.packets;
    forall i | 0 <= i < |s'| && s'[i].Some? ensures PacketOk(s'[i].value) {
      assert i < |sp.history.packets| ==> s'[i] == sp.history.packets[i];
    }
    if sp'.lastAckElicitingTime == 0 {
      forall p | H.Tracks(sp'.history, p) ensures p.skipped {
        assert Some(p) in sp.history.packets ==> H.Tracks(sp.history, p);
      }
    }
  }

  /** Popping a number, skipped number included, keeps the history in order; the number is the one peeked. */
  lemma PopSpaceOk(sp: Space, r: nat, m: H.Packet -> nat)
    requires SpaceOk(sp) && Aligned(sp) && N.Random(sp.pns, r) && ZeroOnSkipped(m)
    ensures SpaceOk(PopSpace(sp, r))
    ensures H.Sequential(PopSpace(sp, r).history, NextNumber(sp)) && PopSpace(sp, r).pns.next == NextNumber(sp) + 1
    ensures N.Pop(sp.pns, r).1.skipped ==> H.Sequential(sp.history, NextNumber(sp) - 1) && 1 <= NextNumber(sp)
    ensures N.Pop(sp.pns, r).1.pn == NextNumber(sp) && sp.pns.next <= NextNumber(sp)
    ensures H.Sum(PopSpace(sp, r).history.packets, m) == H.Sum(sp.history.packets, m)
  {
    hide H.Valid, H.Sum;
    var (g, p) := N.Pop(sp.pns, r);
    N.PopFacts(sp.pns, r, g, p);
    if p.skipped {
      var x := H.SkippedPacketOf(p.pn - 1);
      H.AppendValid(sp.history, PopSpace(sp, r).history, Some(x), p.pn - 1);
      H.SumAppend(sp.history.packets, Some(x), m);
      GrownOk(sp, PopSpace(sp, r), Some(x));
    } else {
      GrownOk(sp, PopSpace(sp, r), None);
    }
  }

  lemma SentSpaceOk(sp: Space, pn: nat, x: Outgoing, m: H.Packet -> nat)
    requires SpaceOk(sp) && H.Sequential(sp.history, pn) && sp.pns.next == pn + 1 && 0 < x.time
    ensures SpaceOk(SentSpace(sp, pn, x)) && Aligned(SentSpace(sp, pn, x))
    ensures H.Sum(SentSpace(sp, pn, x).history.packets, m) ==
            H.Sum(sp.history.packets, m) + (if x.frames == [] then 0 else m(PacketOf(pn, x)))
  {
    hide H.Valid, H.Sum;
    var sp' := SentSpace(sp, pn, x);
    var slot := if x.frames == [] then None else Some(PacketOf(pn, x));
    H.AppendValid(sp.history, sp'.history, slot, pn);
    H.SumAppend(sp.history.packets, slot, m);
    GrownOk(sp, sp', slot);
  }

  lemma SkipSpaceOk(sp: Space, r: nat, m: H.Packet -> nat)
    requires SpaceOk(sp) && Aligned(sp) && N.Random(sp.pns, r) && ZeroOnSkipped(m)
    ensures SpaceOk(SkipSpace(sp, r)) && Aligned(SkipSpace(sp, r))
    ensures H.Sum(SkipSpace(sp, r).history.packets, m) == H.Sum(sp.history.packets, m)
  {
    hide H.Valid, H.Sum;
    PopSpaceOk(sp, r, m);
    var sp1 := PopSpace(sp, r);
    var pn := NextNumber(sp);
    var x := H.SkippedPacketOf(pn);
    H.AppendValid(sp1.history, SkipSpace(sp, r).history, Some(x), pn);
    H.SumAppend(sp1.history.packets, Some(x), m);
    GrownOk(sp1, SkipSpace(sp, r), Some(x));
  }

  lemma AckedSpaceOk(sp: Space, acked: seq<H.Packet>, largestAcked: int, m: H.Packet -> nat)
    requires SpaceOk(sp) && From(sp.history, acked) && ZeroOnSkipped(m)
    ensures SpaceOk(AckedSpace(sp, acked, largestAcked))
    ensures Aligned(sp) ==> Aligned(AckedSpace(sp, acked, largestAcked))
    ensures H.Sum(AckedSpace(sp, acked, largestAcked).history.packets, m) + Total(acked, m) ==
            H.Sum(sp.history.packets, m)
  {
    hide H.Valid, H.Sum, RemoveAll, Total;
    RemoveAllFacts(sp.history, acked, m);
    FewerPackets(sp, AckedSpace(sp, acked, largestAcked));
  }

  lemma LossSpaceOk(sp: Space, now: nat, lossDelay: nat, m: H.Packet -> nat)
    requires SpaceOk(sp) && lossDelay > 0
    ensures SpaceOk(LossSpace(sp, now, lossDelay))
    ensures Aligned(sp) ==> Aligned(LossSpace(sp, now, lossDelay))
    ensures From(sp.history, LostPackets(sp, now, lossDelay))
    ensures H.Sum(LossSpace(sp, now, lossDelay).history.packets, m) + Total(LostPackets(sp, now, lossDelay), m) ==
            H.Sum(sp.history.packets, m)
  {
    hide H.Valid, H.Sum, LoseAll, Total, Select;
    var s := sp.history.packets;
    assert s[..|s|] == s;
    SelectFrom(sp.history, |s|, Loser(sp.largestAcked, now, lossDelay));
    LoseAllFacts(sp.history, LostPackets(sp, now, lossDelay), m);
    LossTimeFirst(sp.history, sp.largestAcked, now, lossDelay);
    LossTimePositive(sp.history, sp.largestAcked, now, lossDelay);
    FewerPackets(sp, LossSpace(sp, now, lossDelay));
  }

  lemma LossTimePositive(h: H.State, largestAcked: int, now: nat, lossDelay: nat)
    requires H.Valid(h) && PacketsOk(h.packets) && lossDelay > 0
    ensures 0 <= LossTime(h.packets, largestAcked, now, lossDelay)
  {
    hide Select;
    LossTimeFirst(h, largestAcked, now, lossDelay);
    var w := WaitingPackets(h.packets, largestAcked, now, lossDelay);
    if w != [] {
      var i := TrackedAt(h, w[0]);
      assert PacketOk(h.packets[i].value);
    }
  }

  lemma ProbedSpaceOk(sp: Space, p: H.Packet, m: H.Packet -> nat)
    requires SpaceOk(sp) && H.Tracks(sp.history, p)
    ensures SpaceOk(ProbedSpace(sp, p))
    ensures Aligned(sp) ==> Aligned(ProbedSpace(sp, p))
    ensures H.Sum(ProbedSpace(sp, p).history.packets, m) + m(p) == H.Sum(sp.history.packets, m)
  {
    hide H.Valid, H.Sum, LoseOne;
    LoseOneSum(sp.history, p, m);
    forall q | H.Tracks(ProbedSpace(sp, p).history, q) ensures H.Tracks(sp.history, q) {
      LoseOneTracks(sp.history, p, q);
    }
    FewerPackets(sp, ProbedSpace(sp, p));
  }
}
