/**
  Packets are sent in the order of their numbers: with a clock that does not go back, loss detection finds
  in every reachable state what it relies on.
 */
module SendOrder {
  import opened Common
  import opened LossRecovery
  import opened PacketSpaces
  import opened SentPacketHandler
  import opened SentPacketRuns
  import H = SentPacketHistory
  import N = PacketNumbers

  /** A packet that was sent is tracked in the space of the level. */
  ghost predicate Holds(s: Spaces, l: H.Level, p: H.Packet) {
    Get(s, l).Some? && H.Tracks(Get(s, l).value.history, p) && !p.skipped
  }

  ghost predicate SentBy(s: Spaces, t: int) {
    forall l, p :: Holds(s, l, p) ==> p.sendTime <= t
  }

  ghost predicate Ordered(s: Spaces) {
    forall l :: Get(s, l).Some? ==> InSendOrder(Get(s, l).value.history)
  }

  ghost predicate Fewer(s: Spaces, s': Spaces) {
    forall l, p :: Holds(s', l, p) ==> Holds(s, l, p)
  }

  lemma FewerKeeps(s: Spaces, s': Spaces, t: int)
    requires Fewer(s, s') && Ordered(s) && SentBy(s, t)
    ensures Ordered(s') && SentBy(s', t)
  {
    hide Get, H.Tracks;
    forall l | Get(s', l).Some? ensures InSendOrder(Get(s', l).value.history) {
      var h' := Get(s', l).value.history;
      forall p, q | H.Tracks(h', p) && H.Tracks(h', q) && !p.skipped && !q.skipped && p.number < q.number
        ensures p.sendTime <= q.sendTime
      {
        assert Holds(s', l, p) && Holds(s', l, q);
        assert Holds(s, l, p) && Holds(s, l, q);
      }
    }
  }

  /** All packets of `h'` that were sent are in `h`. */
  ghost predicate Within(h: H.State, h': H.State) {
    forall p :: H.Tracks(h', p) && !p.skipped ==> H.Tracks(h, p)
  }

  lemma PutFewer(s: Spaces, level: H.Level, sp: Space)
    requires Get(s, level).Some? && Within(Get(s, level).value.history, sp.history)
    ensures Fewer(s, Put(s, level, sp))
  {
    hide H.Tracks;
    var s' := Put(s, level, sp);
    forall l, p | Holds(s', l, p) ensures Holds(s, l, p) {
      PutGet(s, level, sp, l);
    }
  }

  lemma PutGet(s: Spaces, level: H.Level, sp: Space, l: H.Level)
    requires Get(s, level).Some?
    ensures Get(Put(s, level, sp), l) == if Key(l) == Key(level) then Some(sp) else Get(s, l)
    ensures Key(l) == Key(level) ==> Get(s, l) == Get(s, level)
  {
  }

  lemma SkipWithin(h: H.State, pn: int)
    ensures Within(h, H.SkipNumber(h, pn))
  {
    var h' := H.SkipNumber(h, pn);
    forall p | H.Tracks(h', p) && !p.skipped ensures H.Tracks(h, p) {
      assert Some(p) in h.packets || Some(p) == Some(H.SkippedPacketOf(pn));
    }
  }

  lemma PopWithin(sp: Space, r: nat)
    ensures Within(sp.history, PopSpace(sp, r).history) && Within(sp.history, SkipSpace(sp, r).history)
  {
    hide H.SkipNumber, H.Tracks;
    var p := N.Pop(sp.pns, r).1;
    SkipWithin(sp.history, p.pn - 1);
    SkipWithin(PopSpace(sp, r).history, NextNumber(sp));
  }

  // ---------------------------------------------------------------------------------------------
  // All calls but sending

  lemma DetectFewer(h: State, level: H.Level, now: nat, lossDelay: nat)
    requires SpacesOk(h.spaces) && Get(h.spaces, level).Some? && lossDelay > 0
    ensures Fewer(h.spaces, DetectState(h, level, now, lossDelay).spaces)
  {
    hide Get, Put, SpacesOk, H.Sum, Total, LoseAll, H.Tracks, SpaceOk, LostPackets, H.Valid, Fewer;
    var sp := Get(h.spaces, level).value;
    GetPut(h.spaces, level, sp, LENGTH);
    LossSpaceOk(sp, now, lossDelay, LENGTH);
    SpaceHistoryOk(sp);
    LoseAllFacts(sp.history, LostPackets(sp, now, lossDelay), LENGTH);
    PutFewer(h.spaces, level, LossSpace(sp, now, lossDelay));
  }

  lemma SpaceHistoryOk(sp: Space)
    requires SpaceOk(sp)
    ensures H.Valid(sp.history)
  {
  }

  lemma RemovedFewer(h: State, acked: seq<H.Packet>, level: H.Level, largestAcked: int)
    requires SpacesOk(h.spaces) && Get(h.spaces, level).Some? && From(Get(h.spaces, level).value.history, acked)
    ensures Fewer(h.spaces, RemovedState(h, acked, level, largestAcked).spaces)
  {
    hide Get, Put, SpacesOk, H.Sum, Total, RemoveAll, H.Tracks, SpaceOk, H.Valid, From, Fewer;
    var sp := Get(h.spaces, level).value;
    GetPut(h.spaces, level, sp, LENGTH);
    LengthZeroOnSkipped();
    SpaceHistoryOk(sp);
    RemoveAllFacts(sp.history, acked, LENGTH);
    PutFewer(h.spaces, level, AckedSpace(sp, acked, largestAcked));
  }

  lemma AckFewer(h: State, rs: seq<AckRange>, level: H.Level, c: Clock, c': Clock, lossDelay: nat)
    requires Inv(h) && Get(h.spaces, level).Some? && rs != [] && lossDelay > 0
    ensures Fewer(h.spaces, AckState(h, rs, level, c, c', lossDelay).spaces)
  {
    hide SpacesOk, Tracked, TimerValue, Get, Put, RemovedState, DetectState, NewlyAcked, From, Total, AlarmOk, Holds;
    ValidatingKeeps(h, level, c);
    var h1 := ValidatingState(h, level, c);
    var acked := NewlyAcked(h1, rs, level);
    if acked != [] {
      NewlyAckedFrom(h1, rs, level);
      RemovedKeeps(h1, acked, level, rs[0].largest);
      RemovedFewer(h1, acked, level, rs[0].largest);
      RemovedHas(h1, acked, level, rs[0].largest);
      DetectFewer(RemovedState(h1, acked, level, rs[0].largest), level, c.now, lossDelay);
    }
  }

  lemma TimeoutFewer(h: State, c: Clock, c': Clock, lossDelay: nat, r: nat)
    requires Inv(h) && !TimeoutBug(h, c) && SpacesPresent(h.spaces) && lossDelay > 0
    ensures Fewer(h.spaces, TimeoutState(h, c, c', lossDelay, r).spaces)
  {
    hide SpacesOk, Get, Put, TimerValue, TimeoutBug, PTOTimeAndSpace, LossTimeAndSpace, DetectState, SkipSpace, Holds,
         Within;
    var (lossTime, level) := LossTimeAndSpace(h.spaces);
    DetectFewer(h, level, c.now, lossDelay);
    PopWithin(h.spaces.app, r);
    SkipFewer(h.spaces, r);
  }

  lemma SkipFewer(s: Spaces, r: nat)
    ensures Fewer(s, Put(s, H.OneRTT, SkipSpace(s.app, r)))
  {
    hide H.Tracks, SkipSpace;
    PopWithin(s.app, r);
    PutFewer(s, H.OneRTT, SkipSpace(s.app, r));
  }

  lemma ProbeFewer(h: State, level: H.Level)
    requires SpacesOk(h.spaces) && Get(h.spaces, level).Some?
    ensures Fewer(h.spaces, ProbeState(h, level).spaces)
  {
    hide Get, Put, SpacesOk, H.Tracks, SpaceOk, LoseOne, FirstOutstanding, Holds;
    var sp := Get(h.spaces, level).value;
    FirstOutstandingTracked(sp.history);
    var p := FirstOutstanding(sp.history.packets);
    if p.Some? {
      GetPut(h.spaces, level, sp, LENGTH);
      SpaceHistoryOk(sp);
      forall q | H.Tracks(LoseOne(sp.history, p.value.number), q) ensures H.Tracks(sp.history, q) {
        LoseOneTracks(sp.history, p.value, q);
      }
      PutFewer(h.spaces, level, ProbedSpace(sp, p.value));
    }
  }

  lemma DropFewer(s: Spaces, level: H.Level)
    requires SpacesOk(s)
    ensures Fewer(s, DropSpaces(s, level))
  {
    hide H.Tracks, RemoveAll, Select, Leading, H.Sum, Total;
    if !level.Initial? && !level.Handshake? {
      var k := Leading(s.app.history.packets);
      SelectFrom(s.app.history, k, EVERYTHING);
      LengthZeroOnSkipped();
      RemoveAllFacts(s.app.history, DroppedPackets(s, level), LENGTH);
    }
  }

  lemma RetryFewer(s: Spaces, r: nat)
    requires s.initial.Some?
    ensures Fewer(s, RetrySpaces(s, r))
  {
  }

  lemma StepFewer(h: State, e: Event)
    requires Inv(h) && Enabled(h, e) && !e.Send?
    ensures Fewer(h.spaces, Next(h, e).spaces)
  {
    hide AckState, TimeoutState, ProbeState, DropSpaces, RetrySpaces, Get, TimeoutBug, AckError, SpacesPresent,
         TimerValue, SpacesOk, AlarmOk, Holds, Tracked, DroppedPackets, Total, RetryLost;
    match e {
      case Ack(rs, level, c, c', lossDelay) => AckFewer(h, rs, level, c, c', lossDelay);
      case Timeout(c, c', lossDelay, r) =>
        TimeoutIsSafe(h, c);
        TimeoutFewer(h, c, c', lossDelay, r);
      case Probe(level) => ProbeFewer(h, level);
      case Drop(level, c) => DropFewer(h.spaces, level);
      case Retry(r) => RetryFewer(h.spaces, r);
      case _ =>
    }
  }

  // ---------------------------------------------------------------------------------------------
  // Sending

  /** A packet sent at `t`, with the next number, is the last one. */
  lemma AppendOrdered(h: H.State, pn: int, x: Outgoing, t: int)
    requires H.Valid(h) && H.Sequential(h, pn) && InSendOrder(h) && x.time == t
    requires forall p :: H.Tracks(h, p) && !p.skipped ==> p.sendTime <= t
    ensures var h' := H.SendAckEliciting(h, PacketOf(pn, x));
            InSendOrder(h') && forall p :: H.Tracks(h', p) && !p.skipped ==> p.sendTime <= t
  {
    var h' := H.SendAckEliciting(h, PacketOf(pn, x));
    var added := PacketOf(pn, x);
    forall p ensures H.Tracks(h', p) <==> H.Tracks(h, p) || p == added {
      assert Some(p) in h'.packets <==> Some(p) in h.packets || Some(p) == Some(added);
    }
    forall p | H.Tracks(h, p) ensures p.number < pn {
      var i := TrackedAt(h, p);
    }
  }

  lemma NonElicitingWithin(h: H.State, pn: int)
    ensures Within(h, H.SendNonAckEliciting(h, pn))
  {
  }

  lemma WithinOrdered(h: H.State, h': H.State, t: int)
    requires Within(h, h') && InSendOrder(h) && forall p :: H.Tracks(h, p) && !p.skipped ==> p.sendTime <= t
    ensures InSendOrder(h') && forall p :: H.Tracks(h', p) && !p.skipped ==> p.sendTime <= t
  {
    hide H.Tracks;
  }

  lemma SendSpaceOrdered(sp: Space, x: Outgoing, r: nat)
    requires SpaceOk(sp) && Aligned(sp) && N.Random(sp.pns, r) && 0 < x.time && InSendOrder(sp.history)
    requires forall p :: H.Tracks(sp.history, p) && !p.skipped ==> p.sendTime <= x.time
    ensures var h' := SentSpace(PopSpace(sp, r), NextNumber(sp), x).history;
            InSendOrder(h') && forall p :: H.Tracks(h', p) && !p.skipped ==> p.sendTime <= x.time
  {
    hide H.Tracks, SpaceOk, Aligned, N.Random, H.Sum, InSendOrder, PopSpace, H.SendAckEliciting, H.SendNonAckEliciting,
         PacketOf;
    LengthZeroOnSkipped();
    var sp1 := PopSpace(sp, r);
    PopSpaceOk(sp, r, LENGTH);
    SpaceHistoryOk(sp1);
    PopWithin(sp, r);
    WithinOrdered(sp.history, sp1.history, x.time);
    if x.frames == [] {
      NonElicitingWithin(sp1.history, NextNumber(sp));
      WithinOrdered(sp1.history, H.SendNonAckEliciting(sp1.history, NextNumber(sp)), x.time);
    } else {
      AppendOrdered(sp1.history, NextNumber(sp), x, x.time);
    }
  }

  lemma SendOrdered(h: State, x: Outgoing, c: Clock, r: nat)
    requires Inv(h) && Get(h.spaces, x.level).Some? && N.Random(Get(h.spaces, x.level).value.pns, r) && 0 < x.time
    requires Ordered(h.spaces) && SentBy(h.spaces, x.time)
    ensures Ordered(SendState(h, x, c, r).spaces) && SentBy(SendState(h, x, c, r).spaces, x.time)
  {
    hide SpaceOk, Aligned, SpacesOk, Tracked, Get, Put, TimerValue, PopSpace, SentSpace, H.Sum, N.Random, H.Tracks,
         InSendOrder, AlarmOk;
    var sp := Get(h.spaces, x.level).value;
    var sp1 := PopSpace(sp, r);
    var sp2 := SentSpace(sp1, NextNumber(sp), x);
    GetPut(h.spaces, x.level, sp1, LENGTH);
    GetPut(h.spaces, x.level, sp2, LENGTH);
    forall p | H.Tracks(sp.history, p) && !p.skipped ensures p.sendTime <= x.time {
      assert Holds(h.spaces, x.level, p);
    }
    SendSpaceOrdered(sp, x, r);
    var s' := SendState(h, x, c, r).spaces;
    forall l ensures Get(s', l).Some? ==> InSendOrder(Get(s', l).value.history) {
      PutGet(h.spaces, x.level, sp2, l);
    }
    forall l, p | Holds(s', l, p) ensures p.sendTime <= x.time {
      PutGet(h.spaces, x.level, sp2, l);
      assert Key(l) != Key(x.level) ==> Holds(h.spaces, l, p);
    }
  }

  // ---------------------------------------------------------------------------------------------

  ghost predicate TimesInOrder(es: seq<Event>) {
    forall i, j :: 0 <= i < j < |es| && es[i].Send? && es[j].Send? ==> es[i].x.time <= es[j].x.time
  }

  ghost predicate SendsBy(es: seq<Event>, t: int) {
    forall i :: 0 <= i < |es| && es[i].Send? ==> es[i].x.time <= t
  }

  /** If time does not go back from one packet to the next, the histories are in the order of sending. */
  lemma {:induction false} RunOrdered(hs: seq<State>, es: seq<Event>, t: int)
    requires IsRun(hs, es) && TimesInOrder(es) && SendsBy(es, t)
    ensures Ordered(hs[|es|].spaces) && SentBy(hs[|es|].spaces, t)
  {
    hide Inv, Enabled, Next, Balanced, IsStart, Ordered, SentBy;
    if es == [] {
      StartOrdered(hs[0], t);
    } else {
      var n := |es| - 1;
      LengthZeroOnSkipped();
      RunKeeps(hs, es, LENGTH);
      var t' := if es[n].Send? then es[n].x.time else t;
      assert SendsBy(es[..n], t');
      RunOrdered(hs[..n + 1], es[..n], t');
      assert hs[..n + 1][n] == hs[n];
      StepOrdered(hs[n], es[n], t');
      LaterToo(hs[n + 1].spaces, t', t);
    }
  }

  lemma LaterToo(s: Spaces, t: int, t': int)
    requires SentBy(s, t) && t <= t'
    ensures SentBy(s, t')
  {
  }

  lemma StartOrdered(h: State, t: int)
    requires IsStart(h)
    ensures Ordered(h.spaces) && SentBy(h.spaces, t)
  {
  }

  lemma StepOrdered(h: State, e: Event, t: int)
    requires Inv(h) && Enabled(h, e) && Ordered(h.spaces) && SentBy(h.spaces, t) && (e.Send? ==> e.x.time == t)
    ensures Ordered(Next(h, e).spaces) && SentBy(Next(h, e).spaces, t)
  {
    hide Inv, Ordered, SentBy, SendState, AckState, TimeoutState, ProbeState, DropState, RetryState, Fewer;
    if e.Send? {
      SendOrdered(h, e.x, e.c, e.r);
    } else {
      StepFewer(h, e);
      FewerKeeps(h.spaces, Next(h, e).spaces, t);
    }
  }

  /**
    Loss detection in any reachable state, with a clock that does not go back: exactly the packets beyond a
    threshold are lost, and the timer is for the packet that was sent first among those that remain.
   */
  lemma LossesInRuns(hs: seq<State>, es: seq<Event>, level: H.Level, now: nat, lossDelay: nat, r: LossOutcome)
    requires IsRun(hs, es) && TimesInOrder(es) && 0 < lossDelay < now
    requires var s := hs[|es|].spaces;
             && Get(s, level).Some?
             && var sp := Get(s, level).value;
                Detecting(sp.history, hs[|es|].bytesInFlight, sp.largestAcked, now, lossDelay, |sp.history.packets|, r)
    ensures var sp := Get(hs[|es|].spaces, level).value;
            && (forall q :: H.Tracks(r.history, q) <==>
                  H.Tracks(sp.history, q) && !Losing(q, sp.largestAcked, now, lossDelay))
            && (r.lossTime == 0 <==> forall q :: H.Tracks(r.history, q) ==> sp.largestAcked < q.number)
            && (r.lossTime != 0 ==>
                  exists p :: && IsWaiting(r.history, p, sp.largestAcked, now, lossDelay)
                              && r.lossTime == p.sendTime + lossDelay
                              && forall q :: H.Tracks(r.history, q) && q.number <= sp.largestAcked ==>
                                p.sendTime <= q.sendTime)
  {
    hide IsRun, Detecting, H.Tracks, InSendOrder, AlarmOk, ModesOk, Tracked, SpaceOk, Aligned;
    LengthZeroOnSkipped();
    RunKeeps(hs, es, LENGTH);
    RunLength(hs, es);
    LatestTime(es);
    var t :| SendsBy(es, t);
    RunOrdered(hs, es, t);
    var sp := Get(hs[|es|].spaces, level).value;
    assert Inv(hs[|es|]);
    GetPut(hs[|es|].spaces, level, sp, LENGTH);
    SpacePacketsOk(sp);
    LostExactly(sp.history, hs[|es|].bytesInFlight, sp.largestAcked, now, lossDelay, r);
  }

  lemma SpacePacketsOk(sp: Space)
    requires SpaceOk(sp)
    ensures H.Valid(sp.history) && PacketsOk(sp.history.packets)
  {
  }

  lemma {:induction false} LatestTime(es: seq<Event>)
    ensures exists t :: SendsBy(es, t)
  {
    if es == [] {
      assert SendsBy(es, 0);
    } else {
      var n := |es| - 1;
      LatestTime(es[..n]);
      var t :| SendsBy(es[..n], t);
      var t' := if es[n].Send? then Max(t, es[n].x.time) else t;
      forall i | 0 <= i < |es| && es[i].Send? ensures es[i].x.time <= t' {
        assert i < n ==> es[..n][i] == es[i];
      }
      assert SendsBy(es, t');
    }
  }
}
