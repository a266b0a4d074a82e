/**
  What the fields of the sent packet handler mean: each is told by the calls of the run that led to it, and the
  timer, an ACK frame and a timeout do what section 6 of RFC 9002 says in terms of the packets.
 */
module HandlerHistory {
  import opened Common
  import opened LossRecovery
  import opened PacketSpaces
  import opened SentPacketHandler
  import opened SentPacketRuns
  import H = SentPacketHistory
  import N = PacketNumbers
  import O = SendOrder

  // ---------------------------------------------------------------------------------------------
  // One packet number space

  /** A Retry starts the numbers of Initial and application data afresh. */
  predicate Resets(e: Event, l: H.Level) {
    e.Retry? && !l.Handshake?
  }

  predicate SendsIn(e: Event, l: H.Level) {
    e.Send? && Key(e.x.level) == Key(l)
  }

  /** An ACK frame for this space acknowledges at least one packet that is tracked. */
  ghost predicate AcksIn(h: State, e: Event, l: H.Level) {
    && e.Ack? && Key(e.level) == Key(l) && Get(h.spaces, l).Some?
    && exists p :: H.Tracks(Get(h.spaces, l).value.history, p) && Acks(e.rs, p.number)
  }

  /** How a call changes the three fields of a space that remember something. */
  ghost predicate SpaceFollows(h: State, e: Event, h': State, l: H.Level) {
    Get(h'.spaces, l).Some? ==>
      && Get(h.spaces, l).Some?
      && var sp, sp' := Get(h.spaces, l).value, Get(h'.spaces, l).value;
         && sp'.largestSent == (if Resets(e, l) then -1 else if SendsIn(e, l) then NextNumber(sp) else sp.largestSent)
         && sp'.lastAckElicitingTime == (if Resets(e, l) then 0
                                         else if SendsIn(e, l) && e.x.frames != [] then e.x.time
                                         else sp.lastAckElicitingTime)
         && sp'.largestAcked == (if Resets(e, l) then -1
                                 else if AcksIn(h, e, l) then Max(sp.largestAcked, e.rs[0].largest)
                                 else sp.largestAcked)
  }

  ghost predicate SameFields(sp: Space, sp': Space) {
    && sp'.largestSent == sp.largestSent && sp'.largestAcked == sp.largestAcked
    && sp'.lastAckElicitingTime == sp.lastAckElicitingTime
  }

  /** The fields stay in every space that remains. */
  ghost predicate AllSame(s: Spaces, s': Spaces) {
    forall l :: Get(s', l).Some? ==> Get(s, l).Some? && SameFields(Get(s, l).value, Get(s', l).value)
  }

  lemma PutSame(s: Spaces, level: H.Level, sp: Space)
    requires Get(s, level).Some? && SameFields(Get(s, level).value, sp)
    ensures AllSame(s, Put(s, level, sp)) && Get(Put(s, level, sp), level).Some?
  {
    forall l ensures Get(Put(s, level, sp), l).Some? ==> SameFields(Get(s, l).value, Get(Put(s, level, sp), l).value) {
      O.PutGet(s, level, sp, l);
    }
  }

  lemma DetectSame(h: State, level: H.Level, now: nat, lossDelay: nat)
    requires Get(h.spaces, level).Some?
    ensures AllSame(h.spaces, DetectState(h, level, now, lossDelay).spaces)
  {
    hide Get, Put, LossTime, LostPackets, LoseAll, Total, AllSame;
    PutSame(h.spaces, level, LossSpace(Get(h.spaces, level).value, now, lossDelay));
  }

  lemma SentFields(sp: Space, x: Outgoing, r: nat)
    ensures var sp' := SentSpace(PopSpace(sp, r), NextNumber(sp), x);
            && sp'.largestSent == NextNumber(sp) && sp'.largestAcked == sp.largestAcked
            && sp'.lastAckElicitingTime == if x.frames == [] then sp.lastAckElicitingTime else x.time
  {
    hide PopHistory, N.Pop, H.SendAckEliciting, H.SendNonAckEliciting, NextNumber;
  }

  lemma SentSpaces(h: State, x: Outgoing, c: Clock, r: nat)
    requires Get(h.spaces, x.level).Some?
    ensures var sp := Get(h.spaces, x.level).value;
            SendState(h, x, c, r).spaces == Put(h.spaces, x.level, SentSpace(PopSpace(sp, r), NextNumber(sp), x))
  {
    hide TimerValue, PopSpace, SentSpace, NextNumber, Get, Put;
    GetPut(h.spaces, x.level, PopSpace(Get(h.spaces, x.level).value, r), LENGTH);
  }

  lemma SendFollows(h: State, x: Outgoing, c: Clock, r: nat, l: H.Level)
    requires Get(h.spaces, x.level).Some?
    ensures SpaceFollows(h, Send(x, c, r), SendState(h, x, c, r), l)
  {
    hide SendState, PopSpace, SentSpace, NextNumber, Get, Put;
    var sp := Get(h.spaces, x.level).value;
    SentSpaces(h, x, c, r);
    SentFields(sp, x, r);
    O.PutGet(h.spaces, x.level, SentSpace(PopSpace(sp, r), NextNumber(sp), x), l);
  }

  /** The packets that an ACK frame acknowledges are those of the space whose number is in a range. */
  lemma AckedOnes(h: State, rs: seq<AckRange>, level: H.Level, p: H.Packet)
    requires Get(h.spaces, level).Some?
    ensures p in NewlyAcked(h, rs, level) <==> H.Tracks(Get(h.spaces, level).value.history, p) && Acks(rs, p.number)
  {
    hide Get, Select, Acks;
    SelectMember(Get(h.spaces, level).value.history.packets, Acking(rs), p);
  }

  lemma AcksSome(h: State, rs: seq<AckRange>, level: H.Level)
    requires Get(h.spaces, level).Some?
    ensures NewlyAcked(h, rs, level) != [] <==>
            exists p :: H.Tracks(Get(h.spaces, level).value.history, p) && Acks(rs, p.number)
  {
    hide Get, NewlyAcked, Acks, H.Tracks;
    var acked := NewlyAcked(h, rs, level);
    if acked != [] {
      AckedOnes(h, rs, level, acked[0]);
      assert acked[0] in acked;
    }
    if p :| H.Tracks(Get(h.spaces, level).value.history, p) && Acks(rs, p.number) {
      AckedOnes(h, rs, level, p);
    }
  }

  lemma SameLevel(s: Spaces, l: H.Level, level: H.Level)
    requires Key(l) == Key(level)
    ensures Get(s, l) == Get(s, level)
  {
  }

  /** What is left of the fields after an ACK frame that acknowledges something. */
  ghost predicate AckedFields(s: Spaces, s': Spaces, level: H.Level, largest: int, l: H.Level) {
    Get(s', l).Some? ==>
      && Get(s, l).Some?
      && var sp, sp' := Get(s, l).value, Get(s', l).value;
         SameFields(if Key(l) == Key(level) then sp.(largestAcked := Max(sp.largestAcked, largest)) else sp, sp')
  }

  lemma RemovedFields(h: State, acked: seq<H.Packet>, level: H.Level, largest: int, l: H.Level)
    requires Get(h.spaces, level).Some?
    ensures AckedFields(h.spaces, RemovedState(h, acked, level, largest).spaces, level, largest, l)
  {
    hide Get, Put, LowestNotConfirmed, RemoveAll;
    O.PutGet(h.spaces, level, AckedSpace(Get(h.spaces, level).value, acked, largest), l);
  }

  lemma AckChanges(h: State, rs: seq<AckRange>, level: H.Level, c: Clock, c': Clock, lossDelay: nat, l: H.Level)
    requires Get(h.spaces, level).Some? && rs != []
    ensures var h' := AckState(h, rs, level, c, c', lossDelay);
            if NewlyAcked(h, rs, level) == [] then h'.spaces == h.spaces
            else AckedFields(h.spaces, h'.spaces, level, rs[0].largest, l)
  {
    hide TimerValue, Get, Put, NewlyAcked, DetectState, RemovedState, Total;
    var h1 := ValidatingState(h, level, c);
    SameSpaces(h, h1, rs, level);
    var acked := NewlyAcked(h1, rs, level);
    if acked != [] {
      RemovedHas(h1, acked, level, rs[0].largest);
      RemovedFields(h1, acked, level, rs[0].largest, l);
      DetectSame(RemovedState(h1, acked, level, rs[0].largest), level, c.now, lossDelay);
    }
  }

  lemma AckFollows(h: State, rs: seq<AckRange>, level: H.Level, c: Clock, c': Clock, lossDelay: nat, l: H.Level)
    requires Get(h.spaces, level).Some? && rs != []
    ensures SpaceFollows(h, Ack(rs, level, c, c', lossDelay), AckState(h, rs, level, c, c', lossDelay), l)
  {
    hide AckState, Get, NewlyAcked, Acks, H.Tracks;
    AcksSome(h, rs, level);
    if Key(l) == Key(level) {
      SameLevel(h.spaces, l, level);
    }
    AckChanges(h, rs, level, c, c', lossDelay, l);
  }

  lemma SameSpaces(h: State, h1: State, rs: seq<AckRange>, level: H.Level)
    requires h1.spaces == h.spaces && Get(h.spaces, level).Some?
    ensures NewlyAcked(h1, rs, level) == NewlyAcked(h, rs, level)
  {
  }

  lemma TimeoutFollows(h: State, c: Clock, c': Clock, lossDelay: nat, r: nat)
    requires !TimeoutBug(h, c) && SpacesPresent(h.spaces)
    ensures AllSame(h.spaces, TimeoutState(h, c, c', lossDelay, r).spaces)
  {
    hide Get, Put, TimerValue, TimeoutBug, PTOTimeAndSpace, LossTimeAndSpace, DetectState, SkipSpace, AllSame;
    var (lossTime, level) := LossTimeAndSpace(h.spaces);
    DetectSame(h, level, c.now, lossDelay);
    SkipSame(h.spaces, r);
    Unchanged(h.spaces);
  }

  lemma SkipSame(s: Spaces, r: nat)
    ensures AllSame(s, Put(s, H.OneRTT, SkipSpace(s.app, r)))
  {
    PutSame(s, H.OneRTT, SkipSpace(s.app, r));
  }

  lemma Unchanged(s: Spaces)
    ensures AllSame(s, s)
  {
  }

  lemma ProbeFollows(h: State, level: H.Level)
    requires Get(h.spaces, level).Some?
    ensures AllSame(h.spaces, ProbeState(h, level).spaces)
  {
    hide Get, Put, FirstOutstanding, LoseOne, AllSame;
    var sp := Get(h.spaces, level).value;
    var p := FirstOutstanding(sp.history.packets);
    Unchanged(h.spaces);
    if p.Some? {
      PutSame(h.spaces, level, ProbedSpace(sp, p.value));
    }
  }

  lemma DropFollows(s: Spaces, level: H.Level)
    ensures AllSame(s, DropSpaces(s, level))
  {
    hide DroppedPackets, RemoveAll;
  }

  lemma RetryFollows(h: State, r: nat, l: H.Level)
    requires h.spaces.initial.Some?
    ensures SpaceFollows(h, Retry(r), RetryState(h, r), l)
  {
    hide RetryLost;
  }

  lemma SpaceStep(h: State, e: Event, l: H.Level)
    requires Inv(h) && Enabled(h, e)
    ensures SpaceFollows(h, e, Next(h, e), l)
  {
    hide Inv, SendState, AckState, TimeoutState, ProbeState, DropSpaces, DroppedPackets, RetryState, TimerValue, Get,
         AckError, Total, TimeoutBug, SpacesPresent, AllSame;
    match e {
      case Send(x, c, r) => SendFollows(h, x, c, r, l);
      case Ack(rs, level, c, c', lossDelay) => AckFollows(h, rs, level, c, c', lossDelay, l);
      case Timeout(c, c', lossDelay, r) =>
        TimeoutIsSafe(h, c);
        TimeoutFollows(h, c, c', lossDelay, r);
        FromSame(h, e, Next(h, e), l);
      case Probe(level) =>
        ProbeFollows(h, level);
        FromSame(h, e, Next(h, e), l);
      case Drop(level, c) =>
        DropFollows(h.spaces, level);
        Unchanged(h.spaces);
        FromSame(h, e, Next(h, e), l);
      case Retry(r) => RetryFollows(h, r, l);
      case _ =>
        Unchanged(h.spaces);
        FromSame(h, e, Next(h, e), l);
    }
  }

  lemma FromSame(h: State, e: Event, h': State, l: H.Level)
    requires AllSame(h.spaces, h'.spaces) && !e.Send? && !e.Ack? && !e.Retry?
    ensures SpaceFollows(h, e, h', l)
  {
  }

  // ---------------------------------------------------------------------------------------------
  // One packet number space, over a run

  /** The number of the last packet that was sent in the space since the last Retry, or -1. */
  ghost function LastSent(hs: seq<State>, es: seq<Event>, l: H.Level): int
    requires |hs| == |es| + 1
    decreases |es|
  {
    if es == [] then -1
    else
      var n := |es| - 1;
      if Resets(es[n], l) then -1
      else if SendsIn(es[n], l) && Get(hs[n].spaces, l).Some? then NextNumber(Get(hs[n].spaces, l).value)
      else LastSent(hs[..n + 1], es[..n], l)
  }

  /** When the last packet that elicits an ACK was sent, or 0. */
  function LastTime(es: seq<Event>, l: H.Level): int {
    if es == [] then 0
    else
      var n := |es| - 1;
      if Resets(es[n], l) then 0
      else if SendsIn(es[n], l) && es[n].x.frames != [] then es[n].x.time
      else LastTime(es[..n], l)
  }

  /** The largest number in any ACK frame that has acknowledged something since the last Retry, or -1. */
  ghost function LargestInAcks(hs: seq<State>, es: seq<Event>, l: H.Level): int
    requires |hs| == |es| + 1
    decreases |es|
  {
    if es == [] then -1
    else
      var n := |es| - 1;
      var m := LargestInAcks(hs[..n + 1], es[..n], l);
      if Resets(es[n], l) then -1
      else if AcksIn(hs[n], es[n], l) && es[n].rs != [] then Max(m, es[n].rs[0].largest)
      else m
  }

  ghost predicate SpaceIs(h: State, l: H.Level, sent: int, time: int, acked: int) {
    Get(h.spaces, l).Some? ==>
      && Get(h.spaces, l).value.largestSent == sent && Get(h.spaces, l).value.lastAckElicitingTime == time
      && Get(h.spaces, l).value.largestAcked == acked
  }

  /** In every run, this is what a space remembers. */
  lemma {:induction false} RunSpaces(hs: seq<State>, es: seq<Event>, l: H.Level)
    requires IsRun(hs, es)
    ensures SpaceIs(hs[|es|], l, LastSent(hs, es, l), LastTime(es, l), LargestInAcks(hs, es, l))
    decreases |es|
  {
    hide Inv, Enabled, Next, Balanced, IsStart, SpaceFollows, SpaceIs, AcksIn;
    if es == [] {
      StartSpaces(hs[0], l);
    } else {
      var n := |es| - 1;
      LengthZeroOnSkipped();
      RunKeeps(hs, es, LENGTH);
      RunSpaces(hs[..n + 1], es[..n], l);
      assert hs[..n + 1][n] == hs[n];
      SpaceStep(hs[n], es[n], l);
      NonEmptyRanges(hs[n], es[n]);
      SpaceGoesOn(hs, es, l);
    }
  }

  lemma NonEmptyRanges(h: State, e: Event)
    requires Enabled(h, e)
    ensures e.Ack? ==> e.rs != []
    ensures e.Send? ==> Get(h.spaces, e.x.level).Some?
  {
    hide AckError;
  }

  lemma SpaceGoesOn(hs: seq<State>, es: seq<Event>, l: H.Level)
    requires |hs| == |es| + 1 && es != []
    requires var n := |es| - 1;
             && SpaceIs(hs[n], l, LastSent(hs[..n + 1], es[..n], l), LastTime(es[..n], l),
                        LargestInAcks(hs[..n + 1], es[..n], l))
             && SpaceFollows(hs[n], es[n], hs[n + 1], l)
             && (es[n].Ack? ==> es[n].rs != [])
    ensures SpaceIs(hs[|es|], l, LastSent(hs, es, l), LastTime(es, l), LargestInAcks(hs, es, l))
  {
    hide Get, Acks, H.Tracks;
  }

  lemma StartSpaces(h: State, l: H.Level)
    requires IsStart(h)
    ensures SpaceIs(h, l, -1, 0, -1)
  {
    var pn: nat, client, validated, r: nat :| RandomSkip(r) && h == Initially(pn, client, validated, r);
  }

  // ---------------------------------------------------------------------------------------------
  // The handler as a whole

  /** A server validates the address of its peer with the first Handshake packet. */
  predicate Validates(h: State, e: Event) {
    e.Received? && e.level.Handshake? && !h.client
  }

  /** A client learns that its address is validated with an ACK of a protected packet, or when it drops the keys. */
  predicate Completes(h: State, e: Event) {
    && h.client
    && (|| (e.Ack? && (e.level.Handshake? || e.level.OneRTT?) && e.rs != [] && Get(h.spaces, e.level).Some?)
        || (e.Drop? && e.level.Handshake?))
  }

  /** The bytes of a packet, if it is sent: without the space there is nothing to send it in. */
  function BytesOut(h: State, e: Event): nat {
    if e.Send? && Get(h.spaces, e.x.level).Some? then e.x.size else 0
  }

  function BytesIn(e: Event): nat {
    if e.Bytes? then e.n else 0
  }

  ghost predicate RestFollows(h: State, e: Event, h': State) {
    && h'.client == h.client
    && h'.bytesSent == h.bytesSent + BytesOut(h, e) && h'.bytesReceived == h.bytesReceived + BytesIn(e)
    && (h'.validated <==> h.validated || Validates(h, e))
    && (h'.completed <==> h.completed || Completes(h, e))
    && (h'.confirmed <==> h.confirmed || e.Confirm?)
    && (!e.Ack? ==> h'.lowestNotConfirmedAcked == h.lowestNotConfirmedAcked)
  }

  lemma SendRest(h: State, x: Outgoing, c: Clock, r: nat)
    requires Get(h.spaces, x.level).Some?
    ensures RestFollows(h, Send(x, c, r), SendState(h, x, c, r))
  {
    hide Get, Put, TimerValue, SentSpace, PopSpace, PacketOf, NextNumber;
  }

  lemma AckRest(h: State, rs: seq<AckRange>, level: H.Level, c: Clock, c': Clock, lossDelay: nat)
    requires rs != [] && Get(h.spaces, level).Some?
    ensures RestFollows(h, Ack(rs, level, c, c', lossDelay), AckState(h, rs, level, c, c', lossDelay))
  {
    hide Get, Put, TimerValue, NewlyAcked, Total, RemovedState, DetectState;
    var h1 := ValidatingState(h, level, c);
    var acked := NewlyAcked(h1, rs, level);
    if acked != [] {
      RemovedRest(h1, acked, level, rs[0].largest);
      RemovedHas(h1, acked, level, rs[0].largest);
      DetectRest(RemovedState(h1, acked, level, rs[0].largest), level, c.now, lossDelay);
    }
  }

  ghost predicate SameRest(h: State, h': State) {
    && h'.client == h.client && h'.bytesSent == h.bytesSent && h'.bytesReceived == h.bytesReceived
    && h'.validated == h.validated && h'.completed == h.completed && h'.confirmed == h.confirmed
  }

  lemma RemovedRest(h: State, acked: seq<H.Packet>, level: H.Level, largest: int)
    requires Get(h.spaces, level).Some?
    ensures SameRest(h, RemovedState(h, acked, level, largest))
  {
    hide Get, Put, LowestNotConfirmed, AckedSpace;
  }

  lemma DetectRest(h: State, level: H.Level, now: nat, lossDelay: nat)
    requires Get(h.spaces, level).Some?
    ensures SameRest(h, DetectState(h, level, now, lossDelay))
  {
    hide Get, Put, LostPackets, LossSpace, Total;
  }

  lemma TimeoutRest(h: State, c: Clock, c': Clock, lossDelay: nat, r: nat)
    requires !TimeoutBug(h, c) && SpacesPresent(h.spaces)
    ensures RestFollows(h, Timeout(c, c', lossDelay, r), TimeoutState(h, c, c', lossDelay, r))
  {
    hide Get, Put, TimerValue, Total, LostPackets, LossSpace, SkipSpace, LossTimeAndSpace, PTOTimeAndSpace, TimeoutBug;
  }

  /** What any call does to the counters and the three flags. */
  lemma RestStep(h: State, e: Event)
    ensures RestFollows(h, e, Next(h, e))
  {
    hide Get, Put, TimerValue, SendState, AckState, TimeoutState, FirstOutstanding, DroppedPackets, DropSpaces,
         RetrySpaces, RetryLost, TimeoutBug, SpacesPresent, ProbedSpace, Total;
    match e {
      case Send(x, c, r) =>
        if Get(h.spaces, x.level).Some? {
          SendRest(h, x, c, r);
        }
      case Ack(rs, level, c, c', lossDelay) =>
        if rs != [] && Get(h.spaces, level).Some? {
          AckRest(h, rs, level, c, c', lossDelay);
        }
      case Timeout(c, c', lossDelay, r) =>
        if !TimeoutBug(h, c) && SpacesPresent(h.spaces) {
          TimeoutRest(h, c, c', lossDelay, r);
        }
      case _ =>
    }
  }

  // ---------------------------------------------------------------------------------------------
  // The loss detection timer

  /** The time at which a space is probed, if nothing is acknowledged until then. */
  function ProbeTime(h: State, c: Clock, l: H.Level): int
    requires Get(h.spaces, l).Some?
  {
    Get(h.spaces, l).value.lastAckElicitingTime + ScaledPTO(if l.OneRTT? then c.ptoWithAckDelay else c.pto)
  }

  /** Something was sent that elicits an ACK, and for application data the handshake is confirmed. */
  predicate Probeable(h: State, l: H.Level) {
    && !l.ZeroRTT? && Get(h.spaces, l).Some? && Get(h.spaces, l).value.lastAckElicitingTime != 0
    && (l.OneRTT? ==> h.confirmed)
  }

  /** The space to probe: with the earliest time, and the first of several. */
  ghost predicate ProbedFirst(h: State, c: Clock, l: H.Level) {
    && Probeable(h, l)
    && forall l' :: Probeable(h, l') ==>
         ProbeTime(h, c, l) <= ProbeTime(h, c, l') && (Key(l') < Key(l) ==> ProbeTime(h, c, l) < ProbeTime(h, c, l'))
  }

  /** Before the handshake is confirmed, and with no packet of it outstanding. */
  ghost predicate NothingToProbe(h: State) {
    !h.confirmed && !Waits(h, H.Initial) && !Waits(h, H.Handshake)
  }

  function FirstSpace(h: State): H.Level {
    if h.spaces.initial.Some? then H.Initial else H.Handshake
  }

  lemma PTOExactly(h: State, c: Clock)
    requires SpacesOk(h.spaces)
    ensures var p := PTOTimeAndSpace(h, c);
            if NothingToProbe(h) then
              p == if h.completed then NoPTO else PTO(c.now + ScaledPTO(c.pto), Some(FirstSpace(h)))
            else
              && p.PTO? && (p.time == 0 <==> forall l :: !Probeable(h, l))
              && (p.time != 0 ==>
                    && p.level.Some? && ProbedFirst(h, c, p.level.value)
                    && p.time == ProbeTime(h, c, p.level.value))
  {
    hide SpaceOk, Aligned, Waits;
    WaitsExactly(h, H.Initial);
    WaitsExactly(h, H.Handshake);
    SpacesTimes(h.spaces);
    var p := PTOTimeAndSpace(h, c);
    if !NothingToProbe(h) {
      assert Probeable(h, H.Initial) || Probeable(h, H.Handshake) || Probeable(h, H.OneRTT) ==> p.time != 0;
    }
  }

  /** No loss time is set in any space. */
  ghost predicate NoLossTime(h: State) {
    forall l :: LossTimeOf(Get(h.spaces, l)) == 0
  }

  ghost predicate EarliestLoss(h: State, t: int) {
    && (exists l :: LossTimeOf(Get(h.spaces, l)) == t)
    && forall l :: LossTimeOf(Get(h.spaces, l)) != 0 ==> 0 < t <= LossTimeOf(Get(h.spaces, l))
  }

  /** A packet of the space was sent and not acknowledged or lost; probes of the path MTU do not count. */
  ghost predicate Waits(h: State, l: H.Level) {
    Get(h.spaces, l).Some? && exists p :: H.Tracks(Get(h.spaces, l).value.history, p) && !p.skipped && !p.isPathMTUProbe
  }

  /** There is a packet that can be probed for: one of the handshake or, once that is confirmed, any. */
  ghost predicate Unacknowledged(h: State) {
    Waits(h, H.Initial) || Waits(h, H.Handshake) || (h.confirmed && Waits(h, H.OneRTT))
  }

  lemma WaitsExactly(h: State, l: H.Level)
    requires SpacesOk(h.spaces)
    ensures HasOutstanding(Get(h.spaces, l)) <==> Waits(h, l)
  {
    hide SpaceOk, Aligned, H.Sum;
    if Get(h.spaces, l).Some? {
      var sp := Get(h.spaces, l).value;
      O.SpaceHistoryOk(sp);
      if sp.history.numOutstanding > 0 {
        var i := H.SumPositive(sp.history.packets, H.OUTSTANDING);
        assert H.Tracks(sp.history, sp.history.packets[i].value);
      }
      if p :| H.Tracks(sp.history, p) && !p.skipped && !p.isPathMTUProbe {
        var i := TrackedAt(sp.history, p);
        H.SumMember(sp.history.packets, i, H.OUTSTANDING);
      }
    }
  }

  /**
    The timer: the earliest loss time, if there is one. Otherwise it is off exactly if nothing may be sent, or if
    nothing can be probed for and no address is to be validated; and else it is set to the time at which the
    space is probed that comes first, or to a full timeout from now if only an address is to be validated.
   */
  lemma TimerExactly(h: State, c: Clock)
    requires SpacesOk(h.spaces) && ModesOk(h)
    ensures var t := TimerValue(h, c);
            if !NoLossTime(h) then EarliestLoss(h, t)
            else
              && (t == 0 <==> IsAmplificationLimited(h) || (h.completed && !Unacknowledged(h)))
              && (t != 0 ==>
                    if NothingToProbe(h) then t == c.now + ScaledPTO(c.pto)
                    else exists l :: ProbedFirst(h, c, l) && t == ProbeTime(h, c, l))
  {
    hide SpaceOk, Aligned, LossTimeAndSpace, PTOTimeAndSpace, ProbedFirst, ProbeTime, Waits;
    WaitsExactly(h, H.Initial);
    WaitsExactly(h, H.Handshake);
    WaitsExactly(h, H.OneRTT);
    EarliestLossTime(h.spaces);
    var (t, level) := LossTimeAndSpace(h.spaces);
    assert LossTimeOf(Get(h.spaces, level)) == t;
    PTOExactly(h, c);
    if HasOutstanding(h.spaces.initial) {
      OutstandingHasTime(h.spaces.initial.value);
      assert Probeable(h, H.Initial);
    }
    if HasOutstanding(h.spaces.handshake) {
      OutstandingHasTime(h.spaces.handshake.value);
      assert Probeable(h, H.Handshake);
    }
    if h.confirmed && HasOutstanding(Some(h.spaces.app)) {
      OutstandingHasTime(h.spaces.app);
      assert Probeable(h, H.OneRTT);
    }
  }

  /** The clock with which a call sets the timer, if it does. */
  ghost function TimerClock(h: State, e: Event): Option<Clock> {
    match e
    case Send(x, c, _) => if x.frames != [] || !h.completed then Some(c) else None
    case Ack(_, level, c, c', _) =>
      if AcksIn(h, e, level) then Some(c') else if !h.completed && Completes(h, e) then Some(c) else None
    case Timeout(_, c', _, _) => Some(c')
    case Drop(level, c) => if Get(h.spaces, level).Some? then Some(c) else None
    case Bytes(n, c) =>
      if !h.validated && 3 * h.bytesReceived <= h.bytesSent < 3 * (h.bytesReceived + n) then Some(c) else None
    case Received(_, c) => if !h.validated && Validates(h, e) then Some(c) else None
    case Confirm(c) => Some(c)
    case _ => None
  }

  ghost predicate AlarmFollows(h: State, e: Event, h': State) {
    h'.alarm == if e.Retry? then 0
                else if TimerClock(h, e).Some? then TimerValue(h', TimerClock(h, e).value)
                else h.alarm
  }

  /** The timer depends on nothing but these fields. */
  lemma SameTimer(h: State, h': State, c: Clock)
    requires h'.spaces == h.spaces && h'.completed == h.completed && h'.confirmed == h.confirmed
    requires h'.validated == h.validated && h'.bytesSent == h.bytesSent && h'.bytesReceived == h.bytesReceived
    ensures TimerValue(h', c) == TimerValue(h, c)
  {
    hide LossTimeAndSpace, CryptoPTO, HasOutstandingCrypto;
  }

  lemma AlarmSame(h: State, c: Clock)
    ensures WithTimer(h, c).alarm == TimerValue(WithTimer(h, c), c)
  {
    hide TimerValue;
    SameTimer(h, WithTimer(h, c), c);
  }

  lemma SendAlarm(h: State, x: Outgoing, c: Clock, r: nat)
    requires Get(h.spaces, x.level).Some?
    ensures AlarmFollows(h, Send(x, c, r), SendState(h, x, c, r))
  {
    hide Get, Put, TimerValue, SentSpace, PopSpace, PacketOf, NextNumber;
    var h' := SendState(h, x, c, r);
    AlarmSame(h'.(alarm := h.alarm), c);
  }

  lemma AckAlarm(h: State, rs: seq<AckRange>, level: H.Level, c: Clock, c': Clock, lossDelay: nat)
    requires rs != [] && Get(h.spaces, level).Some?
    ensures AlarmFollows(h, Ack(rs, level, c, c', lossDelay), AckState(h, rs, level, c, c', lossDelay))
  {
    hide Get, Put, TimerValue, NewlyAcked, Total, RemovedState, DetectState, H.Tracks, Acks;
    AcksSome(h, rs, level);
    var h1 := ValidatingState(h, level, c);
    SameSpaces(h, h1, rs, level);
    AlarmSame(h.(completed := true), c);
    var acked := NewlyAcked(h1, rs, level);
    if acked != [] {
      RemovedHas(h1, acked, level, rs[0].largest);
      var h3 := DetectState(RemovedState(h1, acked, level, rs[0].largest), level, c.now, lossDelay);
      AlarmSame(h3.(bytesInFlight := h3.bytesInFlight - Total(acked, LENGTH),
                    ptoCount := if h3.completed then 0 else h3.ptoCount, numProbes := 0), c');
    }
  }

  lemma AlarmStep(h: State, e: Event)
    requires Inv(h) && Enabled(h, e)
    ensures AlarmFollows(h, e, Next(h, e))
  {
    hide Inv, Put, TimerValue, SendState, AckState, FirstOutstanding, DroppedPackets, DropSpaces, AcksIn, FiredState,
         RetrySpaces, RetryLost, TimeoutBug, SpacesPresent, ProbedSpace, Total, AckError, ValidRanges, N.Random;
    match e {
      case Send(x, c, r) => SendAlarm(h, x, c, r);
      case Ack(rs, level, c, c', lossDelay) =>
        NonEmptyRanges(h, e);
        AckAlarm(h, rs, level, c, c', lossDelay);
      case Timeout(c, c', lossDelay, r) =>
        TimeoutIsSafe(h, c);
        AlarmSame(FiredState(h, c, lossDelay, r), c');
      case Drop(level, c) => AlarmSame(DroppedState(h, level), c);
      case Bytes(n, c) => AlarmSame(h.(bytesReceived := h.bytesReceived + n), c);
      case Received(level, c) => AlarmSame(h.(validated := true), c);
      case Confirm(c) => AlarmSame(h.(confirmed := true), c);
      case _ =>
    }
  }

  // ---------------------------------------------------------------------------------------------
  // ACK frames and losses

  /** A packet is declared lost: one with a larger number was acknowledged, and it is too old or too far behind. */
  predicate Overdue(q: H.Packet, largest: int, now: nat, lossDelay: nat) {
    q.number <= largest && (q.sendTime < now - lossDelay || q.number + 3 <= largest)
  }

  /** The time at which the first of the packets is lost that were sent before one that was acknowledged. */
  ghost predicate NextLoss(sp: Space, largest: int, lossDelay: nat) {
    && (sp.lossTime == 0 <==> forall q :: H.Tracks(sp.history, q) ==> largest < q.number)
    && (sp.lossTime != 0 ==>
          exists p :: && H.Tracks(sp.history, p) && p.number <= largest && sp.lossTime == p.sendTime + lossDelay
                      && forall q :: H.Tracks(sp.history, q) ==> p.number <= q.number)
  }

  /** Loss detection takes out exactly the packets that are overdue. */
  lemma DetectLeaves(sp: Space, now: nat, lossDelay: nat)
    requires SpaceOk(sp) && 0 < lossDelay
    ensures var sp' := LossSpace(sp, now, lossDelay);
            && (forall q :: H.Tracks(sp'.history, q) <==>
                  H.Tracks(sp.history, q) && !Overdue(q, sp.largestAcked, now, lossDelay))
            && (forall q :: q in LostPackets(sp, now, lossDelay) <==>
                  H.Tracks(sp.history, q) && Overdue(q, sp.largestAcked, now, lossDelay))
            && NextLoss(sp', sp.largestAcked, lossDelay)
  {
    hide Select, LoseAll, H.Valid, PacketsOk, H.Tracks;
    O.SpacePacketsOk(sp);
    var sp' := LossSpace(sp, now, lossDelay);
    var M, lost := sp.largestAcked, LostPackets(sp, now, lossDelay);
    forall q
      ensures H.Tracks(sp'.history, q) <==> H.Tracks(sp.history, q) && !Overdue(q, M, now, lossDelay)
      ensures q in lost <==> H.Tracks(sp.history, q) && Overdue(q, M, now, lossDelay)
    {
      LostMember(sp.history, lost, q, M, now, lossDelay);
      InSelected(sp.history, Loser(M, now, lossDelay), q);
    }
    LossTimeFirst(sp.history, M, now, lossDelay);
    var w := WaitingPackets(sp.history.packets, M, now, lossDelay);
    if w != [] {
      var p := w[0];
      assert H.Tracks(sp'.history, p) && p.number <= M && sp'.lossTime == p.sendTime + lossDelay;
      forall q | H.Tracks(sp'.history, q) ensures p.number <= q.number {
        assert q.number <= M ==> IsWaiting(sp.history, q, M, now, lossDelay);
      }
    }
    forall q | H.Tracks(sp'.history, q) ensures sp'.lossTime == 0 ==> M < q.number {
      assert q.number <= M ==> IsWaiting(sp.history, q, M, now, lossDelay);
    }
  }

  lemma InSelected(h: H.State, keep: H.Packet -> bool, q: H.Packet)
    ensures q in Select(h.packets, keep) <==> H.Tracks(h, q) && keep(q)
  {
    SelectMember(h.packets, keep, q);
  }

  /** What an ACK frame leaves of the space, with `largest` the largest number that was ever acknowledged. */
  ghost predicate AckLeavesSpace(sp: Space, sp': Space, rs: seq<AckRange>, largest: int, now: nat, lossDelay: nat) {
    && (forall q: H.Packet :: !q.skipped ==>
          (H.Tracks(sp'.history, q) <==>
           H.Tracks(sp.history, q) && !Acks(rs, q.number) && !Overdue(q, largest, now, lossDelay)))
    && (forall q :: H.Tracks(sp'.history, q) ==>
          H.Tracks(sp.history, q) && largest < q.number + 3 && (q.number <= largest ==> now - lossDelay <= q.sendTime))
    && sp'.largestAcked == largest && NextLoss(sp', largest, lossDelay)
  }

  lemma AckSpaceLeaves(sp: Space, rs: seq<AckRange>, now: nat, lossDelay: nat)
    requires SpaceOk(sp) && 0 < lossDelay && rs != []
    ensures var acked := Select(sp.history.packets, Acking(rs));
            var sp1 := AckedSpace(sp, acked, rs[0].largest);
            AckLeavesSpace(sp, LossSpace(sp1, now, lossDelay), rs, Max(sp.largestAcked, rs[0].largest), now, lossDelay)
  {
    hide Select, RemoveAll, H.Valid, PacketsOk, H.Tracks, H.Sum, Total, Acks, NextLoss, LossSpace, SpaceOk, Mentions,
         From, Ascending, Above, ZeroOnSkipped, LostPackets;
    O.SpaceHistoryOk(sp);
    LengthZeroOnSkipped();
    AckedExactly(sp.history, rs);
    var acked := Select(sp.history.packets, Acking(rs));
    var sp1 := AckedSpace(sp, acked, rs[0].largest);
    RemoveAllFacts(sp.history, acked, LENGTH);
    AckedSpaceOk(sp, acked, rs[0].largest, LENGTH);
    DetectLeaves(sp1, now, lossDelay);
    SpaceAfter(sp1, now, lossDelay);
    forall q | H.Tracks(sp.history, q) ensures Mentions(acked, q) <==> Acks(rs, q.number) {
      MentionsAcked(sp.history, rs, q);
    }
  }

  lemma MentionsAcked(h: H.State, rs: seq<AckRange>, q: H.Packet)
    requires H.Valid(h) && H.Tracks(h, q)
    ensures Mentions(Select(h.packets, Acking(rs)), q) <==> Acks(rs, q.number)
  {
    hide Select, H.Valid, H.Tracks, Acks;
    AckedExactly(h, rs);
    var acked := Select(h.packets, Acking(rs));
    if Mentions(acked, q) {
      var i :| 0 <= i < |acked| && acked[i].number == q.number;
      assert acked[i] in acked;
    }
    if Acks(rs, q.number) {
      assert q in acked;
      var i :| 0 <= i < |acked| && acked[i] == q;
      assert acked[i].number == q.number;
    }
  }

  lemma SpaceAfter(sp: Space, now: nat, lossDelay: nat)
    ensures LossSpace(sp, now, lossDelay).largestAcked == sp.largestAcked
  {
  }

  /** Exactly the packets that were tracked and are acknowledged are reported as such. */
  ghost predicate AckReports(h: State, rs: seq<AckRange>, level: H.Level, h': State)
    requires Get(h.spaces, level).Some?
  {
    && h.log.acked <= h'.log.acked
    && forall p :: p in h'.log.acked[|h.log.acked|..] <==>
         H.Tracks(Get(h.spaces, level).value.history, p) && Acks(rs, p.number)
  }

  /** And exactly those are reported as lost that are overdue then. */
  ghost predicate LossReports(h: State, rs: seq<AckRange>, level: H.Level, h': State, largest: int, now: nat,
                              lossDelay: nat)
    requires Get(h.spaces, level).Some?
  {
    && h.log.lost <= h'.log.lost
    && forall q: H.Packet :: !q.skipped ==>
         (q in h'.log.lost[|h.log.lost|..] <==>
          && H.Tracks(Get(h.spaces, level).value.history, q) && !Acks(rs, q.number)
          && Overdue(q, largest, now, lossDelay))
  }

  /** The peer knows what was received below this number: beyond all that the packets acknowledged, and no further. */
  ghost predicate ConfirmedBelow(h: State, rs: seq<AckRange>, level: H.Level, h': State)
    requires Get(h.spaces, level).Some?
  {
    var hist := Get(h.spaces, level).value.history;
    var n, n' := h.lowestNotConfirmedAcked, h'.lowestNotConfirmedAcked;
    if !level.OneRTT? then n' == n
    else
      && n <= n'
      && (forall p :: H.Tracks(hist, p) && Acks(rs, p.number) && p.largestAcked != -1 ==> p.largestAcked < n')
      && (n' != n ==> exists p :: H.Tracks(hist, p) && Acks(rs, p.number) && p.largestAcked + 1 == n')
  }

  lemma AckedState(h: State, rs: seq<AckRange>, level: H.Level, c: Clock, c': Clock, lossDelay: nat)
    requires rs != [] && Get(h.spaces, level).Some? && NewlyAcked(h, rs, level) != []
    ensures var h', sp := AckState(h, rs, level, c, c', lossDelay), Get(h.spaces, level).value;
            var acked := NewlyAcked(h, rs, level);
            var sp1 := AckedSpace(sp, acked, rs[0].largest);
            && h'.spaces == Put(h.spaces, level, LossSpace(sp1, c.now, lossDelay))
            && h'.log.acked == h.log.acked + acked && h'.log.lost == h.log.lost + LostPackets(sp1, c.now, lossDelay)
            && h'.lowestNotConfirmedAcked == if level.OneRTT? then LowestNotConfirmed(h.lowestNotConfirmedAcked, acked)
                                             else h.lowestNotConfirmedAcked
  {
    hide Get, Put, TimerValue, NewlyAcked, Total, LowestNotConfirmed, LostPackets, LossSpace, AckedSpace;
    var h1 := ValidatingState(h, level, c);
    SameSpaces(h, h1, rs, level);
    var acked := NewlyAcked(h, rs, level);
    GetPut(h.spaces, level, AckedSpace(Get(h.spaces, level).value, acked, rs[0].largest), LENGTH);
  }

  /**
    An ACK frame that acknowledges something: what is tracked afterwards, what is reported, when the next packet
    is lost, and what need not be acknowledged any more.
   */
  lemma AckOutcome(h: State, e: Event)
    requires Inv(h) && Enabled(h, e) && e.Ack? && AcksIn(h, e, e.level)
    ensures var h', sp := Next(h, e), Get(h.spaces, e.level).value;
            var largest := Max(sp.largestAcked, e.rs[0].largest);
            && Get(h'.spaces, e.level).Some?
            && AckLeavesSpace(sp, Get(h'.spaces, e.level).value, e.rs, largest, e.c.now, e.lossDelay)
            && (forall l :: Key(l) != Key(e.level) ==> Get(h'.spaces, l) == Get(h.spaces, l))
            && AckReports(h, e.rs, e.level, h') && LossReports(h, e.rs, e.level, h', largest, e.c.now, e.lossDelay)
            && ConfirmedBelow(h, e.rs, e.level, h')
  {
    hide Inv, AckState, AckError, Get, Put, NewlyAcked, LossSpace, AckedSpace, LostPackets, Acks, H.Tracks, SpaceOk,
         AckLeavesSpace, LowestNotConfirmed, AckReports, LossReports, ConfirmedBelow, Overdue;
    var sp := Get(h.spaces, e.level).value;
    AcksSome(h, e.rs, e.level);
    AckedState(h, e.rs, e.level, e.c, e.c', e.lossDelay);
    var acked := NewlyAcked(h, e.rs, e.level);
    var sp1 := AckedSpace(sp, acked, e.rs[0].largest);
    forall l ensures Get(Next(h, e).spaces, l) ==
        if Key(l) == Key(e.level) then Some(LossSpace(sp1, e.c.now, e.lossDelay)) else Get(h.spaces, l) {
      O.PutGet(h.spaces, e.level, LossSpace(sp1, e.c.now, e.lossDelay), l);
    }
    SpaceOfInv(h, e.level);
    AckedAre(h, e.rs, e.level);
    AckSpaceLeaves(sp, e.rs, e.c.now, e.lossDelay);
    AckedReported(h, e.rs, e.level, Next(h, e));
    LossReported(h, e.rs, e.level, Next(h, e), e.c.now, e.lossDelay);
    ConfirmedReported(h, e.rs, e.level, Next(h, e));
  }

  lemma SpaceOfInv(h: State, level: H.Level)
    requires Inv(h) && Get(h.spaces, level).Some?
    ensures SpaceOk(Get(h.spaces, level).value)
  {
    hide SpaceOk, Aligned, Tracked;
  }

  lemma AckedAre(h: State, rs: seq<AckRange>, level: H.Level)
    requires Get(h.spaces, level).Some?
    ensures NewlyAcked(h, rs, level) == Select(Get(h.spaces, level).value.history.packets, Acking(rs))
  {
    hide Select, Get;
  }

  lemma AckedReported(h: State, rs: seq<AckRange>, level: H.Level, h': State)
    requires Get(h.spaces, level).Some? && h'.log.acked == h.log.acked + NewlyAcked(h, rs, level)
    ensures AckReports(h, rs, level, h')
  {
    hide NewlyAcked, Get, Acks, H.Tracks;
    assert h'.log.acked[|h.log.acked|..] == NewlyAcked(h, rs, level);
    forall p ensures p in NewlyAcked(h, rs, level) <==>
        H.Tracks(Get(h.spaces, level).value.history, p) && Acks(rs, p.number) {
      AckedOnes(h, rs, level, p);
    }
  }

  lemma LossReported(h: State, rs: seq<AckRange>, level: H.Level, h': State, now: nat, lossDelay: nat)
    requires Get(h.spaces, level).Some? && SpaceOk(Get(h.spaces, level).value) && rs != [] && 0 < lossDelay
    requires var sp1 := AckedSpace(Get(h.spaces, level).value, NewlyAcked(h, rs, level), rs[0].largest);
             h'.log.lost == h.log.lost + LostPackets(sp1, now, lossDelay)
    ensures LossReports(h, rs, level, h', Max(Get(h.spaces, level).value.largestAcked, rs[0].largest), now, lossDelay)
  {
    hide NewlyAcked, Get, Acks, H.Tracks, SpaceOk, LostPackets, Overdue, RemoveAll, H.Sum, Total, Mentions, LossSpace,
         H.Valid, NextLoss, From, ZeroOnSkipped;
    var sp := Get(h.spaces, level).value;
    var acked := NewlyAcked(h, rs, level);
    var sp1 := AckedSpace(sp, acked, rs[0].largest);
    assert h'.log.lost[|h.log.lost|..] == LostPackets(sp1, now, lossDelay);
    AckedAre(h, rs, level);
    O.SpaceHistoryOk(sp);
    LengthZeroOnSkipped();
    FromAcked(sp.history, rs);
    AckedSpaceOk(sp, acked, rs[0].largest, LENGTH);
    RemoveAllFacts(sp.history, acked, LENGTH);
    DetectLeaves(sp1, now, lossDelay);
    forall q | H.Tracks(sp.history, q) ensures Mentions(acked, q) <==> Acks(rs, q.number) {
      MentionsAcked(sp.history, rs, q);
    }
  }

  lemma FromAcked(h: H.State, rs: seq<AckRange>)
    requires H.Valid(h)
    ensures From(h, Select(h.packets, Acking(rs)))
  {
    hide Select, From, H.Tracks, Acks;
    AckedExactly(h, rs);
  }

  lemma ConfirmedReported(h: State, rs: seq<AckRange>, level: H.Level, h': State)
    requires Get(h.spaces, level).Some?
    requires h'.lowestNotConfirmedAcked ==
             if level.OneRTT? then LowestNotConfirmed(h.lowestNotConfirmedAcked, NewlyAcked(h, rs, level))
             else h.lowestNotConfirmedAcked
    ensures ConfirmedBelow(h, rs, level, h')
  {
    hide NewlyAcked, Get, Acks, H.Tracks, LowestNotConfirmed;
    var acked := NewlyAcked(h, rs, level);
    LowestNotConfirmedFacts(h.lowestNotConfirmedAcked, acked);
    forall p ensures p in acked <==> H.Tracks(Get(h.spaces, level).value.history, p) && Acks(rs, p.number) {
      AckedOnes(h, rs, level, p);
    }
    forall p | p in acked && p.largestAcked != -1
      ensures p.largestAcked < LowestNotConfirmed(h.lowestNotConfirmedAcked, acked)
    {
      var i :| 0 <= i < |acked| && acked[i] == p;
      assert acked[i].largestAcked != H.INVALID_PACKET_NUMBER;
    }
    if level.OneRTT? && h'.lowestNotConfirmedAcked != h.lowestNotConfirmedAcked {
      var i :| 0 <= i < |acked| && acked[i].largestAcked + 1 == h'.lowestNotConfirmedAcked;
      assert acked[i] in acked;
    }
  }

  // ---------------------------------------------------------------------------------------------
  // Timeouts

  /** The space that is probed in a mode. */
  function ProbeLevel(mode: SendMode): Option<H.Level> {
    match mode
    case SendPTOInitial => Some(H.Initial)
    case SendPTOHandshake => Some(H.Handshake)
    case SendPTOAppData => Some(H.OneRTT)
    case _ => None
  }

  ghost predicate SameProbes(h: State, h': State) {
    h'.ptoCount == h.ptoCount && h'.numProbes == h.numProbes && h'.ptoMode == h.ptoMode
  }

  /** So many more probes are to be sent, in this space. */
  ghost predicate MoreProbes(h: State, h': State, l: H.Level, n: nat) {
    h'.ptoCount == h.ptoCount + 1 && h'.numProbes == h.numProbes + n && ProbeLevel(h'.ptoMode) == Some(l)
  }

  /**
    A timeout in the absence of a loss time. With nothing in flight, a client that waits for address validation
    sends one probe in the first space it has. Otherwise two probes are sent in the space that comes first, unless
    such a client has nothing outstanding there; none, if there is nothing to probe for.
   */
  ghost predicate ProbeTimeout(h: State, c: Clock, h': State) {
    if h.bytesInFlight == 0 && !h.completed then MoreProbes(h, h', FirstSpace(h), 1)
    else if NothingToProbe(h) then
      SameProbes(h, h')
    else
      && (forall l :: ProbedFirst(h, c, l) ==>
            if Waits(h, l) || h.completed then MoreProbes(h, h', l, 2) else SameProbes(h, h'))
      && exists l :: ProbedFirst(h, c, l)
  }

  /** A timeout with a loss time: the packets of the space with the earliest one that are overdue are lost. */
  ghost predicate LossTimeout(h: State, c: Clock, lossDelay: nat, h': State, l: H.Level) {
    && SameProbes(h, h') && Get(h.spaces, l).Some? && Get(h'.spaces, l).Some?
    && EarliestLoss(h, Get(h.spaces, l).value.lossTime)
    && var sp, sp' := Get(h.spaces, l).value, Get(h'.spaces, l).value;
       && (forall q :: H.Tracks(sp'.history, q) <==>
             H.Tracks(sp.history, q) && !Overdue(q, sp.largestAcked, c.now, lossDelay))
       && NextLoss(sp', sp.largestAcked, lossDelay)
       && (forall l' :: Key(l') != Key(l) ==> Get(h'.spaces, l') == Get(h.spaces, l'))
       && h.log.lost <= h'.log.lost
       && (forall q :: q in h'.log.lost[|h.log.lost|..] <==>
             H.Tracks(sp.history, q) && Overdue(q, sp.largestAcked, c.now, lossDelay))
  }

  lemma OnlyOneFirst(h: State, c: Clock, l: H.Level, l': H.Level)
    requires ProbedFirst(h, c, l) && ProbedFirst(h, c, l')
    ensures l == l'
  {
    hide ProbeTime;
  }

  lemma ProbingCounts(h: State, level: H.Level, probes: nat, r: nat)
    requires !level.ZeroRTT?
    ensures MoreProbes(h, ProbingState(h, level, probes, r), level, probes)
  {
    hide Put, SkipSpace;
  }

  /** With a timer that is set and no loss time, and packets to probe for, there is a space to probe. */
  lemma SomethingToProbe(h: State, c: Clock)
    requires Inv(h) && !TimeoutBug(h, c) && NoLossTime(h) && !NothingToProbe(h)
             && !(h.bytesInFlight == 0 && !h.completed)
    ensures var p := PTOTimeAndSpace(h, c);
            && p.PTO? && p.time != 0 && p.level.Some? && ProbedFirst(h, c, p.level.value)
            && Get(h.spaces, p.level.value).Some?
  {
    hide SpaceOk, Aligned, LossTimeAndSpace, PTOTimeAndSpace, ProbedFirst, ProbeTime, Waits, Tracked, AlarmOk;
    EarliestLossTime(h.spaces);
    var (t, level) := LossTimeAndSpace(h.spaces);
    assert LossTimeOf(Get(h.spaces, level)) == t;
    PTOExactly(h, c);
    WaitsExactly(h, H.Initial);
    WaitsExactly(h, H.Handshake);
    if HasOutstanding(h.spaces.initial) {
      OutstandingHasTime(h.spaces.initial.value);
      assert Probeable(h, H.Initial);
    }
    if HasOutstanding(h.spaces.handshake) {
      OutstandingHasTime(h.spaces.handshake.value);
      assert Probeable(h, H.Handshake);
    }
    if h.confirmed {
      ConfirmedPTO(h, c);
    }
    ProbedIsThere(h, c);
  }

  lemma ProbedIsThere(h: State, c: Clock)
    ensures forall l :: ProbedFirst(h, c, l) ==> Get(h.spaces, l).Some?
  {
  }

  /** Once the handshake is confirmed, only application data is left. */
  lemma ConfirmedPTO(h: State, c: Clock)
    requires h.confirmed && ModesOk(h)
    ensures var p := PTOTimeAndSpace(h, c);
            p.PTO? && (p.level.Some? ==> Probeable(h, H.OneRTT))
  {
  }

  lemma FiredProbes(h: State, c: Clock, lossDelay: nat, r: nat)
    requires Inv(h) && !TimeoutBug(h, c) && SpacesPresent(h.spaces) && NoLossTime(h)
    ensures ProbeTimeout(h, c, FiredState(h, c, lossDelay, r))
  {
    hide Inv, SpacesOk, LossTimeAndSpace, PTOTimeAndSpace, ProbedFirst, Waits, DetectState, ProbingState, MoreProbes,
         SpacesPresent;
    LossTimeIsZero(h);
    var first := FirstSpace(h);
    if h.bytesInFlight == 0 && !h.completed {
      ProbingCounts(h, first, 1, r);
    } else if NothingToProbe(h) {
      IdleFires(h, c);
    } else {
      SomethingToProbe(h, c);
      var l := PTOTimeAndSpace(h, c).level.value;
      NotZeroRTT(h, c, l);
      ProbingCounts(h, l, 2, r);
      WaitsOf(h, l);
      forall l' | ProbedFirst(h, c, l') ensures l' == l {
        OnlyOneFirst(h, c, l, l');
      }
    }
  }

  lemma LossTimeIsZero(h: State)
    requires Inv(h) && NoLossTime(h)
    ensures LossTimeAndSpace(h.spaces).0 == 0
  {
    hide SpaceOk, Aligned, Tracked, AlarmOk, LossTimeAndSpace;
    EarliestLossTime(h.spaces);
    var (t, level) := LossTimeAndSpace(h.spaces);
    assert LossTimeOf(Get(h.spaces, level)) == t;
  }

  lemma NotZeroRTT(h: State, c: Clock, l: H.Level)
    requires ProbedFirst(h, c, l)
    ensures !l.ZeroRTT?
  {
  }

  lemma WaitsOf(h: State, l: H.Level)
    requires Inv(h) && Get(h.spaces, l).Some?
    ensures Get(h.spaces, l).value.history.numOutstanding <= 0 <==> !Waits(h, l)
  {
    hide SpaceOk, Aligned, Waits, Tracked, AlarmOk;
    WaitsExactly(h, l);
  }

  /** With nothing to probe for, a timeout that comes late changes nothing. */
  lemma IdleFires(h: State, c: Clock)
    requires Inv(h) && NothingToProbe(h) && !(h.bytesInFlight == 0 && !h.completed)
    ensures var p := PTOTimeAndSpace(h, c);
            p.PTO? ==>
              && !h.completed && p.level.Some?
              && var sp := Get(h.spaces, p.level.value);
                 sp.Some? ==> sp.value.history.numOutstanding <= 0
  {
    hide SpaceOk, Aligned, Waits, Tracked, AlarmOk, PTOTimeAndSpace;
    PTOExactly(h, c);
    WaitsExactly(h, H.Initial);
    WaitsExactly(h, H.Handshake);
  }

  lemma FiredLosses(h: State, c: Clock, lossDelay: nat, r: nat)
    requires Inv(h) && !TimeoutBug(h, c) && SpacesPresent(h.spaces) && !NoLossTime(h) && 0 < lossDelay
    ensures LossTimeout(h, c, lossDelay, FiredState(h, c, lossDelay, r), LossTimeAndSpace(h.spaces).1)
  {
    hide SpaceOk, Aligned, Tracked, AlarmOk, LossTimeAndSpace, LossSpace, LostPackets, Total, H.Tracks, Overdue,
         NextLoss, TimeoutBug, Put;
    EarliestLossTime(h.spaces);
    var (t, level) := LossTimeAndSpace(h.spaces);
    assert LossTimeOf(Get(h.spaces, level)) == t;
    var sp := Get(h.spaces, level).value;
    var sp' := LossSpace(sp, c.now, lossDelay);
    DetectLeaves(sp, c.now, lossDelay);
    forall l ensures Get(Put(h.spaces, level, sp'), l) == if Key(l) == Key(level) then Some(sp') else Get(h.spaces, l) {
      O.PutGet(h.spaces, level, sp', l);
    }
    var h' := FiredState(h, c, lossDelay, r);
    assert h'.log.lost == h.log.lost + LostPackets(sp, c.now, lossDelay);
    assert h'.log.lost[|h.log.lost|..] == LostPackets(sp, c.now, lossDelay);
  }

  /** What a timeout does. */
  lemma TimeoutOutcome(h: State, e: Event)
    requires Inv(h) && Enabled(h, e) && e.Timeout?
    ensures var h' := Next(h, e);
            if NoLossTime(h) then ProbeTimeout(h, e.c, h')
            else exists l :: LossTimeout(h, e.c, e.lossDelay, h', l)
  {
    hide Inv, TimerValue, FiredState, TimeoutBug, SpacesPresent, N.Random, NoLossTime, ProbedFirst, Waits,
         NothingToProbe, LossTimeout, LossTimeAndSpace;
    TimeoutIsSafe(h, e.c);
    if NoLossTime(h) {
      FiredProbes(h, e.c, e.lossDelay, e.r);
    } else {
      FiredLosses(h, e.c, e.lossDelay, e.r);
      LossTimeoutTimer(h, e.c, e.lossDelay, FiredState(h, e.c, e.lossDelay, e.r), LossTimeAndSpace(h.spaces).1, e.c');
    }
  }

  lemma LossTimeoutTimer(h: State, c: Clock, lossDelay: nat, h1: State, l: H.Level, c': Clock)
    requires LossTimeout(h, c, lossDelay, h1, l)
    ensures LossTimeout(h, c, lossDelay, WithTimer(h1, c'), l)
  {
    hide TimerValue, NextLoss, H.Tracks, Overdue, EarliestLoss, Get;
  }

  // ---------------------------------------------------------------------------------------------
  // Probes, in all calls

  ghost predicate ProbesFollow(h: State, e: Event, h': State) {
    match e
    case Send(x, _, _) =>
      && h'.ptoCount == h.ptoCount && h'.ptoMode == h.ptoMode
      && h'.numProbes == if x.frames != [] && h.numProbes > 0 then h.numProbes - 1 else h.numProbes
    case Ack(_, level, _, _, _) =>
      if AcksIn(h, e, level)
      then h'.numProbes == 0 && h'.ptoMode == h.ptoMode && h'.ptoCount == if h'.completed then 0 else h.ptoCount
      else SameProbes(h, h')
    case Timeout(c, _, _, _) => if NoLossTime(h) then ProbeTimeout(h, c, h') else SameProbes(h, h')
    case Drop(level, _) =>
      if Get(h.spaces, level).Some? then h'.ptoCount == 0 && h'.numProbes == 0 && h'.ptoMode == SendNone
      else SameProbes(h, h')
    case Retry(_) => h'.ptoCount == 0 && h'.numProbes == h.numProbes && h'.ptoMode == h.ptoMode
    case _ => SameProbes(h, h')
  }

  lemma AckProbes(h: State, rs: seq<AckRange>, level: H.Level, c: Clock, c': Clock, lossDelay: nat)
    requires rs != [] && Get(h.spaces, level).Some?
    ensures ProbesFollow(h, Ack(rs, level, c, c', lossDelay), AckState(h, rs, level, c, c', lossDelay))
  {
    hide Get, Put, TimerValue, NewlyAcked, Total, LowestNotConfirmed, LostPackets, LossSpace, AckedSpace, H.Tracks,
         Acks;
    AcksSome(h, rs, level);
    SameSpaces(h, ValidatingState(h, level, c), rs, level);
  }

  lemma SendProbesFollow(h: State, x: Outgoing, c: Clock, r: nat)
    requires Get(h.spaces, x.level).Some?
    ensures ProbesFollow(h, Send(x, c, r), SendState(h, x, c, r))
  {
    hide Get, Put, TimerValue, SentSpace, PopSpace, PacketOf, NextNumber;
  }

  /** How every call changes what is to be probed. */
  lemma ProbesStep(h: State, e: Event)
    requires Inv(h) && Enabled(h, e)
    ensures ProbesFollow(h, e, Next(h, e))
  {
    hide Inv, Put, TimerValue, SendState, AckState, TimeoutState, FirstOutstanding, DroppedPackets, DropSpaces, AcksIn,
         RetrySpaces, RetryLost, ProbedSpace, Total, AckError, N.Random, ProbeTimeout, NoLossTime;
    match e {
      case Send(x, c, r) => SendProbesFollow(h, x, c, r);
      case Ack(rs, level, c, c', lossDelay) =>
        NonEmptyRanges(h, e);
        AckProbes(h, rs, level, c, c', lossDelay);
      case Timeout(c, c', lossDelay, r) => TimeoutOutcome(h, e);
      case _ =>
    }
  }

  // ---------------------------------------------------------------------------------------------
  // What is tracked after the other calls

  /** A packet that is sent is tracked, as it was sent, if it elicits an ACK; nothing else changes. */
  lemma SendOutcome(h: State, e: Event, q: H.Packet)
    requires Inv(h) && Enabled(h, e) && e.Send? && !q.skipped
    ensures var h', sp := Next(h, e), Get(h.spaces, e.x.level).value;
            && Get(h'.spaces, e.x.level).Some?
            && (H.Tracks(Get(h'.spaces, e.x.level).value.history, q) <==>
                || H.Tracks(sp.history, q)
                || (&& e.x.frames != [] && q.number == NextNumber(sp) && q.sendTime == e.x.time
                    && q.frames == e.x.frames
                    && q.largestAcked == e.x.largestAcked && q.length == e.x.size && q.level == e.x.level
                    && q.isPathMTUProbe == e.x.isPathMTUProbe && q.inFlight))
            && (forall l :: Key(l) != Key(e.x.level) ==> Get(h'.spaces, l) == Get(h.spaces, l))
  {
    hide SendState, PopSpace, SentSpace, NextNumber, Get, Put, N.Random, H.Tracks;
    var sp := Get(h.spaces, e.x.level).value;
    var sp' := SentSpace(PopSpace(sp, e.r), NextNumber(sp), e.x);
    SentSpaces(h, e.x, e.c, e.r);
    forall l
      ensures Get(Put(h.spaces, e.x.level, sp'), l) == if Key(l) == Key(e.x.level) then Some(sp') else Get(h.spaces, l)
    {
      O.PutGet(h.spaces, e.x.level, sp', l);
    }
    SentTracks(sp, e.x, e.r, q);
  }

  lemma SentTracks(sp: Space, x: Outgoing, r: nat, q: H.Packet)
    requires !q.skipped
    ensures H.Tracks(SentSpace(PopSpace(sp, r), NextNumber(sp), x).history, q) <==>
            H.Tracks(sp.history, q) || (x.frames != [] && q == PacketOf(NextNumber(sp), x))
  {
    hide N.Pop, NextNumber;
    var h1 := PopSpace(sp, r).history;
    assert Some(q) in h1.packets <==> Some(q) in sp.history.packets;
    var p := PacketOf(NextNumber(sp), x);
    assert Some(q) in h1.packets + [Some(p)] <==> Some(q) in h1.packets || q == p;
  }

  /** A probe takes the outstanding packet with the lowest number and reports it as lost, if there is one. */
  lemma ProbeOutcome(h: State, level: H.Level)
    requires Inv(h) && Get(h.spaces, level).Some?
    ensures var h', sp := ProbeState(h, level), Get(h.spaces, level).value;
            if !Waits(h, level) then h' == h
            else
              && Get(h'.spaces, level).Some?
              && exists p ::
                   && IsLowest(sp.history, p) && h'.log.lost == h.log.lost + [p]
                   && var hist := Get(h'.spaces, level).value.history;
                      forall q :: H.Tracks(hist, q) <==> H.Tracks(sp.history, q) && q != p
  {
    hide Inv, Get, Put, FirstOutstanding, LoseOne, H.Tracks, H.Valid, Waits, LENGTH, IsLowest;
    SpaceOfInv(h, level);
    var sp := Get(h.spaces, level).value;
    O.SpaceHistoryOk(sp);
    LowestOutstanding(h, level);
    var p := FirstOutstanding(sp.history.packets);
    if p.Some? {
      O.PutGet(h.spaces, level, ProbedSpace(sp, p.value), level);
      forall q ensures H.Tracks(LoseOne(sp.history, p.value.number), q) <==> H.Tracks(sp.history, q) && q != p.value {
        LostOne(sp.history, p.value, q);
      }
    }
  }

  ghost predicate IsLowest(h: H.State, p: H.Packet) {
    && H.Tracks(h, p) && !p.skipped && !p.isPathMTUProbe
    && forall q :: H.Tracks(h, q) && !q.skipped && !q.isPathMTUProbe ==> p.number <= q.number
  }

  lemma LowestOutstanding(h: State, level: H.Level)
    requires Get(h.spaces, level).Some? && H.Valid(Get(h.spaces, level).value.history)
    ensures var hist := Get(h.spaces, level).value.history;
            var p := FirstOutstanding(hist.packets);
            if Waits(h, level) then p.Some? && IsLowest(hist, p.value) && H.Tracks(hist, p.value) else p.None?
  {
    hide Select, Get, H.Valid;
    var hist := Get(h.spaces, level).value.history;
    var o := Select(hist.packets, H.Outstanding);
    assert hist.packets[..|hist.packets|] == hist.packets;
    SelectFrom(hist, |hist.packets|, H.Outstanding);
    forall q ensures q in o <==> H.Tracks(hist, q) && !q.skipped && !q.isPathMTUProbe {
      InSelected(hist, H.Outstanding, q);
    }
    if o != [] {
      assert o[0] in o;
      forall q | q in o ensures o[0].number <= q.number {
        var i :| 0 <= i < |o| && o[i] == q;
      }
    }
  }

  lemma LostOne(h: H.State, p: H.Packet, q: H.Packet)
    requires H.Valid(h) && H.Tracks(h, p)
    ensures H.Tracks(LoseOne(h, p.number), q) <==> H.Tracks(h, q) && q != p
  {
    hide LoseOne;
    LoseOneTracks(h, p, q);
    if H.Tracks(h, q) && q.number == p.number {
      SameNumber(h, p, q);
    }
  }

  /** A packet of rejected 0-RTT keys: only such packets have numbers up to its own. */
  ghost predicate Rejected(h: H.State, q: H.Packet) {
    H.Tracks(h, q) && forall p :: H.Tracks(h, p) && p.number <= q.number ==> p.level.ZeroRTT? || p.skipped
  }

  /** The spaces whose keys are dropped are gone, and of the application data only what 0-RTT keys protected. */
  lemma DropOutcome(h: State, e: Event)
    requires Inv(h) && Enabled(h, e) && e.Drop?
    ensures var h' := Next(h, e);
            && (h'.spaces.initial == if e.level.Initial? then None else h.spaces.initial)
            && (h'.spaces.handshake == if e.level.Handshake? then None else h.spaces.handshake)
            && h.log.dropped <= h'.log.dropped
            && (e.level.ZeroRTT? ==> forall q: H.Packet :: !q.skipped ==>
                  (H.Tracks(h'.spaces.app.history, q) <==>
                   H.Tracks(h.spaces.app.history, q) && !Rejected(h.spaces.app.history, q)))
            && (!e.level.ZeroRTT? ==> h'.spaces.app == h.spaces.app)
  {
    hide TimerValue, Select, RemoveAll, Leading, H.Tracks, Total, SpaceOk, Aligned, Tracked, AlarmOk, ModesOk;
    if e.level.ZeroRTT? {
      SpaceOfInv(h, H.OneRTT);
      O.SpaceHistoryOk(h.spaces.app);
      RejectedExactly(h.spaces.app.history);
    }
  }

  lemma RejectedExactly(h: H.State)
    requires H.Valid(h)
    ensures forall q: H.Packet :: !q.skipped ==>
              (H.Tracks(RemoveAll(h, Select(h.packets[..Leading(h.packets)], EVERYTHING)), q) <==>
               H.Tracks(h, q) && !Rejected(h, q))
  {
    hide Select, RemoveAll, H.Tracks, Total, H.Sum, Leading, H.Valid, Rejected, Mentions;
    var k := Leading(h.packets);
    var ps := Select(h.packets[..k], EVERYTHING);
    LengthZeroOnSkipped();
    SelectFrom(h, k, EVERYTHING);
    RemoveAllFacts(h, ps, LENGTH);
    forall q: H.Packet | H.Tracks(h, q) ensures Mentions(ps, q) <==> Rejected(h, q) {
      RejectedOne(h, q);
    }
  }

  lemma RejectedOne(h: H.State, q: H.Packet)
    requires H.Valid(h) && H.Tracks(h, q)
    ensures Mentions(Select(h.packets[..Leading(h.packets)], EVERYTHING), q) <==> Rejected(h, q)
  {
    hide Select, Leading;
    var k := Leading(h.packets);
    var ps := Select(h.packets[..k], EVERYTHING);
    var i := TrackedAt(h, q);
    if i < k {
      SelectMember(h.packets[..k], EVERYTHING, q);
      assert h.packets[..k][i] == Some(q);
      var j :| 0 <= j < |ps| && ps[j] == q;
      assert ps[j].number == q.number;
      forall p | H.Tracks(h, p) && p.number <= q.number ensures p.level.ZeroRTT? || p.skipped {
        var j := TrackedAt(h, p);
        assert RejectedZeroRTT(h.packets[j]);
      }
    } else {
      SelectFrom(h, k, EVERYTHING);
      assert !RejectedZeroRTT(h.packets[k]);
      var p := h.packets[k].value;
      assert H.Tracks(h, p) && p.number <= q.number;
    }
  }

  /** After a Retry nothing of Initial and application data is tracked; all of it is lost, and its numbers go on. */
  lemma RetryOutcome(h: State, e: Event)
    requires Inv(h) && Enabled(h, e) && e.Retry?
    ensures var h' := Next(h, e);
            && h'.spaces.initial.Some? && h'.spaces.initial.value.history.packets == [] == h'.spaces.app.history.packets
            && h'.spaces.handshake == h.spaces.handshake && h'.bytesInFlight == 0 && h.log.lost <= h'.log.lost
            && (forall q :: q in h'.log.lost[|h.log.lost|..] <==>
                  !q.skipped && (H.Tracks(h.spaces.initial.value.history, q) || H.Tracks(h.spaces.app.history, q)))
            && NextNumber(h'.spaces.initial.value) == NextNumber(h.spaces.initial.value)
            && h'.spaces.app.pns.next == NextNumber(h.spaces.app)
  {
    hide Inv, Select, H.Tracks;
    var a, b := h.spaces.initial.value.history, h.spaces.app.history;
    var h' := Next(h, e);
    assert h'.log.lost[|h.log.lost|..] == Select(a.packets, NOT_SKIPPED) + Select(b.packets, NOT_SKIPPED);
    forall q ensures q in Select(a.packets, NOT_SKIPPED) + Select(b.packets, NOT_SKIPPED) <==>
        !q.skipped && (H.Tracks(a, q) || H.Tracks(b, q)) {
      InSelected(a, NOT_SKIPPED, q);
      InSelected(b, NOT_SKIPPED, q);
    }
  }

  // ---------------------------------------------------------------------------------------------
  // The handler over a run

  ghost function TotalOut(hs: seq<State>, es: seq<Event>): nat
    requires |hs| == |es| + 1
    decreases |es|
  {
    if es == [] then 0 else var n := |es| - 1; TotalOut(hs[..n + 1], es[..n]) + BytesOut(hs[n], es[n])
  }

  function TotalIn(es: seq<Event>): nat {
    if es == [] then 0 else TotalIn(es[..|es| - 1]) + BytesIn(es[|es| - 1])
  }

  ghost predicate Happened(es: seq<Event>, happens: Event -> bool) {
    exists i :: 0 <= i < |es| && happens(es[i])
  }

  lemma HappenedNext(es: seq<Event>, happens: Event -> bool)
    requires es != []
    ensures Happened(es, happens) <==> Happened(es[..|es| - 1], happens) || happens(es[|es| - 1])
  {
    var n := |es| - 1;
    if Happened(es[..n], happens) {
      var i :| 0 <= i < n && happens(es[..n][i]);
      assert happens(es[i]);
    }
    if Happened(es, happens) {
      var i :| 0 <= i < |es| && happens(es[i]);
      assert i < n ==> happens(es[..n][i]);
    }
  }

  const HANDSHAKE_RECEIVED: Event -> bool := (e: Event) => e.Received? && e.level.Handshake?
  const SERVER_ANSWERED: Event -> bool :=
    (e: Event) => (e.Ack? && (e.level.Handshake? || e.level.OneRTT?)) || (e.Drop? && e.level.Handshake?)
  const CONFIRMED: Event -> bool := (e: Event) => e.Confirm?

  ghost predicate Told(h: State, h0: State, out: nat, bytesIn: nat, received: bool, answered: bool, confirmed: bool) {
    && h.client == h0.client && h.bytesSent == out && h.bytesReceived == bytesIn
    && (h.validated <==> h0.validated || (!h.client && received))
    && (h.completed <==> !h.client || answered) && (h.confirmed <==> confirmed)
  }

  /**
    In every run: the bytes sent and received are those of the calls; the address of a client is validated exactly
    if it was from the start or a Handshake packet was received; a client knows that its address is validated
    exactly if a Handshake or 1-RTT packet was acknowledged or the keys were dropped; and the handshake is
    confirmed exactly if that was called.
   */
  lemma {:induction false} RunTold(hs: seq<State>, es: seq<Event>)
    requires IsRun(hs, es)
    ensures Told(hs[|es|], hs[0], TotalOut(hs, es), TotalIn(es), Happened(es, HANDSHAKE_RECEIVED),
                 Happened(es, SERVER_ANSWERED), Happened(es, CONFIRMED))
    decreases |es|
  {
    hide Enabled, Next, IsStart, RestFollows, Told, Happened;
    if es == [] {
      StartTold(hs[0]);
    } else {
      var n := |es| - 1;
      RunTold(hs[..n + 1], es[..n]);
      assert hs[..n + 1][n] == hs[n] && hs[..n + 1][0] == hs[0];
      RestStep(hs[n], es[n]);
      HappenedNext(es, HANDSHAKE_RECEIVED);
      HappenedNext(es, SERVER_ANSWERED);
      HappenedNext(es, CONFIRMED);
      assert Enabled(hs[n], es[n]);
      ToldGoesOn(hs, es);
    }
  }

  lemma ToldGoesOn(hs: seq<State>, es: seq<Event>)
    requires |hs| == |es| + 1 && es != []
    requires var n := |es| - 1;
             var before := es[..n];
             && Told(hs[n], hs[0], TotalOut(hs[..n + 1], before), TotalIn(before), Happened(before, HANDSHAKE_RECEIVED),
                     Happened(before, SERVER_ANSWERED), Happened(before, CONFIRMED))
             && RestFollows(hs[n], es[n], hs[n + 1]) && Enabled(hs[n], es[n])
             && (Happened(es, HANDSHAKE_RECEIVED) <==>
                   Happened(before, HANDSHAKE_RECEIVED) || HANDSHAKE_RECEIVED(es[n]))
             && (Happened(es, SERVER_ANSWERED) <==> Happened(before, SERVER_ANSWERED) || SERVER_ANSWERED(es[n]))
             && (Happened(es, CONFIRMED) <==> Happened(before, CONFIRMED) || CONFIRMED(es[n]))
    ensures Told(hs[|es|], hs[0], TotalOut(hs, es), TotalIn(es), Happened(es, HANDSHAKE_RECEIVED),
                 Happened(es, SERVER_ANSWERED), Happened(es, CONFIRMED))
  {
    hide Happened, AckError, Get;
    var n := |es| - 1;
    assert Completes(hs[n], es[n]) <==> hs[n].client && SERVER_ANSWERED(es[n]) by { CompletesIf(hs[n], es[n]); }
  }

  lemma CompletesIf(h: State, e: Event)
    requires Enabled(h, e)
    ensures Completes(h, e) <==> h.client && SERVER_ANSWERED(e)
  {
    hide AckError;
  }

  lemma StartTold(h: State)
    requires IsStart(h)
    ensures Told(h, h, 0, 0, false, false, false) && !Happened([], HANDSHAKE_RECEIVED)
    ensures !Happened([], SERVER_ANSWERED) && !Happened([], CONFIRMED)
  {
    var pn: nat, client, validated, r: nat :| RandomSkip(r) && h == Initially(pn, client, validated, r);
  }

  /** Probes that are to be sent have a space that is still there. */
  ghost predicate ProbesOk(h: State) {
    && 0 <= h.numProbes
    && (h.numProbes > 0 ==> ProbeLevel(h.ptoMode).Some? && Get(h.spaces, ProbeLevel(h.ptoMode).value).Some?)
  }

  /** No call but dropping the keys of a level takes its space away. */
  lemma SpacesStay(h: State, e: Event, l: H.Level)
    requires Inv(h) && Enabled(h, e) && !(e.Drop? && Key(e.level) == Key(l))
    ensures Get(Next(h, e).spaces, l).Some? <==> Get(h.spaces, l).Some?
  {
    hide SendState, AckState, TimeoutState, ProbeState, DropState, RetryLost, AckError, TimerValue, N.Random;
    match e {
      case Send(x, c, r) =>
        SentSpaces(h, x, c, r);
        var sp := Get(h.spaces, x.level).value;
        O.PutGet(h.spaces, x.level, SentSpace(PopSpace(sp, r), NextNumber(sp), x), l);
      case Ack(rs, level, c, c', lossDelay) => AckStays(h, e, l);
      case Timeout(c, c', lossDelay, r) => TimeoutStays(h, e, l);
      case Probe(level) => ProbeStays(h, level, l);
      case Drop(level, c) => DropOutcome(h, e);
      case _ =>
    }
  }

  lemma AckStays(h: State, e: Event, l: H.Level)
    requires Inv(h) && Enabled(h, e) && e.Ack?
    ensures Get(Next(h, e).spaces, l).Some? <==> Get(h.spaces, l).Some?
  {
    hide AckState, AckError, AckLeavesSpace, AckReports, LossReports, ConfirmedBelow, Get, H.Tracks, Acks;
    AcksSome(h, e.rs, e.level);
    AckChanges(h, e.rs, e.level, e.c, e.c', e.lossDelay, l);
    if Key(l) == Key(e.level) {
      SameLevel(h.spaces, l, e.level);
      SameLevel(Next(h, e).spaces, l, e.level);
    }
    if AcksIn(h, e, e.level) {
      AckOutcome(h, e);
    }
  }

  lemma TimeoutStays(h: State, e: Event, l: H.Level)
    requires Inv(h) && Enabled(h, e) && e.Timeout?
    ensures Get(Next(h, e).spaces, l).Some? <==> Get(h.spaces, l).Some?
  {
    hide SpacesOk, Put, TimerValue, LossSpace, SkipSpace, LossTimeAndSpace, PTOTimeAndSpace, TimeoutBug, Tracked,
         AlarmOk, LostPackets, Total;
    TimeoutIsSafe(h, e.c);
    var (t, level) := LossTimeAndSpace(h.spaces);
    O.PutGet(h.spaces, level, LossSpace(Get(h.spaces, level).value, e.c.now, e.lossDelay), l);
    O.PutGet(h.spaces, H.OneRTT, SkipSpace(h.spaces.app, e.r), l);
  }

  lemma ProbeStays(h: State, level: H.Level, l: H.Level)
    requires Get(h.spaces, level).Some?
    ensures Get(ProbeState(h, level).spaces, l).Some? <==> Get(h.spaces, l).Some?
  {
    hide FirstOutstanding, LoseOne, Put;
    var sp := Get(h.spaces, level).value;
    var p := FirstOutstanding(sp.history.packets);
    if p.Some? {
      O.PutGet(h.spaces, level, ProbedSpace(sp, p.value), l);
    }
  }

  lemma ProbesKept(h: State, e: Event)
    requires Inv(h) && Enabled(h, e) && ProbesOk(h)
    ensures ProbesOk(Next(h, e))
  {
    hide Inv, Enabled, Next, AcksIn, NoLossTime, Waits, ProbedFirst, NothingToProbe, Get;
    var h' := Next(h, e);
    ProbesStep(h, e);
    if h'.numProbes > 0 {
      if e.Drop? {
        DropKeepsProbes(h, e);
      } else {
        if e.Timeout? && NoLossTime(h) {
          ProbedPresent(h, e);
        }
        SpacesStay(h, e, ProbeLevel(h'.ptoMode).value);
      }
    }
  }

  lemma DropKeepsProbes(h: State, e: Event)
    requires e.Drop? && ProbesOk(h) && Next(h, e).numProbes > 0 && ProbesFollow(h, e, Next(h, e))
    ensures ProbesOk(Next(h, e))
  {
  }

  /** The space that a timeout probes is there. */
  lemma ProbedPresent(h: State, e: Event)
    requires Inv(h) && Enabled(h, e) && e.Timeout? && NoLossTime(h) && ProbesOk(h)
    ensures var h' := Next(h, e);
            h'.numProbes > 0 ==> ProbeLevel(h'.ptoMode).Some? && Get(h.spaces, ProbeLevel(h'.ptoMode).value).Some?
  {
    hide SpacesOk, LossTimeAndSpace, PTOTimeAndSpace, ProbeTime, Waits, Tracked, AlarmOk, TimeoutState, N.Random;
    TimeoutOutcome(h, e);
    TimeoutIsSafe(h, e.c);
    LossTimeIsZero(h);
  }

  /** In every run, the space of the probes that are to be sent has not been dropped. */
  lemma {:induction false} RunProbes(hs: seq<State>, es: seq<Event>)
    requires IsRun(hs, es)
    ensures ProbesOk(hs[|es|])
    decreases |es|
  {
    hide Inv, Enabled, Next, IsStart, ProbesOk, Balanced;
    if es == [] {
      StartProbes(hs[0]);
    } else {
      var n := |es| - 1;
      RunProbes(hs[..n + 1], es[..n]);
      assert hs[..n + 1][n] == hs[n];
      LengthZeroOnSkipped();
      RunKeeps(hs, es, LENGTH);
      ProbesKept(hs[n], es[n]);
    }
  }

  lemma StartProbes(h: State)
    requires IsStart(h)
    ensures ProbesOk(h)
  {
  }
}
