/** Runs of the sent packet handler: what holds in every state that calls without errors can reach. */
module SentPacketRuns {
  import opened Common
  import opened LossRecovery
  import opened PacketSpaces
  import opened SentPacketHandler
  import H = SentPacketHistory
  import N = PacketNumbers

  /** A call, with what the clock, the RTT statistics and the random number generator say. */
  datatype Event =
    | Send(x: Outgoing, c: Clock, r: nat)
    | Ack(rs: seq<AckRange>, level: H.Level, c: Clock, c': Clock, lossDelay: nat)
    | Timeout(c: Clock, c': Clock, lossDelay: nat, r: nat)
    | Probe(level: H.Level)
    | Drop(level: H.Level, c: Clock)
    | Retry(r: nat)
    | Bytes(n: nat, c: Clock)
    | Received(level: H.Level, c: Clock)
    | Confirm(c: Clock)

  /**
    What the connection takes care of: it uses no space that is dropped, handles the timeout of a timer
    that is set, accepts a Retry only before any other packet, so before it can send Handshake packets, and
    confirms the handshake after it has dropped the keys. An ACK frame is one that was parsed; an ACK that
    is an error ends the run.
   */
  ghost predicate Enabled(h: State, e: Event) {
    match e
    case Send(x, c, r) =>
      Get(h.spaces, x.level).Some? && N.Random(Get(h.spaces, x.level).value.pns, r) && 0 < x.time
    case Ack(rs, level, c, c', lossDelay) =>
      ValidRanges(rs) && Get(h.spaces, level).Some? && !AckError(h, rs, level) && 0 < lossDelay
    case Timeout(c, c', lossDelay, r) => h.alarm != 0 && 0 < lossDelay && N.Random(h.spaces.app.pns, r)
    case Probe(level) => Get(h.spaces, level).Some?
    case Drop(level, c) => !level.OneRTT?
    case Retry(r) =>
      && h.client && h.spaces.initial.Some? && RandomSkip(r)
      && (h.spaces.handshake.Some? ==> h.spaces.handshake.value.history.packets == [])
    case Confirm(c) => h.spaces.initial.None? && h.spaces.handshake.None?
    case _ => true
  }

  function Next(h: State, e: Event): State {
    match e
    case Send(x, c, r) => if Get(h.spaces, x.level).Some? then SendState(h, x, c, r) else h
    case Ack(rs, level, c, c', lossDelay) =>
      if rs != [] && Get(h.spaces, level).Some? then AckState(h, rs, level, c, c', lossDelay) else h
    case Timeout(c, c', lossDelay, r) =>
      if !TimeoutBug(h, c) && SpacesPresent(h.spaces) then TimeoutState(h, c, c', lossDelay, r) else h
    case Probe(level) => if Get(h.spaces, level).Some? then ProbeState(h, level) else h
    case Drop(level, c) => DropState(h, level, c)
    case Retry(r) => if h.spaces.initial.Some? then RetryState(h, r) else h
    case Bytes(n, c) => BytesState(h, n, c)
    case Received(level, c) => ReceivedState(h, level, c)
    case Confirm(c) => ConfirmedState(h, c)
  }

  ghost predicate IsStart(h: State) {
    exists pn: nat, client, validated, r: nat :: RandomSkip(r) && h == Initially(pn, client, validated, r)
  }

  ghost predicate IsRun(hs: seq<State>, es: seq<Event>) {
    && |hs| == |es| + 1 && IsStart(hs[0])
    && forall i :: 0 <= i < |es| ==> Enabled(hs[i], es[i]) && hs[i + 1] == Next(hs[i], es[i])
  }

  lemma StartOk(h: State, m: H.Packet -> nat)
    requires IsStart(h)
    ensures Inv(h) && Balanced(h, m)
  {
    hide SpaceOk, Aligned;
    var pn: nat, client, validated, r: nat :| RandomSkip(r) && h == Initially(pn, client, validated, r);
    NewSpaceOk(N.Sequential(pn));
    NewSpaceOk(N.Sequential(0));
    NewSpaceOk(SkippingFrom(0, r));
  }

  lemma StepKeeps(h: State, e: Event, m: H.Packet -> nat)
    requires Inv(h) && Enabled(h, e) && ZeroOnSkipped(m)
    ensures Inv(Next(h, e)) && (Balanced(h, m) ==> Balanced(Next(h, e), m))
  {
    hide Inv, Balanced, ZeroOnSkipped, SendState, AckState, TimeoutState, ProbeState, DropState, RetryState,
         BytesState, ReceivedState, ConfirmedState, SpaceSum, TimeoutBug;
    match e {
      case Send(x, c, r) =>
        SendKeeps(h, x, c, r);
        SendBalanced(h, x, c, r, m);
      case Ack(rs, level, c, c', lossDelay) =>
        AckKeeps(h, rs, level, c, c', lossDelay);
        AckBalance(h, rs, level, c, c', lossDelay, m);
      case Timeout(c, c', lossDelay, r) =>
        TimeoutIsSafe(h, c);
        TimeoutKeeps(h, c, c', lossDelay, r, m);
      case Probe(level) =>
        ProbeKeeps(h, level);
        ProbeBalance(h, level, m);
      case Drop(level, c) =>
        DropKeeps(h, level, c, m);
      case Retry(r) =>
        NoHandshakePackets(h);
        RetryExact(h, r);
        RetryBalance(h, r, m);
      case Bytes(n, c) =>
        OthersKeep(h, n, H.Initial, c);
        OthersBalance(h, n, H.Initial, c, m);
      case Received(level, c) =>
        OthersKeep(h, 0, level, c);
        OthersBalance(h, 0, level, c, m);
      case Confirm(c) =>
        OthersKeep(h, 0, H.Initial, c);
        OthersBalance(h, 0, H.Initial, c, m);
    }
  }

  lemma SendBalanced(h: State, x: Outgoing, c: Clock, r: nat, m: H.Packet -> nat)
    requires Inv(h) && Get(h.spaces, x.level).Some? && N.Random(Get(h.spaces, x.level).value.pns, r) && 0 < x.time
    requires ZeroOnSkipped(m)
    ensures Balanced(h, m) ==> Balanced(SendState(h, x, c, r), m)
  {
    hide SendState, SpacesOk, Tracked, Pending, ZeroOnSkipped;
    SendBalance(h, x, c, r, m);
  }

  lemma OthersBalance(h: State, n: nat, level: H.Level, c: Clock, m: H.Packet -> nat)
    ensures Balanced(h, m) ==>
              Balanced(BytesState(h, n, c), m) && Balanced(ReceivedState(h, level, c), m)
                && Balanced(ConfirmedState(h, c), m)
  {
    hide Tracked, Pending, TimerValue;
  }

  lemma NoHandshakePackets(h: State)
    requires h.spaces.handshake.Some? ==> h.spaces.handshake.value.history.packets == []
    ensures SpaceSum(h.spaces.handshake, LENGTH) == 0
  {
  }

  /** In every reachable state the invariant holds, and each sent packet is in exactly one place. */
  lemma {:induction false} RunKeeps(hs: seq<State>, es: seq<Event>, m: H.Packet -> nat)
    requires IsRun(hs, es) && ZeroOnSkipped(m)
    ensures forall i :: 0 <= i < |hs| ==> Inv(hs[i]) && Balanced(hs[i], m)
  {
    hide Inv, Balanced, Enabled, Next, ZeroOnSkipped, IsStart;
    if es == [] {
      StartOk(hs[0], m);
    } else {
      var n := |es| - 1;
      RunKeeps(hs[..n + 1], es[..n], m);
      assert hs[..n + 1][n] == hs[n];
      StepKeeps(hs[n], es[n], m);
    }
  }

  /** The bytes in flight are those of the tracked packets; so they never become negative. */
  lemma BytesInFlight(hs: seq<State>, es: seq<Event>)
    requires IsRun(hs, es)
    ensures forall i :: 0 <= i < |hs| ==> hs[i].bytesInFlight == Tracked(hs[i].spaces, LENGTH) >= 0
  {
    hide IsRun, Tracked, SpacesOk, ModesOk, AlarmOk;
    LengthZeroOnSkipped();
    RunKeeps(hs, es, LENGTH);
  }

  /** Each number, popped or skipped, is the one that the history expects: it never panics. */
  lemma NumbersInOrder(hs: seq<State>, es: seq<Event>, i: nat)
    requires IsRun(hs, es) && i < |es| && (es[i].Send? || es[i].Timeout?)
    ensures var level := if es[i].Send? then es[i].x.level else H.OneRTT;
            Get(hs[i].spaces, level).Some?
    ensures var level := if es[i].Send? then es[i].x.level else H.OneRTT;
            var sp := Get(hs[i].spaces, level).value;
            && (N.Pop(sp.pns, es[i].r).1.skipped ==> H.Sequential(sp.history, NextNumber(sp) - 1))
            && H.Sequential(PopSpace(sp, es[i].r).history, NextNumber(sp))
  {
    hide Inv, Next, IsStart, Balanced, AckError;
    LengthZeroOnSkipped();
    RunKeeps(hs, es, LENGTH);
    assert Enabled(hs[i], es[i]);
    InOrderAt(hs[i], if es[i].Send? then es[i].x.level else H.OneRTT, es[i].r);
  }

  lemma InOrderAt(h: State, level: H.Level, r: nat)
    requires Inv(h) && Get(h.spaces, level).Some? && N.Random(Get(h.spaces, level).value.pns, r)
    ensures var sp := Get(h.spaces, level).value;
            && (N.Pop(sp.pns, r).1.skipped ==> H.Sequential(sp.history, NextNumber(sp) - 1))
            && H.Sequential(PopSpace(sp, r).history, NextNumber(sp))
  {
    hide SpaceOk, Aligned, SpacesOk, Tracked, AlarmOk, ModesOk, Get, H.Sum;
    var sp := Get(h.spaces, level).value;
    GetPut(h.spaces, level, sp, LENGTH);
    PopSpaceOk(sp, r, LENGTH);
  }

  /** A client that has sent a packet has a timer until it knows that the server has validated its address. */
  lemma NoDeadlock(hs: seq<State>, es: seq<Event>)
    requires IsRun(hs, es)
    ensures forall i :: 0 <= i < |hs| && !hs[i].completed && hs[i].log.active ==> hs[i].client && hs[i].alarm != 0
  {
    hide IsRun, Tracked, SpacesOk;
    LengthZeroOnSkipped();
    RunKeeps(hs, es, LENGTH);
  }

  /** Call `i` sends a packet, and no Retry comes after it. */
  ghost predicate SendsAt(es: seq<Event>, i: nat) {
    i < |es| && es[i].Send? && forall j :: i < j < |es| ==> !es[j].Retry?
  }

  /** `active` says that a packet was sent since the start or the last Retry. */
  lemma {:induction false} ActiveMeans(hs: seq<State>, es: seq<Event>)
    requires IsRun(hs, es)
    ensures hs[|es|].log.active <==> exists i :: SendsAt(es, i)
  {
    hide Inv, Enabled, Next;
    if es != [] {
      var n := |es| - 1;
      ActiveMeans(hs[..n + 1], es[..n]);
      assert hs[..n + 1][n] == hs[n];
      ActiveStep(hs[n], es[n]);
      if es[n].Send? {
        assert SendsAt(es, n);
      } else {
        forall i: nat ensures SendsAt(es, i) <==> SendsAt(es[..n], i) && !es[n].Retry? {
          SendsAtLast(es, i);
        }
      }
    }
  }

  lemma SendsAtLast(es: seq<Event>, i: nat)
    requires es != [] && !es[|es| - 1].Send?
    ensures SendsAt(es, i) <==> SendsAt(es[..|es| - 1], i) && !es[|es| - 1].Retry?
  {
    var n := |es| - 1;
    assert i < n ==> es[..n][i] == es[i];
    if SendsAt(es, i) {
      forall j | i < j < n ensures !es[..n][j].Retry? {
        assert es[..n][j] == es[j];
      }
    }
    if SendsAt(es[..n], i) && !es[n].Retry? {
      forall j | i < j < |es| ensures !es[j].Retry? {
        assert j < n ==> es[..n][j] == es[j];
      }
    }
  }

  lemma ActiveStep(h: State, e: Event)
    requires Enabled(h, e)
    ensures Next(h, e).log.active == (e.Send? || (h.log.active && !e.Retry?))
  {
    hide AckState, TimeoutState, ProbeState, DropState, BytesState, ReceivedState, ConfirmedState, Get,
         RetrySpaces, RetryLost, TimeoutBug, AckError, SpacesPresent, PopState, Put, PacketOf, TimerValue, SentSpace;
    if !e.Send? && !e.Retry? {
      QuietStep(h, e);
    }
  }

  // ---------------------------------------------------------------------------------------------
  // What only sending and a Retry change

  /** The numbers of the spaces that remain go on. */
  ghost predicate NumbersGoOn(s: Spaces, s': Spaces) {
    forall l :: Get(s', l).Some? ==> Get(s, l).Some? && Get(s, l).value.pns.next <= Get(s', l).value.pns.next
  }

  ghost predicate Quiet(h: State, h': State) {
    h'.log.sent == h.log.sent && h'.log.active == h.log.active && NumbersGoOn(h.spaces, h'.spaces)
  }

  lemma PutGoesOn(s: Spaces, l: H.Level, sp: Space)
    requires Get(s, l).Some? && Get(s, l).value.pns.next <= sp.pns.next
    ensures NumbersGoOn(s, Put(s, l, sp)) && Get(Put(s, l, sp), l).Some?
  {
  }

  lemma DetectQuiet(h: State, level: H.Level, now: nat, lossDelay: nat)
    requires Get(h.spaces, level).Some?
    ensures Quiet(h, DetectState(h, level, now, lossDelay))
  {
    hide Get, Put, NumbersGoOn, LossTime, LostPackets, LoseAll, Total;
    PutGoesOn(h.spaces, level, LossSpace(Get(h.spaces, level).value, now, lossDelay));
  }

  lemma AckQuiet(h: State, rs: seq<AckRange>, level: H.Level, c: Clock, c': Clock, lossDelay: nat)
    requires rs != [] && Get(h.spaces, level).Some?
    ensures Quiet(h, AckState(h, rs, level, c, c', lossDelay))
  {
    hide Get, Put, LoseAll, RemoveAll, Total, TimerValue, NewlyAcked, LowestNotConfirmed, DetectState;
    var h1 := ValidatingState(h, level, c);
    assert NumbersGoOn(h.spaces, h1.spaces);
    var acked := NewlyAcked(h1, rs, level);
    if acked != [] {
      PutGoesOn(h1.spaces, level, AckedSpace(Get(h1.spaces, level).value, acked, rs[0].largest));
      var h2 := RemovedState(h1, acked, level, rs[0].largest);
      DetectQuiet(h2, level, c.now, lossDelay);
    }
  }

  lemma TimeoutQuiet(h: State, c: Clock, c': Clock, lossDelay: nat, r: nat)
    requires !TimeoutBug(h, c) && SpacesPresent(h.spaces)
    ensures Quiet(h, TimeoutState(h, c, c', lossDelay, r))
  {
    hide Get, Put, TimerValue, TimeoutBug, PTOTimeAndSpace, LossTimeAndSpace, DetectState, SkipSpace;
    var (lossTime, level) := LossTimeAndSpace(h.spaces);
    DetectQuiet(h, level, c.now, lossDelay);
    SkipGoesOn(h.spaces, r);
    assert NumbersGoOn(h.spaces, h.spaces);
  }

  lemma SkipGoesOn(s: Spaces, r: nat)
    ensures NumbersGoOn(s, Put(s, H.OneRTT, SkipSpace(s.app, r)))
  {
    PutGoesOn(s, H.OneRTT, SkipSpace(s.app, r));
  }

  lemma ProbeQuiet(h: State, level: H.Level)
    requires Get(h.spaces, level).Some?
    ensures Quiet(h, ProbeState(h, level))
  {
    hide Get, Put, FirstOutstanding, LoseOne;
    var sp := Get(h.spaces, level).value;
    var p := FirstOutstanding(sp.history.packets);
    if p.Some? {
      PutGoesOn(h.spaces, level, ProbedSpace(sp, p.value));
    }
  }

  lemma DropQuiet(h: State, level: H.Level, c: Clock)
    ensures Quiet(h, DropState(h, level, c))
  {
    hide TimerValue, DroppedPackets, RemoveAll, Total;
  }

  lemma QuietStep(h: State, e: Event)
    requires Enabled(h, e) && !e.Send? && !e.Retry?
    ensures Quiet(h, Next(h, e))
  {
    hide AckState, TimeoutState, ProbeState, DropState, Get, TimeoutBug, AckError, SpacesPresent, TimerValue;
    match e {
      case Ack(rs, level, c, c', lossDelay) => AckQuiet(h, rs, level, c, c', lossDelay);
      case Timeout(c, c', lossDelay, r) =>
        if !TimeoutBug(h, c) && SpacesPresent(h.spaces) {
          TimeoutQuiet(h, c, c', lossDelay, r);
        }
      case Probe(level) => ProbeQuiet(h, level);
      case Drop(level, c) => DropQuiet(h, level, c);
      case _ =>
    }
  }

  // ---------------------------------------------------------------------------------------------
  // At most one report

  function Key(level: H.Level): nat {
    match level
    case Initial => 0
    case Handshake => 1
    case _ => 2
  }

  /** Counts the packet with this number in this space. */
  function Is(level: H.Level, n: nat): H.Packet -> nat {
    (p: H.Packet) => if !p.skipped && Key(p.level) == Key(level) && p.number == n then 1 else 0
  }

  lemma IsZeroOnSkipped(level: H.Level, n: nat)
    ensures ZeroOnSkipped(Is(level, n))
  {
  }

  /** A number is used at most once in a space, and not yet if the generator has not come to it. */
  ghost predicate UsedOnce(h: State, level: H.Level, n: nat) {
    && Total(h.log.sent, Is(level, n)) <= 1
    && (Get(h.spaces, level).Some? && Get(h.spaces, level).value.pns.next <= n ==> Total(h.log.sent, Is(level, n)) == 0)
  }

  lemma RetryGoesOn(h: State, r: nat)
    requires h.spaces.initial.Some?
    ensures NumbersGoOn(h.spaces, RetryState(h, r).spaces) && RetryState(h, r).log.sent == h.log.sent
  {
    hide RetryLost;
  }

  lemma UsedOnceSend(h: State, x: Outgoing, c: Clock, r: nat, level: H.Level, n: nat)
    requires Inv(h) && Get(h.spaces, x.level).Some? && N.Random(Get(h.spaces, x.level).value.pns, r) && 0 < x.time
    requires UsedOnce(h, level, n)
    ensures UsedOnce(SendState(h, x, c, r), level, n)
  {
    hide SpaceOk, Total, TimerValue, H.SkipNumber, PopHistory, Tracked, AlarmOk, ModesOk, Is, Get, Put, SentSpace,
         PopSpace, SpacesOk, N.Pop, NextNumber;
    var sp := Get(h.spaces, x.level).value;
    SpaceOkOf(h.spaces, x.level);
    SendNumbers(h.spaces, x, r, level);
    var p := PacketOf(NextNumber(sp), x);
    IsAt(p, x.level, level, n);
    TotalConcat(h.log.sent, [p], Is(level, n));
    TotalOne(p, Is(level, n));
  }

  lemma IsAt(p: H.Packet, own: H.Level, level: H.Level, n: nat)
    requires !p.skipped && p.level == own
    ensures Is(level, n)(p) == if Key(own) == Key(level) && p.number == n then 1 else 0
  {
  }

  /** The number goes to one space, where the generator comes to stand right behind it. */
  lemma SendNumbers(s: Spaces, x: Outgoing, r: nat, level: H.Level)
    requires Get(s, x.level).Some? && N.Valid(Get(s, x.level).value.pns) && N.Random(Get(s, x.level).value.pns, r)
    ensures var sp := Get(s, x.level).value;
            var sp1 := PopSpace(sp, r);
            var s' := Put(Put(s, x.level, sp1), x.level, SentSpace(sp1, NextNumber(sp), x));
            && Get(Put(s, x.level, sp1), x.level) == Some(sp1) && sp.pns.next <= NextNumber(sp)
            && (Get(s', level).Some? ==> Get(s, level).Some?)
            && (Key(level) != Key(x.level) ==> Get(s', level) == Get(s, level))
            && (Key(level) == Key(x.level) ==> Get(s, level) == Get(s, x.level) && Get(s', level).Some?)
            && (Key(level) == Key(x.level) ==> Get(s', level).value.pns.next == NextNumber(sp) + 1)
  {
    hide PopHistory, N.Pop, N.Valid, N.Random, PacketOf;
    var g := Get(s, x.level).value.pns;
    N.PopFacts(g, r, N.Pop(g, r).0, N.Pop(g, r).1);
  }

  lemma SpaceOkOf(s: Spaces, level: H.Level)
    requires SpacesOk(s) && Get(s, level).Some?
    ensures N.Valid(Get(s, level).value.pns)
  {
  }

  lemma {:induction false} RunUsesOnce(hs: seq<State>, es: seq<Event>, level: H.Level, n: nat)
    requires IsRun(hs, es)
    ensures UsedOnce(hs[|es|], level, n)
  {
    hide Inv, Enabled, Next, Balanced, UsedOnce, IsStart;
    if es == [] {
      StartUsesOnce(hs[0], level, n);
    } else {
      var k := |es| - 1;
      RunUsesOnce(hs[..k + 1], es[..k], level, n);
      assert hs[..k + 1][k] == hs[k];
      LengthZeroOnSkipped();
      RunKeeps(hs, es, LENGTH);
      UsedOnceStep(hs[k], es[k], level, n);
    }
  }

  lemma StartUsesOnce(h: State, level: H.Level, n: nat)
    requires IsStart(h)
    ensures UsedOnce(h, level, n)
  {
  }

  lemma UsedOnceStep(h: State, e: Event, level: H.Level, n: nat)
    requires Inv(h) && Enabled(h, e) && UsedOnce(h, level, n)
    ensures UsedOnce(Next(h, e), level, n)
  {
    hide Inv, SendState, Total, AckState, TimeoutState, ProbeState, DropState, RetryState;
    if e.Send? {
      UsedOnceSend(h, e.x, e.c, e.r, level, n);
    } else if e.Retry? {
      RetryGoesOn(h, e.r);
    } else {
      QuietStep(h, e);
    }
  }

  /**
    Over the whole run, the frames of the packet with a given number in a given space are reported at most
    once, as acknowledged or as lost, and not at all as long as the packet is tracked.
   */
  lemma ReportedOnce(hs: seq<State>, es: seq<Event>, level: H.Level, n: nat)
    requires IsRun(hs, es)
    ensures var h := hs[|es|];
            var m := Is(level, n);
            && Total(h.log.acked, m) + Total(h.log.lost, m) + Total(h.log.dropped, m) + Tracked(h.spaces, m)
               == Total(h.log.sent, m) <= 1
  {
    hide Inv, IsRun, Total, Tracked, Is;
    IsZeroOnSkipped(level, n);
    RunKeeps(hs, es, Is(level, n));
    RunUsesOnce(hs, es, level, n);
    RunLength(hs, es);
    assert Balanced(hs[|es|], Is(level, n));
  }

  lemma RunLength(hs: seq<State>, es: seq<Event>)
    requires IsRun(hs, es)
    ensures |hs| == |es| + 1
  {
  }
}
