/**
  A send stream together with the sent packet handler: the frames of the stream travel in packets, and the
  handler reports each as acknowledged or as lost, while the peer reads.
 */
module Retransmission {
  import opened Common
  import opened LossRecovery
  import opened PacketSpaces
  import opened SentPacketHandler
  import opened StreamFrames
  import E = EndToEnd
  import H = SentPacketHistory
  import P = SentPacketRuns
  import R = ReceiveStream
  import S = SendStream

  /** The frame of this stream that has a number; other frames belong to other streams or to the connection. */
  type Owner = nat -> Option<StreamFrame>

  datatype Report = Report(frame: StreamFrame, acked: bool)

  /**
    The two streams and the network, the handler, the frames that were taken from the stream for a packet that
    is not yet sent, and the reports that the handler has made and the stream has not yet seen.
   */
  datatype World = World(
    ends: E.World,
    handler: State,
    unsent: multiset<StreamFrame>,
    reports: seq<Report>)

  datatype Event =
    | Stream(se: E.Event)
    | Take(frame: StreamFrame)
    | Handle(he: P.Event)
    | Notify

  // ---------------------------------------------------------------------------------------------
  // Frames in packets

  /** The frames of this stream among those of a packet. */
  ghost function FramesOf(owner: Owner, ids: seq<nat>): multiset<StreamFrame> {
    if ids == [] then multiset{}
    else
      var f := owner(ids[|ids| - 1]);
      FramesOf(owner, ids[..|ids| - 1]) + if f.Some? then multiset{f.value} else multiset{}
  }

  /** How often a packet carries a frame. */
  ghost function Carrying(owner: Owner, f: StreamFrame): H.Packet -> nat {
    (p: H.Packet) => if p.skipped then 0 else FramesOf(owner, p.frames)[f]
  }

  lemma CarryingZeroOnSkipped(owner: Owner, f: StreamFrame)
    ensures ZeroOnSkipped(Carrying(owner, f))
  {
  }

  function PacketReports(owner: Owner, ids: seq<nat>, acked: bool): seq<Report> {
    if ids == [] then []
    else
      var f := owner(ids[|ids| - 1]);
      PacketReports(owner, ids[..|ids| - 1], acked) + if f.Some? then [Report(f.value, acked)] else []
  }

  /** The handler reports the frames of each packet in turn. */
  function Reports(owner: Owner, ps: seq<H.Packet>, acked: bool): seq<Report> {
    if ps == [] then []
    else
      var p := ps[|ps| - 1];
      Reports(owner, ps[..|ps| - 1], acked) + if p.skipped then [] else PacketReports(owner, p.frames, acked)
  }

  ghost function Reported(rs: seq<Report>): multiset<StreamFrame> {
    if rs == [] then multiset{} else Reported(rs[..|rs| - 1]) + multiset{rs[|rs| - 1].frame}
  }

  lemma SumOfThree(a: multiset<StreamFrame>, b: multiset<StreamFrame>, c: multiset<StreamFrame>)
    ensures (a + b) + c == a + (b + c)
  {
  }

  lemma {:induction false} ReportedConcat(a: seq<Report>, b: seq<Report>)
    ensures Reported(a + b) == Reported(a) + Reported(b)
  {
    if b == [] {
      assert a + b == a;
    } else {
      var n := |b| - 1;
      ReportedConcat(a, b[..n]);
      assert (a + b)[..|a + b| - 1] == a + b[..n] && (a + b)[|a + b| - 1] == b[n];
      SumOfThree(Reported(a), Reported(b[..n]), multiset{b[n].frame});
    }
  }

  lemma {:induction false} PacketReported(owner: Owner, ids: seq<nat>, acked: bool)
    ensures Reported(PacketReports(owner, ids, acked)) == FramesOf(owner, ids)
  {
    if ids != [] {
      var n := |ids| - 1;
      var front := PacketReports(owner, ids[..n], acked);
      PacketReported(owner, ids[..n], acked);
      if owner(ids[n]).Some? {
        var all := front + [Report(owner(ids[n]).value, acked)];
        assert PacketReports(owner, ids, acked) == all && all[..|all| - 1] == front;
      } else {
        assert PacketReports(owner, ids, acked) == front;
      }
    }
  }

  /** Packets bring as many reports of a frame as they carry it. */
  lemma {:induction false} ReportsExactly(owner: Owner, ps: seq<H.Packet>, acked: bool, f: StreamFrame)
    ensures Reported(Reports(owner, ps, acked))[f] == Total(ps, Carrying(owner, f))
  {
    if ps != [] {
      var n := |ps| - 1;
      ReportsExactly(owner, ps[..n], acked, f);
      var last := if ps[n].skipped then [] else PacketReports(owner, ps[n].frames, acked);
      PacketReported(owner, ps[n].frames, acked);
      ReportedConcat(Reports(owner, ps[..n], acked), last);
    }
  }

  // ---------------------------------------------------------------------------------------------
  // Steps

  /** What the log has gained. */
  function Gained(log: seq<H.Packet>, log': seq<H.Packet>): seq<H.Packet> {
    if |log| <= |log'| then log'[|log|..] else []
  }

  ghost predicate HandlerStep(owner: Owner, w: World, e: P.Event, w': World) {
    var log, log' := w.handler.log, w'.handler.log;
    && P.Enabled(w.handler, e) && w'.handler == P.Next(w.handler, e) && w'.ends == w.ends
    && (e.Send? ==> FramesOf(owner, e.x.frames) <= w.unsent)
    && w'.unsent == (if e.Send? then w.unsent - FramesOf(owner, e.x.frames) else w.unsent)
    && w'.reports == w.reports + Reports(owner, Gained(log.acked, log'.acked), true)
                     + Reports(owner, Gained(log.lost, log'.lost), false)
  }

  /** The stream sees the first report; nothing here says that the frame is one it waits for. */
  ghost predicate ReportStep(w: World, w': World) {
    && w.reports != [] && w' == w.(ends := w.ends.(sender := w'.ends.sender), reports := w.reports[1..])
    && var r := w.reports[0];
       if r.acked then S.AckSpec(w.ends.sender, w'.ends.sender, r.frame)
       else S.LossSpec(w.ends.sender, w'.ends.sender, r.frame)
  }

  ghost predicate Step(owner: Owner, w: World, e: Event, w': World) {
    match e
    case Stream(se) =>
      !se.Pop? && !se.Acked? && !se.Lost? && E.Step(w.ends, se, w'.ends) && w' == w.(ends := w'.ends)
    case Take(f) =>
      E.Step(w.ends, E.Pop(f), w'.ends) && w' == w.(ends := w'.ends, unsent := w.unsent + multiset{f})
    case Handle(he) => HandlerStep(owner, w, he, w')
    case Notify => ReportStep(w, w')
  }

  ghost predicate Initial(w: World) {
    E.Initial(w.ends) && P.IsStart(w.handler) && w.unsent == multiset{} && w.reports == []
  }

  ghost predicate IsRun(owner: Owner, ws: seq<World>, es: seq<Event>) {
    && |ws| == |es| + 1 && Initial(ws[0])
    && forall i :: 0 <= i < |es| ==> Step(owner, ws[i], es[i], ws[i + 1])
  }

  // ---------------------------------------------------------------------------------------------
  // Conservation

  /** Where the frames are that the stream waits for: not sent, in a packet that is not reported, or reported. */
  ghost predicate Accounted(owner: Owner, w: World, f: StreamFrame) {
    var m, log := Carrying(owner, f), w.handler.log;
    w.ends.sender.outstanding[f] ==
      w.unsent[f] + Total(log.sent, m) - Total(log.acked, m) - Total(log.lost, m) + Reported(w.reports)[f]
  }

  lemma DetectGrows(h: State, level: H.Level, now: nat, lossDelay: nat)
    requires Get(h.spaces, level).Some?
    ensures var h' := DetectState(h, level, now, lossDelay);
            h'.log.acked == h.log.acked && h.log.lost <= h'.log.lost
  {
    hide Get, Put, LostPackets, LossSpace, Total;
  }

  lemma AckGrows(h: State, rs: seq<AckRange>, level: H.Level, c: Clock, c': Clock, lossDelay: nat)
    requires rs != [] && Get(h.spaces, level).Some?
    ensures var h' := AckState(h, rs, level, c, c', lossDelay);
            h.log.acked <= h'.log.acked && h.log.lost <= h'.log.lost
  {
    hide Get, Put, TimerValue, NewlyAcked, LowestNotConfirmed, DetectState, AckedSpace, Total;
    var h1 := ValidatingState(h, level, c);
    var acked := NewlyAcked(h1, rs, level);
    if acked != [] {
      RemovedHas(h1, acked, level, rs[0].largest);
      DetectGrows(RemovedState(h1, acked, level, rs[0].largest), level, c.now, lossDelay);
    }
  }

  lemma TimeoutGrows(h: State, c: Clock, c': Clock, lossDelay: nat, r: nat)
    requires !TimeoutBug(h, c) && SpacesPresent(h.spaces)
    ensures var h' := TimeoutState(h, c, c', lossDelay, r);
            h'.log.acked == h.log.acked && h.log.lost <= h'.log.lost
  {
    hide Get, Put, TimerValue, TimeoutBug, PTOTimeAndSpace, LossTimeAndSpace, DetectState, SkipSpace;
    var (lossTime, level) := LossTimeAndSpace(h.spaces);
    DetectGrows(h, level, c.now, lossDelay);
  }

  /** The handler forgets no report that it has made. */
  lemma LogGrows(h: State, e: P.Event)
    ensures var h' := P.Next(h, e);
            h.log.acked <= h'.log.acked && h.log.lost <= h'.log.lost
  {
    hide Get, Put, AckState, TimeoutState, TimerValue, TimeoutBug, SpacesPresent, DroppedPackets, DropSpaces,
         RetrySpaces, RetryLost, FirstOutstanding, ProbedSpace, SentSpace, PopSpace, Total, PacketOf;
    match e {
      case Ack(rs, level, c, c', lossDelay) =>
        if rs != [] && Get(h.spaces, level).Some? {
          AckGrows(h, rs, level, c, c', lossDelay);
        }
      case Timeout(c, c', lossDelay, r) =>
        if !TimeoutBug(h, c) && SpacesPresent(h.spaces) {
          TimeoutGrows(h, c, c', lossDelay, r);
        }
      case _ =>
    }
  }

  lemma SentIsLogged(owner: Owner, h: State, x: Outgoing, c: Clock, r: nat, f: StreamFrame)
    requires Get(h.spaces, x.level).Some?
    ensures Total(SendState(h, x, c, r).log.sent, Carrying(owner, f)) ==
            Total(h.log.sent, Carrying(owner, f)) + FramesOf(owner, x.frames)[f]
  {
    hide Get, Put, TimerValue, SentSpace, PopSpace, Total;
    if x.frames != [] {
      var p := PacketOf(NextNumber(Get(h.spaces, x.level).value), x);
      TotalConcat(h.log.sent, [p], Carrying(owner, f));
      TotalOne(p, Carrying(owner, f));
    }
  }

  /** What is added to the packets that were sent are the frames of a packet that is. */
  lemma SendLogs(owner: Owner, h: State, e: P.Event, f: StreamFrame)
    requires P.Enabled(h, e)
    ensures Total(P.Next(h, e).log.sent, Carrying(owner, f)) ==
            Total(h.log.sent, Carrying(owner, f)) + if e.Send? then FramesOf(owner, e.x.frames)[f] else 0
  {
    hide Total, Get, SendState, AckState, TimeoutState, ProbeState, DropState, RetryState, Carrying, FramesOf,
         TimerValue;
    if e.Send? {
      SentIsLogged(owner, h, e.x, e.c, e.r, f);
    } else if e.Retry? {
      P.RetryGoesOn(h, e.r);
    } else {
      P.QuietStep(h, e);
    }
  }

  lemma GainedTotal(log: seq<H.Packet>, log': seq<H.Packet>, m: H.Packet -> nat)
    requires log <= log'
    ensures Total(log', m) == Total(log, m) + Total(Gained(log, log'), m)
  {
    assert log' == log + Gained(log, log');
    TotalConcat(log, Gained(log, log'), m);
  }

  lemma HandlerKeeps(owner: Owner, w: World, e: P.Event, w': World, f: StreamFrame)
    requires HandlerStep(owner, w, e, w') && Accounted(owner, w, f)
    ensures Accounted(owner, w', f)
  {
    hide P.Enabled, P.Next, Total, Carrying, Reports, Reported, FramesOf, Gained;
    var log, log', m := w.handler.log, w'.handler.log, Carrying(owner, f);
    LogGrows(w.handler, e);
    SendLogs(owner, w.handler, e, f);
    GainedTotal(log.acked, log'.acked, m);
    GainedTotal(log.lost, log'.lost, m);
    var acked := Reports(owner, Gained(log.acked, log'.acked), true);
    var lost := Reports(owner, Gained(log.lost, log'.lost), false);
    ReportsExactly(owner, Gained(log.acked, log'.acked), true, f);
    ReportsExactly(owner, Gained(log.lost, log'.lost), false, f);
    ReportedConcat(w.reports + acked, lost);
    ReportedConcat(w.reports, acked);
  }

  lemma StreamKeeps(w: World, e: E.Event, w': World)
    requires !e.Pop? && !e.Acked? && !e.Lost? && E.Step(w.ends, e, w'.ends)
    ensures w'.ends.sender.outstanding == w.ends.sender.outstanding
  {
    hide S.Valid, S.Accepted, R.FrameSpec, R.ResetSpec, R.ReadSpec, R.CancelSpec, R.DataOf;
  }

  /** A packet that is tracked or forgotten still carries its frames: no more is reported than was sent. */
  lemma Conserved(h: State, m: H.Packet -> nat)
    requires Balanced(h, m)
    ensures Total(h.log.sent, m) - Total(h.log.acked, m) - Total(h.log.lost, m)
            == Tracked(h.spaces, m) + Total(h.log.dropped, m) >= 0
  {
  }

  lemma FirstReported(rs: seq<Report>)
    requires rs != []
    ensures Reported(rs) == multiset{rs[0].frame} + Reported(rs[1..])
  {
    assert rs == rs[..1] + rs[1..];
    ReportedConcat(rs[..1], rs[1..]);
    assert rs[..1][..0] == [];
  }

  /** The first report is about a frame that the stream waits for. */
  lemma ReportIsOutstanding(owner: Owner, w: World)
    requires w.reports != []
    requires var f := w.reports[0].frame;
             Accounted(owner, w, f) && Balanced(w.handler, Carrying(owner, f))
    ensures w.reports[0].frame in w.ends.sender.outstanding
  {
    hide Total, Carrying, Reported, Balanced, Tracked;
    var f := w.reports[0].frame;
    Conserved(w.handler, Carrying(owner, f));
    FirstReported(w.reports);
  }

  lemma ReportKeeps(owner: Owner, w: World, w': World, f: StreamFrame)
    requires ReportStep(w, w') && Accounted(owner, w, f) && w.reports[0].frame in w.ends.sender.outstanding
    ensures Accounted(owner, w', f)
  {
    hide Total, Carrying, Reported, S.Valid;
    FirstReported(w.reports);
  }

  lemma StepKeeps(owner: Owner, w: World, e: Event, w': World, f: StreamFrame)
    requires Step(owner, w, e, w') && Accounted(owner, w, f)
    requires e.Notify? ==> w.reports[0].frame in w.ends.sender.outstanding
    ensures Accounted(owner, w', f)
  {
    hide Total, Carrying, Reported, E.Step, HandlerStep, ReportStep;
    match e {
      case Stream(se) => StreamKeeps(w, se, w');
      case Take(g) => TakeKeeps(w, g, w');
      case Handle(he) =>
        HandlerKeeps(owner, w, he, w', f);
      case Notify => ReportKeeps(owner, w, w', f);
    }
  }

  lemma TakeKeeps(w: World, f: StreamFrame, w': World)
    requires E.Step(w.ends, E.Pop(f), w'.ends)
    ensures w'.ends.sender.outstanding == w.ends.sender.outstanding + multiset{f}
  {
    hide S.Valid, S.PopNewSpec, S.PopLostSpec;
  }

  /** The handler makes a run of its own. */
  ghost predicate HandlerOk(w: World, m: H.Packet -> nat) {
    Inv(w.handler) && Balanced(w.handler, m)
  }

  lemma HandlerStepOk(owner: Owner, w: World, e: Event, w': World, f: StreamFrame)
    requires Step(owner, w, e, w') && HandlerOk(w, Carrying(owner, f))
    ensures HandlerOk(w', Carrying(owner, f))
  {
    hide Inv, Balanced, P.Enabled, P.Next, Carrying, E.Step;
    if e.Handle? {
      CarryingZeroOnSkipped(owner, f);
      P.StepKeeps(w.handler, e.he, Carrying(owner, f));
    }
  }

  /** In every run, every frame that the stream waits for is accounted for. */
  lemma {:induction false} RunKeeps(owner: Owner, ws: seq<World>, es: seq<Event>, f: StreamFrame)
    requires IsRun(owner, ws, es)
    ensures Accounted(owner, ws[|es|], f) && HandlerOk(ws[|es|], Carrying(owner, f))
    decreases |es|
  {
    hide Initial, Step, Accounted, HandlerOk, Carrying;
    if es == [] {
      InitialOk(owner, ws[0], f);
    } else {
      var n := |es| - 1;
      RunKeeps(owner, ws[..n + 1], es[..n], f);
      assert ws[..n + 1][n] == ws[n];
      HandlerStepOk(owner, ws[n], es[n], ws[n + 1], f);
      if es[n].Notify? {
        HasReport(owner, ws[n], ws[n + 1]);
        var g := ws[n].reports[0].frame;
        RunKeeps(owner, ws[..n + 1], es[..n], g);
        HandlerBalanced(ws[n], Carrying(owner, g));
        ReportIsOutstanding(owner, ws[n]);
      }
      StepKeeps(owner, ws[n], es[n], ws[n + 1], f);
    }
  }

  lemma HasReport(owner: Owner, w: World, w': World)
    requires Step(owner, w, Notify, w')
    ensures w.reports != []
  {
  }

  lemma HandlerBalanced(w: World, m: H.Packet -> nat)
    requires HandlerOk(w, m)
    ensures Balanced(w.handler, m)
  {
  }

  lemma InitialOk(owner: Owner, w: World, f: StreamFrame)
    requires Initial(w)
    ensures Accounted(owner, w, f) && HandlerOk(w, Carrying(owner, f))
  {
    hide Inv, Balanced, Carrying;
    P.StartOk(w.handler, Carrying(owner, f));
  }

  // ---------------------------------------------------------------------------------------------
  // What the handler and the stream promise together

  /**
    In every run, the stream waits for a frame exactly as often as it is in a packet that is not sent yet, in
    one that the handler tracks, in one that was forgotten with its keys, or in a report on its way.
   */
  lemma EveryFrameIsSomewhere(owner: Owner, ws: seq<World>, es: seq<Event>, f: StreamFrame)
    requires IsRun(owner, ws, es)
    ensures var w, m := ws[|es|], Carrying(owner, f);
            w.ends.sender.outstanding[f] ==
            w.unsent[f] + Tracked(w.handler.spaces, m) + Total(w.handler.log.dropped, m) + Reported(w.reports)[f]
  {
    hide IsRun, Total, Tracked, Inv, Carrying, Reported;
    RunKeeps(owner, ws, es, f);
    RunLength(owner, ws, es);
    Conserved(ws[|es|].handler, Carrying(owner, f));
  }

  lemma RunLength(owner: Owner, ws: seq<World>, es: seq<Event>)
    requires IsRun(owner, ws, es)
    ensures |ws| == |es| + 1
  {
  }

  /** So whatever the handler reports, the stream waits for: what OnAcked and OnLost ask for always holds. */
  lemma ReportsAreExpected(owner: Owner, ws: seq<World>, es: seq<Event>)
    requires IsRun(owner, ws, es)
    ensures Reported(ws[|es|].reports) <= ws[|es|].ends.sender.outstanding
  {
    hide IsRun, Total, Tracked, Carrying, Reported;
    RunLength(owner, ws, es);
    var w := ws[|es|];
    forall f ensures Reported(w.reports)[f] <= w.ends.sender.outstanding[f] {
      EveryFrameIsSomewhere(owner, ws, es, f);
    }
  }

  /** The event of the two streams that a step is, if it is one. */
  function StreamEvent(w: World, e: Event): Option<E.Event> {
    match e
    case Stream(se) => Some(se)
    case Take(f) => Some(E.Pop(f))
    case Handle(_) => None
    case Notify =>
      if w.reports == [] then None
      else Some(if w.reports[0].acked then E.Acked(w.reports[0].frame) else E.Lost(w.reports[0].frame))
  }

  lemma StreamStep(owner: Owner, w: World, e: Event, w': World)
    requires Step(owner, w, e, w')
    requires e.Notify? ==> w.reports[0].frame in w.ends.sender.outstanding
    ensures var se := StreamEvent(w, e);
            if se.Some? then E.Step(w.ends, se.value, w'.ends) else w'.ends == w.ends
  {
    hide S.AckSpec, S.LossSpec, P.Enabled, P.Next;
    if e.Notify? {
      assert E.SenderStep(w.ends, StreamEvent(w, e).value, w'.ends);
    }
  }

  /** With the handler in between, the two streams still make a run of their own. */
  lemma {:induction false} Projects(owner: Owner, ws: seq<World>, es: seq<Event>)
    returns (worlds: seq<E.World>, events: seq<E.Event>)
    requires IsRun(owner, ws, es)
    ensures E.IsRun(worlds, events) && |worlds| == |events| + 1 && worlds[|events|] == ws[|es|].ends
    decreases |es|
  {
    hide Step, E.Step, E.IsRun, Reported, StreamEvent;
    if es == [] {
      InitialEnds(ws[0]);
      worlds, events := [ws[0].ends], [];
    } else {
      var n := |es| - 1;
      worlds, events := Projects(owner, ws[..n + 1], es[..n]);
      assert ws[..n + 1][n] == ws[n];
      if es[n].Notify? {
        HasReport(owner, ws[n], ws[n + 1]);
        ReportsAreExpected(owner, ws[..n + 1], es[..n]);
        FirstReported(ws[n].reports);
      }
      StreamStep(owner, ws[n], es[n], ws[n + 1]);
      var se := StreamEvent(ws[n], es[n]);
      if se.Some? {
        ExtendRun(worlds, events, se.value, ws[n + 1].ends);
        worlds, events := worlds + [ws[n + 1].ends], events + [se.value];
      }
    }
  }

  lemma InitialEnds(w: World)
    requires Initial(w)
    ensures E.IsRun([w.ends], [])
  {
  }

  lemma ExtendRun(worlds: seq<E.World>, events: seq<E.Event>, e: E.Event, w: E.World)
    requires E.IsRun(worlds, events) && E.Step(worlds[|events|], e, w)
    ensures E.IsRun(worlds + [w], events + [e]) && |worlds| == |events| + 1
  {
    hide E.Step, E.Initial;
  }

  /**
    Over any loss, reordering and duplication, and with the handler deciding what is acknowledged and what is
    sent again: what Read has returned is a prefix of what Write has taken, all of it once the end was reported;
    and the stream completes at most once, and only after all of it was acknowledged, unless it was cancelled.
   */
  lemma Reliable(owner: Owner, ws: seq<World>, es: seq<Event>)
    requires IsRun(owner, ws, es)
    ensures var w := ws[|es|].ends;
            && w.delivered <= S.Accepted(w.sender)
            && (w.eof ==> w.delivered == S.Accepted(w.sender) && w.sender.finishedWriting)
            && w.sender.reports <= 1
            && (w.sender.reports == 1 && !w.sender.cancelled ==>
                  S.AllAcked(w.sender) && w.sender.sent == S.Accepted(w.sender))
  {
    hide Step, E.IsRun;
    var worlds, events := Projects(owner, ws, es);
    E.PrefixDelivered(worlds, events);
    E.SenderCompletes(worlds, events);
  }
}
