/**
  A send stream and the receive stream of its peer, with a network between them that loses, reorders
  and duplicates frames at will.
 */
module EndToEnd {
  import opened Common
  import opened StreamFrames
  import FS = FrameSorter
  import S = SendStream
  import R = ReceiveStream

  /**
    `writing` is the data of the Write call that runs, `base` what had been taken before it;
    `resetSent` is the final size of the RESET_STREAM frame, once there is one; `delivered` is what Read
    has returned, and `eof` whether it has reported the end of the stream.
   */
  datatype World = World(
    sender: S.State,
    receiver: R.State,
    base: seq<byte>,
    writing: Option<seq<byte>>,
    resetSent: Option<int>,
    delivered: seq<byte>,
    eof: bool)

  datatype Event =
    | StartWrite(p: seq<byte>, write: S.WriteResult)
    | ContinueWrite(write: S.WriteResult)
    | Pop(frame: StreamFrame)
    | Acked(frame: StreamFrame)
    | Lost(frame: StreamFrame)
    | Close
    | CancelWrite(finalSize: Option<int>)
    | ShutdownSender
    | Deliver(frame: StreamFrame, putBack: Option<nat>, completed: bool)
    | DeliverReset(completed: bool)
    | Read(n: nat, read: R.ReadResult)
    | CancelRead(completed: bool)
    | ShutdownReceiver

  /** A step of the sender: everything else stays. */
  ghost predicate SenderStep(w: World, e: Event, w': World) {
    && w' == w.(sender := w'.sender, base := w'.base, writing := w'.writing, resetSent := w'.resetSent)
    && match e
       case StartWrite(p, r) =>
         && w.writing.None? && p != [] && !w.sender.finishedWriting && !w.sender.cancelled && !w.sender.shutdown
         && S.WriteSpec(w.sender.(dataForWriting := p), w'.sender, |p|, r)
         && w'.base == S.Accepted(w.sender) && w'.writing == (if r.Blocked? then Some(p) else None)
         && w'.resetSent == w.resetSent
       case ContinueWrite(r) =>
         && w.writing.Some? && S.WriteSpec(w.sender, w'.sender, |w.writing.value|, r)
         && w'.base == w.base && w'.writing == (if r.Blocked? then w.writing else None)
         && w'.resetSent == w.resetSent
       case Pop(f) => S.PopSpec(w.sender, w'.sender, f) && w' == w.(sender := w'.sender)
       case Acked(f) =>
         f in w.sender.outstanding && S.AckSpec(w.sender, w'.sender, f) && w' == w.(sender := w'.sender)
       case Lost(f) =>
         f in w.sender.outstanding && S.LossSpec(w.sender, w'.sender, f) && w' == w.(sender := w'.sender)
       case Close =>
         !w.sender.cancelled && !w.sender.shutdown && w' == w.(sender := w.sender.(finishedWriting := true))
       case CancelWrite(finalSize) =>
         && S.CancelSpec(w.sender, w'.sender, finalSize)
         && w' == w.(sender := w'.sender, resetSent := if finalSize.Some? then finalSize else w.resetSent)
       case ShutdownSender => w' == w.(sender := w.sender.(shutdown := true))
       case _ => false
  }

  /** A step of the receiver, which is handed any frame the sender has ever sent, or reads. */
  ghost predicate ReceiverStep(w: World, e: Event, w': World) {
    && w' == w.(receiver := w'.receiver, delivered := w'.delivered, eof := w'.eof)
    && match e
       case Deliver(f, cb, completed) =>
         && f in w.sender.emitted && R.FrameSpec(w.receiver, w'.receiver, f, cb, completed)
         && w'.delivered == w.delivered && w'.eof == w.eof
       case DeliverReset(completed) =>
         && w.resetSent.Some? && R.ResetSpec(w.receiver, w'.receiver, w.resetSent.value, completed)
         && w'.delivered == w.delivered && w'.eof == w.eof
       case Read(n, r) =>
         && R.ReadSpec(w.receiver, w'.receiver, n, r)
         && w'.delivered == w.delivered + R.DataOf(r)
         && w'.eof == (w.eof || (r.Done? && r.error == Some(R.EndOfStream)))
       case CancelRead(completed) =>
         R.CancelSpec(w.receiver, w'.receiver, completed) && w'.delivered == w.delivered && w'.eof == w.eof
       case ShutdownReceiver =>
         w'.receiver == w.receiver.(shutdown := true) && w'.delivered == w.delivered && w'.eof == w.eof
       case _ => false
  }

  ghost predicate Step(w: World, e: Event, w': World) {
    SenderStep(w, e, w') || ReceiverStep(w, e, w')
  }

  ghost predicate Initial(w: World) {
    && w.sender == S.INITIAL && R.Initial(w.receiver)
    && w == World(w.sender, w.receiver, [], None, None, [], false)
  }

  ghost predicate IsRun(worlds: seq<World>, events: seq<Event>) {
    && |worlds| == |events| + 1
    && Initial(worlds[0])
    && forall i :: 0 <= i < |events| ==> Step(worlds[i], events[i], worlds[i + 1])
  }

  // ---------------------------------------------------------------------------------------------
  // The invariant

  ghost predicate WritingOk(w: World) {
    match w.writing
    case None => w.sender.dataForWriting == [] || w.sender.cancelled || w.sender.shutdown
    case Some(p) =>
      |w.sender.dataForWriting| <= |p| && S.Accepted(w.sender) + w.sender.dataForWriting == w.base + p
  }

  /** What has been sent does not change any more. */
  predicate Frozen(s: S.State) {
    s.finSent || s.cancelled
  }

  ghost predicate FinalOk(w: World) {
    && (w.resetSent.Some? ==> w.sender.cancelled && w.resetSent.value == |w.sender.sent|)
    && (w.receiver.receivedFinalOffset ==> Frozen(w.sender) && w.receiver.finalOffset == |w.sender.sent|)
    && (w.receiver.receivedFinalOffset && !w.receiver.reset ==> w.sender.finSent)
    && w.receiver.highestReceived <= |w.sender.sent|
    && (w.eof ==> w.receiver.finRead)
    && (w.receiver.finRead ==> w.sender.finSent && w.delivered == w.sender.sent)
  }

  ghost predicate DeliveredOk(w: World) {
    && R.Holds(w.receiver, w.sender.sent)
    && |w.delivered| == R.Delivered(w.receiver) && w.delivered <= w.sender.sent
  }

  ghost predicate Inv(w: World) {
    S.Valid(w.sender) && R.Valid(w.receiver) && WritingOk(w) && FinalOk(w) && DeliveredOk(w)
  }

  lemma InitialInv(w: World)
    requires Initial(w)
    ensures Inv(w)
  {
    R.InitialOk(w.receiver);
    InitialSenderValid();
  }

  lemma InitialSenderValid()
    ensures S.Valid(S.INITIAL)
  {
  }

  lemma HoldsGrows(r: R.State, stream: seq<byte>, stream': seq<byte>)
    requires R.Holds(r, stream) && stream <= stream'
    ensures R.Holds(r, stream')
  {
    hide FS.HasByte;
    var lo, hi := r.sorter.readPos - |r.currentFrame|, r.sorter.readPos;
    assert stream'[lo..hi] == stream[lo..hi];
  }

  /** The receiver does not notice a step of the sender: what was sent only grows, until it is frozen. */
  lemma SenderMoves(w: World, w': World)
    requires Inv(w) && w'.receiver == w.receiver && w'.delivered == w.delivered && w'.eof == w.eof
    requires w.sender.sent <= w'.sender.sent
    requires Frozen(w.sender) ==> Frozen(w'.sender) && w'.sender.sent == w.sender.sent
    requires w.sender.finSent ==> w'.sender.finSent
    requires w'.resetSent.Some? ==> w'.sender.cancelled && w'.resetSent.value == |w'.sender.sent|
    ensures FinalOk(w') && DeliveredOk(w')
  {
    hide S.Valid, R.Valid;
    HoldsGrows(w.receiver, w.sender.sent, w'.sender.sent);
  }

  lemma WriteKeepsInv(w: World, e: Event, w': World)
    requires Inv(w) && SenderStep(w, e, w') && (e.StartWrite? || e.ContinueWrite?)
    ensures Inv(w')
    ensures e.StartWrite? && e.write.Returned? ==>
              0 <= e.write.n <= |e.p| && S.Accepted(w'.sender) == S.Accepted(w.sender) + e.p[..e.write.n]
    ensures e.ContinueWrite? && e.write.Returned? ==>
              0 <= e.write.n <= |w.writing.value| && S.Accepted(w'.sender) == w.base + w.writing.value[..e.write.n]
  {
    hide S.Valid, R.Valid, FinalOk, DeliveredOk;
    assert w'.sender.sent == w.sender.sent;
    assert w'.resetSent.Some? ==> w'.sender.cancelled && w'.resetSent.value == |w'.sender.sent| by { ResetKept(w); }
    SenderMoves(w, w');
    if e.ContinueWrite? && e.write.Returned? {
      var p, data := w.writing.value, w.sender.dataForWriting;
      PrefixOfSum(S.Accepted(w.sender), data, w.base, p, e.write.n);
    }
  }

  lemma ResetKept(w: World)
    requires FinalOk(w)
    ensures w.resetSent.Some? ==> w.sender.cancelled && w.resetSent.value == |w.sender.sent|
  {
  }

  lemma PrefixOfSum(a: seq<byte>, data: seq<byte>, base: seq<byte>, p: seq<byte>, n: int)
    requires a + data == base + p && |data| <= |p| && |p| - |data| <= n <= |p|
    ensures a + data[..n - (|p| - |data|)] == base + p[..n]
  {
    assert a + data[..n - (|p| - |data|)] == (a + data)[..|base| + n];
    assert base + p[..n] == (base + p)[..|base| + n];
  }

  lemma PopKeepsInv(w: World, f: StreamFrame, w': World)
    requires Inv(w) && SenderStep(w, Pop(f), w')
    ensures Inv(w')
  {
    hide R.Valid, S.FramesOk, S.NothingForgotten, S.AllAcked, FinalOk, DeliveredOk;
    ResetKept(w);
    SenderMoves(w, w');
  }

  lemma OtherSenderKeepsInv(w: World, e: Event, w': World)
    requires Inv(w) && SenderStep(w, e, w') && !e.StartWrite? && !e.ContinueWrite? && !e.Pop?
    ensures Inv(w')
  {
    hide R.Valid, S.FramesOk, S.NothingForgotten, S.AllAcked, FinalOk, DeliveredOk;
    ResetKept(w);
    SenderMoves(w, w');
    if e.Close? || e.ShutdownSender? {
      S.SameHistory(w.sender, w'.sender);
    }
  }

  lemma DeliverKeepsInv(w: World, f: StreamFrame, cb: Option<nat>, completed: bool, w': World)
    requires Inv(w) && ReceiverStep(w, Deliver(f, cb, completed), w')
    ensures Inv(w')
  {
    hide S.NothingForgotten, S.AllAcked, S.FieldsOk, R.Valid, FS.CallbackAdded, FS.QueueOf;
    assert S.FrameOk(f, w.sender.sent, w.sender.finSent);
    if !w.receiver.cancelled {
      FS.PushKeepsQueueOf(w.receiver.sorter, w'.receiver.sorter, f.data, f.offset, w.sender.sent);
      assert w'.receiver.sorter.readPos == w.receiver.sorter.readPos;
    }
  }

  lemma ReadKeepsInv(w: World, n: nat, r: R.ReadResult, w': World)
    requires Inv(w) && ReceiverStep(w, Read(n, r), w')
    ensures Inv(w')
  {
    hide S.Valid, R.Holds, R.SameOwed, R.NextMissing;
    var a, b, sent := R.Delivered(w.receiver), R.Delivered(w'.receiver), w.sender.sent;
    assert w'.delivered == sent[..a] + sent[a..b] == sent[..b];
    if r.Done? && r.completed {
      assert w'.receiver.receivedFinalOffset;
      assert b == |sent|;
    }
  }

  lemma OtherReceiverKeepsInv(w: World, e: Event, w': World)
    requires Inv(w) && ReceiverStep(w, e, w') && !e.Deliver? && !e.Read?
    ensures Inv(w')
  {
    hide S.Valid, FS.Valid, FS.QueueOf, FS.Received;
  }

  lemma StepKeepsInv(w: World, e: Event, w': World)
    requires Inv(w) && Step(w, e, w')
    ensures Inv(w')
  {
    hide Inv, SenderStep, ReceiverStep;
    if SenderStep(w, e, w') {
      if e.StartWrite? || e.ContinueWrite? {
        WriteKeepsInv(w, e, w');
      } else if e.Pop? {
        PopKeepsInv(w, e.frame, w');
      } else {
        OtherSenderKeepsInv(w, e, w');
      }
    } else {
      match e
      case Deliver(f, cb, completed) => DeliverKeepsInv(w, f, cb, completed, w');
      case Read(n, r) => ReadKeepsInv(w, n, r, w');
      case _ => OtherReceiverKeepsInv(w, e, w');
    }
  }

  lemma {:induction false} RunKeepsInv(worlds: seq<World>, events: seq<Event>)
    requires IsRun(worlds, events)
    ensures Inv(worlds[|events|])
    decreases |events|
  {
    hide Inv, Step, Initial;
    if events == [] {
      InitialInv(worlds[0]);
    } else {
      var n := |events| - 1;
      RunKeepsInv(worlds[..|events|], events[..n]);
      assert worlds[..|events|][n] == worlds[n];
      StepKeepsInv(worlds[n], events[n], worlds[n + 1]);
    }
  }

  // ---------------------------------------------------------------------------------------------
  // What the two streams promise together

  /**
    In every run, what Read has returned is a prefix of what Write has taken; once Read has reported
    the end of the stream, it is all of it, and the sender had closed the stream.
   */
  lemma PrefixDelivered(worlds: seq<World>, events: seq<Event>)
    requires IsRun(worlds, events)
    ensures var w := worlds[|events|];
            && w.delivered <= S.Accepted(w.sender)
            && (w.eof ==> w.delivered == S.Accepted(w.sender) && w.sender.finishedWriting)
  {
    RunKeepsInv(worlds, events);
    var w := worlds[|events|];
    assert w.sender.sent <= S.Accepted(w.sender);
  }

  /** When Write returns n, the first n bytes of the call, and no others, follow what was taken before it. */
  lemma WriteReturns(worlds: seq<World>, events: seq<Event>, e: Event, w': World)
    requires IsRun(worlds, events) && SenderStep(worlds[|events|], e, w')
    requires (e.StartWrite? || e.ContinueWrite?) && e.write.Returned?
    ensures var w := worlds[|events|];
            var p := if e.StartWrite? then e.p else w.writing.value;
            var base := if e.StartWrite? then S.Accepted(w.sender) else w.base;
            0 <= e.write.n <= |p| && S.Accepted(w'.sender) == base + p[..e.write.n]
  {
    RunKeepsInv(worlds, events);
    WriteKeepsInv(worlds[|events|], e, w');
  }

  /** The receiver never rejects a frame of the sender for its final size. */
  lemma NoFinalSizeError(worlds: seq<World>, events: seq<Event>, f: StreamFrame, window: int, connectionOk: bool)
    requires IsRun(worlds, events) && f in worlds[|events|].sender.emitted
    ensures var r := worlds[|events|].receiver;
            R.UpdateHighestReceived(r.highestReceived, r.receivedFinalOffset, End(f), f.fin, window, connectionOk)
              != R.Rejected(R.FinalSizeError)
  {
    RunKeepsInv(worlds, events);
    var w := worlds[|events|];
    assert S.FrameOk(f, w.sender.sent, w.sender.finSent);
  }

  /** Nor does it reject the RESET_STREAM frame. */
  lemma NoFinalSizeErrorOnReset(worlds: seq<World>, events: seq<Event>, window: int, connectionOk: bool)
    requires IsRun(worlds, events) && worlds[|events|].resetSent.Some?
    ensures var w := worlds[|events|];
            R.UpdateHighestReceived(w.receiver.highestReceived, w.receiver.receivedFinalOffset, w.resetSent.value, true,
                                    window, connectionOk)
              != R.Rejected(R.FinalSizeError)
  {
    RunKeepsInv(worlds, events);
  }

  /**
    A send stream reports completion at most once; unless it was cancelled, it does so only after the
    FIN and every byte that Write took have been acknowledged.
   */
  lemma SenderCompletes(worlds: seq<World>, events: seq<Event>)
    requires IsRun(worlds, events)
    ensures var s := worlds[|events|].sender;
            && s.reports <= 1
            && (s.reports == 1 && !s.cancelled ==> S.AllAcked(s) && s.sent == S.Accepted(s))
  {
    RunKeepsInv(worlds, events);
  }
}
