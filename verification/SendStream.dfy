/**
  The sending half of a stream. Every method is one section of the program under its mutex; Write,
  which waits for packets to be sent, is the section up to the wait and the section behind it.
 */
module SendStream {
  import opened Common
  import opened StreamFrames
  import FS = FrameSorter

  /**
    The fields of the stream and, in the second half, its history: the data handed out in
    new frames, every frame handed out, the frames not yet reported acknowledged or lost, the frames
    acknowledged, and the number of times completion was reported.
   */
  datatype State = State(
    writeOffset: int,
    nextFrame: Option<StreamFrame>,
    dataForWriting: seq<byte>,
    retransmissionQueue: seq<StreamFrame>,
    numOutstandingFrames: int,
    cancelled: bool,
    shutdown: bool,
    finishedWriting: bool,
    finSent: bool,
    completed: bool,
    sent: seq<byte>,
    emitted: set<StreamFrame>,
    outstanding: multiset<StreamFrame>,
    acked: set<StreamFrame>,
    reports: nat)

  /** The history of the frames alone. */
  datatype Frames = Frames(sent: seq<byte>, emitted: set<StreamFrame>, outstanding: multiset<StreamFrame>,
                           acked: set<StreamFrame>)

  function Buffered(s: State): seq<byte> {
    if s.nextFrame.Some? then s.nextFrame.value.data else []
  }

  /** The data that Write has taken: handed out, or buffered for the next frame. */
  function Accepted(s: State): seq<byte> {
    s.sent + Buffered(s)
  }

  predicate Carries(f: StreamFrame, x: int) {
    f.offset <= x < End(f)
  }

  /** The stream still answers for `f`: it is acknowledged, on its way, or waits to be sent again. */
  ghost predicate Held(s: State, f: StreamFrame) {
    f in s.acked || f in s.outstanding || f in s.retransmissionQueue
  }

  ghost predicate ByteHeld(s: State, x: int) {
    exists f :: Held(s, f) && Carries(f, x)
  }

  ghost predicate FinHeld(s: State) {
    exists f :: Held(s, f) && f.fin
  }

  /** A frame holds bytes of the stream at their offsets; a frame with the FIN bit reaches to the end. */
  ghost predicate FrameOk(f: StreamFrame, sent: seq<byte>, finSent: bool) {
    && FS.FrameOf(f.data, f.offset, sent)
    && (f.fin ==> finSent && End(f) == |sent|)
  }

  ghost predicate ByteAcked(s: State, x: int) {
    exists f :: f in s.acked && Carries(f, x)
  }

  /** The FIN was sent, and it and every byte below writeOffset was acknowledged in some frame. */
  ghost predicate AllAcked(s: State) {
    && s.finSent
    && (forall x :: 0 <= x < |s.sent| ==> ByteAcked(s, x))
    && (exists f :: f in s.acked && f.fin)
  }

  ghost predicate FieldsOk(s: State) {
    && s.writeOffset == |s.sent| <= MAX_BYTE_COUNT
    && (s.nextFrame.Some? ==> s.nextFrame.value.offset == s.writeOffset && !s.nextFrame.value.fin)
    && (s.nextFrame.Some? ==> 0 < |s.nextFrame.value.data| <= MAX_PACKET_BUFFER_SIZE)
    && (s.finSent ==> s.finishedWriting && s.nextFrame.None? && s.dataForWriting == [])
    && s.reports == (if s.completed then 1 else 0)
  }

  ghost predicate FramesOk(s: State) {
    && (forall f :: f in s.emitted ==> FrameOk(f, s.sent, s.finSent))
    && (forall f :: Held(s, f) ==> FrameOk(f, s.sent, s.finSent) && |f.data| <= MAX_PACKET_BUFFER_SIZE)
  }

  /** As long as the stream is not cancelled, no byte and no FIN that was handed out is forgotten. */
  ghost predicate NothingForgotten(s: State) {
    && |s.outstanding| == s.numOutstandingFrames
    && (forall x :: 0 <= x < |s.sent| ==> ByteHeld(s, x))
    && (s.finSent ==> FinHeld(s))
  }

  ghost predicate Valid(s: State) {
    && FieldsOk(s)
    && FramesOk(s)
    && (s.cancelled ==> s.numOutstandingFrames == 0 && s.retransmissionQueue == [])
    && (!s.cancelled ==> NothingForgotten(s))
    && (s.completed && !s.cancelled ==> AllAcked(s))
  }

  /** The part of a state that only handing out, acknowledging and losing frames may change. */
  function History(s: State): (seq<byte>, set<StreamFrame>, multiset<StreamFrame>, set<StreamFrame>, nat) {
    (s.sent, s.emitted, s.outstanding, s.acked, s.reports)
  }

  const INITIAL := State(0, None, [], [], 0, false, false, false, false, false, [], {}, multiset{}, {}, 0)

  // ---------------------------------------------------------------------------------------------
  // What the operations promise

  datatype WriteError = WriteOnClosedStream | WriteCancelled | ConnectionClosed | DeadlineExceeded

  /** `Blocked`: Write waits until a packet was sent, or until something else wakes it. */
  datatype WriteResult = Blocked | Returned(n: int, error: Option<WriteError>)

  /** All but the buffered frame and the data that Write is about to send. */
  ghost predicate SameApartFromWriting(s: State, s': State) {
    s' == s.(nextFrame := s'.nextFrame, dataForWriting := s'.dataForWriting)
  }

  /**
    A section of a Write call over `len` bytes, of which `s.dataForWriting` are still to be sent. When
    the call returns n, exactly the first n bytes of the call have been taken.
   */
  ghost predicate WriteSpec(s: State, s': State, len: int, r: WriteResult) {
    && Valid(s')
    && SameApartFromWriting(s, s')
    && match r
       case Blocked => s' == s && s.dataForWriting != []
       case Returned(n, _) =>
         var gone := len - |s.dataForWriting|;
         && gone <= n <= len
         && Accepted(s') == Accepted(s) + s.dataForWriting[..n - gone]
         && (s'.dataForWriting == [] || (n < len && (s.cancelled || s.shutdown)))
  }

  /** Write cannot return: what is left does not fit into one frame. */
  predicate MustWait(s: State) {
    s.dataForWriting != [] && |Buffered(s)| + |s.dataForWriting| > MAX_PACKET_BUFFER_SIZE && !s.cancelled && !s.shutdown
  }

  /** `NilDereference`: popNewStreamFrame found no room and gave no frame, which the caller does not expect. */
  datatype PopResult = NoFrame(hasMore: bool) | Popped(frame: StreamFrame, hasMore: bool) | NilDereference

  /** A frame with the next data of the stream, or with the FIN alone. */
  ghost predicate PopNewSpec(s: State, s': State, f: StreamFrame) {
    && f.offset == |s.sent|
    && s'.sent == s.sent + f.data
    && Accepted(s') + s'.dataForWriting == Accepted(s) + s.dataForWriting
    && |s'.dataForWriting| <= |s.dataForWriting|
    && s'.retransmissionQueue == s.retransmissionQueue
    && !s.finSent && s'.finSent == f.fin
    && (f.fin ==> s.finishedWriting && Buffered(s') == [] && s'.dataForWriting == [])
  }

  /** A frame lost before, or the front of one. */
  ghost predicate PopLostSpec(s: State, s': State, f: StreamFrame) {
    && s'.sent == s.sent && s'.finSent == s.finSent
    && Accepted(s') == Accepted(s) && s'.dataForWriting == s.dataForWriting
    && s.retransmissionQueue != []
    && (var first := s.retransmissionQueue[0];
        || (f == first && s'.retransmissionQueue == s.retransmissionQueue[1..])
        || exists rest :: IsSplit(first, f, rest) && s'.retransmissionQueue == [rest] + s.retransmissionQueue[1..])
  }

  ghost predicate PopSpec(s: State, s': State, f: StreamFrame) {
    && Valid(s') && !s.cancelled && !s.shutdown
    && s'.emitted == s.emitted + {f} && s'.outstanding == s.outstanding + multiset{f} && s'.acked == s.acked
    && s'.reports == s.reports && s'.finishedWriting == s.finishedWriting
    && s'.cancelled == s.cancelled && s'.shutdown == s.shutdown && s'.completed == s.completed
    && (PopNewSpec(s, s', f) || PopLostSpec(s, s', f))
  }

  // ---------------------------------------------------------------------------------------------
  // Frames that change hands

  lemma FrameOkGrows(f: StreamFrame, sent: seq<byte>, more: seq<byte>, fin: bool)
    requires FrameOk(f, sent, false)
    ensures FrameOk(f, sent + more, fin)
  {
    assert (sent + more)[f.offset..End(f)] == sent[f.offset..End(f)];
  }

  ghost predicate IsSplit(first: StreamFrame, f: StreamFrame, rest: StreamFrame) {
    && f.offset == first.offset && End(f) == rest.offset
    && f.data + rest.data == first.data
    && !f.fin && rest.fin == first.fin
  }

  lemma SplitOk(first: StreamFrame, f: StreamFrame, rest: StreamFrame, sent: seq<byte>, fin: bool)
    requires FrameOk(first, sent, fin) && IsSplit(first, f, rest)
    ensures FrameOk(f, sent, fin) && FrameOk(rest, sent, fin)
  {
    assert f.data == first.data[..|f.data|] && rest.data == first.data[|f.data|..];
    assert sent[f.offset..End(f)] == sent[first.offset..End(first)][..|f.data|];
    assert sent[rest.offset..End(rest)] == sent[first.offset..End(first)][|f.data|..];
  }

  /** A new frame `f` leaves the stream valid. */
  lemma EmitNew(s: State, s': State, f: StreamFrame)
    requires Valid(s) && FieldsOk(s') && !s.cancelled && !s.finSent
    requires f.offset == |s.sent| && |f.data| <= MAX_PACKET_BUFFER_SIZE && s'.finSent == f.fin
    requires s'.sent == s.sent + f.data && s'.emitted == s.emitted + {f}
    requires s'.outstanding == s.outstanding + multiset{f} && s'.numOutstandingFrames == s.numOutstandingFrames + 1
    requires s'.acked == s.acked && s'.retransmissionQueue == s.retransmissionQueue
    requires !s'.cancelled && s'.completed == s.completed
    ensures Valid(s')
  {
    assert FrameOk(f, s'.sent, s'.finSent) by {
      assert s'.sent[f.offset..End(f)] == f.data;
    }
    forall g | g in s.emitted || Held(s, g) ensures FrameOk(g, s'.sent, s'.finSent) {
      FrameOkGrows(g, s.sent, f.data, f.fin);
    }
    assert FramesOk(s') by {
      forall g | Held(s', g) ensures g == f || Held(s, g) {}
    }
    assert NothingForgotten(s') by {
      assert Held(s', f);
      forall x | 0 <= x < |s'.sent| ensures ByteHeld(s', x) {
        if x < |s.sent| {
          assert ByteHeld(s, x);
          var g :| Held(s, g) && Carries(g, x);
          assert Held(s', g);
        } else {
          assert Carries(f, x);
        }
      }
    }
  }

  /** A lost frame sent again, as a whole or in part, leaves the stream valid. */
  lemma EmitLost(s: State, s': State, f: StreamFrame, rest: seq<StreamFrame>)
    requires Valid(s) && FieldsOk(s') && !s.cancelled && s.retransmissionQueue != []
    requires s'.sent == s.sent && s'.finSent == s.finSent && s'.emitted == s.emitted + {f}
    requires s'.outstanding == s.outstanding + multiset{f} && s'.numOutstandingFrames == s.numOutstandingFrames + 1
    requires s'.acked == s.acked && s'.retransmissionQueue == rest + s.retransmissionQueue[1..]
    requires !s'.cancelled && s'.completed == s.completed
    requires var first := s.retransmissionQueue[0];
             (f == first && rest == []) || (|rest| == 1 && IsSplit(first, f, rest[0]))
    ensures Valid(s')
  {
    var first := s.retransmissionQueue[0];
    assert Held(s, first);
    if rest != [] {
      SplitOk(first, f, rest[0], s.sent, s.finSent);
      assert rest[0] in s'.retransmissionQueue;
    }
    forall g | Held(s', g) ensures g == f || g in rest || Held(s, g) {}
    forall g | Held(s, g) && g != first ensures Held(s', g) {
      if g in s.retransmissionQueue {
        assert g in s.retransmissionQueue[1..];
      }
    }
    assert Held(s', f);
    forall x | 0 <= x < |s'.sent| ensures ByteHeld(s', x) {
      assert ByteHeld(s, x);
      var g :| Held(s, g) && Carries(g, x);
      if g == first && !Carries(f, x) {
        assert Held(s', rest[0]) && Carries(rest[0], x);
      }
    }
    if s.finSent {
      var g :| Held(s, g) && g.fin;
      if g == first && !f.fin {
        assert Held(s', rest[0]) && rest[0].fin;
      }
    }
    if s.completed {
      AllAckedStays(s, s');
    }
  }

  /** An outstanding frame acknowledged leaves the stream valid, once completion is seen to. */
  lemma AckedOk(s: State, s': State, f: StreamFrame)
    requires Valid(s) && !s.cancelled && f in s.outstanding
    requires s' == s.(numOutstandingFrames := s.numOutstandingFrames - 1, outstanding := s.outstanding - multiset{f},
                      acked := s.acked + {f})
    ensures s'.numOutstandingFrames >= 0
    ensures FramesOk(s') && NothingForgotten(s')
    ensures s.completed ==> AllAcked(s')
    ensures s'.finSent && s'.numOutstandingFrames == 0 && s'.retransmissionQueue == [] ==> AllAcked(s')
  {
    forall g | Held(s, g) ensures Held(s', g) {}
    forall g | Held(s', g) ensures Held(s, g) {}
    forall x | 0 <= x < |s'.sent| ensures ByteHeld(s', x) {
      assert ByteHeld(s, x);
      var g :| Held(s, g) && Carries(g, x);
      assert Held(s', g);
    }
    if s'.finSent && s'.numOutstandingFrames == 0 && s'.retransmissionQueue == [] {
      assert s'.outstanding == multiset{};
      forall x | 0 <= x < |s'.sent| ensures ByteAcked(s', x) {
        assert ByteHeld(s', x);
        var g :| Held(s', g) && Carries(g, x);
        assert g in s'.acked;
      }
      var g :| Held(s', g) && g.fin;
      assert g in s'.acked;
    }
    if s.completed {
      AllAckedStays(s, s');
    }
  }

  lemma AllAckedStays(s: State, s': State)
    requires AllAcked(s) && s'.sent == s.sent && s'.finSent == s.finSent && s.acked <= s'.acked
    ensures AllAcked(s')
  {
    forall x | 0 <= x < |s'.sent| ensures ByteAcked(s', x) {
      assert ByteAcked(s, x);
    }
  }

  lemma LostOk(s: State, s': State, f: StreamFrame)
    requires Valid(s) && !s.cancelled && f in s.outstanding
    requires s' == s.(numOutstandingFrames := s.numOutstandingFrames - 1, outstanding := s.outstanding - multiset{f},
                      retransmissionQueue := s.retransmissionQueue + [f])
    ensures Valid(s') && s'.numOutstandingFrames >= 0
  {
    forall g | Held(s, g) ensures Held(s', g) {}
    forall g | Held(s', g) ensures Held(s, g) {}
    forall x | 0 <= x < |s'.sent| ensures ByteHeld(s', x) {
      assert ByteHeld(s, x);
      var g :| Held(s, g) && Carries(g, x);
      assert Held(s', g);
    }
    if s.completed {
      AllAckedStays(s, s');
    }
  }

  // ---------------------------------------------------------------------------------------------

  /** What OnAcked promises; completion is reported once nothing is left to be acknowledged. */
  ghost predicate AckSpec(s: State, s': State, f: StreamFrame) {
    && Valid(s')
    && s' == s.(numOutstandingFrames := s'.numOutstandingFrames, outstanding := s.outstanding - multiset{f},
                acked := s.acked + {f}, completed := s'.completed, reports := s'.reports)
    && (s.cancelled ==> s'.completed == s.completed)
    && (!s.cancelled ==>
          (s'.completed <==> s.completed || (s.finSent && |s'.outstanding| == 0 && s.retransmissionQueue == [])))
  }

  ghost predicate LossSpec(s: State, s': State, f: StreamFrame) {
    && Valid(s')
    && s' == s.(numOutstandingFrames := s'.numOutstandingFrames, outstanding := s.outstanding - multiset{f},
                retransmissionQueue := if s.cancelled then [] else s.retransmissionQueue + [f])
  }

  /** What cancelling promises: it completes the stream, unless it is completed already. */
  ghost predicate CancelSpec(s: State, s': State, finalSize: Option<int>) {
    && Valid(s')
    && (s.cancelled ==> s' == s && finalSize == None)
    && (!s.cancelled ==> finalSize == Some(|s.sent|))
    && (!s.cancelled ==> s' == s.(cancelled := true, numOutstandingFrames := 0, retransmissionQueue := [],
                                  completed := true, reports := 1))
  }

  /** What popping does to the fields before the frame is counted. */
  ghost predicate PopCore(s: State, s': State, f: StreamFrame) {
    && !s.cancelled && !s.shutdown && FieldsOk(s') && |f.data| <= MAX_PACKET_BUFFER_SIZE
    && s' == s.(writeOffset := s'.writeOffset, nextFrame := s'.nextFrame, dataForWriting := s'.dataForWriting,
                retransmissionQueue := s'.retransmissionQueue, finSent := s'.finSent, sent := s'.sent)
    && (PopNewSpec(s, s', f) || PopLostSpec(s, s', f))
  }

  /** Between `s` and `mid`, the data of `f` has been cut off the front of what is still to be sent. */
  lemma PoppedData(s: State, mid: State, s': State, f: StreamFrame)
    requires FieldsOk(s) && !s.cancelled && !s.shutdown && !s.finSent
    requires mid == s.(nextFrame := mid.nextFrame, dataForWriting := mid.dataForWriting)
    requires s' == mid.(writeOffset := s.writeOffset + |f.data|, sent := s.sent + f.data, finSent := f.fin)
    requires f.data + (Buffered(mid) + mid.dataForWriting) == Buffered(s) + s.dataForWriting
    requires |mid.dataForWriting| <= |s.dataForWriting|
    requires f.offset == s.writeOffset && |f.data| <= MAX_PACKET_BUFFER_SIZE && |s'.sent| <= MAX_BYTE_COUNT
    requires mid.nextFrame.Some? ==> mid.nextFrame.value.offset == End(f) && !mid.nextFrame.value.fin
    requires mid.nextFrame.Some? ==> 0 < |mid.nextFrame.value.data| <= MAX_PACKET_BUFFER_SIZE
    requires f.fin <==> s.finishedWriting && mid.dataForWriting == [] && mid.nextFrame.None?
    ensures PopCore(s, s', f) && PopNewSpec(s, s', f)
  {
    assert Accepted(s') + s'.dataForWriting == s.sent + (f.data + (Buffered(mid) + mid.dataForWriting));
    assert Accepted(s) + s.dataForWriting == s.sent + (Buffered(s) + s.dataForWriting);
  }

  lemma HandedOut(s: State, mid: State, s': State, f: StreamFrame)
    requires Valid(s) && PopCore(s, mid, f)
    requires s' == mid.(numOutstandingFrames := mid.numOutstandingFrames + 1, emitted := mid.emitted + {f},
                        outstanding := mid.outstanding + multiset{f})
    ensures PopSpec(s, s', f)
  {
    hide FramesOk, NothingForgotten, AllAcked;
    if PopNewSpec(s, mid, f) {
      EmitNew(s, s', f);
      assert PopNewSpec(s, s', f);
    } else {
      var first := s.retransmissionQueue[0];
      if f == first && mid.retransmissionQueue == s.retransmissionQueue[1..] {
        EmitLost(s, s', f, []);
      } else {
        var rest :| IsSplit(first, f, rest) && mid.retransmissionQueue == [rest] + s.retransmissionQueue[1..];
        EmitLost(s, s', f, [rest]);
      }
      assert PopLostSpec(s, s', f);
    }
  }

  /** The one case in which a call without room for data ends in a nil dereference. */
  ghost predicate FindsNoRoom(s: State, id: int, maxBytes: int, sendWindow: int)
    requires Encodable(id, s.writeOffset) && maxBytes <= MAX_PACKET_BUFFER_SIZE + 2
  {
    && !s.cancelled && !s.shutdown && s.retransmissionQueue == []
    && s.nextFrame.None? && s.dataForWriting != [] && sendWindow > 0
    && MaxDataLen(id, s.writeOffset, maxBytes) == 0
  }

  /** Nothing is lost, buffered or waiting, and no FIN is owed. */
  predicate Drained(s: State) {
    s.retransmissionQueue == [] && s.dataForWriting == [] && s.nextFrame.None? && (s.finishedWriting ==> s.finSent)
  }

  /** Neither the first lost frame nor one byte of it fits. */
  predicate LostTooLarge(s: State, id: int, maxBytes: int)
    requires maxBytes <= MAX_PACKET_BUFFER_SIZE + 2
  {
    && s.retransmissionQueue != []
    && var first := s.retransmissionQueue[0];
       && Encodable(id, first.offset) && |first.data| <= MAX_PACKET_BUFFER_SIZE
       && Length(id, first.offset, |first.data|) > maxBytes && MaxDataLen(id, first.offset, maxBytes) == 0
  }

  /** New data waits for a larger window. */
  predicate WindowClosed(s: State, sendWindow: int) {
    s.retransmissionQueue == [] && (s.dataForWriting != [] || s.nextFrame.Some?) && sendWindow == 0
  }

  /** No frame comes out. */
  predicate Silent(s: State, id: int, maxBytes: int, sendWindow: int)
    requires maxBytes <= MAX_PACKET_BUFFER_SIZE + 2
  {
    s.cancelled || s.shutdown || Drained(s) || LostTooLarge(s, id, maxBytes) || WindowClosed(s, sendWindow)
  }

  /** The first lost frame, whole if it fits, and otherwise as much of it as does. */
  ghost predicate TakesLost(s: State, s': State, f: StreamFrame, id: int, maxBytes: int)
    requires maxBytes <= MAX_PACKET_BUFFER_SIZE + 2
  {
    && PopLostSpec(s, s', f)
    && var first := s.retransmissionQueue[0];
       && Encodable(id, first.offset) && |first.data| <= MAX_PACKET_BUFFER_SIZE
       && if Length(id, first.offset, |first.data|) <= maxBytes
          then f == first && s'.retransmissionQueue == s.retransmissionQueue[1..]
          else |f.data| == MaxDataLen(id, first.offset, maxBytes) < |first.data|
  }

  /** As much new data as frame, window and buffer admit, with the FIN exactly if it is the last. */
  ghost predicate TakesNew(s: State, s': State, f: StreamFrame, id: int, maxBytes: int, sendWindow: int)
    requires maxBytes <= MAX_PACKET_BUFFER_SIZE + 2
  {
    && PopNewSpec(s, s', f) && Encodable(id, s.writeOffset)
    && |f.data| == Min(Min(sendWindow, MaxDataLen(id, s.writeOffset, maxBytes)),
                       if s.nextFrame.Some? then |s.nextFrame.value.data| else |s.dataForWriting|)
    && (f.fin <==> s.finishedWriting && s'.dataForWriting == [] && s'.nextFrame.None?)
  }

  /** Lost frames come before new data. */
  ghost predicate Takes(s: State, s': State, f: StreamFrame, id: int, maxBytes: int, sendWindow: int)
    requires maxBytes <= MAX_PACKET_BUFFER_SIZE + 2
  {
    if s.retransmissionQueue != [] then TakesLost(s, s', f, id, maxBytes)
    else TakesNew(s, s', f, id, maxBytes, sendWindow)
  }

  /**
    Without a frame, there is more to send exactly if it was held back by the frame or the window, unless that
    is reported. With one, the caller is told so whenever there is; and without need only for a lost frame or
    after a Write that was closed.
   */
  predicate MoreOk(s: State, s': State, r: PopResult, newlyBlocked: bool, sendWindow: int)
    requires !r.NilDereference?
  {
    match r
    case NoFrame(hasMore) =>
      hasMore <==> !s.cancelled && !s.shutdown && !Drained(s) && !(WindowClosed(s, sendWindow) && newlyBlocked)
    case Popped(_, hasMore) =>
      && (!hasMore ==> Drained(s'))
      && (hasMore ==> s.retransmissionQueue != [] || !Drained(s') || s.finishedWriting)
  }

  function LostBacklog(q: seq<StreamFrame>): nat {
    if q == [] then 0 else |q[0].data| + 1 + LostBacklog(q[1..])
  }

  /** The bytes that wait, and one for each lost frame and for a FIN that is owed. */
  function Backlog(s: State): nat {
    LostBacklog(s.retransmissionQueue) + |Buffered(s)| + |s.dataForWriting|
    + (if s.finishedWriting && !s.finSent then 1 else 0)
  }

  /**
    With frames of the usual size and an open window, every frame brings the stream closer to the point where it
    has nothing more to send; and it reaches that point exactly when there is no frame.
   */
  lemma EveryFrameCounts(s: State, s': State, f: StreamFrame, id: int, maxBytes: int, sendWindow: int)
    requires Valid(s) && Valid(s') && !s.cancelled && !s.shutdown && 0 < sendWindow
    requires s'.finishedWriting == s.finishedWriting
    requires MIN_STREAM_FRAME_SIZE <= maxBytes <= MAX_PACKET_BUFFER_SIZE + 2
    requires !Drained(s) && Takes(s, s', f, id, maxBytes, sendWindow)
    ensures Backlog(s') < Backlog(s)
  {
    hide FramesOk, NothingForgotten, AllAcked;
    if s.retransmissionQueue != [] {
      LostShrinks(s, s', f, id, maxBytes);
    } else {
      NewShrinks(s, s', f, id, maxBytes, sendWindow);
    }
  }

  lemma LostShrinks(s: State, s': State, f: StreamFrame, id: int, maxBytes: int)
    requires MIN_STREAM_FRAME_SIZE <= maxBytes <= MAX_PACKET_BUFFER_SIZE + 2
    requires TakesLost(s, s', f, id, maxBytes) && s'.finishedWriting == s.finishedWriting
    ensures Backlog(s') < Backlog(s)
  {
    var first, tail := s.retransmissionQueue[0], s.retransmissionQueue[1..];
    assert |Accepted(s')| == |Accepted(s)|;
    if Length(id, first.offset, |first.data|) > maxBytes {
      var rest :| IsSplit(first, f, rest) && s'.retransmissionQueue == [rest] + tail;
      assert ([rest] + tail)[1..] == tail && |f.data| + |rest.data| == |first.data|;
    }
  }

  lemma NewShrinks(s: State, s': State, f: StreamFrame, id: int, maxBytes: int, sendWindow: int)
    requires FieldsOk(s) && FieldsOk(s') && s.retransmissionQueue == [] && !Drained(s) && 0 < sendWindow
    requires MIN_STREAM_FRAME_SIZE <= maxBytes <= MAX_PACKET_BUFFER_SIZE + 2
    requires TakesNew(s, s', f, id, maxBytes, sendWindow) && s'.finishedWriting == s.finishedWriting
    ensures Backlog(s') < Backlog(s)
  {
    assert |Accepted(s') + s'.dataForWriting| == |Accepted(s) + s.dataForWriting|;
    assert MaxDataLen(id, s.writeOffset, maxBytes) > 0;
    if s.nextFrame.None? && s.dataForWriting == [] {
      assert f.data == [] && s'.nextFrame.None?;
    }
  }

  /** A frame of the usual size has room for lost data. */
  lemma RoomForLost(s: State, id: int, maxBytes: int)
    requires MIN_STREAM_FRAME_SIZE <= maxBytes <= MAX_PACKET_BUFFER_SIZE + 2
    ensures !LostTooLarge(s, id, maxBytes)
  {
  }

  lemma TakesCounted(s: State, mid: State, s': State, r: PopResult, id: int, maxBytes: int, sendWindow: int,
                     newlyBlocked: bool)
    requires r.Popped? && maxBytes <= MAX_PACKET_BUFFER_SIZE + 2
    requires s' == mid.(numOutstandingFrames := s'.numOutstandingFrames, emitted := s'.emitted,
                        outstanding := s'.outstanding)
    requires Takes(s, mid, r.frame, id, maxBytes, sendWindow) && MoreOk(s, mid, r, newlyBlocked, sendWindow)
    ensures Takes(s, s', r.frame, id, maxBytes, sendWindow) && MoreOk(s, s', r, newlyBlocked, sendWindow)
  {
    hide MaxDataLen, Length, IsSplit;
  }

  predicate FitsIn(id: int, f: StreamFrame, maxBytes: int) {
    Encodable(id, f.offset) && |f.data| <= MAX_PACKET_BUFFER_SIZE && Length(id, f.offset, |f.data|) <= maxBytes
  }

  lemma DataFits(id: int, offset: int, maxBytes: int, n: nat)
    requires Encodable(id, offset) && maxBytes <= Varint.MAX2 && n <= MAX_PACKET_BUFFER_SIZE
    requires n <= MaxDataLen(id, offset, maxBytes)
    ensures maxBytes >= MIN_STREAM_FRAME_SIZE ==> Length(id, offset, n) <= maxBytes
  {
    if n > 0 {
      MaxDataLenFits(id, offset, maxBytes, n);
    }
  }

  class Stream {
    var writeOffset: int
    var nextFrame: Option<StreamFrame>
    var dataForWriting: seq<byte>
    var retransmissionQueue: seq<StreamFrame>
    var numOutstandingFrames: int
    var cancelled: bool
    var shutdown: bool
    var finishedWriting: bool
    var finSent: bool
    var completed: bool
    ghost var hist: Frames
    var reports: nat

    ghost function Contents(): State
      reads this
    {
      State(writeOffset, nextFrame, dataForWriting, retransmissionQueue, numOutstandingFrames, cancelled, shutdown,
            finishedWriting, finSent, completed, hist.sent, hist.emitted, hist.outstanding, hist.acked, reports)
    }

    constructor ()
      ensures Contents() == INITIAL && Valid(Contents())
    {
      writeOffset, nextFrame, dataForWriting, retransmissionQueue, numOutstandingFrames := 0, None, [], [], 0;
      cancelled, shutdown, finishedWriting, finSent, completed := false, false, false, false, false;
      hist, reports := Frames([], {}, multiset{}, {}), 0;
    }

    /** The first section of Write. Only one call of Write runs at a time. */
    method StartWrite(p: seq<byte>, expired: bool) returns (r: WriteResult)
      requires Valid(Contents()) && (dataForWriting == [] || cancelled || shutdown)
      modifies this
      ensures Valid(Contents())
      ensures r.Returned? && r.n == 0 && p != [] ==> SameApartFromWriting(old(Contents()), Contents())
      ensures r.Returned? && r.n == 0 ==> Accepted(Contents()) == old(Accepted(Contents()))
      ensures old(finishedWriting || cancelled || shutdown) || expired ==> r.Returned? && r.n == 0 && r.error.Some?
      ensures !old(finishedWriting || cancelled || shutdown) && !expired && p != [] ==>
                && WriteSpec(old(Contents()).(dataForWriting := p), Contents(), |p|, r)
                && (r.Blocked? <==> MustWait(old(Contents()).(dataForWriting := p)))
    {
      hide FramesOk, NothingForgotten, AllAcked;
      if finishedWriting {
        return Returned(0, Some(WriteOnClosedStream));
      }
      if cancelled {
        return Returned(0, Some(WriteCancelled));
      }
      if shutdown {
        return Returned(0, Some(ConnectionClosed));
      }
      if expired {
        return Returned(0, Some(DeadlineExceeded));
      }
      if |p| == 0 {
        return Returned(0, None);
      }
      dataForWriting := p;
      assert Valid(Contents()) by { SameHistory(old(Contents()), Contents()); }
      r := ContinueWrite(|p|, false);
    }

    /** The section of Write behind the wait: data that is short enough goes into the next frame. */
    method ContinueWrite(len: int, expired: bool) returns (r: WriteResult)
      requires Valid(Contents()) && |dataForWriting| <= len
      modifies this
      ensures WriteSpec(old(Contents()), Contents(), len, r)
      ensures r.Returned? && r.n < len ==> r.error.Some?
      ensures r.Blocked? <==> MustWait(old(Contents())) && !expired
    {
      hide FramesOk, NothingForgotten, AllAcked;
      if CanBufferStreamFrame() && |dataForWriting| > 0 {
        if nextFrame.None? {
          nextFrame := Some(StreamFrame(writeOffset, dataForWriting, false));
        } else {
          nextFrame := Some(nextFrame.value.(data := nextFrame.value.data + dataForWriting));
        }
        dataForWriting := [];
        SameHistory(old(Contents()), Contents());
        return Returned(len, None);
      }
      var n := len - |dataForWriting|;
      if expired {
        dataForWriting := [];
        SameHistory(old(Contents()), Contents());
        return Returned(n, Some(DeadlineExceeded));
      }
      if dataForWriting != [] && !cancelled && !shutdown {
        return Blocked;
      }
      if n == len {
        return Returned(n, None);
      }
      return Returned(n, Some(if shutdown then ConnectionClosed else WriteCancelled));
    }

    function CanBufferStreamFrame(): bool
      reads this
    {
      (if nextFrame.Some? then |nextFrame.value.data| else 0) + |dataForWriting| <= MAX_PACKET_BUFFER_SIZE
    }

    /** popStreamFrame: the next frame to send, of at most `maxBytes` bytes including its header. */
    method PopStreamFrame(id: int, maxBytes: int, sendWindow: int, newlyBlocked: bool) returns (r: PopResult)
      requires Valid(Contents()) && 0 <= id <= MAX_BYTE_COUNT && 0 <= maxBytes <= MAX_PACKET_BUFFER_SIZE + 2
      requires 0 <= sendWindow && |hist.sent| + sendWindow <= MAX_BYTE_COUNT
      modifies this
      ensures r.Popped? && maxBytes >= MIN_STREAM_FRAME_SIZE ==> FitsIn(id, r.frame, maxBytes)
      ensures r.Popped? ==> PopSpec(old(Contents()), Contents(), r.frame)
      ensures r.Popped? ==> |hist.sent| <= old(|hist.sent|) + sendWindow
      ensures r.NoFrame? ==> Contents() == old(Contents())
      ensures maxBytes >= MIN_STREAM_FRAME_SIZE ==> !r.NilDereference?
      ensures r.NilDereference? <==> FindsNoRoom(old(Contents()), id, maxBytes, sendWindow)
      ensures r.NoFrame? <==> Silent(old(Contents()), id, maxBytes, sendWindow)
      ensures r.Popped? ==> Takes(old(Contents()), Contents(), r.frame, id, maxBytes, sendWindow)
      ensures !r.NilDereference? ==> MoreOk(old(Contents()), Contents(), r, newlyBlocked, sendWindow)
    {
      hide Valid, FieldsOk, Silent, TakesLost, TakesNew, MoreOk;
      ghost var s0 := Contents();
      r := PopNewOrRetransmitted(id, maxBytes, sendWindow, newlyBlocked);
      if r.Popped? {
        ghost var s1 := Contents();
        numOutstandingFrames := numOutstandingFrames + 1;
        hist := hist.(emitted := hist.emitted + {r.frame}, outstanding := hist.outstanding + multiset{r.frame});
        HandedOut(s0, s1, Contents(), r.frame);
        TakesCounted(s0, s1, Contents(), r, id, maxBytes, sendWindow, newlyBlocked);
      }
    }

    method PopNewOrRetransmitted(id: int, maxBytes: int, sendWindow: int, newlyBlocked: bool) returns (r: PopResult)
      requires Valid(Contents()) && 0 <= id <= MAX_BYTE_COUNT && 0 <= maxBytes <= MAX_PACKET_BUFFER_SIZE + 2
      requires 0 <= sendWindow && |hist.sent| + sendWindow <= MAX_BYTE_COUNT
      modifies this
      ensures r.Popped? && maxBytes >= MIN_STREAM_FRAME_SIZE ==> FitsIn(id, r.frame, maxBytes)
      ensures r.Popped? ==> PopCore(old(Contents()), Contents(), r.frame)
      ensures r.Popped? ==> |hist.sent| <= old(|hist.sent|) + sendWindow
      ensures r.NoFrame? ==> Contents() == old(Contents())
      ensures r.NilDereference? <==> FindsNoRoom(old(Contents()), id, maxBytes, sendWindow)
      ensures r.NoFrame? <==> Silent(old(Contents()), id, maxBytes, sendWindow)
      ensures r.Popped? ==> Takes(old(Contents()), Contents(), r.frame, id, maxBytes, sendWindow)
      ensures !r.NilDereference? ==> MoreOk(old(Contents()), Contents(), r, newlyBlocked, sendWindow)
    {
      hide FramesOk, NothingForgotten, AllAcked;
      if cancelled || shutdown {
        return NoFrame(false);
      }
      if |retransmissionQueue| > 0 {
        r := MaybeGetRetransmission(id, maxBytes);
        return;
      }
      if |dataForWriting| == 0 && nextFrame.None? {
        if finishedWriting && !finSent {
          finSent := true;
          return Popped(StreamFrame(writeOffset, [], true), false);
        }
        return NoFrame(false);
      }
      if sendWindow == 0 {
        return NoFrame(!newlyBlocked);
      }
      r := PopData(id, maxBytes, sendWindow);
    }

    /** The part of popNewOrRetransmittedStreamFrame that sends new data. */
    method PopData(id: int, maxBytes: int, sendWindow: int) returns (r: PopResult)
      requires FieldsOk(Contents()) && 0 <= id <= MAX_BYTE_COUNT && 0 <= maxBytes <= MAX_PACKET_BUFFER_SIZE + 2
      requires 0 < sendWindow && |hist.sent| + sendWindow <= MAX_BYTE_COUNT
      requires !cancelled && !shutdown && (nextFrame.Some? || dataForWriting != [])
      modifies this
      ensures r.Popped? && maxBytes >= MIN_STREAM_FRAME_SIZE ==> FitsIn(id, r.frame, maxBytes)
      ensures r.Popped? ==> PopCore(old(Contents()), Contents(), r.frame)
      ensures r.Popped? ==> |hist.sent| <= old(|hist.sent|) + sendWindow
      ensures !r.NoFrame?
      ensures r.NilDereference? <==> old(nextFrame.None?) && MaxDataLen(id, old(writeOffset), maxBytes) == 0
      ensures r.Popped? ==> TakesNew(old(Contents()), Contents(), r.frame, id, maxBytes, sendWindow)
      ensures r.Popped? && !r.hasMore ==> nextFrame.None? && dataForWriting == [] && (finishedWriting ==> finSent)
      ensures r.Popped? && r.hasMore ==> nextFrame.Some? || dataForWriting != [] || finishedWriting
    {
      hide PopCore, MaxDataLen, Length, PopNewSpec, PopLostSpec;
      ghost var s0 := Contents();
      var frame, hasMore := PopNewStreamFrame(id, maxBytes, sendWindow);
      if frame.None? {
        return NilDereference;
      }
      var f := frame.value;
      ghost var s1 := Contents();
      writeOffset := writeOffset + |f.data|;
      hist := hist.(sent := hist.sent + f.data);
      f := f.(fin := finishedWriting && dataForWriting == [] && nextFrame.None? && !finSent);
      if f.fin {
        finSent := true;
      }
      PoppedData(s0, s1, Contents(), f);
      DataFits(id, f.offset, maxBytes, |f.data|);
      return Popped(f, hasMore);
    }

    /** Takes the first lost frame, or as much of it as fits. */
    method MaybeGetRetransmission(id: int, maxBytes: int) returns (r: PopResult)
      requires Valid(Contents()) && 0 <= id <= MAX_BYTE_COUNT && 0 <= maxBytes <= MAX_PACKET_BUFFER_SIZE + 2
      requires !cancelled && !shutdown && retransmissionQueue != []
      modifies this`retransmissionQueue
      ensures r.Popped? && maxBytes >= MIN_STREAM_FRAME_SIZE ==> FitsIn(id, r.frame, maxBytes)
      ensures r.Popped? ==> PopCore(old(Contents()), Contents(), r.frame)
      ensures r.NoFrame? ==> Contents() == old(Contents())
      ensures !r.NilDereference? && r.hasMore
      ensures r.NoFrame? <==> LostTooLarge(old(Contents()), id, maxBytes)
      ensures r.Popped? ==> TakesLost(old(Contents()), Contents(), r.frame, id, maxBytes)
    {
      hide NothingForgotten, AllAcked;
      var f := retransmissionQueue[0];
      assert Held(Contents(), f);
      match MaybeSplitOffFrame(id, f, maxBytes) {
        case TooSmall =>
          return NoFrame(true);
        case Divided(prefix, suffix) =>
          assert IsSplit(f, prefix, suffix);
          retransmissionQueue := [suffix] + retransmissionQueue[1..];
          return Popped(prefix, true);
        case OutOfRange =>
          return NilDereference;
        case Whole =>
          retransmissionQueue := retransmissionQueue[1..];
          return Popped(f, true);
      }
    }

    /** Cuts the next frame off the buffered frame or, without one, off the data of the running Write. */
    method PopNewStreamFrame(id: int, maxBytes: int, sendWindow: int) returns (f: Option<StreamFrame>, hasMore: bool)
      requires FieldsOk(Contents()) && 0 <= id <= MAX_BYTE_COUNT && 0 <= maxBytes <= MAX_PACKET_BUFFER_SIZE + 2
      requires 0 < sendWindow && (nextFrame.Some? || dataForWriting != [])
      modifies this`nextFrame, this`dataForWriting
      ensures f.None? <==> old(nextFrame.None?) && MaxDataLen(id, writeOffset, maxBytes) == 0
      ensures f.None? ==> Contents() == old(Contents())
      ensures |dataForWriting| <= old(|dataForWriting|)
      ensures f.Some? ==> f.value.offset == writeOffset && !f.value.fin && |f.value.data| <= sendWindow
      ensures f.Some? ==> |f.value.data| <= MAX_PACKET_BUFFER_SIZE
      ensures f.Some? ==> |f.value.data| <= MaxDataLen(id, writeOffset, maxBytes)
      ensures f.Some? && nextFrame.Some? ==>
                nextFrame.value.offset == writeOffset + |f.value.data| && !nextFrame.value.fin
      ensures f.Some? && nextFrame.Some? ==> 0 < |nextFrame.value.data| <= MAX_PACKET_BUFFER_SIZE
      ensures f.Some? ==>
                f.value.data + (Buffered(Contents()) + dataForWriting) == old(Buffered(Contents()) + dataForWriting)
      ensures f.Some? ==>
                |f.value.data| == Min(Min(sendWindow, MaxDataLen(id, writeOffset, maxBytes)),
                                      old(if nextFrame.Some? then |nextFrame.value.data| else |dataForWriting|))
      ensures f.Some? ==>
                (hasMore <==> nextFrame.Some? || dataForWriting != [] || (old(nextFrame.None?) && finishedWriting))
    {
      if nextFrame.Some? {
        var next := nextFrame.value;
        nextFrame := None;
        var maxDataLen := Min(sendWindow, MaxDataLen(id, next.offset, maxBytes));
        if |next.data| > maxDataLen {
          nextFrame := Some(StreamFrame(writeOffset + maxDataLen, next.data[maxDataLen..], false));
          next := next.(data := next.data[..maxDataLen]);
        }
        return Some(next), nextFrame.Some? || dataForWriting != [];
      }
      var maxDataLen := MaxDataLen(id, writeOffset, maxBytes);
      if maxDataLen == 0 {
        return None, dataForWriting != [] || finishedWriting;
      }
      var n := Min(maxDataLen, sendWindow);
      var data := dataForWriting;
      if |dataForWriting| <= n {
        dataForWriting := [];
      } else {
        data := dataForWriting[..n];
        dataForWriting := dataForWriting[n..];
      }
      return Some(StreamFrame(writeOffset, data, false)), dataForWriting != [] || finishedWriting;
    }

    method OnAcked(f: StreamFrame) returns (panicked: bool)
      requires Valid(Contents()) && f in hist.outstanding
      modifies this
      ensures !panicked && AckSpec(old(Contents()), Contents(), f)
    {
      hide Valid, AckSpec;
      panicked := false;
      ghost var s0 := Contents();
      hist := hist.(outstanding := hist.outstanding - multiset{f}, acked := hist.acked + {f});
      if cancelled {
        AckWhileCancelled(s0, Contents(), f);
        return;
      }
      CountsOk(s0, f);
      numOutstandingFrames := numOutstandingFrames - 1;
      panicked := numOutstandingFrames < 0;
      var newly := finSent && numOutstandingFrames == 0 && |retransmissionQueue| == 0 && !completed;
      completed, reports := completed || newly, if newly then reports + 1 else reports;
      AfterAck(s0, Contents(), f);
    }

    method OnLost(f: StreamFrame) returns (panicked: bool)
      requires Valid(Contents()) && f in hist.outstanding
      modifies this
      ensures !panicked && LossSpec(old(Contents()), Contents(), f)
    {
      hide FramesOk, NothingForgotten, AllAcked;
      panicked := false;
      ghost var s0 := Contents();
      hist := hist.(outstanding := hist.outstanding - multiset{f});
      if cancelled {
        CancelledOk(s0, Contents());
        return;
      }
      retransmissionQueue := retransmissionQueue + [f];
      numOutstandingFrames := numOutstandingFrames - 1;
      LostOk(s0, Contents(), f);
      if numOutstandingFrames < 0 {
        panicked := true;
      }
    }

    /** The error of a call on a cancelled stream is the result `false`. */
    method Close() returns (ok: bool)
      requires Valid(Contents())
      modifies this`finishedWriting
      ensures Valid(Contents())
      ensures finishedWriting == (old(finishedWriting) || (!shutdown && !cancelled))
      ensures ok <==> shutdown || !cancelled
    {
      hide FramesOk, NothingForgotten, AllAcked;
      if shutdown {
        return true;
      }
      if cancelled {
        return false;
      }
      finishedWriting := true;
      SameHistory(old(Contents()), Contents());
      return true;
    }

    /** Cancels the stream and gives the final size for the RESET_STREAM frame. */
    method CancelWrite() returns (finalSize: Option<int>)
      requires Valid(Contents())
      modifies this
      ensures CancelSpec(old(Contents()), Contents(), finalSize)
    {
      hide FramesOk, NothingForgotten, AllAcked;
      if cancelled {
        return None;
      }
      ghost var s0 := Contents();
      cancelled := true;
      numOutstandingFrames := 0;
      retransmissionQueue := [];
      if !completed {
        completed := true;
        reports := reports + 1;
      }
      CancelledOk(s0, Contents());
      return Some(writeOffset);
    }

    method CloseForShutdown()
      requires Valid(Contents())
      modifies this`shutdown
      ensures Valid(Contents()) && shutdown
    {
      shutdown := true;
      SameHistory(old(Contents()), Contents());
    }
  }

  /** Validity rests on the history and on the fields that go with it. */
  lemma SameHistory(s: State, s': State)
    requires Valid(s) && FieldsOk(s') && History(s) == History(s')
    requires s'.retransmissionQueue == s.retransmissionQueue && s'.numOutstandingFrames == s.numOutstandingFrames
    requires s'.cancelled == s.cancelled && s'.finSent == s.finSent && s'.completed == s.completed
    ensures Valid(s')
  {
    forall f ensures Held(s, f) <==> Held(s', f) {}
    forall x ensures ByteHeld(s, x) <==> ByteHeld(s', x) {}
    if s.completed && !s.cancelled {
      AllAckedStays(s, s');
    }
  }

  lemma CancelledOk(s: State, s': State)
    requires Valid(s) && FieldsOk(s') && s'.cancelled && s'.numOutstandingFrames == 0 && s'.retransmissionQueue == []
    requires s'.sent == s.sent && s'.finSent == s.finSent && s'.emitted == s.emitted
    requires s'.outstanding <= s.outstanding && (forall f :: f in s'.acked ==> f in s.acked || f in s.outstanding)
    ensures Valid(s')
  {
    forall f | Held(s', f) ensures Held(s, f) {}
  }

  lemma CountsOk(s: State, f: StreamFrame)
    requires Valid(s) && !s.cancelled && f in s.outstanding
    ensures s.numOutstandingFrames > 0
    ensures s.reports == if s.completed then 1 else 0
  {
    assert |s.outstanding| == |s.outstanding - multiset{f}| + 1;
  }

  lemma AckWhileCancelled(s: State, s': State, f: StreamFrame)
    requires Valid(s) && s.cancelled && f in s.outstanding
    requires s' == s.(outstanding := s.outstanding - multiset{f}, acked := s.acked + {f})
    ensures AckSpec(s, s', f)
  {
    CancelledOk(s, s');
  }

  lemma AfterAck(s: State, s': State, f: StreamFrame)
    requires Valid(s) && !s.cancelled && f in s.outstanding
    requires s'.completed == (s.completed || (s.finSent && s.numOutstandingFrames == 1 && s.retransmissionQueue == []))
    requires s'.reports == if s'.completed then 1 else 0
    requires s'.numOutstandingFrames == s.numOutstandingFrames - 1
    requires s'.outstanding == s.outstanding - multiset{f} && s'.acked == s.acked + {f}
    requires s' == s.(numOutstandingFrames := s'.numOutstandingFrames, outstanding := s'.outstanding,
                      acked := s'.acked, completed := s'.completed, reports := s'.reports)
    ensures AckSpec(s, s', f)
  {
    var mid := s.(numOutstandingFrames := s.numOutstandingFrames - 1, outstanding := s.outstanding - multiset{f},
                  acked := s.acked + {f});
    AckedOk(s, mid, f);
    forall g ensures Held(mid, g) <==> Held(s', g) {}
    forall x ensures ByteHeld(mid, x) <==> ByteHeld(s', x) {}
    if s'.completed {
      AllAckedStays(mid, s');
    }
  }

  /** A Write of more than one packet, and a packet with room for the header of a frame alone. */
  method FrameWithoutRoom() returns (r: PopResult)
    ensures r.NilDereference?
  {
    var s := new Stream();
    var w := s.StartWrite(seq(MAX_PACKET_BUFFER_SIZE + 1, _ => 0), false);
    r := s.PopStreamFrame(0, 2, 1, false);
  }
}
