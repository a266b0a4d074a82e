/**
  The receiving half of a stream: flow control of the highest offset, reassembly, and Read. Every
  method is one section of the program under its mutex; Read, which waits for data, is the section
  up to the wait and the section behind it.
 */
module ReceiveStream {
  import opened Common
  import opened StreamFrames
  import FS = FrameSorter

  /**
    `currentFrame` is empty where the program holds nil: chunks are never empty. The highest offset
    and whether it is final belong to the flow controller of the stream. `reports` counts the
    calls of onStreamCompleted.
   */
  datatype State = State(
    sorter: FS.State,
    finalOffset: int,
    currentFrame: seq<byte>,
    currentFrameDone: Option<nat>,
    readPosInFrame: int,
    currentFrameIsLast: bool,
    finRead: bool,
    shutdown: bool,
    cancelled: bool,
    reset: bool,
    highestReceived: int,
    receivedFinalOffset: bool,
    reports: nat)

  /** The number of bytes that Read has returned. */
  function Delivered(s: State): int {
    if s.finRead then s.sorter.readPos else s.sorter.readPos - |s.currentFrame| + s.readPosInFrame
  }

  /** The final offset is known; MAX_BYTE_COUNT stands for an unknown one. */
  predicate FinalKnown(s: State) {
    s.finalOffset != MAX_BYTE_COUNT
  }

  ghost predicate Valid(s: State) {
    && FS.Valid(s.sorter)
    && (!s.finRead ==> 0 <= s.readPosInFrame <= |s.currentFrame| <= s.sorter.readPos)
    && (forall x :: FS.Received(s.sorter, x) ==> x < s.highestReceived)
    && 0 <= s.highestReceived <= s.finalOffset <= MAX_BYTE_COUNT
    && (if s.receivedFinalOffset then s.finalOffset == s.highestReceived else !FinalKnown(s))
    && (s.currentFrameIsLast ==> s.sorter.readPos == s.finalOffset)
  }

  /** What was received and is not read yet is part of `stream`. */
  ghost predicate Holds(s: State, stream: seq<byte>) {
    && FS.QueueOf(s.sorter.queue, stream)
    && s.sorter.readPos <= |stream|
    && |s.currentFrame| <= s.sorter.readPos
    && s.currentFrame == stream[s.sorter.readPos - |s.currentFrame|..s.sorter.readPos]
  }

  /** Calls made to callback `id`, calls owed by the sorter, and the call owed for the current frame. */
  ghost function Owed(s: State, id: nat): nat {
    FS.Owed(s.sorter.queue, s.sorter.released, id) + (if s.finRead then 0 else FS.One(s.currentFrameDone, id))
  }

  ghost predicate SameOwed(s: State, s': State) {
    forall id :: Owed(s', id) == Owed(s, id)
  }

  /** The next byte to be read has not been received. */
  ghost predicate NextMissing(s: State) {
    FS.InGap(s.sorter.gaps, Delivered(s))
  }

  ghost predicate Initial(s: State) {
    && FS.Initial(s.sorter)
    && s == State(s.sorter, MAX_BYTE_COUNT, [], None, 0, false, false, false, false, false, 0, false, 0)
  }

  lemma InitialOk(s: State)
    requires Initial(s)
    ensures Valid(s) && Delivered(s) == 0
    ensures forall stream :: Holds(s, stream)
    ensures forall id :: Owed(s, id) == 0
  {
    FS.InitialValid(s.sorter);
  }

  // ---------------------------------------------------------------------------------------------
  // What the operations promise

  datatype ReadError = EndOfStream | ReadCancelled | ResetByPeer | ConnectionClosed | DeadlineExceeded | Bug

  /** `Blocked`: Read waits for more data, or for something else to wake it. */
  datatype ReadResult = Blocked | Done(data: seq<byte>, completed: bool, error: Option<ReadError>)

  function DataOf(r: ReadResult): seq<byte> {
    if r.Done? then r.data else []
  }

  /** What Read does not touch. */
  ghost predicate SameApartFromReading(s: State, s': State) {
    && s'.finalOffset == s.finalOffset && s'.highestReceived == s.highestReceived
    && s'.receivedFinalOffset == s.receivedFinalOffset
    && s'.shutdown == s.shutdown && s'.cancelled == s.cancelled && s'.reset == s.reset
    && s'.sorter.gaps == s.sorter.gaps
  }

  /** For every stream that the received data is part of, what was read is the next part of that stream. */
  ghost predicate ReadsOn(s: State, s': State, data: seq<byte>) {
    && Delivered(s') == Delivered(s) + |data|
    && forall stream :: Holds(s, stream) ==>
         Holds(s', stream) && 0 <= Delivered(s) && Delivered(s') <= |stream|
           && data == stream[Delivered(s)..Delivered(s')]
  }

  /** Read has nothing more to return: everything was read, or reading was stopped. */
  predicate Over(s: State) {
    s.finRead || s.cancelled || s.reset || s.shutdown
  }

  /** The error then, at the start of a call and behind the wait: the order of the checks differs. */
  function FirstError(s: State, resuming: bool): ReadError {
    if s.finRead then EndOfStream
    else if resuming && s.shutdown then ConnectionClosed
    else if s.cancelled then ReadCancelled
    else if s.reset then ResetByPeer
    else ConnectionClosed
  }

  /**
    A section of Read with a buffer of `n` bytes. It blocks only if it has no data and the next byte
    is missing; it returns less than `n` bytes without an error only if the next byte is missing; it
    returns EndOfStream exactly when everything up to the final offset has been read. A stream that is over
    returns its error and no data; one that is not returns no other error than that of the deadline.
   */
  ghost predicate ReadSpec(s: State, s': State, n: int, r: ReadResult) {
    && Valid(s') && SameApartFromReading(s, s') && SameOwed(s, s')
    && ReadsOn(s, s', DataOf(r)) && |DataOf(r)| <= n
    && s'.reports == s.reports + (if r.Done? && r.completed then 1 else 0)
    && s'.finRead == (s.finRead || (r.Done? && r.completed))
    && (Over(s) ==> r in {Done([], false, Some(FirstError(s, false))), Done([], false, Some(FirstError(s, true)))})
    && (!Over(s) && r.Done? && r.error.Some? ==> r.error.value == if r.completed then EndOfStream else DeadlineExceeded)
    && match r
       case Blocked => NextMissing(s') && Delivered(s') != s'.finalOffset
       case Done(data, completed, error) =>
         && (completed ==> error == Some(EndOfStream) && !s.finRead && !s.cancelled && !s.reset && !s.shutdown)
         && (error == Some(EndOfStream) ==> s'.finRead && (completed || s.finRead))
         && (completed ==> FinalKnown(s') && Delivered(s') == s'.finalOffset)
         && (error == None && |data| < n ==> NextMissing(s'))
         && error != Some(Bug)
  }

  datatype HandleResult = Handled(completed: bool) | FinalSizeError | FlowControlError | TooManyGaps | NoGapFound

  /** The outcome of updateHighestReceived: the error, the highest offset and whether it is final. */
  datatype Update = Updated(highest: int, final: bool) | Rejected(error: HandleResult)

  /** `window` is the receive window, `connectionOk` the verdict of the connection's flow controller. */
  function UpdateHighestReceived(highest: int, isFinal: bool, offset: int, final: bool, window: int,
                                 connectionOk: bool): Update {
    if isFinal && ((final && offset != highest) || offset > highest) then Rejected(FinalSizeError)
    else if offset == highest then Updated(highest, isFinal || final)
    else if offset < highest then
      if final then Rejected(FinalSizeError) else Updated(highest, isFinal)
    else if offset > window || !connectionOk then Rejected(FlowControlError)
    else Updated(offset, isFinal || final)
  }

  /** The frame leaves two gaps of one, and the sorter has as many as it may have. */
  ghost predicate NoRoomForGap(s: State, f: StreamFrame) {
    |s.sorter.gaps| == FS.MAX_GAPS && FS.SplitsGap(s.sorter.gaps, f.offset, End(f))
  }

  /** A known final size does not change any more, and nothing goes beyond it. */
  predicate SizeOk(s: State, offset: int, final: bool) {
    s.receivedFinalOffset ==> offset <= s.finalOffset && (final ==> offset == s.finalOffset)
  }

  ghost predicate FrameSpec(s: State, s': State, f: StreamFrame, cb: Option<nat>, completed: bool) {
    && Valid(s') && SizeOk(s, End(f), f.fin)
    && s' == s.(sorter := s'.sorter, finalOffset := if f.fin then End(f) else s.finalOffset,
                highestReceived := Max(s.highestReceived, End(f)),
                receivedFinalOffset := s.receivedFinalOffset || f.fin,
                reports := s.reports + (if completed then 1 else 0))
    && (completed <==> s.cancelled && f.fin && !FinalKnown(s))
    && (if s.cancelled then s'.sorter == s.sorter
        else FS.PushSpec(s.sorter, s'.sorter, f.data, f.offset) && FS.CallbackAdded(s.sorter, s'.sorter, cb))
  }

  ghost predicate ResetSpec(s: State, s': State, finalSize: int, completed: bool) {
    && Valid(s')
    && (s.shutdown ==> s' == s && !completed)
    && (!s.shutdown ==>
          && SizeOk(s, finalSize, true)
          && s' == s.(finalOffset := finalSize, highestReceived := finalSize, receivedFinalOffset := true,
                      reset := true, reports := s.reports + (if completed then 1 else 0))
          && (completed <==> !s.reset && !FinalKnown(s)))
  }

  ghost predicate CancelSpec(s: State, s': State, completed: bool) {
    && Valid(s')
    && (if s.finRead || s.cancelled || s.reset then s' == s && !completed
        else && s' == s.(cancelled := true, reports := s.reports + (if completed then 1 else 0))
             && (completed <==> FinalKnown(s)))
  }

  // ---------------------------------------------------------------------------------------------

  lemma ReadsOnTransitive(s: State, s1: State, s2: State, a: seq<byte>, b: seq<byte>)
    requires ReadsOn(s, s1, a) && ReadsOn(s1, s2, b)
    ensures ReadsOn(s, s2, a + b)
  {
    hide Holds, Delivered;
    forall stream | Holds(s, stream)
      ensures Holds(s2, stream) && 0 <= Delivered(s) && Delivered(s2) <= |stream|
      ensures a + b == stream[Delivered(s)..Delivered(s2)]
    {
      assert Holds(s1, stream);
      assert stream[Delivered(s)..Delivered(s2)]
             == stream[Delivered(s)..Delivered(s1)] + stream[Delivered(s1)..Delivered(s2)];
    }
  }

  /** Taking the next chunk, once the current one is read, delivers nothing and loses nothing. */
  lemma DequeueOk(s: State, s': State, data: seq<byte>, cb: Option<nat>)
    requires Valid(s) && !s.finRead && s.readPosInFrame == |s.currentFrame|
    requires s'.sorter.released == FS.Call(s.sorter.released, s.currentFrameDone)
    requires FS.PopSpec(s.sorter.(released := s'.sorter.released), s'.sorter, s.sorter.readPos, data, cb)
    requires s' == s.(sorter := s'.sorter, currentFrame := data, currentFrameDone := cb, readPosInFrame := 0,
                      currentFrameIsLast := s.sorter.readPos + |data| >= s.finalOffset)
    ensures Valid(s') && ReadsOn(s, s', []) && SameOwed(s, s')
    ensures s'.currentFrame == [] ==> NextMissing(s')
  {
    hide FS.Partition, FS.QueueOk, FS.GapsOk, FS.QueueOf, FS.HasByte;
    var mid := s.sorter.(released := s'.sorter.released);
    assert FS.Valid(mid);
    forall x | FS.Received(s'.sorter, x) ensures x < s.highestReceived {
      assert FS.Received(s.sorter, x);
    }
    ReadPosReceived(s'.sorter, s.highestReceived);
    forall stream | Holds(s, stream) ensures Holds(s', stream) {
      FS.PopKeepsQueueOf(mid, s'.sorter, s.sorter.readPos, data, cb, stream);
    }
    forall stream | Holds(s, stream) ensures [] == stream[Delivered(s)..Delivered(s')] {}
  }

  /** Everything below the read position has been received. */
  lemma ReadPosReceived(s: FS.State, bound: int)
    requires FS.Valid(s) && 0 <= bound && (forall x :: FS.Received(s, x) ==> x < bound)
    ensures s.readPos <= bound
  {
    if s.readPos > 0 {
      assert !FS.InGap(s.gaps, s.readPos - 1);
      assert FS.Received(s, s.readPos - 1);
    }
  }

  lemma SliceOfSlice(stream: seq<byte>, lo: nat, hi: nat, a: nat, b: nat)
    requires lo <= hi <= |stream| && a <= b <= hi - lo
    ensures stream[lo..hi][a..b] == stream[lo + a..lo + b]
  {
    assert forall i :: 0 <= i < b - a ==> stream[lo..hi][a..b][i] == stream[lo..hi][a + i] == stream[lo + a..lo + b][i];
  }

  lemma CopyOk(s: State, s': State, m: int)
    requires Valid(s) && !s.finRead && 0 <= m <= |s.currentFrame| - s.readPosInFrame
    requires s' == s.(readPosInFrame := s.readPosInFrame + m)
    ensures Valid(s') && SameOwed(s, s')
    ensures ReadsOn(s, s', s.currentFrame[s.readPosInFrame..s.readPosInFrame + m])
  {
    hide FS.Valid, FS.QueueOf, FS.Received;
    forall stream | Holds(s, stream)
      ensures Holds(s', stream)
      ensures s.currentFrame[s.readPosInFrame..s.readPosInFrame + m] == stream[Delivered(s)..Delivered(s')]
    {
      var base := s.sorter.readPos - |s.currentFrame|;
      SliceOfSlice(stream, base, s.sorter.readPos, s.readPosInFrame, s.readPosInFrame + m);
    }
  }

  lemma FinishOk(s: State, s': State)
    requires Valid(s) && !s.finRead && s.readPosInFrame >= |s.currentFrame| && s.currentFrameIsLast
    requires s' == s.(finRead := true, currentFrame := [], reports := s'.reports,
                      sorter := s.sorter.(released := FS.Call(s.sorter.released, s.currentFrameDone)))
    ensures Valid(s') && SameOwed(s, s') && ReadsOn(s, s', [])
    ensures FinalKnown(s') && Delivered(s') == s'.finalOffset
  {
    assert FS.Valid(s'.sorter);
    forall x | FS.Received(s'.sorter, x) ensures x < s.highestReceived {
      assert FS.Received(s.sorter, x);
    }
    forall stream | Holds(s, stream) ensures Holds(s', stream) && [] == stream[Delivered(s)..Delivered(s')] {}
  }

  /** A part of Read that does not end the stream. */
  ghost predicate StepsOn(s: State, s': State, data: seq<byte>) {
    && Valid(s') && SameApartFromReading(s, s') && SameOwed(s, s') && ReadsOn(s, s', data)
    && s'.reports == s.reports && s'.finRead == s.finRead
  }

  lemma StepsOnTransitive(s: State, s1: State, s2: State, a: seq<byte>, b: seq<byte>)
    requires StepsOn(s, s1, a) && StepsOn(s1, s2, b)
    ensures StepsOn(s, s2, a + b)
    ensures b == [] ==> StepsOn(s, s2, a)
  {
    hide Valid, ReadsOn;
    ReadsOnTransitive(s, s1, s2, a, b);
    assert b == [] ==> a + b == a;
  }

  lemma Finished(s: State, s1: State, s2: State, a: seq<byte>)
    requires StepsOn(s, s1, a) && SameApartFromReading(s1, s2) && SameOwed(s1, s2) && ReadsOn(s1, s2, [])
    ensures SameApartFromReading(s, s2) && SameOwed(s, s2) && ReadsOn(s, s2, a)
  {
    hide Valid, ReadsOn;
    ReadsOnTransitive(s, s1, s2, a, []);
    assert a + [] == a;
  }

  /** A part of Read that ends the stream. */
  ghost predicate EndsOn(s: State, s': State, data: seq<byte>) {
    && Valid(s') && SameApartFromReading(s, s') && SameOwed(s, s') && ReadsOn(s, s', data)
    && s'.reports == s.reports + 1 && s'.finRead && !s.finRead
    && FinalKnown(s') && Delivered(s') == s'.finalOffset
  }

  lemma EndsOnTransitive(s: State, s1: State, s2: State, a: seq<byte>, b: seq<byte>)
    requires StepsOn(s, s1, a) && EndsOn(s1, s2, b)
    ensures EndsOn(s, s2, a + b)
  {
    hide Valid, ReadsOn, Delivered;
    ReadsOnTransitive(s, s1, s2, a, b);
  }

  /** How a round of the loop ends. */
  datatype RoundEnd = Next | Wait | Ended | Stopped(error: Option<ReadError>)

  lemma NothingRead(s: State)
    requires Valid(s)
    ensures StepsOn(s, s, [])
  {
    forall stream | Holds(s, stream) && !s.finRead ensures [] == stream[Delivered(s)..Delivered(s)] {}
  }

  lemma InBounds(s: State)
    requires Valid(s)
    ensures !s.finRead ==> 0 <= s.readPosInFrame <= |s.currentFrame|
  {
  }

  /** The current frame can be the last one only once the final offset is known. */
  lemma KnownBounds(s: State)
    requires Valid(s)
    ensures s.currentFrameIsLast ==> FinalKnown(s) && s.receivedFinalOffset
    ensures s.receivedFinalOffset ==> s.finalOffset == s.highestReceived
    ensures FS.Valid(s.sorter) && forall x :: FS.Received(s.sorter, x) ==> x < s.highestReceived
  {
  }

  /** The new bounds, and a sorter that keeps within them, leave the stream valid. */
  lemma BoundsOk(s: State, s': State, offset: int, final: bool)
    requires Valid(s) && FS.Valid(s'.sorter) && s'.sorter.readPos == s.sorter.readPos
    requires s'.finRead == s.finRead && s'.readPosInFrame == s.readPosInFrame && s'.currentFrame == s.currentFrame
    requires s'.currentFrameIsLast == s.currentFrameIsLast
    requires s'.highestReceived == Max(s.highestReceived, offset)
             && s'.receivedFinalOffset == (s.receivedFinalOffset || final)
    requires s'.finalOffset == if final then offset else s.finalOffset
    requires s.receivedFinalOffset ==> offset <= s.highestReceived && (final ==> offset == s.highestReceived)
    requires final ==> s.highestReceived <= offset
    requires 0 <= offset <= MAX_BYTE_COUNT
    requires forall x :: FS.Received(s'.sorter, x) ==> x < s'.highestReceived
    ensures Valid(s')
  {
    KnownBounds(s);
  }

  /** After a push everything received lies below the new highest offset. */
  lemma PushedReceived(s: FS.State, s': FS.State, data: seq<byte>, offset: int, highest: int, highest': int)
    requires FS.PushSpec(s, s', data, offset) && (forall x :: FS.Received(s, x) ==> x < highest)
    requires highest <= highest' && offset + |data| <= highest'
    ensures FS.Valid(s') && s'.readPos == s.readPos && (forall x :: FS.Received(s', x) ==> x < highest')
  {
    forall x | FS.Received(s', x) ensures x < highest' {
      assert FS.Received(s, x) || offset <= x < offset + |data|;
    }
  }

  /** The flow controller has accepted the end of `f`, and a final offset has been noted. */
  ghost predicate Noted(s: State, s': State, f: StreamFrame) {
    && s' == s.(finalOffset := if f.fin then End(f) else s.finalOffset,
                highestReceived := Max(s.highestReceived, End(f)),
                receivedFinalOffset := s.receivedFinalOffset || f.fin)
    && (s.receivedFinalOffset ==> End(f) <= s.highestReceived && (f.fin ==> End(f) == s.highestReceived))
    && (f.fin ==> s.highestReceived <= End(f))
  }

  lemma FrameHandled(s: State, mid: State, s': State, f: StreamFrame, cb: Option<nat>, completed: bool)
    requires Valid(s) && 0 <= f.offset && End(f) <= MAX_BYTE_COUNT && Noted(s, mid, f)
    requires s' == mid.(sorter := s'.sorter, reports := s'.reports)
    requires completed <==> s.cancelled && f.fin && !FinalKnown(s)
    requires s'.reports == s.reports + (if completed then 1 else 0)
    requires s.cancelled ==> s'.sorter == s.sorter
    requires !s.cancelled ==>
               FS.PushSpec(s.sorter, s'.sorter, f.data, f.offset) && FS.CallbackAdded(s.sorter, s'.sorter, cb)
    ensures FrameSpec(s, s', f, cb, completed)
  {
    hide FS.PushSpec, FS.CallbackAdded;
    KnownBounds(s);
    if !s.cancelled {
      PushedReceived(s.sorter, s'.sorter, f.data, f.offset, s.highestReceived, s'.highestReceived);
    }
    BoundsOk(s, s', End(f), f.fin);
  }

  class Stream {
    const frameQueue: FS.Sorter
    var finalOffset: int
    var currentFrame: seq<byte>
    var currentFrameDone: Option<nat>
    var readPosInFrame: int
    var currentFrameIsLast: bool
    var finRead: bool
    var shutdown: bool
    var cancelled: bool
    var reset: bool
    var highestReceived: int
    var receivedFinalOffset: bool
    var reports: nat

    ghost function Contents(): State
      reads this, frameQueue
    {
      State(frameQueue.Contents(), finalOffset, currentFrame, currentFrameDone, readPosInFrame, currentFrameIsLast,
            finRead, shutdown, cancelled, reset, highestReceived, receivedFinalOffset, reports)
    }

    constructor ()
      ensures fresh(frameQueue)
      ensures Initial(Contents())
    {
      frameQueue := new FS.Sorter();
      finalOffset, currentFrame, currentFrameDone, readPosInFrame := MAX_BYTE_COUNT, [], None, 0;
      currentFrameIsLast, finRead, shutdown, cancelled, reset := false, false, false, false, false;
      highestReceived, receivedFinalOffset, reports := 0, false, 0;
    }

    method DequeueNextFrame()
      requires Valid(Contents()) && !finRead && readPosInFrame == |currentFrame|
      modifies this, frameQueue
      ensures Valid(Contents()) && SameApartFromReading(old(Contents()), Contents())
              && SameOwed(old(Contents()), Contents())
      ensures ReadsOn(old(Contents()), Contents(), [])
      ensures !finRead && readPosInFrame == 0 && reports == old(reports)
      ensures currentFrame == [] ==> NextMissing(Contents())
      ensures currentFrameIsLast <==> frameQueue.readPos >= finalOffset
    {
      hide Holds, NextMissing, FS.Partition, FS.QueueOk;
      ghost var s0 := Contents();
      frameQueue.released := FS.Call(frameQueue.released, currentFrameDone);
      assert FS.Valid(frameQueue.Contents());
      var offset, data, done, _ := frameQueue.Pop();
      currentFrame, currentFrameDone := data, done;
      currentFrameIsLast := offset + |currentFrame| >= finalOffset;
      readPosInFrame := 0;
      DequeueOk(s0, Contents(), data, done);
    }

    /** Copies what fits into the rest of the buffer. */
    method CopyOut(want: nat) returns (chunk: seq<byte>)
      requires Valid(Contents()) && !finRead && readPosInFrame <= |currentFrame|
      modifies this`readPosInFrame
      ensures StepsOn(old(Contents()), Contents(), chunk)
      ensures |chunk| == Min(want, |currentFrame| - old(readPosInFrame))
              && readPosInFrame == old(readPosInFrame) + |chunk|
    {
      hide Valid, Holds, ReadsOn, SameOwed;
      ghost var s0 := Contents();
      InBounds(s0);
      var m := Min(want, |currentFrame| - readPosInFrame);
      chunk := currentFrame[readPosInFrame..readPosInFrame + m];
      readPosInFrame := readPosInFrame + m;
      CopyOk(s0, Contents(), m);
    }

    /** The last frame has been read. */
    method FinishReading()
      requires Valid(Contents()) && !finRead && readPosInFrame >= |currentFrame| && currentFrameIsLast
      modifies this`finRead, this`currentFrame, this`reports, frameQueue`released
      ensures Valid(Contents()) && SameOwed(old(Contents()), Contents()) && ReadsOn(old(Contents()), Contents(), [])
      ensures SameApartFromReading(old(Contents()), Contents())
      ensures finRead && reports == old(reports) + 1
      ensures FinalKnown(Contents()) && Delivered(Contents()) == finalOffset
    {
      ghost var s0 := Contents();
      finRead := true;
      currentFrame := [];
      frameQueue.released := FS.Call(frameQueue.released, currentFrameDone);
      reports := reports + 1;
      FinishOk(s0, Contents());
    }

    /**
      One round of the loop of Read, with `room` bytes left in the buffer. `some`: there is data already;
      `first`: the round starts behind the wait; `expired`: the deadline has passed.
     */
    method ReadRound(room: nat, some: bool, first: bool, expired: bool) returns (chunk: seq<byte>, end: RoundEnd)
      requires Valid(Contents()) && !finRead && room > 0
      modifies this, frameQueue
      ensures |chunk| <= room
      ensures !end.Ended? ==> StepsOn(old(Contents()), Contents(), chunk)
      ensures end.Ended? ==> EndsOn(old(Contents()), Contents(), chunk) && !old(shutdown || cancelled || reset)
      ensures end.Next? ==> chunk != [] && !(currentFrameIsLast && readPosInFrame == |currentFrame|)
      ensures !Over(old(Contents())) && expired ==>
                end.Stopped? && (first || !some ==> end.error == Some(DeadlineExceeded))
      ensures end.Stopped? ==> chunk == [] && (end.error.None? ==> NextMissing(Contents()))
      ensures Over(old(Contents())) && (first || !some) ==> end == Stopped(Some(FirstError(old(Contents()), true)))
      ensures !Over(old(Contents())) && end.Stopped? ==>
                end.error.None? || (end.error == Some(DeadlineExceeded) && expired)
      ensures end.Wait? ==>
                chunk == [] && NextMissing(Contents()) && Delivered(Contents()) != finalOffset && (first || !some)
      ensures end.Wait? ==> currentFrame == [] && readPosInFrame == 0
    {
      hide Valid, ReadsOn, SameOwed, NextMissing;
      ghost var s0 := Contents();
      InBounds(s0);
      NothingRead(s0);
      if readPosInFrame >= |currentFrame| {
        DequeueNextFrame();
      }
      if !first && currentFrame == [] && some {
        return [], Stopped(if shutdown then Some(ConnectionClosed) else None);
      }
      if shutdown || cancelled || reset {
        var error := if shutdown then ConnectionClosed else if cancelled then ReadCancelled else ResetByPeer;
        return [], Stopped(Some(error));
      }
      if expired {
        return [], Stopped(Some(DeadlineExceeded));
      }
      if currentFrame == [] && !currentFrameIsLast {
        return [], Wait;
      }
      ghost var s1 := Contents();
      chunk := CopyOut(room);
      StepsOnTransitive(s0, s1, Contents(), [], chunk);
      assert [] + chunk == chunk;
      if readPosInFrame >= |currentFrame| && currentFrameIsLast {
        ghost var s2 := Contents();
        FinishReading();
        Finished(s0, s2, Contents(), chunk);
        return chunk, Ended;
      }
      return chunk, Next;
    }

    /**
      A section of Read: from the start of the call, or from behind the wait, up to the return or the
      next wait. `expired` says for every round of the loop whether the deadline has passed.
     */
    method Read(n: nat, resuming: bool, expired: nat -> bool) returns (r: ReadResult)
      requires Valid(Contents())
      requires resuming ==> n > 0 && !finRead && currentFrame == [] && readPosInFrame == 0
      modifies this, frameQueue
      ensures ReadSpec(old(Contents()), Contents(), n, r)
      ensures r.Blocked? ==> n > 0 && !finRead && currentFrame == [] && readPosInFrame == 0
      ensures Over(old(Contents())) ==> r == Done([], false, Some(FirstError(old(Contents()), resuming)))
      ensures r.Done? && r.error == Some(DeadlineExceeded) ==> exists round: nat :: expired(round)
      ensures !Over(old(Contents())) && n > 0 && expired(0) ==> r == Done([], false, Some(DeadlineExceeded))
      ensures r.Done? && r.error.None? && |r.data| == n > 0 ==>
                !(currentFrameIsLast && readPosInFrame == |currentFrame|)
    {
      hide Valid, ReadsOn, SameOwed, NextMissing, Delivered;
      ghost var s0 := Contents();
      NothingRead(s0);
      if !resuming && (finRead || cancelled || reset || shutdown) {
        return Done([], false, Some(if finRead then EndOfStream else if cancelled then ReadCancelled
                                    else if reset then ResetByPeer else ConnectionClosed));
      }
      var out, round: nat := [], 0;
      while |out| < n
        invariant |out| <= n && StepsOn(s0, Contents(), out)
        invariant if round == 0 then out == [] else out != [] && (Over(s0) || !expired(0))
        invariant out != [] ==> !(currentFrameIsLast && readPosInFrame == |currentFrame|)
        invariant Over(s0) ==> resuming && round == 0
        decreases n - |out|
      {
        ghost var s1 := Contents();
        var chunk, end := ReadRound(n - |out|, out != [], resuming && round == 0, expired(round));
        if end.Ended? {
          EndsOnTransitive(s0, s1, Contents(), out, chunk);
          return Done(out + chunk, true, Some(EndOfStream));
        }
        StepsOnTransitive(s0, s1, Contents(), out, chunk);
        match end {
          case Stopped(error) => return Done(out, false, error);
          case Wait => return Blocked;
          case Next => out := out + chunk;
          case Ended =>
        }
        round := round + 1;
      }
      return Done(out, false, None);
    }

    /** The flow controller's verdict on an offset and, if it accepts a final one, the final offset. */
    method NoteOffset(offset: int, final: bool, window: int, connectionOk: bool) returns (u: Update, newlyFinal: bool)
      modifies this`highestReceived, this`receivedFinalOffset, this`finalOffset
      ensures u == UpdateHighestReceived(old(highestReceived), old(receivedFinalOffset), offset, final, window,
                                         connectionOk)
      ensures u.Rejected? ==> Contents() == old(Contents()) && (u.error.FinalSizeError? || u.error.FlowControlError?)
      ensures u.Updated? ==>
                && highestReceived == Max(old(highestReceived), offset)
                && receivedFinalOffset == (old(receivedFinalOffset) || final)
                && finalOffset == (if final then offset else old(finalOffset))
                && (old(receivedFinalOffset) ==>
                      offset <= old(highestReceived) && (final ==> offset == old(highestReceived)))
                && (final ==> old(highestReceived) <= offset)
      ensures newlyFinal <==> u.Updated? && final && old(finalOffset) == MAX_BYTE_COUNT
    {
      newlyFinal := false;
      u := UpdateHighestReceived(highestReceived, receivedFinalOffset, offset, final, window, connectionOk);
      if u.Updated? {
        highestReceived, receivedFinalOffset := u.highest, u.final;
        if final {
          newlyFinal := finalOffset == MAX_BYTE_COUNT;
          finalOffset := offset;
        }
      }
    }

    /** A STREAM frame, and what its release callback is. State after an error is not promised. */
    method HandleStreamFrame(f: StreamFrame, putBack: Option<nat>, window: int, connectionOk: bool)
      returns (r: HandleResult)
      requires Valid(Contents()) && 0 <= f.offset && End(f) <= MAX_BYTE_COUNT
      modifies this, frameQueue
      ensures r.Handled? ==> FrameSpec(old(Contents()), Contents(), f, putBack, r.completed)
      ensures var u := UpdateHighestReceived(old(highestReceived), old(receivedFinalOffset), End(f), f.fin, window,
                                             connectionOk);
              && (u.Rejected? ==> r == u.error)
              && (u.Updated? ==> r.Handled? || (!cancelled && (r.TooManyGaps? || r.NoGapFound?)))
              && (u.Updated? ==> (r.NoGapFound? <==> !cancelled && f.data != [] && End(f) == MAX_BYTE_COUNT))
              && (u.Updated? ==> (r.TooManyGaps? <==> !cancelled && NoRoomForGap(old(Contents()), f)))
    {
      hide Valid, UpdateHighestReceived, FrameSpec, NoRoomForGap;
      ghost var s0 := Contents();
      var u, newlyFinal := NoteOffset(End(f), f.fin, window, connectionOk);
      if u.Rejected? {
        return u.error;
      }
      r := PushOrIgnore(f, putBack, newlyFinal, s0);
    }

    /** The part of handleStreamFrame behind the flow controller. */
    method PushOrIgnore(f: StreamFrame, putBack: Option<nat>, newlyFinal: bool, ghost s0: State)
      returns (r: HandleResult)
      requires Valid(s0) && 0 <= f.offset && End(f) <= MAX_BYTE_COUNT && Noted(s0, Contents(), f)
      requires newlyFinal <==> f.fin && !FinalKnown(s0)
      modifies this`reports, frameQueue
      ensures r.Handled? ==> FrameSpec(s0, Contents(), f, putBack, r.completed)
      ensures r.Handled? || (!cancelled && (r.TooManyGaps? || r.NoGapFound?))
      ensures r.NoGapFound? <==> !cancelled && f.data != [] && End(f) == MAX_BYTE_COUNT
      ensures r.TooManyGaps? <==> !cancelled && NoRoomForGap(s0, f)
    {
      hide Valid, FrameSpec, FS.Valid, FS.PushSpec, FS.CallbackAdded, FS.SplitsGap;
      ghost var s1 := Contents();
      KnownBounds(s0);
      if cancelled {
        reports := if newlyFinal then reports + 1 else reports;
        FrameHandled(s0, s1, Contents(), f, putBack, newlyFinal);
        return Handled(newlyFinal);
      }
      var p := frameQueue.Push(f.data, f.offset, putBack);
      if p.TooManyGaps? {
        return TooManyGaps;
      } else if p.NoGapFound? {
        return NoGapFound;
      }
      FrameHandled(s0, s1, Contents(), f, putBack, false);
      return Handled(false);
    }

    method HandleResetStreamFrame(finalSize: int, window: int, connectionOk: bool) returns (r: HandleResult)
      requires Valid(Contents()) && 0 <= finalSize <= MAX_BYTE_COUNT
      modifies this
      ensures r.Handled? ==> ResetSpec(old(Contents()), Contents(), finalSize, r.completed)
      ensures var u := UpdateHighestReceived(old(highestReceived), old(receivedFinalOffset), finalSize, true, window,
                                             connectionOk);
              r == if shutdown then Handled(false)
                   else if u.Rejected? then u.error
                   else Handled(!old(reset) && !FinalKnown(old(Contents())))
    {
      hide Valid, UpdateHighestReceived;
      ghost var s0 := Contents();
      if shutdown {
        return Handled(false);
      }
      KnownBounds(s0);
      var u, newlyFinal := NoteOffset(finalSize, true, window, connectionOk);
      if u.Rejected? {
        return u.error;
      }
      if reset {
        BoundsOk(s0, Contents(), finalSize, true);
        return Handled(false);
      }
      reset := true;
      reports := if newlyFinal then reports + 1 else reports;
      BoundsOk(s0, Contents(), finalSize, true);
      return Handled(newlyFinal);
    }

    method CancelRead() returns (completed: bool)
      requires Valid(Contents())
      modifies this`cancelled, this`reports
      ensures CancelSpec(old(Contents()), Contents(), completed)
    {
      hide FS.Valid;
      if finRead || cancelled || reset {
        return false;
      }
      cancelled := true;
      completed := finalOffset != MAX_BYTE_COUNT;
      reports := if completed then reports + 1 else reports;
    }

    method CloseForShutdown()
      requires Valid(Contents())
      modifies this`shutdown
      ensures Contents() == old(Contents()).(shutdown := true) && Valid(Contents())
    {
      shutdown := true;
    }
  }

  // ---------------------------------------------------------------------------------------------
  // Runs

  datatype Event =
    | ReadEvent(n: nat, read: ReadResult)
    | FrameEvent(frame: StreamFrame, putBack: Option<nat>, completed: bool)
    | ResetEvent(finalSize: int, completed: bool)
    | CancelEvent(completed: bool)
    | ShutdownEvent

  ghost predicate Step(s: State, e: Event, s': State) {
    match e
    case ReadEvent(n, r) => ReadSpec(s, s', n, r)
    case FrameEvent(f, cb, completed) => FrameSpec(s, s', f, cb, completed)
    case ResetEvent(finalSize, completed) => ResetSpec(s, s', finalSize, completed)
    case CancelEvent(completed) => CancelSpec(s, s', completed)
    case ShutdownEvent => s' == s.(shutdown := true)
  }

  ghost predicate IsRun(states: seq<State>, events: seq<Event>) {
    && |states| == |events| + 1
    && Initial(states[0])
    && forall i :: 0 <= i < |events| ==> Step(states[i], events[i], states[i + 1])
  }

  /** The frame hands its buffer to the sorter, which then owes the release. */
  function PushedBy(s: State, e: Event, id: nat): nat {
    if e.FrameEvent? && !s.cancelled then FS.One(e.putBack, id) else 0
  }

  function Pushes(states: seq<State>, events: seq<Event>, id: nat): nat
    requires |states| == |events| + 1
    decreases |events|
  {
    if events == [] then 0
    else var n := |events| - 1; Pushes(states[..|events|], events[..n], id) + PushedBy(states[n], events[n], id)
  }

  lemma StepKeepsValid(s: State, e: Event, s': State, id: nat)
    requires Valid(s) && Step(s, e, s')
    ensures Valid(s') && Owed(s', id) == Owed(s, id) + PushedBy(s, e, id)
  {
    hide Valid, FS.Valid, FS.PushSpec, FS.Owed;
    if e.ShutdownEvent? {
      assert Valid(s') by { ShutdownOk(s); }
    }
  }

  lemma ShutdownOk(s: State)
    requires Valid(s)
    ensures Valid(s.(shutdown := true))
  {
  }

  /** In every run each release callback is called, or still owed, once for each push of its frame. */
  lemma {:induction false} RunConservesCallbacks(states: seq<State>, events: seq<Event>, id: nat)
    requires IsRun(states, events)
    ensures Valid(states[|events|]) && Owed(states[|events|], id) == Pushes(states, events, id)
    decreases |events|
  {
    hide Valid, Step, Initial, Owed;
    if events == [] {
      InitialOk(states[0]);
    } else {
      var n := |events| - 1;
      RunConservesCallbacks(states[..|events|], events[..n], id);
      assert states[..|events|][n] == states[n];
      StepKeepsValid(states[n], events[n], states[n + 1], id);
    }
  }

  /** How often a frame with this callback arrives, and how often on a cancelled stream. */
  function Arrivals(events: seq<Event>, id: nat): nat {
    if events == [] then 0
    else
      var e := events[|events| - 1];
      Arrivals(events[..|events| - 1], id) + (if e.FrameEvent? then FS.One(e.putBack, id) else 0)
  }

  function Ignored(states: seq<State>, events: seq<Event>, id: nat): nat
    requires |states| == |events| + 1
    decreases |events|
  {
    if events == [] then 0
    else
      var n := |events| - 1;
      var e := events[n];
      Ignored(states[..|events|], events[..n], id)
      + (if e.FrameEvent? && states[n].cancelled then FS.One(e.putBack, id) else 0)
  }

  /**
    Over every run, the frames that arrived were released, are still owed a release, or arrived after the
    stream was cancelled: those are given back by nobody.
   */
  lemma RunAccountsForBuffers(states: seq<State>, events: seq<Event>, id: nat)
    requires IsRun(states, events)
    ensures var s := states[|events|];
            && Arrivals(events, id) == Owed(s, id) + Ignored(states, events, id)
            && s.sorter.released[id] <= Arrivals(events, id) - Ignored(states, events, id)
  {
    hide Valid, IsRun;
    RunConservesCallbacks(states, events, id);
    RunLength(states, events);
    ArrivalsSplit(states, events, id);
  }

  lemma RunLength(states: seq<State>, events: seq<Event>)
    requires IsRun(states, events)
    ensures |states| == |events| + 1
  {
  }

  lemma {:induction false} ArrivalsSplit(states: seq<State>, events: seq<Event>, id: nat)
    requires |states| == |events| + 1
    ensures Arrivals(events, id) == Pushes(states, events, id) + Ignored(states, events, id)
    decreases |events|
  {
    if events != [] {
      ArrivalsSplit(states[..|events|], events[..|events| - 1], id);
    }
  }

  // ---------------------------------------------------------------------------------------------
  // Reports of completion

  /** Nothing more happens on the stream: it was read to its end, or nobody reads and the final size is known. */
  predicate Concluded(s: State) {
    s.finRead || (s.receivedFinalOffset && (s.cancelled || s.reset))
  }

  /** A final size that is taken for an unknown one, on a stream that nobody reads. */
  predicate Mistaken(s: State, e: Event) {
    && s.cancelled
    && match e
       case FrameEvent(f, _, _) => f.fin && End(f) == MAX_BYTE_COUNT
       case ResetEvent(finalSize, _) => finalSize == MAX_BYTE_COUNT && !s.reset && !s.shutdown
       case _ => false
  }

  /** How often that happens in a run. */
  function Mistakes(states: seq<State>, events: seq<Event>): nat
    requires |states| == |events| + 1
    decreases |events|
  {
    if events == [] then 0
    else
      var n := |events| - 1;
      Mistakes(states[..|events|], events[..n]) + (if Mistaken(states[n], events[n]) then 1 else 0)
  }

  /** A RESET_STREAM frame that stops a stream whose final size is known and that is still to be read. */
  predicate Swallows(s: State, e: Event) {
    e.ResetEvent? && !s.shutdown && !s.reset && !s.cancelled && !s.finRead && FinalKnown(s)
  }

  ghost predicate Swallowed(states: seq<State>, events: seq<Event>)
    requires |states| == |events| + 1
  {
    exists i :: 0 <= i < |events| && Swallows(states[i], events[i])
  }

  /** The number of reports, after so many mistakes and maybe a frame that has swallowed the report. */
  predicate ReportsAre(s: State, mistakes: nat, swallowed: bool) {
    && (mistakes > 0 ==> s.cancelled && s.receivedFinalOffset && !FinalKnown(s) && s.reports == mistakes)
    && (mistakes == 0 ==>
          && s.reports == (if s.finRead || (FinalKnown(s) && s.cancelled) || (s.reset && !swallowed) then 1 else 0)
          && (s.reset && s.cancelled ==> FinalKnown(s)))
    && (swallowed ==> s.reset && !s.cancelled && !s.finRead && FinalKnown(s))
    && (s.finRead ==> FinalKnown(s)) && (s.reset ==> s.receivedFinalOffset)
  }

  lemma StepReports(s: State, e: Event, s': State, mistakes: nat, swallowed: bool)
    requires Valid(s) && Step(s, e, s') && ReportsAre(s, mistakes, swallowed)
    ensures ReportsAre(s', mistakes + (if Mistaken(s, e) then 1 else 0), swallowed || Swallows(s, e))
  {
    hide FS.Valid, FS.PushSpec, FS.CallbackAdded, SameOwed, ReadsOn, NextMissing;
  }

  lemma {:induction false} RunReportsAre(states: seq<State>, events: seq<Event>)
    requires IsRun(states, events)
    ensures ReportsAre(states[|events|], Mistakes(states, events), Swallowed(states, events)) && Valid(states[|events|])
    decreases |events|
  {
    hide Valid, Step, Initial, ReportsAre, Mistaken, Swallows;
    RunConservesCallbacks(states, events, 0);
    if events == [] {
      InitialReports(states[0]);
    } else {
      var n := |events| - 1;
      RunReportsAre(states[..|events|], events[..n]);
      assert states[..|events|][n] == states[n];
      StepReports(states[n], events[n], states[n + 1], Mistakes(states[..|events|], events[..n]),
                  Swallowed(states[..|events|], events[..n]));
      SwallowedNext(states, events);
    }
  }

  lemma SwallowedNext(states: seq<State>, events: seq<Event>)
    requires |states| == |events| + 1 && events != []
    ensures var n := |events| - 1;
            Swallowed(states, events) <==>
            Swallowed(states[..|events|], events[..n]) || Swallows(states[n], events[n])
  {
    hide Swallows;
    var n := |events| - 1;
    if Swallowed(states[..|events|], events[..n]) {
      var i :| 0 <= i < n && Swallows(states[..|events|][i], events[..n][i]);
      assert Swallows(states[i], events[i]);
    }
    if Swallowed(states, events) {
      var i :| 0 <= i < |events| && Swallows(states[i], events[i]);
      assert i < n ==> Swallows(states[..|events|][i], events[..n][i]);
    }
  }

  lemma InitialReports(s: State)
    requires Initial(s)
    ensures ReportsAre(s, 0, false)
  {
  }

  /**
    In every run, completion is reported more than once exactly if MAX_BYTE_COUNT, as the final size of a
    cancelled stream, arrives more than once: each such frame is then reported.
   */
  lemma RunReportsOnce(states: seq<State>, events: seq<Event>)
    requires IsRun(states, events)
    ensures states[|events|].reports > 1 <==> Mistakes(states, events) > 1
    ensures Mistakes(states, events) > 0 ==> states[|events|].reports == Mistakes(states, events)
  {
    hide IsRun, Valid, Mistakes, Swallowed;
    RunLength(states, events);
    RunReportsAre(states, events);
  }

  /**
    In every run, nothing is reported before the stream is concluded; and a concluded stream has reported, except
    exactly if a RESET_STREAM frame came when the final size was known and the data not read, or if
    MAX_BYTE_COUNT is the final size of a stream that was cancelled after it.
   */
  lemma ConcludedHasReported(states: seq<State>, events: seq<Event>)
    requires IsRun(states, events)
    ensures var s := states[|events|];
            && (!Concluded(s) ==> s.reports == 0)
            && (Concluded(s) ==>
                  (s.reports == 0 <==>
                   || Swallowed(states, events)
                   || (s.cancelled && !FinalKnown(s) && Mistakes(states, events) == 0)))
  {
    hide IsRun, Mistakes, Swallowed;
    RunLength(states, events);
    RunReportsAre(states, events);
  }

  /** The final size MAX_BYTE_COUNT is taken for an unknown one: a FIN with it that arrives twice is reported twice. */
  lemma ReportsTwice() returns (states: seq<State>, events: seq<Event>)
    ensures IsRun(states, events) && states[|events|].reports == 2
  {
    var fin := StreamFrame(MAX_BYTE_COUNT, [], true);
    var sorter := FS.State(map[], 0, [FS.Interval(0, MAX_BYTE_COUNT)], multiset{});
    var s0 := State(sorter, MAX_BYTE_COUNT, [], None, 0, false, false, false, false, false, 0, false, 0);
    var s1 := s0.(cancelled := true);
    var s2 := s1.(highestReceived := MAX_BYTE_COUNT, receivedFinalOffset := true, reports := 1);
    var s3 := s2.(reports := 2);
    InitialOk(s0);
    states, events := [s0, s1, s2, s3], [CancelEvent(false), FrameEvent(fin, None, true), FrameEvent(fin, None, true)];
    assert Step(s0, events[0], s1) && Step(s1, events[1], s2) && Step(s2, events[2], s3);
  }

  /** So is a FIN with it and a RESET_STREAM frame behind it. */
  lemma ReportsTwiceOnReset() returns (states: seq<State>, events: seq<Event>)
    ensures IsRun(states, events) && states[|events|].reports == 2
  {
    var fin := StreamFrame(MAX_BYTE_COUNT, [], true);
    var sorter := FS.State(map[], 0, [FS.Interval(0, MAX_BYTE_COUNT)], multiset{});
    var s0 := State(sorter, MAX_BYTE_COUNT, [], None, 0, false, false, false, false, false, 0, false, 0);
    var s1 := s0.(cancelled := true);
    var s2 := s1.(highestReceived := MAX_BYTE_COUNT, receivedFinalOffset := true, reports := 1);
    var s3 := s2.(reset := true, reports := 2);
    InitialOk(s0);
    states := [s0, s1, s2, s3];
    events := [CancelEvent(false), FrameEvent(fin, None, true), ResetEvent(MAX_BYTE_COUNT, true)];
    assert Step(s0, events[0], s1) && Step(s1, events[1], s2) && Step(s2, events[2], s3);
  }

  /** A stream that gets a FIN and then a RESET_STREAM frame before it is read never reports completion. */
  lemma NeverReports() returns (states: seq<State>, events: seq<Event>)
    ensures IsRun(states, events) && Concluded(states[|events|]) && Swallowed(states, events)
    ensures states[|events|].reports == 0
  {
    var fin := StreamFrame(0, [], true);
    var sorter := FS.State(map[], 0, [FS.Interval(0, MAX_BYTE_COUNT)], multiset{});
    var s0 := State(sorter, MAX_BYTE_COUNT, [], None, 0, false, false, false, false, false, 0, false, 0);
    var s1 := s0.(finalOffset := 0, receivedFinalOffset := true);
    var s2 := s1.(reset := true);
    InitialOk(s0);
    states, events := [s0, s1, s2], [FrameEvent(fin, None, false), ResetEvent(0, false)];
    assert Step(s0, events[0], s1) && Step(s1, events[1], s2);
    assert Swallows(states[1], events[1]);
  }
}
