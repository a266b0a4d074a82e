/**
  The streams that this endpoint opens. Callers of OpenStreamSync that cannot open one wait in a queue. Each
  critical section of the mutex is a step, and so is a waiter taking the wake-up out of its channel.
 */
module OutgoingStreams {
  import opened Common

  const INVALID_STREAM_NUM := -1

  /**
    `queue` says for each waiter, by its position, whether a wake-up is in its channel. `woken` are those that
    have taken it out and not yet entered the mutex. The rest is history: the streams that were opened, the
    waiters that were served and that were cancelled, and the limits at which STREAMS_BLOCKED frames were queued.
   */
  datatype State = State(
    queue: map<nat, bool>,
    lowest: nat,
    highest: nat,
    nextStream: int,
    maxStream: int,
    blockedSent: bool,
    closed: bool,
    woken: set<nat>,
    numOpened: nat,
    served: seq<nat>,
    cancelled: set<nat>,
    blocked: seq<int>)

  const START := State(map[], 0, 0, 1, INVALID_STREAM_NUM, false, false, {}, 0, [], {}, [])

  ghost predicate IsFirst(q: map<nat, bool>, pos: nat) {
    pos in q && forall p: nat :: p in q ==> pos <= p
  }

  /** As long as the map is not closed, only the first waiter has a wake-up or is woken. */
  ghost predicate QueueOk(q: map<nat, bool>, woken: set<nat>, closed: bool) {
    !closed ==> && (forall p: nat :: p in q && q[p] ==> IsFirst(q, p))
                && (forall p: nat :: p in woken ==> IsFirst(q, p))
  }

  /** Nobody is woken but the first in the queue, and everybody who came is somewhere. */
  ghost predicate Valid(h: State) {
    && h.nextStream == h.numOpened + 1 && (h.numOpened > 0 ==> h.numOpened <= h.maxStream)
    && (forall p: nat :: p in h.queue ==> h.lowest <= p < h.highest)
    && QueueOk(h.queue, h.woken, h.closed)
    && (forall p: nat :: p < h.highest ==> p in h.queue || p in h.served || p in h.cancelled)
    && (forall p: nat, i :: p in h.queue && 0 <= i < |h.served| ==> h.served[i] < p)
    && (forall i :: 0 <= i < |h.served| ==> h.served[i] < h.highest)
    && (forall i, j :: 0 <= i < j < |h.served| ==> h.served[i] < h.served[j])
  }

  /** The limit has been reached: not everybody who waits can be served with it. */
  predicate LimitReached(h: State) {
    h.maxStream < h.nextStream - 1 + |h.queue| && |h.queue| > 0
  }

  /** Each limit was reported at most once, and the present one if somebody waits for a higher one. */
  ghost predicate BlockedOk(h: State) {
    && INVALID_STREAM_NUM <= h.maxStream
    && (forall i, j :: 0 <= i < j < |h.blocked| ==> h.blocked[i] < h.blocked[j])
    && (forall i :: 0 <= i < |h.blocked| ==> INVALID_STREAM_NUM <= h.blocked[i] <= h.maxStream)
    && (h.blockedSent <==> h.maxStream in h.blocked)
    && (LimitReached(h) ==> h.blockedSent)
  }

  // ---------------------------------------------------------------------------------------------
  // The steps

  /** The wake-up goes to the first waiter; in a channel that holds one, it is lost, and nobody misses it. */
  ghost predicate Unblocks(q: map<nat, bool>, q': map<nat, bool>) {
    if |q| == 0 then q' == q
    else exists pos: nat :: IsFirst(q, pos) && q' == q[pos := true]
  }

  predicate MayOpen(h: State) {
    !h.closed && |h.queue| == 0 && h.nextStream <= h.maxStream
  }

  function Opened(h: State): State {
    h.(nextStream := h.nextStream + 1, numOpened := h.numOpened + 1)
  }

  /** A STREAMS_BLOCKED frame is queued, unless there was one for this limit. */
  function Blocked(h: State): State {
    if h.blockedSent then h else h.(blockedSent := true, blocked := h.blocked + [h.maxStream])
  }

  /** The limit in the frame. */
  function LimitSent(maxStream: int): int {
    if maxStream == INVALID_STREAM_NUM then 0 else maxStream
  }

  function Enqueued(h: State): State {
    Blocked(h.(queue := h.queue[h.highest := false], lowest := if |h.queue| == 0 then h.highest else h.lowest,
               highest := h.highest + 1))
  }

  /** A higher limit, before the first waiter is woken. */
  function Raised(h: State, num: int): State {
    var h1 := h.(maxStream := num, blockedSent := false);
    if num < h.nextStream - 1 + |h.queue| then Blocked(h1) else h1
  }

  ghost predicate ResumeSpec(h: State, h': State, pos: nat) {
    && pos in h.woken
    && if h.closed then h' == h.(woken := h.woken - {pos})
       else if h.nextStream > h.maxStream then h' == h.(woken := h.woken - {pos})
       else
         && Unblocks(h.queue - {pos}, h'.queue)
         && h' == Opened(h).(woken := h.woken - {pos}, queue := h'.queue, lowest := pos + 1, served := h.served + [pos])
  }

  ghost predicate SetMaxSpec(h: State, h': State, num: int) {
    if num <= h.maxStream then h' == h
    else Unblocks(h.queue, h'.queue) && h' == Raised(h, num).(queue := h'.queue)
  }

  /** What can happen to the map. */
  datatype Event =
    | TryOpen            // OpenStream, or OpenStreamSync that need not wait
    | Arrive             // OpenStreamSync that has to wait
    | Wake(pos: nat)     // a waiter takes the wake-up out of its channel
    | Resume(pos: nat)   // and enters the mutex
    | Cancel(pos: nat)   // a waiter gives up
    | SetMax(num: int)
    | Close

  /** The wake-up would be sent into a channel that was closed. */
  predicate SetMaxPanics(h: State, num: int) {
    h.closed && num > h.maxStream && |h.queue| > 0
  }

  /** A panic ends the run. */
  ghost predicate Step(h: State, e: Event, h': State) {
    match e
    case TryOpen => h' == if MayOpen(h) then Opened(h) else if h.closed then h else Blocked(h)
    case Arrive => !h.closed && !MayOpen(h) && h' == Enqueued(h)
    case Wake(pos) =>
      && pos in h.queue && pos !in h.woken && (h.queue[pos] || h.closed)
      && h' == h.(queue := if h.closed then h.queue else h.queue[pos := false], woken := h.woken + {pos})
    case Resume(pos) => ResumeSpec(h, h', pos)
    case Cancel(pos) =>
      pos in h.queue && pos !in h.woken && h' == h.(queue := h.queue - {pos}, cancelled := h.cancelled + {pos})
    case SetMax(num) => !SetMaxPanics(h, num) && SetMaxSpec(h, h', num)
    case Close => h' == h.(closed := true)
  }

  ghost predicate IsRun(hs: seq<State>, es: seq<Event>) {
    && |hs| == |es| + 1 && hs[0] == START
    && forall i :: 0 <= i < |es| ==> Step(hs[i], es[i], hs[i + 1])
  }

  // ---------------------------------------------------------------------------------------------
  // What they keep

  lemma UnblockKeeps(q: map<nat, bool>, q': map<nat, bool>, woken: set<nat>)
    requires QueueOk(q, woken, false) && Unblocks(q, q')
    ensures QueueOk(q', woken, false) && q'.Keys == q.Keys
  {
    if |q| > 0 {
      var pos: nat :| IsFirst(q, pos) && q' == q[pos := true];
      assert q'.Keys == q.Keys;
      forall p: nat | p in q' && q'[p] ensures IsFirst(q', p) {
        assert p != pos ==> q[p] && IsFirst(q, p);
      }
    }
  }

  lemma EnqueueQueue(q: map<nat, bool>, woken: set<nat>, pos: nat)
    requires QueueOk(q, woken, false) && forall p: nat :: p in q ==> p < pos
    ensures QueueOk(q[pos := false], woken, false)
  {
    forall p: nat | IsFirst(q, p) ensures IsFirst(q[pos := false], p) {
    }
  }

  lemma EnqueueKeeps(h: State)
    requires Valid(h) && !h.closed
    ensures Valid(Enqueued(h))
  {
    hide QueueOk;
    EnqueueQueue(h.queue, h.woken, h.highest);
    var h' := Enqueued(h);
    if |h.queue| == 0 {
      assert h.queue == map[];
    }
    assert forall p: nat :: p in h'.queue <==> p in h.queue || p == h.highest;
  }

  lemma WakeKeeps(h: State, h': State, pos: nat)
    requires Valid(h) && Step(h, Wake(pos), h')
    ensures Valid(h')
  {
    assert h'.queue.Keys == h.queue.Keys;
  }

  lemma CancelKeeps(h: State, h': State, pos: nat)
    requires Valid(h) && Step(h, Cancel(pos), h')
    ensures Valid(h')
  {
  }

  /** The waiter that is served is the first one. */
  lemma ServeKeeps(h: State, h': State, pos: nat)
    requires Valid(h) && ResumeSpec(h, h', pos) && !h.closed && h.nextStream <= h.maxStream
    ensures Valid(h') && IsFirst(h.queue, pos)
  {
    hide Unblocks;
    var q := h.queue - {pos};
    assert IsFirst(h.queue, pos);
    assert forall p: nat :: p in q ==> pos < p;
    assert QueueOk(q, h.woken - {pos}, false);
    UnblockKeeps(q, h'.queue, h.woken - {pos});
    assert forall p: nat :: p in h'.queue <==> p in h.queue && p != pos;
  }

  lemma ResumeKeeps(h: State, h': State, pos: nat)
    requires Valid(h) && ResumeSpec(h, h', pos)
    ensures Valid(h')
  {
    if !h.closed && h.nextStream <= h.maxStream {
      ServeKeeps(h, h', pos);
    }
  }

  lemma SetMaxKeeps(h: State, h': State, num: int)
    requires Valid(h) && SetMaxSpec(h, h', num) && !SetMaxPanics(h, num)
    ensures Valid(h')
  {
    if num > h.maxStream && !h.closed {
      UnblockKeeps(h.queue, h'.queue, h.woken);
      assert forall p: nat :: p in h'.queue <==> p in h.queue;
    }
  }

  lemma StepKeeps(h: State, e: Event, h': State)
    requires Valid(h) && Step(h, e, h')
    ensures Valid(h')
  {
    match e {
      case TryOpen =>
      case Arrive => EnqueueKeeps(h);
      case Wake(pos) => WakeKeeps(h, h', pos);
      case Resume(pos) => ResumeKeeps(h, h', pos);
      case Cancel(pos) => CancelKeeps(h, h', pos);
      case SetMax(num) => SetMaxKeeps(h, h', num);
      case Close =>
    }
  }

  // ---------------------------------------------------------------------------------------------
  // Runs

  lemma {:induction false} RunKeeps(hs: seq<State>, es: seq<Event>)
    requires IsRun(hs, es)
    ensures forall i :: 0 <= i < |hs| ==> Valid(hs[i])
  {
    hide Step, Valid;
    if es == [] {
      StartValid();
    } else {
      var n := |es| - 1;
      RunKeeps(hs[..n + 1], es[..n]);
      assert hs[..n + 1][n] == hs[n] && Step(hs[n], es[n], hs[n + 1]);
      StepKeeps(hs[n], es[n], hs[n + 1]);
    }
  }

  lemma StartValid()
    ensures Valid(START)
  {
  }

  ghost predicate Serves(h: State, e: Event, h': State) {
    e.Resume? && h'.numOpened > h.numOpened
  }

  /** A waiter is served after all that came before it, except those that gave up. */
  lemma ServedInOrder(hs: seq<State>, es: seq<Event>, i: nat, p: nat)
    requires IsRun(hs, es) && i < |es| && Serves(hs[i], es[i], hs[i + 1]) && p < es[i].pos
    ensures p in hs[i].served || p in hs[i].cancelled
    ensures p !in hs[i].queue && hs[i + 1].served == hs[i].served + [es[i].pos]
  {
    RunKeeps(hs, es);
    assert Step(hs[i], es[i], hs[i + 1]);
    ServeKeeps(hs[i], hs[i + 1], es[i].pos);
  }

  /** A caller that does not wait opens a stream only if nobody waits. */
  lemma NoOvertaking(hs: seq<State>, es: seq<Event>, i: nat, p: nat)
    requires IsRun(hs, es) && i < |es| && es[i].TryOpen? && hs[i + 1].numOpened > hs[i].numOpened
    requires p < hs[i].highest
    ensures p in hs[i].served || p in hs[i].cancelled
  {
    RunKeeps(hs, es);
    assert Step(hs[i], es[i], hs[i + 1]);
    assert hs[i].queue == map[];
  }

  /** The largest limit that was set. */
  function LargestLimit(es: seq<Event>): int {
    if es == [] then INVALID_STREAM_NUM
    else
      var e := es[|es| - 1];
      var m := LargestLimit(es[..|es| - 1]);
      if e.SetMax? then Max(m, e.num) else m
  }

  /** Streams are numbered one after the other, and none goes beyond the largest limit. */
  lemma {:induction false} RunLimit(hs: seq<State>, es: seq<Event>)
    requires IsRun(hs, es)
    ensures hs[|es|].maxStream == LargestLimit(es)
    ensures hs[|es|].nextStream == hs[|es|].numOpened + 1
    ensures hs[|es|].numOpened > 0 ==> hs[|es|].numOpened <= LargestLimit(es)
  {
    hide Valid, Step;
    RunKeeps(hs, es);
    Numbered(hs[|es|]);
    if es != [] {
      var n := |es| - 1;
      RunLimit(hs[..n + 1], es[..n]);
      assert hs[..n + 1][n] == hs[n] && Step(hs[n], es[n], hs[n + 1]);
      StepLimit(hs[n], es[n], hs[n + 1]);
    }
  }

  lemma Numbered(h: State)
    requires Valid(h)
    ensures h.nextStream == h.numOpened + 1 && (h.numOpened > 0 ==> h.numOpened <= h.maxStream)
  {
  }

  lemma StepLimit(h: State, e: Event, h': State)
    requires Step(h, e, h')
    ensures h'.maxStream == if e.SetMax? then Max(h.maxStream, e.num) else h.maxStream
  {
    hide Unblocks;
  }

  /** CloseWithError was called. */
  ghost predicate Closed(es: seq<Event>) {
    exists i :: 0 <= i < |es| && es[i].Close?
  }

  lemma {:induction false} RunClosed(hs: seq<State>, es: seq<Event>)
    requires IsRun(hs, es)
    ensures hs[|es|].closed <==> Closed(es)
    decreases |es|
  {
    hide Step;
    if es != [] {
      var n := |es| - 1;
      RunClosed(hs[..n + 1], es[..n]);
      assert hs[..n + 1][n] == hs[n] && Step(hs[n], es[n], hs[n + 1]);
      StepClosed(hs[n], es[n], hs[n + 1]);
      if Closed(es[..n]) {
        var i :| 0 <= i < n && es[..n][i].Close?;
        assert es[i].Close?;
      }
      if Closed(es) {
        var i :| 0 <= i < |es| && es[i].Close?;
        assert i < n ==> es[..n][i].Close?;
      }
    }
  }

  lemma StepClosed(h: State, e: Event, h': State)
    requires Step(h, e, h')
    ensures h'.closed <==> h.closed || e.Close?
  {
    hide Unblocks, Raised;
    if e.SetMax? {
      RaisedFields(h, e.num);
    }
  }

  lemma RaisedFields(h: State, num: int)
    ensures var h1 := Raised(h, num);
            h1.closed == h.closed && h1.woken == h.woken && h1.numOpened == h.numOpened && h1.served == h.served
  {
  }

  /**
    In every run, a caller that need not wait opens a stream exactly if the map is not closed, nobody waits and the
    largest limit that was set admits another stream.
   */
  lemma OpensExactly(hs: seq<State>, es: seq<Event>, i: nat)
    requires IsRun(hs, es) && i < |es| && es[i].TryOpen?
    ensures hs[i + 1].numOpened ==
            hs[i].numOpened + (if !Closed(es[..i]) && hs[i].queue == map[] && hs[i].numOpened < LargestLimit(es[..i])
                               then 1 else 0)
  {
    hide Valid;
    PrefixRun(hs, es, i);
    RunClosed(hs[..i + 1], es[..i]);
    RunLimit(hs[..i + 1], es[..i]);
    assert hs[..i + 1][i] == hs[i] && Step(hs[i], es[i], hs[i + 1]);
  }

  /** And a waiter that was woken is served exactly if the map is not closed and the limit admits another stream. */
  lemma ServesExactly(hs: seq<State>, es: seq<Event>, i: nat)
    requires IsRun(hs, es) && i < |es| && es[i].Resume?
    ensures Serves(hs[i], es[i], hs[i + 1]) <==> !Closed(es[..i]) && hs[i].numOpened < LargestLimit(es[..i])
  {
    hide Valid, Unblocks;
    PrefixRun(hs, es, i);
    RunClosed(hs[..i + 1], es[..i]);
    RunLimit(hs[..i + 1], es[..i]);
    assert hs[..i + 1][i] == hs[i] && Step(hs[i], es[i], hs[i + 1]);
  }

  lemma PrefixRun(hs: seq<State>, es: seq<Event>, i: nat)
    requires IsRun(hs, es) && i <= |es|
    ensures IsRun(hs[..i + 1], es[..i])
  {
    hide Step;
  }

  // ---------------------------------------------------------------------------------------------
  // STREAMS_BLOCKED frames

  lemma UnblockedSize(q: map<nat, bool>, q': map<nat, bool>)
    requires Unblocks(q, q')
    ensures |q'| == |q|
  {
    if |q| > 0 {
      var pos: nat :| IsFirst(q, pos) && q' == q[pos := true];
      assert q'.Keys == q.Keys;
    }
  }

  lemma BlockedKeeps(h: State)
    requires BlockedOk(h.(blockedSent := h.maxStream in h.blocked, queue := map[]))
    requires h.blockedSent <==> h.maxStream in h.blocked
    ensures BlockedOk(Blocked(h))
  {
    var h' := Blocked(h);
    if !h.blockedSent {
      forall i | 0 <= i < |h.blocked| ensures h.blocked[i] < h.maxStream {
        assert h.blocked[i] in h.blocked;
      }
      assert h'.blocked[|h.blocked|] == h.maxStream;
    }
  }

  lemma RaisedKeeps(h: State, num: int)
    requires BlockedOk(h) && num > h.maxStream
    ensures BlockedOk(Raised(h, num))
  {
    var h1 := h.(maxStream := num, blockedSent := false);
    assert num !in h.blocked;
    BlockedKeeps(h1);
  }

  lemma StepBlocked(h: State, e: Event, h': State)
    requires Valid(h) && BlockedOk(h) && Step(h, e, h')
    ensures BlockedOk(h')
  {
    hide Valid, BlockedOk, Blocked, Raised, Unblocks;
    match e {
      case TryOpen => TryOpenBlocked(h, h');
      case Arrive => ArriveBlocked(h);
      case Wake(pos) => WakeBlocked(h, h', pos);
      case Resume(pos) => ResumeBlocked(h, h', pos);
      case Cancel(pos) => CancelBlocked(h, h', pos);
      case SetMax(num) => SetMaxBlocked(h, h', num);
      case Close => SameBlocked(h, h');
    }
  }

  /** The frames and the limit stay, and not more wait beyond it. */
  lemma SameBlocked(h: State, h': State)
    requires BlockedOk(h) && h'.maxStream == h.maxStream && h'.blockedSent == h.blockedSent && h'.blocked == h.blocked
    requires LimitReached(h') ==> LimitReached(h)
    ensures BlockedOk(h')
  {
  }

  lemma TryOpenBlocked(h: State, h': State)
    requires BlockedOk(h) && Step(h, TryOpen, h')
    ensures BlockedOk(h')
  {
    if !MayOpen(h) && !h.closed {
      BlockedKeeps(h);
    }
  }

  lemma ArriveBlocked(h: State)
    requires BlockedOk(h)
    ensures BlockedOk(Enqueued(h))
  {
    BlockedKeeps(h.(queue := h.queue[h.highest := false], lowest := if |h.queue| == 0 then h.highest else h.lowest,
                    highest := h.highest + 1));
  }

  lemma WakeBlocked(h: State, h': State, pos: nat)
    requires BlockedOk(h) && Step(h, Wake(pos), h')
    ensures BlockedOk(h')
  {
    assert h'.queue.Keys == h.queue.Keys;
    assert |h'.queue| == |h.queue|;
  }

  lemma ResumeBlocked(h: State, h': State, pos: nat)
    requires Valid(h) && BlockedOk(h) && ResumeSpec(h, h', pos)
    ensures BlockedOk(h')
  {
    hide Unblocks, BlockedOk;
    if !h.closed && h.nextStream <= h.maxStream {
      WokenIsFirst(h, pos);
      CardRemove(h.queue, pos);
      UnblockedSize(h.queue - {pos}, h'.queue);
    }
    SameBlocked(h, h');
  }

  lemma CancelBlocked(h: State, h': State, pos: nat)
    requires BlockedOk(h) && Step(h, Cancel(pos), h')
    ensures BlockedOk(h')
  {
    hide BlockedOk;
    CardRemove(h.queue, pos);
    SameBlocked(h, h');
  }

  lemma SetMaxBlocked(h: State, h': State, num: int)
    requires BlockedOk(h) && SetMaxSpec(h, h', num)
    ensures BlockedOk(h')
  {
    hide Unblocks, BlockedOk, Blocked;
    if num > h.maxStream {
      RaisedKeeps(h, num);
      UnblockedSize(h.queue, h'.queue);
      SameQueue(h, num);
      SameBlocked(Raised(h, num), h');
    }
  }

  lemma SameQueue(h: State, num: int)
    ensures Raised(h, num).queue == h.queue && Raised(h, num).nextStream == h.nextStream
  {
  }

  lemma {:induction false} RunBlocked(hs: seq<State>, es: seq<Event>)
    requires IsRun(hs, es)
    ensures BlockedOk(hs[|es|])
    decreases |es|
  {
    hide Step, BlockedOk, Valid;
    RunKeeps(hs, es);
    if es == [] {
      StartBlocked();
    } else {
      var n := |es| - 1;
      RunBlocked(hs[..n + 1], es[..n]);
      assert hs[..n + 1][n] == hs[n] && Step(hs[n], es[n], hs[n + 1]);
      StepBlocked(hs[n], es[n], hs[n + 1]);
    }
  }

  lemma StartBlocked()
    ensures BlockedOk(START)
  {
  }

  /** In every run, the peer was told of the present limit if somebody waits for a stream beyond it. */
  lemma PeerKnowsLimit(hs: seq<State>, es: seq<Event>)
    requires IsRun(hs, es) && LimitReached(hs[|es|])
    ensures var h := hs[|es|];
            h.blocked != [] && h.blocked[|h.blocked| - 1] == h.maxStream
  {
    hide Step;
    RunBlocked(hs, es);
    LastBlocked(hs[|es|]);
  }

  /** In every run, a call that cannot open a stream at once leaves the peer told of the present limit. */
  lemma RefusalIsTold(hs: seq<State>, es: seq<Event>, i: nat)
    requires IsRun(hs, es) && i < |es| && !hs[i].closed
    requires es[i].Arrive? || (es[i].TryOpen? && hs[i + 1].numOpened == hs[i].numOpened)
    ensures var h := hs[i + 1];
            h.blocked != [] && h.blocked[|h.blocked| - 1] == h.maxStream
  {
    hide Valid;
    PrefixRun(hs, es, i + 1);
    RunBlocked(hs[..i + 2], es[..i + 1]);
    assert hs[..i + 2][i + 1] == hs[i + 1] && Step(hs[i], es[i], hs[i + 1]);
    LastBlocked(hs[i + 1]);
  }

  lemma LastBlocked(h: State)
    requires BlockedOk(h) && h.blockedSent
    ensures h.blocked != [] && h.blocked[|h.blocked| - 1] == h.maxStream
  {
    var i :| 0 <= i < |h.blocked| && h.blocked[i] == h.maxStream;
    var last := |h.blocked| - 1;
    assert h.blocked[last] <= h.maxStream;
    assert i == last;
  }

  /**
    In every run, two STREAMS_BLOCKED frames carry the same limit exactly if the first was queued before the peer
    set any limit and the second after it had set the limit 0.
   */
  lemma ToldTwice(hs: seq<State>, es: seq<Event>, i: nat, j: nat)
    requires IsRun(hs, es) && i < j < |hs[|es|].blocked|
    ensures var b := hs[|es|].blocked;
            LimitSent(b[i]) == LimitSent(b[j]) <==> b[i] == INVALID_STREAM_NUM && b[j] == 0
  {
    hide Step;
    RunBlocked(hs, es);
  }

  // ---------------------------------------------------------------------------------------------
  // Progress

  /** A stream can be opened, and the first waiter knows or will know it. */
  ghost predicate Progress(h: State) {
    !h.closed && |h.queue| > 0 && h.nextStream <= h.maxStream ==>
      exists p: nat :: IsFirst(h.queue, p) && (h.queue[p] || p in h.woken)
  }

  /** The first waiter gives up a wake-up that another one waits for. */
  ghost predicate LosesWakeUp(h: State, e: Event) {
    e.Cancel? && !h.closed && h.nextStream <= h.maxStream && IsFirst(h.queue, e.pos) && |h.queue| > 1
  }

  /** A wake-up is lost exactly if the waiter that has it is cancelled while others wait. */
  lemma ProgressExact(h: State, e: Event, h': State)
    requires Valid(h) && Progress(h) && Step(h, e, h')
    ensures Progress(h') <==> !LosesWakeUp(h, e)
  {
    match e {
      case Cancel(pos) => CancelProgress(h, h', pos);
      case Resume(pos) => ResumeProgress(h, h', pos);
      case Arrive => ArriveProgress(h, h');
      case Wake(pos) => WakeProgress(h, h', pos);
      case SetMax(num) => SetMaxProgress(h, h', num);
      case _ =>
    }
  }

  const TOLD := START.(blockedSent := true, blocked := [INVALID_STREAM_NUM])
  const TOLD_AGAIN := TOLD.(maxStream := 1, blocked := [INVALID_STREAM_NUM, 1])
  const ONE_WAITS := TOLD.(queue := map[0 := false], highest := 1)
  const TWO_WAIT := TOLD.(queue := map[0 := false, 1 := false], highest := 2)
  const FIRST_WOKEN := TOLD_AGAIN.(queue := map[0 := true, 1 := false], highest := 2)
  const FIRST_GONE := TOLD_AGAIN.(queue := map[1 := false], highest := 2, cancelled := {0})

  lemma TwoArrive()
    ensures Step(START, Arrive, ONE_WAITS) && Step(ONE_WAITS, Arrive, TWO_WAIT)
  {
  }

  lemma FirstGivesUp()
    ensures Step(TWO_WAIT, SetMax(1), FIRST_WOKEN) && Step(FIRST_WOKEN, Cancel(0), FIRST_GONE)
  {
    assert IsFirst(TWO_WAIT.queue, 0) && FIRST_WOKEN.queue == TWO_WAIT.queue[0 := true];
    assert FIRST_GONE.queue == FIRST_WOKEN.queue - {0};
  }

  lemma SecondNotWoken()
    ensures !Progress(FIRST_GONE)
  {
    assert 1 in FIRST_GONE.queue && |FIRST_GONE.queue| > 0;
  }

  /** It does happen: two wait, the limit admits one stream, and the first one gives up. */
  lemma WakeUpLost()
    ensures exists hs, es :: IsRun(hs, es) && !Progress(hs[|es|])
  {
    hide Step, Progress;
    TwoArrive();
    FirstGivesUp();
    SecondNotWoken();
    var hs, es := [START, ONE_WAITS, TWO_WAIT, FIRST_WOKEN, FIRST_GONE], [Arrive, Arrive, SetMax(1), Cancel(0)];
    assert IsRun(hs, es) && !Progress(hs[|es|]);
  }

  lemma CancelProgress(h: State, h': State, pos: nat)
    requires Valid(h) && Progress(h) && Step(h, Cancel(pos), h')
    ensures Progress(h') <==> !LosesWakeUp(h, Cancel(pos))
  {
    CardRemove(h.queue, pos);
    if !h.closed && h.nextStream <= h.maxStream && |h'.queue| > 0 {
      var p: nat :| IsFirst(h.queue, p) && (h.queue[p] || p in h.woken);
      if p != pos {
        assert IsFirst(h'.queue, p) && (h'.queue[p] || p in h'.woken);
      }
    }
  }

  lemma UnblockedFirst(q: map<nat, bool>, q': map<nat, bool>)
    requires Unblocks(q, q') && |q'| > 0
    ensures exists p: nat :: IsFirst(q', p) && q'[p]
  {
    if |q| > 0 {
      var p: nat :| IsFirst(q, p) && q' == q[p := true];
      assert IsFirst(q', p) && q'[p];
    }
  }

  lemma ResumeProgress(h: State, h': State, pos: nat)
    requires Valid(h) && Progress(h) && ResumeSpec(h, h', pos)
    ensures Progress(h')
  {
    if !h.closed && h.nextStream <= h.maxStream && |h'.queue| > 0 {
      UnblockedFirst(h.queue - {pos}, h'.queue);
    }
  }

  lemma SetMaxProgress(h: State, h': State, num: int)
    requires Progress(h) && SetMaxSpec(h, h', num)
    ensures Progress(h')
  {
    if num > h.maxStream && |h'.queue| > 0 {
      UnblockedFirst(h.queue, h'.queue);
    }
  }

  lemma ArriveProgress(h: State, h': State)
    requires Valid(h) && Progress(h) && Step(h, Arrive, h')
    ensures Progress(h')
  {
    if h.nextStream <= h.maxStream {
      var p: nat :| IsFirst(h.queue, p) && (h.queue[p] || p in h.woken);
      assert IsFirst(h'.queue, p) && (h'.queue[p] || p in h'.woken);
    }
  }

  lemma WakeProgress(h: State, h': State, pos: nat)
    requires Valid(h) && Progress(h) && Step(h, Wake(pos), h')
    ensures Progress(h')
  {
    assert h'.queue.Keys == h.queue.Keys;
    if !h.closed {
      assert IsFirst(h.queue, pos);
      assert IsFirst(h'.queue, pos) && pos in h'.woken;
    }
  }

  // ---------------------------------------------------------------------------------------------

  datatype SyncResult = SyncOpened(num: int) | SyncClosed | SyncCancelled | SyncWaiting(pos: nat)

  class Map {
    var openQueue: map<nat, bool>
    var lowestInQueue: nat
    var highestInQueue: nat
    var nextStream: int
    var maxStream: int
    var blockedSent: bool
    var closed: bool
    ghost var woken: set<nat>
    ghost var numOpened: nat
    ghost var served: seq<nat>
    ghost var cancelled: set<nat>
    ghost var blocked: seq<int>

    ghost function Contents(): State
      reads this
    {
      State(openQueue, lowestInQueue, highestInQueue, nextStream, maxStream, blockedSent, closed, woken, numOpened,
            served, cancelled, blocked)
    }

    constructor ()
      ensures Contents() == START
    {
      openQueue, lowestInQueue, highestInQueue := map[], 0, 0;
      nextStream, maxStream, blockedSent, closed := 1, INVALID_STREAM_NUM, false, false;
      woken, numOpened, served, cancelled, blocked := {}, 0, [], {}, [];
    }

    method OpenNext() returns (num: int)
      modifies `nextStream, `numOpened
      ensures num == old(nextStream) && Contents() == Opened(old(Contents()))
    {
      num := nextStream;
      nextStream := nextStream + 1;
      numOpened := numOpened + 1;
    }

    /** The frame that is queued, if there is one. */
    method MaybeSendBlockedFrame() returns (frame: Option<int>)
      modifies `blockedSent, `blocked
      ensures Contents() == Blocked(old(Contents()))
      ensures frame == if old(blockedSent) then None else Some(LimitSent(maxStream))
    {
      if blockedSent {
        return None;
      }
      var streamNum := 0;
      if maxStream != INVALID_STREAM_NUM {
        streamNum := maxStream;
      }
      blocked := blocked + [maxStream];
      blockedSent := true;
      return Some(streamNum);
    }

    method OpenStream() returns (num: Option<int>, frame: Option<int>)
      requires Valid(Contents())
      modifies this
      ensures Step(old(Contents()), TryOpen, Contents()) && Valid(Contents())
      ensures num == if MayOpen(old(Contents())) then Some(old(numOpened) + 1) else None
      ensures frame == FrameBetween(old(blocked), blocked)
    {
      ghost var h := Contents();
      if closed {
        return None, None;
      }
      if |openQueue| > 0 || nextStream > maxStream {
        frame := MaybeSendBlockedFrame();
        StepKeeps(h, TryOpen, Contents());
        return None, frame;
      }
      var n := OpenNext();
      StepKeeps(h, TryOpen, Contents());
      return Some(n), None;
    }

    /** The part of OpenStreamSync before the caller waits, if it has to. */
    method OpenStreamSync(contextDone: bool) returns (r: SyncResult, frame: Option<int>)
      requires Valid(Contents())
      modifies this
      ensures Valid(Contents())
      ensures r.SyncClosed? <==> old(closed)
      ensures r.SyncCancelled? <==> !old(closed) && contextDone
      ensures r.SyncOpened? <==> MayOpen(old(Contents())) && !contextDone
      ensures r.SyncOpened? ==> r.num == old(numOpened) + 1
      ensures r.SyncWaiting? ==> r.pos == old(highestInQueue)
      ensures r.SyncClosed? || r.SyncCancelled? ==> Contents() == old(Contents())
      ensures r.SyncOpened? ==> Step(old(Contents()), TryOpen, Contents())
      ensures r.SyncWaiting? ==> Step(old(Contents()), Arrive, Contents())
      ensures frame == FrameBetween(old(blocked), blocked)
    {
      ghost var h := Contents();
      if closed {
        return SyncClosed, None;
      }
      if contextDone {
        return SyncCancelled, None;
      }
      if |openQueue| == 0 && nextStream <= maxStream {
        var n := OpenNext();
        StepKeeps(h, TryOpen, Contents());
        return SyncOpened(n), None;
      }
      var queuePos := highestInQueue;
      highestInQueue := highestInQueue + 1;
      if |openQueue| == 0 {
        lowestInQueue := queuePos;
      }
      openQueue := openQueue[queuePos := false];
      frame := MaybeSendBlockedFrame();
      StepKeeps(h, Arrive, Contents());
      return SyncWaiting(queuePos), frame;
    }

    /** The wake-up is received from the channel, without the mutex. */
    method ReceiveWakeUp(pos: nat)
      requires Valid(Contents()) && pos in openQueue && pos !in woken && (openQueue[pos] || closed)
      modifies `openQueue, `woken
      ensures Step(old(Contents()), Wake(pos), Contents()) && Valid(Contents())
    {
      ghost var h := Contents();
      if !closed {
        openQueue := openQueue[pos := false];
      }
      woken := woken + {pos};
      StepKeeps(h, Wake(pos), Contents());
    }

    /** The part of OpenStreamSync after a wake-up: the caller is served, or waits again. */
    method ResumeOpenStreamSync(pos: nat) returns (r: SyncResult)
      requires Valid(Contents()) && pos in woken
      modifies this
      ensures Step(old(Contents()), Resume(pos), Contents()) && Valid(Contents())
      ensures r.SyncClosed? <==> old(closed)
      ensures r.SyncOpened? <==> !old(closed) && old(nextStream) <= old(maxStream)
      ensures r.SyncOpened? ==> r.num == old(numOpened) + 1 && IsFirst(old(openQueue), pos)
    {
      hide Valid, IsFirst, Unblocks;
      ghost var h := Contents();
      QueueBounds(h);
      woken := woken - {pos};
      if closed {
        StepKeeps(h, Resume(pos), Contents());
        return SyncClosed;
      }
      if nextStream > maxStream {
        StepKeeps(h, Resume(pos), Contents());
        return SyncWaiting(pos);
      }
      WokenIsFirst(h, pos);
      var n := Serve(pos);
      assert ResumeSpec(h, Contents(), pos);
      StepKeeps(h, Resume(pos), Contents());
      return SyncOpened(n);
    }

    /** The first waiter leaves the queue with its stream, and the next one is woken. */
    method Serve(pos: nat) returns (num: int)
      requires pos in openQueue && forall p: nat :: p in openQueue && p != pos ==> pos < p < highestInQueue
      modifies `nextStream, `numOpened, `openQueue, `lowestInQueue, `served
      ensures num == old(nextStream) && Unblocks(old(openQueue) - {pos}, openQueue)
      ensures Contents() ==
              Opened(old(Contents())).(queue := openQueue, lowest := pos + 1, served := old(served) + [pos])
    {
      hide Unblocks;
      num := OpenNext();
      openQueue := openQueue - {pos};
      lowestInQueue := pos + 1;
      served := served + [pos];
      UnblockOpenSync();
    }

    /** The context of a waiter is cancelled. */
    method CancelOpenStreamSync(pos: nat)
      requires Valid(Contents()) && pos in openQueue && pos !in woken
      modifies `openQueue, `cancelled
      ensures Step(old(Contents()), Cancel(pos), Contents()) && Valid(Contents())
    {
      ghost var h := Contents();
      openQueue := openQueue - {pos};
      cancelled := cancelled + {pos};
      StepKeeps(h, Cancel(pos), Contents());
    }

    /** Panics exactly after CloseWithError, if the limit grows and somebody has waited. */
    method SetMaxStream(num: int) returns (panicked: bool, frame: Option<int>)
      requires Valid(Contents())
      modifies `maxStream, `openQueue, `blockedSent, `blocked
      ensures panicked <==> SetMaxPanics(old(Contents()), num)
      ensures !panicked ==> Step(old(Contents()), SetMax(num), Contents()) && Valid(Contents())
      ensures frame == FrameBetween(old(blocked), blocked)
    {
      hide QueueOk, Unblocks;
      ghost var h := Contents();
      panicked, frame := false, None;
      if num <= maxStream {
        return;
      }
      maxStream := num;
      blockedSent := false;
      if maxStream < nextStream - 1 + |openQueue| {
        frame := MaybeSendBlockedFrame();
      }
      if closed && |openQueue| > 0 {
        panicked := true;
        return;
      }
      QueueBounds(h);
      UnblockOpenSync();
      StepKeeps(h, SetMax(num), Contents());
    }

    /** Wakes the first waiter, skipping the positions of those that gave up. */
    method UnblockOpenSync()
      requires forall p: nat :: p in openQueue ==> lowestInQueue <= p < highestInQueue
      modifies `openQueue
      ensures Unblocks(old(openQueue), openQueue)
    {
      if |openQueue| == 0 {
        return;
      }
      ghost var w: nat :| w in openQueue;
      var qp := lowestInQueue;
      while qp <= highestInQueue
        invariant qp <= w && openQueue == old(openQueue)
        invariant forall p: nat :: p in openQueue ==> qp <= p
      {
        if qp in openQueue {
          assert IsFirst(openQueue, qp);
          openQueue := openQueue[qp := true];
          return;
        }
        qp := qp + 1;
      }
    }

    method CloseWithError()
      requires Valid(Contents())
      modifies `closed
      ensures Step(old(Contents()), Close, Contents()) && Valid(Contents())
    {
      ghost var h := Contents();
      closed := true;
      StepKeeps(h, Close, Contents());
    }
  }

  /** The limit of the frame by which the list has grown, if it has. */
  function FrameBetween(blocked: seq<int>, blocked': seq<int>): Option<int> {
    if |blocked'| <= |blocked| then None else Some(LimitSent(blocked'[|blocked'| - 1]))
  }

  lemma QueueBounds(h: State)
    requires Valid(h)
    ensures forall p: nat :: p in h.queue ==> h.lowest <= p < h.highest
  {
  }

  lemma WokenIsFirst(h: State, pos: nat)
    requires Valid(h) && !h.closed && pos in h.woken
    ensures IsFirst(h.queue, pos) && forall p: nat :: p in h.queue && p != pos ==> pos < p
  {
  }

  /** Somebody waits, the map is closed, and the limit grows: the wake-up goes into a closed channel. */
  method LimitAfterClose() returns (panicked: bool)
    ensures panicked
  {
    hide Valid;
    var m := new Map();
    StartValid();
    var r, frame := m.OpenStreamSync(false);
    m.CloseWithError();
    panicked, frame := m.SetMaxStream(1);
  }

  /** A waiter comes before the peer sets a limit, and the limit is then 0: the peer is told of 0 twice. */
  method ZeroToldTwice() returns (first: Option<int>, second: Option<int>)
    ensures first == second == Some(0)
  {
    hide Valid;
    var m := new Map();
    StartValid();
    var r, panicked;
    r, first := m.OpenStreamSync(false);
    panicked, second := m.SetMaxStream(0);
  }
}
