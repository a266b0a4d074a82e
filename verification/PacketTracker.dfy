/**
  When received packets are acknowledged: an ACK is queued at once, or an alarm is set, such that no packet
  that asks for an ACK waits for longer than the delay that was promised to the peer.
 */
module PacketTracker {
  import opened Common
  import opened AckFrames
  import LR = LossRecovery
  import RP = ReceivedPackets

  const PACKETS_BEFORE_ACK := 2
  const MAX_ACK_DELAY: nat := 25_000_000

  datatype Codepoint = NonECT | ECT0 | ECT1 | CE

  /**
    Times are in nanoseconds, and 0 is the time that is not set. `observed` says that a packet was registered,
    `pending` are the packets that asked for an ACK since the last ACK frame, and `since` is when the first of
    them was received.
   */
  datatype State = State(
    largestObserved: nat,
    largestObservedRcvdTime: nat,
    ignoreBelow: nat,
    ecn: ECN,
    history: RP.State,
    hasNewAck: bool,
    ackQueued: bool,
    ackEliciting: nat,
    ackAlarm: nat,
    lastAck: Option<seq<LR.AckRange>>,
    observed: bool,
    pending: set<nat>,
    since: nat)

  const START := State(0, 0, 0, NO_ECN, RP.START, false, false, 0, 0, None, false, {}, 0)

  /** The ranges of the last ACK, if there are any. */
  ghost predicate LastOk(lastAck: Option<seq<LR.AckRange>>) {
    lastAck.Some? && lastAck.value != [] ==> LR.ValidRanges(lastAck.value) && 0 <= lastAck.value[0].smallest
  }

  /**
    Packets that wait for an ACK have one queued; or there is only one of them, and an alarm that goes off when
    it has waited for as long as it may.
   */
  ghost predicate Timely(s: State) {
    && (!s.hasNewAck ==> !s.ackQueued && s.ackAlarm == 0 && s.ackEliciting == 0 && s.pending == {})
    && (s.hasNewAck ==> s.observed && s.pending != {} && s.pending <= s.history.received)
    && (s.ackQueued ==> s.ackAlarm == 0)
    && (s.hasNewAck && !s.ackQueued ==>
          s.lastAck.Some? && s.ackEliciting == 1 && |s.pending| == 1 && s.ackAlarm == s.since + MAX_ACK_DELAY)
  }

  /** The largest number is in the history until it is ignored. */
  ghost predicate Highest(s: State) {
    && (s.observed && s.ignoreBelow <= s.largestObserved ==> RP.Contains(s.history.ranges, s.largestObserved))
    && (forall q: nat :: RP.Contains(s.history.ranges, q) ==> s.observed && q <= s.largestObserved)
    && (!s.observed ==> s.largestObserved == 0)
  }

  ghost predicate Valid(s: State) {
    && RP.Valid(s.history) && s.ignoreBelow == s.history.deletedBelow
    && LastOk(s.lastAck) && Timely(s) && Highest(s)
  }

  lemma StartValid()
    ensures Valid(START)
  {
    RP.StartValid();
  }

  // ---------------------------------------------------------------------------------------------
  // The operations

  datatype Result = Ok | Duplicate | IndexOutOfRange

  /** A packet was reported as missing in the last ACK. */
  predicate Missing(s: State, pn: nat) {
    && s.lastAck.Some? && s.ignoreBelow <= pn && s.lastAck.value != []
    && pn < s.lastAck.value[0].largest && !LR.Acks(s.lastAck.value, pn)
  }

  /** The last packet is alone above a gap that the last ACK did not report. */
  predicate NewMissing(s: State) {
    && s.lastAck.Some? && s.lastAck.value != [] && s.history.ranges != []
    && var r := RP.HighestOf(s.history.ranges);
       r.smallest > s.lastAck.value[0].largest + 1 && r.smallest == r.largest
  }

  /** An ACK is due at once. */
  predicate Due(s: State, wasMissing: bool) {
    || s.lastAck.None? || s.ackQueued || wasMissing
    || s.ackEliciting + 1 >= PACKETS_BEFORE_ACK || NewMissing(s)
  }

  function Queue(s: State, rcvTime: nat, wasMissing: bool): State {
    var counted := if s.lastAck.None? || s.ackQueued then s.ackEliciting else s.ackEliciting + 1;
    if !Due(s, wasMissing) then
      s.(ackEliciting := counted, ackAlarm := if s.ackAlarm == 0 then rcvTime + MAX_ACK_DELAY else s.ackAlarm)
    else if s.lastAck.None? || s.ackQueued then s.(ackQueued := true)
    else s.(ackQueued := true, ackEliciting := counted, ackAlarm := 0)
  }

  function Count(e: ECN, c: Codepoint): ECN {
    match c
    case NonECT => e
    case ECT0 => e.(ect0 := e.ect0 + 1)
    case ECT1 => e.(ect1 := e.ect1 + 1)
    case CE => e.(ecnce := e.ecnce + 1)
  }

  function Observe(s: State, pn: nat, rcvTime: nat): State {
    if pn >= s.largestObserved
    then s.(largestObserved := pn, largestObservedRcvdTime := rcvTime, observed := true)
    else s.(observed := true)
  }

  function Pend(s: State, pn: nat, rcvTime: nat): State {
    s.(hasNewAck := true, pending := s.pending + {pn}, since := if s.hasNewAck then s.since else rcvTime)
  }

  /** A new packet, after the history has registered it. */
  function Register(s: State, pn: nat, c: Codepoint, rcvTime: nat, ackEliciting: bool): State {
    var wasMissing := Missing(s, pn);
    var s1 := Observe(s, pn, rcvTime);
    var s2 := if ackEliciting then Queue(Pend(s1, pn, rcvTime), rcvTime, wasMissing) else s1;
    s2.(ecn := Count(s.ecn, c))
  }

  ghost predicate ReceiveSpec(s: State, s': State, pn: nat, c: Codepoint, rcvTime: nat, ackEliciting: bool, r: Result) {
    && RP.ReceiveSpec(s.history, s'.history, pn, !r.Duplicate?)
    && var s1 := s.(history := s'.history);
       match r
       case Duplicate => s' == s1
       case IndexOutOfRange => s.lastAck == Some([])
       case Ok => s.lastAck != Some([]) && s' == Register(s1, pn, c, rcvTime, ackEliciting)
  }

  ghost predicate IgnoreSpec(s: State, s': State, pn: nat) {
    && RP.DeleteSpec(s.history, s'.history, pn)
    && s' == s.(history := s'.history, ignoreBelow := Max(s.ignoreBelow, pn))
  }

  /** An ACK frame is sent in any packet if it has something new, and otherwise only when it is due. */
  predicate Sends(s: State, onlyIfQueued: bool, now: nat) {
    s.hasNewAck && (onlyIfQueued ==> s.ackQueued || (s.ackAlarm != 0 && s.ackAlarm <= now))
  }

  function FrameOf(s: State, now: nat): Frame {
    Frame(RP.AckRangesOf(s.history.ranges), Max(0, now - s.largestObservedRcvdTime), s.ecn)
  }

  function AckSent(s: State, now: nat): State {
    s.(lastAck := Some(FrameOf(s, now).ranges), ackAlarm := 0, ackQueued := false, hasNewAck := false,
       ackEliciting := 0, pending := {})
  }

  ghost predicate GetSpec(s: State, s': State, onlyIfQueued: bool, now: nat, f: Option<Frame>) {
    if Sends(s, onlyIfQueued, now) then f == Some(FrameOf(s, now)) && s' == AckSent(s, now)
    else f == None && s' == s
  }

  class Tracker {
    var largestObserved: nat
    var largestObservedRcvdTime: nat
    var ignoreBelow: nat
    var ecn: ECN
    const packetHistory: RP.History
    var hasNewAck: bool
    var ackQueued: bool
    var ackEliciting: nat
    var ackAlarm: nat
    var lastAck: Option<seq<LR.AckRange>>
    ghost var observed: bool
    ghost var pending: set<nat>
    ghost var since: nat

    ghost function Contents(): State
      reads this, packetHistory
    {
      State(largestObserved, largestObservedRcvdTime, ignoreBelow, ecn, packetHistory.Contents(), hasNewAck,
            ackQueued, ackEliciting, ackAlarm, lastAck, observed, pending, since)
    }

    constructor ()
      ensures Contents() == START && Valid(Contents()) && fresh(packetHistory)
    {
      largestObserved, largestObservedRcvdTime, ignoreBelow, ecn := 0, 0, 0, NO_ECN;
      packetHistory := new RP.History();
      hasNewAck, ackQueued, ackEliciting, ackAlarm, lastAck := false, false, 0, 0, None;
      observed, pending, since := false, {}, 0;
      new;
      StartValid();
    }

    /** Whether the last ACK reported a packet as missing. Without a range, there is no largest number to look at. */
    method IsMissing(pn: nat) returns (r: Option<bool>)
      requires LastOk(lastAck)
      ensures r.None? <==> lastAck == Some([]) && ignoreBelow <= pn
      ensures r.Some? ==> (r.value <==> Missing(Contents(), pn))
    {
      hide RP.Valid, LR.ValidRanges, LR.Acks;
      if lastAck.None? || pn < ignoreBelow {
        return Some(false);
      }
      if lastAck.value == [] {
        return None;
      }
      var acks := AcksPacket(lastAck.value, pn);
      return Some(pn < lastAck.value[0].largest && !acks);
    }

    method HasNewMissingPackets() returns (r: bool)
      requires RP.Valid(packetHistory.Contents()) && LastOk(lastAck) && lastAck != Some([])
      ensures r <==> NewMissing(Contents())
    {
      hide RP.Contains, RP.RangesOk;
      if lastAck.None? {
        return false;
      }
      var highest := packetHistory.GetHighestAckRange();
      return highest.smallest > lastAck.value[0].largest + 1 && highest.largest - highest.smallest + 1 == 1;
    }

    method MaybeQueueACK(rcvTime: nat, wasMissing: bool)
      requires RP.Valid(packetHistory.Contents()) && LastOk(lastAck) && lastAck != Some([])
      modifies `ackQueued, `ackEliciting, `ackAlarm
      ensures Contents() == Queue(old(Contents()), rcvTime, wasMissing)
    {
      if lastAck.None? {
        ackQueued := true;
        return;
      }
      if ackQueued {
        return;
      }
      ackEliciting := ackEliciting + 1;
      if wasMissing {
        ackQueued := true;
      }
      if ackEliciting >= PACKETS_BEFORE_ACK {
        ackQueued := true;
      } else if ackAlarm == 0 {
        ackAlarm := rcvTime + MAX_ACK_DELAY;
      }
      var newMissing := HasNewMissingPackets();
      if newMissing {
        ackQueued := true;
      }
      if ackQueued {
        ackAlarm := 0;
      }
    }

    /** A packet that was not reported as a duplicate before is always new. */
    method ReceivedPacket(pn: nat, c: Codepoint, rcvTime: nat, isAckEliciting: bool) returns (r: Result)
      requires Valid(Contents())
      modifies this, packetHistory
      ensures ReceiveSpec(old(Contents()), Contents(), pn, c, rcvTime, isAckEliciting, r)
      ensures r.Duplicate? <==> RP.Duplicate(old(Contents()).history, pn)
      ensures !r.IndexOutOfRange? ==> Valid(Contents())
    {
      hide RP.ReceiveSpec, RP.Valid, RP.Contains, Missing, LR.ValidRanges, Timely, Highest, Queue;
      ghost var s := Contents();
      var isNew := packetHistory.ReceivedPacket(pn);
      ghost var s1 := s.(history := packetHistory.Contents());
      NewIffNotDuplicate(s.history, s1.history, pn, isNew);
      if !isNew {
        ReceiveKeeps(s, Contents(), pn, c, rcvTime, isAckEliciting, Duplicate);
        return Duplicate;
      }
      var wasMissing := IsMissing(pn);
      if wasMissing.None? {
        return IndexOutOfRange;
      }
      Update(s1, pn, c, rcvTime, isAckEliciting, wasMissing.value);
      ReceiveKeeps(s, Contents(), pn, c, rcvTime, isAckEliciting, Ok);
      return Ok;
    }

    method Update(ghost s: State, pn: nat, c: Codepoint, rcvTime: nat, isAckEliciting: bool, wasMissing: bool)
      requires Contents() == s && RP.Valid(s.history) && LastOk(lastAck) && lastAck != Some([])
      requires wasMissing <==> Missing(s, pn)
      modifies this
      ensures Contents() == Register(s, pn, c, rcvTime, isAckEliciting)
    {
      hide RP.Valid, Missing, LR.ValidRanges, Queue, Count, LastOk, Observe, Pend;
      ObservePacket(pn, rcvTime);
      if isAckEliciting {
        PendPacket(pn, rcvTime);
        MaybeQueueACK(rcvTime, wasMissing);
      }
      CountCodepoint(c);
    }

    method ObservePacket(pn: nat, rcvTime: nat)
      modifies `observed, `largestObserved, `largestObservedRcvdTime
      ensures Contents() == Observe(old(Contents()), pn, rcvTime)
    {
      observed := true;
      if pn >= largestObserved {
        largestObserved := pn;
        largestObservedRcvdTime := rcvTime;
      }
    }

    method PendPacket(pn: nat, rcvTime: nat)
      modifies `pending, `since, `hasNewAck
      ensures Contents() == Pend(old(Contents()), pn, rcvTime)
    {
      pending, since := pending + {pn}, if hasNewAck then since else rcvTime;
      hasNewAck := true;
    }

    method CountCodepoint(c: Codepoint)
      modifies `ecn
      ensures ecn == Count(old(ecn), c)
    {
      match c {
        case NonECT =>
        case ECT0 => ecn := ecn.(ect0 := ecn.ect0 + 1);
        case ECT1 => ecn := ecn.(ect1 := ecn.ect1 + 1);
        case CE => ecn := ecn.(ecnce := ecn.ecnce + 1);
      }
    }

    method IgnoreBelow(pn: nat)
      requires Valid(Contents())
      modifies this, packetHistory
      ensures IgnoreSpec(old(Contents()), Contents(), pn) && Valid(Contents())
    {
      hide RP.Valid, RP.Contains, Timely, Highest, RP.RangesOk;
      if pn <= ignoreBelow {
        IgnoresNothing(Contents(), pn);
        return;
      }
      ignoreBelow := pn;
      packetHistory.DeleteBelow(pn);
      IgnoreKeeps(old(Contents()), Contents(), pn);
    }

    method GetAckFrame(onlyIfQueued: bool, now: nat) returns (f: Option<Frame>)
      requires Valid(Contents())
      modifies this
      ensures GetSpec(old(Contents()), Contents(), onlyIfQueued, now, f) && Valid(Contents())
    {
      hide RP.Valid, RP.Contains, Timely, Highest, FrameOf, AckSent, LastOk;
      GetKeeps(Contents(), now);
      if !hasNewAck {
        return None;
      }
      if onlyIfQueued {
        if !ackQueued && (ackAlarm == 0 || ackAlarm > now) {
          return None;
        }
      }
      var ack := FillAck(now);
      return Some(ack);
    }

    /** Fills the ACK frame with the most recent values and starts all over. */
    method FillAck(now: nat) returns (f: Frame)
      modifies `lastAck, `ackAlarm, `ackQueued, `hasNewAck, `ackEliciting, `pending
      ensures f == FrameOf(old(Contents()), now) && Contents() == AckSent(old(Contents()), now)
    {
      var ranges := packetHistory.AppendAckRanges([]);
      assert ranges == RP.AckRangesOf(packetHistory.ranges);
      f := Frame(ranges, Max(0, now - largestObservedRcvdTime), ecn);
      lastAck := Some(ranges);
      ackAlarm, ackQueued, hasNewAck, ackEliciting := 0, false, false, 0;
      pending := {};
    }
  }

  // ---------------------------------------------------------------------------------------------
  // What every operation keeps

  lemma NewIffNotDuplicate(h: RP.State, h': RP.State, pn: nat, isNew: bool)
    requires RP.ReceiveSpec(h, h', pn, isNew)
    ensures isNew <==> !RP.Duplicate(h, pn)
  {
  }

  lemma QueueTimely(s: State, pn: nat, rcvTime: nat, wasMissing: bool)
    requires Timely(s) && s.observed && pn in s.history.received && s.pending <= s.history.received
    ensures Timely(Queue(Pend(s, pn, rcvTime), rcvTime, wasMissing))
  {
    hide NewMissing;
    if !s.hasNewAck {
      assert s.pending + {pn} == {pn};
    }
  }

  lemma ReceiveHighest(s: State, h': RP.State, pn: nat, rcvTime: nat)
    requires Highest(s) && RP.Valid(s.history) && s.ignoreBelow == s.history.deletedBelow
    requires RP.ReceiveSpec(s.history, h', pn, true)
    ensures Highest(Observe(s.(history := h'), pn, rcvTime))
  {
    hide RP.Contains, RP.RangesOk;
    var cut: nat :| RP.Registers(s.history, h', pn, cut);
    var top := Max(s.largestObserved, pn);
    if cut > top {
      HasNumber(h'.ranges);
    }
  }

  lemma HasNumber(r: seq<RP.Interval>)
    requires RP.RangesOk(r) && r != []
    ensures RP.Contains(r, r[0].start)
  {
    assert RP.Covers(r[0], r[0].start);
  }

  lemma ReceiveKeeps(s: State, s': State, pn: nat, c: Codepoint, rcvTime: nat, ackEliciting: bool, r: Result)
    requires Valid(s) && ReceiveSpec(s, s', pn, c, rcvTime, ackEliciting, r) && !r.IndexOutOfRange?
    ensures Valid(s')
  {
    hide RP.Contains, RP.RangesOk, Missing, LR.ValidRanges, Queue;
    RP.StepKeeps(s.history, RP.Receive(pn, !r.Duplicate?), s'.history);
    if r.Ok? {
      ReceiveHighest(s, s'.history, pn, rcvTime);
      var s1 := Observe(s.(history := s'.history), pn, rcvTime);
      QueueTimely(s1, pn, rcvTime, Missing(s.(history := s'.history), pn));
      QueueKeeps(Pend(s1, pn, rcvTime), rcvTime, Missing(s.(history := s'.history), pn));
    }
  }

  lemma QueueKeeps(s: State, rcvTime: nat, wasMissing: bool)
    ensures var s' := Queue(s, rcvTime, wasMissing);
            && s'.history == s.history && s'.lastAck == s.lastAck && s'.observed == s.observed
            && s'.ignoreBelow == s.ignoreBelow && s'.largestObserved == s.largestObserved
            && s'.hasNewAck == s.hasNewAck && s'.pending == s.pending && s'.since == s.since
  {
  }

  lemma IgnoresNothing(s: State, pn: nat)
    requires Valid(s) && pn <= s.ignoreBelow
    ensures IgnoreSpec(s, s, pn)
  {
  }

  lemma IgnoreKeeps(s: State, s': State, pn: nat)
    requires Valid(s) && IgnoreSpec(s, s', pn)
    ensures Valid(s')
  {
    hide RP.Contains, RP.RangesOk, LR.ValidRanges;
    RP.StepKeeps(s.history, RP.Delete(pn), s'.history);
  }

  lemma GetKeeps(s: State, now: nat)
    requires Valid(s)
    ensures Valid(AckSent(s, now))
  {
    hide RP.Contains, LR.ValidRanges, LR.Acks;
    if s.history.ranges != [] {
      RP.SameNumbers(s.history.ranges);
    }
  }

  // ---------------------------------------------------------------------------------------------
  // Frames

  /** A frame acknowledges exactly the received numbers that are not ignored or given up. */
  lemma FrameAcks(s: State, now: nat, q: nat)
    requires Valid(s)
    ensures LR.Acks(FrameOf(s, now).ranges, q) <==>
            q in s.history.received && s.history.deletedBelow <= q && q !in s.history.dropped
  {
    hide LR.Acks, RP.Contains;
    RP.SameNumber(s.history.ranges, q);
  }

  /** A frame has ranges exactly if the largest packet is not ignored, and is then a frame that can be parsed. */
  lemma FrameHasRanges(s: State, onlyIfQueued: bool, now: nat)
    requires Valid(s) && Sends(s, onlyIfQueued, now)
    ensures var f := FrameOf(s, now);
            && (f.ranges != [] <==> s.ignoreBelow <= s.largestObserved)
            && (f.ranges != [] ==> LR.ValidRanges(f.ranges) && f.ranges[0].largest == s.largestObserved)
  {
    hide RP.Contains, LR.ValidRanges, LR.Acks;
    var rs := s.history.ranges;
    if rs == [] {
      RP.NothingIn();
    } else {
      RP.SameNumbers(rs);
      LastIn(rs);
      if s.ignoreBelow <= s.largestObserved {
        UpToLast(rs, s.largestObserved);
      }
    }
  }

  lemma LastIn(rs: seq<RP.Interval>)
    requires RP.RangesOk(rs) && rs != []
    ensures RP.Contains(rs, rs[|rs| - 1].end)
  {
    assert RP.Covers(rs[|rs| - 1], rs[|rs| - 1].end);
  }

  lemma UpToLast(rs: seq<RP.Interval>, q: nat)
    requires RP.RangesOk(rs) && RP.Contains(rs, q)
    ensures rs != [] && q <= rs[|rs| - 1].end
  {
  }

  /** If the largest packet is ignored before it is acknowledged, the ACK frame is empty and the next packet fails. */
  method IgnoredBeforeAcked(now: nat) returns (f: Option<Frame>, r: Result)
    ensures f == Some(Frame([], now, NO_ECN)) && r.IndexOutOfRange?
  {
    hide RP.Valid, RP.RangesOk, RP.Contains, Highest, Timely, RP.ReceiveSpec;
    var t := new Tracker();
    RP.NothingIn();
    var first := t.ReceivedPacket(0, NonECT, 0, true);
    t.IgnoreBelow(1);
    ghost var s := t.Contents();
    FrameHasRanges(s, false, now);
    f := t.GetAckFrame(false, now);
    r := t.ReceivedPacket(1, NonECT, now, true);
  }

  /** The first packet that asks for an ACK gets it at once, as the instant ACK expects. */
  lemma FirstPacketAckedAtOnce(s: State, s': State, pn: nat, c: Codepoint, rcvTime: nat, now: nat)
    requires Valid(s) && s.lastAck.None? && ReceiveSpec(s, s', pn, c, rcvTime, true, Ok)
    ensures Sends(s', true, now) && s'.pending == s.pending + {pn}
  {
    hide RP.ReceiveSpec, RP.Valid, Missing, NewMissing;
  }

  // ---------------------------------------------------------------------------------------------
  // Runs

  datatype Event =
    | Receive(pn: nat, c: Codepoint, rcvTime: nat, ackEliciting: bool, r: Result)
    | Ignore(pn: nat)
    | Get(onlyIfQueued: bool, now: nat, f: Option<Frame>)

  /** A step after which the connection goes on. */
  ghost predicate Step(s: State, e: Event, s': State) {
    match e
    case Receive(pn, c, rcvTime, ackEliciting, r) =>
      !r.IndexOutOfRange? && ReceiveSpec(s, s', pn, c, rcvTime, ackEliciting, r)
    case Ignore(pn) => IgnoreSpec(s, s', pn)
    case Get(onlyIfQueued, now, f) => GetSpec(s, s', onlyIfQueued, now, f)
  }

  ghost predicate IsRun(ss: seq<State>, es: seq<Event>) {
    && |ss| == |es| + 1 && ss[0] == START
    && forall i :: 0 <= i < |es| ==> Step(ss[i], es[i], ss[i + 1])
  }

  lemma StepKeeps(s: State, e: Event, s': State)
    requires Valid(s) && Step(s, e, s')
    ensures Valid(s')
  {
    hide Valid, RP.ReceiveSpec, RP.DeleteSpec, Register;
    match e {
      case Receive(pn, c, rcvTime, ackEliciting, r) => ReceiveKeeps(s, s', pn, c, rcvTime, ackEliciting, r);
      case Ignore(pn) => IgnoreKeeps(s, s', pn);
      case Get(onlyIfQueued, now, f) => GetKeeps(s, now);
    }
  }

  /** In every reachable state, a packet that waits for an ACK has one queued or an alarm that is set. */
  lemma {:induction false} RunKeeps(ss: seq<State>, es: seq<Event>)
    requires IsRun(ss, es)
    ensures forall i :: 0 <= i < |ss| ==> Valid(ss[i])
  {
    hide Valid, Step;
    if es == [] {
      StartValid();
    } else {
      var n := |es| - 1;
      RunKeeps(ss[..n + 1], es[..n]);
      assert ss[..n + 1][n] == ss[n];
      assert Step(ss[n], es[n], ss[n + 1]);
      StepKeeps(ss[n], es[n], ss[n + 1]);
    }
  }

  /** A packet waits for an ACK, for no longer than it may. */
  ghost predicate Waits(s: State, pn: nat, deadline: nat) {
    s.hasNewAck && pn in s.pending && (s.ackQueued || s.ackAlarm == deadline)
  }

  predicate SendsAck(e: Event) {
    e.Get? && e.f.Some?
  }

  lemma ReceiveWaits(s: State, s': State, e: Event)
    requires Valid(s) && Step(s, e, s') && e.Receive? && e.ackEliciting && e.r.Ok?
    ensures Waits(s', e.pn, e.rcvTime + MAX_ACK_DELAY)
  {
    hide RP.ReceiveSpec, RP.Valid, Missing, NewMissing, Highest, LastOk;
  }

  lemma StepWaits(s: State, s': State, e: Event, pn: nat, deadline: nat)
    requires Valid(s) && Step(s, e, s') && Waits(s, pn, deadline) && !SendsAck(e) && deadline > 0
    ensures Waits(s', pn, deadline)
  {
    hide RP.ReceiveSpec, RP.DeleteSpec, RP.Valid, Missing, NewMissing, Highest, LastOk;
  }

  /** As long as no ACK is sent, a packet keeps waiting. */
  lemma {:induction false} KeepsWaiting(ss: seq<State>, es: seq<Event>, i: nat, j: nat)
    requires IsRun(ss, es) && i < j <= |es| && es[i].Receive? && es[i].ackEliciting && es[i].r.Ok?
    requires forall k :: i < k < j ==> !SendsAck(es[k])
    ensures Waits(ss[j], es[i].pn, es[i].rcvTime + MAX_ACK_DELAY)
    decreases j
  {
    hide Valid, Step, Waits, SendsAck;
    RunKeeps(ss, es);
    var k := j - 1;
    assert Step(ss[k], es[k], ss[j]);
    if k == i {
      ReceiveWaits(ss[i], ss[j], es[i]);
    } else {
      KeepsWaiting(ss, es, i, k);
      StepWaits(ss[k], ss[j], es[k], es[i].pn, es[i].rcvTime + MAX_ACK_DELAY);
    }
  }

  /**
    Every packet that asks for an ACK is acknowledged in time: when its delay is over and the connection asks
    whether an ACK is due, an ACK frame has been sent since the packet was received, or is sent now. It
    acknowledges the packet, unless that is ignored or was given up by then.
   */
  lemma AckedInTime(ss: seq<State>, es: seq<Event>, i: nat, j: nat) returns (k: nat)
    requires IsRun(ss, es) && i < j < |es| && es[i].Receive? && es[i].ackEliciting && es[i].r.Ok?
    requires es[j].Get? && es[j].now >= es[i].rcvTime + MAX_ACK_DELAY
    ensures i < k <= j && SendsAck(es[k])
    ensures LR.Acks(es[k].f.value.ranges, es[i].pn) <==>
            ss[k].history.deletedBelow <= es[i].pn && es[i].pn !in ss[k].history.dropped
  {
    hide Valid, Step, Waits, LR.Acks, FrameOf;
    RunKeeps(ss, es);
    k := i + 1;
    while k < j && !SendsAck(es[k])
      invariant i < k <= j && forall m :: i < m < k ==> !SendsAck(es[m])
    {
      k := k + 1;
    }
    KeepsWaiting(ss, es, i, k);
    assert Step(ss[k], es[k], ss[k + 1]);
    SentIfWaiting(ss[k], ss[k + 1], es[k], es[i].pn, es[i].rcvTime + MAX_ACK_DELAY);
    FrameAcks(ss[k], es[k].now, es[i].pn);
  }

  lemma SentIfWaiting(s: State, s': State, e: Event, pn: nat, deadline: nat)
    requires Valid(s) && Step(s, e, s') && Waits(s, pn, deadline) && e.Get?
    requires SendsAck(e) || deadline <= e.now
    ensures SendsAck(e) && e.f == Some(FrameOf(s, e.now)) && pn in s.history.received
  {
    hide RP.Valid, Highest, LastOk, FrameOf;
  }

  // ---------------------------------------------------------------------------------------------
  // What a frame reports besides the numbers

  predicate Registers(e: Event) {
    e.Receive? && e.r.Ok?
  }

  /** How many packets with this codepoint were registered. */
  function Marked(es: seq<Event>, c: Codepoint): nat {
    if es == [] then 0
    else
      var e := es[|es| - 1];
      Marked(es[..|es| - 1], c) + (if Registers(e) && e.c == c then 1 else 0)
  }

  /** Event `i` registered the packet with the largest number. */
  ghost predicate IsLargest(es: seq<Event>, i: int) {
    && 0 <= i < |es| && Registers(es[i])
    && forall j :: 0 <= j < |es| && Registers(es[j]) ==> es[j].pn <= es[i].pn && (i < j ==> es[j].pn < es[i].pn)
  }

  ghost predicate Observes(s: State, es: seq<Event>) {
    && s.ecn == ECN(Marked(es, ECT0), Marked(es, ECT1), Marked(es, CE))
    && (s.observed ==> exists i ::
          IsLargest(es, i) && s.largestObserved == es[i].pn && s.largestObservedRcvdTime == es[i].rcvTime)
    && (!s.observed ==> s.largestObserved == 0 && forall j :: 0 <= j < |es| ==> !Registers(es[j]))
  }

  lemma MarkedNext(es: seq<Event>, e: Event, c: Codepoint)
    ensures Marked(es + [e], c) == Marked(es, c) + (if Registers(e) && e.c == c then 1 else 0)
  {
    assert (es + [e])[..|es|] == es;
  }

  lemma LargestStays(es: seq<Event>, e: Event, i: int)
    requires IsLargest(es, i) && (Registers(e) ==> e.pn < es[i].pn)
    ensures IsLargest(es + [e], i) && (es + [e])[i] == es[i]
  {
  }

  /** A packet that is registered is counted, and is the largest if no larger one was. */
  lemma RegisterObserves(s: State, e: Event, s': State)
    requires Step(s, e, s') && Registers(e)
    ensures s'.observed && s'.ecn == Count(s.ecn, e.c)
    ensures if e.pn >= s.largestObserved then s'.largestObserved == e.pn && s'.largestObservedRcvdTime == e.rcvTime
            else s'.largestObserved == s.largestObserved && s'.largestObservedRcvdTime == s.largestObservedRcvdTime
  {
    hide RP.ReceiveSpec, Missing, Due, NewMissing, Count;
  }

  lemma StepObserves(s: State, es: seq<Event>, e: Event, s': State)
    requires Observes(s, es) && Step(s, e, s')
    ensures Observes(s', es + [e])
  {
    hide Step, Marked;
    var all := es + [e];
    MarkedNext(es, e, ECT0);
    MarkedNext(es, e, ECT1);
    MarkedNext(es, e, CE);
    if Registers(e) {
      RegisterObserves(s, e, s');
    } else {
      SameObserved(s, e, s');
    }
    if Registers(e) && e.pn >= s.largestObserved {
      NewLargest(s, es, e);
    } else if s.observed {
      var i :| IsLargest(es, i) && s.largestObserved == es[i].pn && s.largestObservedRcvdTime == es[i].rcvTime;
      LargestStays(es, e, i);
    }
  }

  lemma NewLargest(s: State, es: seq<Event>, e: Event)
    requires Observes(s, es) && Registers(e) && e.pn >= s.largestObserved
    ensures IsLargest(es + [e], |es|)
  {
    hide Marked;
  }

  lemma SameObserved(s: State, e: Event, s': State)
    requires Step(s, e, s') && !Registers(e)
    ensures s'.ecn == s.ecn && s'.observed == s.observed && s'.largestObserved == s.largestObserved
    ensures s'.largestObservedRcvdTime == s.largestObservedRcvdTime
  {
    hide RP.ReceiveSpec, RP.DeleteSpec, Register, FrameOf;
  }

  lemma {:induction false} RunObserves(ss: seq<State>, es: seq<Event>)
    requires IsRun(ss, es)
    ensures Observes(ss[|es|], es)
    decreases |es|
  {
    hide Step, Observes;
    if es == [] {
      StartObserves();
    } else {
      var n := |es| - 1;
      RunObserves(ss[..n + 1], es[..n]);
      assert ss[..n + 1][n] == ss[n] && Step(ss[n], es[n], ss[n + 1]);
      assert es[..n] + [es[n]] == es;
      StepObserves(ss[n], es[..n], es[n], ss[n + 1]);
    }
  }

  lemma StartObserves()
    ensures Observes(START, [])
  {
  }

  /**
    In every run, an ACK frame reports how many packets arrived with each ECN mark, and the time since the packet
    with the largest number was received.
   */
  lemma FrameReports(ss: seq<State>, es: seq<Event>, k: nat)
    requires IsRun(ss, es) && k < |es| && SendsAck(es[k])
    ensures var f, before := es[k].f.value, es[..k];
            && f.ecn == ECN(Marked(before, ECT0), Marked(before, ECT1), Marked(before, CE))
            && exists i :: IsLargest(before, i) && f.delayTime == Max(0, es[k].now - before[i].rcvTime)
  {
    hide RP.Valid, Highest, LastOk, RP.ReceiveSpec, RP.DeleteSpec, Register;
    RunKeeps(ss, es);
    assert Step(ss[k], es[k], ss[k + 1]) && Valid(ss[k]);
    assert forall i :: 0 <= i < k ==> Step(ss[..k + 1][i], es[..k][i], ss[..k + 1][i + 1]);
    RunObserves(ss[..k + 1], es[..k]);
    assert ss[..k + 1][k] == ss[k];
  }

  // ---------------------------------------------------------------------------------------------
  // When a frame is sent

  /** A packet is registered that asks for an ACK. */
  predicate Asks(e: Event) {
    Registers(e) && e.ackEliciting
  }

  /** Event `i` asked for an ACK, and none was sent since. */
  ghost predicate Open(es: seq<Event>, i: int) {
    0 <= i < |es| && Asks(es[i]) && forall k :: i < k < |es| ==> !SendsAck(es[k])
  }

  ghost predicate NoAckYet(es: seq<Event>) {
    forall k :: 0 <= k < |es| ==> !SendsAck(es[k])
  }

  /**
    The packet of event `i` is not to wait for its ACK: it comes before any ACK was sent, or behind another one that
    waits, or was reported as missing, or shows a gap.
   */
  ghost predicate Urgent(ss: seq<State>, es: seq<Event>, i: int)
    requires |ss| == |es| + 1 && 0 <= i < |es| && es[i].Receive?
  {
    NoAckYet(es[..i]) || (exists j :: Open(es[..i], j)) || Missing(ss[i], es[i].pn) || NewMissing(ss[i + 1])
  }

  ghost predicate OpenAndUrgent(ss: seq<State>, es: seq<Event>, i: int)
    requires |ss| == |es| + 1
  {
    Open(es, i) && Urgent(ss, es, i)
  }

  lemma OpenNext(es: seq<Event>, i: int)
    requires es != []
    ensures var n := |es| - 1;
            Open(es, i) <==> (Open(es[..n], i) && !SendsAck(es[n])) || (i == n && Asks(es[n]))
  {
    var n := |es| - 1;
    if Open(es, i) && i < n {
      forall k | i < k < n ensures !SendsAck(es[..n][k]) {
        assert es[..n][k] == es[k];
      }
      assert !SendsAck(es[n]);
    }
    if Open(es[..n], i) && !SendsAck(es[n]) {
      forall k | i < k < |es| ensures !SendsAck(es[k]) {
        assert k < n ==> es[..n][k] == es[k];
      }
    }
  }

  lemma UrgentBefore(ss: seq<State>, es: seq<Event>, i: int)
    requires |ss| == |es| + 1 && es != [] && 0 <= i < |es| - 1 && es[i].Receive?
    ensures var n := |es| - 1;
            Urgent(ss[..n + 1], es[..n], i) <==> Urgent(ss, es, i)
  {
    assert es[..|es| - 1][..i] == es[..i];
  }

  lemma NoAckNext(es: seq<Event>)
    requires es != []
    ensures NoAckYet(es) <==> NoAckYet(es[..|es| - 1]) && !SendsAck(es[|es| - 1])
  {
    var n := |es| - 1;
    if NoAckYet(es) {
      forall k | 0 <= k < n ensures !SendsAck(es[..n][k]) {
        assert es[..n][k] == es[k];
      }
    }
    if NoAckYet(es[..n]) && !SendsAck(es[n]) {
      forall k | 0 <= k < |es| ensures !SendsAck(es[k]) {
        assert k < n ==> es[..n][k] == es[k];
      }
    }
  }

  /** What waits and what is queued, in terms of the run. */
  ghost predicate Justified(ss: seq<State>, es: seq<Event>)
    requires |ss| == |es| + 1
  {
    var s := ss[|es|];
    && (s.lastAck.None? <==> NoAckYet(es))
    && (s.hasNewAck <==> exists i :: Open(es, i))
    && (s.ackQueued <==> exists i :: OpenAndUrgent(ss, es, i))
    && (s.ackAlarm != 0 ==> exists i :: Open(es, i) && s.ackAlarm == es[i].rcvTime + MAX_ACK_DELAY)
  }

  lemma AskQueues(s: State, e: Event, s': State)
    requires Valid(s) && Step(s, e, s') && Asks(e)
    ensures s'.hasNewAck && s'.lastAck == s.lastAck
    ensures s'.ackQueued <==> s.lastAck.None? || s.hasNewAck || Missing(s, e.pn) || NewMissing(s')
    ensures s'.ackAlarm != 0 ==> s'.ackAlarm == e.rcvTime + MAX_ACK_DELAY || s.hasNewAck
    ensures s'.ackQueued ==> s'.ackAlarm == 0
  {
    hide RP.ReceiveSpec, RP.Valid, Highest, LastOk;
    SameMissing(s, s', e.pn);
  }

  lemma SameMissing(s: State, s': State, pn: nat)
    ensures Missing(s.(history := s'.history), pn) == Missing(s, pn)
  {
  }

  lemma OthersQueue(s: State, e: Event, s': State)
    requires Step(s, e, s') && !Asks(e)
    ensures if SendsAck(e) then s'.lastAck.Some? && !s'.hasNewAck && !s'.ackQueued && s'.ackAlarm == 0
            else s'.lastAck == s.lastAck && s'.hasNewAck == s.hasNewAck && s'.ackQueued == s.ackQueued
                 && s'.ackAlarm == s.ackAlarm
  {
    hide RP.ReceiveSpec, RP.DeleteSpec, Missing, FrameOf;
  }

  lemma AskJustified(ss: seq<State>, es: seq<Event>)
    requires |ss| == |es| + 1 && es != [] && Asks(es[|es| - 1])
    requires var n := |es| - 1;
             Valid(ss[n]) && Step(ss[n], es[n], ss[n + 1]) && Justified(ss[..n + 1], es[..n])
    ensures Justified(ss, es)
  {
    hide Step, Valid, Missing, NewMissing;
    var n := |es| - 1;
    assert ss[..n + 1][n] == ss[n] && Registers(es[n]);
    AskQueues(ss[n], es[n], ss[n + 1]);
    NoAckNext(es);
    OpenNext(es, n);
    forall i ensures Open(es, i) <==> Open(es[..n], i) || i == n {
      OpenNext(es, i);
    }
    assert Urgent(ss, es, n) <==> ss[n + 1].ackQueued;
    if ss[n + 1].ackQueued {
      assert OpenAndUrgent(ss, es, n);
    } else {
      assert forall i :: Open(es, i) ==> i == n;
    }
  }

  lemma OthersJustified(ss: seq<State>, es: seq<Event>)
    requires |ss| == |es| + 1 && es != [] && !Asks(es[|es| - 1])
    requires var n := |es| - 1;
             Step(ss[n], es[n], ss[n + 1]) && Justified(ss[..n + 1], es[..n])
    ensures Justified(ss, es)
  {
    hide Step, Missing, NewMissing, Urgent;
    var n := |es| - 1;
    assert ss[..n + 1][n] == ss[n];
    OthersQueue(ss[n], es[n], ss[n + 1]);
    NoAckNext(es);
    forall i ensures Open(es, i) <==> Open(es[..n], i) && !SendsAck(es[n]) {
      OpenNext(es, i);
    }
    forall i | Open(es, i) ensures OpenAndUrgent(ss, es, i) <==> OpenAndUrgent(ss[..n + 1], es[..n], i) {
      UrgentBefore(ss, es, i);
    }
    if ss[n + 1].ackQueued {
      var i :| OpenAndUrgent(ss[..n + 1], es[..n], i);
      assert Open(es, i);
    }
    if ss[n + 1].ackAlarm != 0 {
      var i :| Open(es[..n], i) && ss[n].ackAlarm == es[..n][i].rcvTime + MAX_ACK_DELAY;
      assert Open(es, i) && es[i] == es[..n][i];
    }
  }

  lemma {:induction false} RunJustified(ss: seq<State>, es: seq<Event>)
    requires IsRun(ss, es)
    ensures Justified(ss, es)
    decreases |es|
  {
    hide Step, Valid, Justified;
    if es == [] {
      StartJustified(ss);
    } else {
      var n := |es| - 1;
      RunKeeps(ss, es);
      assert forall i :: 0 <= i < n ==> Step(ss[..n + 1][i], es[..n][i], ss[..n + 1][i + 1]);
      RunJustified(ss[..n + 1], es[..n]);
      assert Step(ss[n], es[n], ss[n + 1]);
      if Asks(es[n]) {
        AskJustified(ss, es);
      } else {
        OthersJustified(ss, es);
      }
    }
  }

  lemma StartJustified(ss: seq<State>)
    requires |ss| == 1 && ss[0] == START
    ensures Justified(ss, [])
  {
  }

  lemma GetSends(s: State, e: Event, s': State)
    requires Step(s, e, s') && e.Get?
    ensures SendsAck(e) <==> s.hasNewAck && (e.onlyIfQueued ==> s.ackQueued || (s.ackAlarm != 0 && s.ackAlarm <= e.now))
  {
    hide FrameOf;
  }

  lemma WaitsWith(s: State, pn: nat, deadline: nat)
    requires Waits(s, pn, deadline)
    ensures s.ackQueued || s.ackAlarm == deadline
  {
  }

  /**
    In every run, an ACK frame is sent exactly if a packet has asked for one since the last; and if only ACKs that
    are due are wanted, exactly if one of these packets is not to wait or has waited for 25 ms.
   */
  lemma SentExactly(ss: seq<State>, es: seq<Event>, k: nat)
    requires IsRun(ss, es) && k < |es| && es[k].Get?
    ensures var before := es[..k];
            SendsAck(es[k]) <==>
            exists i :: && Open(before, i)
                        && (es[k].onlyIfQueued ==>
                              Urgent(ss[..k + 1], before, i) || before[i].rcvTime + 25_000_000 <= es[k].now)
  {
    hide Step, Valid, Urgent, Waits;
    var before := es[..k];
    assert Step(ss[k], es[k], ss[k + 1]);
    assert forall i :: 0 <= i < k ==> Step(ss[..k + 1][i], before[i], ss[..k + 1][i + 1]);
    RunJustified(ss[..k + 1], before);
    assert ss[..k + 1][k] == ss[k];
    GetSends(ss[k], es[k], ss[k + 1]);
    if SendsAck(es[k]) {
      if es[k].onlyIfQueued && ss[k].ackQueued {
        var i :| OpenAndUrgent(ss[..k + 1], before, i);
        assert Open(before, i);
      }
    }
    if i :| Open(before, i) &&
            (es[k].onlyIfQueued ==>
               Urgent(ss[..k + 1], before, i) || before[i].rcvTime + 25_000_000 <= es[k].now) {
      if Urgent(ss[..k + 1], before, i) {
        assert OpenAndUrgent(ss[..k + 1], before, i);
      } else {
        KeepsWaiting(ss[..k + 1], before, i, k);
        WaitsWith(ss[k], before[i].pn, before[i].rcvTime + MAX_ACK_DELAY);
      }
    }
  }
}
