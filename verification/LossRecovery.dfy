/**
  Acknowledgement and loss of the packets of one packet number space: the walk of an ACK frame over the
  history, the loss detection of section 6.1 of RFC 9002, and what removing packets does to the history.
 */
module LossRecovery {
  import opened Common
  import opened SentPacketHistory

  const PACKET_THRESHOLD := 3

  // ---------------------------------------------------------------------------------------------
  // Selecting packets

  /** The packets that satisfy `keep`, in the order of the slots. */
  function Select(s: Slots, keep: Packet -> bool): seq<Packet> {
    if s == [] then []
    else
      var x := s[|s| - 1];
      Select(s[..|s| - 1], keep) + (if x.Some? && keep(x.value) then [x.value] else [])
  }

  lemma SelectNext(s: Slots, k: nat, keep: Packet -> bool)
    requires k < |s|
    ensures Select(s[..k + 1], keep) ==
            Select(s[..k], keep) + (if s[k].Some? && keep(s[k].value) then [s[k].value] else [])
  {
    assert s[..k + 1][..k] == s[..k];
  }

  /** Slots at the end of which nothing is to be kept do not matter. */
  lemma {:induction false} SelectPrefix(s: Slots, k: nat, keep: Packet -> bool)
    requires k <= |s| && forall i :: k <= i < |s| && s[i].Some? ==> !keep(s[i].value)
    ensures Select(s, keep) == Select(s[..k], keep)
  {
    if k == |s| {
      assert s[..k] == s;
    } else {
      var t := s[..|s| - 1];
      SelectPrefix(t, k, keep);
      assert t[..k] == s[..k];
    }
  }

  lemma {:induction false} SelectMember(s: Slots, keep: Packet -> bool, p: Packet)
    ensures p in Select(s, keep) <==> Some(p) in s && keep(p)
  {
    if s != [] {
      SelectMember(s[..|s| - 1], keep, p);
      assert s == s[..|s| - 1] + [s[|s| - 1]];
    }
  }

  /** The numbers increase. */
  ghost predicate Ascending(ps: seq<Packet>) {
    forall i, j :: 0 <= i < j < |ps| ==> ps[i].number < ps[j].number
  }

  ghost predicate NumberedFrom(s: Slots, first: int) {
    forall i :: 0 <= i < |s| && s[i].Some? ==> s[i].value.number == first + i
  }

  lemma {:induction false} SelectAscending(s: Slots, first: int, keep: Packet -> bool)
    requires NumberedFrom(s, first)
    ensures Ascending(Select(s, keep))
    ensures forall i :: 0 <= i < |Select(s, keep)| ==> Select(s, keep)[i].number < first + |s|
  {
    if s != [] {
      SelectAscending(s[..|s| - 1], first, keep);
    }
  }

  // ---------------------------------------------------------------------------------------------
  // Removing packets from a history

  /** What Remove does: nothing without a packet of that number. */
  function RemoveOne(h: State, pn: int): State {
    var i := IndexOf(h, pn);
    if i.Some? && h.packets[i.value].Some? then Removed(h, i.value) else h
  }

  /** What DeclareLost does. */
  function LoseOne(h: State, pn: int): State {
    var i := IndexOf(h, pn);
    if i.Some? && h.packets[i.value].Some? then Lost(h, i.value) else h
  }

  function RemoveAll(h: State, ps: seq<Packet>): State {
    if ps == [] then h else RemoveOne(RemoveAll(h, ps[..|ps| - 1]), ps[|ps| - 1].number)
  }

  function LoseAll(h: State, ps: seq<Packet>): State {
    if ps == [] then h else LoseOne(LoseAll(h, ps[..|ps| - 1]), ps[|ps| - 1].number)
  }

  /** The sum of `m` over a list of packets. */
  function Total(ps: seq<Packet>, m: Packet -> nat): nat {
    if ps == [] then 0 else Total(ps[..|ps| - 1], m) + m(ps[|ps| - 1])
  }

  /** `q` is tracked in slot `i`. */
  lemma TrackedAt(h: State, p: Packet) returns (i: nat)
    requires Valid(h) && Tracks(h, p)
    ensures i < |h.packets| && h.packets[i] == Some(p) && IndexOf(h, p.number) == Some(i)
  {
    i :| 0 <= i < |h.packets| && h.packets[i] == Some(p);
  }

  /** The packets of a slice from which the empty slots at the front are dropped are the same. */
  lemma FrontDropKeeps(s: Slots, q: Packet)
    ensures Some(q) in DropNones(s) <==> Some(q) in s
  {
    DropNonesFacts(s);
    var r := DropNones(s);
    if Some(q) in s {
      var i :| 0 <= i < |s| && s[i] == Some(q);
      assert r[i - (|s| - |r|)] == Some(q);
    }
  }

  lemma ClearKeeps(s: Slots, i: nat, q: Packet, first: int)
    requires i < |s| && s[i].Some? && NumberedFrom(s, first)
    ensures Some(q) in s[i := None] <==> Some(q) in s && q.number != s[i].value.number
  {
    var t := s[i := None];
    if Some(q) in s && q.number != s[i].value.number {
      var k :| 0 <= k < |s| && s[k] == Some(q);
      assert t[k] == Some(q);
    }
    if Some(q) in t {
      var k :| 0 <= k < |t| && t[k] == Some(q);
      assert s[k] == Some(q);
    }
  }

  /** Declaring a packet lost takes out exactly this packet. */
  lemma LoseOneTracks(h: State, p: Packet, q: Packet)
    requires Valid(h) && Tracks(h, p)
    ensures Tracks(LoseOne(h, p.number), q) <==> Tracks(h, q) && q.number != p.number
  {
    var i := TrackedAt(h, p);
    assert NumberedFrom(h.packets, First(h));
    ClearKeeps(h.packets, i, q, First(h));
    FrontDropKeeps(h.packets[i := None], q);
  }

  /** Removing a packet takes out this packet, and of the others only skipped ones. */
  lemma RemoveOneTracks(h: State, p: Packet, q: Packet)
    requires Valid(h) && Tracks(h, p)
    ensures Tracks(RemoveOne(h, p.number), q) ==> Tracks(h, q) && q.number != p.number
    ensures Tracks(h, q) && q.number != p.number && (q.skipped ==> p.number < q.number) ==>
              Tracks(RemoveOne(h, p.number), q)
  {
    var i := TrackedAt(h, p);
    assert NumberedFrom(h.packets, First(h));
    var s := h.packets[i := None];
    ClearKeeps(h.packets, i, q, First(h));
    ClearSkippedFacts(s, i);
    var t := ClearSkipped(s, i);
    FrontDropKeeps(t, q);
    if Some(q) in t {
      var k :| 0 <= k < |t| && t[k] == Some(q);
      assert s[k] == Some(q);
    }
    if Some(q) in s && (q.skipped ==> p.number < q.number) {
      var k :| 0 <= k < |s| && s[k] == Some(q);
      assert h.packets[k] == Some(q);
      assert t[k] == Some(q);
    }
  }

  lemma LoseOneSum(h: State, p: Packet, m: Packet -> nat)
    requires Valid(h) && Tracks(h, p)
    ensures Valid(LoseOne(h, p.number)) && LoseOne(h, p.number).highest == h.highest
    ensures Sum(LoseOne(h, p.number).packets, m) + m(p) == Sum(h.packets, m)
  {
    var i := TrackedAt(h, p);
    LostValid(h, i);
    SumClear(h.packets, i, m);
    SumDropNones(h.packets[i := None], m);
  }

  lemma RemoveOneSum(h: State, p: Packet, m: Packet -> nat)
    requires Valid(h) && Tracks(h, p) && ZeroOnSkipped(m)
    ensures Valid(RemoveOne(h, p.number)) && RemoveOne(h, p.number).highest == h.highest
    ensures Sum(RemoveOne(h, p.number).packets, m) + m(p) == Sum(h.packets, m)
  {
    var i := TrackedAt(h, p);
    var s := h.packets[i := None];
    RemovedValid(h, i);
    SumClear(h.packets, i, m);
    SumClearSkipped(s, i, m);
    SumDropNones(ClearSkipped(s, i), m);
  }

  ghost predicate ZeroOnSkipped(m: Packet -> nat) {
    forall p: Packet :: p.skipped ==> m(p) == 0
  }

  /** `ps` are packets of the history. */
  ghost predicate From(h: State, ps: seq<Packet>) {
    Ascending(ps) && forall i :: 0 <= i < |ps| ==> Tracks(h, ps[i])
  }

  ghost predicate Above(q: Packet, ps: seq<Packet>) {
    forall i :: 0 <= i < |ps| ==> ps[i].number < q.number
  }

  ghost predicate Mentions(ps: seq<Packet>, q: Packet) {
    exists i :: 0 <= i < |ps| && ps[i].number == q.number
  }

  /** Declaring packets of the history lost takes out exactly them, and their share of every sum. */
  lemma {:induction false} LoseAllFacts(h: State, ps: seq<Packet>, m: Packet -> nat)
    requires Valid(h) && From(h, ps)
    ensures Valid(LoseAll(h, ps)) && LoseAll(h, ps).highest == h.highest
    ensures forall q :: Tracks(LoseAll(h, ps), q) <==> Tracks(h, q) && !Mentions(ps, q)
    ensures Sum(LoseAll(h, ps).packets, m) + Total(ps, m) == Sum(h.packets, m)
  {
    hide Valid, Tracks, Sum, LoseOne;
    if ps != [] {
      var n := |ps| - 1;
      var h1 := LoseAll(h, ps[..n]);
      LoseAllFacts(h, ps[..n], m);
      assert !Mentions(ps[..n], ps[n]) && Tracks(h, ps[n]);
      LoseOneSum(h1, ps[n], m);
      forall q ensures Tracks(LoseAll(h, ps), q) <==> Tracks(h, q) && !Mentions(ps, q) {
        LoseOneTracks(h1, ps[n], q);
        MentionsLast(ps, q);
      }
    }
  }

  lemma MentionsLast(ps: seq<Packet>, q: Packet)
    requires ps != []
    ensures Mentions(ps, q) <==> Mentions(ps[..|ps| - 1], q) || ps[|ps| - 1].number == q.number
  {
    var n := |ps| - 1;
    if Mentions(ps, q) && ps[n].number != q.number {
      var i :| 0 <= i < |ps| && ps[i].number == q.number;
      assert ps[..n][i].number == q.number;
    }
    if Mentions(ps[..n], q) {
      var i :| 0 <= i < n && ps[..n][i].number == q.number;
      assert ps[i].number == q.number;
    }
  }

  /** Removing packets of the history takes out them and otherwise only skipped ones. */
  lemma {:induction false} RemoveAllFacts(h: State, ps: seq<Packet>, m: Packet -> nat)
    requires Valid(h) && From(h, ps) && ZeroOnSkipped(m)
    ensures Valid(RemoveAll(h, ps)) && RemoveAll(h, ps).highest == h.highest
    ensures forall q :: Tracks(RemoveAll(h, ps), q) ==> Tracks(h, q) && !Mentions(ps, q)
    ensures forall q :: Tracks(h, q) && !q.skipped && !Mentions(ps, q) ==> Tracks(RemoveAll(h, ps), q)
    ensures forall q :: Tracks(h, q) && Above(q, ps) ==> Tracks(RemoveAll(h, ps), q)
    ensures Sum(RemoveAll(h, ps).packets, m) + Total(ps, m) == Sum(h.packets, m)
  {
    hide Valid, Tracks, Sum, RemoveOne, ZeroOnSkipped;
    if ps != [] {
      var n := |ps| - 1;
      var h1 := RemoveAll(h, ps[..n]);
      RemoveAllFacts(h, ps[..n], m);
      assert Above(ps[n], ps[..n]) && Tracks(h, ps[n]);
      RemoveOneSum(h1, ps[n], m);
      forall q
        ensures Tracks(RemoveAll(h, ps), q) ==> Tracks(h, q) && !Mentions(ps, q)
        ensures Tracks(h, q) && !q.skipped && !Mentions(ps, q) ==> Tracks(RemoveAll(h, ps), q)
        ensures Tracks(h, q) && Above(q, ps) ==> Tracks(RemoveAll(h, ps), q)
      {
        RemoveOneTracks(h1, ps[n], q);
        MentionsLast(ps, q);
      }
    }
  }

  // ---------------------------------------------------------------------------------------------
  // The walk of an ACK frame

  datatype AckRange = AckRange(smallest: int, largest: int)

  /** The highest range goes first, and a gap of at least one number separates two ranges. */
  ghost predicate ValidRanges(rs: seq<AckRange>) {
    && rs != []
    && (forall i :: 0 <= i < |rs| ==> rs[i].smallest <= rs[i].largest)
    && (forall i, j :: 0 <= i < j < |rs| ==> rs[j].largest + 1 < rs[i].smallest)
  }

  predicate Acks(rs: seq<AckRange>, pn: int) {
    exists i :: 0 <= i < |rs| && rs[i].smallest <= pn <= rs[i].largest
  }

  function Acking(rs: seq<AckRange>): Packet -> bool {
    (p: Packet) => Acks(rs, p.number)
  }

  /** The last `j` ranges end before `pn`. */
  ghost predicate Passed(rs: seq<AckRange>, j: nat, pn: int) {
    forall i :: |rs| - j <= i < |rs| && 0 <= i ==> rs[i].largest < pn
  }

  lemma AcksHere(rs: seq<AckRange>, j: nat, pn: int)
    requires ValidRanges(rs) && j < |rs| && Passed(rs, j, pn) && pn <= rs[|rs| - 1 - j].largest
    ensures Acks(rs, pn) <==> rs[|rs| - 1 - j].smallest <= pn
  {
  }

  /** Moves on to the lowest range that does not end before `pn`. */
  method AdvanceRange(rs: seq<AckRange>, start: nat, pn: int) returns (j: nat)
    requires ValidRanges(rs) && start < |rs| && Passed(rs, start, pn) && pn <= rs[0].largest
    ensures start <= j < |rs| && Passed(rs, j, pn) && pn <= rs[|rs| - 1 - j].largest
  {
    j := start;
    while pn > rs[|rs| - 1 - j].largest && j < |rs| - 1
      invariant start <= j < |rs| && Passed(rs, j, pn)
    {
      j := j + 1;
    }
  }

  datatype WalkError = NoError | AckForSkipped(pn: int) | WrongPacket(pn: int)

  ghost predicate AcksSkipped(h: State, rs: seq<AckRange>) {
    exists p :: Tracks(h, p) && p.skipped && Acks(rs, p.number)
  }

  lemma AcksSkippedAt(h: State, rs: seq<AckRange>, k: nat)
    requires k < |h.packets| && h.packets[k].Some? && h.packets[k].value.skipped && Acks(rs, h.packets[k].value.number)
    ensures AcksSkipped(h, rs)
  {
    assert Tracks(h, h.packets[k].value);
  }

  /** The packets of the first `k` slots have been gone through. */
  ghost predicate Walked(h: State, rs: seq<AckRange>, k: nat, acked: seq<Packet>) {
    && k <= |h.packets| && acked == Select(h.packets[..k], Acking(rs))
    && forall i :: 0 <= i < k && h.packets[i].Some? && Acks(rs, h.packets[i].value.number) ==>
         !h.packets[i].value.skipped
  }

  lemma WalkNext(h: State, rs: seq<AckRange>, k: nat, acked: seq<Packet>, acked': seq<Packet>)
    requires Walked(h, rs, k, acked) && k < |h.packets|
    requires var x := h.packets[k];
             if x.Some? && Acks(rs, x.value.number) then !x.value.skipped && acked' == acked + [x.value]
             else acked' == acked
    ensures Walked(h, rs, k + 1, acked')
  {
    hide Acks;
    SelectNext(h.packets, k, Acking(rs));
  }

  /** When all that is left is beyond the largest acknowledged number, the walk is complete. */
  lemma WalkDone(h: State, rs: seq<AckRange>, k: nat, acked: seq<Packet>)
    requires Valid(h) && ValidRanges(rs) && Walked(h, rs, k, acked)
    requires k < |h.packets| ==> rs[0].largest < First(h) + k
    ensures acked == Select(h.packets, Acking(rs)) && !AcksSkipped(h, rs)
  {
    forall i | k <= i < |h.packets| && h.packets[i].Some? ensures !Acks(rs, h.packets[i].value.number) {
    }
    SelectPrefix(h.packets, k, Acking(rs));
  }

  /**
    The packets that an ACK frame acknowledges: exactly the tracked packets with a number in one of the
    ranges, in ascending order, or an error if one of these numbers was skipped. The two indices never
    leave a packet beyond the range they have reached.
   */
  method DetectAcked(h: State, rs: seq<AckRange>) returns (acked: seq<Packet>, err: WalkError)
    requires Valid(h) && ValidRanges(rs)
    ensures !err.WrongPacket? && (err.AckForSkipped? <==> AcksSkipped(h, rs))
    ensures err.NoError? ==> acked == Select(h.packets, Acking(rs))
  {
    hide Acks, AcksSkipped, Select;
    var lowestAcked, largestAcked := rs[|rs| - 1].smallest, rs[0].largest;
    acked := [];
    var rangeIndex := 0;
    var k := 0;
    assert Walked(h, rs, 0, []) by {
      assert h.packets[..0] == [];
      SelectEmpty(Acking(rs));
    }
    while k < |h.packets|
      invariant Walked(h, rs, k, acked)
      invariant rangeIndex < |rs| && Passed(rs, rangeIndex, First(h) + k)
    {
      if h.packets[k].Some? {
        var p := h.packets[k].value;
        if p.number < lowestAcked {
          BelowAll(rs, p.number);
        } else if p.number > largestAcked {
          break;
        } else {
          if |rs| > 1 {
            rangeIndex := AdvanceRange(rs, rangeIndex, p.number);
          }
          var r := rs[|rs| - 1 - rangeIndex];
          AcksHere(rs, rangeIndex, p.number);
          if |rs| == 1 || p.number >= r.smallest {
            if |rs| > 1 && p.number > r.largest {
              return acked, WrongPacket(p.number);
            }
            if p.skipped {
              AcksSkippedAt(h, rs, k);
              return acked, AckForSkipped(p.number);
            }
            WalkNext(h, rs, k, acked, acked + [p]);
            acked := acked + [p];
            k := k + 1;
            continue;
          }
        }
      }
      WalkNext(h, rs, k, acked, acked);
      k := k + 1;
    }
    WalkDone(h, rs, k, acked);
    return acked, NoError;
  }

  lemma SelectEmpty(keep: Packet -> bool)
    ensures Select([], keep) == []
  {
  }

  lemma BelowAll(rs: seq<AckRange>, pn: int)
    requires ValidRanges(rs) && pn < rs[|rs| - 1].smallest
    ensures !Acks(rs, pn)
  {
  }

  // ---------------------------------------------------------------------------------------------
  // Loss detection

  /** A packet this far behind the largest acknowledged one, or sent this long ago, is lost. */
  predicate Losing(p: Packet, largestAcked: int, now: nat, lossDelay: nat) {
    p.number <= largestAcked && (p.sendTime < now - lossDelay || p.number + PACKET_THRESHOLD <= largestAcked)
  }

  /** A packet that may be declared lost when time passes. */
  predicate Waiting(p: Packet, largestAcked: int, now: nat, lossDelay: nat) {
    p.number <= largestAcked && !Losing(p, largestAcked, now, lossDelay)
  }

  function Loser(largestAcked: int, now: nat, lossDelay: nat): Packet -> bool {
    (p: Packet) => Losing(p, largestAcked, now, lossDelay)
  }

  function Waiter(largestAcked: int, now: nat, lossDelay: nat): Packet -> bool {
    (p: Packet) => Waiting(p, largestAcked, now, lossDelay)
  }

  function LosingPackets(s: Slots, largestAcked: int, now: nat, lossDelay: nat): seq<Packet> {
    Select(s, Loser(largestAcked, now, lossDelay))
  }

  function WaitingPackets(s: Slots, largestAcked: int, now: nat, lossDelay: nat): seq<Packet> {
    Select(s, Waiter(largestAcked, now, lossDelay))
  }

  function LossTime(s: Slots, largestAcked: int, now: nat, lossDelay: nat): int {
    var w := WaitingPackets(s, largestAcked, now, lossDelay);
    if w == [] then 0 else w[0].sendTime + lossDelay
  }

  const LENGTH: Packet -> nat := (p: Packet) => if p.inFlight && !p.skipped then p.length else 0

  /** A packet that was sent carries frames; a skipped one is not in flight. */
  predicate PacketOk(p: Packet) {
    && 0 <= p.sendTime
    && (if p.skipped then !p.inFlight && p.frames == [] && p.sendTime == 0 else p.inFlight && p.frames != [])
  }

  ghost predicate PacketsOk(s: Slots) {
    forall i :: 0 <= i < |s| && s[i].Some? ==> PacketOk(s[i].value)
  }

  /** The two explicit panics are "negative bytes_in_flight" and "no frames". */
  datatype LossOutcome =
    | Detected(history: State, lossTime: int, bytesInFlight: int, lost: seq<Packet>)
    | NegativeBytesInFlight
    | NoFrames

  /** The first `k` slots have been gone through. */
  ghost predicate Detecting(h: State, bytes: int, largestAcked: int, now: nat, lossDelay: nat, k: nat, r: LossOutcome) {
    && k <= |h.packets| && r.Detected?
    && r.lost == LosingPackets(h.packets[..k], largestAcked, now, lossDelay)
    && r.lossTime == LossTime(h.packets[..k], largestAcked, now, lossDelay)
    && r.history == LoseAll(h, r.lost)
    && r.bytesInFlight == bytes - Total(r.lost, LENGTH)
  }

  lemma LossTimeNext(s: Slots, k: nat, largestAcked: int, now: nat, lossDelay: nat)
    requires k < |s| && lossDelay > 0 && PacketsOk(s)
    ensures var t := LossTime(s[..k], largestAcked, now, lossDelay);
            LossTime(s[..k + 1], largestAcked, now, lossDelay) ==
            if s[k].Some? && Waiting(s[k].value, largestAcked, now, lossDelay) && t == 0
              then s[k].value.sendTime + lossDelay else t
  {
    var keep := Waiter(largestAcked, now, lossDelay);
    SelectNext(s, k, keep);
    var w := WaitingPackets(s[..k], largestAcked, now, lossDelay);
    if w != [] {
      SelectMember(s[..k], keep, w[0]);
      var i :| 0 <= i < k && s[..k][i] == Some(w[0]);
      assert s[i] == Some(w[0]) && PacketOk(s[i].value);
    }
  }

  /** The slots from `k` on hold packets that the losses so far have not touched. */
  lemma StillTracked(h: State, s: Slots, k: nat, keep: Packet -> bool)
    requires Valid(h) && s == h.packets && k < |s| && s[k].Some?
    ensures From(h, Select(s[..k], keep)) && !Mentions(Select(s[..k], keep), s[k].value)
    ensures Tracks(LoseAll(h, Select(s[..k], keep)), s[k].value)
    ensures Sum(LoseAll(h, Select(s[..k], keep)).packets, LENGTH) + Total(Select(s[..k], keep), LENGTH)
            == Sum(h.packets, LENGTH)
    ensures Valid(LoseAll(h, Select(s[..k], keep)))
  {
    hide Sum, Total, LoseAll, Select;
    var lost := Select(s[..k], keep);
    SelectFrom(h, k, keep);
    assert Tracks(h, s[k].value);
    LoseAllFacts(h, lost, LENGTH);
  }

  lemma SelectFrom(h: State, k: nat, keep: Packet -> bool)
    requires Valid(h) && k <= |h.packets|
    ensures var ps := Select(h.packets[..k], keep);
            From(h, ps) && (forall i :: 0 <= i < |ps| ==> ps[i].number < First(h) + k && keep(ps[i]))
  {
    hide Select;
    var ps := Select(h.packets[..k], keep);
    SelectAscending(h.packets[..k], First(h), keep);
    forall i | 0 <= i < |ps| ensures Tracks(h, ps[i]) && keep(ps[i]) {
      SelectMember(h.packets[..k], keep, ps[i]);
      assert ps[i] in ps;
    }
  }

  lemma AppendLost(h: State, ps: seq<Packet>, p: Packet, m: Packet -> nat)
    ensures LoseAll(h, ps + [p]) == LoseOne(LoseAll(h, ps), p.number)
    ensures Total(ps + [p], m) == Total(ps, m) + m(p)
  {
    assert (ps + [p])[..|ps|] == ps;
  }

  /** One more packet is lost. */
  lemma LoseNext(h: State, bytes: int, largestAcked: int, now: nat, lossDelay: nat, k: nat, r: LossOutcome,
                 r': LossOutcome)
    requires Valid(h) && PacketsOk(h.packets) && lossDelay > 0
             && Detecting(h, bytes, largestAcked, now, lossDelay, k, r)
    requires k < |h.packets| && h.packets[k].Some? && Losing(h.packets[k].value, largestAcked, now, lossDelay)
    requires var p := h.packets[k].value;
             r' == Detected(LoseOne(r.history, p.number), r.lossTime, r.bytesInFlight - LENGTH(p), r.lost + [p])
    ensures Detecting(h, bytes, largestAcked, now, lossDelay, k + 1, r')
  {
    hide Select, LoseOne, LoseAll, Total, LossTime, LENGTH, Valid, PacketsOk;
    SelectNext(h.packets, k, Loser(largestAcked, now, lossDelay));
    LossTimeNext(h.packets, k, largestAcked, now, lossDelay);
    AppendLost(h, r.lost, h.packets[k].value, LENGTH);
  }

  /** A packet stays. */
  lemma KeepNext(h: State, bytes: int, largestAcked: int, now: nat, lossDelay: nat, k: nat, r: LossOutcome,
                 r': LossOutcome)
    requires Valid(h) && PacketsOk(h.packets) && lossDelay > 0
             && Detecting(h, bytes, largestAcked, now, lossDelay, k, r)
    requires k < |h.packets|
    requires h.packets[k].Some? ==> !Losing(h.packets[k].value, largestAcked, now, lossDelay)
    requires r' == r.(lossTime := if h.packets[k].Some? && Waiting(h.packets[k].value, largestAcked, now, lossDelay)
                                     && r.lossTime == 0
                                  then h.packets[k].value.sendTime + lossDelay else r.lossTime)
    ensures Detecting(h, bytes, largestAcked, now, lossDelay, k + 1, r')
  {
    hide Select, LoseAll, LossTime, Total;
    SelectNext(h.packets, k, Loser(largestAcked, now, lossDelay));
    LossTimeNext(h.packets, k, largestAcked, now, lossDelay);
  }

  lemma DetectDone(h: State, bytes: int, largestAcked: int, now: nat, lossDelay: nat, k: nat, r: LossOutcome)
    requires Valid(h) && Detecting(h, bytes, largestAcked, now, lossDelay, k, r)
    requires k < |h.packets| ==> largestAcked < First(h) + k
    ensures Detecting(h, bytes, largestAcked, now, lossDelay, |h.packets|, r)
  {
    hide LoseAll, Total, Select;
    SelectPrefix(h.packets, k, Loser(largestAcked, now, lossDelay));
    SelectPrefix(h.packets, k, Waiter(largestAcked, now, lossDelay));
    assert h.packets[..|h.packets|] == h.packets;
  }

  /**
    Declares packets lost and finds the time of the next loss. `bytes` counts at least the packets of
    this history, so that neither panic can happen.
   */
  method DetectLost(h: State, bytes: int, largestAcked: int, now: nat, lossDelay: nat) returns (r: LossOutcome)
    requires Valid(h) && PacketsOk(h.packets) && lossDelay > 0 && Sum(h.packets, LENGTH) <= bytes
    ensures Detecting(h, bytes, largestAcked, now, lossDelay, |h.packets|, r)
  {
    hide Valid, Sum, LoseOne, Detecting, LENGTH;
    r := Detected(h, 0, bytes, []);
    var k := 0;
    DetectStart(h, bytes, largestAcked, now, lossDelay);
    while k < |h.packets|
      invariant k <= |h.packets| && Detecting(h, bytes, largestAcked, now, lossDelay, k, r) && r.Detected?
    {
      ghost var r0 := r;
      if h.packets[k].Some? {
        var p := h.packets[k].value;
        if p.number > largestAcked {
          break;
        }
        if p.sendTime < now - lossDelay || largestAcked >= p.number + PACKET_THRESHOLD {
          EnoughBytes(h, bytes, largestAcked, now, lossDelay, k, r);
          r := r.(history := LoseOne(r.history, p.number), lost := r.lost + [p]);
          if !p.skipped {
            if p.inFlight {
              if p.length > r.bytesInFlight {
                return NegativeBytesInFlight;
              }
              r := r.(bytesInFlight := r.bytesInFlight - p.length);
            }
            if p.frames == [] {
              return NoFrames;
            }
          }
          LoseNext(h, bytes, largestAcked, now, lossDelay, k, r0, r);
          k := k + 1;
          continue;
        } else if r.lossTime == 0 {
          r := r.(lossTime := p.sendTime + lossDelay);
        }
      }
      KeepNext(h, bytes, largestAcked, now, lossDelay, k, r0, r);
      k := k + 1;
    }
    assert k < |h.packets| ==> largestAcked < First(h) + k by {
      AtSlot(h, k);
    }
    DetectDone(h, bytes, largestAcked, now, lossDelay, k, r);
  }

  lemma AtSlot(h: State, k: nat)
    requires Valid(h)
    ensures k < |h.packets| && h.packets[k].Some? ==> h.packets[k].value.number == First(h) + k
  {
  }

  lemma DetectStart(h: State, bytes: int, largestAcked: int, now: nat, lossDelay: nat)
    ensures Detecting(h, bytes, largestAcked, now, lossDelay, 0, Detected(h, 0, bytes, []))
  {
    assert h.packets[..0] == [];
  }

  lemma EnoughBytes(h: State, bytes: int, largestAcked: int, now: nat, lossDelay: nat, k: nat, r: LossOutcome)
    requires Valid(h) && PacketsOk(h.packets) && Sum(h.packets, LENGTH) <= bytes
    requires Detecting(h, bytes, largestAcked, now, lossDelay, k, r) && k < |h.packets| && h.packets[k].Some?
    ensures var p := h.packets[k].value;
            && PacketOk(p) && LENGTH(p) <= r.bytesInFlight
            && LENGTH(p) == (if !p.skipped && p.inFlight then p.length else 0)
  {
    hide Sum, Total, LoseAll, Select;
    StillTracked(h, h.packets, k, Loser(largestAcked, now, lossDelay));
    var i := TrackedAt(r.history, h.packets[k].value);
    SumMember(r.history.packets, i, LENGTH);
  }

  // ---------------------------------------------------------------------------------------------
  // What the two loops compute

  lemma AckedExactly(h: State, rs: seq<AckRange>)
    requires Valid(h)
    ensures var acked := Select(h.packets, Acking(rs));
            && Ascending(acked)
            && (forall p :: p in acked <==> Tracks(h, p) && Acks(rs, p.number))
            && From(h, acked)
            && (!AcksSkipped(h, rs) ==> forall i :: 0 <= i < |acked| ==> !acked[i].skipped)
  {
    hide Select, Acks;
    var acked := Select(h.packets, Acking(rs));
    forall p ensures p in acked <==> Tracks(h, p) && Acks(rs, p.number) {
      SelectMember(h.packets, Acking(rs), p);
    }
    assert h.packets[..|h.packets|] == h.packets;
    SelectFrom(h, |h.packets|, Acking(rs));
  }

  /** The times at which packets were sent do not decrease with their number. */
  ghost predicate InSendOrder(h: State) {
    forall p, q :: Tracks(h, p) && Tracks(h, q) && !p.skipped && !q.skipped && p.number < q.number ==>
      p.sendTime <= q.sendTime
  }

  ghost predicate IsWaiting(h: State, p: Packet, largestAcked: int, now: nat, lossDelay: nat) {
    Tracks(h, p) && Waiting(p, largestAcked, now, lossDelay)
  }

  /**
    Exactly the packets beyond a threshold are lost. The loss time is unset exactly if no other packet up
    to the largest acknowledged one remains; otherwise it is the time at which the first of them is lost.
   */
  lemma LostExactly(h: State, bytes: int, largestAcked: int, now: nat, lossDelay: nat, r: LossOutcome)
    requires Valid(h) && PacketsOk(h.packets) && lossDelay > 0
    requires Detecting(h, bytes, largestAcked, now, lossDelay, |h.packets|, r)
    ensures forall q :: Tracks(r.history, q) <==> Tracks(h, q) && !Losing(q, largestAcked, now, lossDelay)
    ensures r.lossTime == 0 <==> forall q :: Tracks(r.history, q) ==> largestAcked < q.number
    ensures r.lossTime != 0 && InSendOrder(h) && lossDelay < now ==>
              exists p :: && IsWaiting(r.history, p, largestAcked, now, lossDelay)
                          && r.lossTime == p.sendTime + lossDelay
                          && forall q :: Tracks(r.history, q) && q.number <= largestAcked ==> p.sendTime <= q.sendTime
  {
    hide Valid, LoseAll, Select, Tracks, Losing, PacketsOk;
    assert h.packets[..|h.packets|] == h.packets;
    var lost := r.lost;
    forall q ensures Tracks(r.history, q) <==> Tracks(h, q) && !Losing(q, largestAcked, now, lossDelay) {
      LostMember(h, lost, q, largestAcked, now, lossDelay);
    }
    LossTimeFirst(h, largestAcked, now, lossDelay);
    forall q ensures IsWaiting(h, q, largestAcked, now, lossDelay) <==>
             Tracks(r.history, q) && q.number <= largestAcked {
    }
    var w := WaitingPackets(h.packets, largestAcked, now, lossDelay);
    assert r.lossTime == 0 ==> forall q :: Tracks(r.history, q) ==> !IsWaiting(h, q, largestAcked, now, lossDelay);
    if r.lossTime != 0 && InSendOrder(h) && lossDelay < now {
      var p := w[0];
      forall q | Tracks(r.history, q) && q.number <= largestAcked ensures p.sendTime <= q.sendTime {
        assert IsWaiting(h, q, largestAcked, now, lossDelay);
        NotSkipped(h, q, largestAcked, now, lossDelay);
        NotSkipped(h, p, largestAcked, now, lossDelay);
        if p.number == q.number {
          SameNumber(h, p, q);
        }
      }
      assert IsWaiting(r.history, p, largestAcked, now, lossDelay);
    }
  }

  lemma LostMember(h: State, lost: seq<Packet>, q: Packet, largestAcked: int, now: nat, lossDelay: nat)
    requires Valid(h) && lost == LosingPackets(h.packets, largestAcked, now, lossDelay)
    ensures From(h, lost) && Valid(LoseAll(h, lost))
    ensures Tracks(LoseAll(h, lost), q) <==> Tracks(h, q) && !Losing(q, largestAcked, now, lossDelay)
  {
    hide Select, Sum, LoseAll;
    var keep := Loser(largestAcked, now, lossDelay);
    assert h.packets[..|h.packets|] == h.packets;
    SelectFrom(h, |h.packets|, keep);
    LoseAllFacts(h, lost, LENGTH);
    if Tracks(h, q) {
      SelectMember(h.packets, keep, q);
      if Mentions(lost, q) {
        var i :| 0 <= i < |lost| && lost[i].number == q.number;
        SameNumber(h, lost[i], q);
      }
      assert Losing(q, largestAcked, now, lossDelay) ==> Mentions(lost, q) by {
        if q in lost {
          var i :| 0 <= i < |lost| && lost[i] == q;
          assert lost[i].number == q.number;
        }
      }
    }
  }

  lemma NotSkipped(h: State, p: Packet, largestAcked: int, now: nat, lossDelay: nat)
    requires PacketsOk(h.packets) && IsWaiting(h, p, largestAcked, now, lossDelay) && lossDelay < now
    ensures !p.skipped
  {
    var i :| 0 <= i < |h.packets| && h.packets[i] == Some(p);
  }

  lemma SameNumber(h: State, p: Packet, q: Packet)
    requires Valid(h) && Tracks(h, p) && Tracks(h, q) && p.number == q.number
    ensures p == q
  {
    var i := TrackedAt(h, p);
    var k := TrackedAt(h, q);
  }

  lemma LossTimeFirst(h: State, largestAcked: int, now: nat, lossDelay: nat)
    requires Valid(h) && PacketsOk(h.packets) && lossDelay > 0
    ensures var w := WaitingPackets(h.packets, largestAcked, now, lossDelay);
            && (LossTime(h.packets, largestAcked, now, lossDelay) == 0 <==> w == [])
            && (w == [] <==> forall q :: !IsWaiting(h, q, largestAcked, now, lossDelay))
            && (w != [] ==>
                  && IsWaiting(h, w[0], largestAcked, now, lossDelay)
                  && forall q :: IsWaiting(h, q, largestAcked, now, lossDelay) ==> w[0].number <= q.number)
  {
    hide Select;
    var w := WaitingPackets(h.packets, largestAcked, now, lossDelay);
    var keep := Waiter(largestAcked, now, lossDelay);
    assert h.packets[..|h.packets|] == h.packets;
    SelectFrom(h, |h.packets|, keep);
    forall q ensures q in w <==> IsWaiting(h, q, largestAcked, now, lossDelay) {
      SelectMember(h.packets, keep, q);
    }
    if w != [] {
      assert w[0] in w && IsWaiting(h, w[0], largestAcked, now, lossDelay);
      var i := TrackedAt(h, w[0]);
      assert PacketOk(h.packets[i].value);
    }
  }
}
