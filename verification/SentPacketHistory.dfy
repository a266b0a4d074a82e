/**
  The packets of one packet number space that have been sent and not been acknowledged or declared lost:
  a slice in which the slot of a packet follows from its number, with nil in the slots of all others.
 */
module SentPacketHistory {
  import opened Common

  const INVALID_PACKET_NUMBER := -1

  datatype Level = Initial | Handshake | ZeroRTT | OneRTT

  /**
    `frames` are the ack-eliciting frames, control and STREAM frames together, by number; a packet
    number that was skipped is a packet without frames. The field declaredLost of the program is
    never set and is left out.
   */
  datatype Packet = Packet(
    number: int,
    sendTime: int,
    frames: seq<nat>,
    largestAcked: int,
    length: nat,
    level: Level,
    isPathMTUProbe: bool,
    inFlight: bool,
    skipped: bool)

  type Slots = seq<Option<Packet>>

  datatype State = State(packets: Slots, numOutstanding: int, highest: int)

  predicate Outstanding(p: Packet) {
    !p.skipped && !p.isPathMTUProbe
  }

  // ---------------------------------------------------------------------------------------------
  // Sums over the packets of a slice

  /** The sum of `m` over the packets. */
  function Sum(s: Slots, m: Packet -> nat): nat {
    if s == [] then 0 else (if s[0].Some? then m(s[0].value) else 0) + Sum(s[1..], m)
  }

  lemma {:induction false} SumConcat(a: Slots, b: Slots, m: Packet -> nat)
    ensures Sum(a + b, m) == Sum(a, m) + Sum(b, m)
  {
    if a == [] {
      assert a + b == b;
    } else {
      SumConcat(a[1..], b, m);
      assert (a + b)[1..] == a[1..] + b;
    }
  }

  lemma SumAppend(s: Slots, x: Option<Packet>, m: Packet -> nat)
    ensures Sum(s + [x], m) == Sum(s, m) + (if x.Some? then m(x.value) else 0)
  {
    SumConcat(s, [x], m);
    assert [x][1..] == [];
  }

  /** Emptying a slot takes its packet out of the sum. */
  lemma SumClear(s: Slots, i: nat, m: Packet -> nat)
    requires i < |s| && s[i].Some?
    ensures Sum(s, m) == Sum(s[i := None], m) + m(s[i].value)
  {
    var rest := s[i + 1..];
    assert s == s[..i] + [s[i]] + rest && s[i := None] == s[..i] + [None] + rest;
    SumConcat(s[..i] + [s[i]], rest, m);
    SumConcat(s[..i] + [None], rest, m);
    SumAppend(s[..i], s[i], m);
    SumAppend(s[..i], None, m);
  }

  lemma {:induction false} SumMember(s: Slots, i: nat, m: Packet -> nat)
    requires i < |s| && s[i].Some?
    ensures m(s[i].value) <= Sum(s, m)
  {
    SumClear(s, i, m);
  }

  const OUTSTANDING: Packet -> nat := p => if Outstanding(p) then 1 else 0

  /** The slot of a packet follows from its number; the first slot is not empty; the counter is right. */
  ghost predicate Valid(h: State) {
    && (forall i :: 0 <= i < |h.packets| && h.packets[i].Some? ==> h.packets[i].value.number == First(h) + i)
    && (h.packets != [] ==> h.packets[0].Some? && 0 <= First(h))
    && h.numOutstanding == Sum(h.packets, OUTSTANDING)
    && INVALID_PACKET_NUMBER <= h.highest
  }

  /** The number that belongs to the first slot. */
  function First(h: State): int {
    h.highest - |h.packets| + 1
  }

  ghost predicate Tracks(h: State, p: Packet) {
    Some(p) in h.packets
  }

  const EMPTY := State([], 0, INVALID_PACKET_NUMBER)

  // ---------------------------------------------------------------------------------------------
  // The operations on values

  /** `pn` may be used next; anything else panics. */
  predicate Sequential(h: State, pn: int) {
    h.highest == INVALID_PACKET_NUMBER || pn == h.highest + 1
  }

  function SkipNumber(h: State, pn: int): State {
    State(h.packets + [Some(SkippedPacketOf(pn))], h.numOutstanding, pn)
  }

  function SkippedPacketOf(pn: int): Packet {
    Packet(pn, 0, [], 0, 0, Initial, false, false, true)
  }

  function SendNonAckEliciting(h: State, pn: int): State {
    State(if h.packets == [] then [] else h.packets + [None], h.numOutstanding, pn)
  }

  function SendAckEliciting(h: State, p: Packet): State {
    State(h.packets + [Some(p)], h.numOutstanding + (if Outstanding(p) then 1 else 0), p.number)
  }

  /** `s` without the empty slots at its beginning. */
  function DropNones(s: Slots): Slots {
    if s != [] && s[0].None? then DropNones(s[1..]) else s
  }

  lemma {:induction false} DropNonesFacts(s: Slots)
    ensures var r := DropNones(s);
            && |r| <= |s| && r == s[|s| - |r|..]
            && (forall i :: 0 <= i < |s| - |r| ==> s[i].None?)
            && (r != [] ==> r[0].Some?)
  {
    if s != [] && s[0].None? {
      DropNonesFacts(s[1..]);
      forall i | 0 <= i < |s| - |DropNones(s)| ensures s[i].None? {
        assert i > 0 ==> s[i] == s[1..][i - 1];
      }
    }
  }

  /** Empties the slots of skipped packets right before slot `i`. */
  function ClearSkipped(s: Slots, i: nat): (r: Slots)
    requires i <= |s|
    ensures |r| == |s|
    decreases i
  {
    if i > 0 && s[i - 1].Some? && s[i - 1].value.skipped then ClearSkipped(s[i - 1 := None], i - 1) else s
  }

  lemma {:induction false} ClearSkippedFacts(s: Slots, i: nat)
    requires i <= |s|
    ensures var r := ClearSkipped(s, i);
            forall k :: 0 <= k < |s| ==> r[k] == s[k] || (k < i && r[k].None? && s[k].Some? && s[k].value.skipped)
    decreases i
  {
    if i > 0 && s[i - 1].Some? && s[i - 1].value.skipped {
      ClearSkippedFacts(s[i - 1 := None], i - 1);
    }
  }

  /** The number of `pn`'s slot, if it has one. */
  function IndexOf(h: State, pn: int): (r: Option<nat>)
    ensures r.Some? ==> r.value < |h.packets|
  {
    if First(h) <= pn <= h.highest then Some(pn - First(h)) else None
  }

  function Removed(h: State, i: nat): State
    requires i < |h.packets| && h.packets[i].Some?
  {
    State(DropNones(ClearSkipped(h.packets[i := None], i)),
          h.numOutstanding - (if Outstanding(h.packets[i].value) then 1 else 0), h.highest)
  }

  function Lost(h: State, i: nat): State
    requires i < |h.packets| && h.packets[i].Some?
  {
    State(DropNones(h.packets[i := None]),
          h.numOutstanding - (if Outstanding(h.packets[i].value) then 1 else 0), h.highest)
  }

  // ---------------------------------------------------------------------------------------------

  lemma NothingToDrop(s: Slots)
    ensures s != [] && s[0].Some? ==> DropNones(s) == s
  {
  }

  lemma {:induction false} SumDropNones(s: Slots, m: Packet -> nat)
    ensures Sum(DropNones(s), m) == Sum(s, m)
  {
    if s != [] && s[0].None? {
      SumDropNones(s[1..], m);
    }
  }

  lemma {:induction false} SumClearSkipped(s: Slots, i: nat, m: Packet -> nat)
    requires i <= |s| && forall p: Packet :: p.skipped ==> m(p) == 0
    ensures Sum(ClearSkipped(s, i), m) == Sum(s, m)
    decreases i
  {
    if i > 0 && s[i - 1].Some? && s[i - 1].value.skipped {
      SumClear(s, i - 1, m);
      SumClearSkipped(s[i - 1 := None], i - 1, m);
    }
  }

  lemma {:induction false} SumPositive(s: Slots, m: Packet -> nat) returns (i: nat)
    requires Sum(s, m) > 0
    ensures i < |s| && s[i].Some? && m(s[i].value) > 0
  {
    if s[0].Some? && m(s[0].value) > 0 {
      i := 0;
    } else {
      i := SumPositive(s[1..], m);
      i := i + 1;
    }
  }

  /** Slots emptied, and empty slots dropped at the front, leave the rest where it was. */
  lemma Shrunk(h: State, h': State, s: Slots)
    requires Valid(h) && |s| == |h.packets|
    requires forall k :: 0 <= k < |s| ==> s[k] == h.packets[k] || s[k].None?
    requires h'.packets == DropNones(s) && h'.highest == h.highest && h'.numOutstanding == Sum(s, OUTSTANDING)
    ensures Valid(h')
  {
    hide DropNones, Sum;
    SumDropNones(s, OUTSTANDING);
    DropNonesFacts(s);
    var d := |s| - |h'.packets|;
    forall i | 0 <= i < |h'.packets| && h'.packets[i].Some? ensures h'.packets[i].value.number == First(h') + i {
      assert h'.packets[i] == s[i + d];
    }
  }

  lemma RemovedValid(h: State, i: nat)
    requires Valid(h) && i < |h.packets| && h.packets[i].Some?
    ensures Valid(Removed(h, i))
  {
    var s := h.packets[i := None];
    SumClear(h.packets, i, OUTSTANDING);
    SumClearSkipped(s, i, OUTSTANDING);
    ClearSkippedFacts(s, i);
    Shrunk(h, Removed(h, i), ClearSkipped(s, i));
  }

  lemma LostValid(h: State, i: nat)
    requires Valid(h) && i < |h.packets| && h.packets[i].Some?
    ensures Valid(Lost(h, i))
  {
    SumClear(h.packets, i, OUTSTANDING);
    Shrunk(h, Lost(h, i), h.packets[i := None]);
  }

  lemma AppendValid(h: State, h': State, x: Option<Packet>, pn: int)
    requires Valid(h) && Sequential(h, pn) && 0 <= pn
    requires h'.packets == (if x.None? && h.packets == [] then [] else h.packets + [x]) && h'.highest == pn
    requires x.Some? ==> x.value.number == pn
    requires h'.numOutstanding == h.numOutstanding + (if x.Some? && Outstanding(x.value) then 1 else 0)
    ensures Valid(h')
  {
    SumAppend(h.packets, x, OUTSTANDING);
  }

  lemma IndexFacts(h: State, pn: int)
    requires Valid(h)
    ensures h.packets != [] ==> h.packets[0].Some? && h.packets[0].value.number == First(h)
    ensures IndexOf(h, pn).Some? ==>
              var x := h.packets[IndexOf(h, pn).value];
              x.Some? ==> x.value.number == pn && (Outstanding(x.value) ==> h.numOutstanding > 0)
  {
    var i := IndexOf(h, pn);
    if i.Some? && h.packets[i.value].Some? {
      SumMember(h.packets, i.value, OUTSTANDING);
    }
  }

  /** `NilPacket` is the use of an empty slot, `Panicked` one of the two explicit panics. */
  datatype RemoveResult = RemoveOk | NotFound | NilPacket | Panicked

  class History {
    var packets: Slots
    var numOutstanding: int
    var highest: int

    ghost function Contents(): State
      reads this
    {
      State(packets, numOutstanding, highest)
    }

    constructor ()
      ensures Contents() == EMPTY && Valid(Contents())
    {
      packets, numOutstanding, highest := [], 0, INVALID_PACKET_NUMBER;
    }

    method SkippedPacket(pn: int) returns (panicked: bool)
      requires Valid(Contents()) && 0 <= pn
      modifies this
      ensures panicked <==> !Sequential(old(Contents()), pn)
      ensures Contents() == if panicked then old(Contents()) else SkipNumber(old(Contents()), pn)
      ensures Valid(Contents())
    {
      if highest != INVALID_PACKET_NUMBER && pn != highest + 1 {
        return true;
      }
      ghost var h := Contents();
      highest := pn;
      packets := packets + [Some(SkippedPacketOf(pn))];
      AppendValid(h, Contents(), Some(SkippedPacketOf(pn)), pn);
      return false;
    }

    method SentNonAckElicitingPacket(pn: int) returns (panicked: bool)
      requires Valid(Contents()) && 0 <= pn
      modifies this
      ensures panicked <==> !Sequential(old(Contents()), pn)
      ensures Contents() == if panicked then old(Contents()) else SendNonAckEliciting(old(Contents()), pn)
      ensures Valid(Contents())
    {
      if highest != INVALID_PACKET_NUMBER && pn != highest + 1 {
        return true;
      }
      ghost var h := Contents();
      highest := pn;
      if |packets| > 0 {
        packets := packets + [None];
      }
      AppendValid(h, Contents(), None, pn);
      return false;
    }

    method SentAckElicitingPacket(p: Packet) returns (panicked: bool)
      requires Valid(Contents()) && 0 <= p.number
      modifies this
      ensures panicked <==> !Sequential(old(Contents()), p.number)
      ensures Contents() == if panicked then old(Contents()) else SendAckEliciting(old(Contents()), p)
      ensures Valid(Contents())
    {
      if highest != INVALID_PACKET_NUMBER && p.number != highest + 1 {
        return true;
      }
      ghost var h := Contents();
      highest := p.number;
      packets := packets + [Some(p)];
      if Outstanding(p) {
        numOutstanding := numOutstanding + 1;
      }
      AppendValid(h, Contents(), Some(p), p.number);
      return false;
    }

    /** The outstanding packet with the lowest number. */
    method FirstOutstanding() returns (p: Option<Packet>)
      requires Valid(Contents())
      ensures p.None? <==> forall q :: Tracks(Contents(), q) ==> !Outstanding(q)
      ensures p.Some? ==> Tracks(Contents(), p.value) && Outstanding(p.value)
      ensures p.Some? ==> forall q :: Tracks(Contents(), q) && Outstanding(q) ==> p.value.number <= q.number
    {
      if numOutstanding <= 0 {
        forall q | Tracks(Contents(), q) ensures !Outstanding(q) {
          var i :| 0 <= i < |packets| && packets[i] == Some(q);
          SumMember(packets, i, OUTSTANDING);
        }
        return None;
      }
      var i := 0;
      while i < |packets|
        invariant 0 <= i <= |packets|
        invariant forall k :: 0 <= k < i && packets[k].Some? ==> !Outstanding(packets[k].value)
      {
        if packets[i].Some? && Outstanding(packets[i].value) {
          forall q | Tracks(Contents(), q) && Outstanding(q) ensures packets[i].value.number <= q.number {
            var k :| 0 <= k < |packets| && packets[k] == Some(q);
          }
          return packets[i];
        }
        i := i + 1;
      }
      return None;
    }

    function GetIndex(pn: int): (r: Option<nat>)
      requires packets != [] ==> packets[0].Some?
      reads this
    {
      if |packets| == 0 then None
      else if pn < packets[0].value.number then None
      else if pn - packets[0].value.number > |packets| - 1 then None
      else Some(pn - packets[0].value.number)
    }

    /** Deletes the empty slots at the beginning. */
    method CleanupStart()
      modifies this`packets
      ensures packets == DropNones(old(packets))
    {
      var i := 0;
      while i < |packets|
        invariant 0 <= i <= |packets|
        invariant DropNones(packets) == DropNones(packets[i..])
      {
        if packets[i].Some? {
          packets := packets[i..];
          return;
        }
        assert packets[i..][1..] == packets[i + 1..];
        i := i + 1;
      }
      packets := [];
    }

    /** Cleans up the skipped packets directly before slot `i`, and gives the slot where it stopped. */
    method ClearSkippedBefore(i: nat) returns (idx: nat)
      requires i < |packets|
      modifies this`packets
      ensures packets == ClearSkipped(old(packets), i)
      ensures idx <= i && (idx > 0 ==> packets[0] == old(packets)[0])
    {
      ghost var s := packets;
      idx := i;
      while idx > 0
        invariant idx <= i && |packets| == |s|
        invariant ClearSkipped(s, i) == ClearSkipped(packets, idx)
        invariant idx > 0 ==> packets[0] == s[0]
      {
        idx := idx - 1;
        if packets[idx].None? || !packets[idx].value.skipped {
          assert ClearSkipped(packets, idx + 1) == packets;
          return;
        }
        packets := packets[idx := None];
      }
    }

    /** Empties a slot and cleans up before it; the first slot is not empty then. */
    method EmptySlot(i: nat)
      requires i < |packets| && packets[0].Some?
      modifies `packets
      ensures packets == DropNones(ClearSkipped(old(packets)[i := None], i)) && (packets != [] ==> packets[0].Some?)
    {
      hide DropNones, ClearSkipped;
      packets := packets[i := None];
      var idx := ClearSkippedBefore(i);
      NothingToDrop(packets);
      DropNonesFacts(packets);
      if idx == 0 {
        CleanupStart();
      }
    }

    method Remove(pn: int) returns (r: RemoveResult)
      requires Valid(Contents())
      modifies this
      ensures Valid(Contents()) && !r.Panicked?
      ensures var i := IndexOf(old(Contents()), pn);
              && (i.None? <==> r.NotFound?)
              && (i.Some? ==> (old(packets)[i.value].None? <==> r.NilPacket?))
              && Contents() == if r.RemoveOk? then Removed(old(Contents()), i.value) else old(Contents())
    {
      hide Valid, Sum, ClearSkipped, DropNones;
      ghost var h := Contents();
      IndexFacts(h, pn);
      var index := GetIndex(pn);
      if index.None? {
        return NotFound;
      }
      var idx := index.value;
      if packets[idx].None? {
        return NilPacket;
      }
      RemovedValid(h, idx);
      if Outstanding(packets[idx].value) {
        numOutstanding := numOutstanding - 1;
        if numOutstanding < 0 {
          return Panicked;
        }
      }
      EmptySlot(idx);
      if |packets| > 0 && packets[0].None? {
        return Panicked;
      }
      return RemoveOk;
    }

    method DeclareLost(pn: int) returns (r: RemoveResult)
      requires Valid(Contents())
      modifies this
      ensures Valid(Contents()) && !r.Panicked?
      ensures var i := IndexOf(old(Contents()), pn);
              && (i.None? <==> r.NotFound?)
              && (i.Some? ==> (old(packets)[i.value].None? <==> r.NilPacket?))
              && Contents() == if r.RemoveOk? then Lost(old(Contents()), i.value) else old(Contents())
    {
      hide Valid, Sum, DropNones;
      ghost var h := Contents();
      IndexFacts(h, pn);
      var index := GetIndex(pn);
      if index.None? {
        return NotFound;
      }
      var idx := index.value;
      if packets[idx].None? {
        return NilPacket;
      }
      LostValid(h, idx);
      if Outstanding(packets[idx].value) {
        numOutstanding := numOutstanding - 1;
        if numOutstanding < 0 {
          return Panicked;
        }
      }
      packets := packets[idx := None];
      NothingToDrop(packets);
      if idx == 0 {
        CleanupStart();
      }
      return RemoveOk;
    }
  }
}
