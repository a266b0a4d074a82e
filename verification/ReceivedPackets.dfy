/** The packet numbers that were received, as a short list of intervals. */
module ReceivedPackets {
  import opened Common
  import LR = LossRecovery

  const MAX_NUM_ACK_RANGES := 32

  datatype Interval = Interval(start: nat, end: nat)

  /** Intervals in ascending order that neither overlap nor touch. */
  ghost predicate RangesOk(s: seq<Interval>) {
    && (forall i :: 0 <= i < |s| ==> s[i].start <= s[i].end)
    && (forall i, j :: 0 <= i < j < |s| ==> s[i].end + 1 < s[j].start)
  }

  predicate Covers(x: Interval, q: nat) {
    x.start <= q <= x.end
  }

  predicate Contains(s: seq<Interval>, q: nat) {
    exists i :: 0 <= i < |s| && Covers(s[i], q)
  }

  /** `received` are all numbers that were registered, and `dropped` those given up to keep the list short. */
  datatype State = State(ranges: seq<Interval>, deletedBelow: nat, received: set<nat>, dropped: set<nat>)

  const START := State([], 0, {}, {})

  /** The list denotes exactly the received numbers from `deletedBelow` on that were not dropped. */
  ghost predicate Valid(h: State) {
    && RangesOk(h.ranges) && |h.ranges| <= MAX_NUM_ACK_RANGES
    && (forall q: nat :: Contains(h.ranges, q) <==> q in h.received && h.deletedBelow <= q && q !in h.dropped)
  }

  // ---------------------------------------------------------------------------------------------
  // Lists of intervals

  ghost predicate AddSpec(s: seq<Interval>, s': seq<Interval>, p: nat) {
    RangesOk(s') && forall q: nat :: Contains(s', q) <==> Contains(s, q) || q == p
  }

  /** `s'` is `s` with interval `i` replaced. */
  lemma Replaced(s: seq<Interval>, i: nat, x: Interval, q: nat)
    requires i < |s|
    ensures Contains(s[i := x], q) || Covers(s[i], q) <==> Contains(s, q) || Covers(x, q)
  {
    var s' := s[i := x];
    assert s'[i] == x;
    if Contains(s, q) {
      var k :| 0 <= k < |s| && Covers(s[k], q);
      assert k != i ==> Covers(s'[k], q);
    }
    if Contains(s', q) {
      var k :| 0 <= k < |s'| && Covers(s'[k], q);
      assert k != i ==> Covers(s[k], q);
    }
  }

  lemma Inserted(s: seq<Interval>, i: nat, x: Interval, q: nat)
    requires i <= |s|
    ensures Contains(InsertAt(s, i, x), q) <==> Contains(s, q) || Covers(x, q)
  {
    var s' := InsertAt(s, i, x);
    assert s'[i] == x;
    if Contains(s, q) {
      var k :| 0 <= k < |s| && Covers(s[k], q);
      assert Covers(s'[if k < i then k else k + 1], q);
    }
    if Contains(s', q) {
      var k :| 0 <= k < |s'| && Covers(s'[k], q);
      assert k < i ==> Covers(s[k], q);
      assert k > i ==> Covers(s[k - 1], q);
    }
  }

  lemma RemovedFrom(s: seq<Interval>, i: nat, q: nat)
    requires i < |s|
    ensures Contains(RemoveAt(s, i), q) || Covers(s[i], q) <==> Contains(s, q)
  {
    var s' := RemoveAt(s, i);
    if Contains(s, q) {
      var k :| 0 <= k < |s| && Covers(s[k], q);
      assert k < i ==> Covers(s'[k], q);
      assert k > i ==> Covers(s'[k - 1], q);
    }
    if Contains(s', q) {
      var k :| 0 <= k < |s'| && Covers(s'[k], q);
      assert Covers(s[if k < i then k else k + 1], q);
    }
  }

  /** All intervals from `i` on lie beyond the number that follows `p`. */
  ghost predicate BeyondFrom(s: seq<Interval>, i: nat, p: nat) {
    forall j :: i <= j < |s| ==> p + 1 < s[j].start
  }

  /** An interval may be replaced by one that keeps its distance to its neighbours. */
  lemma ReplacedOk(s: seq<Interval>, i: nat, x: Interval)
    requires RangesOk(s) && i < |s| && x.start <= x.end
    requires forall k :: 0 <= k < i ==> s[k].end + 1 < x.start
    requires forall k :: i < k < |s| ==> x.end + 1 < s[k].start
    ensures RangesOk(s[i := x])
  {
    var t := s[i := x];
    forall j, k | 0 <= j < k < |t| ensures t[j].end + 1 < t[k].start {
      assert s[j].end + 1 < s[k].start;
    }
  }

  lemma InsertedOk(s: seq<Interval>, i: nat, x: Interval)
    requires RangesOk(s) && i <= |s| && x.start <= x.end
    requires forall k :: 0 <= k < i ==> s[k].end + 1 < x.start
    requires forall k :: i <= k < |s| ==> x.end + 1 < s[k].start
    ensures RangesOk(InsertAt(s, i, x))
  {
    var t := InsertAt(s, i, x);
    forall j, k | 0 <= j < k < |t| ensures t[j].end + 1 < t[k].start {
      var j', k' := if j < i then j else j - 1, if k < i then k else k - 1;
      assert j != i ==> t[j] == s[j'];
      assert k != i ==> t[k] == s[k'];
      assert j != i && k != i ==> s[j'].end + 1 < s[k'].start;
    }
  }

  lemma RemovedOk(s: seq<Interval>, i: nat)
    requires i < |s| && (forall k :: 0 <= k < |s| ==> s[k].start <= s[k].end)
    requires forall j, k :: 0 <= j < k < |s| && j != i && k != i ==> s[j].end + 1 < s[k].start
    ensures RangesOk(RemoveAt(s, i))
  {
    var t := RemoveAt(s, i);
    forall j, k | 0 <= j < k < |t| ensures t[j].end + 1 < t[k].start {
      var j', k' := if j < i then j else j + 1, if k < i then k else k + 1;
      assert t[j] == s[j'] && t[k] == s[k'];
      assert s[j'].end + 1 < s[k'].start;
    }
  }

  lemma NotIn(s: seq<Interval>, i: nat, p: nat)
    requires RangesOk(s) && i <= |s| && (i > 0 ==> s[i - 1].end < p) && (i < |s| ==> p < s[i].start)
    ensures !Contains(s, p)
  {
    forall k | 0 <= k < |s| ensures !Covers(s[k], p) {
      assert k < i - 1 ==> s[k].end + 1 < s[i - 1].start;
      assert k > i ==> s[i].end + 1 < s[k].start;
    }
  }

  lemma ExtendEnd(s: seq<Interval>, i: nat, p: nat)
    requires RangesOk(s) && i < |s| && BeyondFrom(s, i + 1, p) && s[i].end + 1 == p
    ensures AddSpec(s, s[i := Interval(s[i].start, p)], p) && !Contains(s, p)
  {
    hide Contains;
    var x := Interval(s[i].start, p);
    ReplacedOk(s, i, x);
    NotIn(s, i + 1, p);
    forall q: nat ensures Contains(s[i := x], q) <==> Contains(s, q) || q == p {
      Replaced(s, i, x, q);
      InAt(s, i, q);
      InAt(s[i := x], i, q);
    }
  }

  lemma InAt(s: seq<Interval>, i: nat, q: nat)
    requires i < |s|
    ensures Covers(s[i], q) ==> Contains(s, q)
  {
  }

  lemma ExtendStart(s: seq<Interval>, i: nat, p: nat)
    requires RangesOk(s) && i < |s| && s[i].start == p + 1 && (i > 0 ==> s[i - 1].end + 1 < p)
    ensures AddSpec(s, s[i := Interval(p, s[i].end)], p) && !Contains(s, p)
  {
    hide Contains;
    var x := Interval(p, s[i].end);
    forall k | 0 <= k < i ensures s[k].end + 1 < p {
      assert k < i - 1 ==> s[k].end + 1 < s[i - 1].start;
    }
    ReplacedOk(s, i, x);
    NotIn(s, i, p);
    forall q: nat ensures Contains(s[i := x], q) <==> Contains(s, q) || q == p {
      Replaced(s, i, x, q);
      InAt(s, i, q);
      InAt(s[i := x], i, q);
    }
  }

  /** The number fills the gap between two intervals. */
  lemma Merge(s: seq<Interval>, i: nat, p: nat)
    requires RangesOk(s) && 0 < i < |s| && s[i].start == p + 1 && s[i - 1].end + 1 == p
    ensures AddSpec(s, RemoveAt(s[i - 1 := Interval(s[i - 1].start, s[i].end)], i), p) && !Contains(s, p)
  {
    hide Contains;
    var x := Interval(s[i - 1].start, s[i].end);
    var t := s[i - 1 := x];
    NotIn(s, i, p);
    forall j, k | 0 <= j < k < |t| && j != i && k != i ensures t[j].end + 1 < t[k].start {
      assert s[j].end + 1 < s[k].start;
      assert j == i - 1 ==> s[i].end + 1 < s[k].start;
    }
    RemovedOk(t, i);
    forall q: nat ensures Contains(RemoveAt(t, i), q) <==> Contains(s, q) || q == p {
      Replaced(s, i - 1, x, q);
      RemovedFrom(t, i, q);
      InAt(s, i - 1, q);
      InAt(s, i, q);
      InAt(RemoveAt(t, i), i - 1, q);
    }
  }

  lemma NewInterval(s: seq<Interval>, i: nat, p: nat)
    requires RangesOk(s) && i <= |s| && BeyondFrom(s, i, p) && (i > 0 ==> s[i - 1].end + 1 < p)
    ensures AddSpec(s, InsertAt(s, i, Interval(p, p)), p) && !Contains(s, p)
  {
    hide Contains;
    forall k | 0 <= k < i ensures s[k].end + 1 < p {
      assert k < i - 1 ==> s[k].end + 1 < s[i - 1].start;
    }
    InsertedOk(s, i, Interval(p, p));
    NotIn(s, i, p);
    forall q: nat ensures Contains(InsertAt(s, i, Interval(p, p)), q) <==> Contains(s, q) || q == p {
      Inserted(s, i, Interval(p, p), q);
    }
  }

  /** The list is determined by the numbers in it. */
  lemma {:induction false} Canonical(s: seq<Interval>, t: seq<Interval>)
    requires RangesOk(s) && RangesOk(t) && forall q: nat :: Contains(s, q) <==> Contains(t, q)
    ensures s == t
  {
    hide Contains;
    StartIn(s);
    StartIn(t);
    NothingIn();
    if s != [] && t != [] {
      FirstInterval(s, t);
      FirstInterval(t, s);
      assert s[0] == t[0];
      forall q: nat ensures Contains(s[1..], q) <==> Contains(t[1..], q) {
        TailContains(s, q);
        TailContains(t, q);
      }
      Canonical(s[1..], t[1..]);
    }
  }

  lemma TailContains(s: seq<Interval>, q: nat)
    requires RangesOk(s) && s != []
    ensures Contains(s[1..], q) <==> Contains(s, q) && s[0].end < q
  {
    var t := s[1..];
    if Contains(s, q) && s[0].end < q {
      var k :| 0 <= k < |s| && Covers(s[k], q);
      assert Covers(t[k - 1], q);
    }
    if Contains(t, q) {
      var k :| 0 <= k < |t| && Covers(t[k], q);
      assert Covers(s[k + 1], q);
    }
  }

  /** The first interval of one list starts no earlier, and while it starts at the same place ends no later. */
  lemma FirstInterval(s: seq<Interval>, t: seq<Interval>)
    requires RangesOk(s) && RangesOk(t) && s != [] && t != []
    requires forall q: nat :: Contains(s, q) ==> Contains(t, q)
    ensures t[0].start <= s[0].start && (t[0].start == s[0].start ==> s[0].end <= t[0].end)
  {
    hide Contains;
    StartIn(s);
    StartsAt(t, s[0].start);
    InAt(s, 0, t[0].end + 1);
    EndNotIn(t);
  }

  lemma StartIn(s: seq<Interval>)
    requires RangesOk(s)
    ensures s != [] ==> Contains(s, s[0].start)
  {
    assert s != [] ==> Covers(s[0], s[0].start);
  }

  lemma StartsAt(s: seq<Interval>, q: nat)
    requires RangesOk(s)
    ensures Contains(s, q) ==> s[0].start <= q
  {
  }

  lemma EndNotIn(s: seq<Interval>)
    requires RangesOk(s) && s != []
    ensures !Contains(s, s[0].end + 1)
  {
  }

  // ---------------------------------------------------------------------------------------------
  // The operations

  predicate Duplicate(h: State, p: nat) {
    p < h.deletedBelow || Contains(h.ranges, p)
  }

  /** What is listed after a number was registered: everything from `cut` on. */
  ghost predicate KeepsFrom(h: State, h': State, p: nat, cut: nat) {
    forall q: nat :: Contains(h'.ranges, q) <==> (Contains(h.ranges, q) || q == p) && cut <= q
  }

  /** Numbers are given up only to keep the list short, and the lowest ones. */
  ghost predicate ReceiveSpec(h: State, h': State, p: nat, isNew: bool) {
    && h'.deletedBelow == h.deletedBelow && h'.received == h.received + {p}
    && (isNew <==> !Duplicate(h, p))
    && (!isNew ==> h'.ranges == h.ranges && h'.dropped == h.dropped)
    && (isNew ==> exists cut: nat :: Registers(h, h', p, cut))
  }

  /** The number is added and everything below `cut` is given up, which is nothing unless the list is full. */
  ghost predicate Registers(h: State, h': State, p: nat, cut: nat) {
    && RangesOk(h'.ranges) && |h'.ranges| <= MAX_NUM_ACK_RANGES
    && KeepsFrom(h, h', p, cut) && (cut == 0 || |h'.ranges| == MAX_NUM_ACK_RANGES)
    && h'.dropped == DroppedBy(h, p, cut)
  }

  ghost function DroppedBy(h: State, p: nat, cut: nat): set<nat> {
    (set q | q in h.received + {p} && h.deletedBelow <= q < cut) + (h.dropped - {p})
  }

  ghost predicate DeleteSpec(h: State, h': State, p: nat) {
    && h'.received == h.received && h'.deletedBelow == Max(h.deletedBelow, p) && h'.dropped == h.dropped
    && RangesOk(h'.ranges) && |h'.ranges| <= MAX_NUM_ACK_RANGES
    && (forall q: nat :: Contains(h'.ranges, q) <==> Contains(h.ranges, q) && p <= q)
  }

  /** A suffix of the list holds the numbers from its first one on. */
  lemma SuffixContains(s: seq<Interval>, k: nat, q: nat)
    requires RangesOk(s) && k < |s|
    ensures Contains(s[k..], q) <==> Contains(s, q) && s[k].start <= q
  {
    var t := s[k..];
    if Contains(s, q) && s[k].start <= q {
      var i :| 0 <= i < |s| && Covers(s[i], q);
      assert k <= i;
      assert t[i - k] == s[i];
    }
    if Contains(t, q) {
      var i :| 0 <= i < |t| && Covers(t[i], q);
      assert Covers(s[i + k], q);
    }
  }

  lemma SuffixOk(s: seq<Interval>, k: nat)
    requires RangesOk(s) && k <= |s|
    ensures RangesOk(s[k..])
  {
  }

  /** The intervals from the highest to the lowest. */
  function AckRangesOf(s: seq<Interval>): (r: seq<LR.AckRange>)
    ensures |r| == |s|
  {
    seq(|s|, i requires 0 <= i < |s| => LR.AckRange(s[|s| - 1 - i].start, s[|s| - 1 - i].end))
  }

  function HighestOf(s: seq<Interval>): LR.AckRange
    requires s != []
  {
    LR.AckRange(s[|s| - 1].start, s[|s| - 1].end)
  }

  class History {
    var ranges: seq<Interval>
    var deletedBelow: nat
    ghost var received: set<nat>
    ghost var dropped: set<nat>

    ghost function Contents(): State
      reads this
    {
      State(ranges, deletedBelow, received, dropped)
    }

    constructor ()
      ensures Contents() == START && Valid(Contents())
    {
      ranges, deletedBelow, received, dropped := [], 0, {}, {};
    }

    /** Adds a number to the list; from the back, as most packets arrive in order. */
    method AddToRanges(p: nat) returns (isNew: bool)
      requires RangesOk(ranges)
      modifies `ranges
      ensures AddSpec(old(ranges), ranges, p) && (isNew <==> !Contains(old(ranges), p))
      ensures |ranges| <= |old(ranges)| + 1 && (!isNew ==> ranges == old(ranges))
    {
      hide AddSpec, Contains;
      if |ranges| == 0 {
        NewInterval(ranges, 0, p);
        ranges := InsertAt(ranges, 0, Interval(p, p));
        return true;
      }
      var i := |ranges|;
      while i > 0
        invariant 0 <= i <= |ranges| && ranges == old(ranges) && BeyondFrom(ranges, i, p)
      {
        i := i - 1;
        var el := ranges[i];
        if el.start <= p <= el.end {
          AlreadyIn(ranges, i, p);
          return false;
        }
        if el.end == p - 1 {
          ExtendEnd(ranges, i, p);
          ranges := ranges[i := Interval(el.start, p)];
          return true;
        }
        if el.start == p + 1 {
          if i > 0 && ranges[i - 1].end + 1 == p {
            Merge(ranges, i, p);
            ranges := RemoveAt(ranges[i - 1 := Interval(ranges[i - 1].start, el.end)], i);
          } else {
            ExtendStart(ranges, i, p);
            ranges := ranges[i := Interval(p, el.end)];
          }
          return true;
        }
        if p > el.end {
          NewInterval(ranges, i + 1, p);
          ranges := InsertAt(ranges, i + 1, Interval(p, p));
          return true;
        }
      }
      NewInterval(ranges, 0, p);
      ranges := InsertAt(ranges, 0, Interval(p, p));
      return true;
    }

    method MaybeDeleteOldRanges()
      modifies `ranges
      ensures ranges == old(ranges)[Max(0, |old(ranges)| - MAX_NUM_ACK_RANGES)..]
    {
      ghost var k := 0;
      while |ranges| > MAX_NUM_ACK_RANGES
        invariant k <= |old(ranges)| && ranges == old(ranges)[k..] && (k == 0 || |ranges| >= MAX_NUM_ACK_RANGES)
        decreases |ranges|
      {
        ranges := ranges[1..];
        k := k + 1;
      }
    }

    method ReceivedPacket(p: nat) returns (isNew: bool)
      requires Valid(Contents())
      modifies this
      ensures ReceiveSpec(old(Contents()), Contents(), p, isNew) && Valid(Contents())
    {
      hide Contains, RangesOk;
      ghost var h := Contents();
      received := received + {p};
      if p < deletedBelow {
        return false;
      }
      isNew := AddToRanges(p);
      ghost var all := ranges;
      MaybeDeleteOldRanges();
      if isNew {
        dropped := DroppedBy(h, p, CutOf(all));
        CutKeeps(h, Contents(), all, p);
        Registered(h, Contents(), p, CutOf(all));
      } else {
        assert ranges == h.ranges;
      }
    }

    /** Deletes all entries below `p`. */
    method DeleteBelow(p: nat)
      requires Valid(Contents())
      modifies this
      ensures DeleteSpec(old(Contents()), Contents(), p) && Valid(Contents())
    {
      hide Contains, RangesOk;
      ghost var h := Contents();
      if p < deletedBelow {
        NothingBelow(h, p);
        return;
      }
      deletedBelow := p;
      while ranges != []
        modifies `ranges
        invariant RangesOk(ranges) && |ranges| <= |h.ranges|
        invariant forall q: nat :: p <= q ==> (Contains(ranges, q) <==> Contains(h.ranges, q))
        decreases |ranges|
      {
        if ranges[0].end < p {
          DropFirst(ranges, p);
          ranges := ranges[1..];
        } else {
          if p > ranges[0].start && p <= ranges[0].end {
            CutFirst(ranges, p);
            ranges := ranges[0 := Interval(p, ranges[0].end)];
          } else {
            StartsFrom(ranges, p);
          }
          return;
        }
      }
      NothingIn();
    }

    /** Appends the list as ranges of an ACK frame. */
    method AppendAckRanges(acks: seq<LR.AckRange>) returns (r: seq<LR.AckRange>)
      ensures r == acks + AckRangesOf(ranges)
    {
      r := acks;
      var i := |ranges|;
      while i > 0
        invariant 0 <= i <= |ranges| && |r| == |acks| + |ranges| - i && r[..|acks|] == acks
        invariant forall k :: 0 <= k < |ranges| - i ==> r[|acks| + k] == AckRangesOf(ranges)[k]
      {
        i := i - 1;
        r := r + [LR.AckRange(ranges[i].start, ranges[i].end)];
      }
    }

    method GetHighestAckRange() returns (r: LR.AckRange)
      requires Valid(Contents())
      ensures ranges == [] ==> r == LR.AckRange(0, 0)
      ensures ranges != [] ==> r == HighestOf(ranges)
      ensures ranges != [] ==>
                0 <= r.smallest <= r.largest && (forall q: nat :: r.smallest <= q <= r.largest ==> Contains(ranges, q))
      ensures ranges != [] ==> forall q: nat :: Contains(ranges, q) ==> q <= r.largest
      ensures ranges != [] ==> forall q: nat :: q + 1 == r.smallest ==> !Contains(ranges, q)
    {
      if ranges == [] {
        return LR.AckRange(0, 0);
      }
      var x := ranges[|ranges| - 1];
      forall q: nat | x.start <= q <= x.end ensures Contains(ranges, q) {
        assert Covers(ranges[|ranges| - 1], q);
      }
      return LR.AckRange(x.start, x.end);
    }

    method IsPotentiallyDuplicate(p: nat) returns (dup: bool)
      requires Valid(Contents())
      ensures dup <==> Duplicate(Contents(), p)
    {
      if p < deletedBelow {
        return true;
      }
      var i := |ranges|;
      while i > 0
        invariant 0 <= i <= |ranges| && forall j :: i <= j < |ranges| ==> p < ranges[j].start
      {
        i := i - 1;
        if p > ranges[i].end {
          return false;
        }
        if p <= ranges[i].end && p >= ranges[i].start {
          assert Covers(ranges[i], p);
          return true;
        }
      }
      return false;
    }
  }

  // ---------------------------------------------------------------------------------------------

  lemma AlreadyIn(s: seq<Interval>, i: nat, p: nat)
    requires RangesOk(s) && i < |s| && Covers(s[i], p)
    ensures AddSpec(s, s, p) && Contains(s, p)
  {
  }

  /** Where the list is cut off. */
  ghost function CutOf(all: seq<Interval>): nat {
    if |all| <= MAX_NUM_ACK_RANGES then 0 else all[|all| - MAX_NUM_ACK_RANGES].start
  }

  lemma NothingIn()
    ensures RangesOk([]) && forall q: nat :: !Contains([], q)
  {
  }

  lemma DropFirst(s: seq<Interval>, p: nat)
    requires RangesOk(s) && s != [] && s[0].end < p
    ensures RangesOk(s[1..]) && forall q: nat :: p <= q ==> (Contains(s[1..], q) <==> Contains(s, q))
  {
    forall q: nat | p <= q ensures Contains(s[1..], q) <==> Contains(s, q) {
      TailContains(s, q);
    }
  }

  lemma CutFirst(s: seq<Interval>, p: nat)
    requires RangesOk(s) && s != [] && s[0].start < p <= s[0].end
    ensures var t := s[0 := Interval(p, s[0].end)];
            RangesOk(t) && (forall q: nat :: Contains(t, q) <==> Contains(s, q) && p <= q)
  {
    var t := s[0 := Interval(p, s[0].end)];
    forall q: nat ensures Contains(t, q) <==> Contains(s, q) && p <= q {
      if Contains(s, q) && p <= q {
        var k :| 0 <= k < |s| && Covers(s[k], q);
        assert Covers(t[k], q);
      }
      if Contains(t, q) {
        var k :| 0 <= k < |t| && Covers(t[k], q);
        assert Covers(s[k], q);
      }
    }
  }

  lemma StartsFrom(s: seq<Interval>, p: nat)
    requires RangesOk(s) && s != [] && p <= s[0].start
    ensures forall q: nat :: Contains(s, q) ==> p <= q
  {
  }

  lemma NothingBelow(h: State, p: nat)
    requires Valid(h) && p < h.deletedBelow
    ensures DeleteSpec(h, h, p)
  {
  }

  lemma DescendingValid(s: seq<Interval>)
    requires RangesOk(s) && s != []
    ensures LR.ValidRanges(AckRangesOf(s)) && forall i :: 0 <= i < |s| ==> 0 <= AckRangesOf(s)[i].smallest
  {
    var r, n := AckRangesOf(s), |s| - 1;
    forall i, j | 0 <= i < j < |r| ensures r[j].largest + 1 < r[i].smallest {
      assert s[n - j].end + 1 < s[n - i].start;
    }
    forall i | 0 <= i < |r| ensures 0 <= r[i].smallest <= r[i].largest {
      assert s[n - i].start <= s[n - i].end;
    }
  }

  lemma SameNumber(s: seq<Interval>, q: nat)
    ensures LR.Acks(AckRangesOf(s), q) <==> Contains(s, q)
  {
    var r := AckRangesOf(s);
    if Contains(s, q) {
      var k :| 0 <= k < |s| && Covers(s[k], q);
      assert r[|s| - 1 - k].smallest <= q <= r[|s| - 1 - k].largest;
    }
    if LR.Acks(r, q) {
      var k :| 0 <= k < |r| && r[k].smallest <= q <= r[k].largest;
      assert Covers(s[|s| - 1 - k], q);
    }
  }

  /** The ranges of an ACK frame acknowledge the same numbers, in descending order. */
  lemma SameNumbers(s: seq<Interval>)
    requires RangesOk(s) && s != []
    ensures LR.ValidRanges(AckRangesOf(s)) && forall i :: 0 <= i < |s| ==> 0 <= AckRangesOf(s)[i].smallest
    ensures forall q: nat :: LR.Acks(AckRangesOf(s), q) <==> Contains(s, q)
  {
    hide RangesOk, LR.ValidRanges, LR.Acks, Contains;
    DescendingValid(s);
    forall q: nat ensures LR.Acks(AckRangesOf(s), q) <==> Contains(s, q) {
      SameNumber(s, q);
    }
  }

  /** The list is cut to the last intervals. */
  lemma CutKeeps(h: State, h': State, all: seq<Interval>, p: nat)
    requires AddSpec(h.ranges, all, p) && h'.ranges == all[Max(0, |all| - MAX_NUM_ACK_RANGES)..]
    ensures KeepsFrom(h, h', p, CutOf(all)) && RangesOk(h'.ranges) && |h'.ranges| <= MAX_NUM_ACK_RANGES
    ensures CutOf(all) == 0 || |h'.ranges| == MAX_NUM_ACK_RANGES
  {
    hide Contains, RangesOk;
    var k := |all| - MAX_NUM_ACK_RANGES;
    if k > 0 {
      SuffixOk(all, k);
      forall q: nat ensures Contains(h'.ranges, q) <==> (Contains(h.ranges, q) || q == p) && CutOf(all) <= q {
        SuffixContains(all, k, q);
      }
    } else {
      assert h'.ranges == all;
    }
  }

  /** After a number is registered and the list cut. */
  lemma Registered(h: State, h': State, p: nat, cut: nat)
    requires Valid(h) && h.deletedBelow <= p && !Contains(h.ranges, p)
    requires h'.deletedBelow == h.deletedBelow && h'.received == h.received + {p}
    requires Registers(h, h', p, cut)
    ensures ReceiveSpec(h, h', p, true) && Valid(h')
  {
    hide Contains, RangesOk;
  }

  // ---------------------------------------------------------------------------------------------
  // Runs

  datatype Event = Receive(p: nat, isNew: bool) | Delete(p: nat)

  ghost predicate Step(h: State, e: Event, h': State) {
    match e
    case Receive(p, isNew) => ReceiveSpec(h, h', p, isNew)
    case Delete(p) => DeleteSpec(h, h', p)
  }

  ghost predicate IsRun(hs: seq<State>, es: seq<Event>) {
    && |hs| == |es| + 1 && hs[0] == START
    && forall i :: 0 <= i < |es| ==> Step(hs[i], es[i], hs[i + 1])
  }

  lemma StepKeeps(h: State, e: Event, h': State)
    requires Valid(h) && Step(h, e, h')
    ensures Valid(h') && h.deletedBelow <= h'.deletedBelow
  {
    hide Contains, RangesOk;
    if e.Receive? && e.isNew {
      var cut: nat :| Registers(h, h', e.p, cut);
      Registered(h, h', e.p, cut);
    }
  }

  /** In every reachable state the list denotes the received numbers, apart from those deleted or given up. */
  lemma {:induction false} RunKeeps(hs: seq<State>, es: seq<Event>)
    requires IsRun(hs, es)
    ensures forall i :: 0 <= i < |hs| ==> Valid(hs[i])
    ensures forall i :: 0 <= i < |es| ==> hs[i].deletedBelow <= hs[i + 1].deletedBelow
  {
    hide Valid, Step;
    if es == [] {
      StartValid();
    } else {
      var n := |es| - 1;
      RunKeeps(hs[..n + 1], es[..n]);
      assert hs[..n + 1][n] == hs[n];
      assert Step(hs[n], es[n], hs[n + 1]);
      StepKeeps(hs[n], es[n], hs[n + 1]);
    }
  }

  lemma StartValid()
    ensures Valid(START)
  {
  }

  /** A call gives up `p`: it registers a number, after which the list is full and `p` is not in it. */
  ghost predicate GivesUp(h: State, e: Event, h': State, p: nat) {
    && e.Receive? && e.isNew && (Contains(h.ranges, p) || e.p == p)
    && !Contains(h'.ranges, p) && |h'.ranges| == MAX_NUM_ACK_RANGES
  }

  lemma CutIsGivenUp(h: State, e: Event, h': State, p: nat)
    requires Step(h, e, h') && !Contains(h'.ranges, p) && h'.deletedBelow <= p
    requires Contains(h.ranges, p) || e == Receive(p, true)
    ensures GivesUp(h, e, h', p)
  {
    hide Contains, RangesOk;
  }

  /** What is listed in one state and not in a later one, and not deleted, was given up in between. */
  lemma {:induction false} LostInBetween(hs: seq<State>, es: seq<Event>, i: nat, j: nat, p: nat) returns (k: nat)
    requires IsRun(hs, es) && i <= j <= |es|
    requires Contains(hs[i].ranges, p) && !Contains(hs[j].ranges, p) && hs[j].deletedBelow <= p
    ensures i <= k < j && GivesUp(hs[k], es[k], hs[k + 1], p)
    decreases j - i
  {
    hide Contains, Step, GivesUp;
    RunKeeps(hs, es);
    k := j - 1;
    assert Step(hs[k], es[k], hs[j]);
    if Contains(hs[k].ranges, p) {
      CutIsGivenUp(hs[k], es[k], hs[j], p);
    } else {
      k := LostInBetween(hs, es, i, k, p);
    }
  }

  /** A number counts as new a second time only if a call in between, or the first one itself, gave it up. */
  lemma NewAgain(hs: seq<State>, es: seq<Event>, i: nat, j: nat, p: nat)
    requires IsRun(hs, es) && i < j < |es| && es[i] == Receive(p, true) && es[j] == Receive(p, true)
    ensures exists k :: i <= k < j && GivesUp(hs[k], es[k], hs[k + 1], p)
  {
    hide Contains, Valid, GivesUp, KeepsFrom;
    RunKeeps(hs, es);
    assert Step(hs[i], es[i], hs[i + 1]) && Step(hs[j], es[j], hs[j + 1]);
    DeletedGrows(hs, es, i + 1, j);
    if Contains(hs[i + 1].ranges, p) {
      var k := LostInBetween(hs, es, i + 1, j, p);
    } else {
      CutIsGivenUp(hs[i], es[i], hs[i + 1], p);
    }
  }

  lemma {:induction false} DeletedGrows(hs: seq<State>, es: seq<Event>, i: nat, j: nat)
    requires IsRun(hs, es) && i <= j <= |es|
    ensures hs[i].deletedBelow <= hs[j].deletedBelow
    decreases j
  {
    hide IsRun;
    RunKeeps(hs, es);
    RunLength(hs, es);
    if i < j {
      DeletedGrows(hs, es, i, j - 1);
    }
  }

  lemma RunLength(hs: seq<State>, es: seq<Event>)
    requires IsRun(hs, es)
    ensures |hs| == |es| + 1
  {
  }
}
