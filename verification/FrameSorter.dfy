/**
  Reassembly of a stream from frames that arrive in any order, overlap and repeat.

  Two structures are kept in step: an ordered list of the gaps (the offsets still missing) and a map
  from offsets to queued chunks. The reference they are proved against is the plain set of
  received bytes.
 */
module FrameSorter {
  import opened Common

  const MAX_GAPS := 1000
  const MIN_STREAM_FRAME_BUFFER_SIZE := 128

  /** The half-open interval of offsets [start, end). */
  datatype Interval = Interval(start: int, end: int)

  /** A queued chunk. A release callback is identified by a number. */
  datatype Entry = Entry(data: seq<byte>, doneCb: Option<nat>)

  type Queue = map<int, Entry>

  /** `released` counts the calls made to each release callback. */
  datatype State = State(queue: Queue, readPos: int, gaps: seq<Interval>, released: multiset<nat>)

  /** What a call of push ends in; `NoGapFound` is the panic of the gap searches. */
  datatype PushResult = Pushed | Duplicate | TooManyGaps | NoGapFound

  // ---------------------------------------------------------------------------------------------
  // The set of received bytes

  /** Sorted, separated, not empty intervals. */
  ghost predicate Separated(g: seq<Interval>) {
    && (forall i :: 0 <= i < |g| ==> 0 <= g[i].start < g[i].end)
    && (forall i, j :: 0 <= i < j < |g| ==> g[i].end < g[j].start)
  }

  /** The last gap reaches up to the end of the offset space. */
  ghost predicate GapsOk(g: seq<Interval>) {
    && |g| > 0
    && Separated(g)
    && g[|g| - 1].end == MAX_BYTE_COUNT
  }

  ghost predicate InGap(g: seq<Interval>, x: int) {
    exists i :: 0 <= i < |g| && g[i].start <= x < g[i].end
  }

  function ChunkEnd(q: Queue, p: int): int
    requires p in q
  {
    p + |q[p].data|
  }

  ghost predicate Covered(q: Queue, x: int) {
    exists p :: p in q && p <= x < ChunkEnd(q, p)
  }

  /** Some chunk of `q` holds byte `b` at offset `x`. */
  ghost predicate HasByte(q: Queue, x: int, b: byte) {
    exists p :: p in q && p <= x < ChunkEnd(q, p) && q[p].data[x - p] == b
  }

  /** Chunks are not empty and do not overlap. */
  ghost predicate QueueOk(q: Queue) {
    && (forall p :: p in q ==> 0 <= p < ChunkEnd(q, p))
    && (forall p, p' :: p in q && p' in q && p < p' ==> ChunkEnd(q, p) <= p')
  }

  /**
    The read prefix, the queued chunks and the gaps partition the offsets: an offset below `readPos`
    is in neither structure, every other offset is in exactly one of them.
   */
  ghost predicate Partition(q: Queue, readPos: int, g: seq<Interval>) {
    forall x {:trigger InGap(g, x)} {:trigger Covered(q, x)} :: 0 <= x < MAX_BYTE_COUNT ==>
      if x < readPos then !InGap(g, x) && !Covered(q, x) else Covered(q, x) <==> !InGap(g, x)
  }

  ghost predicate Valid(s: State) {
    && GapsOk(s.gaps)
    && QueueOk(s.queue)
    && 0 <= s.readPos <= s.gaps[0].start
    && (forall p :: p in s.queue ==> s.readPos <= p && ChunkEnd(s.queue, p) < MAX_BYTE_COUNT)
    && Partition(s.queue, s.readPos, s.gaps)
    && |s.gaps| <= MAX_GAPS
  }

  /** The received set: what is below MAX_BYTE_COUNT and no longer missing. */
  ghost predicate Received(s: State, x: int) {
    0 <= x < MAX_BYTE_COUNT && !InGap(s.gaps, x)
  }

  // ---------------------------------------------------------------------------------------------
  // Release callbacks

  /** How many queued chunks carry callback `id`. */
  ghost function QueuedCallbacks(q: Queue, id: nat): nat {
    |set p | p in q && q[p].doneCb == Some(id)|
  }

  /** Calls already made to `id` plus calls still owed by the queue. */
  ghost function Owed(q: Queue, released: multiset<nat>, id: nat): nat {
    released[id] + QueuedCallbacks(q, id)
  }

  function Call(released: multiset<nat>, cb: Option<nat>): multiset<nat> {
    if cb.Some? then released + multiset{cb.value} else released
  }

  function One(cb: Option<nat>, id: nat): nat {
    if cb == Some(id) then 1 else 0
  }

  lemma DeleteKeepsOwed(q: Queue, p: int, released: multiset<nat>, id: nat)
    requires p in q
    ensures QueuedCallbacks(q, id) == QueuedCallbacks(q - {p}, id) + One(q[p].doneCb, id)
    ensures Owed(q - {p}, Call(released, q[p].doneCb), id) == Owed(q, released, id)
  {
    var before := set x | x in q && q[x].doneCb == Some(id);
    var after := set x | x in (q - {p}) && (q - {p})[x].doneCb == Some(id);
    assert after == before - {p};
  }

  lemma InsertOwes(q: Queue, p: int, e: Entry, id: nat)
    requires p !in q
    ensures QueuedCallbacks(q[p := e], id) == QueuedCallbacks(q, id) + One(e.doneCb, id)
  {
    DeleteKeepsOwed(q[p := e], p, multiset{}, id);
    assert q[p := e] - {p} == q;
  }

  // ---------------------------------------------------------------------------------------------
  // Carving an interval out of the gaps and out of the queue

  /** The chunks of `q` that do not start in [lo, hi). */
  function Without(q: Queue, lo: int, hi: int): (r: Queue) {
    map p | p in q && !(lo <= p < hi) :: q[p]
  }

  ghost predicate NoKeyIn(q: Queue, lo: int, hi: int) {
    forall p :: p in q ==> !(lo <= p < hi)
  }

  /** No chunk of `q` that starts in [lo, hi) reaches beyond `hi`. */
  ghost predicate EndsBy(q: Queue, lo: int, hi: int) {
    forall p :: p in q && lo <= p < hi ==> ChunkEnd(q, p) <= hi
  }

  lemma WithoutExtend(q: Queue, lo: int, mid: int, mid': int, hi: int)
    requires lo <= mid <= mid' <= hi
    requires NoKeyIn(q, mid, mid')
    ensures Without(Without(q, lo, mid), mid', hi) == Without(q, lo, hi)
  {
  }

  lemma WithoutDiscard(q: Queue, lo: int, pos: int)
    requires QueueOk(q) && lo <= pos && pos in q
    ensures Without(q, lo, pos) - {pos} == Without(q, lo, ChunkEnd(q, pos))
    ensures EndsBy(q, lo, pos) ==> EndsBy(q, lo, ChunkEnd(q, pos))
    ensures forall x :: pos <= x < ChunkEnd(q, pos) ==> Covered(q, x)
  {
  }

  /** The gap list after [start, end) has been received; it touches the gaps from `i` to `j`. */
  function Carved(g: seq<Interval>, i: nat, j: nat, start: int, end: int): seq<Interval>
    requires i <= j < |g|
  {
    g[..i] + LeftRest(g[i], start) + RightRest(g[j], end) + g[j + 1..]
  }

  function LeftRest(gap: Interval, start: int): seq<Interval> {
    if gap.start < start then [Interval(gap.start, start)] else []
  }

  function RightRest(gap: Interval, end: int): seq<Interval> {
    if end < gap.end then [Interval(end, gap.end)] else []
  }

  /**
    [start, end) lies behind every gap below `i` and ahead of every gap above `j`. Either it starts in
    or ahead of gap `i` and ends in gap `j`, or it lies in the received run right behind gap `i`.
   */
  ghost predicate Located(g: seq<Interval>, i: nat, j: nat, start: int, end: int) {
    && i <= j < |g|
    && start < end < MAX_BYTE_COUNT
    && (forall k :: 0 <= k < i ==> g[k].end < start)
    && (forall k :: j < k < |g| ==> end < g[k].start)
    && start <= g[i].end
    && ((start == g[i].end && i == j) || g[j].start <= end <= g[j].end)
  }

  lemma InGapConcat(a: seq<Interval>, b: seq<Interval>, x: int)
    ensures InGap(a + b, x) <==> InGap(a, x) || InGap(b, x)
  {
    if InGap(a, x) {
      var k :| 0 <= k < |a| && a[k].start <= x < a[k].end;
      assert (a + b)[k] == a[k];
    }
    if InGap(b, x) {
      var k :| 0 <= k < |b| && b[k].start <= x < b[k].end;
      assert (a + b)[|a| + k] == b[k];
    }
  }

  /** Between gaps `i` and `j`, what is left is what lies outside [start, end). */
  lemma MiddleInGap(g: seq<Interval>, i: nat, j: nat, start: int, end: int, x: int)
    requires GapsOk(g) && Located(g, i, j, start, end)
    ensures InGap(LeftRest(g[i], start) + RightRest(g[j], end), x)
        <==> InGap(g[i..j + 1], x) && !(start <= x < end)
  {
    var left, right, m := LeftRest(g[i], start), RightRest(g[j], end), g[i..j + 1];
    InGapConcat(left, right, x);
    if InGap(left, x) {
      assert m[0] == g[i];
    }
    if InGap(right, x) {
      assert m[j - i] == g[j];
    }
    if InGap(m, x) && !(start <= x < end) {
      var k :| 0 <= k < |m| && m[k].start <= x < m[k].end;
      assert m[k] == g[i + k];
      if x < start {
        assert k == 0;
        assert left[0].start <= x < left[0].end;
      } else {
        assert right[0].start <= x < right[0].end;
      }
    }
  }

  lemma CarvedInGap(g: seq<Interval>, i: nat, j: nat, start: int, end: int, x: int)
    requires GapsOk(g) && Located(g, i, j, start, end)
    ensures InGap(Carved(g, i, j, start, end), x) <==> InGap(g, x) && !(start <= x < end)
  {
    var rest := LeftRest(g[i], start) + RightRest(g[j], end);
    assert Carved(g, i, j, start, end) == g[..i] + (rest + g[j + 1..]);
    assert g == g[..i] + (g[i..j + 1] + g[j + 1..]);
    InGapConcat(g[..i], rest + g[j + 1..], x);
    InGapConcat(rest, g[j + 1..], x);
    InGapConcat(g[..i], g[i..j + 1] + g[j + 1..], x);
    InGapConcat(g[i..j + 1], g[j + 1..], x);
    MiddleInGap(g, i, j, start, end, x);
  }

  lemma SeparatedConcat(a: seq<Interval>, b: seq<Interval>)
    requires Separated(a) && Separated(b)
    requires |a| > 0 && |b| > 0 ==> a[|a| - 1].end < b[0].start
    ensures Separated(a + b)
  {
    var c := a + b;
    forall i, j | 0 <= i < j < |c| ensures c[i].end < c[j].start {
      if i < |a| <= j {
        assert a[i].end <= a[|a| - 1].end < b[0].start <= b[j - |a|].start;
      }
    }
  }

  lemma SeparatedSlice(g: seq<Interval>, lo: nat, hi: nat)
    requires Separated(g) && lo <= hi <= |g|
    ensures Separated(g[lo..hi])
  {
  }

  lemma LeftPartOk(g: seq<Interval>, i: nat, start: int)
    requires Separated(g) && i < |g|
    requires forall k :: 0 <= k < i ==> g[k].end < start
    ensures var a := g[..i] + LeftRest(g[i], start);
            Separated(a) && (|a| > 0 ==> a[|a| - 1].end <= start)
  {
    SeparatedSlice(g, 0, i);
    SeparatedConcat(g[..i], LeftRest(g[i], start));
  }

  lemma RightPartOk(g: seq<Interval>, j: nat, end: int)
    requires GapsOk(g) && j < |g| && 0 <= end < MAX_BYTE_COUNT
    requires forall k :: j < k < |g| ==> end < g[k].start
    ensures var b := RightRest(g[j], end) + g[j + 1..];
            Separated(b) && |b| > 0 && b[0].start >= end && b[|b| - 1].end == MAX_BYTE_COUNT
  {
    var right, tail := RightRest(g[j], end), g[j + 1..];
    SeparatedSlice(g, j + 1, |g|);
    SeparatedConcat(right, tail);
    if tail == [] {
      assert j == |g| - 1;
      assert right + tail == right;
    } else {
      assert (right + tail)[|right + tail| - 1] == g[|g| - 1];
      assert tail[0] == g[j + 1];
    }
  }

  lemma CarvedOk(g: seq<Interval>, i: nat, j: nat, start: int, end: int)
    requires GapsOk(g) && Located(g, i, j, start, end) && 0 <= end
    ensures GapsOk(Carved(g, i, j, start, end))
  {
    hide Separated, LeftRest, RightRest;
    var a, b := g[..i] + LeftRest(g[i], start), RightRest(g[j], end) + g[j + 1..];
    LeftPartOk(g, i, start);
    RightPartOk(g, j, end);
    SeparatedConcat(a, b);
    assert Carved(g, i, j, start, end) == a + b;
  }

  ghost predicate NoStraddle(q: Queue, x: int) {
    forall p :: p in q && p < x ==> ChunkEnd(q, p) <= x
  }

  /** Replacing all chunks inside [start, end) by one chunk covers exactly that interval in addition. */
  lemma InsertCovers(q: Queue, start: int, end: int, e: Entry, x: int)
    requires QueueOk(q) && start < end && |e.data| == end - start
    requires NoStraddle(q, start) && EndsBy(q, start, end)
    ensures var q' := Without(q, start, end)[start := e];
            Covered(q', x) <==> Covered(q, x) || start <= x < end
  {
    var q' := Without(q, start, end)[start := e];
    if start <= x < end {
      assert start in q' && ChunkEnd(q', start) == end;
    } else if Covered(q, x) {
      var p :| p in q && p <= x < ChunkEnd(q, p);
      assert p in q' && ChunkEnd(q', p) == ChunkEnd(q, p);
    }
    if Covered(q', x) && !(start <= x < end) {
      var p :| p in q' && p <= x < ChunkEnd(q', p);
      assert p in q && ChunkEnd(q, p) == ChunkEnd(q', p);
    }
  }

  lemma InsertQueueOk(q: Queue, start: int, end: int, e: Entry)
    requires QueueOk(q) && 0 <= start < end && |e.data| == end - start
    requires NoStraddle(q, start) && EndsBy(q, start, end)
    ensures QueueOk(Without(q, start, end)[start := e])
  {
  }

  /** Inserting the chunk and carving the gap list keep the partition. */
  lemma InsertKeepsValid(s: State, i: nat, j: nat, start: int, end: int, e: Entry, released: multiset<nat>)
    requires Valid(s) && Located(s.gaps, i, j, start, end) && s.readPos <= start
    requires |e.data| == end - start
    requires NoStraddle(s.queue, start) && EndsBy(s.queue, start, end)
    requires |Carved(s.gaps, i, j, start, end)| <= MAX_GAPS
    ensures Valid(State(Without(s.queue, start, end)[start := e], s.readPos,
                        Carved(s.gaps, i, j, start, end), released))
  {
    var q', g' := Without(s.queue, start, end)[start := e], Carved(s.gaps, i, j, start, end);
    CarvedOk(s.gaps, i, j, start, end);
    InsertQueueOk(s.queue, start, end, e);
    assert Partition(q', s.readPos, g') by {
      forall x | 0 <= x < MAX_BYTE_COUNT
        ensures if x < s.readPos then !InGap(g', x) && !Covered(q', x) else Covered(q', x) <==> !InGap(g', x)
      {
        CarvedInGap(s.gaps, i, j, start, end, x);
        InsertCovers(s.queue, start, end, e, x);
      }
    }
    assert s.readPos <= g'[0].start by {
      assert InGap(g', g'[0].start);
      CarvedInGap(s.gaps, i, j, start, end, g'[0].start);
    }
  }

  // ---------------------------------------------------------------------------------------------
  // Runs of consecutive chunks

  /** Where consecutive chunks stop, a gap begins. */
  lemma RunStopsInGap(s: State, from: int, stop: int)
    requires Valid(s) && s.readPos <= from <= stop < MAX_BYTE_COUNT
    requires NoStraddle(s.queue, from) && EndsBy(s.queue, from, stop) && stop !in s.queue
    ensures InGap(s.gaps, stop)
  {
    assert InGap(s.gaps, stop) || Covered(s.queue, stop);
  }

  /** A run of chunks that starts between gap `k - 1` and gap `k` ends where gap `k` starts. */
  lemma RunEnd(s: State, k: nat, from: int, stop: int)
    requires Valid(s) && k < |s.gaps| && s.readPos <= from <= stop
    requires k > 0 ==> s.gaps[k - 1].end <= from
    requires from <= s.gaps[k].start
    requires NoStraddle(s.queue, from) && EndsBy(s.queue, from, stop) && stop !in s.queue
    requires forall x :: from <= x < stop ==> Covered(s.queue, x)
    ensures stop == s.gaps[k].start
  {
    var g := s.gaps[k].start;
    assert stop <= g by {
      assert InGap(s.gaps, g);
      assert !Covered(s.queue, g);
    }
    RunStopsInGap(s, from, stop);
    var m :| 0 <= m < |s.gaps| && s.gaps[m].start <= stop < s.gaps[m].end;
    assert m >= k;
  }

  /** No chunk reaches over an offset that is missing, or over the end of a gap. */
  lemma GapStopsChunks(s: State, x: int)
    requires Valid(s) && 0 <= x < MAX_BYTE_COUNT
    requires InGap(s.gaps, x)
    ensures NoStraddle(s.queue, x) && NoStraddle(s.queue, x + 1) && x !in s.queue
  {
    assert !Covered(s.queue, x);
  }

  lemma NoKeyInGap(s: State, k: nat, lo: int)
    requires Valid(s) && k < |s.gaps| && s.gaps[k].start <= lo
    ensures NoKeyIn(s.queue, lo, s.gaps[k].end)
  {
    forall p | p in s.queue ensures !(lo <= p < s.gaps[k].end) {
      if lo <= p < s.gaps[k].end {
        assert InGap(s.gaps, p);
        GapStopsChunks(s, p);
      }
    }
  }

  /** What the two gap searches establish for a frame [start, end) that is not a plain duplicate. */
  ghost predicate SearchOk(g: seq<Interval>, start: int, end: int, i: nat, startsInGap: bool, j: nat) {
    && i <= j < |g|
    && 0 <= start < end < MAX_BYTE_COUNT
    && start <= g[i].end
    && g[i].start < end
    && (forall k :: 0 <= k < i ==> g[k].end < start)
    && (startsInGap <==> g[i].start <= start)
    && (forall k :: j < k < |g| ==> end < g[k].start)
    && g[j].start <= end
  }

  /**
    The frame [start, end) has been trimmed to [start', end'). What was cut off had been received
    before. In the queue `q` of the running call only chunks inside the frame are missing: those in
    front of the end of gap `i` or, when the frame starts right behind gap `i`, those it replaces.
   */
  ghost predicate Trimmed(s: State, q: Queue, i: nat, j: nat, start: int, end: int, start': int, end': int)
    requires i <= j < |s.gaps|
  {
    && start <= start' < end' <= end
    && s.readPos <= start' <= s.gaps[i].end
    && NoStraddle(s.queue, start')
    && (forall x :: start <= x < start' || end' <= x < end ==> !InGap(s.gaps, x))
    && (start' < s.gaps[i].end ==> end' == end && q == Without(s.queue, start', s.gaps[i].end))
    && (start' == s.gaps[i].end ==> start' == start)
    && (start' == s.gaps[i].end && i < j ==> end' == end && q == Without(s.queue, start', s.gaps[i + 1].start))
    && (start' == s.gaps[i].end && i == j ==> q == Without(s.queue, start', end') && EndsBy(s.queue, start', end'))
  }

  lemma SearchBounds(s: State, start: int, end: int, i: nat, startsInGap: bool, j: nat)
    requires Valid(s) && SearchOk(s.gaps, start, end, i, startsInGap, j)
    ensures i <= j < |s.gaps| && GapsOk(s.gaps) && start < end
    ensures i < j ==> s.gaps[i].end <= end
  {
  }

  /** How the trimmed frame lies to the gaps it starts and ends in. */
  lemma TrimmedBounds(s: State, q: Queue, i: nat, j: nat, start: int, end: int, startsInGap: bool, start': int,
                      end': int)
    requires GapsOk(s.gaps) && SearchOk(s.gaps, start, end, i, startsInGap, j)
    requires Trimmed(s, q, i, j, start, end, start', end')
    ensures start <= start' < end' <= end && start' <= s.gaps[i].end
    ensures (start' == s.gaps[i].end && i == j) || s.gaps[j].start <= end'
    ensures end < s.gaps[j].end <==> end' < s.gaps[j].end
    ensures i < j ==> s.gaps[i].end <= end'
  {
  }

  /** The outcome of the replacement loop that ran over the chunks from `start` to `pos`. */
  ghost predicate RunTo(q: Queue, start: int, pos: int, end: int) {
    && start in q && start < pos <= end && EndsBy(q, start, pos)
    && (forall x :: start <= x < pos ==> Covered(q, x))
    && (pos in q ==> end < ChunkEnd(q, pos))
  }

  /** A frame that starts ahead of gap `i`, at a chunk, replaces everything up to the gap. */
  lemma TrimmedAhead(s: State, i: nat, j: nat, start: int, end: int, pos: int)
    requires Valid(s) && SearchOk(s.gaps, start, end, i, false, j)
    requires RunTo(s.queue, start, pos, end)
    ensures pos !in s.queue
    ensures Trimmed(s, Without(s.queue, start, pos), i, j, start, end, start, end)
  {
    var g := s.gaps[i].start;
    assert InGap(s.gaps, g);
    GapStopsChunks(s, g);
    assert !Covered(s.queue, g);
    RunEnd(s, i, start, pos);
    NoKeyInGap(s, i, g);
    WithoutExtend(s.queue, start, pos, s.gaps[i].end, s.gaps[i].end);
  }

  /** A frame that starts in gap `i`, or is cut to start there, meets no chunk in the gap. */
  lemma TrimmedInGap(s: State, i: nat, j: nat, start: int, end: int, startsInGap: bool)
    requires Valid(s) && SearchOk(s.gaps, start, end, i, startsInGap, j)
    requires start < s.gaps[i].end
    ensures startsInGap ==> start !in s.queue
    ensures Trimmed(s, s.queue, i, j, start, end, Max(start, s.gaps[i].start), end)
  {
    var start' := Max(start, s.gaps[i].start);
    assert InGap(s.gaps, start');
    GapStopsChunks(s, start');
    NoKeyInGap(s, i, start');
    assert s.queue == Without(s.queue, start', s.gaps[i].end);
  }

  /** Right behind gap `i` a chunk starts. */
  lemma ChunkBehindGap(s: State, i: nat)
    requires Valid(s) && i + 1 < |s.gaps|
    ensures s.gaps[i].end in s.queue && NoStraddle(s.queue, s.gaps[i].end)
  {
    var start := s.gaps[i].end;
    assert InGap(s.gaps, start - 1);
    GapStopsChunks(s, start - 1);
    assert !InGap(s.gaps, start);
    assert Covered(s.queue, start);
  }

  /** A frame that starts right behind gap `i` replaces the chunks there, up to gap `i + 1` or its own end. */
  lemma TrimmedBehind(s: State, i: nat, j: nat, start: int, end: int, pos: int)
    requires Valid(s) && SearchOk(s.gaps, start, end, i, true, j)
    requires start == s.gaps[i].end && RunTo(s.queue, start, pos, end)
    ensures pos in s.queue <==> i == j
    ensures Trimmed(s, Without(s.queue, start, pos), i, j, start, end, start, if i == j then pos else end)
  {
    assert i + 1 < |s.gaps|;
    ChunkBehindGap(s, i);
    var g := s.gaps[i + 1].start;
    assert InGap(s.gaps, g);
    assert !Covered(s.queue, g);
    if pos in s.queue {
      ChunkHasNoGap(s, pos);
      forall x | pos <= x < end ensures !InGap(s.gaps, x) {}
    } else {
      RunEnd(s, i + 1, start, pos);
    }
  }

  lemma ChunkHasNoGap(s: State, p: int)
    requires Valid(s) && p in s.queue
    ensures forall x :: p <= x < ChunkEnd(s.queue, p) ==> !InGap(s.gaps, x)
  {
    forall x | p <= x < ChunkEnd(s.queue, p) ensures !InGap(s.gaps, x) {
      assert Covered(s.queue, x);
    }
  }

  /** The run behind gap `k` keeps its end when chunks ahead of it are deleted. */
  lemma RunEndWithout(s: State, k: nat, start: int, mid: int, stop: int)
    requires Valid(s) && k + 1 < |s.gaps|
    requires var q, from := Without(s.queue, start, mid), s.gaps[k].end;
             && mid <= from <= stop && EndsBy(q, from, stop) && stop !in q
             && (forall x :: from <= x < stop ==> Covered(q, x))
    ensures stop == s.gaps[k + 1].start
  {
    var q, from := Without(s.queue, start, mid), s.gaps[k].end;
    forall x | from <= x < stop ensures Covered(s.queue, x) {
      assert Covered(q, x);
      var p :| p in q && p <= x < ChunkEnd(q, p);
      assert p in s.queue && ChunkEnd(s.queue, p) == ChunkEnd(q, p);
    }
    assert EndsBy(s.queue, from, stop) by {
      forall p | p in s.queue && from <= p < stop ensures ChunkEnd(s.queue, p) <= stop {
        assert p in q && ChunkEnd(s.queue, p) == ChunkEnd(q, p);
      }
    }
    ChunkBehindGap(s, k);
    assert s.readPos <= from;
    RunEnd(s, k + 1, from, stop);
  }

  /** Of the chunks in [start, end), none is left in the queue and none reaches beyond `end`. */
  lemma QueueCarved(s: State, q: Queue, i: nat, j: nat, start: int, end: int)
    requires Valid(s) && Located(s.gaps, i, j, start, end)
    requires i < j ==> q == Without(s.queue, start, s.gaps[j].start)
    requires i == j && start < s.gaps[i].end ==> q == Without(s.queue, start, s.gaps[i].end)
    requires i == j && start == s.gaps[i].end ==> q == Without(s.queue, start, end) && EndsBy(s.queue, start, end)
    ensures q == Without(s.queue, start, end) && EndsBy(s.queue, start, end)
  {
    if i < j || start < s.gaps[i].end {
      NoKeyInGap(s, j, s.gaps[j].start);
      if end < s.gaps[j].end {
        assert InGap(s.gaps, end);
        GapStopsChunks(s, end);
      } else {
        assert InGap(s.gaps, end - 1);
        GapStopsChunks(s, end - 1);
      }
    }
  }

  lemma CarvedLater(g: seq<Interval>, i: nat, j: nat, start: int, end: int)
    requires i < j < |g|
    ensures var next, open := i + |LeftRest(g[i], start)|, g[..i] + LeftRest(g[i], start) + g[j..];
            && next < |open| && open[next] == g[j]
            && (end == g[j].end ==> Carved(g, i, j, start, end) == RemoveAt(open, next))
            && (end < g[j].end ==> Carved(g, i, j, start, end) == open[next := Interval(end, g[j].end)])
  {
  }

  lemma CarvedSame(g: seq<Interval>, i: nat, start: int, end: int)
    requires i < |g|
    ensures var left, right := LeftRest(g[i], start), RightRest(g[i], end);
            && (left == [] ==> Carved(g, i, i, start, end) == g[..i] + right + g[i + 1..])
            && (right == [] ==> Carved(g, i, i, start, end) == g[..i] + left + g[i + 1..])
            && (left != [] && right != [] ==>
                  Carved(g, i, i, start, end) == InsertAt(g[..i] + left + g[i + 1..], i + 1, right[0]))
            && (left == [g[i]] && right == [] ==> Carved(g, i, i, start, end) == g)
  {
  }

  /**
    What a successful push promises: the received set grows by exactly the interval of the frame, and
    every queued byte was queued before or comes from the frame.
   */
  ghost predicate PushSpec(s: State, s': State, data: seq<byte>, offset: int) {
    && Valid(s')
    && s'.readPos == s.readPos
    && (forall x :: InGap(s'.gaps, x) <==> InGap(s.gaps, x) && !(offset <= x < offset + |data|))
    && (forall x, b :: HasByte(s'.queue, x, b) ==>
          HasByte(s.queue, x, b) || (offset <= x < offset + |data| && data[x - offset] == b))
  }

  lemma DuplicateOk(s: State, data: seq<byte>, offset: int, released: multiset<nat>)
    requires Valid(s) && (forall x :: offset <= x < offset + |data| ==> !InGap(s.gaps, x))
    ensures PushSpec(s, s.(released := released), data, offset)
  {
  }

  /** The frame [start0, end0) is left as [start, end), which meets gaps and chunks as a whole. */
  ghost predicate Fits(s: State, i: nat, j: nat, start0: int, end0: int, start: int, end: int) {
    && Located(s.gaps, i, j, start, end)
    && start0 <= start && end <= end0 && s.readPos <= start
    && NoStraddle(s.queue, start) && EndsBy(s.queue, start, end)
    && (forall x :: start0 <= x < start || end <= x < end0 ==> !InGap(s.gaps, x))
  }

  /** Cutting the trimmed frame at the end of the gap it ends in makes it fit. */
  lemma CutFits(s: State, q: Queue, q': Queue, i: nat, j: nat, start0: int, end0: int, startsInGap: bool, start: int,
                end: int)
    requires Valid(s) && SearchOk(s.gaps, start0, end0, i, startsInGap, j)
    requires Trimmed(s, q, i, j, start0, end0, start, end)
    requires i < j ==> q' == Without(s.queue, start, s.gaps[j].start)
    requires i == j ==> q' == q
    ensures var end' := if end < s.gaps[j].end || start == s.gaps[j].end then end else s.gaps[j].end;
            Fits(s, i, j, start0, end0, start, end') && q' == Without(s.queue, start, end')
  {
    var end' := if end < s.gaps[j].end || start == s.gaps[j].end then end else s.gaps[j].end;
    assert Located(s.gaps, i, j, start, end');
    QueueCarved(s, q', i, j, start, end');
    forall x | end' <= x < end ensures !InGap(s.gaps, x) {
      assert s.gaps[j].end <= x;
    }
  }

  /** The frame [start, end) lies strictly inside a gap, so that two gaps are left of it. */
  ghost predicate SplitsGap(g: seq<Interval>, start: int, end: int) {
    start < end && exists k :: 0 <= k < |g| && g[k].start < start && end < g[k].end
  }

  lemma InGapAt(g: seq<Interval>, k: nat, x: int)
    requires k < |g| && g[k].start <= x < g[k].end
    ensures InGap(g, x)
  {
  }

  /** The list of gaps becomes longer exactly for a frame that splits a gap, and then by one. */
  lemma LongerExactly(s: State, i: nat, j: nat, start0: int, end0: int, startsInGap: bool, start: int, end: int)
    requires GapsOk(s.gaps) && SearchOk(s.gaps, start0, end0, i, startsInGap, j)
    requires Fits(s, i, j, start0, end0, start, end)
    ensures |Carved(s.gaps, i, j, start, end)| > |s.gaps| <==> SplitsGap(s.gaps, start0, end0)
    ensures |Carved(s.gaps, i, j, start, end)| <= |s.gaps| + 1
  {
    hide InGap;
    var g := s.gaps;
    if i == j && g[i].start < start && end < g[j].end {
      if start0 < start {
        InGapAt(g, i, start - 1);
      }
      if end < end0 {
        InGapAt(g, i, end);
      }
      assert start0 == start && end == end0;
    }
    if SplitsGap(g, start0, end0) {
      var k :| 0 <= k < |g| && g[k].start < start0 && end0 < g[k].end;
      assert k == i && k == j;
      InGapAt(g, i, start0);
      InGapAt(g, i, end0 - 1);
    }
  }

  lemma GapsSeparated(g: seq<Interval>)
    requires GapsOk(g)
    ensures Separated(g)
  {
  }

  lemma GapBounds(s: State)
    requires Valid(s)
    ensures GapsOk(s.gaps) && |s.gaps| <= MAX_GAPS
  {
  }

  /** A frame that is a duplicate splits no gap. */
  lemma DuplicateSplitsNothing(g: seq<Interval>, start: int, end: int)
    requires forall x :: start <= x < end ==> !InGap(g, x)
    ensures !SplitsGap(g, start, end)
  {
    assert start < end ==> !InGap(g, start);
  }

  lemma InsertHasByte(q: Queue, start: int, end: int, e: Entry, x: int, b: byte)
    requires HasByte(Without(q, start, end)[start := e], x, b)
    ensures HasByte(q, x, b) || (start <= x < start + |e.data| && e.data[x - start] == b)
  {
    var q' := Without(q, start, end)[start := e];
    var p :| p in q' && p <= x < ChunkEnd(q', p) && q'[p].data[x - p] == b;
    assert p == start || (p in q && ChunkEnd(q, p) == ChunkEnd(q', p));
  }

  /** The trimmed frame takes its place in the queue and in the gap list. */
  lemma PushedOk(s: State, s': State, i: nat, j: nat, data: seq<byte>, offset: int, start: int, end: int, e: Entry)
    requires Valid(s) && Fits(s, i, j, offset, offset + |data|, start, end)
    requires e.data == data[start - offset..end - offset]
    requires s'.queue == Without(s.queue, start, end)[start := e]
    requires s'.readPos == s.readPos && s'.gaps == Carved(s.gaps, i, j, start, end) && |s'.gaps| <= MAX_GAPS
    ensures PushSpec(s, s', data, offset)
  {
    var q' := s'.queue;
    InsertKeepsValid(s, i, j, start, end, e, s'.released);
    forall x ensures InGap(Carved(s.gaps, i, j, start, end), x)
                 <==> InGap(s.gaps, x) && !(offset <= x < offset + |data|)
    {
      CarvedInGap(s.gaps, i, j, start, end, x);
    }
    forall x, b | HasByte(q', x, b)
      ensures HasByte(s.queue, x, b) || (offset <= x < offset + |data| && data[x - offset] == b)
    {
      InsertHasByte(s.queue, start, end, e, x, b);
    }
  }

  /** One callback more is accounted for: called, or owed by the queue. */
  ghost predicate CallbackAdded(s: State, s': State, cb: Option<nat>) {
    forall id :: Owed(s'.queue, s'.released, id) == Owed(s.queue, s.released, id) + One(cb, id)
  }

  /**
    What Pop promises: it returns the received bytes from the read position on, if there are any, and
    hands out one callback.
   */
  ghost predicate PopSpec(s: State, s': State, offset: int, data: seq<byte>, cb: Option<nat>) {
    && Valid(s')
    && offset == s.readPos
    && s'.readPos == s.readPos + |data|
    && s'.gaps == s.gaps && s'.released == s.released
    && (data == [] <==> InGap(s.gaps, s.readPos))
    && (forall k :: 0 <= k < |data| ==> HasByte(s.queue, offset + k, data[k]))
    && (forall x, b :: HasByte(s'.queue, x, b) ==> HasByte(s.queue, x, b))
    && (forall id :: QueuedCallbacks(s.queue, id) == QueuedCallbacks(s'.queue, id) + One(cb, id))
  }

  lemma NothingToPop(s: State)
    requires Valid(s) && s.readPos !in s.queue
    ensures PopSpec(s, s, s.readPos, [], None)
  {
    assert !Covered(s.queue, s.readPos);
  }

  lemma PopOk(s: State)
    requires Valid(s) && s.readPos in s.queue
    ensures var e := s.queue[s.readPos];
            var s' := s.(queue := s.queue - {s.readPos}, readPos := s.readPos + |e.data|);
            PopSpec(s, s', s.readPos, e.data, e.doneCb) && s'.readPos < s.gaps[0].end
  {
    var p, e := s.readPos, s.queue[s.readPos];
    var s' := s.(queue := s.queue - {p}, readPos := p + |e.data|);
    assert s'.readPos <= s.gaps[0].start by {
      assert InGap(s.gaps, s.gaps[0].start);
      GapStopsChunks(s, s.gaps[0].start);
    }
    forall x ensures Covered(s.queue, x) <==> Covered(s'.queue, x) || p <= x < s'.readPos {
      DeleteUncovers(s.queue, p, x);
    }
    forall id ensures QueuedCallbacks(s.queue, id) == QueuedCallbacks(s'.queue, id) + One(e.doneCb, id) {
      DeleteKeepsOwed(s.queue, p, s.released, id);
    }
    assert Covered(s.queue, p);
    forall x, b | HasByte(s'.queue, x, b) ensures HasByte(s.queue, x, b) {
      var p' :| p' in s'.queue && p' <= x < ChunkEnd(s'.queue, p') && s'.queue[p'].data[x - p'] == b;
      assert p' in s.queue && ChunkEnd(s.queue, p') == ChunkEnd(s'.queue, p');
    }
  }

  lemma DeleteUncovers(q: Queue, p: int, x: int)
    requires QueueOk(q) && p in q
    ensures Covered(q, x) <==> Covered(q - {p}, x) || p <= x < ChunkEnd(q, p)
    ensures Covered(q - {p}, x) ==> !(p <= x < ChunkEnd(q, p))
  {
    var q' := q - {p};
    if Covered(q, x) && !(p <= x < ChunkEnd(q, p)) {
      var p' :| p' in q && p' <= x < ChunkEnd(q, p');
      assert p' in q' && ChunkEnd(q', p') == ChunkEnd(q, p');
    }
    if Covered(q', x) {
      var p' :| p' in q' && p' <= x < ChunkEnd(q', p');
      assert p' in q && ChunkEnd(q, p') == ChunkEnd(q', p');
    }
  }

  class Sorter {
    var queue: Queue
    var readPos: int
    var gaps: seq<Interval>
    var released: multiset<nat>

    ghost function Contents(): State
      reads this
    {
      State(queue, readPos, gaps, released)
    }

    constructor ()
      ensures Initial(Contents()) && Valid(Contents())
    {
      queue, readPos, released := map[], 0, multiset{};
      gaps := [Interval(0, MAX_BYTE_COUNT)];
      new;
      InitialValid(Contents());
    }

    /** The first gap that ends at or behind `offset`; without one, the search panics. */
    method FindStartGap(offset: int) returns (found: bool, i: nat, inGap: bool)
      requires GapsOk(gaps)
      ensures found <==> offset <= MAX_BYTE_COUNT
      ensures found ==> i < |gaps| && offset <= gaps[i].end && (forall k :: 0 <= k < i ==> gaps[k].end < offset)
      ensures found ==> (inGap <==> gaps[i].start <= offset)
    {
      i := 0;
      while i < |gaps|
        invariant i <= |gaps|
        invariant forall k :: 0 <= k < i ==> gaps[k].end < offset
      {
        if gaps[i].start <= offset <= gaps[i].end {
          return true, i, true;
        }
        if offset < gaps[i].start {
          return true, i, false;
        }
        i := i + 1;
      }
      return false, i, false;
    }

    /**
      The gap that holds `offset`, or else the one before it; that is the gap before `startGap` when
      `offset` lies ahead of `startGap`. Without a gap that ends behind `offset`, the search panics.
     */
    method FindEndGap(startGap: nat, offset: int) returns (found: bool, j: int, inGap: bool)
      requires GapsOk(gaps) && startGap < |gaps|
      ensures found <==> offset < MAX_BYTE_COUNT
      ensures found ==> startGap - 1 <= j < |gaps| && (forall k :: j < k < |gaps| ==> offset < gaps[k].start)
      ensures found && inGap ==> startGap <= j && gaps[j].start <= offset < gaps[j].end
      ensures found && !inGap && startGap <= j ==> gaps[j].end <= offset
    {
      j := startGap;
      while j < |gaps|
        invariant startGap <= j <= |gaps|
        invariant forall k :: startGap <= k < j ==> gaps[k].end <= offset
      {
        if gaps[j].start <= offset < gaps[j].end {
          return true, j, true;
        }
        if offset < gaps[j].start {
          return true, j - 1, false;
        }
        j := j + 1;
      }
      return false, j, false;
    }

    /** Deletes the chunk at `pos`, calls its callback and returns its length. */
    method Discard(pos: int) returns (len: nat)
      requires pos in queue
      modifies this`queue, this`released
      ensures queue == old(queue) - {pos} && len == |old(queue)[pos].data|
      ensures forall id :: Owed(queue, released, id) == old(Owed(queue, released, id))
    {
      var e := queue[pos];
      queue := queue - {pos};
      len := |e.data|;
      released := Call(released, e.doneCb);
      forall id ensures Owed(queue, released, id) == old(Owed(queue, released, id)) {
        DeleteKeepsOwed(old(queue), pos, old(released), id);
      }
    }

    /** Deletes the run of consecutive chunks from `from` on; `stop` is where the run ends. */
    method DeleteConsecutive(from: int) returns (ghost stop: int)
      requires QueueOk(queue)
      modifies this`queue, this`released
      ensures from <= stop && stop !in old(queue) && EndsBy(old(queue), from, stop)
      ensures forall x :: from <= x < stop ==> Covered(old(queue), x)
      ensures queue == Without(old(queue), from, stop)
      ensures forall id :: Owed(queue, released, id) == old(Owed(queue, released, id))
    {
      ghost var q0 := queue;
      var pos := from;
      while pos in queue
        invariant from <= pos
        invariant queue == Without(q0, from, pos)
        invariant EndsBy(q0, from, pos)
        invariant forall x :: from <= x < pos ==> Covered(q0, x)
        invariant forall id :: Owed(queue, released, id) == old(Owed(queue, released, id))
        decreases queue.Keys
      {
        WithoutDiscard(q0, from, pos);
        var len := Discard(pos);
        pos := pos + len;
      }
      stop := pos;
    }

    /**
      Replaces the chunks that start where the new frame [start, end) starts, as long as they are
      shorter than it. A longer chunk makes the frame a duplicate if it is the first one, and else
      the frame has to be cut at its start.
     */
    method ReplaceFrom(start: int, end: int) returns (pos: int, replaced: bool, duplicate: bool, cut: bool)
      requires QueueOk(queue) && start < end
      modifies this`queue, this`released
      ensures start <= pos <= end && (replaced <==> start < pos)
      ensures replaced ==> start in old(queue)
      ensures queue == Without(old(queue), start, pos)
      ensures duplicate <==> start in old(queue) && end <= ChunkEnd(old(queue), start) && !replaced
      ensures duplicate ==> !cut && released == old(released)
      ensures !duplicate ==> (cut <==> pos in old(queue))
      ensures cut ==> replaced && end < ChunkEnd(old(queue), pos)
      ensures EndsBy(old(queue), start, pos)
      ensures forall x :: start <= x < pos ==> Covered(old(queue), x)
      ensures forall id :: Owed(queue, released, id) == old(Owed(queue, released, id))
    {
      ghost var q0 := queue;
      pos, replaced, duplicate, cut := start, false, false, false;
      while pos in queue
        invariant start <= pos <= end && (replaced <==> start < pos)
        invariant replaced ==> start in q0
        invariant queue == Without(q0, start, pos)
        invariant !replaced ==> released == old(released)
        invariant EndsBy(q0, start, pos)
        invariant forall x :: start <= x < pos ==> Covered(q0, x)
        invariant forall id :: Owed(queue, released, id) == old(Owed(queue, released, id))
        decreases queue.Keys
      {
        var oldLen := |queue[pos].data|;
        if end - pos > oldLen || (replaced && end - pos == oldLen) {
          WithoutDiscard(q0, start, pos);
          var len := Discard(pos);
          pos := pos + len;
          replaced := true;
        } else {
          if !replaced {
            duplicate := true;
          } else {
            cut := true;
          }
          break;
        }
      }
    }

    /**
      The first part of push, up to the point where the frame starts at the gap it fills: chunks
      that the frame replaces are dropped, and bytes received before are cut off at either end.
     */
    method TrimStart(data: seq<byte>, start: int, end: int, i: nat, startsInGap: bool, ghost j: nat)
      returns (duplicate: bool, replaced: bool, wasCut: bool, data': seq<byte>, start': int, end': int)
      requires Valid(Contents()) && SearchOk(gaps, start, end, i, startsInGap, j)
      requires |data| == end - start
      modifies this`queue, this`released
      ensures duplicate ==> Contents() == old(Contents()) && (forall x :: start <= x < end ==> !InGap(gaps, x))
      ensures !duplicate ==> Trimmed(old(Contents()), queue, i, j, start, end, start', end')
      ensures !duplicate ==> data' == data[start' - start..end' - start]
      ensures !duplicate ==> (replaced <==> start' < gaps[i].start || start' == gaps[i].end)
      ensures !duplicate && !wasCut ==> data' == data
      ensures forall id :: Owed(queue, released, id) == old(Owed(queue, released, id))
    {
      hide Partition;
      ghost var s0 := Contents();
      var pos, cut;
      pos, replaced, duplicate, cut := ReplaceFrom(start, end);
      data', start', end', wasCut := data, start, end, false;
      if duplicate {
        ChunkHasNoGap(s0, start);
        return;
      }
      if replaced && startsInGap {
        assert start == gaps[i].end by { if start < gaps[i].end { TrimmedInGap(s0, i, j, start, end, true); } }
        TrimmedBehind(s0, i, j, start, end, pos);
      } else if replaced {
        TrimmedAhead(s0, i, j, start, end, pos);
      } else {
        assert start < gaps[i].end by { if start == gaps[i].end { ChunkBehindGap(s0, i); } }
        TrimmedInGap(s0, i, j, start, end, startsInGap);
        assert queue == s0.queue;
      }
      if cut {
        data' := data[..pos - start];
        end' := pos;
        wasCut := true;
      }
      if !startsInGap && !replaced {
        data' := data'[gaps[i].start - start..];
        start' := gaps[i].start;
        wasCut := true;
      }
    }

    /**
      Deletes the run of chunks behind gap `k`. The chunks that start in [start, mid) are gone already:
      either none of the run is, or all of it.
     */
    method DeleteRun(from: int, ghost s0: State, ghost k: nat, ghost start: int, ghost mid: int)
      requires Valid(s0) && k + 1 < |s0.gaps| && from == s0.gaps[k].end
      requires queue == Without(s0.queue, start, mid)
      requires (start <= mid <= from && NoKeyIn(s0.queue, mid, from)) || (start == from && mid == s0.gaps[k + 1].start)
      modifies this`queue, this`released
      ensures queue == Without(s0.queue, start, s0.gaps[k + 1].start)
      ensures forall id :: Owed(queue, released, id) == old(Owed(queue, released, id))
    {
      ghost var q := queue;
      ChunkBehindGap(s0, k);
      ghost var stop := DeleteConsecutive(from);
      if mid <= from {
        RunEndWithout(s0, k, start, mid, stop);
        WithoutExtend(s0.queue, start, mid, from, stop);
      } else {
        assert stop == from by {
          assert !Covered(q, from);
        }
        assert queue == q;
      }
    }

    /** One round of the deletion loop: gap `n`, which is gap `k` of `s0`, and the run behind it. */
    method DeleteGap(n: nat, ghost before: seq<Interval>, ghost s0: State, ghost k: nat, ghost start: int)
      requires Valid(s0) && k + 1 < |s0.gaps| && n == |before| && gaps == before + s0.gaps[k..]
      requires start <= s0.gaps[k].start && queue == Without(s0.queue, start, s0.gaps[k].start)
      modifies this`queue, this`released, this`gaps
      ensures gaps == before + s0.gaps[k + 1..]
      ensures queue == Without(s0.queue, start, s0.gaps[k + 1].start)
      ensures forall id :: Owed(queue, released, id) == old(Owed(queue, released, id))
    {
      hide Partition, QueueOk;
      NoKeyInGap(s0, k, s0.gaps[k].start);
      DeleteRun(gaps[n].end, s0, k, start, s0.gaps[k].start);
      gaps := RemoveAt(gaps, n);
    }

    /** Deletes the gaps and the runs of chunks between gap `n` and the gap that starts at `endGapStart`. */
    method DeleteBetween(n: nat, endGapStart: int, ghost before: seq<Interval>, ghost s0: State,
                         ghost i: nat, ghost j: nat, ghost start: int)
      requires Valid(s0) && i < j < |s0.gaps| && endGapStart == s0.gaps[j].start
      requires n == |before| && gaps == before + s0.gaps[i + 1..]
      requires start <= s0.gaps[i].end && queue == Without(s0.queue, start, s0.gaps[i + 1].start)
      modifies this`queue, this`released, this`gaps
      ensures gaps == before + s0.gaps[j..]
      ensures queue == Without(s0.queue, start, s0.gaps[j].start)
      ensures forall id :: Owed(queue, released, id) == old(Owed(queue, released, id))
    {
      hide Partition, QueueOk;
      ghost var k := i + 1;
      while gaps[n].end < endGapStart
        invariant i < k <= j
        invariant gaps == before + s0.gaps[k..] && gaps[n] == s0.gaps[k]
        invariant queue == Without(s0.queue, start, s0.gaps[k].start)
        invariant forall id :: Owed(queue, released, id) == old(Owed(queue, released, id))
        decreases j - k
      {
        DeleteGap(n, before, s0, k, start);
        k := k + 1;
      }
    }

    /** Takes [start, end) out of gap `i`; `next` is where the gap behind it then is in the list. */
    method ShrinkStartGap(start: int, end: int, i: nat, replaced: bool) returns (next: nat, adjusted: bool)
      requires i < |gaps| && start <= gaps[i].end && gaps[i].start < gaps[i].end
      requires replaced <==> start < gaps[i].start || start == gaps[i].end
      modifies this`gaps
      ensures adjusted <==> old(gaps[i]).start < start < old(gaps[i]).end
      ensures old(gaps[i]).start < start ==> gaps == old(gaps[..i] + LeftRest(gaps[i], start) + gaps[i + 1..])
      ensures start <= old(gaps[i]).start ==> gaps == old(gaps[..i] + RightRest(gaps[i], end) + gaps[i + 1..])
      ensures next == if start <= old(gaps[i]).start && end >= old(gaps[i]).end then i else i + 1
    {
      ghost var g := gaps;
      adjusted, next := false, i + 1;
      if start <= gaps[i].start {
        if end >= gaps[i].end {
          gaps := RemoveAt(gaps, i);
          next := i;
        } else {
          gaps := gaps[i := Interval(end, gaps[i].end)];
        }
      } else if !replaced {
        gaps := gaps[i := Interval(gaps[i].start, start)];
        adjusted := true;
      } else {
        assert gaps == g[..i] + [g[i]] + g[i + 1..];
      }
    }

    /**
      Takes [start, end) out of gap `i` and, when it ends in a later gap `j`, drops what lies between
      the two. `next` is where gap `j` then is in the list.
     */
    method OpenGaps(start: int, end: int, i: nat, j: nat, replaced: bool, ghost s0: State, ghost start0: int,
                    ghost end0: int)
      returns (next: nat, adjusted: bool)
      requires Valid(s0) && GapsOk(gaps) && gaps == s0.gaps && i <= j < |gaps| && (i < j ==> gaps[i].end <= end)
      requires Trimmed(s0, queue, i, j, start0, end0, start, end)
      requires replaced <==> start < gaps[i].start || start == gaps[i].end
      modifies this`queue, this`released, this`gaps
      ensures adjusted <==> s0.gaps[i].start < start < s0.gaps[i].end
      ensures i < j ==> gaps == s0.gaps[..i] + LeftRest(s0.gaps[i], start) + s0.gaps[j..]
      ensures i < j ==> next == i + |LeftRest(s0.gaps[i], start)| && queue == Without(s0.queue, start, s0.gaps[j].start)
      ensures i == j && start < s0.gaps[i].end ==>
                var rest := if adjusted then LeftRest(s0.gaps[i], start) else RightRest(s0.gaps[i], end);
                gaps == s0.gaps[..i] + rest + s0.gaps[i + 1..]
      ensures i == j && start == s0.gaps[i].end ==> gaps == s0.gaps
      ensures i == j ==> queue == old(queue)
      ensures forall id :: Owed(queue, released, id) == old(Owed(queue, released, id))
    {
      hide Valid, NoStraddle, InGap;
      var startGapEnd, endGapStart := gaps[i].end, gaps[j].start;
      next, adjusted := ShrinkStartGap(start, end, i, replaced);
      if i != j {
        ghost var before := s0.gaps[..i] + LeftRest(s0.gaps[i], start);
        assert gaps == before + s0.gaps[i + 1..];
        DeleteRun(startGapEnd, s0, i, start, if start < startGapEnd then startGapEnd else s0.gaps[i + 1].start);
        DeleteBetween(next, endGapStart, before, s0, i, j, start);
      }
    }

    /** Cuts the frame at the end of gap `j`, if need be, and takes it out of that gap. */
    method CloseGaps(data: seq<byte>, start: int, end: int, i: nat, next: nat, same: bool, adjusted: bool,
                     endsInGap: bool, startGapEnd: int, endGapEnd: int, ghost g: seq<Interval>, ghost j: nat)
      returns (data': seq<byte>, end': int, wasCut: bool)
      requires |data| == end - start && start < end
      requires i <= j < |g| && (same <==> i == j) && Separated(g)
      requires startGapEnd == g[i].end && endGapEnd == g[j].end && start <= g[i].end
      requires (start == g[i].end && i == j) || g[j].start <= end
      requires endsInGap <==> end < g[j].end
      requires adjusted <==> g[i].start < start < g[i].end
      requires i < j ==> gaps == g[..i] + LeftRest(g[i], start) + g[j..] && next == i + |LeftRest(g[i], start)|
      requires i == j && start < g[i].end ==>
                 var rest := if adjusted then LeftRest(g[i], start) else RightRest(g[i], end);
                 gaps == g[..i] + rest + g[i + 1..]
      requires i == j && start == g[i].end ==> gaps == g
      modifies this`gaps
      ensures gaps == Carved(g, i, j, start, end')
      ensures start < end' <= end && data' == data[..end' - start]
      ensures end' == if endsInGap || start == g[j].end then end else g[j].end
      ensures !wasCut ==> data' == data
    {
      data', end', wasCut := data, end, false;
      if !endsInGap && start != endGapEnd && end > endGapEnd {
        data' := data[..endGapEnd - start];
        end' := endGapEnd;
        wasCut := true;
      }
      if end' == endGapEnd {
        if !same {
          CarvedLater(g, i, j, start, end');
          gaps := RemoveAt(gaps, next);
        }
      } else if same && adjusted {
        gaps := InsertAt(gaps, i + 1, Interval(end', startGapEnd));
      } else if !same {
        CarvedLater(g, i, j, start, end');
        gaps := gaps[next := Interval(end', gaps[next].end)];
      }
      if same {
        CarvedSame(g, i, start, end');
      }
    }

    /** Takes the trimmed frame out of the gaps and out of the chunks between them. */
    method CarveGaps(data: seq<byte>, start: int, end: int, i: nat, startsInGap: bool, j: nat, endsInGap: bool,
                     replaced: bool, ghost s0: State, ghost start0: int, ghost end0: int)
      returns (data': seq<byte>, end': int, wasCut: bool)
      requires Valid(s0) && gaps == s0.gaps && SearchOk(gaps, start0, end0, i, startsInGap, j) && i <= j < |gaps|
      requires Trimmed(s0, queue, i, j, start0, end0, start, end) && |data| == end - start
      requires replaced <==> start < gaps[i].start || start == gaps[i].end
      requires endsInGap <==> end0 < gaps[j].end
      modifies this`queue, this`released, this`gaps
      ensures gaps == Carved(s0.gaps, i, j, start, end') && queue == Without(s0.queue, start, end')
      ensures Fits(s0, i, j, start0, end0, start, end')
      ensures start < end' <= end && data' == data[..end' - start] && (!wasCut ==> data' == data)
      ensures forall id :: Owed(queue, released, id) == old(Owed(queue, released, id))
    {
      hide Valid, SearchOk, Trimmed, Fits, GapsOk, Carved, InGap, Without, LeftRest, RightRest, Owed;
      SearchBounds(s0, start0, end0, i, startsInGap, j);
      ghost var trimmedQueue := queue;
      var startGapEnd, endGapEnd := gaps[i].end, gaps[j].end;
      TrimmedBounds(s0, queue, i, j, start0, end0, startsInGap, start, end);
      var next, adjusted := OpenGaps(start, end, i, j, replaced, s0, start0, end0);
      GapsSeparated(s0.gaps);
      data', end', wasCut := CloseGaps(data, start, end, i, next, i == j, adjusted, endsInGap, startGapEnd, endGapEnd,
                                       s0.gaps, j);
      CutFits(s0, trimmedQueue, queue, i, j, start0, end0, startsInGap, start, end);
    }

    method TryPush(data0: seq<byte>, offset: int, doneCb0: Option<nat>) returns (r: PushResult)
      requires Valid(Contents()) && 0 <= offset
      modifies this
      ensures r.NoGapFound? <==> |data0| > 0 && offset + |data0| >= MAX_BYTE_COUNT
      ensures r.Duplicate? || r.NoGapFound? ==> Contents() == old(Contents())
      ensures r.Duplicate? ==> forall x :: offset <= x < offset + |data0| ==> !InGap(gaps, x)
      ensures r.Pushed? ==> PushSpec(old(Contents()), Contents(), data0, offset)
      ensures r.TooManyGaps? <==> |old(gaps)| == MAX_GAPS && SplitsGap(old(gaps), offset, offset + |data0|)
      ensures r.Pushed? ==> CallbackAdded(old(Contents()), Contents(), doneCb0)
    {
      ghost var s0 := Contents();
      if |data0| == 0 {
        return Duplicate;
      }
      var start0, end0 := offset, offset + |data0|;
      if end0 <= gaps[0].start {
        return Duplicate;
      }
      var found, startGap, startsInGap := FindStartGap(start0);
      if !found {
        return NoGapFound;
      }
      var endGap, endsInGap;
      found, endGap, endsInGap := FindEndGap(startGap, end0);
      if !found {
        return NoGapFound;
      }
      var same := startGap == endGap;
      if (same && end0 <= gaps[startGap].start)
         || (!same && gaps[startGap].end >= gaps[endGap].start && end0 <= gaps[startGap].start) {
        return Duplicate;
      }
      r := Insert(data0, start0, end0, startGap, startsInGap, endGap, endsInGap, doneCb0);
    }

    /** The part of push behind the gap searches. */
    method Insert(data0: seq<byte>, start0: int, end0: int, startGap: nat, startsInGap: bool,
                  endGap: nat, endsInGap: bool, doneCb0: Option<nat>) returns (r: PushResult)
      requires Valid(Contents()) && SearchOk(gaps, start0, end0, startGap, startsInGap, endGap)
      requires |data0| == end0 - start0 && (endsInGap <==> end0 < gaps[endGap].end)
      modifies this
      ensures !r.NoGapFound?
      ensures r.Duplicate? ==> Contents() == old(Contents())
      ensures r.Duplicate? ==> forall x :: start0 <= x < end0 ==> !InGap(gaps, x)
      ensures r.Pushed? ==> PushSpec(old(Contents()), Contents(), data0, start0)
      ensures r.TooManyGaps? <==> |old(gaps)| == MAX_GAPS && SplitsGap(old(gaps), start0, end0)
      ensures r.Pushed? ==> CallbackAdded(old(Contents()), Contents(), doneCb0)
    {
      hide Valid, SearchOk, Trimmed, Fits, SplitsGap, GapsOk, PushSpec, Carved, InGap;
      ghost var s0 := Contents();
      SearchBounds(s0, start0, end0, startGap, startsInGap, endGap);
      var duplicate, replaced, cutStart, data, start, end :=
        TrimStart(data0, start0, end0, startGap, startsInGap, endGap);
      if duplicate {
        DuplicateSplitsNothing(s0.gaps, start0, end0);
        return Duplicate;
      }
      TrimmedBounds(s0, queue, startGap, endGap, start0, end0, startsInGap, start, end);
      var cutEnd;
      data, end, cutEnd := CarveGaps(data, start, end, startGap, startsInGap, endGap, endsInGap, replaced, s0, start0,
                                     end0);
      GapBounds(s0);
      LongerExactly(s0, startGap, endGap, start0, end0, startsInGap, start, end);
      r := Store(data, start, cutStart || cutEnd, doneCb0);
      if r.Pushed? {
        PushedOk(s0, Contents(), startGap, endGap, data0, start0, start, end, queue[start]);
      }
    }

    /** Puts the trimmed frame into the queue, as a copy if little is left of it. */
    method Store(data: seq<byte>, start: int, wasCut: bool, doneCb0: Option<nat>) returns (r: PushResult)
      requires start !in queue
      modifies this`queue, this`released
      ensures r == if |gaps| > MAX_GAPS then TooManyGaps else Pushed
      ensures r.Pushed? ==> start in queue && queue[start].data == data && queue == old(queue)[start := queue[start]]
      ensures r.Pushed? ==>
                forall id :: Owed(queue, released, id) == old(Owed(queue, released, id)) + One(doneCb0, id)
    {
      var doneCb := doneCb0;
      if wasCut && |data| < MIN_STREAM_FRAME_BUFFER_SIZE {
        released := Call(released, doneCb);
        doneCb := None;
      }
      if |gaps| > MAX_GAPS {
        return TooManyGaps;
      }
      var e := Entry(data, doneCb);
      forall id ensures QueuedCallbacks(queue[start := e], id) == QueuedCallbacks(queue, id) + One(doneCb, id) {
        InsertOwes(queue, start, e, id);
      }
      queue := queue[start := e];
      return Pushed;
    }

    /** Adds a frame. A duplicate is released at once; it counts as pushed. */
    method Push(data: seq<byte>, offset: int, doneCb: Option<nat>) returns (r: PushResult)
      requires Valid(Contents()) && 0 <= offset
      modifies this
      ensures !r.Duplicate?
      ensures r.NoGapFound? <==> |data| > 0 && offset + |data| >= MAX_BYTE_COUNT
      ensures r.Pushed? ==> PushSpec(old(Contents()), Contents(), data, offset)
      ensures r.Pushed? ==> CallbackAdded(old(Contents()), Contents(), doneCb)
      ensures r.TooManyGaps? <==> |old(gaps)| == MAX_GAPS && SplitsGap(old(gaps), offset, offset + |data|)
    {
      hide SplitsGap;
      r := TryPush(data, offset, doneCb);
      if r.Duplicate? {
        DuplicateOk(Contents(), data, offset, Call(released, doneCb));
        released := Call(released, doneCb);
        r := Pushed;
      }
    }

    /** Takes the chunk at the read position; `panicked` is the check on the first gap. */
    method Pop() returns (offset: int, data: seq<byte>, doneCb: Option<nat>, panicked: bool)
      requires Valid(Contents())
      modifies this
      ensures !panicked
      ensures PopSpec(old(Contents()), Contents(), offset, data, doneCb)
    {
      ghost var s0 := Contents();
      panicked := false;
      if readPos !in queue {
        NothingToPop(s0);
        return readPos, [], None, false;
      }
      PopOk(s0);
      var entry := queue[readPos];
      queue := queue - {readPos};
      offset := readPos;
      readPos := readPos + |entry.data|;
      if gaps[0].end <= readPos {
        panicked := true;
      }
      return offset, entry.data, entry.doneCb, panicked;
    }
  }

  /** One byte at the highest offset there is makes the search for its gap panic. */
  method LastByte() returns (r: PushResult)
    ensures r.NoGapFound?
  {
    var s := new Sorter();
    r := s.Push([0], MAX_BYTE_COUNT - 1, None);
  }

  // ---------------------------------------------------------------------------------------------
  // Runs

  datatype Event =
    | PushedFrame(data: seq<byte>, offset: int, doneCb: Option<nat>)
    | PoppedChunk(data: seq<byte>, offset: int, doneCb: Option<nat>)

  ghost predicate Initial(s: State) {
    s == State(map[], 0, [Interval(0, MAX_BYTE_COUNT)], multiset{})
  }

  ghost predicate Step(s: State, e: Event, s': State) {
    match e
    case PushedFrame(data, offset, cb) => 0 <= offset && PushSpec(s, s', data, offset) && CallbackAdded(s, s', cb)
    case PoppedChunk(data, offset, cb) => PopSpec(s, s', offset, data, cb)
  }

  /** A run of successful calls, from an empty sorter. */
  ghost predicate IsRun(states: seq<State>, events: seq<Event>) {
    && |states| == |events| + 1
    && Initial(states[0])
    && forall i :: 0 <= i < |events| ==> Step(states[i], events[i], states[i + 1])
  }

  /** Some frame of the run held offset `x`. */
  ghost predicate WasPushed(events: seq<Event>, x: int) {
    exists i :: 0 <= i < |events| && events[i].PushedFrame?
      && events[i].offset <= x < events[i].offset + |events[i].data|
  }

  ghost function PushedCallbacks(events: seq<Event>, id: nat): nat {
    if events == [] then 0
    else PushedCallbacks(events[..|events| - 1], id) + (var e := events[|events| - 1];
                                                         if e.PushedFrame? then One(e.doneCb, id) else 0)
  }

  ghost function HandedOutCallbacks(events: seq<Event>, id: nat): nat {
    if events == [] then 0
    else HandedOutCallbacks(events[..|events| - 1], id) + (var e := events[|events| - 1];
                                                            if e.PoppedChunk? then One(e.doneCb, id) else 0)
  }

  ghost function PoppedBytes(events: seq<Event>): seq<byte> {
    if events == [] then []
    else PoppedBytes(events[..|events| - 1]) + (var e := events[|events| - 1]; if e.PoppedChunk? then e.data else [])
  }

  lemma InitialValid(s: State)
    requires Initial(s)
    ensures Valid(s) && forall x :: 0 <= x < MAX_BYTE_COUNT ==> InGap(s.gaps, x)
  {
    forall x | 0 <= x < MAX_BYTE_COUNT ensures InGap(s.gaps, x) {
      assert s.gaps[0].start <= x < s.gaps[0].end;
    }
  }

  lemma PrefixRun(states: seq<State>, events: seq<Event>)
    requires IsRun(states, events) && events != []
    ensures IsRun(states[..|events|], events[..|events| - 1])
    ensures Step(states[|events| - 1], events[|events| - 1], states[|events|])
  {
  }

  /**
    After every run the structures partition the offsets, and a byte counts as received exactly
    if some pushed frame held it.
   */
  lemma {:induction false} RunReceives(states: seq<State>, events: seq<Event>, x: int)
    requires IsRun(states, events)
    ensures Valid(states[|events|])
    ensures Received(states[|events|], x) <==> 0 <= x < MAX_BYTE_COUNT && WasPushed(events, x)
    decreases |events|
  {
    if events == [] {
      InitialValid(states[0]);
    } else {
      var n := |events| - 1;
      PrefixRun(states, events);
      RunReceives(states[..|events|], events[..n], x);
      assert WasPushed(events, x) <==>
             || WasPushed(events[..n], x)
             || (events[n].PushedFrame? && events[n].offset <= x < events[n].offset + |events[n].data|)
      by {
        if WasPushed(events[..n], x) {
          var i :| 0 <= i < n && events[..n][i].PushedFrame?
              && events[..n][i].offset <= x < events[..n][i].offset + |events[..n][i].data|;
          assert events[i] == events[..n][i];
        }
        if WasPushed(events, x) {
          var i :| 0 <= i < |events| && events[i].PushedFrame?
              && events[i].offset <= x < events[i].offset + |events[i].data|;
          assert i < n ==> events[..n][i] == events[i];
        }
      }
    }
  }

  /** Every callback that was pushed is called, still queued, or handed out; none is so twice. */
  lemma {:induction false} RunConservesCallbacks(states: seq<State>, events: seq<Event>, id: nat)
    requires IsRun(states, events)
    ensures var s := states[|events|];
            s.released[id] + QueuedCallbacks(s.queue, id) + HandedOutCallbacks(events, id)
            == PushedCallbacks(events, id)
    decreases |events|
  {
    if events != [] {
      var n := |events| - 1;
      PrefixRun(states, events);
      RunConservesCallbacks(states[..|events|], events[..n], id);
    }
  }

  /** The frames of a run carry the bytes of `stream` at their offsets. */
  ghost predicate Agree(events: seq<Event>, stream: seq<byte>) {
    forall i :: 0 <= i < |events| && events[i].PushedFrame? ==> FrameOf(events[i].data, events[i].offset, stream)
  }

  ghost predicate FrameOf(data: seq<byte>, offset: int, stream: seq<byte>) {
    0 <= offset && offset + |data| <= |stream| && data == stream[offset..offset + |data|]
  }

  /** Every queued byte is the byte of `stream` at its offset. */
  ghost predicate QueueOf(q: Queue, stream: seq<byte>) {
    forall x, b :: HasByte(q, x, b) ==> 0 <= x < |stream| && stream[x] == b
  }

  lemma PushKeepsQueueOf(s: State, s': State, data: seq<byte>, offset: int, stream: seq<byte>)
    requires PushSpec(s, s', data, offset) && FrameOf(data, offset, stream) && QueueOf(s.queue, stream)
    ensures QueueOf(s'.queue, stream)
  {
    forall x, b | HasByte(s'.queue, x, b) ensures 0 <= x < |stream| && stream[x] == b {
      assert HasByte(s.queue, x, b) || data[x - offset] == stream[offset..offset + |data|][x - offset];
    }
  }

  lemma PopKeepsQueueOf(s: State, s': State, offset: int, data: seq<byte>, cb: Option<nat>, stream: seq<byte>)
    requires Valid(s) && PopSpec(s, s', offset, data, cb) && QueueOf(s.queue, stream)
    ensures QueueOf(s'.queue, stream) && (data == [] || FrameOf(data, offset, stream))
  {
    forall k | 0 <= k < |data| ensures offset + k < |stream| && data[k] == stream[offset + k] {
      assert HasByte(s.queue, offset + k, data[k]);
    }
    if data != [] {
      var last := |data| - 1;
      assert HasByte(s.queue, offset + last, data[last]);
      assert data == stream[offset..offset + |data|];
    }
  }

  /** What has been popped is a prefix of the stream, whatever frames of it arrived in whatever order. */
  lemma {:induction false} RunDelivers(states: seq<State>, events: seq<Event>, stream: seq<byte>)
    requires IsRun(states, events) && Agree(events, stream)
    ensures Valid(states[|events|]) && QueueOf(states[|events|].queue, stream)
    ensures PoppedBytes(events) <= stream && |PoppedBytes(events)| == states[|events|].readPos
    decreases |events|
  {
    hide Partition, QueueOk, InGap;
    if events == [] {
      InitialValid(states[0]);
    } else {
      var n := |events| - 1;
      PrefixRun(states, events);
      RunDelivers(states[..|events|], events[..n], stream);
      match events[n] {
        case PushedFrame(data, offset, _) =>
          PushKeepsQueueOf(states[n], states[n + 1], data, offset, stream);
        case PoppedChunk(data, offset, cb) =>
          PopKeepsQueueOf(states[n], states[n + 1], offset, data, cb, stream);
          assert PoppedBytes(events) == PoppedBytes(events[..n]) + data;
      }
    }
  }
}
