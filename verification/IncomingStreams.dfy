/** The streams that the peer may open, by number from 1 on. */
module IncomingStreams {
  import opened Common

  const MAX_STREAM_COUNT: nat := 0x1000_0000_0000_0000

  /**
    `streams` says for each stream whether it is to be deleted once it is accepted. `accepted` are the
    streams that AcceptStream returned, and `limits` the values of the MAX_STREAMS frames, in order.
   */
  datatype State = State(
    streams: map<nat, bool>,
    nextToAccept: nat,
    nextToOpen: nat,
    maxStream: nat,
    maxNumStreams: nat,
    accepted: seq<nat>,
    limits: seq<nat>)

  function Initially(maxStreams: nat): State {
    State(map[], 1, 1, maxStreams, maxStreams, [], [])
  }

  /** 1, 2, ..., n */
  function CountTo(n: nat): (s: seq<nat>)
    ensures |s| == n
  {
    if n == 0 then [] else CountTo(n - 1) + [n]
  }

  lemma {:induction false} CountToAt(n: nat, i: nat)
    requires i < n
    ensures CountTo(n)[i] == i + 1
  {
    if i < n - 1 {
      CountToAt(n - 1, i);
    }
  }

  /** The highest stream number with which the peer has as many streams as it may have. */
  function Potential(h: State): int {
    h.nextToOpen - 1 + h.maxNumStreams - |h.streams|
  }

  /**
    The streams that wait for being accepted are there. The limit is exactly what the number of streams
    admits, unless that would be too large to be sent.
   */
  ghost predicate Valid(h: State) {
    && 1 <= h.nextToAccept <= h.nextToOpen <= h.maxStream + 1
    && (forall n: nat :: n in h.streams ==> 1 <= n < h.nextToOpen)
    && (forall n: nat :: h.nextToAccept <= n < h.nextToOpen ==> n in h.streams)
    && (forall n: nat :: n in h.streams && h.streams[n] ==> h.nextToAccept <= n)
    && h.maxStream <= Potential(h) && (h.maxStream < Potential(h) ==> MAX_STREAM_COUNT < Potential(h))
    && h.accepted == CountTo(h.nextToAccept - 1)
  }

  /** Open streams and unused credit together never exceed the number of streams that are allowed. */
  lemma CreditBound(h: State)
    requires Valid(h)
    ensures |h.streams| + (h.maxStream - (h.nextToOpen - 1)) <= h.maxNumStreams
    ensures Potential(h) <= MAX_STREAM_COUNT ==> |h.streams| + (h.maxStream - (h.nextToOpen - 1)) == h.maxNumStreams
  {
  }

  // ---------------------------------------------------------------------------------------------
  // The operations on values

  /** A stream is really deleted, and the peer may open another one. */
  function Deleted(h: State, num: nat): State {
    var h1 := h.(streams := h.streams - {num});
    if h.maxNumStreams > |h1.streams| && Potential(h1) <= MAX_STREAM_COUNT
    then h1.(maxStream := Potential(h1), limits := h.limits + [Potential(h1)])
    else h1
  }

  ghost predicate AcceptSpec(h: State, h': State, num: nat) {
    && num == h.nextToAccept && num in h.streams
    && var h1 := h.(nextToAccept := h.nextToAccept + 1, accepted := h.accepted + [num]);
       h' == if h.streams[num] then Deleted(h1, num) else h1
  }

  /** All streams up to `num` are opened. */
  ghost predicate OpenSpec(h: State, h': State, num: nat) {
    && h.nextToOpen <= num <= h.maxStream
    && h' == h.(streams := h'.streams, nextToOpen := num + 1)
    && (forall n: nat :: n in h'.streams <==> n in h.streams || h.nextToOpen <= n <= num)
    && (forall n: nat :: n in h'.streams ==> h'.streams[n] == (n in h.streams && h.streams[n]))
  }

  /** A stream that was not accepted yet is deleted later. */
  ghost predicate DeleteSpec(h: State, h': State, num: nat) {
    && num in h.streams
    && (if num >= h.nextToAccept then !h.streams[num] && h' == h.(streams := h.streams[num := true])
        else h' == Deleted(h, num))
  }

  /** The limit grows whenever it changes. */
  lemma DeletedKeeps(h: State, num: nat)
    requires Valid(h) && num in h.streams && num < h.nextToAccept
    ensures Valid(Deleted(h, num)) && h.maxStream <= Deleted(h, num).maxStream
    ensures Potential(Deleted(h, num)) <= MAX_STREAM_COUNT ==>
              h.maxStream < Deleted(h, num).maxStream
                && Deleted(h, num).limits == h.limits + [Deleted(h, num).maxStream]
  {
    CardRemove(h.streams, num);
  }

  lemma AcceptKeeps(h: State, h': State, num: nat)
    requires Valid(h) && AcceptSpec(h, h', num)
    ensures Valid(h') && h.maxStream <= h'.maxStream && h'.accepted == h.accepted + [|h.accepted| + 1]
  {
    hide CountTo;
    CountNext(h.accepted, num);
    if h.streams[num] {
      CardRemove(h.streams, num);
    }
  }

  function Interval(lo: nat, hi: nat): (r: set<nat>)
    requires lo <= hi
    ensures |r| == hi - lo && forall n: nat :: n in r <==> lo <= n < hi
    decreases hi
  {
    if lo == hi then {} else Interval(lo, hi - 1) + {hi - 1}
  }

  lemma CardUnion(m: map<nat, bool>, m': map<nat, bool>, lo: nat, hi: nat)
    requires lo <= hi && forall n: nat :: n in m' <==> n in m || lo <= n < hi
    requires forall n: nat :: lo <= n < hi ==> n !in m
    ensures |m'| == |m| + hi - lo
  {
    assert m'.Keys == m.Keys + Interval(lo, hi);
    assert m.Keys !! Interval(lo, hi);
  }

  lemma OpenKeeps(h: State, h': State, num: nat)
    requires Valid(h) && OpenSpec(h, h', num)
    ensures Valid(h') && h.maxStream <= h'.maxStream && Potential(h') == Potential(h)
  {
    CardUnion(h.streams, h'.streams, h.nextToOpen, num + 1);
  }

  lemma DeleteKeeps(h: State, h': State, num: nat)
    requires Valid(h) && DeleteSpec(h, h', num)
    ensures Valid(h') && h.maxStream <= h'.maxStream
  {
    if num < h.nextToAccept {
      DeletedKeeps(h, num);
    }
  }

  // ---------------------------------------------------------------------------------------------
  // Runs

  datatype Event = Accept(num: nat) | Open(num: nat) | Delete(num: nat)

  ghost predicate Step(h: State, e: Event, h': State) {
    match e
    case Accept(num) => AcceptSpec(h, h', num)
    case Open(num) => OpenSpec(h, h', num)
    case Delete(num) => DeleteSpec(h, h', num)
  }

  ghost predicate IsRun(hs: seq<State>, es: seq<Event>) {
    && |hs| == |es| + 1 && hs[0] == Initially(hs[0].maxNumStreams)
    && forall i :: 0 <= i < |es| ==> Step(hs[i], es[i], hs[i + 1])
  }

  /** The streams that were accepted in a run, in order. */
  function Accepts(es: seq<Event>): seq<nat> {
    if es == [] then []
    else Accepts(es[..|es| - 1]) + (if es[|es| - 1].Accept? then [es[|es| - 1].num] else [])
  }

  /** Credit is kept, the limit never decreases, and streams are accepted as 1, 2, 3, ... */
  lemma {:induction false} RunKeeps(hs: seq<State>, es: seq<Event>)
    requires IsRun(hs, es)
    ensures forall i :: 0 <= i < |hs| ==> Valid(hs[i])
    ensures forall i :: 0 <= i < |es| ==> hs[i].maxStream <= hs[i + 1].maxStream
    ensures Accepts(es) == hs[|es|].accepted == CountTo(|Accepts(es)|)
  {
    hide Valid, AcceptSpec, OpenSpec, DeleteSpec;
    if es == [] {
      StartValid(hs[0]);
    } else {
      var n := |es| - 1;
      RunKeeps(hs[..n + 1], es[..n]);
      assert hs[..n + 1][n] == hs[n] && Step(hs[n], es[n], hs[n + 1]);
      StepKeeps(hs[n], es[n], hs[n + 1]);
    }
    AcceptedCount(hs[|es|]);
  }

  /** In every run the streams are accepted in ascending order, so none of them twice. */
  lemma AcceptedOnce(hs: seq<State>, es: seq<Event>, i: nat, j: nat)
    requires IsRun(hs, es) && i < j < |es| && es[i].Accept? && es[j].Accept?
    ensures es[i].num < es[j].num
  {
    hide Valid, Step, CountTo;
    RunKeeps(hs[..j + 2], es[..j + 1]);
    AcceptsPrefix(es[..j + 1], i);
    AcceptsPrefix(es[..j + 1], j);
    var a := Accepts(es[..j + 1]);
    assert es[..j + 1][..i] == es[..i] && es[..j + 1][..j] == es[..j];
    AcceptsGrow(es, i + 1, j);
    assert es[..i + 1][..i] == es[..i];
    CountToAt(|a|, |Accepts(es[..i])|);
    CountToAt(|a|, |Accepts(es[..j])|);
  }

  /** An accepted stream stands behind all that were accepted before it. */
  lemma {:induction false} AcceptsPrefix(es: seq<Event>, i: nat)
    requires i < |es| && es[i].Accept?
    ensures |Accepts(es[..i])| < |Accepts(es)| && Accepts(es)[|Accepts(es[..i])|] == es[i].num
  {
    var n := |es| - 1;
    if i < n {
      AcceptsPrefix(es[..n], i);
      assert es[..n][..i] == es[..i];
    }
  }

  lemma {:induction false} AcceptsGrow(es: seq<Event>, i: nat, j: nat)
    requires i <= j <= |es|
    ensures |Accepts(es[..i])| <= |Accepts(es[..j])|
    decreases j
  {
    if i < j {
      AcceptsGrow(es, i, j - 1);
      assert es[..j][..j - 1] == es[..j - 1];
    }
  }

  lemma StartValid(h: State)
    requires h == Initially(h.maxNumStreams)
    ensures Valid(h) && h.accepted == []
  {
  }

  lemma AcceptedCount(h: State)
    requires Valid(h)
    ensures h.accepted == CountTo(|h.accepted|)
  {
  }

  lemma StepKeeps(h: State, e: Event, h': State)
    requires Valid(h) && Step(h, e, h')
    ensures Valid(h') && h.maxStream <= h'.maxStream
    ensures h'.accepted == h.accepted + (if e.Accept? then [e.num] else [])
  {
    hide Valid, Potential;
    match e {
      case Accept(num) => AcceptKeeps(h, h', num);
      case Open(num) => OpenKeeps(h, h', num);
      case Delete(num) => DeleteKeeps(h, h', num);
    }
  }

  // ---------------------------------------------------------------------------------------------

  datatype AcceptResult = Accepted(num: nat) | WouldBlock | AcceptClosed | AcceptFailed

  datatype GetResult = Stream(num: nat) | NoStream | LimitExceeded

  class Map {
    var streams: map<nat, bool>
    var nextStreamToAccept: nat
    var nextStreamToOpen: nat
    var maxStream: nat
    const maxNumStreams: nat
    var closed: bool
    ghost var accepted: seq<nat>
    var limits: seq<nat>

    ghost function Contents(): State
      reads this
    {
      State(streams, nextStreamToAccept, nextStreamToOpen, maxStream, maxNumStreams, accepted, limits)
    }

    constructor (maxStreams: nat)
      ensures Contents() == Initially(maxStreams) && Valid(Contents()) && !closed
    {
      streams, nextStreamToAccept, nextStreamToOpen := map[], 1, 1;
      maxStream, maxNumStreams := maxStreams, maxStreams;
      accepted, limits, closed := [], [], false;
    }

    /** One look at the map; without a stream the caller waits for the next one to be opened. */
    method AcceptStream() returns (r: AcceptResult)
      requires Valid(Contents())
      modifies this
      ensures closed == old(closed) && Valid(Contents()) && !r.AcceptFailed?
      ensures r.AcceptClosed? <==> closed
      ensures r.WouldBlock? <==> !closed && old(nextStreamToAccept) == old(nextStreamToOpen)
      ensures if r.Accepted? then AcceptSpec(old(Contents()), Contents(), r.num) else Contents() == old(Contents())
    {
      hide CountTo, Potential;
      ghost var h := Contents();
      var num := nextStreamToAccept;
      if closed {
        return AcceptClosed;
      }
      if num !in streams {
        return WouldBlock;
      }
      var shouldDelete := streams[num];
      nextStreamToAccept := nextStreamToAccept + 1;
      accepted := accepted + [num];
      if shouldDelete {
        var failed := DeleteAccepted(num);
        if failed {
          return AcceptFailed;
        }
      }
      AcceptKeeps(h, Contents(), num);
      return Accepted(num);
    }

    /** Deletes a stream that was accepted, and allows the peer to open a new one. */
    method DeleteAccepted(num: nat) returns (failed: bool)
      requires num in streams ==> num < nextStreamToAccept
      modifies `streams, `maxStream, `limits
      ensures failed <==> num !in old(streams)
      ensures Contents() == if failed then old(Contents()) else Deleted(old(Contents()), num)
    {
      if num !in streams {
        return true;
      }
      streams := streams - {num};
      if maxNumStreams > |streams| {
        var limit := nextStreamToOpen + (maxNumStreams - |streams|) - 1;
        if limit <= MAX_STREAM_COUNT {
          maxStream := limit;
          limits := limits + [maxStream];
        }
      }
      return false;
    }

    method GetOrOpenStream(num: nat) returns (r: GetResult)
      requires Valid(Contents()) && 1 <= num
      modifies `streams, `nextStreamToOpen
      ensures Valid(Contents())
      ensures r.LimitExceeded? <==> num > maxStream
      ensures r.Stream? ==> r.num == num && num in streams && !streams[num]
      ensures r.NoStream? ==> num < old(nextStreamToOpen) && (num in streams ==> streams[num])
      ensures if old(nextStreamToOpen) <= num <= maxStream then r.Stream? && OpenSpec(old(Contents()), Contents(), num)
              else Contents() == old(Contents())
    {
      if num > maxStream {
        return LimitExceeded;
      }
      if num < nextStreamToOpen {
        if num in streams && !streams[num] {
          return Stream(num);
        }
        return NoStream;
      }
      ghost var h := Contents();
      var newNum := nextStreamToOpen;
      while newNum <= num
        modifies `streams
        invariant nextStreamToOpen <= newNum <= num + 1
        invariant forall n: nat :: n in streams <==> n in h.streams || h.nextToOpen <= n < newNum
        invariant forall n: nat :: n in streams ==> streams[n] == (n in h.streams && h.streams[n])
      {
        streams := streams[newNum := false];
        newNum := newNum + 1;
      }
      nextStreamToOpen := num + 1;
      assert OpenSpec(h, Contents(), num);
      OpenKeeps(h, Contents(), num);
      return Stream(num);
    }

    /** Fails for a stream that is not there, or that is already to be deleted. */
    method DeleteStream(num: nat) returns (failed: bool)
      requires Valid(Contents())
      modifies this
      ensures Valid(Contents()) && closed == old(closed)
      ensures failed <==> num !in old(streams) || old(streams)[num]
      ensures if failed then Contents() == old(Contents()) else DeleteSpec(old(Contents()), Contents(), num)
    {
      ghost var h := Contents();
      if num !in streams {
        return true;
      }
      if num >= nextStreamToAccept {
        if streams[num] {
          return true;
        }
        streams := streams[num := true];
      } else {
        failed := DeleteAccepted(num);
      }
      DeleteKeeps(h, Contents(), num);
      return false;
    }

    method CloseWithError()
      modifies `closed
      ensures closed
    {
      closed := true;
    }
  }

  lemma CountNext(s: seq<nat>, num: nat)
    requires 1 <= num && s == CountTo(num - 1)
    ensures s + [num] == CountTo(num)
  {
  }
}
