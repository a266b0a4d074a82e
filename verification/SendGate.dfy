/**
  The gate in front of every datagram: the connection asks the sent packet handler for the send mode before
  it sends, so that a server sends little to an address it has not validated (section 8.1 of RFC 9000).
 */
module SendGate {
  import opened Common
  import opened LossRecovery
  import opened PacketSpaces
  import opened SentPacketHandler
  import opened SentPacketRuns
  import H = SentPacketHistory
  import HH = HandlerHistory

  /** A call of the sent packet handler other than for a packet that is sent, or a datagram of packets that are. */
  datatype Step = Call(e: Event) | Datagram(sends: seq<Event>)

  function Size(sends: seq<Event>): nat {
    if sends == [] then 0
    else
      var e := sends[|sends| - 1];
      Size(sends[..|sends| - 1]) + (if e.Send? then e.x.size else 0)
  }

  /** Packets that fit into one datagram. */
  predicate IsDatagram(sends: seq<Event>, maxSize: nat) {
    (forall i :: 0 <= i < |sends| ==> sends[i].Send?) && Size(sends) <= maxSize
  }

  function SendAll(h: State, sends: seq<Event>): State {
    if sends == [] then h else Next(SendAll(h, sends[..|sends| - 1]), sends[|sends| - 1])
  }

  function After(h: State, s: Step): State {
    match s
    case Call(e) => Next(h, e)
    case Datagram(sends) => SendAll(h, sends)
  }

  /** A datagram is sent only to a validated address or below the limit. */
  ghost predicate Allowed(h: State, s: Step, maxSize: nat) {
    match s
    case Call(e) => !e.Send?
    case Datagram(sends) => !IsAmplificationLimited(h) && IsDatagram(sends, maxSize)
  }

  ghost predicate IsChain(hs: seq<State>, ss: seq<Step>, maxSize: nat) {
    && |hs| == |ss| + 1
    && forall i :: 0 <= i < |ss| ==> Allowed(hs[i], ss[i], maxSize) && hs[i + 1] == After(hs[i], ss[i])
  }

  // ---------------------------------------------------------------------------------------------
  // What a chain of steps sends and receives

  /** The bytes of the packets in a datagram that can be sent. */
  function DatagramOut(h: State, sends: seq<Event>): nat {
    if sends == [] then 0 else DatagramOut(h, sends[..|sends| - 1]) + HH.BytesOut(h, sends[|sends| - 1])
  }

  function BytesOut(h: State, s: Step): nat {
    if s.Datagram? then DatagramOut(h, s.sends) else 0
  }

  function BytesIn(s: Step): nat {
    if s.Call? then HH.BytesIn(s.e) else 0
  }

  ghost function TotalOut(hs: seq<State>, ss: seq<Step>): nat
    requires |hs| == |ss| + 1
    decreases |ss|
  {
    if ss == [] then 0 else var n := |ss| - 1; TotalOut(hs[..n + 1], ss[..n]) + BytesOut(hs[n], ss[n])
  }

  function TotalIn(ss: seq<Step>): nat {
    if ss == [] then 0 else TotalIn(ss[..|ss| - 1]) + BytesIn(ss[|ss| - 1])
  }

  /** A Handshake packet was received. */
  ghost predicate HandshakeReceived(ss: seq<Step>) {
    exists i :: 0 <= i < |ss| && ss[i].Call? && ss[i].e.Received? && ss[i].e.level.Handshake?
  }

  lemma SamePresence(h: State, e: Event, l: H.Level)
    requires e.Send?
    ensures Get(Next(h, e).spaces, l).Some? <==> Get(h.spaces, l).Some?
  {
    hide SendState, PopSpace, SentSpace, Put, NextNumber;
    if Get(h.spaces, e.x.level).Some? {
      HH.SentSpaces(h, e.x, e.c, e.r);
      var sp := Get(h.spaces, e.x.level).value;
      HH.O.PutGet(h.spaces, e.x.level, SentSpace(PopSpace(sp, e.r), NextNumber(sp), e.x), l);
    }
  }

  /** What is counted, and nothing else, in a datagram. */
  lemma {:induction false} DatagramCounts(h: State, sends: seq<Event>, l: H.Level)
    requires forall i :: 0 <= i < |sends| ==> sends[i].Send?
    ensures var h' := SendAll(h, sends);
            && h'.bytesSent == h.bytesSent + DatagramOut(h, sends) && h'.client == h.client
            && h'.bytesReceived == h.bytesReceived && h'.validated == h.validated
            && (Get(h'.spaces, l).Some? <==> Get(h.spaces, l).Some?)
  {
    hide Next, Get;
    if sends != [] {
      var n := |sends| - 1;
      var h1 := SendAll(h, sends[..n]);
      DatagramCounts(h, sends[..n], l);
      DatagramCounts(h, sends[..n], sends[n].x.level);
      HH.RestStep(h1, sends[n]);
      SamePresence(h1, sends[n], l);
    }
  }

  lemma {:induction false} OutAtMost(h: State, sends: seq<Event>)
    requires forall i :: 0 <= i < |sends| ==> sends[i].Send?
    ensures DatagramOut(h, sends) <= Size(sends)
    ensures (forall i :: 0 <= i < |sends| ==> Get(h.spaces, sends[i].x.level).Some?) ==>
              DatagramOut(h, sends) == Size(sends)
  {
    if sends != [] {
      OutAtMost(h, sends[..|sends| - 1]);
    }
  }

  /** Every step counts what it sends and receives; only a Handshake packet validates the address of a client. */
  lemma StepCounts(h: State, s: Step, maxSize: nat)
    requires Allowed(h, s, maxSize)
    ensures var h' := After(h, s);
            && h'.bytesSent == h.bytesSent + BytesOut(h, s) && h'.bytesReceived == h.bytesReceived + BytesIn(s)
            && h'.client == h.client
            && (h'.validated <==> h.validated || (s.Call? && HH.Validates(h, s.e)))
  {
    hide Next, SendAll, Size, DatagramOut;
    match s {
      case Call(e) => HH.RestStep(h, e);
      case Datagram(sends) => DatagramCounts(h, sends, H.Initial);
    }
  }

  lemma SideKept(h: State, s: Step, maxSize: nat)
    requires Allowed(h, s, maxSize)
    ensures After(h, s).client == h.client
  {
    hide After, Allowed;
    StepCounts(h, s, maxSize);
  }

  /** In every chain, the counters are those of the steps, and the address is validated exactly as they say. */
  lemma {:induction false} ChainCounts(hs: seq<State>, ss: seq<Step>, maxSize: nat)
    requires IsChain(hs, ss, maxSize) && IsStart(hs[0])
    ensures var h := hs[|ss|];
            && h.bytesSent == TotalOut(hs, ss) && h.bytesReceived == TotalIn(ss) && h.client == hs[0].client
            && (h.validated <==> hs[0].validated || (!h.client && HandshakeReceived(ss)))
    decreases |ss|
  {
    hide After, Allowed, IsStart, HandshakeReceived;
    if ss == [] {
      StartCounts(hs[0]);
    } else {
      var n := |ss| - 1;
      ChainCounts(hs[..n + 1], ss[..n], maxSize);
      assert hs[..n + 1][n] == hs[n] && hs[..n + 1][0] == hs[0];
      StepCounts(hs[n], ss[n], maxSize);
      ReceivedNext(ss);
    }
  }

  lemma StartCounts(h: State)
    requires IsStart(h)
    ensures h.bytesSent == 0 == h.bytesReceived && !HandshakeReceived([])
  {
  }

  lemma ReceivedNext(ss: seq<Step>)
    requires ss != []
    ensures var s := ss[|ss| - 1];
            HandshakeReceived(ss) <==>
            HandshakeReceived(ss[..|ss| - 1]) || (s.Call? && s.e.Received? && s.e.level.Handshake?)
  {
    var n := |ss| - 1;
    if HandshakeReceived(ss[..n]) {
      var i :| 0 <= i < n && ss[..n][i].Call? && ss[..n][i].e.Received? && ss[..n][i].e.level.Handshake?;
      assert ss[i].Call? && ss[i].e.Received?;
    }
    if HandshakeReceived(ss) {
      var i :| 0 <= i < |ss| && ss[i].Call? && ss[i].e.Received? && ss[i].e.level.Handshake?;
      assert i < n ==> ss[..n][i].Call? && ss[..n][i].e.Received?;
    }
  }

  // ---------------------------------------------------------------------------------------------
  // The bound

  /** What was sent to an address that is not validated. */
  ghost predicate Bound(h: State, sent: nat, received: nat, maxSize: nat) {
    !h.validated ==> sent < 3 * received + maxSize
  }

  lemma StepBound(h: State, s: Step, sent: nat, received: nat, maxSize: nat)
    requires Allowed(h, s, maxSize) && Bound(h, sent, received, maxSize)
    requires h.bytesSent == sent && h.bytesReceived == received
    ensures Bound(After(h, s), sent + BytesOut(h, s), received + BytesIn(s), maxSize)
  {
    hide After, Size, DatagramOut;
    StepCounts(h, s, maxSize);
    if s.Datagram? {
      OutAtMost(h, s.sends);
    }
  }

  /**
    Whatever the calls and datagrams in between: as long as the address of the peer is not validated, the datagrams
    have less than three times the bytes that were received and one datagram.
   */
  lemma {:induction false} AmplificationBound(hs: seq<State>, ss: seq<Step>, maxSize: nat)
    requires IsChain(hs, ss, maxSize) && IsStart(hs[0]) && 0 < maxSize
    ensures Bound(hs[|ss|], TotalOut(hs, ss), TotalIn(ss), maxSize)
    decreases |ss|
  {
    hide After, Allowed, Bound, IsStart, HandshakeReceived, BytesOut, BytesIn;
    if ss == [] {
      StartBound(hs[0], maxSize);
    } else {
      var n := |ss| - 1;
      AmplificationBound(hs[..n + 1], ss[..n], maxSize);
      ChainCounts(hs[..n + 1], ss[..n], maxSize);
      assert hs[..n + 1][n] == hs[n];
      StepBound(hs[n], ss[n], TotalOut(hs[..n + 1], ss[..n]), TotalIn(ss[..n]), maxSize);
    }
  }

  lemma StartBound(h: State, maxSize: nat)
    requires 0 < maxSize
    ensures Bound(h, 0, 0, maxSize)
  {
  }

  /**
    Nothing may be sent exactly at the limit on what is sent to an address that is not validated, or with 25000
    tracked packets. Otherwise probes come before everything else, in the space that they are for; and without
    probes, the congestion controller, 20000 tracked packets and the pacer decide, in this order.
   */
  lemma ModeExactly(hs: seq<State>, ss: seq<Step>, maxSize: nat, canSend: bool, hasBudget: bool)
    requires IsChain(hs, ss, maxSize) && IsStart(hs[0])
    ensures var h, mode := hs[|ss|], Mode(hs[|ss|], canSend, hasBudget);
            if (!h.validated && TotalOut(hs, ss) >= 3 * TotalIn(ss)) || TrackedPackets(h.spaces) >= 25000 then
              mode.SendNone?
            else if h.numProbes > 0 then mode == h.ptoMode
            else
              && (mode.SendAck? <==> !canSend || TrackedPackets(h.spaces) >= 20000)
              && (!mode.SendAck? ==> if hasBudget then mode.SendAny? else mode.SendPacingLimited?)
  {
    hide IsChain, IsStart, HandshakeReceived, TrackedPackets;
    ChainCounts(hs, ss, maxSize);
    ChainLength(hs, ss, maxSize);
  }

  lemma ChainLength(hs: seq<State>, ss: seq<Step>, maxSize: nat)
    requires IsChain(hs, ss, maxSize)
    ensures |hs| == |ss| + 1
  {
  }

  /**
    What the rest of the connection does while it sends: what the congestion controller says, how often
    packing a probe packet fails, whether the path MTU is to be probed, the packets that are packed, whether
    another full packet with the same marking goes into the same batch, and whether the send queue is full or
    packets have been received.
   */
  datatype Choice = Choice(
    canSend: bool,
    hasBudget: bool,
    failures: nat,
    mtuProbe: bool,
    packed: Option<seq<Event>>,
    sameBatch: bool,
    wouldBlock: bool,
    received: bool)

  ghost predicate ChoicesOk(cs: seq<Choice>, maxSize: nat) {
    forall i :: 0 <= i < |cs| && cs[i].packed.Some? ==> IsDatagram(cs[i].packed.value, maxSize)
  }

  /** One datagram of what was packed, if anything was. */
  function Packed(h: State, c: Choice): State {
    if c.packed.Some? then SendAll(h, c.packed.value) else h
  }

  /**
    No datagram follows the one that was just sent: the mode forbids it, or the send queue is full or packets
    have been received. In the middle of a batch, only the mode counts.
   */
  predicate Stops(h: State, c: Choice, gso: bool) {
    || !Mode(h, c.canSend, c.hasBudget).SendAny?
    || (!(gso && c.sameBatch) && (c.wouldBlock || c.received))
  }

  /** The datagrams of a confirmed connection: up to the first that stops sending, or that cannot be packed. */
  function SentInLoop(h: State, cs: seq<Choice>, gso: bool): State
    decreases |cs|
  {
    if cs == [] || cs[0].packed.None? then h
    else
      var h' := Packed(h, cs[0]);
      if Stops(h', cs[0], gso) then h' else SentInLoop(h', cs[1..], gso)
  }

  /** The first `k` datagrams are sent. */
  function SentFirst(h: State, cs: seq<Choice>, k: nat): State
    requires k <= |cs|
  {
    if k == 0 then h else Packed(SentFirst(h, cs, k - 1), cs[k - 1])
  }

  lemma {:induction false} FirstAndRest(h: State, cs: seq<Choice>, k: nat)
    requires k < |cs|
    ensures SentFirst(h, cs, k + 1) == SentFirst(Packed(h, cs[0]), cs[1..], k)
  {
    hide Packed;
    if k > 0 {
      FirstAndRest(h, cs, k - 1);
    }
  }

  /**
    A confirmed connection sends datagrams one after the other. It goes on after each exactly if the mode is SendAny
    and, except in the middle of a batch, the send queue is not full and no packets have been received.
   */
  lemma {:induction false} LoopExactly(h: State, cs: seq<Choice>, gso: bool) returns (k: nat)
    ensures k <= |cs| && SentInLoop(h, cs, gso) == SentFirst(h, cs, k)
    ensures forall i :: 0 <= i < k ==> cs[i].packed.Some?
    ensures forall i :: 0 <= i < k - 1 ==>
              && Mode(SentFirst(h, cs, i + 1), cs[i].canSend, cs[i].hasBudget).SendAny?
              && ((gso && cs[i].sameBatch) || (!cs[i].wouldBlock && !cs[i].received))
    ensures k < |cs| ==>
              || cs[k].packed.None?
              || (&& k > 0
                  && (|| !Mode(SentFirst(h, cs, k), cs[k - 1].canSend, cs[k - 1].hasBudget).SendAny?
                      || (!(gso && cs[k - 1].sameBatch) && (cs[k - 1].wouldBlock || cs[k - 1].received))))
    decreases |cs|
  {
    hide Packed, Mode;
    if cs == [] || cs[0].packed.None? {
      return 0;
    }
    var h' := Packed(h, cs[0]);
    assert SentFirst(h, cs, 1) == Packed(SentFirst(h, cs, 0), cs[0]) == h';
    if Stops(h', cs[0], gso) {
      return 1;
    }
    var m := LoopExactly(h', cs[1..], gso);
    k := m + 1;
    forall i | 0 <= i < k ensures SentFirst(h, cs, i + 1) == SentFirst(h', cs[1..], i) {
      FirstAndRest(h, cs, i);
    }
    forall i | 0 <= i < k - 1
      ensures Mode(SentFirst(h, cs, i + 1), cs[i].canSend, cs[i].hasBudget).SendAny?
      ensures (gso && cs[i].sameBatch) || (!cs[i].wouldBlock && !cs[i].received)
    {
      if i > 0 {
        assert cs[i] == cs[1..][i - 1];
        assert SentFirst(h, cs, i + 1) == SentFirst(h', cs[1..], i);
      }
    }
  }

  /** A packet of the space can be taken for a probe. */
  predicate CanProbe(h: State, level: H.Level) {
    Get(h.spaces, level).Some? && FirstOutstanding(Get(h.spaces, level).value.history.packets).Some?
  }

  /** Up to `n` packets of the space are taken for a probe. */
  function Probed(h: State, level: H.Level, n: nat): State
    decreases n
  {
    if n == 0 || !CanProbe(h, level) then h else Probed(Next(h, Probe(level)), level, n - 1)
  }

  /** What sending does in each mode; after a probe it goes on, unless packing failed or the send queue is full. */
  function Triggered(h: State, cs: seq<Choice>, confirmed: bool, gso: bool): State
    decreases |cs|
  {
    if cs == [] then h
    else
      var c := cs[0];
      var mode := Mode(h, c.canSend, c.hasBudget);
      var level := HH.ProbeLevel(mode);
      if level.Some? then
        var h1 := Packed(Probed(h, level.value, c.failures + 1), c);
        if c.packed.None? || c.wouldBlock then h1 else Triggered(h1, cs[1..], confirmed, gso)
      else if mode.SendNone? then h
      else if mode.SendAny? && confirmed && !c.mtuProbe then SentInLoop(h, cs, gso)
      else Packed(h, c)
  }

  /** A round of sending probes after which there is another one: a probe was packed, and the queue is not full. */
  predicate GoesOn(h: State, c: Choice) {
    HH.ProbeLevel(Mode(h, c.canSend, c.hasBudget)).Some? && c.packed.Some? && !c.wouldBlock
  }

  /** After `k` such rounds. */
  function Rounds(h: State, cs: seq<Choice>, k: nat): State
    requires k <= |cs|
  {
    if k == 0 then h
    else
      var h1, c := Rounds(h, cs, k - 1), cs[k - 1];
      var level := HH.ProbeLevel(Mode(h1, c.canSend, c.hasBudget));
      if level.Some? then Packed(Probed(h1, level.value, c.failures + 1), c) else h1
  }

  /** Sending goes on until the probes are sent, and then with whatever the mode is: it does not stop after one. */
  lemma {:induction false} ProbesGoOn(h: State, cs: seq<Choice>, k: nat, confirmed: bool, gso: bool)
    requires k <= |cs| && forall i :: 0 <= i < k ==> GoesOn(Rounds(h, cs, i), cs[i])
    ensures Triggered(h, cs, confirmed, gso) == Triggered(Rounds(h, cs, k), cs[k..], confirmed, gso)
    decreases k
  {
    hide Mode, Packed, Probed, SentInLoop;
    if k == 0 {
      assert cs[0..] == cs;
    } else {
      ProbesGoOn(h, cs, k - 1, confirmed, gso);
      assert GoesOn(Rounds(h, cs, k - 1), cs[k - 1]) && cs[k - 1..][1..] == cs[k..];
    }
  }

  /** In a probe mode, the first thing that happens is that a packet of this space is taken for the probe. */
  ghost predicate ProbesFirst(h: State, cs: seq<Choice>, steps: seq<Step>, steps': seq<Step>) {
    cs != [] ==>
      var level := HH.ProbeLevel(Mode(h, cs[0].canSend, cs[0].hasBudget));
      level.Some? && CanProbe(h, level.value) ==> steps + [Call(Probe(level.value))] <= steps'
  }

  /** The calls of the handler that come from the frames of a packet. */
  predicate AreCalls(es: seq<Event>) {
    forall i :: 0 <= i < |es| ==> !es[i].Send?
  }

  function CallAll(h: State, es: seq<Event>): State {
    if es == [] then h else Next(CallAll(h, es[..|es| - 1]), es[|es| - 1])
  }

  /** What a long header packet does after the instant ACK and before it counts as received. */
  function AfterFrames(h: State, client: bool, level: H.Level, clock: Clock, calls: seq<Event>): State {
    CallAll(if !client && level.Handshake? then Next(h, Drop(H.Initial, clock)) else h, calls)
  }

  class Connection {
    var h: State
    var handshakeConfirmed: bool
    var receivedFirstPacket: bool
    const client: bool
    const enableInstantACK: bool
    const gso: bool
    const maxDatagramSize: nat
    ghost var states: seq<State>
    ghost var steps: seq<Step>

    /** All that the connection does is a chain of allowed steps from the start. */
    ghost predicate Valid()
      reads this
    {
      IsChain(states, steps, maxDatagramSize) && IsStart(states[0]) && states[|steps|] == h && 0 < maxDatagramSize
      && h.client == client
    }

    constructor (start: State, maxDatagramSize: nat, enableInstantACK: bool, gso: bool)
      requires IsStart(start) && 0 < maxDatagramSize
      ensures Valid() && h == start && !handshakeConfirmed && !receivedFirstPacket
      ensures this.maxDatagramSize == maxDatagramSize && this.enableInstantACK == enableInstantACK && this.gso == gso
    {
      h := start;
      handshakeConfirmed, receivedFirstPacket := false, false;
      client := start.client;
      this.enableInstantACK := enableInstantACK;
      this.gso := gso;
      this.maxDatagramSize := maxDatagramSize;
      states := [start];
      steps := [];
    }

    method Do(s: Step)
      requires Valid() && Allowed(h, s, maxDatagramSize)
      modifies `h, `states, `steps
      ensures Valid() && h == After(old(h), s)
      ensures steps == old(steps) + [s]
    {
      hide IsStart, Allowed, Next, SendAll;
      SideKept(h, s, maxDatagramSize);
      h := After(h, s);
      states := states + [h];
      steps := steps + [s];
    }

    /** Sends if there is room; nil packets are not sent. */
    method SendPacked(c: Choice)
      requires Valid() && !IsAmplificationLimited(h) && ChoicesOk([c], maxDatagramSize)
      modifies `h, `states, `steps
      ensures Valid() && h == Packed(old(h), c) && old(steps) <= steps
      ensures c.packed.Some? ==> steps != [] && steps[|steps| - 1] == Datagram(c.packed.value)
    {
      if c.packed.Some? {
        assert [c][0] == c;
        Do(Datagram(c.packed.value));
      }
    }

    /** Queues probe packets until one can be packed; the only datagram is the last thing that is sent. */
    method SendProbePacket(level: H.Level, c: Choice) returns (ok: bool)
      requires Valid() && !IsAmplificationLimited(h) && ChoicesOk([c], maxDatagramSize)
      modifies `h, `states, `steps
      ensures Valid() && (ok <==> c.packed.Some?) && old(steps) <= steps
      ensures h == Packed(Probed(old(h), level, c.failures + 1), c)
      ensures CanProbe(old(h), level) ==> old(steps) + [Call(Probe(level))] <= steps
      ensures ok ==> steps != [] && steps[|steps| - 1] == Datagram(c.packed.value)
    {
      hide IsChain, IsStart, Next, After, CanProbe;
      var i := 0;
      while i <= c.failures
        invariant i <= c.failures + 1
        invariant Valid() && !IsAmplificationLimited(h) && old(steps) <= steps
        invariant Probed(old(h), level, c.failures + 1) == Probed(h, level, c.failures + 1 - i)
        invariant if i == 0 then h == old(h) && steps == old(steps) else old(steps) + [Call(Probe(level))] <= steps
      {
        ghost var before := h;
        var queued := CanProbe(h, level);
        if !queued {
          break;
        }
        ProbeNotLimited(h, level);
        Do(Call(Probe(level)));
        AfterProbe(before, level);
        i := i + 1;
      }
      if c.packed.None? {
        return false;
      }
      SendPacked(c);
      return true;
    }

    /**
      A probe of the path MTU and what is sent before the handshake is confirmed are one datagram. Otherwise,
      there are datagrams as long as the mode allows it.
     */
    method SendPackets(cs: seq<Choice>)
      requires Valid() && !IsAmplificationLimited(h) && cs != [] && ChoicesOk(cs, maxDatagramSize)
      modifies `h, `states, `steps
      ensures Valid() && old(steps) <= steps
      ensures h == if !handshakeConfirmed || cs[0].mtuProbe then Packed(old(h), cs[0]) else SentInLoop(old(h), cs, gso)
    {
      hide IsChain, IsStart, SentInLoop;
      if handshakeConfirmed && cs[0].mtuProbe {
        SendPacked(cs[0]);
        return;
      }
      if !handshakeConfirmed {
        SendPacked(cs[0]);
        return;
      }
      if gso {
        SendPacketsWithGSO(cs);
      } else {
        SendPacketsWithoutGSO(cs);
      }
    }

    method SendPacketsWithoutGSO(cs: seq<Choice>)
      requires Valid() && !gso && !IsAmplificationLimited(h) && ChoicesOk(cs, maxDatagramSize)
      modifies `h, `states, `steps
      ensures Valid() && h == SentInLoop(old(h), cs, gso) && old(steps) <= steps
    {
      hide IsChain, IsStart;
      var i := 0;
      while i < |cs|
        invariant i <= |cs| && Valid() && !IsAmplificationLimited(h) && old(steps) <= steps
        invariant SentInLoop(old(h), cs, gso) == SentInLoop(h, cs[i..], gso)
      {
        if cs[i].packed.None? {
          return;
        }
        SendPacked(cs[i]);
        if cs[i].wouldBlock {
          return;
        }
        if !Mode(h, cs[i].canSend, cs[i].hasBudget).SendAny? || cs[i].received {
          return;
        }
        assert cs[i..][1..] == cs[i + 1..];
        i := i + 1;
      }
    }

    /** Packets of one batch are sent without looking at the queue or at what was received. */
    method SendPacketsWithGSO(cs: seq<Choice>)
      requires Valid() && gso && !IsAmplificationLimited(h) && ChoicesOk(cs, maxDatagramSize)
      modifies `h, `states, `steps
      ensures Valid() && h == SentInLoop(old(h), cs, gso) && old(steps) <= steps
    {
      hide IsChain, IsStart;
      var i := 0;
      while i < |cs|
        invariant i <= |cs| && Valid() && !IsAmplificationLimited(h) && old(steps) <= steps
        invariant SentInLoop(old(h), cs, gso) == SentInLoop(h, cs[i..], gso)
      {
        if cs[i].packed.None? {
          return;
        }
        SendPacked(cs[i]);
        var dontSendMore := !Mode(h, cs[i].canSend, cs[i].hasBudget).SendAny?;
        if dontSendMore || !cs[i].sameBatch {
          if dontSendMore || cs[i].wouldBlock || cs[i].received {
            return;
          }
        }
        assert cs[i..][1..] == cs[i + 1..];
        i := i + 1;
      }
    }

    /** The choices are those of one round after the other; without a choice left, sending stops. */
    method TriggerSending(cs: seq<Choice>) returns (ok: bool)
      requires Valid() && ChoicesOk(cs, maxDatagramSize)
      modifies `h, `states, `steps
      ensures Valid() && old(steps) <= steps
      ensures h == Triggered(old(h), cs, handshakeConfirmed, gso)
      ensures ProbesFirst(old(h), cs, old(steps), steps)
      decreases |cs|
    {
      hide IsChain, IsStart, SentInLoop, IsAmplificationLimited, CanProbe, Packed, Probed;
      if cs == [] {
        return true;
      }
      var c := cs[0];
      assert ChoicesOk([c], maxDatagramSize) && ChoicesOk(cs[1..], maxDatagramSize);
      match Mode(h, c.canSend, c.hasBudget) {
        case SendAny =>
          SendPackets(cs);
          return true;
        case SendNone =>
          return true;
        case SendPacingLimited =>
          SendPacked(c);
          return true;
        case SendAck =>
          SendPacked(c);
          return true;
        case SendPTOInitial =>
          ok := SendProbePacket(H.Initial, c);
        case SendPTOHandshake =>
          ok := SendProbePacket(H.Handshake, c);
        case SendPTOAppData =>
          ok := SendProbePacket(H.OneRTT, c);
      }
      if !ok || c.wouldBlock {
        return;
      }
      ok := TriggerSending(cs[1..]);
    }

    /**
      A long header packet in a datagram of `n` bytes, whose frames make calls and may be refused. With instant
      ACK, a server acknowledges the first packet in the middle of its processing, whatever its frames are.
     */
    method HandleLongHeaderPacket(n: nat, level: H.Level, clock: Clock, calls: seq<Event>, refused: bool,
                                  cs: seq<Choice>)
      requires Valid() && ChoicesOk(cs, maxDatagramSize) && AreCalls(calls)
      modifies `h, `states, `steps, `receivedFirstPacket
      ensures Valid() && receivedFirstPacket && Bound(h, TotalOut(states, steps), TotalIn(steps), maxDatagramSize)
      ensures var h1 := Next(old(h), Bytes(n, clock));
              if client || !enableInstantACK || old(receivedFirstPacket) then
                var h2 := AfterFrames(h1, client, level, clock, calls);
                h == if refused then h2 else Next(h2, Received(level, clock))
              else
                var h3 := Triggered(Next(h1, Received(level, clock)), cs, handshakeConfirmed, gso);
                h == AfterFrames(h3, client, level, clock, calls)
    {
      hide IsChain, IsStart, Bound, Next, CallAll, Triggered;
      Do(Call(Bytes(n, clock)));
      var instantACKSent := false;
      if !receivedFirstPacket {
        receivedFirstPacket := true;
        if !client && enableInstantACK {
          SendInstantACK(level, clock, cs);
          instantACKSent := true;
        }
      }
      ghost var h3 := h;
      if !client && level.Handshake? {
        Do(Call(Drop(H.Initial, clock)));
      }
      HandleFrames(calls);
      assert h == AfterFrames(h3, client, level, clock, calls);
      if !refused && !instantACKSent {
        Do(Call(Received(level, clock)));
      }
      ValidBound();
    }

    method HandleFrames(calls: seq<Event>)
      requires Valid() && AreCalls(calls)
      modifies `h, `states, `steps
      ensures Valid() && h == CallAll(old(h), calls) && old(steps) <= steps
    {
      hide IsChain, IsStart, Next;
      var i := 0;
      while i < |calls|
        invariant i <= |calls| && Valid() && h == CallAll(old(h), calls[..i]) && old(steps) <= steps
      {
        Do(Call(calls[i]));
        assert calls[..i + 1][..i] == calls[..i];
        i := i + 1;
      }
      assert calls[..|calls|] == calls;
    }

    method SendInstantACK(level: H.Level, clock: Clock, cs: seq<Choice>)
      requires Valid() && ChoicesOk(cs, maxDatagramSize)
      modifies `h, `states, `steps
      ensures Valid() && old(steps) + [Call(Received(level, clock))] <= steps
      ensures h == Triggered(Next(old(h), Received(level, clock)), cs, handshakeConfirmed, gso)
    {
      hide IsChain, IsStart, Next, Triggered;
      Do(Call(Received(level, clock)));
      var ok := TriggerSending(cs);
    }

    /** The Handshake keys are dropped before the handshake counts as confirmed. */
    method HandleHandshakeConfirmed(clock: Clock)
      requires Valid()
      modifies `h, `states, `steps, `handshakeConfirmed
      ensures Valid() && handshakeConfirmed
      ensures h == Next(Next(old(h), Drop(H.Handshake, clock)), Confirm(clock))
    {
      hide IsChain, IsStart, Next;
      Do(Call(Drop(H.Handshake, clock)));
      handshakeConfirmed := true;
      Do(Call(Confirm(clock)));
    }

    lemma ValidBound()
      requires Valid()
      ensures |states| == |steps| + 1 && Bound(h, TotalOut(states, steps), TotalIn(steps), maxDatagramSize)
    {
      AmplificationBound(states, steps, maxDatagramSize);
    }
  }

  lemma ProbeNotLimited(h: State, level: H.Level)
    requires !IsAmplificationLimited(h)
    ensures !IsAmplificationLimited(Next(h, Probe(level)))
  {
    HH.RestStep(h, Probe(level));
  }

  lemma AfterProbe(h: State, level: H.Level)
    ensures After(h, Call(Probe(level))) == Next(h, Probe(level))
  {
  }
}
