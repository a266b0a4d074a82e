/** The sent packet handler as an object, whose methods do what the functions on its state say. */
module AckHandler {
  import opened Common
  import opened LossRecovery
  import opened PacketSpaces
  import opened SentPacketHandler
  import H = SentPacketHistory
  import N = PacketNumbers

  /** `Failed` is an internal error or a panic. */
  datatype AckResult = AckOk(acked1RTT: bool) | AckOfUnsentPacket | AckOfSkippedPacket | Failed

  class Handler {
    var initialPackets: Option<Space>
    var handshakePackets: Option<Space>
    var appDataPackets: Space
    var peerCompletedAddressValidation: bool
    var bytesReceived: nat
    var bytesSent: nat
    var peerAddressValidated: bool
    var handshakeConfirmed: bool
    var lowestNotConfirmedAcked: int
    var bytesInFlight: int
    var ptoCount: nat
    var ptoMode: SendMode
    var numProbesToSend: int
    var alarm: int
    const client: bool
    var log: Log

    function Contents(): State
      reads this
    {
      State(Spaces(initialPackets, handshakePackets, appDataPackets), peerCompletedAddressValidation,
            peerAddressValidated, handshakeConfirmed, bytesReceived, bytesSent, lowestNotConfirmedAcked, bytesInFlight,
            ptoCount, ptoMode, numProbesToSend, alarm, client, log)
    }

    constructor (initialPN: nat, client: bool, clientAddressValidated: bool, r: nat)
      requires RandomSkip(r)
      ensures Contents() == Initially(initialPN, client, clientAddressValidated, r)
    {
      this.client := client;
      peerCompletedAddressValidation := !client;
      peerAddressValidated := client || clientAddressValidated;
      initialPackets := Some(NewSpace(N.Sequential(initialPN)));
      handshakePackets := Some(NewSpace(N.Sequential(0)));
      appDataPackets := NewSpace(SkippingFrom(0, r));
      handshakeConfirmed, bytesReceived, bytesSent := false, 0, 0;
      lowestNotConfirmedAcked, bytesInFlight := 0, 0;
      ptoCount, ptoMode, numProbesToSend, alarm := 0, SendNone, 0, 0;
      log := Log([], [], [], [], false);
    }

    function GetSpace(level: H.Level): Option<Space>
      reads this
    {
      Get(Contents().spaces, level)
    }

    method SetSpace(level: H.Level, sp: Space)
      modifies `initialPackets, `handshakePackets, `appDataPackets
      ensures Contents() == old(Contents()).(spaces := Put(old(Contents()).spaces, level, sp))
    {
      match level
      case Initial => initialPackets := Some(sp);
      case Handshake => handshakePackets := Some(sp);
      case _ => appDataPackets := sp;
    }

    method SetLossDetectionTimer(c: Clock)
      modifies `alarm
      ensures Contents() == WithTimer(old(Contents()), c)
    {
      hide LossTimeAndSpace, HasOutstandingCrypto, PTOTimeAndSpace;
      var spaces := Contents().spaces;
      var (lossTime, level) := LossTimeAndSpace(spaces);
      if lossTime != 0 {
        alarm := lossTime;
        return;
      }
      if IsAmplificationLimited(Contents()) {
        alarm := 0;
        return;
      }
      if !(HasOutstandingCrypto(spaces) || appDataPackets.history.numOutstanding > 0)
        && peerCompletedAddressValidation {
        alarm := 0;
        return;
      }
      var pto := PTOTimeAndSpace(Contents(), c);
      if pto.NoPTO? {
        if alarm != 0 {
          alarm := 0;
        }
        return;
      }
      alarm := pto.time;
    }

    method RemoveFromBytesInFlight(p: H.Packet) returns (panicked: bool)
      requires PacketOk(p)
      modifies `bytesInFlight
      ensures panicked <==> LENGTH(p) > old(bytesInFlight) && p.inFlight
      ensures !panicked ==> bytesInFlight == old(bytesInFlight) - LENGTH(p)
    {
      if p.inFlight {
        if p.length > bytesInFlight {
          return true;
        }
        bytesInFlight := bytesInFlight - p.length;
      }
      return false;
    }

    method PopPacketNumber(level: H.Level, r: nat) returns (pn: nat, panicked: bool)
      requires Inv(Contents()) && GetSpace(level).Some? && N.Random(GetSpace(level).value.pns, r)
      modifies `initialPackets, `handshakePackets, `appDataPackets
      ensures !panicked && Contents() == PopState(old(Contents()), level, r)
              && pn == NextNumber(old(GetSpace(level)).value)
    {
      hide Inv, SpaceOk, Aligned, Get, Put, H.SkipNumber, N.Random, ZeroOnSkipped, LENGTH;
      var sp := GetSpace(level).value;
      var (g, p) := N.Pop(sp.pns, r);
      SpaceIsOk(Contents(), level);
      LengthZeroOnSkipped();
      PopSpaceOk(sp, r, LENGTH);
      pn := p.pn;
      sp := sp.(pns := g);
      if p.skipped {
        if !H.Sequential(sp.history, pn - 1) {
          return pn, true;
        }
        sp := sp.(history := H.SkipNumber(sp.history, pn - 1));
      }
      SetSpace(level, sp);
      return pn, false;
    }

    /** The history panics if the number is not the next one. */
    method SentPacket(pn: int, x: Outgoing, c: Clock) returns (panicked: bool)
      requires GetSpace(x.level).Some?
      modifies this
      ensures panicked <==> !H.Sequential(old(GetSpace(x.level)).value.history, pn)
      ensures !panicked ==> Contents() == SentState(old(Contents()), pn, x, c)
    {
      hide Get, Put, TimerValue, SentSpace, PacketOf;
      var sp := GetSpace(x.level).value;
      bytesSent := bytesSent + x.size;
      log := log.(active := true);
      if !H.Sequential(sp.history, pn) {
        return true;
      }
      RegisterPacket(sp, pn, x);
      if x.frames == [] {
        if !peerCompletedAddressValidation {
          SetLossDetectionTimer(c);
        }
        return false;
      }
      CountInFlight(PacketOf(pn, x), x.size);
      SetLossDetectionTimer(c);
      return false;
    }

    method CountInFlight(p: H.Packet, size: nat)
      modifies `bytesInFlight, `numProbesToSend, `log
      ensures Contents() == var h := old(Contents());
                            h.(bytesInFlight := h.bytesInFlight + size,
                               numProbes := if h.numProbes > 0 then h.numProbes - 1 else h.numProbes,
                               log := h.log.(sent := h.log.sent + [p]))
    {
      bytesInFlight := bytesInFlight + size;
      if numProbesToSend > 0 {
        numProbesToSend := numProbesToSend - 1;
      }
      log := log.(sent := log.sent + [p]);
    }

    /** Takes the packet into the history. */
    method RegisterPacket(space: Space, pn: int, x: Outgoing)
      modifies `initialPackets, `handshakePackets, `appDataPackets
      ensures Contents() == old(Contents()).(spaces := Put(old(Contents()).spaces, x.level, SentSpace(space, pn, x)))
    {
      hide Put;
      var sp := space.(largestSent := pn);
      if x.frames == [] {
        sp := sp.(history := H.SendNonAckEliciting(sp.history, pn));
      } else {
        sp := sp.(lastAckElicitingTime := x.time, history := H.SendAckEliciting(sp.history, PacketOf(pn, x)));
      }
      SetSpace(x.level, sp);
    }

    // -------------------------------------------------------------------------------------------
    // Acknowledgements and losses

    /** Reports the frames of the packets as acknowledged and removes the packets from the history. */
    method RemoveAckedPackets(acked: seq<H.Packet>, level: H.Level) returns (failed: bool)
      requires GetSpace(level).Some? && H.Valid(GetSpace(level).value.history)
               && From(GetSpace(level).value.history, acked)
      modifies this
      ensures !failed
      ensures var h := old(Contents());
              var sp := Get(h.spaces, level).value;
              Contents() == h.(spaces := Put(h.spaces, level, sp.(history := RemoveAll(sp.history, acked))),
                               lowestNotConfirmedAcked := if level.OneRTT?
                                 then LowestNotConfirmed(h.lowestNotConfirmedAcked, acked)
                                 else h.lowestNotConfirmedAcked,
                               log := h.log.(acked := h.log.acked + acked))
    {
      hide Get, Put, H.Valid, RemoveOne, H.Tracks;
      ghost var h := Contents();
      var sp := GetSpace(level).value;
      var history := sp.history;
      var i := 0;
      while i < |acked|
        modifies `lowestNotConfirmedAcked, `log
        invariant i <= |acked| && history == RemoveAll(sp.history, acked[..i])
        invariant log == h.log.(acked := h.log.acked + acked[..i])
        invariant lowestNotConfirmedAcked ==
                  if level.OneRTT? then LowestNotConfirmed(h.lowestNotConfirmedAcked, acked[..i])
                  else h.lowestNotConfirmedAcked
      {
        var p := acked[i];
        assert acked[..i + 1][..i] == acked[..i] && acked[..i + 1] == acked[..i] + [p];
        if p.largestAcked != H.INVALID_PACKET_NUMBER && level.OneRTT? {
          lowestNotConfirmedAcked := Max(lowestNotConfirmedAcked, p.largestAcked + 1);
        }
        log := log.(acked := log.acked + [p]);
        StillThere(sp.history, acked, i);
        var index := H.IndexOf(history, p.number);
        if index.None? || history.packets[index.value].None? {
          return true;
        }
        history := RemoveOne(history, p.number);
        i := i + 1;
      }
      assert acked[..i] == acked;
      SetSpace(level, sp.(history := history));
      return false;
    }

    /** Goes through the packets that were acknowledged; the bytes were in flight, so that this cannot panic. */
    method SubtractAckedBytes(acked: seq<H.Packet>) returns (acked1RTT: bool, panicked: bool)
      requires Total(acked, LENGTH) <= bytesInFlight && forall i :: 0 <= i < |acked| ==> PacketOk(acked[i])
      modifies `bytesInFlight
      ensures !panicked && bytesInFlight == old(bytesInFlight) - Total(acked, LENGTH)
      ensures acked1RTT <==> exists i :: 0 <= i < |acked| && acked[i].level.OneRTT?
    {
      hide LENGTH;
      acked1RTT := false;
      var i := 0;
      while i < |acked|
        invariant i <= |acked| && bytesInFlight == old(bytesInFlight) - Total(acked[..i], LENGTH)
        invariant acked1RTT <==> exists k :: 0 <= k < i && acked[k].level.OneRTT?
      {
        var p := acked[i];
        assert acked[..i + 1][..i] == acked[..i];
        TotalPrefix(acked, i + 1, LENGTH);
        if p.level.OneRTT? {
          acked1RTT := true;
        }
        var negative := RemoveFromBytesInFlight(p);
        if negative {
          return acked1RTT, true;
        }
        i := i + 1;
      }
      assert acked[..i] == acked;
      return acked1RTT, false;
    }

    method DetectLostPackets(level: H.Level, now: nat, lossDelay: nat) returns (panicked: bool)
      requires GetSpace(level).Some? && SpaceOk(GetSpace(level).value) && lossDelay > 0
      requires H.Sum(GetSpace(level).value.history.packets, LENGTH) <= bytesInFlight
      modifies this
      ensures !panicked && Contents() == DetectState(old(Contents()), level, now, lossDelay)
    {
      hide Get, Put, H.Valid, H.Sum, LoseAll, Total, LossTime, LosingPackets, PacketsOk, LENGTH;
      var sp := GetSpace(level).value;
      var r := DetectLost(sp.history, bytesInFlight, sp.largestAcked, now, lossDelay);
      assert sp.history.packets[..|sp.history.packets|] == sp.history.packets;
      if !r.Detected? {
        return true;
      }
      SetSpace(level, sp.(history := r.history, lossTime := r.lossTime));
      bytesInFlight := r.bytesInFlight;
      log := log.(lost := log.lost + r.lost);
      return false;
    }

    /** What an ACK does that acknowledges packets. */
    method ProcessAcked(acked: seq<H.Packet>, largestAcked: int, level: H.Level, c: Clock, c': Clock, lossDelay: nat)
      returns (r: AckResult)
      requires CoreInv(Contents(), 0) && GetSpace(level).Some? && From(GetSpace(level).value.history, acked)
               && lossDelay > 0
      requires GetSpace(level).Some?
      modifies this
      ensures RemovedHasSpace(old(Contents()), acked, level, largestAcked)
      ensures Contents() ==
              FinishedState(DetectState(RemovedState(old(Contents()), acked, level, largestAcked), level, c.now,
                                        lossDelay),
                            acked, c')
      ensures r.AckOk? && (r.acked1RTT <==> exists i :: 0 <= i < |acked| && acked[i].level.OneRTT?)
    {
      hide CoreInv, Get, Put, From, TimerValue, DetectState, Total, SpacesOk, RemovedState;
      ghost var h := Contents();
      CoreSpace(h, 0, level);
      AllOk(Get(h.spaces, level).value, acked);
      RemovedHas(h, acked, level, largestAcked);
      RemovedKeeps(h, acked, level, largestAcked);
      var failed := NoteAcked(acked, largestAcked, level);
      if failed {
        return Failed;
      }
      ghost var h2 := Contents();
      CoreSpace(h2, Total(acked, LENGTH), level);
      DetectKeeps(h2, level, c.now, lossDelay, Total(acked, LENGTH));
      var panicked := DetectLostPackets(level, c.now, lossDelay);
      if panicked {
        return Failed;
      }
      CoreBytes(Contents(), Total(acked, LENGTH));
      var acked1RTT, negative := SubtractAckedBytes(acked);
      if negative {
        return Failed;
      }
      if peerCompletedAddressValidation {
        ptoCount := 0;
      }
      numProbesToSend := 0;
      SetLossDetectionTimer(c');
      return AckOk(acked1RTT);
    }

    method NoteAcked(acked: seq<H.Packet>, largestAcked: int, level: H.Level) returns (failed: bool)
      requires GetSpace(level).Some? && H.Valid(GetSpace(level).value.history)
               && From(GetSpace(level).value.history, acked)
      modifies this
      ensures !failed && GetSpace(level).Some?
              && Contents() == RemovedState(old(Contents()), acked, level, largestAcked)
    {
      hide Get, Put, H.Valid, From, RemoveAll, LowestNotConfirmed;
      ghost var h := Contents();
      ghost var sp0 := GetSpace(level).value;
      failed := RemoveAckedPackets(acked, level);
      GetPut(h.spaces, level, sp0.(history := RemoveAll(sp0.history, acked)), LENGTH);
      GetPut(h.spaces, level, AckedSpace(sp0, acked, largestAcked), LENGTH);
      var sp := GetSpace(level).value;
      SetSpace(level, sp.(largestAcked := Max(sp.largestAcked, largestAcked)));
    }

    /** An ACK is an error exactly if it acknowledges a number that was not sent; otherwise nothing fails. */
    method ReceivedAck(rs: seq<AckRange>, level: H.Level, c: Clock, c': Clock, lossDelay: nat) returns (r: AckResult)
      requires Inv(Contents()) && ValidRanges(rs) && GetSpace(level).Some? && lossDelay > 0
      modifies this
      ensures !r.Failed? && (r.AckOk? <==> !AckError(old(Contents()), rs, level))
      ensures r.AckOk? ==> Contents() == AckState(old(Contents()), rs, level, c, c', lossDelay) && Inv(Contents())
      ensures r.AckOk? ==> (r.acked1RTT <==> AcksOneRTT(old(Contents()), rs, level))
    {
      hide Inv, Get, Put, H.Tracks, Select, TimerValue, RemovedState, FinishedState, DetectState, AcksSkipped,
           ValidatingState, CoreInv, From;
      ghost var h := Contents();
      if rs[0].largest > GetSpace(level).value.largestSent {
        return AckOfUnsentPacket;
      }
      Validate(level, c);
      ghost var h1 := Contents();
      ValidatingKeeps(h, level, c);
      SpaceIsOk(h1, level);
      var acked, err := DetectAcked(GetSpace(level).value.history, rs);
      if !err.NoError? {
        return AckOfSkippedPacket;
      }
      AckKeeps(h, rs, level, c, c', lossDelay);
      NoneAcked(h, rs, level);
      if acked == [] {
        return AckOk(false);
      }
      AckReady(h1, rs, level);
      r := ProcessAcked(acked, rs[0].largest, level, c, c', lossDelay);
    }

    /** A client learns that the server has validated its address. */
    method Validate(level: H.Level, c: Clock)
      modifies this
      ensures Contents() == ValidatingState(old(Contents()), level, c) && GetSpace(level) == old(GetSpace(level))
    {
      hide TimerValue;
      if client && !peerCompletedAddressValidation && (level.Handshake? || level.OneRTT?) {
        peerCompletedAddressValidation := true;
        SetLossDetectionTimer(c);
      }
    }

    // -------------------------------------------------------------------------------------------
    // Probes and timeouts

    /** The panic is "no frames". */
    method QueueProbePacket(level: H.Level) returns (queued: bool, panicked: bool)
      requires Inv(Contents()) && GetSpace(level).Some?
      modifies this
      ensures !panicked && Contents() == ProbeState(old(Contents()), level) && Inv(Contents())
      ensures queued <==> exists p :: H.Tracks(old(GetSpace(level)).value.history, p) && H.Outstanding(p)
    {
      hide Inv, Get, Put, SpaceOk, Aligned, FirstOutstanding, LoseOne, H.Sum;
      ghost var h := Contents();
      var sp := GetSpace(level).value;
      SpaceIsOk(h, level);
      ProbeKeeps(h, level);
      FirstOutstandingTracked(sp.history);
      var p := FirstOutstanding(sp.history.packets);
      if p.None? {
        return false, false;
      }
      TrackedOk(sp, p.value);
      if p.value.frames == [] {
        return false, true;
      }
      log := log.(lost := log.lost + [p.value]);
      var negative := RemoveFromBytesInFlight(p.value);
      if negative {
        return false, true;
      }
      SetSpace(level, ProbedSpace(sp, p.value));
      return true, false;
    }

    /** The alarm that fires is set, as the connection checks; then there is no error and no panic. */
    method OnLossDetectionTimeout(c: Clock, c': Clock, lossDelay: nat, r: nat) returns (failed: bool)
      requires Inv(Contents()) && alarm != 0 && lossDelay > 0 && N.Random(appDataPackets.pns, r)
      modifies this
      ensures !failed && !TimeoutBug(old(Contents()), c) && SpacesPresent(old(Contents()).spaces)
      ensures Contents() == TimeoutState(old(Contents()), c, c', lossDelay, r) && Inv(Contents())
    {
      hide Inv, LossTimeAndSpace, PTOTimeAndSpace, DetectState, TimerValue, SpacesPresent, TimeoutBug, ProbingState,
           Get, N.Random, ZeroOnSkipped, LENGTH;
      ghost var h := Contents();
      TimeoutIsSafe(h, c);
      LengthZeroOnSkipped();
      TimeoutKeeps(h, c, c', lossDelay, r, LENGTH);
      failed := FireTimer(c, lossDelay, r);
      SetLossDetectionTimer(c');
    }

    method FireTimer(c: Clock, lossDelay: nat, r: nat) returns (failed: bool)
      requires Inv(Contents()) && lossDelay > 0 && N.Random(appDataPackets.pns, r)
      requires !TimeoutBug(Contents(), c) && SpacesPresent(Contents().spaces)
      modifies this
      ensures !failed && Contents() == FiredState(old(Contents()), c, lossDelay, r)
    {
      hide Inv, LossTimeAndSpace, PTOTimeAndSpace, DetectState, ProbingState, SpaceOk, Aligned, Get, H.Sum;
      var spaces := Contents().spaces;
      var (lossTime, level) := LossTimeAndSpace(spaces);
      if lossTime != 0 {
        SpaceIsOk(Contents(), level);
        failed := DetectLostPackets(level, c.now, lossDelay);
        return;
      }
      if bytesInFlight == 0 && !peerCompletedAddressValidation {
        if initialPackets.None? && handshakePackets.None? {
          return true;
        }
        failed := SendProbes(if initialPackets.Some? then H.Initial else H.Handshake, 1, r);
        return;
      }
      var pto := PTOTimeAndSpace(Contents(), c);
      if pto.NoPTO? {
        return false;
      }
      if pto.level.None? || pto.level.value.ZeroRTT? || GetSpace(pto.level.value).None? {
        return true;
      }
      if GetSpace(pto.level.value).value.history.numOutstanding <= 0 && !peerCompletedAddressValidation {
        return false;
      }
      failed := SendProbes(pto.level.value, 2, r);
    }

    /** A number of an application data packet is popped and not used. */
    method SkipPacketNumber(r: nat) returns (panicked: bool)
      requires Inv(Contents()) && N.Random(appDataPackets.pns, r)
      modifies `initialPackets, `handshakePackets, `appDataPackets
      ensures !panicked && appDataPackets == SkipSpace(old(appDataPackets), r)
      ensures initialPackets == old(initialPackets) && handshakePackets == old(handshakePackets)
    {
      hide Inv, Aligned, SpaceOk, PopSpace, N.Random, H.Sum, ZeroOnSkipped, LENGTH;
      ghost var h := Contents();
      SpaceIsOk(h, H.OneRTT);
      LengthZeroOnSkipped();
      PopSpaceOk(h.spaces.app, r, LENGTH);
      var pn, bad := PopPacketNumber(H.OneRTT, r);
      if bad || !H.Sequential(appDataPackets.history, pn) {
        return true;
      }
      appDataPackets := appDataPackets.(history := H.SkipNumber(appDataPackets.history, pn));
      return false;
    }

    /** For application data, a packet number is skipped to elicit an ACK at once. */
    method SendProbes(level: H.Level, probes: nat, r: nat) returns (panicked: bool)
      requires Inv(Contents()) && N.Random(appDataPackets.pns, r)
      modifies this
      ensures !panicked && Contents() == ProbingState(old(Contents()), level, probes, r)
    {
      hide Inv, SkipSpace, N.Random, CountedProbes;
      match level {
        case Initial =>
          CountProbes(SendPTOInitial, probes);
        case Handshake =>
          CountProbes(SendPTOHandshake, probes);
        case _ =>
          panicked := SkipPacketNumber(r);
          if panicked {
            return;
          }
          CountProbes(SendPTOAppData, probes);
      }
      return false;
    }

    method CountProbes(mode: SendMode, probes: nat)
      modifies `ptoCount, `numProbesToSend, `ptoMode
      ensures Contents() == CountedProbes(old(Contents()), mode, probes)
    {
      ptoCount := ptoCount + 1;
      numProbesToSend := numProbesToSend + probes;
      ptoMode := mode;
    }

    // -------------------------------------------------------------------------------------------
    // Dropped keys, Retry, and the rest

    /** Goes through the packets of a space that is dropped. */
    method ForgetPackets(s: H.Slots) returns (dropped: seq<H.Packet>, panicked: bool)
      requires PacketsOk(s) && H.Sum(s, LENGTH) <= bytesInFlight
      modifies `bytesInFlight
      ensures !panicked && dropped == Select(s, EVERYTHING)
              && bytesInFlight == old(bytesInFlight) - Total(dropped, LENGTH)
    {
      hide LENGTH, H.Sum, Select, Total;
      dropped := [];
      var k := 0;
      SelectTotal(s, EVERYTHING, LENGTH);
      assert s[..0] == [];
      SelectEmpty(EVERYTHING);
      TotalEmpty(LENGTH);
      while k < |s|
        invariant k <= |s| && dropped == Select(s[..k], EVERYTHING)
        invariant bytesInFlight == old(bytesInFlight) - Total(dropped, LENGTH)
      {
        SelectNext(s, k, EVERYTHING);
        if s[k].Some? {
          EnoughLeft(s, k);
          TotalConcat(dropped, [s[k].value], LENGTH);
          TotalOne(s[k].value, LENGTH);
          var negative := RemoveFromBytesInFlight(s[k].value);
          if negative {
            return dropped, true;
          }
          dropped := dropped + [s[k].value];
        }
        k := k + 1;
      }
      assert s[..k] == s;
      return dropped, false;
    }

    /** Removes the leading 0-RTT packets. */
    method RejectZeroRTT() returns (panicked: bool)
      requires SpaceOk(appDataPackets) && H.Sum(appDataPackets.history.packets, LENGTH) <= bytesInFlight
      modifies `appDataPackets, `bytesInFlight, `log
      ensures var h := old(Contents());
              var dropped := DroppedPackets(h.spaces, H.ZeroRTT);
              && !panicked && bytesInFlight == h.bytesInFlight - Total(dropped, LENGTH)
              && appDataPackets == DropSpaces(h.spaces, H.ZeroRTT).app
              && log == h.log.(dropped := h.log.dropped + dropped)
    {
      hide LENGTH, H.Sum, Select, Total, RemoveOne, RemoveAll, Leading, H.Valid;
      var s := appDataPackets.history.packets;
      ghost var start := appDataPackets.history;
      var history := appDataPackets.history;
      var dropped: seq<H.Packet> := [];
      var k := 0;
      assert s[..0] == [];
      SelectEmpty(EVERYTHING);
      TotalEmpty(LENGTH);
      RemoveNone(history);
      SelectTotal(s, EVERYTHING, LENGTH);
      while k < |s|
        modifies `bytesInFlight
        invariant k <= |s| && dropped == Select(s[..k], EVERYTHING) && history == RemoveAll(start, dropped)
        invariant bytesInFlight == old(bytesInFlight) - Total(dropped, LENGTH)
        invariant forall i :: 0 <= i < k ==> RejectedZeroRTT(s[i])
      {
        SelectNext(s, k, EVERYTHING);
        if s[k].Some? {
          var p := s[k].value;
          if !p.level.ZeroRTT? && !p.skipped {
            break;
          }
          EnoughLeft(s, k);
          TotalConcat(dropped, [p], LENGTH);
          TotalOne(p, LENGTH);
          RemoveNext(start, dropped, p);
          var negative := RemoveFromBytesInFlight(p);
          if negative {
            return true;
          }
          history := RemoveOne(history, p.number);
          dropped := dropped + [p];
        }
        k := k + 1;
      }
      LeadingIs(s, k);
      appDataPackets := appDataPackets.(history := history);
      log := log.(dropped := log.dropped + dropped);
      return false;
    }

    /** Dropping the keys of 1-RTT packets is a panic, and not an option here. */
    method DropPackets(level: H.Level, c: Clock) returns (panicked: bool)
      requires Inv(Contents()) && !level.OneRTT?
      modifies this
      ensures !panicked && Contents() == DropState(old(Contents()), level, c) && Inv(Contents())
    {
      hide Inv, Balanced, Get, DroppedPackets, DropSpaces, TimerValue, ZeroOnSkipped, LENGTH, Total, SpaceOk, H.Sum,
           Aligned;
      ghost var h := Contents();
      LengthZeroOnSkipped();
      DropKeeps(h, level, c, LENGTH);
      if client && level.Handshake? {
        peerCompletedAddressValidation := true;
      }
      if GetSpace(level).None? {
        return false;
      }
      SpaceIsOk(h, level);
      panicked := ForgetLevel(level);
      if panicked {
        return;
      }
      ResetPTO(c);
    }

    method ResetPTO(c: Clock)
      modifies `ptoCount, `numProbesToSend, `ptoMode, `alarm
      ensures Contents() == WithTimer(old(Contents()).(ptoCount := 0, numProbes := 0, ptoMode := SendNone), c)
    {
      hide TimerValue;
      ptoCount, numProbesToSend, ptoMode := 0, 0, SendNone;
      SetLossDetectionTimer(c);
    }

    method ForgetLevel(level: H.Level) returns (panicked: bool)
      requires GetSpace(level).Some? && SpaceOk(GetSpace(level).value) && !level.OneRTT?
      requires H.Sum(GetSpace(level).value.history.packets, LENGTH) <= bytesInFlight
      modifies this
      ensures var h := old(Contents());
              var dropped := DroppedPackets(h.spaces, level);
              && !panicked
              && Contents() == h.(spaces := DropSpaces(h.spaces, level),
                                  bytesInFlight := h.bytesInFlight - Total(dropped, LENGTH),
                                  log := h.log.(dropped := h.log.dropped + dropped))
    {
      hide LENGTH, H.Sum, Select, Total, RemoveAll, Leading;
      if level.ZeroRTT? {
        panicked := RejectZeroRTT();
        return;
      }
      var dropped;
      dropped, panicked := ForgetPackets(GetSpace(level).value.history.packets);
      log := log.(dropped := log.dropped + dropped);
      if level.Initial? {
        initialPackets := None;
      } else {
        handshakePackets := None;
      }
    }

    /** Queues the frames of all packets for retransmission. The panic is "no frames". */
    method QueueAll(s: H.Slots) returns (lost: seq<H.Packet>, panicked: bool)
      requires PacketsOk(s)
      ensures !panicked && lost == Select(s, NOT_SKIPPED)
    {
      hide Select;
      lost := [];
      var k := 0;
      assert s[..0] == [];
      SelectEmpty(NOT_SKIPPED);
      while k < |s|
        invariant k <= |s| && lost == Select(s[..k], NOT_SKIPPED)
      {
        SelectNext(s, k, NOT_SKIPPED);
        if s[k].Some? && !s[k].value.skipped {
          if s[k].value.frames == [] {
            return lost, true;
          }
          lost := lost + [s[k].value];
        }
        k := k + 1;
      }
      assert s[..k] == s;
      return lost, false;
    }

    method ResetForRetry(r: nat) returns (panicked: bool)
      requires Inv(Contents()) && initialPackets.Some? && RandomSkip(r)
      modifies this
      ensures !panicked && Contents() == RetryState(old(Contents()), r)
      ensures Inv(Contents()) <==> SpaceSum(handshakePackets, LENGTH) == 0
    {
      hide Inv, SpaceSum, Select, SkippingFrom, LENGTH;
      RetryExact(Contents(), r);
      SpaceIsOk(Contents(), H.Initial);
      SpaceIsOk(Contents(), H.OneRTT);
      bytesInFlight := 0;
      var lost, bad := QueueAll(initialPackets.value.history.packets);
      var lostData, badData := QueueAll(appDataPackets.history.packets);
      if bad || badData {
        return true;
      }
      log := log.(lost := log.lost + (lost + lostData), active := false);
      initialPackets := Some(NewSpace(N.Sequential(N.Peek(initialPackets.value.pns))));
      appDataPackets := NewSpace(SkippingFrom(N.Peek(appDataPackets.pns), r));
      alarm := 0;
      ptoCount := 0;
      return false;
    }

    method ReceivedBytes(n: nat, c: Clock)
      modifies this
      ensures Contents() == BytesState(old(Contents()), n, c)
    {
      hide TimerValue;
      var wasLimited := IsAmplificationLimited(Contents());
      bytesReceived := bytesReceived + n;
      if wasLimited && !IsAmplificationLimited(Contents()) {
        SetLossDetectionTimer(c);
      }
    }

    method ReceivedPacket(level: H.Level, c: Clock)
      modifies this
      ensures Contents() == ReceivedState(old(Contents()), level, c)
    {
      hide TimerValue;
      if !client && level.Handshake? && !peerAddressValidated {
        peerAddressValidated := true;
        SetLossDetectionTimer(c);
      }
    }

    /** Panics if Initial or Handshake keys were not dropped. */
    method SetHandshakeConfirmed(c: Clock) returns (panicked: bool)
      modifies this
      ensures panicked <==> old(initialPackets).Some? || old(handshakePackets).Some?
      ensures !panicked ==> Contents() == ConfirmedState(old(Contents()), c)
    {
      hide TimerValue;
      if initialPackets.Some? || handshakePackets.Some? {
        return true;
      }
      handshakeConfirmed := true;
      SetLossDetectionTimer(c);
      return false;
    }

    /** `canSend` and `hasBudget` are what the congestion controller and the pacer say. */
    method ChooseSendMode(canSend: bool, hasBudget: bool) returns (mode: SendMode)
      ensures mode == Mode(Contents(), canSend, hasBudget)
      ensures IsAmplificationLimited(Contents()) || TrackedPackets(Contents().spaces) >= MAX_TRACKED_SENT_PACKETS ==>
                mode.SendNone?
      ensures mode.SendAny? && numProbesToSend <= 0 ==>
                canSend && hasBudget && TrackedPackets(Contents().spaces) < MAX_OUTSTANDING_SENT_PACKETS
    {
      var tracked := |appDataPackets.history.packets|;
      if initialPackets.Some? {
        tracked := tracked + |initialPackets.value.history.packets|;
      }
      if handshakePackets.Some? {
        tracked := tracked + |handshakePackets.value.history.packets|;
      }
      if IsAmplificationLimited(Contents()) {
        return SendNone;
      }
      if tracked >= MAX_TRACKED_SENT_PACKETS {
        return SendNone;
      }
      if numProbesToSend > 0 {
        return ptoMode;
      }
      if !canSend {
        return SendAck;
      }
      if tracked >= MAX_OUTSTANDING_SENT_PACKETS {
        return SendAck;
      }
      if !hasBudget {
        return SendPacingLimited;
      }
      return SendAny;
    }
  }

  lemma TotalEmpty(m: H.Packet -> nat)
    ensures Total([], m) == 0
  {
  }

  lemma RemoveNone(h: H.State)
    ensures RemoveAll(h, []) == h
  {
  }

  lemma RemoveNext(h: H.State, ps: seq<H.Packet>, p: H.Packet)
    ensures RemoveAll(h, ps + [p]) == RemoveOne(RemoveAll(h, ps), p.number)
  {
    assert (ps + [p])[..|ps|] == ps;
  }

  lemma LeadingIs(s: H.Slots, k: nat)
    requires k <= |s| && (forall i :: 0 <= i < k ==> RejectedZeroRTT(s[i])) && (k < |s| ==> !RejectedZeroRTT(s[k]))
    ensures k == Leading(s)
  {
  }

  /** The bytes of one more packet are within the bytes of all. */
  lemma EnoughLeft(s: H.Slots, k: nat)
    requires k < |s| && s[k].Some? && PacketsOk(s)
    ensures PacketOk(s[k].value) && Total(Select(s[..k], EVERYTHING), LENGTH) + LENGTH(s[k].value) <= H.Sum(s, LENGTH)
  {
    hide H.Sum, Select, Total, LENGTH;
    SelectTotal(s[..k], EVERYTHING, LENGTH);
    H.SumConcat(s[..k], s[k..], LENGTH);
    assert s[..k] + s[k..] == s;
    H.SumMember(s[k..], 0, LENGTH);
  }

  lemma TrackedOk(sp: Space, p: H.Packet)
    requires SpaceOk(sp) && H.Tracks(sp.history, p)
    ensures PacketOk(p) && LENGTH(p) <= H.Sum(sp.history.packets, LENGTH)
  {
    var k := TrackedAt(sp.history, p);
    H.SumMember(sp.history.packets, k, LENGTH);
  }

  predicate RemovedHasSpace(h: State, acked: seq<H.Packet>, level: H.Level, largestAcked: int)
    requires Get(h.spaces, level).Some?
  {
    Get(RemovedState(h, acked, level, largestAcked).spaces, level).Some?
  }

  lemma CoreSpace(h: State, slack: nat, level: H.Level)
    requires CoreInv(h, slack) && Get(h.spaces, level).Some?
    ensures SpaceOk(Get(h.spaces, level).value)
    ensures H.Sum(Get(h.spaces, level).value.history.packets, LENGTH) <= h.bytesInFlight
  {
    hide SpaceOk, Aligned;
  }

  lemma AckReady(h: State, rs: seq<AckRange>, level: H.Level)
    requires Inv(h) && Get(h.spaces, level).Some?
    ensures CoreInv(h, 0) && From(Get(h.spaces, level).value.history, NewlyAcked(h, rs, level))
  {
    hide SpacesOk, Get, From, NewlyAcked, Tracked;
    NewlyAckedFrom(h, rs, level);
  }

  lemma CoreBytes(h: State, slack: nat)
    requires CoreInv(h, slack)
    ensures slack <= h.bytesInFlight
  {
    hide SpacesOk;
  }

  lemma AllOk(sp: Space, ps: seq<H.Packet>)
    requires SpaceOk(sp) && From(sp.history, ps)
    ensures forall i :: 0 <= i < |ps| ==> PacketOk(ps[i])
  {
    forall i | 0 <= i < |ps| ensures PacketOk(ps[i]) {
      var k := TrackedAt(sp.history, ps[i]);
    }
  }

  lemma NoneAcked(h: State, rs: seq<AckRange>, level: H.Level)
    requires Get(h.spaces, level).Some?
    ensures NewlyAcked(h, rs, level) == [] ==> !AcksOneRTT(h, rs, level)
  {
  }

  ghost predicate AcksOneRTT(h: State, rs: seq<AckRange>, level: H.Level)
    requires Get(h.spaces, level).Some?
  {
    exists i :: 0 <= i < |NewlyAcked(h, rs, level)| && NewlyAcked(h, rs, level)[i].level.OneRTT?
  }

  /** Removing packets in ascending order leaves the next one where it is. */
  lemma StillThere(h: H.State, ps: seq<H.Packet>, i: nat)
    requires H.Valid(h) && From(h, ps) && i < |ps|
    ensures var h1 := RemoveAll(h, ps[..i]);
            var index := H.IndexOf(h1, ps[i].number);
            index.Some? && h1.packets[index.value].Some?
  {
    hide H.Valid, RemoveAll, H.Sum, Total, LENGTH;
    LengthZeroOnSkipped();
    RemoveAllFacts(h, ps[..i], LENGTH);
    assert Above(ps[i], ps[..i]) && H.Tracks(h, ps[i]);
    var k := TrackedAt(RemoveAll(h, ps[..i]), ps[i]);
  }

  lemma {:induction false} TotalPrefix(ps: seq<H.Packet>, i: nat, m: H.Packet -> nat)
    requires i <= |ps|
    ensures Total(ps[..i], m) <= Total(ps, m)
  {
    TotalConcat(ps[..i], ps[i..], m);
    assert ps[..i] + ps[i..] == ps;
  }

  lemma SpaceIsOk(h: State, level: H.Level)
    requires Inv(h) && Get(h.spaces, level).Some?
    ensures SpaceOk(Get(h.spaces, level).value) && Aligned(Get(h.spaces, level).value)
    ensures H.Sum(Get(h.spaces, level).value.history.packets, LENGTH) <= h.bytesInFlight
  {
  }
}
