/**
  The sent packet handler: three packet number spaces, the bytes in flight, the loss detection timer and
  the limit on what may be sent to an address that is not validated.
 */
module SentPacketHandler {
  import opened Common
  import opened LossRecovery
  import opened PacketSpaces
  import H = SentPacketHistory
  import N = PacketNumbers

  /** In nanoseconds. */
  const MAX_PTO_DURATION := 60_000_000_000
  const AMPLIFICATION_FACTOR := 3
  const MAX_OUTSTANDING_SENT_PACKETS := 20000
  const MAX_TRACKED_SENT_PACKETS := 25000

  datatype SendMode =
    SendNone | SendAck | SendPTOInitial | SendPTOHandshake | SendPTOAppData | SendPacingLimited | SendAny

  /**
    What happened to the packets with frames: those that were sent, those whose frames were reported as
    acknowledged or as lost (a skipped number has no frames to report), and those forgotten with their
    keys. `active` says whether a packet was sent since the start or the last Retry.
   */
  datatype Log = Log(
    sent: seq<H.Packet>,
    acked: seq<H.Packet>,
    lost: seq<H.Packet>,
    dropped: seq<H.Packet>,
    active: bool)

  /** A space is dropped with its keys. */
  datatype Spaces = Spaces(initial: Option<Space>, handshake: Option<Space>, app: Space)

  datatype State = State(
    spaces: Spaces,
    completed: bool,
    validated: bool,
    confirmed: bool,
    bytesReceived: nat,
    bytesSent: nat,
    lowestNotConfirmedAcked: int,
    bytesInFlight: int,
    ptoCount: nat,
    ptoMode: SendMode,
    numProbes: int,
    alarm: int,
    client: bool,
    log: Log)

  /** The time, and the probe timeouts after the shift by the PTO count: any integers, as the shift may overflow. */
  datatype Clock = Clock(now: nat, pto: int, ptoWithAckDelay: int)

  function Initially(pn: nat, client: bool, clientAddressValidated: bool, r: nat): State {
    State(Spaces(Some(NewSpace(N.Sequential(pn))), Some(NewSpace(N.Sequential(0))), NewSpace(SkippingFrom(0, r))),
          !client, client || clientAddressValidated, false, 0, 0, 0, 0, 0, SendNone, 0, 0, client,
          Log([], [], [], [], false))
  }

  function SkippingFrom(pn: nat, r: nat): N.Generator {
    N.WithNewSkip(N.Skipping(pn, pn, N.SKIP_INITIAL_PERIOD, N.SKIP_MAX_PERIOD), r)
  }

  function Get(s: Spaces, level: H.Level): Option<Space> {
    match level
    case Initial => s.initial
    case Handshake => s.handshake
    case _ => Some(s.app)
  }

  function Put(s: Spaces, level: H.Level, sp: Space): Spaces {
    match level
    case Initial => s.(initial := Some(sp))
    case Handshake => s.(handshake := Some(sp))
    case _ => s.(app := sp)
  }

  // ---------------------------------------------------------------------------------------------
  // The loss detection timer

  function LossTimeOf(sp: Option<Space>): int {
    if sp.Some? then sp.value.lossTime else 0
  }

  /** The earliest loss time that is set, and where. */
  function LossTimeAndSpace(s: Spaces): (int, H.Level) {
    var (t1, l1) := if s.initial.Some? then (s.initial.value.lossTime, H.Initial) else (0, H.OneRTT);
    var (t2, l2) :=
      if s.handshake.Some? && (t1 == 0 || (s.handshake.value.lossTime != 0 && s.handshake.value.lossTime < t1))
      then (s.handshake.value.lossTime, H.Handshake) else (t1, l1);
    if t2 == 0 || (s.app.lossTime != 0 && s.app.lossTime < t2) then (s.app.lossTime, H.OneRTT) else (t2, l2)
  }

  lemma EarliestLossTime(s: Spaces)
    requires SpacesOk(s)
    ensures var (t, level) := LossTimeAndSpace(s);
            && Get(s, level).Some? && Get(s, level).value.lossTime == t && 0 <= t
            && forall l :: LossTimeOf(Get(s, l)) != 0 ==> 0 < t <= LossTimeOf(Get(s, l))
  {
  }

  function ScaledPTO(shifted: int): (d: int)
    ensures 0 < d <= MAX_PTO_DURATION
    ensures 0 < shifted <= MAX_PTO_DURATION ==> d == shifted
    ensures !(0 < shifted <= MAX_PTO_DURATION) ==> d == MAX_PTO_DURATION
  {
    if shifted > MAX_PTO_DURATION || shifted <= 0 then MAX_PTO_DURATION else shifted
  }

  predicate HasOutstanding(sp: Option<Space>) {
    sp.Some? && sp.value.history.numOutstanding > 0
  }

  predicate HasOutstandingCrypto(s: Spaces) {
    HasOutstanding(s.initial) || HasOutstanding(s.handshake)
  }

  /** A PTO: no time and no level if no packet that elicits an ACK was sent. */
  datatype PTO = NoPTO | PTO(time: int, level: Option<H.Level>)

  /** The earlier of two timeouts, of which 0 is none. */
  function EarlierPTO(p: PTO, last: int, d: int, level: H.Level): PTO
    requires p.PTO?
  {
    if last != 0 && (p.time == 0 || (last + d != 0 && last + d < p.time)) then PTO(last + d, Some(level)) else p
  }

  /** Before the handshake is confirmed and with nothing outstanding there is nothing to probe for but the peer. */
  function IdlePTO(h: State, c: Clock): PTO {
    if h.completed then NoPTO
    else PTO(c.now + ScaledPTO(c.pto), Some(if h.spaces.initial.Some? then H.Initial else H.Handshake))
  }

  function CryptoPTO(s: Spaces, d: int): PTO {
    var p :=
      if s.initial.None? then PTO(0, None)
      else if s.initial.value.lastAckElicitingTime == 0 then PTO(0, Some(H.Initial))
      else PTO(s.initial.value.lastAckElicitingTime + d, Some(H.Initial));
    if s.handshake.Some? then EarlierPTO(p, s.handshake.value.lastAckElicitingTime, d, H.Handshake) else p
  }

  function PTOTimeAndSpace(h: State, c: Clock): PTO {
    if !h.confirmed && !HasOutstandingCrypto(h.spaces) then IdlePTO(h, c)
    else
      var p := CryptoPTO(h.spaces, ScaledPTO(c.pto));
      if !h.confirmed then p
      else EarlierPTO(p, h.spaces.app.lastAckElicitingTime, ScaledPTO(c.ptoWithAckDelay), H.OneRTT)
  }

  predicate IsAmplificationLimited(h: State) {
    !h.validated && h.bytesSent >= AMPLIFICATION_FACTOR * h.bytesReceived
  }

  function TimerValue(h: State, c: Clock): int {
    var lossTime := LossTimeAndSpace(h.spaces).0;
    if lossTime != 0 then lossTime
    else if IsAmplificationLimited(h) then 0
    else if !HasOutstandingCrypto(h.spaces) && h.spaces.app.history.numOutstanding <= 0 && h.completed then 0
    else
      var p := PTOTimeAndSpace(h, c);
      if p.NoPTO? then 0 else p.time
  }

  function WithTimer(h: State, c: Clock): State {
    h.(alarm := TimerValue(h, c))
  }

  // ---------------------------------------------------------------------------------------------
  // What every reachable state satisfies

  ghost predicate SpacesOk(s: Spaces) {
    && (s.initial.Some? ==> SpaceOk(s.initial.value) && Aligned(s.initial.value))
    && (s.handshake.Some? ==> SpaceOk(s.handshake.value) && Aligned(s.handshake.value))
    && SpaceOk(s.app) && Aligned(s.app)
  }

  ghost function SpaceSum(sp: Option<Space>, m: H.Packet -> nat): nat {
    if sp.Some? then H.Sum(sp.value.history.packets, m) else 0
  }

  /** The sum of `m` over all tracked packets. */
  ghost function Tracked(s: Spaces, m: H.Packet -> nat): nat {
    SpaceSum(s.initial, m) + SpaceSum(s.handshake, m) + SpaceSum(Some(s.app), m)
  }

  /** What was sent and not yet accounted for. */
  ghost function Pending(log: Log, m: H.Packet -> nat): int {
    Total(log.sent, m) - Total(log.acked, m) - Total(log.lost, m) - Total(log.dropped, m)
  }

  /** A client waits until the server has completed address validation as long as it has Handshake packets. */
  ghost predicate ModesOk(h: State) {
    && (h.client ==> h.validated && (h.spaces.handshake.None? ==> h.completed))
    && (!h.client ==> h.completed)
    && (h.confirmed ==> h.spaces.initial.None? && h.spaces.handshake.None?)
  }

  /**
    As long as a client does not know that its address is validated, a timer runs, so that it can unblock
    a server that may send nothing more (section 6.2.2.1 of RFC 9002). With a confirmed handshake, a timer
    runs only if there is something it can be for.
   */
  ghost predicate AlarmOk(h: State) {
    && (!h.completed && h.log.active ==> h.alarm != 0)
    && (h.confirmed && h.spaces.app.lastAckElicitingTime == 0 && h.spaces.app.lossTime == 0 ==> h.alarm == 0)
  }

  ghost predicate Inv(h: State) {
    && SpacesOk(h.spaces) && ModesOk(h) && AlarmOk(h)
    && h.bytesInFlight == Tracked(h.spaces, LENGTH)
  }

  /** Every packet that was sent is tracked, or was acknowledged, lost or dropped: once. */
  ghost predicate Balanced(h: State, m: H.Packet -> nat) {
    Tracked(h.spaces, m) == Pending(h.log, m)
  }

  lemma OutstandingHasTime(sp: Space)
    requires SpaceOk(sp) && sp.history.numOutstanding > 0
    ensures sp.lastAckElicitingTime > 0
  {
    var i := H.SumPositive(sp.history.packets, H.OUTSTANDING);
    assert H.Tracks(sp.history, sp.history.packets[i].value);
  }

  lemma TimerOk(h: State, c: Clock)
    requires SpacesOk(h.spaces) && ModesOk(h)
    ensures AlarmOk(WithTimer(h, c))
  {
    hide SpaceOk, Aligned, LossTimeAndSpace;
    EarliestLossTime(h.spaces);
    SpacesTimes(h.spaces);
    if HasOutstanding(h.spaces.initial) {
      OutstandingHasTime(h.spaces.initial.value);
    }
    if HasOutstanding(h.spaces.handshake) {
      OutstandingHasTime(h.spaces.handshake.value);
    }
    if h.spaces.app.history.numOutstanding > 0 {
      OutstandingHasTime(h.spaces.app);
    }
    assert LossTimeOf(Get(h.spaces, H.OneRTT)) == h.spaces.app.lossTime;
  }

  lemma SpacesTimes(s: Spaces)
    requires SpacesOk(s)
    ensures 0 <= s.app.lastAckElicitingTime
    ensures s.initial.Some? ==> 0 <= s.initial.value.lastAckElicitingTime
    ensures s.handshake.Some? ==> 0 <= s.handshake.value.lastAckElicitingTime
  {
  }

  lemma GetPut(s: Spaces, level: H.Level, sp: Space, m: H.Packet -> nat)
    requires Get(s, level).Some?
    ensures Get(Put(s, level, sp), level) == Some(sp)
    ensures forall sp' :: Put(Put(s, level, sp), level, sp') == Put(s, level, sp')
    ensures SpacesOk(s) ==> SpaceOk(Get(s, level).value) && Aligned(Get(s, level).value)
    ensures SpacesOk(s) && SpaceOk(sp) && Aligned(sp) ==> SpacesOk(Put(s, level, sp))
    ensures Tracked(Put(s, level, sp), m) + H.Sum(Get(s, level).value.history.packets, m) ==
            Tracked(s, m) + H.Sum(sp.history.packets, m)
    ensures Put(s, level, sp).handshake.None? <==> s.handshake.None?
    ensures Put(s, level, sp).initial.None? <==> s.initial.None?
  {
  }

  lemma TotalConcat(a: seq<H.Packet>, b: seq<H.Packet>, m: H.Packet -> nat)
    ensures Total(a + b, m) == Total(a, m) + Total(b, m)
  {
    if b == [] {
      assert a + b == a;
    } else {
      assert (a + b)[..|a + b| - 1] == a + b[..|b| - 1];
    }
  }

  lemma TotalOne(p: H.Packet, m: H.Packet -> nat)
    ensures Total([p], m) == m(p)
  {
    assert [p][..0] == [];
  }

  lemma LengthZeroOnSkipped()
    ensures ZeroOnSkipped(LENGTH)
  {
  }

  // ---------------------------------------------------------------------------------------------
  // Sending

  function PopState(h: State, level: H.Level, r: nat): State
    requires Get(h.spaces, level).Some?
  {
    h.(spaces := Put(h.spaces, level, PopSpace(Get(h.spaces, level).value, r)))
  }

  function SentState(h: State, pn: int, x: Outgoing, c: Clock): State
    requires Get(h.spaces, x.level).Some?
  {
    var spaces := Put(h.spaces, x.level, SentSpace(Get(h.spaces, x.level).value, pn, x));
    if x.frames == [] then
      var h1 := h.(spaces := spaces, bytesSent := h.bytesSent + x.size, log := h.log.(active := true));
      if h.completed then h1 else WithTimer(h1, c)
    else
      WithTimer(h.(spaces := spaces, bytesSent := h.bytesSent + x.size, bytesInFlight := h.bytesInFlight + x.size,
                   numProbes := if h.numProbes > 0 then h.numProbes - 1 else h.numProbes,
                   log := h.log.(active := true, sent := h.log.sent + [PacketOf(pn, x)])), c)
  }

  /** A packet gets its number and is sent. */
  function SendState(h: State, x: Outgoing, c: Clock, r: nat): State
    requires Get(h.spaces, x.level).Some?
  {
    GetPut(h.spaces, x.level, PopSpace(Get(h.spaces, x.level).value, r), LENGTH);
    SentState(PopState(h, x.level, r), NextNumber(Get(h.spaces, x.level).value), x, c)
  }

  lemma SendKeeps(h: State, x: Outgoing, c: Clock, r: nat)
    requires Inv(h) && Get(h.spaces, x.level).Some? && N.Random(Get(h.spaces, x.level).value.pns, r) && 0 < x.time
    ensures Inv(SendState(h, x, c, r))
  {
    hide SpaceOk, Aligned, SpacesOk, Tracked, Get, Put, TimerValue, PopSpace, SentSpace, H.Sum;
    SendBalance(h, x, c, r, LENGTH);
    var sp := Get(h.spaces, x.level).value;
    var sp1 := PopSpace(sp, r);
    var sp2 := SentSpace(sp1, NextNumber(sp), x);
    var h' := SendState(h, x, c, r);
    GetPut(h.spaces, x.level, sp1, LENGTH);
    GetPut(h.spaces, x.level, sp2, LENGTH);
    AppTimesKept(h.spaces, x, r);
    TimerOk(h'.(alarm := h.alarm), c);
  }

  /** A packet without frames leaves the times alone. */
  lemma AppTimesKept(s: Spaces, x: Outgoing, r: nat)
    requires Get(s, x.level).Some?
    ensures var sp := Get(s, x.level).value;
            var s' := Put(s, x.level, SentSpace(PopSpace(sp, r), NextNumber(sp), x));
            && s'.app.lossTime == s.app.lossTime
            && (x.frames == [] ==> s'.app.lastAckElicitingTime == s.app.lastAckElicitingTime)
  {
  }

  /** What is tracked of this measure changes as the log says. */
  lemma SendBalance(h: State, x: Outgoing, c: Clock, r: nat, m: H.Packet -> nat)
    requires SpacesOk(h.spaces) && Get(h.spaces, x.level).Some? && N.Random(Get(h.spaces, x.level).value.pns, r)
    requires 0 < x.time && ZeroOnSkipped(m)
    ensures var h' := SendState(h, x, c, r);
            var p := PacketOf(NextNumber(Get(h.spaces, x.level).value), x);
            && Tracked(h'.spaces, m) == Tracked(h.spaces, m) + (if x.frames == [] then 0 else m(p))
            && Pending(h'.log, m) == Pending(h.log, m) + (if x.frames == [] then 0 else m(p))
            && SpacesOk(h'.spaces)
  {
    hide SpaceOk, Aligned, SpacesOk, Tracked, Get, Put, TimerValue, PopSpace, SentSpace, H.Sum, Total, ZeroOnSkipped;
    var sp := Get(h.spaces, x.level).value;
    var sp1 := PopSpace(sp, r);
    var pn := NextNumber(sp);
    var sp2 := SentSpace(sp1, pn, x);
    GetPut(h.spaces, x.level, sp1, m);
    GetPut(h.spaces, x.level, sp2, m);
    PopSpaceOk(sp, r, m);
    SentSpaceOk(sp1, pn, x, m);
    TotalConcat(h.log.sent, [PacketOf(pn, x)], m);
    TotalOne(PacketOf(pn, x), m);
  }

  // ---------------------------------------------------------------------------------------------
  // Loss detection

  /** As Inv, without the timer, and with `slack` bytes that are no longer tracked. */
  ghost predicate CoreInv(h: State, slack: nat) {
    SpacesOk(h.spaces) && ModesOk(h) && h.bytesInFlight == Tracked(h.spaces, LENGTH) + slack
  }

  function DetectState(h: State, level: H.Level, now: nat, lossDelay: nat): State
    requires Get(h.spaces, level).Some?
  {
    var sp := Get(h.spaces, level).value;
    var lost := LostPackets(sp, now, lossDelay);
    h.(spaces := Put(h.spaces, level, LossSpace(sp, now, lossDelay)),
       bytesInFlight := h.bytesInFlight - Total(lost, LENGTH),
       log := h.log.(lost := h.log.lost + lost))
  }

  lemma DetectKeeps(h: State, level: H.Level, now: nat, lossDelay: nat, slack: nat)
    requires CoreInv(h, slack) && Get(h.spaces, level).Some? && lossDelay > 0
    ensures CoreInv(DetectState(h, level, now, lossDelay), slack)
  {
    hide SpaceOk, Aligned, SpacesOk, Tracked, Get, Put, LossSpace, LostPackets, H.Sum, Total;
    var sp := Get(h.spaces, level).value;
    GetPut(h.spaces, level, LossSpace(sp, now, lossDelay), LENGTH);
    LossSpaceOk(sp, now, lossDelay, LENGTH);
  }

  lemma DetectBalance(h: State, level: H.Level, now: nat, lossDelay: nat, m: H.Packet -> nat)
    requires SpacesOk(h.spaces) && Get(h.spaces, level).Some? && lossDelay > 0
    ensures Balanced(h, m) ==> Balanced(DetectState(h, level, now, lossDelay), m)
  {
    hide SpaceOk, Aligned, SpacesOk, Tracked, Get, Put, LossSpace, LostPackets, H.Sum, Total;
    var sp := Get(h.spaces, level).value;
    GetPut(h.spaces, level, LossSpace(sp, now, lossDelay), m);
    LossSpaceOk(sp, now, lossDelay, m);
    TotalConcat(h.log.lost, LostPackets(sp, now, lossDelay), m);
  }

  // ---------------------------------------------------------------------------------------------
  // Acknowledgements

  /** An ACK for a Handshake or 1-RTT packet tells a client that the server has validated its address. */
  function ValidatingState(h: State, level: H.Level, c: Clock): State {
    if h.client && !h.completed && (level.Handshake? || level.OneRTT?) then WithTimer(h.(completed := true), c) else h
  }

  /** The lowest number for which the peer may not know that it was acknowledged. */
  function LowestNotConfirmed(n: int, acked: seq<H.Packet>): int {
    if acked == [] then n
    else
      var p := acked[|acked| - 1];
      var r := LowestNotConfirmed(n, acked[..|acked| - 1]);
      if p.largestAcked != H.INVALID_PACKET_NUMBER then Max(r, p.largestAcked + 1) else r
  }

  /** It is beyond every number that an acknowledged packet has acknowledged, and no further. */
  lemma {:induction false} LowestNotConfirmedFacts(n: int, acked: seq<H.Packet>)
    ensures var r := LowestNotConfirmed(n, acked);
            && n <= r
            && (forall i :: 0 <= i < |acked| && acked[i].largestAcked != H.INVALID_PACKET_NUMBER ==>
                  acked[i].largestAcked < r)
            && (r == n || exists i :: 0 <= i < |acked| && acked[i].largestAcked + 1 == r)
  {
    if acked != [] {
      LowestNotConfirmedFacts(n, acked[..|acked| - 1]);
      var r := LowestNotConfirmed(n, acked[..|acked| - 1]);
      if r != n {
        var i :| 0 <= i < |acked| - 1 && acked[..|acked| - 1][i].largestAcked + 1 == r;
        assert acked[i].largestAcked + 1 == r;
      }
    }
  }

  function NewlyAcked(h: State, rs: seq<AckRange>, level: H.Level): seq<H.Packet>
    requires Get(h.spaces, level).Some?
  {
    Select(Get(h.spaces, level).value.history.packets, Acking(rs))
  }

  /** The acknowledged packets are taken out of the history. */
  function RemovedState(h: State, acked: seq<H.Packet>, level: H.Level, largestAcked: int): State
    requires Get(h.spaces, level).Some?
  {
    h.(spaces := Put(h.spaces, level, AckedSpace(Get(h.spaces, level).value, acked, largestAcked)),
       lowestNotConfirmedAcked :=
         if level.OneRTT? then LowestNotConfirmed(h.lowestNotConfirmedAcked, acked) else h.lowestNotConfirmedAcked,
       log := h.log.(acked := h.log.acked + acked))
  }

  /** Their bytes are taken out of the bytes in flight, and the PTO state is reset. */
  function FinishedState(h: State, acked: seq<H.Packet>, c: Clock): State {
    WithTimer(h.(bytesInFlight := h.bytesInFlight - Total(acked, LENGTH),
                 ptoCount := if h.completed then 0 else h.ptoCount, numProbes := 0), c)
  }

  /** What an ACK without error does. */
  function AckState(h: State, rs: seq<AckRange>, level: H.Level, c: Clock, c': Clock, lossDelay: nat): State
    requires Get(h.spaces, level).Some? && rs != []
  {
    var h1 := ValidatingState(h, level, c);
    var acked := NewlyAcked(h1, rs, level);
    if acked == [] then h1
    else
      var h2 := RemovedState(h1, acked, level, rs[0].largest);
      GetPut(h1.spaces, level, AckedSpace(Get(h1.spaces, level).value, acked, rs[0].largest), LENGTH);
      FinishedState(DetectState(h2, level, c.now, lossDelay), acked, c')
  }

  ghost predicate AckError(h: State, rs: seq<AckRange>, level: H.Level)
    requires Get(h.spaces, level).Some? && rs != []
  {
    var sp := Get(h.spaces, level).value;
    rs[0].largest > sp.largestSent || AcksSkipped(sp.history, rs)
  }

  lemma ValidatingKeeps(h: State, level: H.Level, c: Clock)
    requires Inv(h)
    ensures Inv(ValidatingState(h, level, c))
  {
    hide SpacesOk, Tracked, TimerValue;
    if h.client && !h.completed {
      TimerOk(h.(completed := true), c);
    }
  }

  lemma RemovedKeeps(h: State, acked: seq<H.Packet>, level: H.Level, largestAcked: int)
    requires CoreInv(h, 0) && Get(h.spaces, level).Some? && From(Get(h.spaces, level).value.history, acked)
    ensures CoreInv(RemovedState(h, acked, level, largestAcked), Total(acked, LENGTH))
  {
    hide SpaceOk, Aligned, SpacesOk, Tracked, Get, Put, AckedSpace, H.Sum, Total, From;
    var sp := Get(h.spaces, level).value;
    GetPut(h.spaces, level, AckedSpace(sp, acked, largestAcked), LENGTH);
    AckedSpaceOk(sp, acked, largestAcked, LENGTH);
  }

  lemma RemovedBalance(h: State, acked: seq<H.Packet>, level: H.Level, largestAcked: int, m: H.Packet -> nat)
    requires SpacesOk(h.spaces) && Get(h.spaces, level).Some? && From(Get(h.spaces, level).value.history, acked)
    requires ZeroOnSkipped(m)
    ensures Balanced(h, m) ==> Balanced(RemovedState(h, acked, level, largestAcked), m)
  {
    hide SpaceOk, Aligned, SpacesOk, Tracked, Get, Put, AckedSpace, H.Sum, Total, From, ZeroOnSkipped;
    var sp := Get(h.spaces, level).value;
    GetPut(h.spaces, level, AckedSpace(sp, acked, largestAcked), m);
    AckedSpaceOk(sp, acked, largestAcked, m);
    TotalConcat(h.log.acked, acked, m);
  }

  lemma NewlyAckedFrom(h: State, rs: seq<AckRange>, level: H.Level)
    requires SpacesOk(h.spaces) && Get(h.spaces, level).Some?
    ensures From(Get(h.spaces, level).value.history, NewlyAcked(h, rs, level))
  {
    hide Select, From;
    GetPut(h.spaces, level, Get(h.spaces, level).value, LENGTH);
    AckedExactly(Get(h.spaces, level).value.history, rs);
  }

  lemma AckKeeps(h: State, rs: seq<AckRange>, level: H.Level, c: Clock, c': Clock, lossDelay: nat)
    requires Inv(h) && Get(h.spaces, level).Some? && rs != [] && lossDelay > 0
    ensures Inv(AckState(h, rs, level, c, c', lossDelay))
  {
    hide SpacesOk, Tracked, TimerValue, Get, Put, RemovedState, DetectState, NewlyAcked, From, Total, AlarmOk;
    ValidatingKeeps(h, level, c);
    var h1 := ValidatingState(h, level, c);
    var acked := NewlyAcked(h1, rs, level);
    if acked != [] {
      NewlyAckedFrom(h1, rs, level);
      RemovedKeeps(h1, acked, level, rs[0].largest);
      var h2 := RemovedState(h1, acked, level, rs[0].largest);
      RemovedHas(h1, acked, level, rs[0].largest);
      DetectKeeps(h2, level, c.now, lossDelay, Total(acked, LENGTH));
      var h3 := DetectState(h2, level, c.now, lossDelay);
      TimerOk(h3.(bytesInFlight := h3.bytesInFlight - Total(acked, LENGTH),
                  ptoCount := if h3.completed then 0 else h3.ptoCount, numProbes := 0), c');
    }
  }

  lemma RemovedHas(h: State, acked: seq<H.Packet>, level: H.Level, largestAcked: int)
    requires Get(h.spaces, level).Some?
    ensures Get(RemovedState(h, acked, level, largestAcked).spaces, level).Some?
  {
  }

  lemma AckBalance(h: State, rs: seq<AckRange>, level: H.Level, c: Clock, c': Clock, lossDelay: nat, m: H.Packet -> nat)
    requires Inv(h) && Get(h.spaces, level).Some? && rs != [] && lossDelay > 0 && ZeroOnSkipped(m)
    ensures Balanced(h, m) ==> Balanced(AckState(h, rs, level, c, c', lossDelay), m)
  {
    hide SpacesOk, Tracked, TimerValue, Get, Put, RemovedState, DetectState, NewlyAcked, From, Total, AlarmOk,
         ZeroOnSkipped;
    ValidatingKeeps(h, level, c);
    var h1 := ValidatingState(h, level, c);
    var acked := NewlyAcked(h1, rs, level);
    if acked != [] {
      NewlyAckedFrom(h1, rs, level);
      RemovedKeeps(h1, acked, level, rs[0].largest);
      RemovedBalance(h1, acked, level, rs[0].largest, m);
      RemovedHas(h1, acked, level, rs[0].largest);
      DetectBalance(RemovedState(h1, acked, level, rs[0].largest), level, c.now, lossDelay, m);
    }
  }

  // ---------------------------------------------------------------------------------------------
  // Probes

  /** The outstanding packet with the lowest number. */
  function FirstOutstanding(s: H.Slots): Option<H.Packet> {
    var o := Select(s, H.Outstanding);
    if o == [] then None else Some(o[0])
  }

  /** The frames of the first outstanding packet are queued for retransmission. */
  function ProbeState(h: State, level: H.Level): State
    requires Get(h.spaces, level).Some?
  {
    var sp := Get(h.spaces, level).value;
    var p := FirstOutstanding(sp.history.packets);
    if p.None? then h
    else h.(spaces := Put(h.spaces, level, ProbedSpace(sp, p.value)),
            bytesInFlight := h.bytesInFlight - LENGTH(p.value),
            log := h.log.(lost := h.log.lost + [p.value]))
  }

  lemma FirstOutstandingTracked(h: H.State)
    ensures var p := FirstOutstanding(h.packets);
            && (p.Some? ==> H.Tracks(h, p.value) && H.Outstanding(p.value))
            && (p.None? ==> forall q :: H.Tracks(h, q) ==> !H.Outstanding(q))
  {
    hide Select;
    var o := Select(h.packets, H.Outstanding);
    if o != [] {
      SelectMember(h.packets, H.Outstanding, o[0]);
      assert o[0] in o;
    } else {
      forall q | H.Tracks(h, q) ensures !H.Outstanding(q) {
        SelectMember(h.packets, H.Outstanding, q);
      }
    }
  }

  lemma ProbeAppTimes(h: State, level: H.Level)
    requires Get(h.spaces, level).Some?
    ensures ProbeState(h, level).spaces.app.lossTime == h.spaces.app.lossTime
    ensures ProbeState(h, level).spaces.app.lastAckElicitingTime == h.spaces.app.lastAckElicitingTime
  {
  }

  lemma ProbeKeeps(h: State, level: H.Level)
    requires Inv(h) && Get(h.spaces, level).Some?
    ensures Inv(ProbeState(h, level))
  {
    hide SpaceOk, Aligned, SpacesOk, Tracked, Get, Put, ProbedSpace, H.Sum, FirstOutstanding, LENGTH;
    var sp := Get(h.spaces, level).value;
    FirstOutstandingTracked(sp.history);
    var p := FirstOutstanding(sp.history.packets);
    if p.Some? {
      GetPut(h.spaces, level, ProbedSpace(sp, p.value), LENGTH);
      ProbedSpaceOk(sp, p.value, LENGTH);
      ProbeAppTimes(h, level);
    }
  }

  lemma ProbeBalance(h: State, level: H.Level, m: H.Packet -> nat)
    requires Inv(h) && Get(h.spaces, level).Some?
    ensures Balanced(h, m) ==> Balanced(ProbeState(h, level), m)
  {
    hide SpaceOk, Aligned, SpacesOk, Tracked, Get, Put, ProbedSpace, H.Sum, FirstOutstanding, Total;
    var sp := Get(h.spaces, level).value;
    FirstOutstandingTracked(sp.history);
    var p := FirstOutstanding(sp.history.packets);
    if p.Some? {
      GetPut(h.spaces, level, ProbedSpace(sp, p.value), m);
      ProbedSpaceOk(sp, p.value, m);
      TotalConcat(h.log.lost, [p.value], m);
      TotalOne(p.value, m);
    }
  }

  // ---------------------------------------------------------------------------------------------
  // The timer fires

  /** A level for which no PTO can be sent, or a space that is gone. */
  predicate BadPTO(h: State, p: PTO) {
    p.PTO? && (p.level.None? || p.level.value.ZeroRTT? || Get(h.spaces, p.level.value).None?)
  }

  /** No timer is set for anything else: the errors and panics of a timeout. */
  predicate TimeoutBug(h: State, c: Clock) {
    && LossTimeAndSpace(h.spaces).0 == 0
    && (if h.bytesInFlight == 0 && !h.completed then h.spaces.initial.None? && h.spaces.handshake.None?
        else BadPTO(h, PTOTimeAndSpace(h, c)))
  }

  function CountedProbes(h: State, mode: SendMode, probes: nat): State {
    h.(ptoCount := h.ptoCount + 1, numProbes := h.numProbes + probes, ptoMode := mode)
  }

  function ProbingState(h: State, level: H.Level, probes: nat, r: nat): State {
    match level
    case Initial => CountedProbes(h, SendPTOInitial, probes)
    case Handshake => CountedProbes(h, SendPTOHandshake, probes)
    case _ => CountedProbes(h.(spaces := Put(h.spaces, H.OneRTT, SkipSpace(h.spaces.app, r))), SendPTOAppData, probes)
  }

  /** What a timeout does before it sets the timer again. */
  function FiredState(h: State, c: Clock, lossDelay: nat, r: nat): State
    requires !TimeoutBug(h, c) && SpacesPresent(h.spaces)
  {
    var (lossTime, level) := LossTimeAndSpace(h.spaces);
    if lossTime != 0 then DetectState(h, level, c.now, lossDelay)
    else if h.bytesInFlight == 0 && !h.completed then
      ProbingState(h, if h.spaces.initial.Some? then H.Initial else H.Handshake, 1, r)
    else
      var p := PTOTimeAndSpace(h, c);
      if p.NoPTO? then h
      else if Get(h.spaces, p.level.value).value.history.numOutstanding <= 0 && !h.completed then h
      else ProbingState(h, p.level.value, 2, r)
  }

  predicate SpacesPresent(s: Spaces) {
    Get(s, LossTimeAndSpace(s).1).Some?
  }

  function TimeoutState(h: State, c: Clock, c': Clock, lossDelay: nat, r: nat): State
    requires !TimeoutBug(h, c) && SpacesPresent(h.spaces)
  {
    WithTimer(FiredState(h, c, lossDelay, r), c')
  }

  /** With the timer armed, a timeout meets no error and no panic. */
  lemma TimeoutIsSafe(h: State, c: Clock)
    requires Inv(h) && h.alarm != 0
    ensures !TimeoutBug(h, c) && SpacesPresent(h.spaces)
  {
    hide SpaceOk, Aligned, LossTimeAndSpace;
    EarliestLossTime(h.spaces);
    SpacesTimes(h.spaces);
    if HasOutstanding(h.spaces.initial) {
      OutstandingHasTime(h.spaces.initial.value);
    }
    if HasOutstanding(h.spaces.handshake) {
      OutstandingHasTime(h.spaces.handshake.value);
    }
    assert LossTimeOf(Get(h.spaces, H.OneRTT)) == h.spaces.app.lossTime;
  }

  lemma ProbingKeeps(h: State, level: H.Level, probes: nat, r: nat, m: H.Packet -> nat)
    requires CoreInv(h, 0) && N.Random(h.spaces.app.pns, r) && ZeroOnSkipped(m)
    ensures CoreInv(ProbingState(h, level, probes, r), 0)
    ensures Balanced(h, m) ==> Balanced(ProbingState(h, level, probes, r), m)
  {
    hide SpaceOk, Aligned, Tracked, SkipSpace, H.Sum, Total, ZeroOnSkipped;
    if !level.Initial? && !level.Handshake? {
      LengthZeroOnSkipped();
      SkipSpaceOk(h.spaces.app, r, LENGTH);
      SkipSpaceOk(h.spaces.app, r, m);
      GetPut(h.spaces, H.OneRTT, SkipSpace(h.spaces.app, r), LENGTH);
      GetPut(h.spaces, H.OneRTT, SkipSpace(h.spaces.app, r), m);
    }
  }

  lemma TimeoutKeeps(h: State, c: Clock, c': Clock, lossDelay: nat, r: nat, m: H.Packet -> nat)
    requires Inv(h) && !TimeoutBug(h, c) && SpacesPresent(h.spaces) && lossDelay > 0 && N.Random(h.spaces.app.pns, r)
    requires ZeroOnSkipped(m)
    ensures Inv(TimeoutState(h, c, c', lossDelay, r))
    ensures Balanced(h, m) ==> Balanced(TimeoutState(h, c, c', lossDelay, r), m)
  {
    hide SpacesOk, Tracked, TimerValue, Get, Put, DetectState, ProbingState, PTOTimeAndSpace, LossTimeAndSpace,
         AlarmOk, Pending, ZeroOnSkipped, N.Random;
    var (lossTime, level) := LossTimeAndSpace(h.spaces);
    var h1 := FiredState(h, c, lossDelay, r);
    if lossTime != 0 {
      DetectKeeps(h, level, c.now, lossDelay, 0);
      DetectBalance(h, level, c.now, lossDelay, m);
    } else {
      ProbingKeeps(h, if h.spaces.initial.Some? then H.Initial else H.Handshake, 1, r, m);
      var p := PTOTimeAndSpace(h, c);
      if p.PTO? && p.level.Some? {
        ProbingKeeps(h, p.level.value, 2, r, m);
      }
    }
    assert CoreInv(h1, 0);
    TimerOk(h1, c');
  }

  // ---------------------------------------------------------------------------------------------
  // Keys are dropped

  const EVERYTHING: H.Packet -> bool := (p: H.Packet) => true
  const NOT_SKIPPED: H.Packet -> bool := (p: H.Packet) => !p.skipped

  lemma {:induction false} SelectTotal(s: H.Slots, keep: H.Packet -> bool, m: H.Packet -> nat)
    requires forall p :: !keep(p) ==> m(p) == 0
    ensures Total(Select(s, keep), m) == H.Sum(s, m)
  {
    if s != [] {
      var n := |s| - 1;
      SelectTotal(s[..n], keep, m);
      H.SumAppend(s[..n], s[n], m);
      assert s == s[..n] + [s[n]];
      var ps := Select(s[..n], keep);
      if s[n].Some? && keep(s[n].value) {
        TotalConcat(ps, [s[n].value], m);
        TotalOne(s[n].value, m);
      } else {
        assert ps + [] == ps;
      }
    }
  }

  /** A packet that rejected 0-RTT keys invalidate, or a number that was skipped among them. */
  predicate RejectedZeroRTT(x: Option<H.Packet>) {
    x.Some? ==> x.value.level.ZeroRTT? || x.value.skipped
  }

  /** The number of slots before the first packet that is not a 0-RTT packet. */
  function Leading(s: H.Slots): (k: nat)
    ensures k <= |s| && (forall i :: 0 <= i < k ==> RejectedZeroRTT(s[i])) && (k < |s| ==> !RejectedZeroRTT(s[k]))
  {
    if s == [] || !RejectedZeroRTT(s[0]) then 0 else 1 + Leading(s[1..])
  }

  /** The packets that are forgotten with the keys of a level. */
  function DroppedPackets(s: Spaces, level: H.Level): seq<H.Packet> {
    match level
    case Initial => if s.initial.Some? then Select(s.initial.value.history.packets, EVERYTHING) else []
    case Handshake => if s.handshake.Some? then Select(s.handshake.value.history.packets, EVERYTHING) else []
    case _ => Select(s.app.history.packets[..Leading(s.app.history.packets)], EVERYTHING)
  }

  function DropSpaces(s: Spaces, level: H.Level): Spaces {
    match level
    case Initial => s.(initial := None)
    case Handshake => s.(handshake := None)
    case _ => s.(app := s.app.(history := RemoveAll(s.app.history, DroppedPackets(s, level))))
  }

  function DroppedState(h: State, level: H.Level): State {
    var dropped := DroppedPackets(h.spaces, level);
    h.(spaces := DropSpaces(h.spaces, level),
       completed := h.completed || (h.client && level.Handshake?),
       bytesInFlight := h.bytesInFlight - Total(dropped, LENGTH),
       ptoCount := 0, numProbes := 0, ptoMode := SendNone,
       log := h.log.(dropped := h.log.dropped + dropped))
  }

  function DropState(h: State, level: H.Level, c: Clock): State {
    if Get(h.spaces, level).None? then h.(completed := h.completed || (h.client && level.Handshake?))
    else WithTimer(DroppedState(h, level), c)
  }

  lemma DropZeroRTT(sp: Space, m: H.Packet -> nat)
    requires SpaceOk(sp) && Aligned(sp) && ZeroOnSkipped(m)
    ensures var dropped := Select(sp.history.packets[..Leading(sp.history.packets)], EVERYTHING);
            var sp' := sp.(history := RemoveAll(sp.history, dropped));
            && SpaceOk(sp') && Aligned(sp')
            && H.Sum(sp'.history.packets, m) + Total(dropped, m) == H.Sum(sp.history.packets, m)
  {
    hide Select, Leading, RemoveAll, H.Sum, Total, ZeroOnSkipped, H.Valid, PacketsOk;
    var dropped := Select(sp.history.packets[..Leading(sp.history.packets)], EVERYTHING);
    SelectFrom(sp.history, Leading(sp.history.packets), EVERYTHING);
    RemoveAllFacts(sp.history, dropped, m);
    FewerPackets(sp, sp.(history := RemoveAll(sp.history, dropped)));
  }

  lemma DropSpacesOk(s: Spaces, level: H.Level, m: H.Packet -> nat)
    requires SpacesOk(s) && ZeroOnSkipped(m)
    ensures SpacesOk(DropSpaces(s, level))
    ensures Tracked(DropSpaces(s, level), m) + Total(DroppedPackets(s, level), m) == Tracked(s, m)
  {
    hide Select, RemoveAll, H.Sum, SpaceOk, Aligned, ZeroOnSkipped, Leading;
    match level {
      case Initial =>
        if s.initial.Some? {
          SelectTotal(s.initial.value.history.packets, EVERYTHING, m);
        }
      case Handshake =>
        if s.handshake.Some? {
          SelectTotal(s.handshake.value.history.packets, EVERYTHING, m);
        }
      case _ =>
        DropZeroRTT(s.app, m);
    }
  }

  lemma DropKeeps(h: State, level: H.Level, c: Clock, m: H.Packet -> nat)
    requires Inv(h) && ZeroOnSkipped(m)
    ensures Inv(DropState(h, level, c))
    ensures Balanced(h, m) ==> Balanced(DropState(h, level, c), m)
  {
    hide SpacesOk, Tracked, TimerValue, DroppedPackets, Total, ZeroOnSkipped;
    LengthZeroOnSkipped();
    DropSpacesOk(h.spaces, level, LENGTH);
    DropSpacesOk(h.spaces, level, m);
    TotalConcat(h.log.dropped, DroppedPackets(h.spaces, level), m);
    var h1 := DroppedState(h, level);
    TimerOk(h1, c);
  }

  // ---------------------------------------------------------------------------------------------
  // Retry, address validation and the end of the handshake

  function RetryLost(s: Spaces): seq<H.Packet>
    requires s.initial.Some?
  {
    Select(s.initial.value.history.packets, NOT_SKIPPED) + Select(s.app.history.packets, NOT_SKIPPED)
  }

  function RetrySpaces(s: Spaces, r: nat): Spaces
    requires s.initial.Some?
  {
    s.(initial := Some(NewSpace(N.Sequential(NextNumber(s.initial.value)))),
       app := NewSpace(SkippingFrom(NextNumber(s.app), r)))
  }

  /** All that was sent is queued for retransmission, and the numbers go on where they were. */
  function RetryState(h: State, r: nat): State
    requires h.spaces.initial.Some?
  {
    h.(spaces := RetrySpaces(h.spaces, r), bytesInFlight := 0, alarm := 0, ptoCount := 0,
       log := h.log.(lost := h.log.lost + RetryLost(h.spaces), active := false))
  }

  predicate RandomSkip(r: nat) {
    r < 2 * N.SKIP_INITIAL_PERIOD
  }

  lemma RetryTotal(s: Spaces, r: nat, m: H.Packet -> nat)
    requires SpacesOk(s) && s.initial.Some? && RandomSkip(r) && ZeroOnSkipped(m)
    ensures SpacesOk(RetrySpaces(s, r)) && Tracked(RetrySpaces(s, r), m) == SpaceSum(s.handshake, m)
    ensures Tracked(s, m) == Total(RetryLost(s), m) + SpaceSum(s.handshake, m)
  {
    hide SpaceOk, Aligned, Select, Total;
    NewSpaceOk(N.Sequential(NextNumber(s.initial.value)));
    NewSpaceOk(SkippingFrom(NextNumber(s.app), r));
    var a, b := s.initial.value.history.packets, s.app.history.packets;
    SelectTotal(a, NOT_SKIPPED, m);
    SelectTotal(b, NOT_SKIPPED, m);
    TotalConcat(Select(a, NOT_SKIPPED), Select(b, NOT_SKIPPED), m);
  }

  /** Resetting the bytes in flight is right exactly if no bytes of Handshake packets are in flight. */
  lemma RetryExact(h: State, r: nat)
    requires Inv(h) && h.spaces.initial.Some? && RandomSkip(r)
    ensures Inv(RetryState(h, r)) <==> SpaceSum(h.spaces.handshake, LENGTH) == 0
  {
    hide SpacesOk, Tracked;
    LengthZeroOnSkipped();
    RetryTotal(h.spaces, r, LENGTH);
  }

  lemma RetryBalance(h: State, r: nat, m: H.Packet -> nat)
    requires Inv(h) && h.spaces.initial.Some? && RandomSkip(r) && ZeroOnSkipped(m)
    ensures Balanced(h, m) ==> Balanced(RetryState(h, r), m)
  {
    hide SpacesOk, Tracked, Total, ZeroOnSkipped;
    RetryTotal(h.spaces, r, m);
    TotalConcat(h.log.lost, RetryLost(h.spaces), m);
  }

  function BytesState(h: State, n: nat, c: Clock): State {
    var h1 := h.(bytesReceived := h.bytesReceived + n);
    if IsAmplificationLimited(h) && !IsAmplificationLimited(h1) then WithTimer(h1, c) else h1
  }

  /** A Handshake packet validates the address of the client. */
  function ReceivedState(h: State, level: H.Level, c: Clock): State {
    if !h.client && level.Handshake? && !h.validated then WithTimer(h.(validated := true), c) else h
  }

  function ConfirmedState(h: State, c: Clock): State {
    WithTimer(h.(confirmed := true), c)
  }

  lemma OthersKeep(h: State, n: nat, level: H.Level, c: Clock)
    requires Inv(h)
    ensures Inv(BytesState(h, n, c)) && Inv(ReceivedState(h, level, c))
    ensures h.spaces.initial.None? && h.spaces.handshake.None? ==> Inv(ConfirmedState(h, c))
  {
    hide SpacesOk, Tracked, TimerValue;
    TimerOk(h.(bytesReceived := h.bytesReceived + n), c);
    if !h.client {
      TimerOk(h.(validated := true), c);
    }
    if h.spaces.initial.None? && h.spaces.handshake.None? {
      TimerOk(h.(confirmed := true), c);
    }
  }

  // ---------------------------------------------------------------------------------------------
  // What may be sent

  function SlotsOf(sp: Option<Space>): nat {
    if sp.Some? then |sp.value.history.packets| else 0
  }

  /** The slots of all histories together. */
  function TrackedPackets(s: Spaces): nat {
    SlotsOf(s.initial) + SlotsOf(s.handshake) + SlotsOf(Some(s.app))
  }

  function Mode(h: State, canSend: bool, hasBudget: bool): SendMode {
    if IsAmplificationLimited(h) || TrackedPackets(h.spaces) >= MAX_TRACKED_SENT_PACKETS then SendNone
    else if h.numProbes > 0 then h.ptoMode
    else if !canSend || TrackedPackets(h.spaces) >= MAX_OUTSTANDING_SENT_PACKETS then SendAck
    else if !hasBudget then SendPacingLimited
    else SendAny
  }
}
