/**
  The callers of AcceptStream. They wait for a channel that holds one wake-up, and GetOrOpenStream sends one for
  each stream that the peer opens, unless the channel is full. Each critical section of the mutex is a step, and
  so is each operation on the channel.
 */
module AcceptQueue {
  import opened Common

  /**
    `token` is the wake-up in the channel. `looking` callers are about to look for a stream, `leaving` ones have
    found none and have yet to reach the channel, and `parked` ones wait there.
   */
  datatype State = State(
    nextToAccept: nat,
    nextToOpen: nat,
    token: bool,
    looking: nat,
    leaving: nat,
    parked: nat,
    closed: bool,
    channelClosed: bool)

  const START := State(1, 1, false, 0, 0, 0, false, false)

  datatype Event =
    | Enter           // AcceptStream drains the channel
    | Look            // a caller enters the mutex: it gets a stream or an error, or leaves the mutex to wait
    | Receive         // and reaches the channel
    | GiveUp(parked: bool)
    | Open            // GetOrOpenStream adds a stream and sends a wake-up
    | Close           // CloseWithError, in the mutex
    | CloseChannel    // and behind it

  /** Streams that were opened and not accepted. */
  function Available(s: State): int {
    s.nextToOpen - s.nextToAccept
  }

  function Tokens(s: State): nat {
    if s.token then 1 else 0
  }

  function Callers(s: State): nat {
    s.looking + s.leaving + s.parked
  }

  /** Nobody is parked while there is a wake-up in the channel, or once the channel is closed. */
  predicate Valid(s: State) {
    s.nextToAccept <= s.nextToOpen && (s.token || s.channelClosed ==> s.parked == 0) && (s.channelClosed ==> s.closed)
  }

  /** Sending into the channel once it is closed would panic. */
  predicate Enabled(s: State, e: Event) {
    match e
    case Enter => true
    case Look => s.looking > 0
    case Receive => s.leaving > 0
    case GiveUp(parked) => if parked then s.parked > 0 else s.leaving > 0
    case Open => !s.channelClosed
    case Close => !s.closed
    case CloseChannel => s.closed && !s.channelClosed
  }

  /** A wake-up goes to a caller that is parked, else into the channel, and is dropped if that is full. */
  function Sent(s: State): State {
    if s.parked > 0 then s.(parked := s.parked - 1, looking := s.looking + 1) else s.(token := true)
  }

  function Next(s: State, e: Event): State
    requires Enabled(s, e)
  {
    match e
    case Enter => s.(token := false, looking := s.looking + 1)
    case Look =>
      var s1 := s.(looking := s.looking - 1);
      if s.closed then s1
      else if Available(s) > 0 then s1.(nextToAccept := s.nextToAccept + 1)
      else s1.(leaving := s.leaving + 1)
    case Receive =>
      var s1 := s.(leaving := s.leaving - 1);
      if s.token then s1.(token := false, looking := s.looking + 1)
      else if s.channelClosed then s1.(looking := s.looking + 1)
      else s1.(parked := s.parked + 1)
    case GiveUp(parked) => if parked then s.(parked := s.parked - 1) else s.(leaving := s.leaving - 1)
    case Open => Sent(s.(nextToOpen := s.nextToOpen + 1))
    case Close => s.(closed := true)
    case CloseChannel => s.(channelClosed := true, looking := s.looking + s.parked, parked := 0)
  }

  ghost predicate IsChain(ss: seq<State>, es: seq<Event>) {
    && |ss| == |es| + 1
    && forall i :: 0 <= i < |es| ==> Enabled(ss[i], es[i]) && ss[i + 1] == Next(ss[i], es[i])
  }

  ghost predicate IsRun(ss: seq<State>, es: seq<Event>) {
    IsChain(ss, es) && ss[0] == START
  }

  lemma StepKeeps(s: State, e: Event)
    requires Valid(s) && Enabled(s, e)
    ensures Valid(Next(s, e))
  {
  }

  lemma {:induction false} ChainKeeps(ss: seq<State>, es: seq<Event>)
    requires IsChain(ss, es) && Valid(ss[0])
    ensures forall i :: 0 <= i < |ss| ==> Valid(ss[i])
  {
    if es != [] {
      var n := |es| - 1;
      ChainKeeps(ss[..n + 1], es[..n]);
      assert ss[..n + 1][n] == ss[n];
      StepKeeps(ss[n], es[n]);
    }
  }

  // ---------------------------------------------------------------------------------------------
  // Progress

  /** Everybody is at rest, and somebody waits although there is a stream. */
  predicate Stuck(s: State) {
    !s.closed && s.looking == 0 && s.leaving == 0 && s.parked > 0 && Available(s) > 0
  }

  /** There are wake-ups for as many callers as there are streams for them. */
  predicate Progress(s: State) {
    s.closed || Min(Available(s), Callers(s)) <= s.looking + Tokens(s)
  }

  /**
    What loses a wake-up: a stream is opened while the channel is full, two callers have yet to reach it and
    those that look will not take all streams; or a caller drains the channel before another one reaches it, and
    there are more streams than callers that look.
   */
  predicate LosesWakeUp(s: State, e: Event) {
    && !s.closed && s.token
    && match e
       case Open => s.leaving >= 2 && Available(s) > s.looking
       case Enter => s.leaving >= 1 && Available(s) > s.looking + 1
       case _ => false
  }

  lemma ProgressExact(s: State, e: Event)
    requires Valid(s) && Enabled(s, e) && Progress(s)
    ensures Progress(Next(s, e)) <==> !LosesWakeUp(s, e)
  {
  }

  /** The callers come to rest. */
  predicate Settles(e: Event) {
    e.Look? || e.Receive?
  }

  lemma SettlingKeeps(s: State, e: Event)
    requires Valid(s) && Enabled(s, e) && Settles(e)
    ensures Progress(Next(s, e)) <==> Progress(s)
  {
  }

  lemma {:induction false} SettledKeeps(ss: seq<State>, es: seq<Event>)
    requires IsChain(ss, es) && Valid(ss[0]) && forall i :: 0 <= i < |es| ==> Settles(es[i])
    ensures Progress(ss[|es|]) <==> Progress(ss[0])
  {
    hide Progress, Valid;
    if es != [] {
      var n := |es| - 1;
      SettledKeeps(ss[..n + 1], es[..n]);
      ChainKeeps(ss[..n + 1], es[..n]);
      assert ss[..n + 1][n] == ss[n];
      SettlingKeeps(ss[n], es[n]);
    }
  }

  /** With progress, nobody is left waiting for a stream that is there, however the callers come to rest. */
  lemma ProgressMeansServed(ss: seq<State>, es: seq<Event>)
    requires IsChain(ss, es) && Valid(ss[0]) && Progress(ss[0]) && forall i :: 0 <= i < |es| ==> Settles(es[i])
    ensures !Stuck(ss[|es|])
  {
    SettledKeeps(ss, es);
    ChainKeeps(ss, es);
  }

  /** Without it, somebody is: a caller waits for a stream that is there until the peer opens another one. */
  lemma {:induction false} EndsStuck(s: State) returns (ss: seq<State>, es: seq<Event>)
    requires Valid(s) && !Progress(s)
    ensures IsChain(ss, es) && ss[0] == s && (forall i :: 0 <= i < |es| ==> Settles(es[i])) && Stuck(ss[|es|])
    decreases 2 * s.leaving + s.looking
  {
    if s.looking == 0 && s.leaving == 0 {
      ss, es := [s], [];
    } else {
      var e := if s.looking > 0 then Look else Receive;
      SettlingKeeps(s, e);
      StepKeeps(s, e);
      var ss1, es1 := EndsStuck(Next(s, e));
      ss, es := [s] + ss1, [e] + es1;
      Prefixed(ss1, es1, s, e);
    }
  }

  lemma Prefixed(ss: seq<State>, es: seq<Event>, s: State, e: Event)
    requires IsChain(ss, es) && Enabled(s, e) && ss[0] == Next(s, e)
    ensures IsChain([s] + ss, [e] + es)
  {
    hide Next, Enabled;
    forall i | 0 <= i < |es| + 1
      ensures Enabled(([s] + ss)[i], ([e] + es)[i]) && ([s] + ss)[i + 1] == Next(([s] + ss)[i], ([e] + es)[i])
    {
      assert i > 0 ==> ([s] + ss)[i] == ss[i - 1] && ([e] + es)[i] == es[i - 1];
    }
  }

  /** In every run without such a loss, there is progress. */
  lemma {:induction false} RunProgress(ss: seq<State>, es: seq<Event>)
    requires IsRun(ss, es) && forall i :: 0 <= i < |es| ==> !LosesWakeUp(ss[i], es[i])
    ensures forall i :: 0 <= i < |ss| ==> Progress(ss[i]) && Valid(ss[i])
  {
    hide Progress, LosesWakeUp, Valid, Next, Enabled;
    if es == [] {
      StartOk();
    } else {
      var n := |es| - 1;
      RunProgress(ss[..n + 1], es[..n]);
      assert ss[..n + 1][n] == ss[n];
      ProgressExact(ss[n], es[n]);
      StepKeeps(ss[n], es[n]);
    }
  }

  lemma StartOk()
    ensures Valid(START) && Progress(START)
  {
  }

  lemma OneCallerLosesNothing(s: State, e: Event)
    requires Enabled(s, e) && Callers(s) <= 1 && Callers(Next(s, e)) <= 1
    ensures !LosesWakeUp(s, e)
  {
  }

  lemma NotStuck(s: State)
    requires Valid(s) && Progress(s)
    ensures !Stuck(s)
  {
  }

  /** So a program that calls AcceptStream from one place only never waits for a stream that is there. */
  lemma OneCallerIsServed(ss: seq<State>, es: seq<Event>)
    requires IsRun(ss, es) && forall i :: 0 <= i < |ss| ==> Callers(ss[i]) <= 1
    ensures forall i :: 0 <= i < |ss| ==> Progress(ss[i]) && !Stuck(ss[i])
  {
    hide Progress, Stuck, LosesWakeUp, Next, Enabled, Valid, Callers;
    forall i | 0 <= i < |es| ensures !LosesWakeUp(ss[i], es[i]) {
      assert Callers(ss[i]) <= 1 && Callers(ss[i + 1]) <= 1 && ss[i + 1] == Next(ss[i], es[i]);
      OneCallerLosesNothing(ss[i], es[i]);
    }
    RunProgress(ss, es);
    forall i | 0 <= i < |ss| ensures !Stuck(ss[i]) {
      NotStuck(ss[i]);
    }
  }

  ghost predicate Reaches(ss: seq<State>, es: seq<Event>, s: State) {
    IsRun(ss, es) && ss[|es|] == s
  }

  lemma StartReached()
    ensures Reaches([START], [], START)
  {
  }

  lemma Extended(ss: seq<State>, es: seq<Event>, s: State, e: Event) returns (ss': seq<State>, es': seq<Event>)
    requires Reaches(ss, es, s) && Enabled(s, e)
    ensures Reaches(ss', es', Next(s, e))
  {
    hide Next, Enabled;
    ss', es' := ss + [Next(s, e)], es + [e];
  }

  /** A caller finds no stream, and has yet to reach the channel. */
  lemma CallerLeaves(ss: seq<State>, es: seq<Event>, s: State) returns (ss': seq<State>, es': seq<Event>)
    requires Reaches(ss, es, s) && Available(s) == 0 && !s.closed && !s.token
    ensures Reaches(ss', es', s.(leaving := s.leaving + 1))
  {
    hide Reaches;
    ss', es' := Extended(ss, es, s, Enter);
    ss', es' := Extended(ss', es', s.(looking := s.looking + 1), Look);
  }

  lemma TwoCallersLeave() returns (ss: seq<State>, es: seq<Event>)
    ensures Reaches(ss, es, START.(leaving := 2))
  {
    hide Reaches;
    StartReached();
    ss, es := CallerLeaves([START], [], START);
    ss, es := CallerLeaves(ss, es, START.(leaving := 1));
  }

  const ONE_LEFT := START.(nextToOpen := 3, nextToAccept := 2, parked := 1)

  /** When two streams are opened while two callers are on their way, one of them is left waiting. */
  lemma CallerLeftWaiting() returns (ss: seq<State>, es: seq<Event>)
    ensures Reaches(ss, es, ONE_LEFT) && Stuck(ONE_LEFT)
  {
    hide Reaches;
    ss, es := TwoCallersLeave();
    ss, es := Extended(ss, es, START.(leaving := 2), Open);
    ss, es := Extended(ss, es, START.(leaving := 2, nextToOpen := 2, token := true), Open);
    ss, es := Extended(ss, es, START.(leaving := 2, nextToOpen := 3, token := true), Receive);
    ss, es := Extended(ss, es, START.(leaving := 1, looking := 1, nextToOpen := 3), Look);
    ss, es := Extended(ss, es, START.(leaving := 1, nextToOpen := 3, nextToAccept := 2), Receive);
  }
}
