/**
  The connection IDs that the peer has issued to us: one is active, the others are queued. For any
  peer, whatever NEW_CONNECTION_ID frames it sends.
 */
module ConnIDManager {
  import opened Common

  const MAX_ACTIVE_CONNECTION_IDS := 4

  type ConnID = nat
  type Token = nat

  /** A NEW_CONNECTION_ID frame; the parser rejects one whose retirePriorTo exceeds its number. */
  datatype NewFrame = NewFrame(seqNo: nat, retirePriorTo: nat, id: ConnID, token: Token)

  datatype Entry = Entry(seqNo: nat, id: ConnID, token: Token)

  /** `retireFrames` are the RETIRE_CONNECTION_ID frames queued so far, `tokens` the registered reset tokens. */
  datatype State = State(
    queue: seq<Entry>,
    handshakeComplete: bool,
    activeSeq: nat,
    highestRetired: nat,
    activeID: ConnID,
    activeToken: Option<Token>,
    packetsSinceLastChange: nat,
    packetsPerConnectionID: nat,
    retireFrames: seq<nat>,
    tokens: multiset<Token>)

  datatype AddResult = Added | ConflictingID | ConflictingToken | ConnectionIDLimitError

  ghost predicate Sorted(q: seq<Entry>) {
    forall i, j :: 0 <= i < j < |q| ==> q[i].seqNo < q[j].seqNo
  }

  ghost predicate Queued(s: State, n: nat) {
    exists i :: 0 <= i < |s.queue| && s.queue[i].seqNo == n
  }

  /** The number is in use: active, or queued for later use. */
  ghost predicate Known(s: State, n: nat) {
    n == s.activeSeq || Queued(s, n)
  }

  ghost predicate Retired(s: State, n: nat) {
    n in s.retireFrames
  }

  /** How many RETIRE_CONNECTION_ID frames for `n` were queued. */
  ghost function Times(s: State, n: nat): nat {
    multiset(s.retireFrames)[n]
  }

  ghost predicate HasEntry(s: State, e: Entry) {
    e in s.queue
  }

  /** The queue is sorted above the active number, and nothing in use has been retired. */
  ghost predicate Valid(s: State) {
    && Sorted(s.queue)
    && (forall i :: 0 <= i < |s.queue| ==> s.activeSeq < s.queue[i].seqNo)
    && s.highestRetired <= s.activeSeq
    && (forall n: nat :: Retired(s, n) ==> n < s.activeSeq)
    && s.tokens == (if s.activeToken.Some? then multiset{s.activeToken.value} else multiset{})
  }

  // ---------------------------------------------------------------------------------------------
  // What the operations promise

  /** A frame that comes too late: what it brings is retired at once. */
  predicate Late(s: State, f: NewFrame) {
    f.seqNo < s.activeSeq || f.seqNo < s.highestRetired
  }

  /** The frame retires `n`. */
  ghost predicate RetiredBy(s: State, f: NewFrame, n: nat) {
    if Late(s, f) then n == f.seqNo else Known(s, n) && n < f.retirePriorTo
  }

  /** Every ID in use was in use before, or is the new one. */
  ghost predicate SameEntries(s: State, s': State, e: Entry) {
    && (forall x :: HasEntry(s', x) ==> HasEntry(s, x) || x == e)
    && (s'.activeSeq == s.activeSeq ==> s'.activeID == s.activeID && s'.activeToken == s.activeToken)
    && (s'.activeSeq != s.activeSeq ==>
          exists x :: (HasEntry(s, x) || x == e) && x == Entry(s'.activeSeq, s'.activeID, x.token)
            && s'.activeToken == Some(x.token))
  }

  /**
    A frame without an error: what it retires is exactly what it asks to retire or brings too late;
    every other number stays in use, together with the new one.
   */
  ghost predicate AddSpec(s: State, s': State, f: NewFrame) {
    && Valid(s')
    && (forall n: nat :: Retired(s', n) <==> Retired(s, n) || RetiredBy(s, f, n))
    && (forall n: nat :: Known(s', n) <==> (Known(s, n) || n == f.seqNo) && !RetiredBy(s, f, n))
    && (forall n: nat :: Times(s', n) == Times(s, n) + (if RetiredBy(s, f, n) then 1 else 0))
    && SameEntries(s, s', Entry(f.seqNo, f.id, f.token))
    && s'.handshakeComplete == s.handshakeComplete
  }

  /** A switch to the lowest queued ID, which retires the active one. */
  ghost predicate SwitchSpec(s: State, s': State) {
    && Valid(s')
    && (forall n: nat :: Retired(s', n) <==> Retired(s, n) || n == s.activeSeq)
    && s'.retireFrames == s.retireFrames + [s.activeSeq] && s'.packetsSinceLastChange == 0
    && (forall n: nat :: Known(s', n) <==> Queued(s, n))
    && (forall x :: HasEntry(s', x) ==> HasEntry(s, x))
    && (exists x :: HasEntry(s, x) && x == Entry(s'.activeSeq, s'.activeID, x.token) && s'.activeToken == Some(x.token))
    && s'.handshakeComplete == s.handshakeComplete
  }

  predicate ShouldUpdate(s: State) {
    && s.handshakeComplete
    && ((|s.queue| > 0 && s.activeSeq == 0)
        || (2 * |s.queue| >= MAX_ACTIVE_CONNECTION_IDS && s.packetsSinceLastChange >= s.packetsPerConnectionID))
  }

  // ---------------------------------------------------------------------------------------------

  /** The lowest queued ID may become the active one. */
  ghost predicate Switchable(s: State) {
    && s.queue != [] && Sorted(s.queue)
    && (forall i :: 0 <= i < |s.queue| ==> s.activeSeq < s.queue[i].seqNo)
    && s.highestRetired <= s.queue[0].seqNo
    && (forall n: nat :: Retired(s, n) ==> n < s.queue[0].seqNo)
  }

  lemma SwitchOk(s: State, s': State)
    requires Switchable(s)
    requires var front := s.queue[0];
             s' == s.(queue := s.queue[1..], activeSeq := front.seqNo, activeID := front.id,
                      activeToken := Some(front.token), highestRetired := Max(s.highestRetired, s.activeSeq),
                      retireFrames := s.retireFrames + [s.activeSeq], tokens := multiset{front.token},
                      packetsSinceLastChange := 0,
                      packetsPerConnectionID := s'.packetsPerConnectionID)
    ensures SwitchSpec(s, s')
  {
    forall n: nat ensures Known(s', n) <==> Queued(s, n) {
      if Queued(s, n) {
        var i :| 0 <= i < |s.queue| && s.queue[i].seqNo == n;
        assert i > 0 ==> s'.queue[i - 1].seqNo == n;
      }
      if Queued(s', n) {
        var i :| 0 <= i < |s'.queue| && s'.queue[i].seqNo == n;
        assert s.queue[i + 1].seqNo == n;
      }
    }
    assert HasEntry(s, s.queue[0]);
    forall n: nat ensures Retired(s', n) <==> Retired(s, n) || n == s.activeSeq {}
  }

  /** After the queue was cleared of what the frame retires. */
  ghost predicate Cleared(s: State, s': State, retirePriorTo: nat) {
    && s' == s.(queue := s'.queue, retireFrames := s'.retireFrames, highestRetired := s'.highestRetired)
    && s'.highestRetired == Max(s.highestRetired, retirePriorTo)
    && Sorted(s'.queue)
    && (forall e :: e in s'.queue <==> e in s.queue && retirePriorTo <= e.seqNo)
    && (forall n: nat :: Retired(s', n) <==> Retired(s, n) || (Queued(s, n) && n < retirePriorTo))
    && (forall n: nat :: Times(s', n) == Times(s, n) + (if Queued(s, n) && n < retirePriorTo then 1 else 0))
  }

  /** After `e` was put into the queue, or was found to be there. */
  ghost predicate Inserted(q: seq<Entry>, q': seq<Entry>, e: Entry) {
    Sorted(q') && (forall x :: x in q' <==> x in q || x == e)
  }

  lemma QueuedEntry(s: State, n: nat)
    ensures Queued(s, n) <==> exists e :: e in s.queue && e.seqNo == n
  {
    if Queued(s, n) {
      var i :| 0 <= i < |s.queue| && s.queue[i].seqNo == n;
      assert s.queue[i] in s.queue;
    }
  }

  lemma AllAbove(s: State, bound: int)
    requires forall e :: e in s.queue ==> bound <= e.seqNo
    ensures forall i :: 0 <= i < |s.queue| ==> bound <= s.queue[i].seqNo
  {
    forall i | 0 <= i < |s.queue| ensures bound <= s.queue[i].seqNo {
      assert s.queue[i] in s.queue;
    }
  }

  /** The frame brings the active ID once more. */
  lemma AddActiveOk(s: State, s1: State, f: NewFrame)
    requires Valid(s) && !Late(s, f) && f.retirePriorTo <= f.seqNo == s.activeSeq && Cleared(s, s1, f.retirePriorTo)
    ensures AddSpec(s, s1, f)
  {
    forall n: nat ensures Queued(s1, n) <==> Queued(s, n) {
      QueuedEntry(s, n);
      QueuedEntry(s1, n);
    }
    AllAbove(s1, s.activeSeq + 1);
    assert forall n: nat :: !RetiredBy(s, f, n);
  }

  /** The frame brings a new ID, and the active one stays. */
  lemma AddQueuedOk(s: State, s1: State, s2: State, f: NewFrame)
    requires Valid(s) && !Late(s, f) && f.retirePriorTo <= s.activeSeq < f.seqNo && Cleared(s, s1, f.retirePriorTo)
    requires Inserted(s1.queue, s2.queue, Entry(f.seqNo, f.id, f.token)) && s2 == s1.(queue := s2.queue)
    ensures AddSpec(s, s2, f)
  {
    var e := Entry(f.seqNo, f.id, f.token);
    forall x | x in s2.queue ensures s.activeSeq + 1 <= x.seqNo {
      assert x == e || x in s.queue;
    }
    AllAbove(s2, s.activeSeq + 1);
    forall n: nat | Retired(s2, n) ensures n < s.activeSeq {
      assert Retired(s1, n);
    }
    forall n: nat ensures Known(s2, n) <==> (Known(s, n) || n == f.seqNo) && !RetiredBy(s, f, n) {
      KnownAfterInsert(s, s1, s2, f, n);
    }
  }

  lemma KnownAfterInsert(s: State, s1: State, s2: State, f: NewFrame, n: nat)
    requires Valid(s) && !Late(s, f) && f.retirePriorTo <= f.seqNo && Cleared(s, s1, f.retirePriorTo)
    requires Inserted(s1.queue, s2.queue, Entry(f.seqNo, f.id, f.token))
    ensures Queued(s2, n) <==> (Queued(s, n) && f.retirePriorTo <= n) || n == f.seqNo
  {
    QueuedEntry(s, n);
    QueuedEntry(s2, n);
    assert Entry(f.seqNo, f.id, f.token) in s2.queue;
  }

  /** The frame brings a new ID and retires the active one. */
  lemma AddSwitchOk(s: State, s1: State, s2: State, s3: State, f: NewFrame)
    requires Valid(s) && !Late(s, f) && s.activeSeq < f.retirePriorTo <= f.seqNo && Cleared(s, s1, f.retirePriorTo)
    requires Inserted(s1.queue, s2.queue, Entry(f.seqNo, f.id, f.token)) && s2 == s1.(queue := s2.queue)
    ensures Switchable(s2)
    ensures SwitchSpec(s2, s3) ==> AddSpec(s, s3, f)
  {
    var e := Entry(f.seqNo, f.id, f.token);
    assert e in s2.queue;
    forall x | x in s2.queue ensures f.retirePriorTo <= x.seqNo {
      assert x == e || x in s1.queue;
    }
    AllAbove(s2, f.retirePriorTo);
    forall n: nat ensures Retired(s2, n) <==> Retired(s1, n) {}
    if SwitchSpec(s2, s3) {
      forall n: nat ensures Known(s3, n) <==> (Known(s, n) || n == f.seqNo) && !RetiredBy(s, f, n) {
        KnownAfterInsert(s, s1, s2, f, n);
      }
      forall x | HasEntry(s2, x) ensures HasEntry(s, x) || x == e {}
    }
  }

  function Numbers(q: seq<Entry>): seq<nat> {
    seq(|q|, i requires 0 <= i < |q| => q[i].seqNo)
  }

  /** Each number of a sorted queue is there once. */
  lemma {:induction false} NumberedOnce(q: seq<Entry>, k: nat, n: nat)
    requires Sorted(q) && k <= |q|
    ensures multiset(Numbers(q[..k]))[n] == if exists i :: 0 <= i < k && q[i].seqNo == n then 1 else 0
    decreases k
  {
    if k == 0 {
      assert Numbers(q[..0]) == [];
    } else {
      NumberedOnce(q, k - 1, n);
      assert Numbers(q[..k]) == Numbers(q[..k - 1]) + [q[k - 1].seqNo];
    }
  }

  lemma ClearedTimes(s: State, s': State, retirePriorTo: nat, k: nat, n: nat)
    requires Sorted(s.queue) && k <= |s.queue| && s'.retireFrames == s.retireFrames + Numbers(s.queue[..k])
    requires forall i :: 0 <= i < k ==> s.queue[i].seqNo < retirePriorTo
    requires k < |s.queue| ==> retirePriorTo <= s.queue[k].seqNo
    ensures Times(s', n) == Times(s, n) + (if Queued(s, n) && n < retirePriorTo then 1 else 0)
  {
    NumberedOnce(s.queue, k, n);
    if Queued(s, n) && n < retirePriorTo {
      var i :| 0 <= i < |s.queue| && s.queue[i].seqNo == n;
      assert i < k;
    }
  }

  lemma ClearedOk(s: State, s': State, retirePriorTo: nat, k: nat)
    requires Valid(s) && k <= |s.queue|
    requires s' == s.(queue := s.queue[k..], retireFrames := s.retireFrames + Numbers(s.queue[..k]),
                      highestRetired := Max(s.highestRetired, retirePriorTo))
    requires forall i :: 0 <= i < k ==> s.queue[i].seqNo < retirePriorTo
    requires k < |s.queue| ==> retirePriorTo <= s.queue[k].seqNo
    ensures Cleared(s, s', retirePriorTo)
  {
    hide Times, Retired, Queued;
    forall n: nat ensures Times(s', n) == Times(s, n) + (if Queued(s, n) && n < retirePriorTo then 1 else 0) {
      ClearedTimes(s, s', retirePriorTo, k, n);
    }
    forall e ensures e in s'.queue <==> e in s.queue && retirePriorTo <= e.seqNo {
      if e in s'.queue {
        var i :| k <= i < |s.queue| && s.queue[i] == e;
        assert s.queue[k].seqNo <= s.queue[i].seqNo;
      }
      if e in s.queue && retirePriorTo <= e.seqNo {
        var i :| 0 <= i < |s.queue| && s.queue[i] == e;
        assert s'.queue[i - k] == e;
      }
    }
    forall n: nat ensures Retired(s', n) <==> Retired(s, n) || (Queued(s, n) && n < retirePriorTo) {
      ClearedRetired(s, s', retirePriorTo, k, n);
    }
  }

  lemma ClearedRetired(s: State, s': State, retirePriorTo: nat, k: nat, n: nat)
    requires Sorted(s.queue) && k <= |s.queue| && s'.retireFrames == s.retireFrames + Numbers(s.queue[..k])
    requires forall i :: 0 <= i < k ==> s.queue[i].seqNo < retirePriorTo
    requires k < |s.queue| ==> retirePriorTo <= s.queue[k].seqNo
    ensures Retired(s', n) <==> Retired(s, n) || (Queued(s, n) && n < retirePriorTo)
  {
    if n in Numbers(s.queue[..k]) {
      var i :| 0 <= i < k && Numbers(s.queue[..k])[i] == n;
      assert s.queue[i].seqNo == n;
    }
    if Queued(s, n) && n < retirePriorTo {
      var i :| 0 <= i < |s.queue| && s.queue[i].seqNo == n;
      assert i < k;
      assert Numbers(s.queue[..k])[i] == n;
    }
  }

  /** The frame brings another ID or token for a number that is queued. */
  ghost predicate Conflict(s: State, f: NewFrame) {
    && !Late(s, f) && f.seqNo != s.activeSeq
    && exists x :: x in s.queue && x.seqNo == f.seqNo && x != Entry(f.seqNo, f.id, f.token)
  }

  ghost predicate GetSpec(s: State, s': State) {
    if ShouldUpdate(s) then SwitchSpec(s, s') else s' == s
  }

  /**
    The ID is changed exactly if the handshake is complete and it is the first one and another is queued, or if it
    was used for as many packets as it may be and at least two others are queued. The lowest queued number is next.
   */
  lemma ChangesExactly(s: State, s': State)
    requires Valid(s) && GetSpec(s, s')
    ensures s'.activeSeq != s.activeSeq <==>
            && s.handshakeComplete
            && (|| (s.activeSeq == 0 && s.queue != [])
                || (|s.queue| >= 2 && s.packetsSinceLastChange >= s.packetsPerConnectionID))
    ensures s'.activeSeq != s.activeSeq ==>
              Queued(s, s'.activeSeq) && forall n: nat :: Queued(s, n) ==> s'.activeSeq <= n
  {
    if ShouldUpdate(s) {
      assert Known(s', s'.activeSeq);
      forall n: nat | Queued(s, n) ensures s'.activeSeq <= n {
        assert Known(s', n);
      }
    }
  }

  lemma AddLateOk(s: State, s': State, f: NewFrame)
    requires Valid(s) && Late(s, f) && s' == s.(retireFrames := s.retireFrames + [f.seqNo])
    ensures AddSpec(s, s', f)
  {
    forall n: nat ensures Retired(s', n) <==> Retired(s, n) || n == f.seqNo {}
    forall n: nat ensures Known(s', n) <==> Known(s, n) {}
    assert !Known(s, f.seqNo);
    assert forall x :: HasEntry(s', x) <==> HasEntry(s, x);
  }

  lemma ClearedFacts(s: State, s1: State, f: NewFrame)
    requires Cleared(s, s1, f.retirePriorTo) && f.retirePriorTo <= f.seqNo
    ensures Sorted(s1.queue) && s1.activeSeq == s.activeSeq && s1.tokens == s.tokens && s1.activeToken == s.activeToken
    ensures forall x :: x in s1.queue && x.seqNo == f.seqNo <==> x in s.queue && x.seqNo == f.seqNo
  {
  }

  lemma SwitchableFacts(s: State)
    requires Switchable(s)
    ensures s.queue != []
  {
  }

  lemma GetSwitchable(s: State)
    requires Valid(s) && s.queue != []
    ensures Switchable(s)
  {
  }

  lemma SameUse(s: State, s': State)
    requires Valid(s) && s'.queue == s.queue && s'.activeSeq == s.activeSeq && s'.highestRetired == s.highestRetired
    requires s'.retireFrames == s.retireFrames && s'.tokens == s.tokens && s'.activeToken == s.activeToken
    ensures Valid(s')
  {
    forall n: nat ensures Retired(s', n) <==> Retired(s, n) {}
  }

  class Manager {
    var queue: seq<Entry>
    var handshakeComplete: bool
    var activeSeq: nat
    var highestRetired: nat
    var activeID: ConnID
    var activeToken: Option<Token>
    var packetsSinceLastChange: nat
    var packetsPerConnectionID: nat
    var retireFrames: seq<nat>
    var tokens: multiset<Token>

    ghost function Contents(): State
      reads this
    {
      State(queue, handshakeComplete, activeSeq, highestRetired, activeID, activeToken, packetsSinceLastChange,
            packetsPerConnectionID, retireFrames, tokens)
    }

    constructor (initialID: ConnID)
      ensures Contents() == State([], false, 0, 0, initialID, None, 0, 0, [], multiset{}) && Valid(Contents())
    {
      queue, handshakeComplete, activeSeq, highestRetired, activeID, activeToken := [], false, 0, 0, initialID, None;
      packetsSinceLastChange, packetsPerConnectionID, retireFrames, tokens := 0, 0, [], multiset{};
    }

    /** Switches to the front of the queue; `change` is the random number of packets until the next change. */
    method UpdateConnectionID(change: nat)
      requires Switchable(Contents()) && queue != []
      requires tokens == (if activeToken.Some? then multiset{activeToken.value} else multiset{})
      modifies this
      ensures SwitchSpec(old(Contents()), Contents()) && packetsPerConnectionID == change
    {
      hide Switchable, SwitchSpec;
      ghost var s0 := Contents();
      retireFrames := retireFrames + [activeSeq];
      highestRetired := Max(highestRetired, activeSeq);
      var front := queue[0];
      queue := queue[1..];
      activeSeq := front.seqNo;
      activeID := front.id;
      packetsSinceLastChange := 0;
      packetsPerConnectionID := change;
      ReplaceToken(front.token);
      SwitchOk(s0, Contents());
    }

    /** Deregisters the reset token of the active ID and registers that of the next one. */
    method ReplaceToken(token: Token)
      requires tokens == (if activeToken.Some? then multiset{activeToken.value} else multiset{})
      modifies this`tokens, this`activeToken
      ensures tokens == multiset{token} && activeToken == Some(token)
    {
      if activeToken.Some? {
        tokens := tokens - multiset{activeToken.value};
      }
      activeToken := Some(token);
      tokens := tokens + multiset{token};
    }

    /** Retires the queued IDs below `retirePriorTo`, if the frame raises that bound. */
    method ClearQueue(retirePriorTo: nat)
      requires Valid(Contents())
      modifies this`queue, this`retireFrames, this`highestRetired
      ensures Cleared(old(Contents()), Contents(), retirePriorTo)
    {
      ghost var s0, k := Contents(), 0;
      if retirePriorTo > highestRetired {
        while |queue| > 0 && queue[0].seqNo < retirePriorTo
          invariant 0 <= k <= |s0.queue| && queue == s0.queue[k..]
          invariant forall i :: 0 <= i < k ==> s0.queue[i].seqNo < retirePriorTo
          invariant retireFrames == s0.retireFrames + Numbers(s0.queue[..k])
        {
          assert s0.queue[..k + 1] == s0.queue[..k] + [queue[0]];
          retireFrames := retireFrames + [queue[0].seqNo];
          queue := queue[1..];
          k := k + 1;
        }
        highestRetired := retirePriorTo;
      }
      ClearedOk(s0, Contents(), retirePriorTo, k);
    }

    /** Puts an ID into the queue at its place; an ID that is there already has to be the same. */
    method AddConnectionID(e: Entry) returns (r: AddResult)
      requires Sorted(queue)
      modifies this`queue
      ensures r.Added? ==> Inserted(old(queue), queue, e)
      ensures !r.Added? ==> queue == old(queue)
      ensures r.ConflictingID? <==> exists x :: x in old(queue) && x.seqNo == e.seqNo && x.id != e.id
      ensures r.ConflictingToken? <==>
              exists x :: x in old(queue) && x.seqNo == e.seqNo && x.id == e.id && x.token != e.token
      ensures !r.ConnectionIDLimitError?
    {
      if |queue| == 0 || queue[|queue| - 1].seqNo < e.seqNo {
        queue := queue + [e];
        return Added;
      }
      var i := 0;
      while i < |queue|
        invariant 0 <= i <= |queue|
        invariant forall k :: 0 <= k < i ==> queue[k].seqNo < e.seqNo
      {
        if queue[i].seqNo == e.seqNo {
          if queue[i].id != e.id {
            return ConflictingID;
          }
          if queue[i].token != e.token {
            return ConflictingToken;
          }
          break;
        }
        if queue[i].seqNo > e.seqNo {
          queue := InsertAt(queue, i, e);
          break;
        }
        i := i + 1;
      }
      return Added;
    }

    /** The method add, without the limit; `change` is the random number for a change of the active ID. */
    method AddFrame(f: NewFrame, change: nat) returns (r: AddResult)
      requires Valid(Contents()) && f.retirePriorTo <= f.seqNo
      modifies this
      ensures r.Added? ==> AddSpec(old(Contents()), Contents(), f)
      ensures !r.ConnectionIDLimitError?
      ensures r.ConflictingID? || r.ConflictingToken? <==> Conflict(old(Contents()), f)
    {
      hide AddSpec, Cleared, Inserted, SwitchSpec, Switchable;
      ghost var s0 := Contents();
      if f.seqNo < activeSeq || f.seqNo < highestRetired {
        retireFrames := retireFrames + [f.seqNo];
        AddLateOk(s0, Contents(), f);
        return Added;
      }
      ClearQueue(f.retirePriorTo);
      ghost var s1 := Contents();
      ClearedFacts(s0, s1, f);
      if f.seqNo == activeSeq {
        AddActiveOk(s0, s1, f);
        return Added;
      }
      r := AddConnectionID(Entry(f.seqNo, f.id, f.token));
      if !r.Added? {
        return;
      }
      ghost var s2 := Contents();
      if activeSeq < f.retirePriorTo {
        AddSwitchOk(s0, s1, s2, s2, f);
        SwitchableFacts(s2);
        UpdateConnectionID(change);
        AddSwitchOk(s0, s1, s2, Contents(), f);
      } else {
        AddQueuedOk(s0, s1, s2, f);
      }
    }

    /** A NEW_CONNECTION_ID frame. */
    method Add(f: NewFrame, change: nat) returns (r: AddResult)
      requires Valid(Contents()) && f.retirePriorTo <= f.seqNo
      modifies this
      ensures r.Added? || r.ConnectionIDLimitError? ==> AddSpec(old(Contents()), Contents(), f)
      ensures r.Added? ==> |queue| < MAX_ACTIVE_CONNECTION_IDS
      ensures r.ConnectionIDLimitError? ==> |queue| >= MAX_ACTIVE_CONNECTION_IDS
      ensures r.ConflictingID? || r.ConflictingToken? <==> Conflict(old(Contents()), f)
    {
      hide AddSpec;
      r := AddFrame(f, change);
      if r.Added? && |queue| >= MAX_ACTIVE_CONNECTION_IDS {
        r := ConnectionIDLimitError;
      }
    }

    /** The ID for the next packet; it may be time to change it. */
    method Get(change: nat) returns (id: ConnID)
      requires Valid(Contents())
      modifies this
      ensures GetSpec(old(Contents()), Contents()) && id == activeID
      ensures ShouldUpdate(old(Contents())) ==> packetsPerConnectionID == change
    {
      if ShouldUpdateConnID() {
        assert Switchable(Contents()) by { GetSwitchable(Contents()); }
        UpdateConnectionID(change);
      }
      return activeID;
    }

    function ShouldUpdateConnID(): (b: bool)
      reads this
      ensures b ==> |queue| > 0
    {
      if !handshakeComplete then false
      else if |queue| > 0 && activeSeq == 0 then true
      else 2 * |queue| >= MAX_ACTIVE_CONNECTION_IDS && packetsSinceLastChange >= packetsPerConnectionID
    }

    /**
      The reset token from the transport parameters, for the first ID; with another ID it panics. A second
      token is registered beside the first one, so that two are registered: exactly then validity is lost.
     */
    method SetStatelessResetToken(token: Token) returns (panicked: bool)
      requires Valid(Contents())
      modifies this`activeToken, this`tokens
      ensures panicked <==> activeSeq != 0
      ensures if panicked then Contents() == old(Contents())
              else activeToken == Some(token) && tokens == old(tokens) + multiset{token}
      ensures Valid(Contents()) <==> panicked || old(activeToken).None?
    {
      if activeSeq != 0 {
        return true;
      }
      activeToken := Some(token);
      tokens := tokens + multiset{token};
      assert |old(tokens)| == if old(activeToken).Some? then 1 else 0;
      assert old(activeToken).None? ==> tokens == multiset{token};
      forall n: nat ensures Retired(Contents(), n) <==> old(Retired(Contents(), n)) {}
      return false;
    }

    method SentPacket()
      requires Valid(Contents())
      modifies this`packetsSinceLastChange
      ensures Valid(Contents()) && packetsSinceLastChange == old(packetsSinceLastChange) + 1
    {
      packetsSinceLastChange := packetsSinceLastChange + 1;
      SameUse(old(Contents()), Contents());
    }

    method SetHandshakeComplete()
      requires Valid(Contents())
      modifies this`handshakeComplete
      ensures Valid(Contents()) && handshakeComplete
    {
      handshakeComplete := true;
      SameUse(old(Contents()), Contents());
    }
  }

  // ---------------------------------------------------------------------------------------------
  // Runs, with any peer

  datatype Event = AddEvent(frame: NewFrame) | GetEvent | OtherEvent

  ghost predicate Step(s: State, e: Event, s': State) {
    match e
    case AddEvent(f) => f.retirePriorTo <= f.seqNo && AddSpec(s, s', f)
    case GetEvent => GetSpec(s, s')
    case OtherEvent =>
      Valid(s') && s' == s.(handshakeComplete := s'.handshakeComplete,
                            packetsSinceLastChange := s'.packetsSinceLastChange,
                            activeToken := s'.activeToken, tokens := s'.tokens)
  }

  /** A run from state to state; it need not start at the beginning. */
  ghost predicate IsRun(states: seq<State>, events: seq<Event>) {
    && |states| == |events| + 1
    && Valid(states[0])
    && forall i :: 0 <= i < |events| ==> Step(states[i], events[i], states[i + 1])
  }

  lemma StepKeeps(s: State, e: Event, s': State, n: nat)
    requires Valid(s) && Step(s, e, s')
    ensures Valid(s')
    ensures Retired(s, n) ==> Retired(s', n)
    ensures Known(s, n) ==> Known(s', n) || Retired(s', n)
    ensures e.AddEvent? ==> Known(s', e.frame.seqNo) || Retired(s', e.frame.seqNo)
    ensures !(Known(s', n) && Retired(s', n))
  {
    match e {
      case AddEvent(f) => assert Retired(s', f.seqNo) <==> Retired(s, f.seqNo) || RetiredBy(s, f, f.seqNo);
      case GetEvent =>
      case OtherEvent => assert Known(s', n) <==> Known(s, n);
    }
  }

  lemma {:induction false} RunKeeps(states: seq<State>, events: seq<Event>, n: nat)
    requires IsRun(states, events)
    ensures Valid(states[|events|])
    ensures Retired(states[0], n) ==> Retired(states[|events|], n)
    ensures Known(states[0], n) ==> Known(states[|events|], n) || Retired(states[|events|], n)
    ensures !(Known(states[|events|], n) && Retired(states[|events|], n))
    decreases |events|
  {
    hide Valid, Known, Retired, Step;
    if events == [] {
      NotBoth(states[0], n);
    } else {
      var k := |events| - 1;
      RunKeeps(states[..|events|], events[..k], n);
      assert states[..|events|][k] == states[k];
      StepKeeps(states[k], events[k], states[k + 1], n);
    }
  }

  lemma NotBoth(s: State, n: nat)
    requires Valid(s)
    ensures !(Known(s, n) && Retired(s, n))
  {
  }

  /** A sequence number once retired is never in use again, whatever frames the peer sends. */
  lemma NeverReused(states: seq<State>, events: seq<Event>, i: nat, n: nat)
    requires IsRun(states, events) && i <= |events| && Retired(states[i], n)
    ensures Retired(states[|events|], n) && !Known(states[|events|], n)
  {
    hide Valid, Known, Retired, Step;
    SuffixRun(states, events, i);
    RunKeeps(states[i..], events[i..], n);
  }

  /** Whatever sequence number the peer has issued is in use or retired, and not both. */
  lemma AllAccountedFor(states: seq<State>, events: seq<Event>, i: nat)
    requires IsRun(states, events) && i < |events| && events[i].AddEvent?
    ensures var n := events[i].frame.seqNo;
            Known(states[|events|], n) <==> !Retired(states[|events|], n)
  {
    hide Valid, Known, Retired, Step;
    var n := events[i].frame.seqNo;
    SuffixRun(states, events, i);
    SuffixRun(states, events, i + 1);
    StepKeeps(states[i], events[i], states[i + 1], n);
    RunKeeps(states[i + 1..], events[i + 1..], n);
  }

  lemma SuffixRun(states: seq<State>, events: seq<Event>, i: nat)
    requires IsRun(states, events) && i <= |events|
    ensures IsRun(states[i..], events[i..]) && Valid(states[i])
    ensures states[i..][0] == states[i] && states[i..][|events[i..]|] == states[|events|]
  {
    hide Valid, Known, Retired, Step;
    var events', states' := events[..i], states[..i + 1];
    RunKeeps(states', events', 0);
    assert states'[|events'|] == states[i];
    forall k | 0 <= k < |events[i..]| ensures Step(states[i..][k], events[i..][k], states[i..][k + 1]) {
      assert events[i..][k] == events[i + k];
    }
  }

  // ---------------------------------------------------------------------------------------------
  // Connection IDs rather than their numbers

  ghost predicate IsStart(s: State) {
    s.queue == [] && s.activeSeq == 0 && s.retireFrames == []
  }

  /** The peer has given the ID this number: in a frame, or as the first one. */
  ghost predicate Announced(first: State, events: seq<Event>, n: nat, id: ConnID) {
    || (n == first.activeSeq && id == first.activeID)
    || exists i :: 0 <= i < |events| && events[i].AddEvent? && events[i].frame.seqNo == n && events[i].frame.id == id
  }

  lemma AnnouncedMore(first: State, events: seq<Event>, k: nat, n: nat, id: ConnID)
    requires k <= |events| && Announced(first, events[..k], n, id)
    ensures Announced(first, events, n, id)
  {
    if !(n == first.activeSeq && id == first.activeID) {
      var i :| 0 <= i < k && events[..k][i].AddEvent? && events[..k][i].frame.seqNo == n
          && events[..k][i].frame.id == id;
      assert events[i] == events[..k][i];
    }
  }

  /** Everything in use was announced. */
  ghost predicate AllAnnounced(first: State, events: seq<Event>, s: State) {
    && Announced(first, events, s.activeSeq, s.activeID)
    && forall x :: HasEntry(s, x) ==> Announced(first, events, x.seqNo, x.id)
  }

  lemma {:induction false} UsedIsAnnounced(states: seq<State>, events: seq<Event>)
    requires IsRun(states, events) && IsStart(states[0])
    ensures AllAnnounced(states[0], events, states[|events|])
    decreases |events|
  {
    hide Valid, Known, Retired, Announced;
    if events == [] {
      FirstAnnounced(states[0], events);
    } else {
      var k := |events| - 1;
      UsedIsAnnounced(states[..|events|], events[..k]);
      assert states[..|events|][k] == states[k];
      assert Step(states[k], events[k], states[k + 1]);
      StepAnnounces(states[0], events, k, states[k], states[k + 1]);
    }
  }

  lemma FirstAnnounced(first: State, events: seq<Event>)
    ensures Announced(first, events, first.activeSeq, first.activeID)
  {
  }

  lemma StepAnnounces(first: State, events: seq<Event>, k: nat, s: State, s': State)
    requires k + 1 == |events| && Step(s, events[k], s') && AllAnnounced(first, events[..k], s)
    ensures AllAnnounced(first, events, s')
  {
    hide Valid, Known, Retired, Announced;
    forall x | HasEntry(s, x) ensures Announced(first, events, x.seqNo, x.id) {
      AnnouncedMore(first, events, k, x.seqNo, x.id);
    }
    AnnouncedMore(first, events, k, s.activeSeq, s.activeID);
    if events[k].AddEvent? {
      LastAnnounced(first, events, k);
    }
  }

  lemma LastAnnounced(first: State, events: seq<Event>, k: nat)
    requires k < |events| && events[k].AddEvent?
    ensures Announced(first, events, events[k].frame.seqNo, events[k].frame.id)
  {
  }

  lemma AnnouncedIsKnown(states: seq<State>, events: seq<Event>, n: nat, id: ConnID)
    requires IsRun(states, events) && IsStart(states[0]) && Announced(states[0], events, n, id)
    ensures Known(states[|events|], n) || Retired(states[|events|], n)
  {
    if n == states[0].activeSeq && id == states[0].activeID {
      hide Valid, Step, Retired;
      RunKeeps(states, events, n);
    } else {
      hide Valid, Step, Retired, Known;
      var i :| 0 <= i < |events| && events[i].AddEvent? && events[i].frame.seqNo == n && events[i].frame.id == id;
      AllAccountedFor(states, events, i);
    }
  }

  /** The ID in use is one that was retired, under another number. */
  ghost predicate UsesRetiredID(states: seq<State>, events: seq<Event>)
    requires |states| == |events| + 1
  {
    exists n: nat :: Retired(states[|events|], n) && Announced(states[0], events, n, states[|events|].activeID)
  }

  /** A retired ID is in use exactly if the peer has given the active ID a lower number as well. */
  lemma RetiredIDExactly(states: seq<State>, events: seq<Event>)
    requires IsRun(states, events) && IsStart(states[0])
    ensures var s := states[|events|];
            UsesRetiredID(states, events) <==>
            exists n: nat :: n < s.activeSeq && Announced(states[0], events, n, s.activeID)
  {
    hide Announced, Step;
    RunKeeps(states, events, 0);
    var s := states[|events|];
    forall n: nat | n < s.activeSeq && Announced(states[0], events, n, s.activeID) ensures Retired(s, n) {
      AnnouncedIsKnown(states, events, n, s.activeID);
    }
  }

  /** So with a peer that gives different numbers different IDs, an ID that was retired is never used again. */
  lemma RetiredIDNotUsed(states: seq<State>, events: seq<Event>)
    requires IsRun(states, events) && IsStart(states[0])
    requires forall n: nat, m: nat, id ::
               Announced(states[0], events, n, id) && Announced(states[0], events, m, id) ==> n == m
    ensures !UsesRetiredID(states, events)
  {
    hide Announced, Step, Valid, Retired;
    RetiredIDExactly(states, events);
    UsedIsAnnounced(states, events);
  }

  const FIRST_ID := State([], false, 0, 0, 7, None, 0, 0, [], multiset{})
  const SECOND_ID := State([], false, 1, 1, 8, Some(0), 0, 0, [0], multiset{0})
  const FIRST_ID_AGAIN := State([], false, 2, 2, 7, Some(1), 0, 0, [0, 1], multiset{1})

  /** With any other peer it is: the first ID comes back under number 2. */
  lemma RetiredIDUsed() returns (states: seq<State>, events: seq<Event>)
    ensures IsRun(states, events) && IsStart(states[0]) && UsesRetiredID(states, events)
  {
    states := [FIRST_ID, SECOND_ID, FIRST_ID_AGAIN];
    events := [AddEvent(NewFrame(1, 1, 8, 0)), AddEvent(NewFrame(2, 2, 7, 1))];
    SwitchedTo(FIRST_ID, SECOND_ID, events[0].frame);
    SwitchedTo(SECOND_ID, FIRST_ID_AGAIN, events[1].frame);
    FirstAnnounced(FIRST_ID, events);
    assert Retired(FIRST_ID_AGAIN, 0) && Announced(states[0], events, 0, states[|events|].activeID);
  }

  /** A frame that retires the active ID, with nothing queued. */
  lemma SwitchedTo(s: State, s': State, f: NewFrame)
    requires Valid(s) && s.queue == [] && s.activeSeq < f.retirePriorTo == f.seqNo
    requires s' == s.(activeSeq := f.seqNo, highestRetired := f.seqNo, activeID := f.id, activeToken := Some(f.token),
                      retireFrames := s.retireFrames + [s.activeSeq], tokens := multiset{f.token})
    ensures AddSpec(s, s', f)
  {
    forall n: nat ensures Retired(s', n) <==> Retired(s, n) || n == s.activeSeq {}
    var e := Entry(f.seqNo, f.id, f.token);
    assert e == Entry(s'.activeSeq, s'.activeID, e.token) && s'.activeToken == Some(e.token);
  }

  /** Two calls register two tokens for the first ID. */
  method TwoTokens() returns (tokens: multiset<Token>)
    ensures |tokens| == 2
  {
    var m := new Manager(0);
    var panicked := m.SetStatelessResetToken(1);
    panicked := m.SetStatelessResetToken(2);
    tokens := m.tokens;
  }
}
