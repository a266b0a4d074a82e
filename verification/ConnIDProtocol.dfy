/**
  Two endpoints: one issues connection IDs, the other uses them. NEW_CONNECTION_ID frames and packets
  with RETIRE_CONNECTION_ID frames may be lost, repeated and delivered in any order.
 */
module ConnIDProtocol {
  import opened Common
  import opened ConnIDGenerator
  import M = ConnIDManager

  /** A packet with a RETIRE_CONNECTION_ID frame, and the ID it was sent to. */
  datatype Packet = Packet(seqNo: nat, dest: M.ConnID)

  /** `idOf` records every ID ever issued, `packets` every packet ever sent with a RETIRE_CONNECTION_ID frame. */
  datatype World = World(issuer: Issuer, user: M.State, packets: set<Packet>, idOf: map<nat, M.ConnID>)

  datatype Event =
    | SetMax(limit: nat, ids: seq<M.ConnID>)
    | DeliverNew(frame: M.NewFrame)
    | Get
    | Other
    | SendRetire(seqNo: nat)
    | DeliverRetire(packet: Packet, id: M.ConnID)

  ghost predicate Fresh(w: World, id: M.ConnID) {
    forall n: nat :: n in w.idOf ==> w.idOf[n] != id
  }

  function Record(w: World, id: M.ConnID): map<nat, M.ConnID> {
    w.idOf[w.issuer.highestSeq + 1 := id]
  }

  /** One more ID, as part of a step. */
  function IssueOne(w: World, id: M.ConnID, tokenOf: M.ConnID -> M.Token): World {
    w.(issuer := Issue(w.issuer, id, tokenOf), idOf := Record(w, id))
  }

  function IssueMany(w: World, ids: seq<M.ConnID>, tokenOf: M.ConnID -> M.Token): World
    decreases |ids|
  {
    if ids == [] then w else IssueOne(IssueMany(w, ids[..|ids| - 1], tokenOf), ids[|ids| - 1], tokenOf)
  }

  ghost predicate AllFresh(w: World, ids: seq<M.ConnID>, tokenOf: M.ConnID -> M.Token) {
    forall i :: 0 <= i < |ids| ==> Fresh(IssueMany(w, ids[..i], tokenOf), ids[i])
  }

  /**
    The user announces the limit MAX_ACTIVE_CONNECTION_IDS. A packet that retires an ID is sent to the
    ID that is active then; the frame may have been queued long before, or be sent once more.
   */
  ghost predicate Step(w: World, e: Event, w': World, tokenOf: M.ConnID -> M.Token) {
    match e
    case SetMax(limit, ids) =>
      && limit <= M.MAX_ACTIVE_CONNECTION_IDS && |ids| <= Missing(w.issuer, limit) && AllFresh(w, ids, tokenOf)
      && w' == IssueMany(w, ids, tokenOf)
    case DeliverNew(f) => f in w.issuer.frames && M.AddSpec(w.user, w'.user, f) && w' == w.(user := w'.user)
    case Get => M.GetSpec(w.user, w'.user) && w' == w.(user := w'.user)
    case Other => M.Step(w.user, M.OtherEvent, w'.user) && w' == w.(user := w'.user)
    case SendRetire(n) => M.Retired(w.user, n) && w' == w.(packets := w.packets + {Packet(n, w.user.activeID)})
    case DeliverRetire(p, id) =>
      && p in w.packets && RetireResultOf(w.issuer, p.seqNo, p.dest).RetireOk? && Fresh(w, id)
      && w' == w.(issuer := AfterRetire(w.issuer, p.seqNo, id, tokenOf),
                  idOf := if p.seqNo in w.issuer.active && p.seqNo != 0 then Record(w, id) else w.idOf)
  }

  ghost predicate Initial(w: World) {
    && |w.idOf| == 1 && 0 in w.idOf
    && w.issuer == Issuer(0, map[0 := w.idOf[0]], [])
    && w.user == M.State([], false, 0, 0, w.idOf[0], None, 0, 0, [], multiset{})
    && w.packets == {}
    && w.idOf == map[0 := w.idOf[0]]
  }

  ghost predicate IsRun(worlds: seq<World>, events: seq<Event>, tokenOf: M.ConnID -> M.Token) {
    && |worlds| == |events| + 1
    && Initial(worlds[0])
    && forall i :: 0 <= i < |events| ==> Step(worlds[i], events[i], worlds[i + 1], tokenOf)
  }

  // ---------------------------------------------------------------------------------------------
  // The invariant

  ghost predicate Injective(m: map<nat, M.ConnID>) {
    forall a, b :: a in m && b in m && m[a] == m[b] ==> a == b
  }

  /** The issuer's books: at most MAX_ACTIVE_CONNECTION_IDS IDs are active, all of them distinct. */
  ghost predicate IssuerOk(w: World, tokenOf: M.ConnID -> M.Token) {
    && (forall n: nat :: n in w.idOf <==> n <= w.issuer.highestSeq)
    && Injective(w.idOf)
    && (forall n: nat :: n in w.issuer.active ==> n in w.idOf && w.issuer.active[n] == w.idOf[n])
    && |w.issuer.active| <= M.MAX_ACTIVE_CONNECTION_IDS
    && (forall f :: f in w.issuer.frames ==> FrameOk(w, f, tokenOf))
  }

  ghost predicate FrameOk(w: World, f: M.NewFrame, tokenOf: M.ConnID -> M.Token) {
    f.seqNo in w.idOf && f == M.NewFrame(f.seqNo, 0, w.idOf[f.seqNo], tokenOf(f.id))
  }

  ghost predicate EntryOk(w: World, e: M.Entry, tokenOf: M.ConnID -> M.Token) {
    e.seqNo in w.idOf && e == M.Entry(e.seqNo, w.idOf[e.seqNo], tokenOf(e.id))
  }

  ghost predicate UserOk(w: World, tokenOf: M.ConnID -> M.Token) {
    && M.Valid(w.user)
    && (forall e :: M.HasEntry(w.user, e) ==> EntryOk(w, e, tokenOf))
    && w.user.activeSeq in w.idOf && w.user.activeID == w.idOf[w.user.activeSeq]
  }

  /** What the issuer has deleted was retired by the user; packets go to an ID above the one they retire. */
  ghost predicate InStep(w: World) {
    && (forall n: nat :: n in w.idOf && n !in w.issuer.active ==> M.Retired(w.user, n))
    && (forall p :: p in w.packets ==> PacketOk(w, p))
  }

  ghost predicate PacketOk(w: World, p: Packet) {
    && M.Retired(w.user, p.seqNo) && p.seqNo in w.idOf
    && exists t: nat :: t > p.seqNo && t in w.idOf && w.idOf[t] == p.dest
  }

  ghost predicate Inv(w: World, tokenOf: M.ConnID -> M.Token) {
    IssuerOk(w, tokenOf) && UserOk(w, tokenOf) && InStep(w)
  }

  /** Recording one more ID changes nothing for the IDs recorded before. */
  lemma IssueKeepsInv(w: World, id: M.ConnID, tokenOf: M.ConnID -> M.Token)
    requires Inv(w, tokenOf) && Fresh(w, id) && |w.issuer.active| < M.MAX_ACTIVE_CONNECTION_IDS
    ensures Inv(IssueOne(w, id, tokenOf), tokenOf)
    ensures |IssueOne(w, id, tokenOf).issuer.active| == |w.issuer.active| + 1
  {
    hide UserOk, InStep, Injective;
    var w' := IssueOne(w, id, tokenOf);
    RecordKeepsRest(w, w', id, tokenOf);
    InjectiveAdd(w.idOf, w.issuer.highestSeq + 1, id);
    MapAdd(w.issuer.active, w.issuer.highestSeq + 1, id);
    forall f | f in w'.issuer.frames ensures FrameOk(w', f, tokenOf) {
      assert f == M.NewFrame(w.issuer.highestSeq + 1, 0, id, tokenOf(id)) || FrameOk(w, f, tokenOf);
    }
  }

  lemma InjectiveAdd(m: map<nat, M.ConnID>, k: nat, id: M.ConnID)
    requires Injective(m) && k !in m && (forall n: nat :: n in m ==> m[n] != id)
    ensures Injective(m[k := id])
  {
  }

  lemma MapAdd(m: map<nat, M.ConnID>, k: nat, id: M.ConnID)
    requires k !in m
    ensures |m[k := id]| == |m| + 1
  {
  }

  lemma RecordKeepsRest(w: World, w': World, id: M.ConnID, tokenOf: M.ConnID -> M.Token)
    requires Inv(w, tokenOf) && w' == IssueOne(w, id, tokenOf)
    ensures UserOk(w', tokenOf) && InStep(w')
  {
    hide M.Valid, M.Retired;
    assert forall n: nat :: n in w.idOf ==> n in w'.idOf && w'.idOf[n] == w.idOf[n];
    forall e | M.HasEntry(w'.user, e) ensures EntryOk(w', e, tokenOf) {
      assert EntryOk(w, e, tokenOf);
    }
    forall p | p in w'.packets ensures PacketOk(w', p) {
      assert PacketOk(w, p);
    }
  }

  lemma {:induction false} IssueManyKeepsInv(w: World, ids: seq<M.ConnID>, tokenOf: M.ConnID -> M.Token)
    requires Inv(w, tokenOf) && |w.issuer.active| + |ids| <= M.MAX_ACTIVE_CONNECTION_IDS && AllFresh(w, ids, tokenOf)
    ensures Inv(IssueMany(w, ids, tokenOf), tokenOf)
    ensures |IssueMany(w, ids, tokenOf).issuer.active| == |w.issuer.active| + |ids|
    decreases |ids|
  {
    hide Inv, Fresh;
    if ids != [] {
      var n := |ids| - 1;
      forall i | 0 <= i < n ensures Fresh(IssueMany(w, ids[..n][..i], tokenOf), ids[..n][i]) {
        assert ids[..n][..i] == ids[..i];
      }
      IssueManyKeepsInv(w, ids[..n], tokenOf);
      IssueKeepsInv(IssueMany(w, ids[..n], tokenOf), ids[n], tokenOf);
    }
  }

  /** A step of the user keeps the invariant if it only retires, and takes its IDs from the issuer's. */
  lemma UserMoves(w: World, w': World, tokenOf: M.ConnID -> M.Token)
    requires Inv(w, tokenOf) && w' == w.(user := w'.user) && M.Valid(w'.user)
    requires forall n: nat :: M.Retired(w.user, n) ==> M.Retired(w'.user, n)
    requires forall e :: M.HasEntry(w'.user, e) ==> EntryOk(w, e, tokenOf)
    requires w'.user.activeSeq in w.idOf && w'.user.activeID == w.idOf[w'.user.activeSeq]
    ensures Inv(w', tokenOf)
  {
    hide M.Valid, M.Retired;
    forall e | M.HasEntry(w'.user, e) ensures EntryOk(w', e, tokenOf) {}
    forall f | f in w'.issuer.frames ensures FrameOk(w', f, tokenOf) {
      assert FrameOk(w, f, tokenOf);
    }
    forall p | p in w'.packets ensures PacketOk(w', p) {
      assert PacketOk(w, p);
    }
  }

  lemma DeliverNewKeepsInv(w: World, f: M.NewFrame, w': World, tokenOf: M.ConnID -> M.Token)
    requires Inv(w, tokenOf) && Step(w, DeliverNew(f), w', tokenOf)
    ensures Inv(w', tokenOf)
  {
    hide M.Valid, M.RetiredBy, InStep;
    assert FrameOk(w, f, tokenOf);
    var e := M.Entry(f.seqNo, f.id, f.token);
    assert EntryOk(w, e, tokenOf);
    UserMoves(w, w', tokenOf);
  }

  lemma GetKeepsInv(w: World, w': World, tokenOf: M.ConnID -> M.Token)
    requires Inv(w, tokenOf) && Step(w, Get, w', tokenOf)
    ensures Inv(w', tokenOf)
  {
    hide M.Valid, InStep;
    UserMoves(w, w', tokenOf);
  }

  lemma SendRetireKeepsInv(w: World, n: nat, w': World, tokenOf: M.ConnID -> M.Token)
    requires Inv(w, tokenOf) && Step(w, SendRetire(n), w', tokenOf)
    ensures Inv(w', tokenOf)
  {
    assert n < w.user.activeSeq;
    assert PacketOk(w', Packet(n, w.user.activeID));
    forall p | p in w.packets ensures PacketOk(w', p) {
      assert PacketOk(w, p);
    }
    forall f | f in w'.issuer.frames ensures FrameOk(w', f, tokenOf) {
      assert FrameOk(w, f, tokenOf);
    }
    forall e | M.HasEntry(w'.user, e) ensures EntryOk(w', e, tokenOf) {
      assert EntryOk(w, e, tokenOf);
    }
  }

  lemma DeliverRetireKeepsInv(w: World, p: Packet, id: M.ConnID, w': World, tokenOf: M.ConnID -> M.Token)
    requires Inv(w, tokenOf) && p in w.packets && Fresh(w, id)
    requires w' == w.(issuer := AfterRetire(w.issuer, p.seqNo, id, tokenOf),
                      idOf := if p.seqNo in w.issuer.active && p.seqNo != 0 then Record(w, id) else w.idOf)
    ensures Inv(w', tokenOf)
  {
    hide Inv, Fresh, Issue;
    PacketRetires(w, p, tokenOf);
    if p.seqNo in w.issuer.active {
      var mid := w.(issuer := w.issuer.(active := w.issuer.active - {p.seqNo}));
      CardRemove(w.issuer.active, p.seqNo);
      ForgetKeepsInv(w, mid, p.seqNo, tokenOf);
      if p.seqNo != 0 {
        assert Fresh(mid, id) by { SameIds(w, mid, id); }
        IssueKeepsInv(mid, id, tokenOf);
        assert w' == IssueOne(mid, id, tokenOf);
      } else {
        assert w' == mid;
      }
    } else {
      assert w' == w;
    }
  }

  lemma SameIds(w: World, w': World, id: M.ConnID)
    requires Fresh(w, id) && w'.idOf == w.idOf
    ensures Fresh(w', id)
  {
  }

  lemma PacketRetires(w: World, p: Packet, tokenOf: M.ConnID -> M.Token)
    requires Inv(w, tokenOf) && p in w.packets
    ensures M.Retired(w.user, p.seqNo) && |w.issuer.active| <= M.MAX_ACTIVE_CONNECTION_IDS
  {
    assert PacketOk(w, p);
  }

  /** The issuer may forget an ID that the user has retired. */
  lemma ForgetKeepsInv(w: World, w': World, n: nat, tokenOf: M.ConnID -> M.Token)
    requires Inv(w, tokenOf) && M.Retired(w.user, n)
    requires w' == w.(issuer := w.issuer.(active := w.issuer.active - {n}))
    requires |w'.issuer.active| <= |w.issuer.active|
    ensures Inv(w', tokenOf)
  {
    hide M.Valid, M.Retired, M.HasEntry, Injective;
    forall f | f in w'.issuer.frames ensures FrameOk(w', f, tokenOf) {
      assert FrameOk(w, f, tokenOf);
    }
    forall e | M.HasEntry(w'.user, e) ensures EntryOk(w', e, tokenOf) {
      assert EntryOk(w, e, tokenOf);
    }
    forall q | q in w'.packets ensures PacketOk(w', q) {
      assert PacketOk(w, q);
    }
  }

  lemma StepKeepsInv(w: World, e: Event, w': World, tokenOf: M.ConnID -> M.Token)
    requires Inv(w, tokenOf) && Step(w, e, w', tokenOf)
    ensures Inv(w', tokenOf)
  {
    match e {
      case SetMax(limit, ids) => IssueManyKeepsInv(w, ids, tokenOf);
      case DeliverNew(f) => DeliverNewKeepsInv(w, f, w', tokenOf);
      case Get => GetKeepsInv(w, w', tokenOf);
      case Other =>
        forall n: nat ensures M.Retired(w'.user, n) <==> M.Retired(w.user, n) {}
        forall x ensures M.HasEntry(w'.user, x) <==> M.HasEntry(w.user, x) {}
        UserMoves(w, w', tokenOf);
      case SendRetire(n) => SendRetireKeepsInv(w, n, w', tokenOf);
      case DeliverRetire(p, id) => DeliverRetireKeepsInv(w, p, id, w', tokenOf);
    }
  }

  lemma {:induction false} RunKeepsInv(worlds: seq<World>, events: seq<Event>, tokenOf: M.ConnID -> M.Token)
    requires IsRun(worlds, events, tokenOf)
    ensures Inv(worlds[|events|], tokenOf)
    decreases |events|
  {
    hide Step;
    if events == [] {
    } else {
      hide Inv, Initial;
      var n := |events| - 1;
      RunKeepsInv(worlds[..|events|], events[..n], tokenOf);
      assert worlds[..|events|][n] == worlds[n];
      StepKeepsInv(worlds[n], events[n], worlds[n + 1], tokenOf);
    }
  }

  // ---------------------------------------------------------------------------------------------
  // What the two endpoints promise together

  /** In every run, the IDs in use are active at the issuer, and the two agree on what they are. */
  lemma UsedIsActive(worlds: seq<World>, events: seq<Event>, tokenOf: M.ConnID -> M.Token, n: nat)
    requires IsRun(worlds, events, tokenOf) && M.Known(worlds[|events|].user, n)
    ensures var w := worlds[|events|];
            && n in w.issuer.active
            && (n == w.user.activeSeq ==> w.issuer.active[n] == w.user.activeID)
            && (forall e :: e in w.user.queue && e.seqNo == n ==>
                  w.issuer.active[n] == e.id && e.token == tokenOf(e.id))
  {
    RunKeepsInv(worlds, events, tokenOf);
    KnownIsActive(worlds[|events|], n, tokenOf);
  }

  lemma KnownIsActive(w: World, n: nat, tokenOf: M.ConnID -> M.Token)
    requires Inv(w, tokenOf) && M.Known(w.user, n)
    ensures n in w.issuer.active && n in w.idOf && w.issuer.active[n] == w.idOf[n]
    ensures forall e :: e in w.user.queue && e.seqNo == n ==> w.idOf[n] == e.id && e.token == tokenOf(e.id)
  {
    M.NotBoth(w.user, n);
    if n != w.user.activeSeq {
      var i :| 0 <= i < |w.user.queue| && w.user.queue[i].seqNo == n;
      assert M.HasEntry(w.user, w.user.queue[i]);
      assert EntryOk(w, w.user.queue[i], tokenOf);
    }
    forall e | e in w.user.queue && e.seqNo == n ensures w.idOf[n] == e.id && e.token == tokenOf(e.id) {
      assert M.HasEntry(w.user, e);
      assert EntryOk(w, e, tokenOf);
    }
  }

  /** Numbers in use, as a set. */
  ghost function QueuedNumbers(q: seq<M.Entry>): set<nat> {
    set i | 0 <= i < |q| :: q[i].seqNo
  }

  lemma {:induction false} QueueSize(q: seq<M.Entry>)
    requires M.Sorted(q)
    ensures |QueuedNumbers(q)| == |q|
  {
    hide QueuedNumbers;
    if q == [] {
      NothingQueued();
    } else {
      var short := q[..|q| - 1];
      QueueSize(short);
      QueuedAdd(short, q[|q| - 1]);
      LastIsNew(q);
      assert q == short + [q[|q| - 1]];
    }
  }

  lemma NothingQueued()
    ensures QueuedNumbers([]) == {}
  {
  }

  lemma LastIsNew(q: seq<M.Entry>)
    requires M.Sorted(q) && q != []
    ensures q[|q| - 1].seqNo !in QueuedNumbers(q[..|q| - 1])
  {
  }

  lemma QueuedAdd(q: seq<M.Entry>, e: M.Entry)
    ensures QueuedNumbers(q + [e]) == QueuedNumbers(q) + {e.seqNo}
  {
    var q' := q + [e];
    assert q'[|q|] == e;
    forall n: nat | n in QueuedNumbers(q) ensures n in QueuedNumbers(q') {
      var i :| 0 <= i < |q| && q[i].seqNo == n;
      assert q'[i].seqNo == n;
    }
  }

  lemma SubsetSize(a: set<nat>, b: set<nat>)
    requires a <= b
    ensures |a| <= |b|
  {
    assert b == a + (b - a);
  }

  lemma QueueFits(w: World, tokenOf: M.ConnID -> M.Token)
    requires Inv(w, tokenOf)
    ensures |w.user.queue| < M.MAX_ACTIVE_CONNECTION_IDS
  {
    var used := QueuedNumbers(w.user.queue) + {w.user.activeSeq};
    forall n: nat | n in used ensures n in w.issuer.active.Keys {
      assert M.Known(w.user, n);
      KnownIsActive(w, n, tokenOf);
    }
    QueueSize(w.user.queue);
    assert w.user.activeSeq !in QueuedNumbers(w.user.queue);
    SubsetSize(used, w.issuer.active.Keys);
  }

  /**
    In every run no frame and no packet that arrives causes an error: not the connection ID limit, not a
    conflict between IDs, and neither of the two errors on retirement.
   */
  lemma NoErrors(worlds: seq<World>, events: seq<Event>, tokenOf: M.ConnID -> M.Token)
    requires IsRun(worlds, events, tokenOf)
    ensures var w := worlds[|events|];
            && |w.user.queue| < M.MAX_ACTIVE_CONNECTION_IDS
            && (forall f :: f in w.issuer.frames ==> f.retirePriorTo <= f.seqNo && !M.Conflict(w.user, f))
            && (forall p :: p in w.packets ==> RetireResultOf(w.issuer, p.seqNo, p.dest).RetireOk?)
  {
    RunKeepsInv(worlds, events, tokenOf);
    var w := worlds[|events|];
    QueueFits(w, tokenOf);
    forall f | f in w.issuer.frames ensures f.retirePriorTo <= f.seqNo && !M.Conflict(w.user, f) {
      NoConflict(w, f, tokenOf);
    }
    forall p | p in w.packets ensures RetireResultOf(w.issuer, p.seqNo, p.dest).RetireOk? {
      NoRetireError(w, p, tokenOf);
    }
  }

  lemma NoConflict(w: World, f: M.NewFrame, tokenOf: M.ConnID -> M.Token)
    requires Inv(w, tokenOf) && f in w.issuer.frames
    ensures f.retirePriorTo <= f.seqNo && !M.Conflict(w.user, f)
  {
    assert FrameOk(w, f, tokenOf);
    forall x | x in w.user.queue && x.seqNo == f.seqNo ensures x == M.Entry(f.seqNo, f.id, f.token) {
      assert M.HasEntry(w.user, x);
      assert EntryOk(w, x, tokenOf);
    }
  }

  lemma NoRetireError(w: World, p: Packet, tokenOf: M.ConnID -> M.Token)
    requires Inv(w, tokenOf) && p in w.packets
    ensures RetireResultOf(w.issuer, p.seqNo, p.dest).RetireOk?
  {
    assert PacketOk(w, p);
    var t: nat :| t > p.seqNo && t in w.idOf && w.idOf[t] == p.dest;
  }
}
