/** The connection IDs that we issue to the peer. */
module ConnIDGenerator {
  import opened Common
  import opened ConnIDManager

  const MAX_ISSUED_CONNECTION_IDS := 6

  /** `frames` are the NEW_CONNECTION_ID frames queued so far. */
  datatype Issuer = Issuer(highestSeq: nat, active: map<nat, ConnID>, frames: seq<NewFrame>)

  datatype RetireResult = RetireOk | RetiredUnissued | RetiredInUse

  /** One more ID; the reset token is a function of the ID. */
  function Issue(g: Issuer, id: ConnID, tokenOf: ConnID -> Token): Issuer {
    Issuer(g.highestSeq + 1, g.active[g.highestSeq + 1 := id],
           g.frames + [NewFrame(g.highestSeq + 1, 0, id, tokenOf(id))])
  }

  function IssueAll(g: Issuer, ids: seq<ConnID>, tokenOf: ConnID -> Token): Issuer
    decreases |ids|
  {
    if ids == [] then g
    else Issue(IssueAll(g, ids[..|ids| - 1], tokenOf), ids[|ids| - 1], tokenOf)
  }

  /** How many IDs are issued when the peer's limit arrives. */
  function Missing(g: Issuer, limit: nat): nat {
    Max(0, Min(limit, MAX_ISSUED_CONNECTION_IDS) - |g.active|)
  }

  function RetireResultOf(g: Issuer, seqNo: nat, dest: ConnID): RetireResult {
    if seqNo > g.highestSeq then RetiredUnissued
    else if seqNo in g.active && g.active[seqNo] == dest then RetiredInUse
    else RetireOk
  }

  /** A duplicate changes nothing; the first ID is not replaced, every other one is. */
  function AfterRetire(g: Issuer, seqNo: nat, id: ConnID, tokenOf: ConnID -> Token): Issuer {
    if seqNo !in g.active then g
    else if seqNo == 0 then g.(active := g.active - {seqNo})
    else Issue(g.(active := g.active - {seqNo}), id, tokenOf)
  }

  class Generator {
    const idLen: nat
    const tokenOf: ConnID -> Token
    var highestSeq: nat
    var active: map<nat, ConnID>
    var frames: seq<NewFrame>

    ghost function Contents(): Issuer
      reads this
    {
      Issuer(highestSeq, active, frames)
    }

    constructor (initialID: ConnID, idLen: nat, tokenOf: ConnID -> Token)
      ensures Contents() == Issuer(0, map[0 := initialID], [])
      ensures this.idLen == idLen && this.tokenOf == tokenOf
    {
      this.idLen, this.tokenOf := idLen, tokenOf;
      highestSeq, active, frames := 0, map[0 := initialID], [];
    }

    method IssueNewConnID(id: ConnID)
      modifies this
      ensures Contents() == Issue(old(Contents()), id, tokenOf)
    {
      active := active[highestSeq + 1 := id];
      frames := frames + [NewFrame(highestSeq + 1, 0, id, tokenOf(id))];
      highestSeq := highestSeq + 1;
    }

    /** The peer stores `limit` IDs; `generated` gives the generated ones. No IDs are issued if they are empty. */
    method SetMaxActiveConnIDs(limit: nat, generated: nat -> ConnID) returns (ghost ids: seq<ConnID>)
      requires forall n: nat :: n in active ==> n <= highestSeq
      modifies this
      ensures Contents() == IssueAll(old(Contents()), ids, tokenOf)
      ensures |ids| == if idLen == 0 then 0 else Missing(old(Contents()), limit)
      ensures |active| == old(|active|) + |ids|
    {
      ids := [];
      if idLen == 0 {
        return;
      }
      ghost var g0 := Contents();
      var i, k := |active|, 0;
      while i < Min(limit, MAX_ISSUED_CONNECTION_IDS)
        invariant i == |active| == |g0.active| + |ids| && |ids| == k
        invariant |ids| <= Missing(g0, limit)
        invariant Contents() == IssueAll(g0, ids, tokenOf)
        invariant forall n: nat :: n in active ==> n <= highestSeq
      {
        assert (ids + [generated(k)])[..|ids|] == ids;
        IssueNewConnID(generated(k));
        ids := ids + [generated(k)];
        i, k := i + 1, k + 1;
      }
    }

    /** A RETIRE_CONNECTION_ID frame in a packet that was sent to `dest`; `id` is the next generated ID. */
    method Retire(seqNo: nat, dest: ConnID, id: ConnID) returns (r: RetireResult)
      modifies this
      ensures r == RetireResultOf(old(Contents()), seqNo, dest)
      ensures Contents() == if r.RetireOk? then AfterRetire(old(Contents()), seqNo, id, tokenOf) else old(Contents())
    {
      if seqNo > highestSeq {
        return RetiredUnissued;
      }
      if seqNo !in active {
        return RetireOk;
      }
      if active[seqNo] == dest {
        return RetiredInUse;
      }
      active := active - {seqNo};
      if seqNo == 0 {
        return RetireOk;
      }
      IssueNewConnID(id);
      return RetireOk;
    }
  }

  // ---------------------------------------------------------------------------------------------
  // Runs

  datatype Event = SetLimit(limit: nat, ids: seq<ConnID>) | RetireEvent(seqNo: nat, dest: ConnID, id: ConnID)

  /** A call without an error, of a generator whose IDs are not empty. */
  ghost predicate Step(g: Issuer, e: Event, g': Issuer, tokenOf: ConnID -> Token) {
    match e
    case SetLimit(limit, ids) => |ids| == Missing(g, limit) && g' == IssueAll(g, ids, tokenOf)
    case RetireEvent(seqNo, dest, id) =>
      RetireResultOf(g, seqNo, dest).RetireOk? && g' == AfterRetire(g, seqNo, id, tokenOf)
  }

  ghost predicate IsRun(gs: seq<Issuer>, es: seq<Event>, tokenOf: ConnID -> Token) {
    && |gs| == |es| + 1 && (exists id :: gs[0] == Issuer(0, map[0 := id], []))
    && forall i :: 0 <= i < |es| ==> Step(gs[i], es[i], gs[i + 1], tokenOf)
  }

  /** The numbers in use were issued, and each of them but 0 was announced in its turn. */
  ghost predicate Numbered(g: Issuer, tokenOf: ConnID -> Token) {
    && (forall n: nat :: n in g.active ==> n <= g.highestSeq) && |g.frames| == g.highestSeq
    && (forall i :: 0 <= i < |g.frames| ==> g.frames[i].seqNo == i + 1 && g.frames[i].retirePriorTo == 0)
    && (forall n: nat :: n in g.active && n != 0 ==>
          g.frames[n - 1] == NewFrame(n, 0, g.active[n], tokenOf(g.active[n])))
  }

  /** The IDs in use, together with the first one if it is gone: it is not replaced. */
  function Supply(g: Issuer): nat {
    |g.active| + (if 0 in g.active then 0 else 1)
  }

  lemma IssueSupply(g: Issuer, id: ConnID, tokenOf: ConnID -> Token)
    requires Numbered(g, tokenOf)
    ensures Numbered(Issue(g, id, tokenOf), tokenOf) && Supply(Issue(g, id, tokenOf)) == Supply(g) + 1
  {
    assert g.highestSeq + 1 !in g.active;
  }

  lemma {:induction false} IssueAllSupply(g: Issuer, ids: seq<ConnID>, tokenOf: ConnID -> Token)
    requires Numbered(g, tokenOf)
    ensures Numbered(IssueAll(g, ids, tokenOf), tokenOf) && Supply(IssueAll(g, ids, tokenOf)) == Supply(g) + |ids|
    decreases |ids|
  {
    hide Numbered, Supply, Issue;
    if ids != [] {
      var n := |ids| - 1;
      IssueAllSupply(g, ids[..n], tokenOf);
      IssueSupply(IssueAll(g, ids[..n], tokenOf), ids[n], tokenOf);
    }
  }

  lemma RetireSupply(g: Issuer, seqNo: nat, id: ConnID, tokenOf: ConnID -> Token)
    requires Numbered(g, tokenOf)
    ensures var g' := AfterRetire(g, seqNo, id, tokenOf);
            Numbered(g', tokenOf) && Supply(g') == Supply(g) && seqNo !in g'.active
  {
    if seqNo in g.active {
      CardRemove(g.active, seqNo);
      var g1 := g.(active := g.active - {seqNo});
      assert Numbered(g1, tokenOf);
      IssueSupply(g1, id, tokenOf);
    }
  }

  /** How many IDs were issued because of the limit of the peer. */
  function IssuedForLimit(es: seq<Event>): nat {
    if es == [] then 0
    else
      var e := es[|es| - 1];
      IssuedForLimit(es[..|es| - 1]) + (if e.SetLimit? then |e.ids| else 0)
  }

  /**
    In every run, the peer has as many IDs as were issued for its limit besides the first one, however many it has
    retired: each is replaced, except the first. All but that one were announced with their numbers and tokens.
   */
  lemma {:induction false} SupplyKept(gs: seq<Issuer>, es: seq<Event>, tokenOf: ConnID -> Token)
    requires IsRun(gs, es, tokenOf)
    ensures Supply(gs[|es|]) == 1 + IssuedForLimit(es) && Numbered(gs[|es|], tokenOf)
    decreases |es|
  {
    hide Numbered, Supply, IssueAll, AfterRetire, Missing, RetireResultOf;
    if es == [] {
      StartSupply(gs[0], tokenOf);
    } else {
      var n := |es| - 1;
      SupplyKept(gs[..n + 1], es[..n], tokenOf);
      assert gs[..n + 1][n] == gs[n] && Step(gs[n], es[n], gs[n + 1], tokenOf);
      match es[n] {
        case SetLimit(limit, ids) => IssueAllSupply(gs[n], ids, tokenOf);
        case RetireEvent(seqNo, dest, id) => RetireSupply(gs[n], seqNo, id, tokenOf);
      }
    }
  }

  lemma StartSupply(g: Issuer, tokenOf: ConnID -> Token)
    requires exists id :: g == Issuer(0, map[0 := id], [])
    ensures Supply(g) == 1 && Numbered(g, tokenOf)
  {
  }
}
