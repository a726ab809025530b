/** A session that has missed a commit never saves again, whatever it and the others do. */
module Staleness {
  import opened Prelude
  import opened Crypto
  import opened Image
  import opened Steps
  import opened History
  import opened HistoryProof

  /** The session has not seen the last commit. */
  ghost predicate IsStale(w: World, i: nat) {
    && i in w.members
    && w.members[i].seen != if w.committed == [] then None else Some(|w.committed| - 1)
  }

  lemma SeenInRange(c: Suite, w: World, i: nat, n0: nat)
    requires Inv(c, w, n0) && i in w.members
    ensures w.members[i].seen.Some? ==> w.members[i].seen.value < |w.committed|
  {
    hide HistoryOk, SessionOk, OpOk;
    assert MemberOk(c, w, w.members[i], n0);
  }

  /** A save that fails after its image was published leaves its session stale. */
  lemma FailedPublicationIsStale(c: Suite, w: World, i: nat, disk': Option<Bytes>, s': Session, r: Result<()>, d: Draws,
                                 w': World, n0: nat)
    requires Lawful(c) && Inv(c, w, n0) && Next(c, w, Finish(i, disk', s', r, d), w')
    requires r.Err? && w'.disk != w.disk
    ensures IsStale(w', i)
  {
    hide Inv, SaveOutcome, CommitOf, Fallback;
    SeenInRange(c, w, i, n0);
  }

  /** Nothing but its own end changes that; until then its saves fail, and change neither file nor history. */
  lemma StaleStays(c: Suite, w: World, a: Action, w': World, i: nat, n0: nat)
    requires Lawful(c) && Inv(c, w, n0) && NoTagCollision(w.committed) && Next(c, w, a, w')
    requires IsStale(w, i) && !(a.Die? && a.i == i)
    ensures IsStale(w', i)
    ensures a.Finish? && a.i == i ==> a.r.Err? && w'.disk == w.disk && w'.committed == w.committed
  {
    hide Inv, OpOk, SaveOutcome, CommitOf, Fallback, OpenBytes, OpenItem, AddItem, NoTagCollision;
    SeenInRange(c, w, i, n0);
    if a.Finish? && a.i == i {
      PublishesOverWhatItSaw(c, w, i, a.disk', a.s', a.r, a.d, w', n0);
    }
  }

  /** Over a run: from the moment a session is stale every later save of it is refused. */
  lemma {:induction false} StaleForGood(c: Suite, ws: seq<World>, acts: seq<Action>, n0: nat, i: nat, p: nat, q: nat)
    requires Lawful(c) && IsRun(c, ws, acts) && Inv(c, ws[0], n0) && NoTagCollision(ws[|ws| - 1].committed)
    requires p <= q <= |acts| && IsStale(ws[p], i)
    requires forall k :: p <= k < q ==> !(acts[k].Die? && acts[k].i == i)
    ensures IsStale(ws[q], i)
    ensures forall k :: p <= k < q && acts[k].Finish? && acts[k].i == i ==>
              acts[k].r.Err? && ws[k + 1].disk == ws[k].disk && ws[k + 1].committed == ws[k].committed
  {
    hide Inv, Next, NoTagCollision, IsStale;
    if p < q {
      StaleForGood(c, ws, acts, n0, i, p, q - 1);
      RunKeeps(c, ws, acts, q - 1, n0);
      CommitsOnlyGrow(c, ws, acts, q - 1);
      PrefixNoCollision(ws[q - 1].committed, ws[|ws| - 1].committed);
      assert Next(c, ws[q - 1], acts[q - 1], ws[q]);
      StaleStays(c, ws[q - 1], acts[q - 1], ws[q], i, n0);
    }
  }

  /** So a session whose save failed after publishing never saves again in that run. */
  lemma FailedPublicationEndsSaving(c: Suite, ws: seq<World>, acts: seq<Action>, n0: nat, p: nat, q: nat)
    requires Lawful(c) && IsRun(c, ws, acts) && Inv(c, ws[0], n0) && NoTagCollision(ws[|ws| - 1].committed)
    requires p < q < |acts| && acts[p].Finish? && acts[p].r.Err? && ws[p + 1].disk != ws[p].disk
    requires acts[q].Finish? && acts[q].i == acts[p].i
    requires forall k :: p < k < q ==> !(acts[k].Die? && acts[k].i == acts[p].i)
    ensures acts[q].r.Err? && ws[q + 1].disk == ws[q].disk && ws[q + 1].committed == ws[q].committed
  {
    hide Inv, Next, NoTagCollision, IsStale;
    var a := acts[p];
    RunKeeps(c, ws, acts, p, n0);
    assert Next(c, ws[p], acts[p], ws[p + 1]);
    FailedPublicationIsStale(c, ws[p], a.i, a.disk', a.s', a.r, a.d, ws[p + 1], n0);
    StaleForGood(c, ws, acts, n0, a.i, p + 1, q + 1);
  }
}
