/**
 The methods of the session object take no step that `History` does not know: whatever an
 operation may do, the state machine does by beginning a save and finishing it, by giving
 up, or by not moving.

 `Simulated` says so of one operation; `OperationSteps` gives the steps.
 */
module Simulation {
  import opened Prelude
  import opened Crypto
  import opened Header
  import opened Shape
  import opened Image
  import opened Steps
  import opened Failures
  import opened History
  import opened HistoryProof
  import opened Ops

  /** Nothing was published, and the session is as it was or as a failure leaves it. */
  ghost predicate Refused(s: Session, op: Op, disk: Option<Bytes>, s': Session, disk': Option<Bytes>, r: Result<()>) {
    r.Err? && disk' == disk && (s' == s || s' == Fallback(s, op))
  }

  /** What the state machine can do for an operation: refuse it, or save under the lock. */
  ghost predicate Simulated(c: Suite, s: Session, op: Op, disk: Option<Bytes>, s': Session, disk': Option<Bytes>,
                            r: Result<()>, d: Draws)
    requires Lawful(c)
  {
    || Refused(s, op, disk, s', disk', r)
    || (exists x :: SaveOutcome(c, Member(s, None, Saving(op, disk)), disk', x, r, d)
                    && s' == if r.Ok? then x else Fallback(s, op))
  }

  /** A plain save of an operation's candidate. */
  lemma PlainSimulated(c: Suite, s: Session, op: Op, disk: Option<Bytes>, s': Session, disk': Option<Bytes>,
                       r: Result<()>, d: Draws)
    requires Lawful(c) && (op.Resave? || op.Edit? || op.Delete? || op.Import?)
    requires Candidate(s, op).dek == s.dek
    requires if r.Ok? then PlainSave(c, Candidate(s, op), disk, s', disk', r, d)
             else PlainSave(c, Candidate(s, op), disk, Candidate(s, op), disk', r, d) && s' == Fallback(s, op)
    ensures Simulated(c, s, op, disk, s', disk', r, d)
  {
    hide SaveStep, Candidate, Fallback, ParseHeaderVersion;
    var m := Member(s, None, Saving(op, disk));
    var x := if r.Ok? then s' else Candidate(s, op);
    if disk' != disk || r.Ok? {
      assert SaveOutcome(c, m, disk', x, r, d);
    }
  }

  lemma EntrySimulated(c: Suite, s: Session, id: u32, title: Text, username: Text, record: ItemRecord,
                       disk: Option<Bytes>, s': Session, disk': Option<Bytes>, r: Result<()>, d: Draws)
    requires Lawful(c) && EntryStep(c, s, id, title, username, record, disk, s', disk', r, d)
    requires Position(s.entries, id).Some?
    ensures Simulated(c, s, Edit(Position(s.entries, id).value, title, username, record), disk, s', disk', r, d)
  {
    hide PlainSave, Simulated;
    var op := Edit(Position(s.entries, id).value, title, username, record);
    if r.Err? {
      FailedEditUndoneIff(c, s, id, title, username, record, disk, s', disk', r, d);
    }
    PlainSimulated(c, s, op, disk, s', disk', r, d);
  }

  lemma TombstoneSimulated(c: Suite, s: Session, id: u32, disk: Option<Bytes>, s': Session, disk': Option<Bytes>,
                           r: Result<()>, d: Draws)
    requires Lawful(c) && TombstoneStep(c, s, id, disk, s', disk', r, d)
    requires LivePosition(s.entries, id).Some? && Position(s.entries, id).Some?
    ensures Simulated(c, s, Delete(id), disk, s', disk', r, d)
  {
    hide PlainSave, Simulated;
    if r.Err? {
      FailedDeletionUndone(c, s, id, disk, s', disk', r, d);
    }
    PlainSimulated(c, s, Delete(id), disk, s', disk', r, d);
  }

  lemma {:induction false} AddAllKeepsKeys(s: Session, adds: seq<NewItem>)
    ensures AddAll(s, adds).0.dek == s.dek
  {
    if adds != [] {
      AddAllKeepsKeys(s, adds[..|adds| - 1]);
    }
  }

  /** The updates an import prepared lie within a sound session. */
  lemma PreparedWithin(s: Session, n0: nat, us: seq<ImportedUpdate>, updates: seq<(u32, ItemRecord)>)
    requires SessionOk(s, n0) && |us| == |updates|
    requires forall k :: 0 <= k < |updates| ==> PreparedFor(s, us[k], updates[k])
    ensures forall k :: 0 <= k < |updates| ==> updates[k].0 < |s.entries|
  {
    hide ValidItem;
    forall k | 0 <= k < |updates|
      ensures updates[k].0 < |s.entries|
    {
      assert PreparedFor(s, us[k], updates[k]);
    }
  }

  /** An import whose items all found an id and a slot is one operation; any other only adds the first few in memory. */
  lemma ImportSimulated(c: Suite, ks: seq<Commit>, s: Session, n0: nat, adds: seq<NewItem>, us: seq<ImportedUpdate>,
                        updates: seq<(u32, ItemRecord)>, disk: Option<Bytes>, s': Session, disk': Option<Bytes>,
                        r: Result<()>, d: Draws)
    requires Lawful(c) && ImportStep(c, s, adds, updates, disk, s', disk', r, d)
    requires SessionOk(s, n0) && |us| == |updates|
    requires forall k :: 0 <= k < |updates| ==> PreparedFor(s, us[k], updates[k])
    ensures if AddAll(s, adds).1.Ok?
            then OpOk(c, ks, s, Import(adds, updates)) && Simulated(c, s, Import(adds, updates), disk, s', disk', r, d)
            else r.Err? && s' == AddAll(s, adds).0 && disk' == disk
  {
    hide PlainSave, Simulated, AddAll, PutAll, PreparedFor, SessionOk;
    if AddAll(s, adds).1.Ok? {
      AddAllKeepsKeys(s, adds);
      PreparedWithin(s, n0, us, updates);
      if r.Err? {
        FailedSave(c, Candidate(s, Import(adds, updates)), disk, s', disk', r, d);
      }
      PlainSimulated(c, s, Import(adds, updates), disk, s', disk', r, d);
    }
  }

  /** A rotation whose snapshot is one of the files there have been. */
  lemma RotateSimulated(c: Suite, ks: seq<Commit>, k: nat, s: Session, kek: Key, dek: Key, params: KdfParams,
                        salt: Salt, snap: Bytes,
                        disk: Option<Bytes>, s': Session, disk': Option<Bytes>, r: Result<()>, d: Draws)
    requires Lawful(c) && RotateStep(c, s, kek, dek, params, salt, snap, disk, s', disk', r, d)
    requires k < |ks| && ks[k].bytes == snap
    ensures Snapshot(c, s, snap).Ok? ==>
              && OpOk(c, ks, s, Rotate(kek, dek, params, salt, Snapshot(c, s, snap).value))
              && Simulated(c, s, Rotate(kek, dek, params, salt, Snapshot(c, s, snap).value), disk, s', disk', r, d)
    ensures Snapshot(c, s, snap).Err? ==> r.Err? && s' == s && disk' == disk
  {
    hide SaveStep, Snapshot;
    if Snapshot(c, s, snap).Ok? {
      var op := Rotate(kek, dek, params, salt, Snapshot(c, s, snap).value);
      var x := if r.Ok? then s' else Candidate(s, op);
      if disk' != disk || r.Ok? {
        assert SaveOutcome(c, Member(s, None, Saving(op, disk)), disk', x, r, d);
      }
    }
  }

  lemma PasswordSimulated(c: Suite, s: Session, kek: Key, params: KdfParams, salt: Salt,
                          disk: Option<Bytes>, s': Session, disk': Option<Bytes>, r: Result<()>, d: Draws)
    requires Lawful(c) && PasswordStep(c, s, kek, params, salt, disk, s', disk', r, d)
    ensures Simulated(c, s, Password(kek, params, salt), disk, s', disk', r, d)
  {
    hide SaveStep, ParseHeaderVersion;
    var op := Password(kek, params, salt);
    var x := if r.Ok? then s' else Candidate(s, op);
    if disk' != disk || r.Ok? {
      assert SaveOutcome(c, Member(s, None, Saving(op, disk)), disk', x, r, d);
    }
  }

  /** A creation, whatever comes of it: the newborn session is left alone, or its save is one operation. */
  lemma CreateSimulated(c: Suite, ks: seq<Commit>, kek: Key, dek: Key, params: KdfParams, salt: Salt,
                        wrapAlg: Algorithm,
                        itemAlg: Algorithm,
                        disk: Option<Bytes>, s': Session, disk': Option<Bytes>, r: Result<()>, d: Draws)
    requires Lawful(c)
    requires SaveStep(c, Newborn(kek, dek, params, salt, wrapAlg, itemAlg),
                      FreshHeader(CURRENT_VERSION, wrapAlg, itemAlg, params, salt), dek, disk, s', disk', r, d)
    ensures var s := Newborn(kek, dek, params, salt, wrapAlg, itemAlg);
            OpOk(c, ks, s, Create) && Simulated(c, s, Create, disk, s', disk', r, d)
  {
    hide SaveStep;
    var s := Newborn(kek, dek, params, salt, wrapAlg, itemAlg);
    assert SaveOutcome(c, Member(s, None, Saving(Create, disk)), disk', s', r, d);
    if r.Err? {
      FailedSaveKeeps(c, s, FreshHeader(CURRENT_VERSION, wrapAlg, itemAlg, params, salt), dek, disk, s', disk', r, d);
    }
  }

  lemma FailedSaveKeeps(c: Suite, s: Session, header: ParsedHeader, diskDek: Key, disk: Option<Bytes>,
                        s': Session, disk': Option<Bytes>, r: Result<()>, d: Draws)
    requires Lawful(c) && SaveStep(c, s, header, diskDek, disk, s', disk', r, d) && r.Err?
    ensures s' == s
  {
    hide Preflight, Committed, ImageOf, TagOf, Fitting;
  }

  // -------------------------------------------------------------------- steps

  /**
   The world once a member's operation is over: the file and its session are the operation's,
   no other member is touched, and only a publication adds a commit, one the member has then seen.
   */
  ghost predicate AfterOperation(w: World, i: nat, s': Session, disk': Option<Bytes>, r: Result<()>, w': World) {
    && w'.disk == disk' && w'.lock == w.lock
    && IsIdle(w', i) && w'.members[i].s == s'
    && w'.members - {i} == w.members - {i}
    && w.committed <= w'.committed
    && |w'.committed| == |w.committed| + (if r.Ok? || disk' != w.disk then 1 else 0)
    && (|w'.committed| > |w.committed| ==> w'.committed[|w.committed|].bytes == BytesOf(disk'))
    && (r.Ok? ==> w'.members[i].seen == Some(|w.committed|))
  }

  /** The steps an operation is made of: none, giving up, or beginning a save and finishing it. */
  lemma OperationSteps(c: Suite, w: World, i: nat, op: Op, s': Session, disk': Option<Bytes>, r: Result<()>, d: Draws)
    returns (ws: seq<World>, acts: seq<Action>)
    requires Lawful(c) && IsIdle(w, i) && OpOk(c, w.committed, w.members[i].s, op)
    requires Simulated(c, w.members[i].s, op, w.disk, s', disk', r, d)
    requires w.lock.None? || Refused(w.members[i].s, op, w.disk, s', disk', r)
    ensures RunFrom(c, w, ws, acts) && AfterOperation(w, i, s', disk', r, ws[|ws| - 1])
  {
    hide SaveOutcome, OpOk, Fallback, CommitOf;
    var m := w.members[i];
    if Refused(m.s, op, w.disk, s', disk', r) {
      if s' == m.s {
        ws, acts := [w], [];
      } else {
        ws, acts := [w, w.(members := w.members[i := m.(s := s')])], [GiveUp(i, op)];
      }
    } else {
      ws, acts := SavingSteps(c, w, i, op, s', disk', r, d);
    }
  }

  lemma SavingSteps(c: Suite, w: World, i: nat, op: Op, s': Session, disk': Option<Bytes>, r: Result<()>, d: Draws)
    returns (ws: seq<World>, acts: seq<Action>)
    requires Lawful(c) && IsIdle(w, i) && OpOk(c, w.committed, w.members[i].s, op) && w.lock.None?
    requires Simulated(c, w.members[i].s, op, w.disk, s', disk', r, d)
    requires !Refused(w.members[i].s, op, w.disk, s', disk', r)
    ensures RunFrom(c, w, ws, acts) && AfterOperation(w, i, s', disk', r, ws[|ws| - 1])
  {
    hide OpOk, Fallback, CommitOf, SaveStep, HeaderFor, Candidate;
    var m := w.members[i];
    var x :| SaveOutcome(c, Member(m.s, None, Saving(op, w.disk)), disk', x, r, d)
             && s' == if r.Ok? then x else Fallback(m.s, op);
    var saving := m.(pc := Saving(op, w.disk));
    assert SaveOutcome(c, saving, disk', x, r, d);
    var w1 := w.(lock := Some(i), members := w.members[i := saving]);
    var published := r.Ok? || disk' != w.disk;
    var w2 := World(
      disk', None,
      w1.members[i := if r.Ok? then Member(x, Some(|w.committed|), Idle) else Member(s', m.seen, Idle)],
      if published then w.committed + [CommitOf(c, saving, disk')] else w.committed);
    CommitBytes(c, saving, disk');
    ws, acts := [w, w1, w2], [Begin(i, op), Finish(i, disk', x, r, d)];
    assert Next(c, w, acts[0], w1);
    assert Next(c, w1, acts[1], w2);
  }

  /** An operation keeps the invariant of the histories, and so everything that follows from it. */
  lemma OperationKeeps(c: Suite, w: World, i: nat, op: Op, s': Session, disk': Option<Bytes>, r: Result<()>, d: Draws,
                       n0: nat)
    returns (w': World)
    requires Lawful(c) && IsIdle(w, i) && OpOk(c, w.committed, w.members[i].s, op) && Inv(c, w, n0)
    requires Simulated(c, w.members[i].s, op, w.disk, s', disk', r, d)
    requires w.lock.None? || Refused(w.members[i].s, op, w.disk, s', disk', r)
    ensures AfterOperation(w, i, s', disk', r, w')
    ensures NoTagCollision(w'.committed) ==> Inv(c, w', n0)
  {
    hide Inv, Simulated, Refused, OpOk, NoTagCollision, AfterOperation, Next;
    var ws, acts := OperationSteps(c, w, i, op, s', disk', r, d);
    w' := ws[|ws| - 1];
    if NoTagCollision(w'.committed) {
      RunKeeps(c, ws, acts, |ws| - 1, n0);
    }
  }

  /** A new member that creates the file: born, then its save. */
  lemma CreationSteps(c: Suite, w: World, i: nat, kek: Key, dek: Key, params: KdfParams, salt: Salt,
                      wrapAlg: Algorithm, itemAlg: Algorithm, s': Session, disk': Option<Bytes>, r: Result<()>,
                      d: Draws)
    returns (ws: seq<World>, acts: seq<Action>)
    requires Lawful(c) && i !in w.members && w.lock.None?
    requires SaveStep(c, Newborn(kek, dek, params, salt, wrapAlg, itemAlg),
                      FreshHeader(CURRENT_VERSION, wrapAlg, itemAlg, params, salt), dek, w.disk, s', disk', r, d)
    ensures RunFrom(c, w, ws, acts) && AfterOperation(w, i, s', disk', r, ws[|ws| - 1])
  {
    hide SaveStep, Simulated, OpOk, Refused;
    var s := Newborn(kek, dek, params, salt, wrapAlg, itemAlg);
    var born := Birth(i, kek, dek, params, salt, wrapAlg, itemAlg);
    var w1 := w.(members := w.members[i := Member(s, None, Idle)]);
    assert Next(c, w, born, w1);
    CreateSimulated(c, w1.committed, kek, dek, params, salt, wrapAlg, itemAlg, w.disk, s', disk', r, d);
    ws, acts := OperationSteps(c, w1, i, Create, s', disk', r, d);
    assert w1.members - {i} == w.members - {i};
    ws, acts := Prepended(c, w, born, ws, acts);
  }

  lemma Joined(c: Suite, ws: seq<World>, acts: seq<Action>, vs: seq<World>, bs: seq<Action>)
    returns (us: seq<World>, joint: seq<Action>)
    requires Lawful(c) && IsRun(c, ws, acts) && RunFrom(c, ws[|ws| - 1], vs, bs)
    ensures RunFrom(c, ws[0], us, joint) && us[|us| - 1] == vs[|vs| - 1]
  {
    hide Next;
    us, joint := ws[..|ws| - 1] + vs, acts + bs;
    forall k | 0 <= k < |joint|
      ensures Next(c, us[k], joint[k], us[k + 1])
    {
      if k < |acts| {
        assert Next(c, ws[k], acts[k], ws[k + 1]);
      } else {
        assert Next(c, vs[k - |acts|], bs[k - |acts|], vs[k - |acts| + 1]);
      }
    }
  }

  lemma Prepended(c: Suite, w: World, a: Action, ws: seq<World>, acts: seq<Action>)
    returns (vs: seq<World>, bs: seq<Action>)
    requires Lawful(c) && IsRun(c, ws, acts) && Next(c, w, a, ws[0])
    ensures RunFrom(c, w, vs, bs) && vs[|vs| - 1] == ws[|ws| - 1]
  {
    hide Next;
    vs, bs := [w] + ws, [a] + acts;
    forall k | 0 <= k < |bs|
      ensures Next(c, vs[k], bs[k], vs[k + 1])
    {
      if k > 0 {
        assert Next(c, ws[k - 1], acts[k - 1], ws[k]);
      }
    }
  }

  /** The adds of an import that runs out of ids or slots: one step in memory each. */
  lemma {:induction false} AppendSteps(c: Suite, w: World, i: nat, adds: seq<NewItem>)
    returns (ws: seq<World>, acts: seq<Action>)
    requires Lawful(c) && IsIdle(w, i)
    ensures RunFrom(c, w, ws, acts)
    ensures ws[|ws| - 1] == w.(members := w.members[i := w.members[i].(s := AddAll(w.members[i].s, adds).0)])
  {
    hide AddItem, Next;
    var m := w.members[i];
    if adds == [] {
      ws, acts := [w], [];
      assert w.members[i := m] == w.members;
    } else {
      ws, acts := AppendSteps(c, w, i, adds[..|adds| - 1]);
      if AddAll(m.s, adds[..|adds| - 1]).1.Ok? {
        ws, acts := Appended(c, ws, acts, i, adds[|adds| - 1]);
      }
    }
  }

  lemma Appended(c: Suite, ws: seq<World>, acts: seq<Action>, i: nat, item: NewItem)
    returns (vs: seq<World>, bs: seq<Action>)
    requires Lawful(c) && IsRun(c, ws, acts) && IsIdle(ws[|ws| - 1], i)
    ensures RunFrom(c, ws[0], vs, bs)
    ensures var (w, w') := (ws[|ws| - 1], vs[|vs| - 1]);
            var m := w.members[i];
            w' == w.(members := w.members[i := m.(s := AddItem(m.s, item.title, item.username, item.record).0)])
  {
    hide AddItem;
    var w := ws[|ws| - 1];
    var m := w.members[i];
    var next := w.(members := w.members[i := m.(s := AddItem(m.s, item.title, item.username, item.record).0)]);
    assert Next(c, w, Append(i, item), next);
    vs, bs := ws + [next], acts + [Append(i, item)];
    KeepsRunning(c, ws, acts, Append(i, item), next);
  }

  lemma KeepsRunning(c: Suite, ws: seq<World>, acts: seq<Action>, a: Action, w': World)
    requires Lawful(c) && IsRun(c, ws, acts) && Next(c, ws[|ws| - 1], a, w')
    ensures IsRun(c, ws + [w'], acts + [a])
  {
    hide Next;
    var (vs, bs) := (ws + [w'], acts + [a]);
    forall k | 0 <= k < |bs|
      ensures Next(c, vs[k], bs[k], vs[k + 1])
    {
      if k < |acts| {
        assert Next(c, ws[k], acts[k], ws[k + 1]);
      }
    }
  }

  /** `add_entry` once its item was accepted: an append in memory, then an ordinary save. */
  lemma AddSteps(c: Suite, w: World, i: nat, item: NewItem, s': Session, disk': Option<Bytes>, r: Result<()>, d: Draws)
    returns (ws: seq<World>, acts: seq<Action>)
    requires Lawful(c) && IsIdle(w, i) && (w.lock.None? || (r.Err? && disk' == w.disk))
    requires PlainSave(c, AddItem(w.members[i].s, item.title, item.username, item.record).0, w.disk, s', disk', r, d)
    ensures RunFrom(c, w, ws, acts) && AfterOperation(w, i, s', disk', r, ws[|ws| - 1])
  {
    hide PlainSave, AddItem, Simulated;
    var m := w.members[i];
    var s1 := AddItem(m.s, item.title, item.username, item.record).0;
    var add := Append(i, item);
    var w1 := w.(members := w.members[i := m.(s := s1)]);
    assert Next(c, w, add, w1);
    if r.Err? {
      FailedSave(c, s1, w.disk, s', disk', r, d);
    }
    PlainSimulated(c, s1, Resave, w.disk, s', disk', r, d);
    ws, acts := OperationSteps(c, w1, i, Resave, s', disk', r, d);
    assert w1.members - {i} == w.members - {i};
    ws, acts := Prepended(c, w, add, ws, acts);
  }
}
