/**
 The power may fail at any moment, and more than once. A cut ends every session, and leaves the
 file as one of the commits it could still bring back: none older than the last save that
 succeeded with its directory synced. The history then goes on from that commit.
 */
module PowerCuts {
  import opened Prelude
  import opened Crypto
  import opened Image
  import opened AtomicWrite
  import opened Steps
  import opened History
  import opened HistoryProof
  import opened Beginnings

  /** `floor` is the oldest commit a cut may bring back; None while a cut may leave no file at all. */
  datatype System = System(w: World, floor: Option<nat>)

  datatype Event = Step(a: Action, synced: bool) | PowerCut(back: Option<nat>)

  /** What a cut may leave: a commit from the floor on, or no file where there is no floor. */
  ghost predicate CanCome(s: System, back: Option<nat>) {
    match back
    case None => s.floor.None?
    case Some(k) => k < |s.w.committed| && (s.floor.Some? ==> s.floor.value <= k)
  }

  function BytesAt(w: World, back: Option<nat>): Option<Bytes> {
    if back.Some? && back.value < |w.committed| then Some(w.committed[back.value].bytes) else None
  }

  /** The commit a step makes durable, if its save succeeded and the directory was synced. */
  function FloorAfter(s: System, a: Action, synced: bool): Option<nat> {
    if a.Finish? && a.r.Ok? && synced then Some(|s.w.committed|) else s.floor
  }

  function AfterCut(s: System, back: Option<nat>): System {
    match back
    case None => System(GENESIS, None)
    case Some(k) =>
      if k < |s.w.committed| then
        System(World(Some(s.w.committed[k].bytes), None, map[], s.w.committed[..k + 1]), Some(k))
      else s
  }

  ghost predicate NextEvent(c: Suite, s: System, e: Event, s': System)
    requires Lawful(c)
  {
    match e
    case Step(a, synced) => Next(c, s.w, a, s'.w) && s'.floor == FloorAfter(s, a, synced)
    case PowerCut(back) => CanCome(s, back) && s' == AfterCut(s, back)
  }

  /** A history of steps and cuts. */
  ghost predicate IsHistory(c: Suite, ss: seq<System>, es: seq<Event>)
    requires Lawful(c)
  {
    |ss| == |es| + 1 && forall k :: 0 <= k < |es| ==> NextEvent(c, ss[k], es[k], ss[k + 1])
  }

  /** The invariant of the sessions; the floor is a commit, and a migrated file has one. */
  ghost predicate Sound(c: Suite, s: System, n0: nat) {
    && Inv(c, s.w, n0)
    && (s.floor.Some? ==> s.floor.value < |s.w.committed|)
    && (n0 > 0 ==> s.floor.Some?)
  }

  lemma PrefixHistory(c: Suite, ks: seq<Commit>, n: nat, n0: nat)
    requires HistoryOk(c, ks, n0) && n <= |ks|
    ensures HistoryOk(c, ks[..n], n0)
  {
    hide CommitOk, Continues, Ledger, Carries, RecordsIn;
    var front := ks[..n];
    forall k | 0 <= k < |front|
      ensures CommitAt(c, front, k, n0)
    {
      assert CommitAt(c, ks, k, n0);
      assert front[..k + 1] == ks[..k + 1];
    }
  }

  lemma CutKeeps(c: Suite, s: System, back: Option<nat>, n0: nat)
    requires Sound(c, s, n0) && CanCome(s, back)
    ensures Sound(c, AfterCut(s, back), n0)
    ensures AfterCut(s, back).w.disk == BytesAt(s.w, back)
  {
    hide HistoryOk, MemberOk;
    GenesisOk(c);
    if back.Some? {
      PrefixHistory(c, s.w.committed, back.value + 1, n0);
    }
  }

  lemma EventKeeps(c: Suite, s: System, e: Event, s': System, n0: nat)
    requires Lawful(c) && Sound(c, s, n0) && NoTagCollision(s.w.committed) && NextEvent(c, s, e, s')
    ensures Sound(c, s', n0)
  {
    hide Inv, Next, NoTagCollision, AfterCut;
    match e
    case Step(a, synced) =>
      StepKeeps(c, s.w, a, s'.w, n0);
      if a.Finish? && a.r.Ok? {
        SuccessCommits(c, s.w, a, s'.w);
      }
    case PowerCut(back) => CutKeeps(c, s, back, n0);
  }

  lemma SuccessCommits(c: Suite, w: World, a: Action, w': World)
    requires Lawful(c) && Next(c, w, a, w') && a.Finish? && a.r.Ok?
    ensures |w'.committed| == |w.committed| + 1
  {
    hide SaveOutcome, CommitOf, Fallback;
  }

  /** Through any number of cuts, every file there ever is belongs to one line, ledger included. */
  lemma {:induction false} HistoriesKeep(c: Suite, ss: seq<System>, es: seq<Event>, n0: nat, k: nat)
    requires Lawful(c) && IsHistory(c, ss, es) && Sound(c, ss[0], n0) && k < |ss|
    requires forall j :: 0 <= j < |ss| ==> NoTagCollision(ss[j].w.committed)
    ensures Sound(c, ss[k], n0) && OneLine(c, ss[k].w.committed, n0)
  {
    hide Inv, NextEvent, NoTagCollision, OneLine;
    if k > 0 {
      HistoriesKeep(c, ss, es, n0, k - 1);
      EventKeeps(c, ss[k - 1], es[k - 1], ss[k], n0);
    }
    LineOfWorld(c, ss[k].w, n0);
  }

  /** What lies at or below the floor stays. */
  lemma EventKeepsFloor(c: Suite, s: System, e: Event, s': System, n0: nat)
    requires Lawful(c) && Sound(c, s, n0) && NoTagCollision(s.w.committed) && NextEvent(c, s, e, s') && s.floor.Some?
    ensures s'.floor.Some? && s.floor.value <= s'.floor.value < |s'.w.committed|
    ensures s'.w.committed[..s.floor.value + 1] == s.w.committed[..s.floor.value + 1]
  {
    hide Inv, Next, NoTagCollision;
    EventKeeps(c, s, e, s', n0);
    match e
    case Step(a, synced) => StepGrows(c, s.w, a, s'.w);
    case PowerCut(back) =>
  }

  /**
   A save that succeeded with its directory synced is never undone: whatever happens after it, cuts
   included, its commit is in the history, and no cut brings back an older file.
   */
  lemma {:induction false} DurableForGood(c: Suite, ss: seq<System>, es: seq<Event>, n0: nat, p: nat, q: nat)
    requires Lawful(c) && IsHistory(c, ss, es) && Sound(c, ss[0], n0)
    requires forall j :: 0 <= j < |ss| ==> NoTagCollision(ss[j].w.committed)
    requires p < q < |ss| && es[p].Step? && es[p].a.Finish? && es[p].a.r.Ok? && es[p].synced
    ensures var n := |ss[p].w.committed|;
            && ss[q].floor.Some? && n <= ss[q].floor.value < |ss[q].w.committed|
            && |ss[p + 1].w.committed| == n + 1
            && ss[q].w.committed[..n + 1] == ss[p + 1].w.committed
  {
    hide Inv, NextEvent, NoTagCollision, OneLine;
    HistoriesKeep(c, ss, es, n0, p);
    JustDurable(c, ss[p], es[p], ss[p + 1], n0);
    if q > p + 1 {
      DurableForGood(c, ss, es, n0, p, q - 1);
      HistoriesKeep(c, ss, es, n0, q - 1);
      EventKeepsFloor(c, ss[q - 1], es[q - 1], ss[q], n0);
      var n := |ss[p].w.committed|;
      Shorter(ss[q - 1].w.committed, ss[q].w.committed, ss[q - 1].floor.value + 1, n + 1);
    }
  }

  lemma JustDurable(c: Suite, s: System, e: Event, s': System, n0: nat)
    requires Lawful(c) && Sound(c, s, n0) && NoTagCollision(s.w.committed) && NextEvent(c, s, e, s')
    requires e.Step? && e.a.Finish? && e.a.r.Ok? && e.synced
    ensures s'.floor == Some(|s.w.committed|) && |s'.w.committed| == |s.w.committed| + 1
    ensures s'.w.committed[..|s.w.committed| + 1] == s'.w.committed
  {
    hide Inv, Next, NoTagCollision;
    SuccessCommits(c, s.w, e.a, s'.w);
  }

  lemma Shorter<T>(a: seq<T>, b: seq<T>, m: nat, n: nat)
    requires n <= m <= |a| && m <= |b| && a[..m] == b[..m]
    ensures a[..n] == b[..n]
  {
    assert a[..n] == a[..m][..n] && b[..n] == b[..m][..n];
  }

  // -------------------------------------------------------------- the file system

  /** The disk shows the file of the system now, and after a crash only what a cut may leave. */
  ghost predicate Shows(d: Disk, path: Name, s: System) {
    && d.Content(path) == s.w.disk
    && forall x :: d.CrashReads(path, x) ==> MayLeave(s, x)
  }

  ghost predicate MayLeave(s: System, x: Option<Bytes>) {
    exists back :: CanCome(s, back) && x == BytesAt(s.w, back)
  }

  lemma LastMayStay(c: Suite, s: System, n0: nat)
    requires Sound(c, s, n0) && s.w.committed != []
    ensures MayLeave(s, s.w.disk)
  {
    hide HistoryOk, MemberOk;
    assert CanCome(s, Some(|s.w.committed| - 1));
  }

  /**
   The write protocol keeps to this: a save whose crash states are the old ones or its image in place,
   and which on success with the directory synced is durable, is a step of the system.
   */
  lemma SaveShows(c: Suite, s: System, i: nat, s1: Session, r: Result<()>, d: Draws, s': System, synced: bool,
                  path: Name, d0: Disk, trace: seq<Disk>, from: nat, image: Option<Bytes>, n0: nat)
    requires Lawful(c) && Sound(c, s, n0) && NoTagCollision(s.w.committed) && Shows(d0, path, s)
    requires CrashOldOrNew(d0, trace, from, path, image)
    requires var disk' := trace[|trace| - 1].Content(path);
             && NextEvent(c, s, Step(Finish(i, disk', s1, r, d), synced), s')
             && (r.Ok? && synced ==> disk'.Some? && Durable(trace[|trace| - 1], path, disk'.value))
    ensures Shows(trace[|trace| - 1], path, s')
  {
    hide Inv, Next, NoTagCollision, MayLeave;
    var now := trace[|trace| - 1];
    var a := Finish(i, now.Content(path), s1, r, d);
    EventKeeps(c, s, Step(a, synced), s', n0);
    FinishIs(c, s.w, a, s'.w, n0);
    StepGrows(c, s.w, a, s'.w);
    forall x | now.CrashReads(path, x)
      ensures MayLeave(s', x)
    {
      if x == s'.w.disk && x.Some? {
        LastMayStay(c, s', n0);
      } else {
        assert !(r.Ok? && synced);
        assert d0.CrashReads(path, x);
        StillMayLeave(s, s', x);
      }
    }
  }

  lemma StillMayLeave(s: System, s': System, x: Option<Bytes>)
    requires MayLeave(s, x) && s'.floor == s.floor && s.w.committed <= s'.w.committed
    ensures MayLeave(s', x)
  {
    var back :| CanCome(s, back) && x == BytesAt(s.w, back);
    assert CanCome(s', back) && x == BytesAt(s'.w, back);
  }

  /** What the end of a save leaves as the file is what its session published or found. */
  lemma FinishIs(c: Suite, w: World, a: Action, w': World, n0: nat)
    requires Lawful(c) && Inv(c, w, n0) && Next(c, w, a, w') && a.Finish?
    ensures w'.disk == a.disk'
    ensures w'.disk.Some? ==> w'.committed != []
  {
    hide HistoryOk, SessionOk, OpOk, SaveOutcome, CommitOf, Fallback;
    assert MemberOk(c, w, w.members[a.i], n0);
  }

  /** The image the saving session is about to write. */
  ghost function ImageInHand(c: Suite, m: Member, d: Draws): Option<Bytes>
    requires Lawful(c) && m.pc.Saving?
  {
    var header := HeaderFor(m.s, m.pc.op, BytesOf(m.pc.read));
    if header.Ok? then SaveImage(c, Candidate(m.s, m.pc.op), header.value, m.s.dek, m.pc.read, d) else None
  }

  /** A session may die with its image in place. */
  lemma ImageMayBeLeft(c: Suite, w: World, m: Member, d: Draws, n0: nat)
    requires Lawful(c) && Inv(c, w, n0) && MemberOk(c, w, m, n0) && m.pc.Saving? && ImageInHand(c, m, d).Some?
    ensures SaveOutcome(c, m, ImageInHand(c, m, d), Candidate(m.s, m.pc.op), Err(Encrypt), d)
  {
    hide Inv, MemberOk, Preflight, HeaderFor, Candidate, Fitting, ImageOf;
    SavingMember(c, w, m, n0);
    LastCommit(c, w, n0);
    var s1 := Candidate(m.s, m.pc.op);
    var header := HeaderFor(m.s, m.pc.op, BytesOf(m.pc.read)).value;
    PreflightKnowsTag(c, s1, header, m.s.dek, BytesOf(m.pc.read));
    SaveFailed(c, s1, header, m.s.dek, m.pc.read, d, ImageInHand(c, m, d), Encrypt);
  }

  /**
   Power failing during a save, after any effect: whatever file is found then, the system can come to it,
   by a cut alone or by the death of the saving session with its image in place and a cut.
   */
  lemma CrashDuringSave(c: Suite, s: System, i: nat, d: Draws, path: Name, d0: Disk, trace: seq<Disk>, from: nat,
                        k: nat, x: Option<Bytes>, n0: nat)
    returns (ss: seq<System>, es: seq<Event>)
    requires Lawful(c) && Sound(c, s, n0) && Shows(d0, path, s)
    requires i in s.w.members && s.w.members[i].pc.Saving?
    requires CrashOldOrNew(d0, trace, from, path, ImageInHand(c, s.w.members[i], d))
    requires from - 1 <= k < |trace| && trace[k].CrashReads(path, x)
    ensures IsHistory(c, ss, es) && ss[0] == s
    ensures ss[|ss| - 1].w.disk == x && ss[|ss| - 1].w.members == map[]
  {
    hide Inv, ImageInHand, SaveOutcome, CommitOf, Candidate, MemberOk;
    var m := s.w.members[i];
    MemberIs(c, s.w, i, n0);
    SavingMember(c, s.w, m, n0);
    if d0.CrashReads(path, x) {
      var back :| CanCome(s, back) && x == BytesAt(s.w, back);
      ss, es := CutTo(c, s, back, n0);
    } else {
      ImageMayBeLeft(c, s.w, m, d, n0);
      CommitBytes(c, m, x);
      var s1 := System(World(x, Unlocked(s.w, i), s.w.members - {i}, s.w.committed + [CommitOf(c, m, x)]), s.floor);
      var e := Step(Die(i, x, d), false);
      assert NextEvent(c, s, e, s1);
      var cut := PowerCut(Some(|s.w.committed|));
      var s2 := AfterCut(s1, Some(|s.w.committed|));
      assert NextEvent(c, s1, cut, s2);
      ss, es := [s, s1, s2], [e, cut];
    }
  }

  lemma CutTo(c: Suite, s: System, back: Option<nat>, n0: nat) returns (ss: seq<System>, es: seq<Event>)
    requires Lawful(c) && Sound(c, s, n0) && CanCome(s, back)
    ensures IsHistory(c, ss, es) && ss[0] == s
    ensures ss[|ss| - 1].w.disk == BytesAt(s.w, back) && ss[|ss| - 1].w.members == map[]
  {
    hide Inv;
    CutKeeps(c, s, back, n0);
    ss, es := [s, AfterCut(s, back)], [PowerCut(back)];
  }
}
