/** A whole import: the plan, the confirmation, one commit, and what the file then holds. */
module Importing {
  import opened Prelude
  import opened Crypto
  import opened Shape
  import opened Image
  import opened SaveProof
  import opened Steps
  import opened Preservation
  import opened Failures
  import opened History
  import opened AtomicWrite
  import opened VaultSession
  import opened Ops
  import opened ImportPlan
  import opened ImportProof

  function AsNew(adds: seq<CanonicalRecord>): (r: seq<NewItem>)
    ensures |r| == |adds|
    ensures forall k :: 0 <= k < |adds| ==> r[k] == NewItem(adds[k].title, adds[k].username, adds[k].record)
  {
    seq(|adds|, k requires 0 <= k < |adds| => NewItem(adds[k].title, adds[k].username, adds[k].record))
  }

  function AsUpdates(updates: seq<PlannedUpdate>): (r: seq<ImportedUpdate>)
    ensures |r| == |updates|
    ensures forall k :: 0 <= k < |updates| ==> r[k] == ImportedUpdate(updates[k].itemId, updates[k].record)
  {
    seq(|updates|, k requires 0 <= k < |updates| => ImportedUpdate(updates[k].itemId, updates[k].record))
  }

  ghost predicate Untouched(updates: seq<PlannedUpdate>, id: u32) {
    forall u :: u in updates ==> u.itemId != id
  }

  /** The item holds the planned record, with the creation time it had. */
  ghost predicate Replaced(c: Suite, s: Session, disk: Option<Bytes>, e: IndexEntry, u: PlannedUpdate, now: Item) {
    Shown(c, s, disk, e).Ok? && now.record == Ok(u.record.(created := Shown(c, s, disk, e).value.created))
  }

  /**
   The file after an import: every old item with its metadata, holding the planned record
   if it is the target of an update and what the session stood for if not, then the new items
   in order under consecutive ids; as many more live items as there are adds.
   */
  ghost predicate ImportedFile(c: Suite, s: Session, all: seq<CanonicalRecord>, mode: Identity,
                               disk: Option<Bytes>, disk': Option<Bytes>)
  {
    var n := |s.entries|;
    var adds := AddsOf(s.entries, all, mode, |all|);
    var updates := UpdatesOf(s.entries, all, mode, |all|);
    && disk.Some? && disk'.Some? && Contents(c, disk'.value, s.dek).Ok?
    && s.nextId + |adds| <= U32_MAX
    && var (now, was) := (Contents(c, disk'.value, s.dek).value, OldItems(c, disk.value, s.dek));
    && |now| == n + |adds| && LiveItems(now) == CountLive(s.entries) + |adds|
    && (forall i :: 0 <= i < n ==>
          && SameMetadata(now[i], Item(s.entries[i].itemId, Norm(s.entries[i]).state, s.entries[i].title,
                                       s.entries[i].username, now[i].record))
          && (Untouched(updates, s.entries[i].itemId) ==> now[i].record == RecordFor(s.cache, was, s.entries[i])))
    && (forall i, k :: 0 <= i < n && 0 <= k < |updates| && updates[k].itemId == s.entries[i].itemId ==>
          Replaced(c, s, disk, s.entries[i], updates[k], now[i]))
    && (forall k :: 0 <= k < |adds| ==>
          now[n + k] == Item(s.nextId + k, LIVE, adds[k].title, adds[k].username, Ok(adds[k].record)))
  }

  // ------------------------------------------------------------------- lemmas

  lemma {:induction false} UpdateMisses(updates: seq<(u32, ItemRecord)>, slot: u32)
    requires forall k :: 0 <= k < |updates| ==> updates[k].0 != slot
    ensures UpdateAt(updates, slot).None?
  {
    if updates != [] {
      UpdateMisses(updates[..|updates| - 1], slot);
    }
  }

  lemma {:induction false} UpdateHits(updates: seq<(u32, ItemRecord)>, k: nat)
    requires k < |updates|
    requires forall j :: 0 <= j < |updates| && j != k ==> updates[j].0 != updates[k].0
    ensures UpdateAt(updates, updates[k].0) == Some(updates[k].1)
  {
    if k < |updates| - 1 {
      UpdateHits(updates[..|updates| - 1], k);
    }
  }

  /** A record that was opened is the one its entry shows. */
  lemma ShownIsCached(c: Suite, s: Session, file: Option<Bytes>, us: seq<ImportedUpdate>, s1: Session, i: nat)
    requires Dense(s) && OnlyOpened(c, s, file, us, s1) && i < |s.entries|
    ensures s.entries[i].slot == i
    ensures i in s1.cache ==> Shown(c, s, file, s.entries[i]) == Ok(s1.cache[i])
    ensures !Targets(us, s.entries[i].itemId) ==> (i in s1.cache <==> i in s.cache)
  {
    hide OpenSlot, Targets;
    if i in s1.cache && i !in s.cache {
      assert OpenedFor(c, s, file, us, i, s1.cache[i]);
    }
  }

  lemma OpenedIsDense(c: Suite, s: Session, file: Option<Bytes>, us: seq<ImportedUpdate>, s1: Session)
    requires Dense(s) && OnlyOpened(c, s, file, us, s1)
    ensures Dense(s1)
  {
    hide Shown, Targets;
    forall slot | slot in s1.cache
      ensures slot < |s.entries|
    {
      if slot !in s.cache {
        assert OpenedFor(c, s, file, us, slot, s1.cache[slot]);
      }
    }
  }

  /** The slot of an update is the position of the one entry with its id. */
  lemma PreparedAt(s: Session, u: ImportedUpdate, p: (u32, ItemRecord), i: nat)
    requires Dense(s) && IdsDistinct(s.entries) && PreparedFor(s, u, p) && i < |s.entries|
    ensures p.0 < |s.entries| && s.entries[p.0].itemId == u.itemId
    ensures p.0 == i <==> s.entries[i].itemId == u.itemId
    ensures p.0 in s.cache && p.1 == u.record.(created := s.cache[p.0].created)
  {
    hide ValidItem;
  }

  ghost predicate AllPrepared(s: Session, us: seq<ImportedUpdate>, prepared: seq<(u32, ItemRecord)>) {
    |prepared| == |us| && forall k :: 0 <= k < |us| ==> PreparedFor(s, us[k], prepared[k])
  }

  /** The update installed at an entry, if the plan has one for it. */
  lemma UpdateOf(s: Session, us: seq<ImportedUpdate>, prepared: seq<(u32, ItemRecord)>, i: u32)
    requires Dense(s) && IdsDistinct(s.entries) && AllPrepared(s, us, prepared) && i < |s.entries|
    requires forall j, k :: 0 <= j < k < |us| ==> us[j].itemId != us[k].itemId
    ensures !Targets(us, s.entries[i].itemId) ==> UpdateAt(prepared, i).None?
    ensures forall k :: 0 <= k < |us| && us[k].itemId == s.entries[i].itemId ==>
              i in s.cache && UpdateAt(prepared, i) == Some(us[k].record.(created := s.cache[i].created))
  {
    hide PreparedFor, Dense, IdsDistinct, UpdateAt;
    forall k | 0 <= k < |us|
      ensures prepared[k].0 == i <==> s.entries[i].itemId == us[k].itemId
      ensures prepared[k].0 == i ==> i in s.cache && prepared[k].1 == us[k].record.(created := s.cache[i].created)
    {
      PreparedAt(s, us[k], prepared[k], i);
    }
    if k :| 0 <= k < |us| && us[k].itemId == s.entries[i].itemId {
      UpdateHits(prepared, k);
      assert us[k] in us;
    } else {
      UpdateMisses(prepared, i);
    }
  }

  lemma WithinEntries(s: Session, us: seq<ImportedUpdate>, prepared: seq<(u32, ItemRecord)>)
    requires Dense(s) && AllPrepared(s, us, prepared)
    ensures forall k :: 0 <= k < |prepared| ==> prepared[k].0 < |s.entries|
  {
    hide ValidItem;
    forall k | 0 <= k < |prepared|
      ensures prepared[k].0 < |s.entries|
    {
      assert PreparedFor(s, us[k], prepared[k]);
    }
  }

  /** The record of one old item after the import. */
  lemma OldItemAfter(c: Suite, s: Session, disk: Option<Bytes>, updates: seq<PlannedUpdate>, s1: Session,
                     prepared: seq<(u32, ItemRecord)>, was: seq<Item>, i: u32)
    requires Dense(s) && Dense(s1) && IdsDistinct(s.entries) && i < |s.entries|
    requires OnlyOpened(c, s, disk, AsUpdates(updates), s1) && AllPrepared(s1, AsUpdates(updates), prepared)
    requires forall j, k :: 0 <= j < k < |updates| ==> updates[j].itemId != updates[k].itemId
    ensures Untouched(updates, s.entries[i].itemId) ==>
              AfterImport(s1, prepared, was, i) == RecordFor(s.cache, was, s.entries[i])
    ensures forall k :: 0 <= k < |updates| && updates[k].itemId == s.entries[i].itemId ==>
              && Shown(c, s, disk, s.entries[i]).Ok?
              && AfterImport(s1, prepared, was, i)
                 == Ok(updates[k].record.(created := Shown(c, s, disk, s.entries[i]).value.created))
  {
    hide PreparedFor, IdsDistinct, UpdateAt, Shown, AllPrepared, Lookup, Targets, Dense;
    var us := AsUpdates(updates);
    UpdateOf(s1, us, prepared, i);
    ShownIsCached(c, s, disk, us, s1, i);
    if Untouched(updates, s.entries[i].itemId) {
      NoTarget(updates, s.entries[i].itemId);
    }
  }

  lemma NoTarget(updates: seq<PlannedUpdate>, id: u32)
    requires Untouched(updates, id)
    ensures !Targets(AsUpdates(updates), id)
  {
    var us := AsUpdates(updates);
    forall u | u in us
      ensures u.itemId != id
    {
      var k :| 0 <= k < |us| && us[k] == u;
      assert updates[k] in updates;
    }
  }

  /** From the plan to the file: what a successful import publishes. */
  lemma PlanPublishes(c: Suite, s: Session, all: seq<CanonicalRecord>, mode: Identity, s1: Session,
                      prepared: seq<(u32, ItemRecord)>, disk: Option<Bytes>, s': Session, disk': Option<Bytes>,
                      d: Draws)
    requires Lawful(c) && Dense(s) && IdsDistinct(s.entries)
    requires var us := AsUpdates(UpdatesOf(s.entries, all, mode, |all|));
             OnlyOpened(c, s, disk, us, s1) && AllPrepared(s1, us, prepared)
    requires ImportStep(c, s1, AsNew(AddsOf(s.entries, all, mode, |all|)), prepared, disk, s', disk', Ok(()), d)
    ensures ImportedFile(c, s, all, mode, disk, disk')
  {
    hide Dense, OnlyOpened, AllPrepared, ImportStep, AddsOf, UpdatesOf, Contents, OldItems, LiveItems, CountLive,
         RecordFor, AfterImport, Untouched, Shown, IdsDistinct, HoldsImport, Replaced;
    var adds := AddsOf(s.entries, all, mode, |all|);
    var updates := UpdatesOf(s.entries, all, mode, |all|);
    var us := AsUpdates(updates);
    OpenedIsDense(c, s, disk, us, s1);
    WithinEntries(s1, us, prepared);
    OpenedKeeps(c, s, disk, us, s1);
    ImportPublishes(c, s1, AsNew(adds), prepared, disk, s', disk', d);
    AllDistinct(s.entries, all, mode);
    var (was, now) := (OldItems(c, disk.value, s.dek), Contents(c, disk'.value, s.dek).value);
    OldItemsAfter(c, s, disk, updates, s1, AsNew(adds), prepared, was, now);
    NewItemsAfter(s1, AsNew(adds), prepared, was, now);
  }

  lemma OldItemsAfter(c: Suite, s: Session, disk: Option<Bytes>, updates: seq<PlannedUpdate>, s1: Session,
                      adds: seq<NewItem>, prepared: seq<(u32, ItemRecord)>, was: seq<Item>, now: seq<Item>)
    requires Dense(s) && Dense(s1) && IdsDistinct(s.entries) && s1.entries == s.entries
    requires OnlyOpened(c, s, disk, AsUpdates(updates), s1) && AllPrepared(s1, AsUpdates(updates), prepared)
    requires forall j, k :: 0 <= j < k < |updates| ==> updates[j].itemId != updates[k].itemId
    requires s1.nextId + |adds| <= U32_MAX && |s1.entries| + |adds| <= U32_MAX
    requires HoldsImport(s1, adds, prepared, was, now)
    ensures |now| == |s.entries| + |adds|
    ensures forall i :: 0 <= i < |s.entries| ==>
              && SameMetadata(now[i], Item(s.entries[i].itemId, Norm(s.entries[i]).state, s.entries[i].title,
                                           s.entries[i].username, now[i].record))
              && (Untouched(updates, s.entries[i].itemId) ==> now[i].record == RecordFor(s.cache, was, s.entries[i]))
    ensures forall i, k :: 0 <= i < |s.entries| && 0 <= k < |updates| && updates[k].itemId == s.entries[i].itemId ==>
              Replaced(c, s, disk, s.entries[i], updates[k], now[i])
  {
    hide Dense, OnlyOpened, AllPrepared, RecordFor, AfterImport, Untouched, Shown, IdsDistinct;
    forall i: u32 | i < |s.entries|
      ensures Untouched(updates, s.entries[i].itemId) ==> now[i].record == RecordFor(s.cache, was, s.entries[i])
      ensures forall k :: 0 <= k < |updates| && updates[k].itemId == s.entries[i].itemId ==>
                Replaced(c, s, disk, s.entries[i], updates[k], now[i])
    {
      OldItemAfter(c, s, disk, updates, s1, prepared, was, i);
    }
  }

  lemma NewItemsAfter(s: Session, adds: seq<NewItem>, prepared: seq<(u32, ItemRecord)>, was: seq<Item>, now: seq<Item>)
    requires s.nextId + |adds| <= U32_MAX && |s.entries| + |adds| <= U32_MAX && HoldsImport(s, adds, prepared, was, now)
    ensures |now| == |s.entries| + |adds|
    ensures forall k :: 0 <= k < |adds| ==>
              now[|s.entries| + k] == Item(s.nextId + k, LIVE, adds[k].title, adds[k].username, Ok(adds[k].record))
  {
    hide AfterImport;
  }

  lemma OpenedKeeps(c: Suite, s: Session, disk: Option<Bytes>, us: seq<ImportedUpdate>, s1: Session)
    requires OnlyOpened(c, s, disk, us, s1)
    ensures s1.entries == s.entries && s1.dek == s.dek && s1.nextId == s.nextId
  {
  }

  lemma AllDistinct(es: seq<IndexEntry>, all: seq<CanonicalRecord>, mode: Identity)
    requires IdsDistinct(es)
    ensures var us := UpdatesOf(es, all, mode, |all|);
            forall j, k :: 0 <= j < k < |us| ==> us[j].itemId != us[k].itemId
  {
    hide UpdatesOf;
    var us := UpdatesOf(es, all, mode, |all|);
    forall j, k | 0 <= j < k < |us|
      ensures us[j].itemId != us[k].itemId
    {
      UpdatesAreDistinct(es, all, mode, j, k);
    }
  }

  /** Every session of every run is one that imports like this. */
  lemma SoundSessions(c: Suite, w: World, i: nat, n0: nat)
    requires Inv(c, w, n0) && i in w.members
    ensures Dense(w.members[i].s) && IdsDistinct(w.members[i].s.entries)
  {
    hide HistoryOk, OpOk, FileTag;
    assert MemberOk(c, w, w.members[i], n0);
  }

  // ------------------------------------------------------------------ methods

  /** `apply`: the plan, item by item, handed to the one operation that commits it. */
  method ApplyPlan(v: Vault, plan: ImportedPlan)
    returns (r: Result<()>, ghost s1: Session, ghost prepared: seq<(u32, ItemRecord)>, ghost d: Draws)
    requires v.Valid()
    modifies v`entries, v`openItems, v`nextItemId, v`header, v`lastDiskTag, v.fs, v.rng
    ensures v.Valid()
    ensures OnlyOpened(v.c, old(v.State()), old(v.File()), AsUpdates(plan.updates), s1)
    ensures || (r.Err? && v.State() == s1 && v.File() == old(v.File()))
            || (&& AllPrepared(s1, AsUpdates(plan.updates), prepared)
                && AddsOk(AsNew(plan.adds), old(v.nextItemId))
                && ImportStep(v.c, s1, AsNew(plan.adds), prepared, old(v.File()), v.State(), v.File(), r, d))
    ensures old(v.Calm(|v.entries| + |plan.adds| + 2)) && v.path !in old(v.fs.locks) ==>
              ImportOutcome(v.c, old(v.State()), old(v.File()), AsNew(plan.adds), AsUpdates(plan.updates), r)
  {
    hide ImportStep, AddsOk, PreparedFor, OnlyOpened, ImportOutcome, NamesFree;
    r, s1, prepared, d := ApplyImport(v, AsNew(plan.adds), AsUpdates(plan.updates));
  }

  /** Nothing is replaced and no title is ambiguous. */
  ghost predicate PureAdds(es: seq<IndexEntry>, all: seq<CanonicalRecord>, mode: Identity) {
    UpdatesOf(es, all, mode, |all|) == [] && forall r :: r in all ==> !Ambiguous(es, all, mode, r.title)
  }

  lemma PureIffEmpty(es: seq<IndexEntry>, all: seq<CanonicalRecord>, mode: Identity, cs: seq<(Text, nat)>)
    requires CollisionsFor(es, all, mode, |all|, cs)
    ensures PureAdds(es, all, mode) <==> UpdatesOf(es, all, mode, |all|) == [] && cs == []
  {
    hide Ambiguous, CollisionCount, UpdatesOf;
    if cs != [] {
      assert Ambiguous(es, all, mode, cs[0].0) && Occurs(all, |all|, cs[0].0);
      var i :| 0 <= i < |all| && all[i].title == cs[0].0;
      assert all[i] in all;
    }
  }

  datatype Outcome = Imported | DryRun | Refused | Failed(error: Error)

  /**
   `import_format_into` once the records are parsed: plan first; a dry run stops there; anything
   but pure adds under `--yes` needs the user's consent; then one commit. `consent` is false
   where there is no terminal.
   */
  method ImportRecords(v: Vault, all: seq<CanonicalRecord>, mode: Identity, skipped: nat, dryRun: bool, yes: bool,
                       consent: bool)
    returns (r: Outcome, ghost s1: Session, ghost prepared: seq<(u32, ItemRecord)>, ghost d: Draws)
    requires v.Valid()
    modifies v`entries, v`openItems, v`nextItemId, v`header, v`lastDiskTag, v.fs, v.rng
    ensures v.Valid()
    ensures r == DryRun <==> dryRun
    ensures r.DryRun? || r.Refused? ==> v.State() == old(v.State()) && v.File() == old(v.File())
    ensures r == Refused <==> !dryRun && !consent && !(yes && PureAdds(old(v.entries), all, mode))
    ensures r.Failed? ==>
              var us := AsUpdates(UpdatesOf(old(v.entries), all, mode, |all|));
              && OnlyOpened(v.c, old(v.State()), old(v.File()), us, s1)
              && ((v.State() == s1 && v.File() == old(v.File()))
                  || (&& AllPrepared(s1, us, prepared)
                      && ImportStep(v.c, s1, AsNew(AddsOf(old(v.entries), all, mode, |all|)), prepared, old(v.File()),
                                    v.State(), v.File(), Err(r.error), d)))
    ensures r == Imported && Dense(old(v.State())) && IdsDistinct(old(v.entries)) ==>
              ImportedFile(v.c, old(v.State()), all, mode, old(v.File()), v.File())
    ensures old(v.Calm(|v.entries| + |all| + 2)) && v.path !in old(v.fs.locks) && (r.Imported? || r.Failed?) ==>
              ImportOutcome(v.c, old(v.State()), old(v.File()), AsNew(AddsOf(old(v.entries), all, mode, |all|)),
                            AsUpdates(UpdatesOf(old(v.entries), all, mode, |all|)),
                            if r.Imported? then Ok(()) else Err(r.error))
  {
    hide ImportStep, OnlyOpened, ImportOutcome, NamesFree, ImportedFile, AllPrepared, AddsOf, UpdatesOf,
         CollisionsFor, AddsOk, PureAdds;
    ghost var (s, file) := (v.State(), v.File());
    s1, prepared, d := s, [], NoDraws(0);
    var plan := BuildPlan(v.entries, all, mode, skipped);
    if dryRun {
      return DryRun, s1, prepared, d;
    }
    PureIffEmpty(v.entries, all, mode, plan.collisions);
    var pureAdds := plan.updates == [] && plan.collisions == [];
    if !(yes && pureAdds) && !consent {
      return Refused, s1, prepared, d;
    }
    var applied;
    applied, s1, prepared, d := ApplyPlan(v, plan);
    if applied.Err? {
      return Outcome.Failed(applied.error), s1, prepared, d;
    }
    assert applied.value == ();
    if Dense(s) && IdsDistinct(s.entries) {
      PlanPublishes(v.c, s, all, mode, s1, prepared, file, v.State(), v.File(), d);
    }
    return Imported, s1, prepared, d;
  }
}
