/** Where runs begin: nothing at all, or a file that a migration has just published. */
module Beginnings {
  import opened Prelude
  import opened Crypto
  import opened Header
  import opened Shape
  import opened Image
  import opened SaveProof
  import opened Steps
  import opened Preservation
  import opened History
  import opened HistoryProof

  /** With everything cached, everything is encrypted afresh. */
  lemma {:induction false} AllFresh(cache: map<u32, ItemRecord>, es: seq<IndexEntry>)
    requires forall e :: e in es ==> e.slot in cache
    ensures FreshCount(cache, es) == |es|
  {
    if es != [] {
      AllFresh(cache, es[..|es| - 1]);
    }
  }

  lemma AllCached(s: Session, records: seq<ItemRecord>, kek: Key, dek: Key, params: KdfParams, salt: Salt)
    requires |records| == |s.entries|
    ensures var t := Migrated(s, records, kek, dek, params, salt);
            t.entries == s.entries && forall e :: e in t.entries ==> e.slot in t.cache
  {
  }

  /** Renumbered and normalised, entries with distinct ids are as every save leaves them. */
  lemma RenumberedIsDense(es: seq<IndexEntry>)
    requires |es| <= U32_MAX && forall a, b :: 0 <= a < b < |es| ==> es[a].itemId != es[b].itemId
    ensures DenseOk(NormAll(Renumber(es)), |es|)
  {
  }

  /** A world that holds one good commit. */
  lemma OneCommitOk(c: Suite, k: Commit)
    requires Decodes(c, k) && DenseOk(k.entries, |k.entries|) && Carries(c, [], k)
    requires k.rekeyed && k.counter == k.sealed <= ROTATION_LIMIT
    ensures Inv(c, World(Some(k.bytes), None, map[], [k]), |k.entries|)
  {
    hide Decodes, DenseOk, Carries;
    assert [k][..1] == [k];
    assert CommitAt(c, [k], 0, |k.entries|);
  }

  /**
   A migration of a legacy file with distinct ids begins a run: what it publishes is a commit
   under the new keys, charged with one encryption for every item and one for the index.
   */
  lemma MigrationBegins(c: Suite, raw: Bytes, password: Bytes, kek: Key, dek: Key, params: KdfParams, salt: Salt,
                        s': Session, disk': Option<Bytes>, d: Draws)
    returns (k: Commit)
    requires Lawful(c) && MigrateStep(c, raw, password, kek, dek, params, salt, None, s', disk', Ok(()), d)
    requires var es := OpenBytes(c, raw, password, true).value.entries;
             forall a, b :: 0 <= a < b < |es| ==> es[a].itemId != es[b].itemId
    ensures var es := OpenBytes(c, raw, password, true).value.entries;
            && |es| <= U32_MAX && k.entries == NormAll(Renumber(es)) && k.sealed == |es| + 1
    ensures disk' == Some(k.bytes) && k.kek == kek && k.dek == dek && k.rekeyed
    ensures Inv(c, World(disk', None, map[], [k]), |k.entries|)
  {
    hide SaveStep, Preflight, ImageOf, OpenBytes, SessionFrames, ParseHeaderVersion, Migrated, Decodes, Carries,
         DenseOk, Inv, FreshCount, OpenSlot, Fitting, OldItems;
    var s := OpenBytes(c, raw, password, true).value;
    var frames := SessionFrames(raw, ParseLegacyHeader(raw).value, true).value;
    var header := FreshHeader(CURRENT_VERSION, s.config.wrapAlg, s.config.itemAlg, params, salt);
    var records :|
      && LegacyRecords(c, s, frames, records)
      && SaveStep(c, Migrated(s, records, kek, dek, params, salt), header, dek, None, s', disk', Ok(()), d);
    var s1 := Migrated(s, records, kek, dek, params, salt);
    AllCached(s, records, kek, dek, params, salt);
    MigratedKeys(s, records, kek, dek, params, salt);
    SavedImage(c, s1, header, dek, None, s', disk', d);
    var p := Preflight(c, s1, header, dek, []).value;
    PlanShape(c, s1, header, dek, [], p);
    LegacyStates(c, raw, password);
    AllFresh(s1.cache, s1.entries);
    ImageDecodes(c, s1, header, dek, [], p, d, None, |s1.entries| + 1, true);
    NoItems(c, dek);
    k := ImageCommit(c, s1, header, p, d, |s1.entries| + 1, true);
    RenumberedIsDense(s1.entries);
    OneCommitOk(c, k);
  }

  lemma MigratedKeys(s: Session, records: seq<ItemRecord>, kek: Key, dek: Key, params: KdfParams, salt: Salt)
    requires |records| == |s.entries|
    ensures var t := Migrated(s, records, kek, dek, params, salt); t.kek == kek && t.dek == dek
  {
    hide CacheAll;
  }

  /** What a successful save published. */
  lemma SavedImage(c: Suite, s: Session, header: ParsedHeader, diskDek: Key, disk: Option<Bytes>,
                   s': Session, disk': Option<Bytes>, d: Draws)
    requires Lawful(c) && SaveStep(c, s, header, diskDek, disk, s', disk', Ok(()), d)
    ensures Preflight(c, s, header, diskDek, BytesOf(disk)).Ok?
    ensures var p := Preflight(c, s, header, diskDek, BytesOf(disk)).value;
            Fitting(p, d) && disk' == Some(ImageOf(c, s, header, p, d))
  {
    hide Preflight, ImageOf, Fitting, Committed;
  }

  /**
   The commits form one line with the ledger in it: each continues those before it, new ids
   come last and above all others, and each counter is the number of encryptions so far.
   */
  ghost predicate OneLine(c: Suite, ks: seq<Commit>, n0: nat) {
    && (forall i, j :: 0 <= i <= j < |ks| ==> Continues(ks[i].entries, ks[j].entries))
    && forall j :: 0 <= j < |ks| ==>
         && IdsOk(ks[j].entries, n0)
         && ParseHeader(ks[j].bytes).Ok?
         && ParseHeader(ks[j].bytes).value.encCounter == Ledger(ks[..j + 1]) <= ROTATION_LIMIT
  }

  /** Every run that starts from a migrated file has one history and keeps the ledger the migration began. */
  lemma MigratedRuns(c: Suite, raw: Bytes, password: Bytes, kek: Key, dek: Key, params: KdfParams, salt: Salt,
                     s': Session, disk': Option<Bytes>, d: Draws)
    returns (k: Commit)
    requires Lawful(c) && MigrateStep(c, raw, password, kek, dek, params, salt, None, s', disk', Ok(()), d)
    requires var es := OpenBytes(c, raw, password, true).value.entries;
             forall a, b :: 0 <= a < b < |es| ==> es[a].itemId != es[b].itemId
    ensures disk' == Some(k.bytes) && k.kek == kek && k.dek == dek && k.sealed == |k.entries| + 1
    ensures forall ws: seq<World>, acts: seq<Action> :: RunFrom(c, World(disk', None, map[], [k]), ws, acts) ==>
              && |ws| > 0
              && var ks := ws[|ws| - 1].committed;
                 NoTagCollision(ks) ==> OneLine(c, ks, |k.entries|)
  {
    hide MigrateStep, IsRun, Inv, OpenBytes, OneLine, NoTagCollision;
    k := MigrationBegins(c, raw, password, kek, dek, params, salt, s', disk', d);
    forall ws: seq<World>, acts: seq<Action> | RunFrom(c, World(disk', None, map[], [k]), ws, acts)
      ensures |ws| > 0 && (NoTagCollision(ws[|ws| - 1].committed) ==> OneLine(c, ws[|ws| - 1].committed, |k.entries|))
    {
      NotEmpty(c, ws, acts);
      if NoTagCollision(ws[|ws| - 1].committed) {
        LineOfRun(c, ws, acts, |k.entries|);
      }
    }
  }

  lemma NotEmpty(c: Suite, ws: seq<World>, acts: seq<Action>)
    requires Lawful(c) && IsRun(c, ws, acts)
    ensures |ws| > 0
  {
  }

  /** The whole line of a run. */
  lemma LineOfRun(c: Suite, ws: seq<World>, acts: seq<Action>, n0: nat)
    requires Lawful(c) && IsRun(c, ws, acts) && Inv(c, ws[0], n0)
    requires NoTagCollision(ws[|ws| - 1].committed)
    ensures OneLine(c, ws[|ws| - 1].committed, n0)
  {
    hide IsRun, Inv, OneLine, NoTagCollision;
    NotEmpty(c, ws, acts);
    RunKeeps(c, ws, acts, |ws| - 1, n0);
    LineOfWorld(c, ws[|ws| - 1], n0);
  }

  /** The commits of every world that satisfies the invariant form one line. */
  lemma LineOfWorld(c: Suite, w: World, n0: nat)
    requires Inv(c, w, n0)
    ensures OneLine(c, w.committed, n0)
  {
    hide HistoryOk, MemberOk, Continues, IdsOk, Ledger, ParseHeaderVersion, Carries, ReadIndex, AadBytes, FramesOpen;
    var ks := w.committed;
    forall i, j | 0 <= i <= j < |ks|
      ensures Continues(ks[i].entries, ks[j].entries)
    {
      CommitsContinue(c, ks, n0, i, j);
    }
    forall j | 0 <= j < |ks|
      ensures IdsOk(ks[j].entries, n0) && ParseHeader(ks[j].bytes).Ok?
      ensures ParseHeader(ks[j].bytes).value.encCounter == Ledger(ks[..j + 1]) <= ROTATION_LIMIT
    {
      CommitHead(c, ks, n0, j);
    }
  }
}
