/** How sessions come about: opening a file, creating a vault, migrating a legacy file. */
module Lifecycle {
  import opened Prelude
  import opened Crypto
  import opened Header
  import opened Shape
  import opened Frames
  import opened Image
  import opened Steps
  import opened Random
  import opened AtomicWrite
  import opened SaveLoops
  import opened VaultSession

  /** `open_bytes`. */
  method OpenSession(c: Suite, raw: Bytes, password: Bytes, legacy: bool) returns (r: Result<Session>)
    ensures r == OpenBytes(c, raw, password, legacy)
  {
    hide FramesOf, Framing, ReadIndex, ParseHeaderVersion, UnwrapDek, NextIdAfter;
    var h :- if legacy then ParseLegacyHeader(raw) else ParseHeader(raw);
    var keys :- UnwrapDek(c, h, password);
    var (kek, dek) := keys;
    var tag: Option<Mac> := None;
    if legacy {
      LongEnough(raw, LEGACY_VERSION);
      var _ :- LegacyCrcOk(c, raw);
    } else {
      var t :- Authenticate(c, raw, dek);
      tag := Some(t);
    }
    var itemAlg :- AlgorithmFromId(h.itemAlgId);
    var es :- ReadIndex(c, raw, h.version, dek, itemAlg);
    var separate := !legacy || h.reserved[0] == FRAME_LAYOUT_V2;
    var split, _ := SplitItemFrames(raw, separate, if legacy then LEGACY_TRAILER_LEN else TRAILER_LEN);
    var frames :- split;
    if |frames| != |es| {
      return Err(Encrypt);
    }
    var nextId :- NextIdAfter(es);
    var wrapAlg :- AlgorithmFromId(h.wrapAlgId);
    var config := Config(h.version, wrapAlg, itemAlg, h.params, h.salt, h.encCounter);
    return Ok(Session(config, kek, dek, es, map[], nextId, tag));
  }

  lemma LongEnough(raw: Bytes, version: byte)
    requires ParseHeaderVersion(raw, version).Ok?
    ensures |raw| >= HEADER_LEN
  {
  }

  /** `create`: an empty vault under fresh keys, published without replacing anything. */
  method Create(c: Suite, fs: FileSystem, rng: Entropy, hasParent: bool, path: Name, password: Bytes,
                params: KdfParams, salt: Salt, dek: Key, wrapAlg: Algorithm, itemAlg: Algorithm)
    returns (r: Result<Vault>, ghost d: Draws)
    requires fs.Valid() && Lawful(c)
    modifies fs, rng
    ensures fs.Valid()
    ensures r.Ok? ==>
              && r.value.Valid() && r.value.fs == fs && r.value.path == path
              && params.PolicyOk() && c.kdf(params, salt, password) == Ok(r.value.kek)
              && SaveStep(c, Newborn(r.value.kek, dek, params, salt, wrapAlg, itemAlg),
                          FreshHeader(CURRENT_VERSION, wrapAlg, itemAlg, params, salt), dek,
                          old(fs.disk.Content(path)), r.value.State(), fs.disk.Content(path), Ok(()), d)
    ensures old(fs.disk.Content(path)).Some? ==> fs.disk.Content(path) == old(fs.disk.Content(path))
    ensures r.Err? && fs.disk.Content(path) != old(fs.disk.Content(path)) ==>
              && params.PolicyOk() && c.kdf(params, salt, password).Ok?
              && var s := Newborn(c.kdf(params, salt, password).value, dek, params, salt, wrapAlg, itemAlg);
                 SaveStep(c, s, FreshHeader(CURRENT_VERSION, wrapAlg, itemAlg, params, salt), dek,
                          None, s, fs.disk.Content(path), Err(r.error), d)
    ensures r.Ok? && hasParent ==> fs.disk.Content(path).Some? && Durable(fs.disk, path, fs.disk.Content(path).value)
    ensures params.PolicyOk() && c.kdf(params, salt, password).Ok? && old(fs.disk.Content(path)).None?
            && fs.works && path !in old(fs.locks) && old(NamesFree(fs.disk, path))
              && |old(rng.pool)| >= 3 * NONCE_LEN + 16
            ==> r.Ok?
  {
    hide SaveStep, Durable, NamesFree, Preflight;
    d := NoDraws(0);
    if !params.PolicyOk() {
      return Err(Kdf), d;
    }
    var kek := c.kdf(params, salt, password);
    if kek.Err? {
      return Err(kek.error), d;
    }
    var nonce := rng.Draw(NONCE_LEN);
    if nonce.Err? {
      return Err(nonce.error), d;
    }
    var v := new Vault(c, fs, rng, hasParent, path, Newborn(kek.value, dek, params, salt, wrapAlg, itemAlg));
    ghost var s := v.State();
    var h := FreshHeader(CURRENT_VERSION, wrapAlg, itemAlg, params, salt);
    NewbornFits(c, kek.value, dek, params, salt, wrapAlg, itemAlg);
    ghost var sealed;
    ghost var file := v.File();
    var saved;
    saved, d, sealed := v.SaveWithHeader(h, dek);
    if v.File() != file && file.Some? {
      NewbornNeverReplaces(c, s, h, dek, file, v.State(), v.File(), saved, d);
    }
    if saved.Err? {
      if v.File() != file {
        FailedSaveKeepsSession(c, s, h, dek, file, v.State(), v.File(), saved, d);
      }
      return Err(saved.error), d;
    }
    assert saved.value == ();
    KeysAfterSave(c, s, h, dek, file, v.State(), v.File(), saved, d);
    return Ok(v), d;
  }

  /** An empty vault always passes the preflight. */
  lemma NewbornFits(c: Suite, kek: Key, dek: Key, params: KdfParams, salt: Salt, wrapAlg: Algorithm, itemAlg: Algorithm)
    ensures Preflight(c, Newborn(kek, dek, params, salt, wrapAlg, itemAlg),
                      FreshHeader(CURRENT_VERSION, wrapAlg, itemAlg, params, salt), dek, []).Ok?
  {
  }

  /** A session that never saw a file cannot change one. */
  lemma NewbornNeverReplaces(c: Suite, s: Session, h: ParsedHeader, diskDek: Key, disk: Option<Bytes>,
                             s': Session, disk': Option<Bytes>, r: Result<()>, d: Draws)
    requires Lawful(c) && s.tag.None? && disk.Some? && SaveStep(c, s, h, diskDek, disk, s', disk', r, d)
    ensures disk' == disk
  {
    hide Preflight, Committed, ImageOf, Fitting;
  }

  /**
   `migrate_with_kdf`: opens every frame of the legacy file, then publishes a fresh
   vault at `target`, which must not exist. The source is only read.
   */
  method Migrate(c: Suite, fs: FileSystem, rng: Entropy, hasParent: bool, source: Name, target: Name, password: Bytes,
                 params: KdfParams, salt: Salt, newDek: Key)
    returns (r: Result<Vault>, ghost d: Draws)
    requires fs.Valid() && Lawful(c)
    modifies fs, rng
    ensures fs.Valid()
    ensures r.Ok? ==>
              && r.value.Valid() && r.value.path == target
              && old(fs.disk.Content(target)).None? && old(fs.disk.Content(source)).Some?
              && c.kdf(params, salt, password) == Ok(r.value.kek)
              && MigrateStep(c, old(fs.disk.Content(source)).value, password, r.value.kek, newDek, params, salt,
                             None, r.value.State(), fs.disk.Content(target), Ok(()), d)
    ensures old(fs.disk.Content(target)).Some? ==> fs.disk.Content(target) == old(fs.disk.Content(target))
    ensures r.Err? && fs.disk.Content(target) != old(fs.disk.Content(target)) ==>
              && old(fs.disk.Content(source)).Some? && c.kdf(params, salt, password).Ok?
              && exists s' ::
                   MigrateStep(c, old(fs.disk.Content(source)).value, password, c.kdf(params, salt, password).value,
                               newDek, params, salt, None, s', fs.disk.Content(target), Err(r.error), d)
    ensures r.Ok? && hasParent ==>
              fs.disk.Content(target).Some? && Durable(fs.disk, target, fs.disk.Content(target).value)
    ensures var (from, to) := (old(fs.disk.Content(source)), old(fs.disk.Content(target)));
            from.Some? && to.None? && Migratable(c, from.value, password, newDek, params, salt)
            && fs.works && target !in old(fs.locks) && old(NamesFree(fs.disk, target))
            && |old(rng.pool)| >= NONCE_LEN * (|OpenBytes(c, from.value, password, true).value.entries| + 3) + 16
            ==> r.Ok?
  {
    hide SaveStep, Durable, OpenBytes, FramesOf, Framing, ParseHeaderVersion, Migratable, MigrateStep, NamesFree;
    d := NoDraws(0);
    var lock := AcquireWriteLock(fs, target);
    if lock.Err? {
      return Err(lock.error), d;
    }
    ghost var from := fs.disk.Content(source);
    r, d := MigrateLocked(c, fs, rng, hasParent, source, target, password, params, salt, newDek);
    if r.Ok? {
      NothingToMigrate(c, password, r.value.kek, newDek, params, salt, None, r.value.State(), fs.disk.Content(target),
                       Ok(()), d);
      assert from != Some([]);
    } else if fs.disk.Content(target) != None && from.Some? && c.kdf(params, salt, password).Ok? {
      forall s' | MigrateStep(c, from.value, password, c.kdf(params, salt, password).value, newDek, params, salt,
                              None, s', fs.disk.Content(target), Err(r.error), d)
        ensures from != Some([])
      {
        NothingToMigrate(c, password, c.kdf(params, salt, password).value, newDek, params, salt, None, s',
                         fs.disk.Content(target), Err(r.error), d);
      }
    }
    ReleaseWriteLock(fs, target);
  }

  /** An empty file, such as a lock file just made, is no legacy vault. */
  lemma NothingToMigrate(c: Suite, password: Bytes, kek: Key, dek: Key, params: KdfParams, salt: Salt,
                         disk: Option<Bytes>, s': Session, disk': Option<Bytes>, r: Result<()>, d: Draws)
    requires Lawful(c)
    ensures !MigrateStep(c, [], password, kek, dek, params, salt, disk, s', disk', r, d)
  {
  }

  /** The migration proper, under the target's lock. */
  method MigrateLocked(c: Suite, fs: FileSystem, rng: Entropy, hasParent: bool, source: Name, target: Name,
                       password: Bytes,
                       params: KdfParams, salt: Salt, newDek: Key)
    returns (r: Result<Vault>, ghost d: Draws)
    requires fs.Valid() && Lawful(c)
    modifies fs`disk, fs`trace, rng
    ensures fs.Valid()
    ensures r.Ok? ==>
              && r.value.Valid() && r.value.path == target && fresh(r.value) && r.value.fs == fs
              && old(fs.disk.Content(target)).None? && old(fs.disk.Content(source)).Some?
              && c.kdf(params, salt, password) == Ok(r.value.kek)
              && MigrateStep(c, old(fs.disk.Content(source)).value, password, r.value.kek, newDek, params, salt,
                             None, r.value.State(), fs.disk.Content(target), Ok(()), d)
    ensures old(fs.disk.Content(target)).Some? ==> fs.disk.Content(target) == old(fs.disk.Content(target))
    ensures r.Err? && fs.disk.Content(target) != old(fs.disk.Content(target)) ==>
              && old(fs.disk.Content(source)).Some? && c.kdf(params, salt, password).Ok?
              && exists s' ::
                   MigrateStep(c, old(fs.disk.Content(source)).value, password, c.kdf(params, salt, password).value,
                               newDek, params, salt, None, s', fs.disk.Content(target), Err(r.error), d)
    ensures r.Ok? && hasParent ==>
              fs.disk.Content(target).Some? && Durable(fs.disk, target, fs.disk.Content(target).value)
    ensures var (from, to) := (old(fs.disk.Content(source)), old(fs.disk.Content(target)));
            from.Some? && to.None? && Migratable(c, from.value, password, newDek, params, salt)
            && fs.works && old(NamesFree(fs.disk, target))
            && |old(rng.pool)| >= NONCE_LEN * (|OpenBytes(c, from.value, password, true).value.entries| + 3) + 16
            ==> r.Ok?
  {
    hide MigrateStep, Durable, OpenBytes, SessionFrames, ParseHeaderVersion, EveryFrameOpens, LegacyRecords,
         NamesFree, Migratable;
    d := NoDraws(0);
    ghost var from := fs.disk.Content(source);
    ghost var ready := from.Some? && Migratable(c, from.value, password, newDek, params, salt);
    if ready {
      MigratableOpens(c, from.value, password, newDek, params, salt);
    }
    if fs.disk.Content(target).Some? {
      return Err(Encrypt), d;
    }
    var readable: bool :| fs.works ==> readable;
    if fs.disk.Content(source).None? || !readable || |fs.disk.Content(source).value| > MAX_VAULT_BYTES {
      return Err(Encrypt), d;
    }
    var raw := fs.disk.Content(source).value;
    var legacy := OpenLegacy(c, raw, password);
    if legacy.Err? {
      return Err(legacy.error), d;
    }
    r, d := PublishMigrated(c, fs, rng, hasParent, target, raw, password, legacy.value.0, legacy.value.1, params, salt,
                            newDek);
  }

  /** The legacy session and the records of all its entries; succeeds exactly when every frame opens. */
  method OpenLegacy(c: Suite, raw: Bytes, password: Bytes) returns (r: Result<(Session, seq<ItemRecord>)>)
    ensures r.Ok? <==> LegacyOpens(c, raw, password)
    ensures r.Ok? ==> OpenBytes(c, raw, password, true) == Ok(r.value.0)
                      && LegacyRecords(c, r.value.0, SessionFrames(raw, ParseLegacyHeader(raw).value, true).value,
                                       r.value.1)
  {
    hide OpenBytes, FramesOf, Framing, ParseHeaderVersion, EveryFrameOpens, OpenSlot;
    var opening := OpenSession(c, raw, password, true);
    if opening.Err? {
      return Err(opening.error);
    }
    var s := opening.value;
    var legacyHeader := ParseLegacyHeader(raw);
    if legacyHeader.Err? {
      return Err(legacyHeader.error);
    }
    var split, _ := SplitItemFrames(raw, legacyHeader.value.reserved[0] == FRAME_LAYOUT_V2, LEGACY_TRAILER_LEN);
    if split.Err? {
      return Err(Encrypt);
    }
    FramesMatchEntries(c, s.dek, s.config.itemAlg, s.config.version, s.entries, split.value);
    if |split.value| != |s.entries| {
      return Err(Encrypt);
    }
    var records := OpenEvery(c, s.dek, s.config.itemAlg, s.config.version, s.entries, split.value);
    if records.Err? {
      return Err(records.error);
    }
    assert LegacyRecords(c, s, split.value, records.value);
    return Ok((s, records.value));
  }

  /** The legacy file opens, and so does every frame of it. */
  ghost predicate LegacyOpens(c: Suite, raw: Bytes, password: Bytes) {
    && OpenBytes(c, raw, password, true).Ok? && ParseLegacyHeader(raw).Ok?
    && SessionFrames(raw, ParseLegacyHeader(raw).value, true).Ok?
    && var s := OpenBytes(c, raw, password, true).value;
       EveryFrameOpens(c, s.dek, s.config.itemAlg, s.config.version, s.entries,
                       SessionFrames(raw, ParseLegacyHeader(raw).value, true).value)
  }

  /** The new keys, the session over the opened records, and its first save. */
  method PublishMigrated(c: Suite, fs: FileSystem, rng: Entropy, hasParent: bool, target: Name, raw: Bytes,
                         password: Bytes,
                         s: Session, records: seq<ItemRecord>, params: KdfParams, salt: Salt, newDek: Key)
    returns (r: Result<Vault>, ghost d: Draws)
    requires fs.Valid() && Lawful(c) && fs.disk.Content(target).None?
    requires LegacyOpens(c, raw, password) && OpenBytes(c, raw, password, true) == Ok(s)
    requires LegacyRecords(c, s, SessionFrames(raw, ParseLegacyHeader(raw).value, true).value, records)
    modifies fs`disk, fs`trace, rng
    ensures fs.Valid()
    ensures r.Ok? ==>
              && r.value.Valid() && r.value.path == target && fresh(r.value) && r.value.fs == fs
              && c.kdf(params, salt, password) == Ok(r.value.kek)
              && MigrateStep(c, raw, password, r.value.kek, newDek, params, salt, None, r.value.State(),
                             fs.disk.Content(target), Ok(()), d)
    ensures r.Err? && fs.disk.Content(target) != None ==>
              && c.kdf(params, salt, password).Ok?
              && exists s' ::
                   MigrateStep(c, raw, password, c.kdf(params, salt, password).value, newDek, params, salt,
                               None, s', fs.disk.Content(target), Err(r.error), d)
    ensures r.Ok? && hasParent ==>
              fs.disk.Content(target).Some? && Durable(fs.disk, target, fs.disk.Content(target).value)
    ensures Migratable(c, raw, password, newDek, params, salt) && fs.works && old(NamesFree(fs.disk, target))
            && |old(rng.pool)| >= NONCE_LEN * (|s.entries| + 3) + 16
            ==> r.Ok?
  {
    hide SaveStep, Durable, OpenBytes, FramesOf, Framing, ParseHeaderVersion, LegacyRecords, NamesFree, Migratable,
         Migrated;
    d := NoDraws(0);
    ghost var ready := Migratable(c, raw, password, newDek, params, salt);
    if ready {
      MigratableOpens(c, raw, password, newDek, params, salt);
    }
    var kek := c.kdf(params, salt, password);
    if kek.Err? {
      return Err(kek.error), d;
    }
    assert |records| == |s.entries| by {
      OneRecordEach(c, s, SessionFrames(raw, ParseLegacyHeader(raw).value, true).value, records);
    }
    var s1 := Migrated(s, records, kek.value, newDek, params, salt);
    MigratedShape(s, records, kek.value, newDek, params, salt);
    var nonce := rng.Draw(NONCE_LEN);
    if nonce.Err? {
      return Err(nonce.error), d;
    }
    var v := new Vault(c, fs, rng, hasParent, target, s1);
    var h := FreshHeader(CURRENT_VERSION, s.config.wrapAlg, s.config.itemAlg, params, salt);
    ghost var sealed;
    var saved;
    saved, d, sealed := v.SaveWithHeaderLocked(h, newDek);
    if saved.Err? {
      if ready {
        MigratableFits(c, raw, password, newDek, params, salt, records);
      }
      assert v.File() != None ==>
               MigrateStep(c, raw, password, kek.value, newDek, params, salt, None, v.State(), v.File(),
                           Err(saved.error), d);
      return Err(saved.error), d;
    }
    assert saved.value == ();
    KeysAfterSave(c, s1, h, newDek, None, v.State(), v.File(), saved, d);
    return Ok(v), d;
  }

  lemma OneRecordEach(c: Suite, s: Session, frames: seq<Bytes>, records: seq<ItemRecord>)
    requires LegacyRecords(c, s, frames, records)
    ensures |records| == |s.entries|
  {
  }

  lemma MigratedShape(s: Session, records: seq<ItemRecord>, kek: Key, dek: Key, params: KdfParams, salt: Salt)
    requires |records| == |s.entries|
    ensures var t := Migrated(s, records, kek, dek, params, salt);
            t.kek == kek && t.dek == dek && t.tag == s.tag && t.entries == s.entries && t.nextId == s.nextId
  {
    hide CacheAll;
  }

  lemma MigratableOpens(c: Suite, raw: Bytes, password: Bytes, dek: Key, params: KdfParams, salt: Salt)
    requires Migratable(c, raw, password, dek, params, salt)
    ensures |raw| <= MAX_VAULT_BYTES && c.kdf(params, salt, password).Ok?
    ensures OpenBytes(c, raw, password, true).Ok? && ParseLegacyHeader(raw).Ok?
    ensures SessionFrames(raw, ParseLegacyHeader(raw).value, true).Ok?
    ensures var s := OpenBytes(c, raw, password, true).value;
            var frames := SessionFrames(raw, ParseLegacyHeader(raw).value, true).value;
            |frames| == |s.entries| && EveryFrameOpens(c, s.dek, s.config.itemAlg, s.config.version, s.entries, frames)
  {
    hide OpenBytes, Preflight, OpenSlot, ParseHeaderVersion, SessionFrames;
  }

  lemma MigratableFits(c: Suite, raw: Bytes, password: Bytes, dek: Key, params: KdfParams, salt: Salt,
                       records: seq<ItemRecord>)
    requires Migratable(c, raw, password, dek, params, salt)
    requires OpenBytes(c, raw, password, true).Ok?
    requires LegacyRecords(c, OpenBytes(c, raw, password, true).value,
                           SessionFrames(raw, ParseLegacyHeader(raw).value, true).value, records)
    ensures var s := OpenBytes(c, raw, password, true).value;
            Preflight(c, Migrated(s, records, c.kdf(params, salt, password).value, dek, params, salt),
                      FreshHeader(CURRENT_VERSION, s.config.wrapAlg, s.config.itemAlg, params, salt), dek, []).Ok?
  {
    hide OpenBytes, Preflight, ParseHeaderVersion, SessionFrames, EveryFrameOpens, OpenSlot, CacheAll;
    var s := OpenBytes(c, raw, password, true).value;
    var frames := SessionFrames(raw, ParseLegacyHeader(raw).value, true).value;
    var others :| LegacyRecords(c, s, frames, others)
                  && Preflight(c, Migrated(s, others, c.kdf(params, salt, password).value, dek, params, salt),
                               FreshHeader(CURRENT_VERSION, s.config.wrapAlg, s.config.itemAlg, params, salt), dek,
                                 []).Ok?;
    LegacyRecordsUnique(c, s, frames, records, others);
  }
}
