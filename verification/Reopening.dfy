/** Opening with the password what an operation wrote gives its session back. */
module Reopening {
  import opened Prelude
  import opened Crypto
  import opened Header
  import opened Shape
  import opened Frames
  import opened Image
  import opened SaveProof
  import opened Steps
  import opened Acceptance
  import opened Preservation

  lemma {:induction false} SameIdsSameMax(a: seq<IndexEntry>, b: seq<IndexEntry>)
    requires |a| == |b| > 0 && forall i :: 0 <= i < |a| ==> a[i].itemId == b[i].itemId
    ensures MaxId(a) == MaxId(b)
  {
    if |a| > 1 {
      SameIdsSameMax(a[..|a| - 1], b[..|b| - 1]);
    }
  }

  /** The next id depends on the ids only. */
  lemma {:induction false} SameIdsSameNext(a: seq<IndexEntry>, b: seq<IndexEntry>)
    requires |a| == |b| && forall i :: 0 <= i < |a| ==> a[i].itemId == b[i].itemId
    ensures NextIdAfter(a) == NextIdAfter(b)
  {
    hide MaxId;
    if a != [] {
      SameIdsSameMax(a, b);
    } else {
      assert b == [];
    }
  }

  lemma UnwrapsAgain(c: Suite, s: Session, header: ParsedHeader, p: Plan, d: Draws, password: Bytes)
    requires Lawful(c) && Fitting(p, d) && AlgorithmFromId(header.wrapAlgId) == Ok(p.wrapAlg)
    requires header.params.PolicyOk() && c.kdf(header.params, header.salt, password) == Ok(s.kek)
    ensures UnwrapDek(c, FinalHeader(c, s, header, p, d), password) == Ok((s.kek, s.dek))
  {
    hide AadBytes;
    WrappedKeyOpens(c, s, header, p, d);
  }

  /** The new image, opened with the password its wrapping key was derived from. */
  lemma ImageReopens(c: Suite, s: Session, header: ParsedHeader, diskDek: Key, disk: Bytes, p: Plan, d: Draws,
                     password: Bytes)
    requires Lawful(c) && Preflight(c, s, header, diskDek, disk) == Ok(p) && Fitting(p, d)
    requires header.version == CURRENT_VERSION && header.pad == ZERO_PAD
    requires CopiesReadable(p, header, s.dek, diskDek, disk)
    requires header.params.PolicyOk() && c.kdf(header.params, header.salt, password) == Ok(s.kek)
    requires NextIdAfter(s.entries).Ok?
    ensures OpenBytes(c, ImageOf(c, s, header, p, d), password, false)
         == Ok(Session(Config(CURRENT_VERSION, p.wrapAlg, p.itemAlg, header.params, header.salt, p.counter),
                       s.kek, s.dek, NormAll(p.entries), map[], NextIdAfter(s.entries).value,
                       Some(TagOf(c, s, header, p, d))))
  {
    hide Preflight, ReadIndex, FramesOf, NewFrames, AllFrames, RecordFor, OldItems, DecryptFrame, Authenticate,
         ParseHeaderVersion, UnwrapDek, NextIdAfter, Saved, ImageOf, TagOf, ParseIndex, SerializeIndex,
         CopiesReadable;
    PlanShape(c, s, header, diskDek, disk, p);
    var img := ImageOf(c, s, header, p, d);
    ImageIsSaved(c, s, header, p, d);
    SavedHeader(c, img, s, header, p, d);
    SavedAuthenticates(c, img, s, header, p, d);
    SavedIndex(c, img, s, header, p, d);
    IndexRoundTrip(p.indexPt, p.entries);
    AllNewFrames(c, s, header, diskDek, disk, p, d);
    SavedFrames(c, img, s, header, p, d);
    UnwrapsAgain(c, s, header, p, d, password);
    SameIdsSameNext(NormAll(p.entries), s.entries);
  }

  /**
   Save, then open with the password: the session as it is after the save, with an empty
   cache, normalised states and the next id computed from the entries.
   */
  lemma SaveReopens(c: Suite, s: Session, header: ParsedHeader, diskDek: Key, disk: Option<Bytes>,
                    s': Session, disk': Option<Bytes>, d: Draws, password: Bytes)
    requires Lawful(c) && SaveStep(c, s, header, diskDek, disk, s', disk', Ok(()), d)
    requires header.version == CURRENT_VERSION && header.pad == ZERO_PAD
    requires CopiesReadable(Preflight(c, s, header, diskDek, BytesOf(disk)).value, header, s.dek, diskDek,
                            BytesOf(disk))
    requires header.params.PolicyOk() && c.kdf(header.params, header.salt, password) == Ok(s.kek)
    requires NextIdAfter(s.entries).Ok?
    requires s.config.version == CURRENT_VERSION && s.config.params == header.params && s.config.salt == header.salt
    requires AlgorithmFromId(header.wrapAlgId) == Ok(s.config.wrapAlg)
             && AlgorithmFromId(header.itemAlgId) == Ok(s.config.itemAlg)
    ensures disk'.Some?
    ensures OpenBytes(c, disk'.value, password, false)
         == Ok(s'.(entries := NormAll(s'.entries), cache := map[], nextId := NextIdAfter(s.entries).value))
  {
    hide Preflight, ImageOf, TagOf, Fitting, CopiesReadable, OpenBytes, NextIdAfter, Remap;
    var p := Preflight(c, s, header, diskDek, BytesOf(disk)).value;
    PlanShape(c, s, header, diskDek, BytesOf(disk), p);
    ImageReopens(c, s, header, diskDek, BytesOf(disk), p, d, password);
  }

  /**
   After a password change the new password opens the file, to the same data key and the
   meaning the session had; the entries and the data key do not change.
   */
  lemma PasswordChanges(c: Suite, s: Session, kek: Key, params: KdfParams, salt: Salt, disk: Option<Bytes>,
                        s': Session, disk': Option<Bytes>, d: Draws, password: Bytes)
    requires Lawful(c) && PasswordStep(c, s, kek, params, salt, disk, s', disk', Ok(()), d)
    requires params.PolicyOk() && c.kdf(params, salt, password) == Ok(kek) && NextIdAfter(s.entries).Ok?
    ensures disk.Some? && disk'.Some? && s'.kek == kek && s'.dek == s.dek
    ensures s'.config.params == params && s'.config.salt == salt
    ensures Contents(c, disk'.value, s.dek) == Ok(Meaning(s.cache, s.entries, OldItems(c, disk.value, s.dek)))
    ensures var r := OpenBytes(c, disk'.value, password, false);
            && r.Ok? && r.value.kek == kek && r.value.dek == s.dek && r.value.entries == NormAll(s'.entries)
            && r.value.nextId == NextIdAfter(s.entries).value && r.value.tag == s'.tag
            && r.value.config.params == params && r.value.config.salt == salt
  {
    hide Preflight, ImageOf, TagOf, Fitting, CopiesReadable, OpenBytes, NextIdAfter, Remap, Contents, OldItems,
         ParseHeaderVersion, CacheCoherent;
    var s1 := s.(kek := kek, config := s.config.(params := params, salt := salt));
    VersionIsCurrent(disk.value);
    var h := PasswordHeader(ParseHeader(disk.value).value, params, salt);
    var p := Preflight(c, s1, h, s.dek, disk.value).value;
    PlanShape(c, s1, h, s.dek, disk.value, p);
    CopiesUnderSameKey(p, disk.value, params, salt, s.dek);
    SavePublishesMeaning(c, s1, h, s.dek, disk, s', disk', d);
    ImageReopens(c, s1, h, s.dek, disk.value, p, d, password);
  }

  lemma CopiesUnderSameKey(p: Plan, disk: Bytes, params: KdfParams, salt: Salt, dek: Key)
    requires ParseHeader(disk).Ok?
    ensures CopiesReadable(p, PasswordHeader(ParseHeader(disk).value, params, salt), dek, dek, disk)
  {
    hide ParseHeaderVersion;
  }

  lemma SavedSession(c: Suite, s: Session, header: ParsedHeader, diskDek: Key, disk: Option<Bytes>,
                     s': Session, disk': Option<Bytes>, d: Draws)
    requires Lawful(c) && SaveStep(c, s, header, diskDek, disk, s', disk', Ok(()), d)
    ensures |s.entries| <= U32_MAX && s'.entries == Renumber(s.entries)
    ensures s' == s.(entries := s'.entries, cache := s'.cache, config := s.config.(encCounter := s'.config.encCounter),
                     tag := s'.tag)
    ensures s'.config.encCounter == header.encCounter + FreshCount(s.cache, s.entries) + 1
  {
    hide Preflight, ImageOf, TagOf, Fitting, Remap, FreshCount;
    PlanShape(c, s, header, diskDek, BytesOf(disk), Preflight(c, s, header, diskDek, BytesOf(disk)).value);
  }

  /** A session saved under a new key, with nothing to copy, reopens under that key. */
  lemma NewKeyReopens(c: Suite, s: Session, diskDek: Key, disk: Option<Bytes>, s': Session, disk': Option<Bytes>,
                      d: Draws, password: Bytes)
    requires Lawful(c) && s.config.version == CURRENT_VERSION && NextIdAfter(s.entries).Ok?
    requires SaveStep(c, s, FreshHeader(CURRENT_VERSION, s.config.wrapAlg, s.config.itemAlg, s.config.params,
                                        s.config.salt), diskDek, disk, s', disk', Ok(()), d)
    requires forall e :: e in s.entries ==> Dead(e.state) || e.slot in s.cache
    requires s.config.params.PolicyOk() && c.kdf(s.config.params, s.config.salt, password) == Ok(s.kek)
    ensures disk'.Some? && |s.entries| <= U32_MAX
    ensures s'.config.encCounter == FreshCount(s.cache, s.entries) + 1
    ensures OpenBytes(c, disk'.value, password, false)
         == Ok(Session(s.config.(encCounter := s'.config.encCounter), s.kek, s.dek, NormAll(Renumber(s.entries)), map[],
                       NextIdAfter(s.entries).value, s'.tag))
  {
    hide SaveStep, Preflight, OpenBytes, NextIdAfter, FreshCount, CopiesReadable;
    var header := FreshHeader(CURRENT_VERSION, s.config.wrapAlg, s.config.itemAlg, s.config.params, s.config.salt);
    PreflightOfSave(c, s, header, diskDek, disk, s', disk', d);
    NothingToCopy(c, s, header, diskDek, BytesOf(disk), Preflight(c, s, header, diskDek, BytesOf(disk)).value);
    SaveReopens(c, s, header, diskDek, disk, s', disk', d, password);
    SavedSession(c, s, header, diskDek, disk, s', disk', d);
  }

  lemma SnapshotCaches(c: Suite, s: Session, snap: Bytes)
    requires Snapshot(c, s, snap).Ok? && IndexIsCurrent(c, s, snap)
    ensures forall e :: e in s.entries ==> Dead(e.state) || e.slot in Snapshot(c, s, snap).value
  {
    hide Snapshot, IndexIsCurrent, Contents, SameMetadata;
    RotationSnapshot(c, s, snap);
    forall e | e in s.entries
      ensures Dead(e.state) || e.slot in Snapshot(c, s, snap).value
    {
      var i :| 0 <= i < |s.entries| && s.entries[i] == e;
    }
  }

  /** After a rotation the password opens the file under the new keys and parameters, with the entries as they were. */
  lemma RotationReopens(c: Suite, s: Session, kek: Key, dek: Key, params: KdfParams, salt: Salt, snap: Bytes,
                        disk: Option<Bytes>, s': Session, disk': Option<Bytes>, d: Draws, password: Bytes)
    requires Lawful(c) && RotateStep(c, s, kek, dek, params, salt, snap, disk, s', disk', Ok(()), d)
    requires IndexIsCurrent(c, s, snap) && NextIdAfter(s.entries).Ok?
    requires params.PolicyOk() && c.kdf(params, salt, password) == Ok(kek)
    ensures disk'.Some? && |s.entries| <= U32_MAX
    ensures OpenBytes(c, disk'.value, password, false)
         == Ok(Session(Config(2, s.config.wrapAlg, s.config.itemAlg, params, salt, s'.config.encCounter), kek, dek,
                       NormAll(Renumber(s.entries)), map[], NextIdAfter(s.entries).value, s'.tag))
  {
    hide SaveStep, OpenBytes, NextIdAfter, Snapshot, ReadIndex, ParseHeaderVersion, FreshHeader, FreshCount;
    SnapshotCaches(c, s, snap);
    NewKeyReopens(c, Rekeyed(s.(cache := s.cache + Snapshot(c, s, snap).value), kek, dek, params, salt), s.dek, disk,
                  s', disk', d, password);
  }

  /** A created file opens with its password to an empty vault whose first id will be 1. */
  lemma CreationReopens(c: Suite, kek: Key, dek: Key, params: KdfParams, salt: Salt, wrapAlg: Algorithm,
                        itemAlg: Algorithm, s': Session, disk': Option<Bytes>, d: Draws, password: Bytes)
    requires Lawful(c) && params.PolicyOk() && c.kdf(params, salt, password) == Ok(kek)
    requires SaveStep(c, Newborn(kek, dek, params, salt, wrapAlg, itemAlg),
                      FreshHeader(CURRENT_VERSION, wrapAlg, itemAlg, params, salt), dek, None, s', disk', Ok(()), d)
    ensures disk'.Some?
    ensures OpenBytes(c, disk'.value, password, false)
         == Ok(Session(Config(2, wrapAlg, itemAlg, params, salt, 1), kek, dek, [], map[], 1, s'.tag))
  {
    hide SaveStep, OpenBytes, FreshHeader;
    var s := Newborn(kek, dek, params, salt, wrapAlg, itemAlg);
    NewKeyReopens(c, s, dek, None, s', disk', d, password);
    assert NormAll(Renumber(s.entries)) == [];
  }

  /** The save of a migration, reopened. */
  lemma MigratedReopens(c: Suite, s: Session, records: seq<ItemRecord>, kek: Key, dek: Key, params: KdfParams,
                        salt: Salt, disk: Option<Bytes>, s': Session, disk': Option<Bytes>, d: Draws, password: Bytes)
    requires Lawful(c) && |records| == |s.entries| && NextIdAfter(s.entries) == Ok(s.nextId)
    requires SaveStep(c, Migrated(s, records, kek, dek, params, salt),
                      FreshHeader(CURRENT_VERSION, s.config.wrapAlg, s.config.itemAlg, params, salt),
                      dek, disk, s', disk', Ok(()), d)
    requires params.PolicyOk() && c.kdf(params, salt, password) == Ok(kek)
    requires forall e :: e in s.entries ==> Norm(e) == e
    ensures disk'.Some? && |s.entries| <= U32_MAX
    ensures OpenBytes(c, disk'.value, password, false)
         == Ok(Session(Config(2, s.config.wrapAlg, s.config.itemAlg, params, salt, s'.config.encCounter), kek, dek,
                       Renumber(s.entries), map[], s.nextId, s'.tag))
  {
    hide SaveStep, OpenBytes, NextIdAfter, CacheAll, FreshHeader, FreshCount, Norm;
    assert forall e :: e in s.entries ==> e.slot in CacheAll(s.entries, records).Keys;
    NewKeyReopens(c, Migrated(s, records, kek, dek, params, salt), dek, disk, s', disk', d, password);
    NormalStays(s.entries);
  }

  lemma NormalStays(es: seq<IndexEntry>)
    requires |es| <= U32_MAX && forall e :: e in es ==> Norm(e) == e
    ensures NormAll(Renumber(es)) == Renumber(es)
  {
    assert forall i :: 0 <= i < |es| ==> es[i] in es;
  }

  /** A migrated file opens with the password as a current one: new keys and parameters, the legacy entries. */
  lemma MigrationReopens(c: Suite, raw: Bytes, password: Bytes, kek: Key, dek: Key, params: KdfParams, salt: Salt,
                         disk: Option<Bytes>, s': Session, disk': Option<Bytes>, d: Draws)
    requires Lawful(c) && MigrateStep(c, raw, password, kek, dek, params, salt, disk, s', disk', Ok(()), d)
    requires params.PolicyOk() && c.kdf(params, salt, password) == Ok(kek)
    ensures disk'.Some? && OpenBytes(c, raw, password, true).Ok?
    ensures var s := OpenBytes(c, raw, password, true).value;
            && |s.entries| <= U32_MAX
            && OpenBytes(c, disk'.value, password, false)
            == Ok(Session(Config(2, s.config.wrapAlg, s.config.itemAlg, params, salt, s'.config.encCounter), kek, dek,
                          Renumber(s.entries), map[], s.nextId, s'.tag))
  {
    hide SaveStep, OpenBytes, NextIdAfter, SessionFrames, EveryFrameOpens, OpenSlot, ParseHeaderVersion, Migrated,
         FreshHeader, Renumber, NormAll, Norm;
    var s := OpenBytes(c, raw, password, true).value;
    var records :|
      && LegacyRecords(c, s, SessionFrames(raw, ParseLegacyHeader(raw).value, true).value, records)
      && SaveStep(c, Migrated(s, records, kek, dek, params, salt),
                  FreshHeader(CURRENT_VERSION, s.config.wrapAlg, s.config.itemAlg, params, salt),
                  dek, disk, s', disk', Ok(()), d);
    LegacyStates(c, raw, password);
    MigratedReopens(c, s, records, kek, dek, params, salt, disk, s', disk', d, password);
  }

  // ------------------------------------------------------------- what opening checks

  /** What opens is authentic and current to its session, was opened with its password, and reads entry by entry. */
  lemma OpenedChecks(c: Suite, raw: Bytes, password: Bytes)
    requires OpenBytes(c, raw, password, false).Ok?
    ensures var s := OpenBytes(c, raw, password, false).value;
            && Current(c, raw, s.dek, s.tag) && s.cache == map[]
            && c.kdf(s.config.params, s.config.salt, password) == Ok(s.kek)
            && 8 <= s.config.params.mMib <= 1024 && 1 <= s.config.params.t <= 64 && 1 <= s.config.params.p <= 8
            && s.config.params.mMib * s.config.params.t <= 8192 && |FramesIn(raw)| == |s.entries|
            && (forall e :: e in s.entries ==> e.itemId < s.nextId)
            && Contents(c, raw, s.dek).Ok? && |Contents(c, raw, s.dek).value| == |s.entries|
            && forall i :: 0 <= i < |s.entries| ==>
                 && Contents(c, raw, s.dek).value[i].id == s.entries[i].itemId
                 && Contents(c, raw, s.dek).value[i].state == s.entries[i].state
                 && Contents(c, raw, s.dek).value[i].title == s.entries[i].title
                 && Contents(c, raw, s.dek).value[i].username == s.entries[i].username
  {
    hide ReadIndex, FramesOf, ParseHeaderVersion, Current, NextIdAfter, OpenSlot, Authenticate, Unseal;
    var s := OpenBytes(c, raw, password, false).value;
    CurrentIff(c, raw, s.dek, s.tag);
    NextIdIff(s.entries);
  }

  lemma LegacyLong(raw: Bytes)
    requires ParseLegacyHeader(raw).Ok?
    ensures |raw| >= HEADER_LEN
  {
  }

  /** A legacy file that opens has the checksum of its body before the last eight bytes, and ids below the next one. */
  lemma LegacyOpenedChecks(c: Suite, raw: Bytes, password: Bytes)
    requires OpenBytes(c, raw, password, true).Ok?
    ensures |raw| >= 117 && BE32(c.crc(raw[..|raw| - 8])) == raw[|raw| - 4..]
    ensures var s := OpenBytes(c, raw, password, true).value;
            && s.tag == None && s.cache == map[] && c.kdf(s.config.params, s.config.salt, password) == Ok(s.kek)
            && forall e :: e in s.entries ==> e.itemId < s.nextId
  {
    hide ReadIndex, FramesOf, ParseHeaderVersion, NextIdAfter, BE, Unseal;
    LegacyLong(raw);
    var s := OpenBytes(c, raw, password, true).value;
    NextIdIff(s.entries);
    CrcBytes(c.crc(raw[..|raw| - 8]), raw[|raw| - 4..]);
  }
}
