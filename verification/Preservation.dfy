/**
 What the operations preserve: the meaning of the file, the cache, and the session
 itself when something fails.
 */
module Preservation {
  import opened Prelude
  import opened Crypto
  import opened Header
  import opened Shape
  import opened Frames
  import opened Image
  import opened SaveProof
  import opened Steps

  // ------------------------------------------------------ every successful save

  /**
   After a successful save the file holds the session's meaning, and every cached record
   is what the committed frame at its new slot opens to.
   */
  lemma SavePublishesMeaning(c: Suite, s: Session, header: ParsedHeader, diskDek: Key, disk: Option<Bytes>,
                             s': Session, disk': Option<Bytes>, d: Draws)
    requires Lawful(c) && SaveStep(c, s, header, diskDek, disk, s', disk', Ok(()), d)
    requires header.version == CURRENT_VERSION && header.pad == ZERO_PAD
    requires CopiesReadable(Preflight(c, s, header, diskDek, BytesOf(disk)).value, header, s.dek, diskDek,
                            BytesOf(disk))
    ensures disk'.Some?
    ensures Contents(c, disk'.value, s.dek) == Ok(Meaning(s.cache, s.entries, OldItems(c, BytesOf(disk), diskDek)))
    ensures CacheCoherent(c, s', disk'.value, s.dek)
  {
    hide Preflight, ImageOf, TagOf, Fitting, Contents, OldItems, RecordFor, CopiesReadable;
    var p := Preflight(c, s, header, diskDek, BytesOf(disk)).value;
    PlanShape(c, s, header, diskDek, BytesOf(disk), p);
    FittingDraws(p, d);
    SaveRefines(c, s, header, diskDek, BytesOf(disk), p, d);
    var items := Meaning(s.cache, s.entries, OldItems(c, BytesOf(disk), diskDek));
    forall slot | slot in s'.cache
      ensures slot < |items| && items[slot].record == Ok(s'.cache[slot])
    {
      CachedRecord(s.cache, OldItems(c, BytesOf(disk), diskDek), s.entries[slot]);
    }
  }

  lemma FittingDraws(p: Plan, d: Draws)
    requires Fitting(p, d)
    ensures |d.items| == |p.entries|
  {
  }

  lemma CachedRecord(cache: map<u32, ItemRecord>, oldItems: seq<Item>, e: IndexEntry)
    requires e.slot in cache
    ensures RecordFor(cache, oldItems, e) == Ok(cache[e.slot])
  {
  }

  /** Every cached record is the record the file holds at that slot. */
  ghost predicate CacheCoherent(c: Suite, s: Session, raw: Bytes, dek: Key) {
    && Contents(c, raw, dek).Ok?
    && forall slot :: slot in s.cache ==>
         slot < |Contents(c, raw, dek).value| && Contents(c, raw, dek).value[slot].record == Ok(s.cache[slot])
  }

  /** Renumbering neither drops nor merges a cached record: it is a bijection that carries each record along. */
  lemma RemapIsABijection(cache: map<u32, ItemRecord>, es: seq<IndexEntry>)
    requires |es| <= U32_MAX && SlotsDistinct(es)
    requires forall slot :: slot in cache ==> exists i :: 0 <= i < |es| && es[i].slot == slot
    ensures var moved := Remap(cache, es);
            && (forall i :: i in moved ==> i < |es| && es[i].slot in cache && moved[i] == cache[es[i].slot])
            && (forall slot :: slot in cache ==> exists i: u32 :: i in moved && es[i].slot == slot)
            && |moved| == |cache|
  {
    var moved := Remap(cache, es);
    forall slot | slot in cache
      ensures exists i: u32 :: i in moved && es[i].slot == slot
    {
      var i :| 0 <= i < |es| && es[i].slot == slot;
      var k: u32 := i;
      assert k in moved && es[k].slot == slot;
    }
    SlotsCounted(moved.Keys, es, cache.Keys);
  }

  /** An injective image has as many elements. */
  lemma {:induction false} SlotsCounted(from: set<u32>, es: seq<IndexEntry>, onto: set<u32>)
    requires SlotsDistinct(es) && forall i :: i in from ==> i < |es| && es[i].slot in onto
    requires forall slot :: slot in onto ==> exists i: u32 :: i in from && es[i].slot == slot
    ensures |from| == |onto|
  {
    if from == {} {
      assert onto == {};
    } else {
      var i :| i in from;
      var (f, o) := (from - {i}, onto - {es[i].slot});
      forall k | k in f
        ensures es[k].slot in o
      {
        if k < i {
          assert es[k].slot != es[i].slot;
        } else {
          assert es[i].slot != es[k].slot;
        }
      }
      forall slot | slot in o
        ensures exists k: u32 :: k in f && es[k].slot == slot
      {
        var k: u32 :| k in from && es[k].slot == slot;
        assert k in f;
      }
      SlotsCounted(f, es, o);
    }
  }

  /** `save` always copies under the key and algorithm the file was written with. */
  lemma PlainSaveCopies(p: Plan, disk: Bytes, dek: Key)
    requires ParseHeader(disk).Ok?
    ensures CopiesReadable(p, ParseHeader(disk).value, dek, dek, disk)
    ensures ParseHeader(disk).value.version == CURRENT_VERSION && ParseHeader(disk).value.pad == ZERO_PAD
  {
  }

  lemma PlainSavePublishes(c: Suite, s: Session, disk: Option<Bytes>, s': Session, disk': Option<Bytes>, d: Draws)
    requires Lawful(c) && PlainSave(c, s, disk, s', disk', Ok(()), d)
    ensures disk.Some? && disk'.Some?
    ensures Contents(c, disk'.value, s.dek) == Ok(Meaning(s.cache, s.entries, OldItems(c, disk.value, s.dek)))
    ensures CacheCoherent(c, s', disk'.value, s.dek)
  {
    hide SaveStep, CopiesReadable, Contents, CacheCoherent, OldItems;
    PreflightOfSave(c, s, ParseHeader(disk.value).value, s.dek, disk, s', disk', d);
    PlainSaveCopies(Preflight(c, s, ParseHeader(disk.value).value, s.dek, disk.value).value, disk.value, s.dek);
    SavePublishesMeaning(c, s, ParseHeader(disk.value).value, s.dek, disk, s', disk', d);
  }

  /**
   A record kept in a tombstone's frame, as a migration leaves it, survives the next save if
   and only if it is cached or was the empty placeholder anyway.
   */
  lemma TombstoneRecordKeptIff(c: Suite, s: Session, disk: Option<Bytes>, s': Session, disk': Option<Bytes>, d: Draws,
                               i: nat)
    requires Lawful(c) && PlainSave(c, s, disk, s', disk', Ok(()), d)
    requires i < |s.entries| && Dead(s.entries[i].state)
    requires disk.Some? && Lookup(OldItems(c, disk.value, s.dek), s.entries[i].itemId).Ok?
    requires var e := s.entries[i]; e.slot in s.cache ==>
               Ok(s.cache[e.slot]) == Lookup(OldItems(c, disk.value, s.dek), e.itemId)
    ensures disk'.Some? && Contents(c, disk'.value, s.dek).Ok? && |Contents(c, disk'.value, s.dek).value| == |s.entries|
    ensures var (e, now) := (s.entries[i], Contents(c, disk'.value, s.dek).value[i].record);
            var was := Lookup(OldItems(c, disk.value, s.dek), e.itemId);
            now == was <==> e.slot in s.cache || was == Ok(PLACEHOLDER)
  {
    hide PlainSave, Contents, OldItems, Lookup, CacheCoherent;
    PlainSavePublishes(c, s, disk, s', disk', d);
  }

  /**
   So a record that a migration keeps in a tombstone's frame is in the new file, and gone at the first
   ordinary save of the session that a reopening gives, unless it was the placeholder all along.
   */
  lemma MigratedTombstoneLost(c: Suite, raw: Bytes, password: Bytes, kek: Key, dek: Key, params: KdfParams, salt: Salt,
                              disk: Option<Bytes>, s1: Session, disk1: Option<Bytes>, d1: Draws,
                              s2: Session, s3: Session, disk2: Option<Bytes>, d2: Draws, i: nat)
    requires Lawful(c) && MigrateStep(c, raw, password, kek, dek, params, salt, disk, s1, disk1, Ok(()), d1)
    requires s2.dek == dek && s2.cache == map[] && i < |s2.entries| && Dead(s2.entries[i].state)
    requires PlainSave(c, s2, disk1, s3, disk2, Ok(()), d2)
    requires var was := LegacyContents(c, raw, OpenBytes(c, raw, password, true).value); was.Ok? && i < |was.value|
    ensures disk1.Some? && disk2.Some? && Contents(c, disk1.value, dek).Ok? && Contents(c, disk2.value, dek).Ok?
    ensures var was := LegacyContents(c, raw, OpenBytes(c, raw, password, true).value).value;
            var (kept, now) := (Contents(c, disk1.value, dek).value, Contents(c, disk2.value, dek).value);
            && i < |kept| && i < |now|
            && kept[i].record == was[i].record && now[i].record == Ok(PLACEHOLDER)
  {
    hide PlainSave, MigrateStep, Contents, OldItems, CacheCoherent, LegacyContents, OpenBytes, NextIdAfter;
    MigrationPreserves(c, raw, password, kek, dek, params, salt, disk, s1, disk1, d1);
    PlainSavePublishes(c, s2, disk1, s3, disk2, d2);
  }

  lemma PreflightOfSave(c: Suite, s: Session, header: ParsedHeader, diskDek: Key, disk: Option<Bytes>,
                        s': Session, disk': Option<Bytes>, d: Draws)
    requires Lawful(c) && SaveStep(c, s, header, diskDek, disk, s', disk', Ok(()), d)
    ensures Preflight(c, s, header, diskDek, BytesOf(disk)).Ok?
  {
    hide Preflight;
  }

  // ------------------------------------------------------------------- rotation

  /** A snapshot's records: every live entry's, as the file holds it. */
  lemma {:induction false} LiveRecordsHold(c: Suite, s: Session, frames: seq<Bytes>, es: seq<IndexEntry>, i: nat)
    requires LiveRecords(c, s, frames, es).Ok? && SlotsDistinct(es) && i < |es| && es[i].state == LIVE
    ensures var live := LiveRecords(c, s, frames, es).value;
            es[i].slot in live
            && OpenSlot(c, s.dek, s.config.itemAlg, s.config.version, frames, es[i].slot, es[i].itemId)
              == Ok(live[es[i].slot])
  {
    hide OpenSlot;
    if i < |es| - 1 {
      LiveRecordsHold(c, s, frames, es[..|es| - 1], i);
    }
  }

  /** With every live entry cached there is nothing to copy: no frame of the old key is carried over. */
  lemma NothingToCopy(c: Suite, s: Session, header: ParsedHeader, diskDek: Key, disk: Bytes, p: Plan)
    requires Preflight(c, s, header, diskDek, disk) == Ok(p)
    requires forall e :: e in s.entries ==> Dead(e.state) || e.slot in s.cache
    ensures forall i :: 0 <= i < |p.sources| ==> p.sources[i].Seal?
    ensures CopiesReadable(p, header, s.dek, diskDek, disk)
  {
    hide Preflight, OldFile;
    PlanShape(c, s, header, diskDek, disk, p);
    forall i | 0 <= i < |p.sources|
      ensures p.sources[i].Seal?
    {
      PlanSource(c, s, header, diskDek, disk, p, i);
      assert s.entries[i] in s.entries;
    }
  }

  /** The session's entries are the index of the file it last saw. */
  ghost predicate IndexIsCurrent(c: Suite, s: Session, raw: Bytes) {
    && ParseHeader(raw).Ok?
    && s.config.version == CURRENT_VERSION
    && AlgorithmFromId(ParseHeader(raw).value.itemAlgId) == Ok(s.config.itemAlg)
    && ReadIndex(c, raw, CURRENT_VERSION, s.dek, s.config.itemAlg) == Ok(s.entries)
    && SlotsDistinct(s.entries)
  }

  lemma StatesNormalised(c: Suite, raw: Bytes, version: byte, dek: Key, alg: Algorithm)
    ensures var r := ReadIndex(c, raw, version, dek, alg);
            r.Ok? ==> forall e :: e in r.value ==> Norm(e) == e && (Dead(e.state) || e.state == LIVE)
  {
    hide ParseRaw;
  }

  /** Same id, state, title and username. */
  ghost predicate SameMetadata(a: Item, b: Item) {
    a.id == b.id && a.state == b.state && a.title == b.title && a.username == b.username
  }

  lemma RotationSnapshot(c: Suite, s: Session, snap: Bytes)
    requires Snapshot(c, s, snap).Ok? && IndexIsCurrent(c, s, snap)
    ensures Contents(c, snap, s.dek).Ok? && |Contents(c, snap, s.dek).value| == |s.entries|
    ensures var (live, items) := (Snapshot(c, s, snap).value, Contents(c, snap, s.dek).value);
            forall i :: 0 <= i < |s.entries| ==>
              && SameMetadata(items[i], Item(s.entries[i].itemId, Norm(s.entries[i]).state, s.entries[i].title,
                                             s.entries[i].username, items[i].record))
              && (Dead(s.entries[i].state) || s.entries[i].state == LIVE)
              && (s.entries[i].state == LIVE ==>
                  s.entries[i].slot in live && items[i].record == Ok(live[s.entries[i].slot]))
  {
    hide OpenSlot, LiveRecords, ReadIndex, FramesOf, AuthenticateCurrent, ParseHeaderVersion;
    VersionIsCurrent(snap);
    StatesNormalised(c, snap, CURRENT_VERSION, s.dek, s.config.itemAlg);
    var frames := FramesOf(snap, true, TRAILER_LEN).value;
    var items := Contents(c, snap, s.dek).value;
    assert items == Items(c, s.dek, s.config.itemAlg, CURRENT_VERSION, s.entries, frames);
    forall i | 0 <= i < |s.entries| && s.entries[i].state == LIVE
      ensures s.entries[i].slot in Snapshot(c, s, snap).value
      ensures items[i].record == Ok(Snapshot(c, s, snap).value[s.entries[i].slot])
    {
      LiveRecordsHold(c, s, frames, s.entries, i);
    }
    assert forall i :: 0 <= i < |s.entries| ==> s.entries[i] in s.entries;
  }

  /**
   Rotation preserves meaning: under the new key every item has the metadata it had, and
   every live item the record it had. Every frame was sealed afresh.
   */
  lemma RotationPreserves(c: Suite, s: Session, kek: Key, dek: Key, params: KdfParams, salt: Salt, snap: Bytes,
                          disk: Option<Bytes>, s': Session, disk': Option<Bytes>, d: Draws)
    requires Lawful(c) && RotateStep(c, s, kek, dek, params, salt, snap, disk, s', disk', Ok(()), d)
    requires IndexIsCurrent(c, s, snap)
    ensures disk'.Some? && Contents(c, disk'.value, dek).Ok? && Contents(c, snap, s.dek).Ok?
    ensures var (was, now) := (Contents(c, snap, s.dek).value, Contents(c, disk'.value, dek).value);
            && |now| == |was| == |s.entries|
            && forall i :: 0 <= i < |was| ==>
                 SameMetadata(now[i], was[i])
                   && (was[i].state == LIVE ==> was[i].record.Ok? && now[i].record == was[i].record)
    ensures var s2 := Rekeyed(s.(cache := s.cache + Snapshot(c, s, snap).value), kek, dek, params, salt);
            var header := FreshHeader(s.config.version, s.config.wrapAlg, s.config.itemAlg, params, salt);
            var p := Preflight(c, s2, header, s.dek, BytesOf(disk));
            p.Ok? && forall i :: 0 <= i < |p.value.sources| ==> p.value.sources[i].Seal?
    ensures s'.dek == dek && s'.kek == kek
  {
    hide SaveStep, Preflight, Contents, OldItems, ReadIndex, LiveRecords, AuthenticateCurrent, ParseHeaderVersion,
         CacheCoherent, CopiesReadable;
    RotationSnapshot(c, s, snap);
    var s1 := s.(cache := s.cache + Snapshot(c, s, snap).value);
    var s2 := Rekeyed(s1, kek, dek, params, salt);
    var header := FreshHeader(s.config.version, s.config.wrapAlg, s.config.itemAlg, params, salt);
    PreflightOfSave(c, s2, header, s.dek, disk, s', disk', d);
    KeysKept(c, s2, header, s.dek, disk, s', disk', d);
    forall e | e in s2.entries
      ensures Dead(e.state) || e.slot in s2.cache
    {
      var i :| 0 <= i < |s.entries| && s.entries[i] == e;
    }
    NothingToCopy(c, s2, header, s.dek, BytesOf(disk), Preflight(c, s2, header, s.dek, BytesOf(disk)).value);
    SavePublishesMeaning(c, s2, header, s.dek, disk, s', disk', d);
  }

  lemma KeysKept(c: Suite, s: Session, header: ParsedHeader, diskDek: Key, disk: Option<Bytes>,
                 s': Session, disk': Option<Bytes>, d: Draws)
    requires Lawful(c) && SaveStep(c, s, header, diskDek, disk, s', disk', Ok(()), d)
    ensures s'.dek == s.dek && s'.kek == s.kek
  {
    hide Preflight, ImageOf, Fitting, Remap;
  }

  // ------------------------------------------------------------------ migration

  lemma {:induction false} CacheAllHolds(es: seq<IndexEntry>, records: seq<ItemRecord>, i: nat)
    requires |es| == |records| && SlotsDistinct(es) && i < |es|
    ensures es[i].slot in CacheAll(es, records) && CacheAll(es, records)[es[i].slot] == records[i]
  {
    if i < |es| - 1 {
      CacheAllHolds(es[..|es| - 1], records[..|es| - 1], i);
    }
  }

  /** What a legacy file stands for, in either frame layout. */
  ghost function LegacyContents(c: Suite, raw: Bytes, s: Session): Result<seq<Item>> {
    var h :- ParseLegacyHeader(raw);
    var frames :- SessionFrames(raw, h, true);
    Ok(Items(c, s.dek, s.config.itemAlg, s.config.version, s.entries, frames))
  }

  /**
   Migration preserves ids, states, metadata and every record, those kept in tombstone
   frames included, and allocation goes on one above the highest id.
   */
  lemma MigrationPreserves(c: Suite, raw: Bytes, password: Bytes, kek: Key, dek: Key, params: KdfParams, salt: Salt,
                           disk: Option<Bytes>, s': Session, disk': Option<Bytes>, d: Draws)
    requires Lawful(c) && MigrateStep(c, raw, password, kek, dek, params, salt, disk, s', disk', Ok(()), d)
    ensures OpenBytes(c, raw, password, true).Ok?
    ensures var s := OpenBytes(c, raw, password, true).value;
            && LegacyContents(c, raw, s).Ok?
            && disk'.Some? && Contents(c, disk'.value, dek) == LegacyContents(c, raw, s)
            && (forall item :: item in LegacyContents(c, raw, s).value ==> item.record.Ok?)
            && s'.nextId == s.nextId && NextIdAfter(s.entries) == Ok(s'.nextId)
    ensures disk.None?
  {
    hide SaveStep, Preflight, Contents, OldItems, ReadIndex, FramesOf, ParseHeaderVersion, CacheCoherent,
         CopiesReadable, OpenSlot, UnwrapDek, LegacyCrcOk, NextIdAfter, SlotsDistinct;
    var s := OpenBytes(c, raw, password, true).value;
    var h := ParseLegacyHeader(raw).value;
    var frames := SessionFrames(raw, h, true).value;
    var records :|
      && LegacyRecords(c, s, frames, records)
      && SaveStep(c, Migrated(s, records, kek, dek, params, salt),
                  FreshHeader(CURRENT_VERSION, s.config.wrapAlg, s.config.itemAlg, params, salt),
                  dek, disk, s', disk', Ok(()), d);
    var s1 := Migrated(s, records, kek, dek, params, salt);
    var header := FreshHeader(CURRENT_VERSION, s.config.wrapAlg, s.config.itemAlg, params, salt);
    PreflightOfSave(c, s1, header, dek, disk, s', disk', d);
    FirstSave(c, s1, header, dek, disk, s', disk', d);
    forall e | e in s1.entries
      ensures e.slot in s1.cache
    {
      var i :| 0 <= i < |s.entries| && s.entries[i] == e;
      CacheAllHolds(s.entries, records, i);
    }
    NothingToCopy(c, s1, header, dek, BytesOf(disk), Preflight(c, s1, header, dek, BytesOf(disk)).value);
    SavePublishesMeaning(c, s1, header, dek, disk, s', disk', d);
    LegacyStates(c, raw, password);
    var now := Contents(c, disk'.value, dek).value;
    var was := Items(c, s.dek, s.config.itemAlg, s.config.version, s.entries, frames);
    forall i | 0 <= i < |was|
      ensures now[i] == was[i] && was[i].record.Ok?
    {
      CacheAllHolds(s.entries, records, i);
      assert s.entries[i] in s.entries;
    }
    assert now == was;
  }

  /** A session without a tag only ever creates a file, and keeps its next id. */
  lemma FirstSave(c: Suite, s: Session, header: ParsedHeader, diskDek: Key, disk: Option<Bytes>,
                  s': Session, disk': Option<Bytes>, d: Draws)
    requires Lawful(c) && SaveStep(c, s, header, diskDek, disk, s', disk', Ok(()), d)
    ensures s.tag.None? ==> disk.None?
    ensures s'.nextId == s.nextId
  {
    hide Preflight, ImageOf, Fitting, Remap;
  }

  lemma LegacyStates(c: Suite, raw: Bytes, password: Bytes)
    requires OpenBytes(c, raw, password, true).Ok?
    ensures var s := OpenBytes(c, raw, password, true).value;
            && s.tag.None? && NextIdAfter(s.entries) == Ok(s.nextId)
            && forall e :: e in s.entries ==> Norm(e) == e
  {
    hide ReadIndex, FramesOf, ParseHeaderVersion, UnwrapDek, LegacyCrcOk, NextIdAfter, Norm;
    var h := ParseLegacyHeader(raw).value;
    var (kek, dek) := UnwrapDek(c, h, password).value;
    var alg := AlgorithmFromId(h.itemAlgId).value;
    StatesNormalised(c, raw, h.version, dek, alg);
  }

  /** A combined-tag frame and the separate-tag frame of the same ciphertext and tag. */
  ghost predicate SameSealed(combined: Bytes, separate: Bytes) {
    && IsFrame(combined, false) && IsFrame(separate, true)
    && combined[..NONCE_LEN] == separate[..NONCE_LEN]
    && combined[FRAME_HEAD..] == separate[FRAME_HEAD..]
  }

  lemma Rejoined(b: Bytes, i: nat, j: nat)
    requires i <= j <= |b|
    ensures b[i..j] + b[j..] == b[i..] && b[0..j] == b[..j]
  {
  }

  /** The two legacy layouts of one sealed record open alike. */
  lemma LayoutsOpenAlike(c: Suite, dek: Key, alg: Algorithm, version: byte, combined: Bytes, separate: Bytes, id: u32)
    requires SameSealed(combined, separate)
    ensures DecryptFrame(c, dek, alg, version, combined, id) == DecryptFrame(c, dek, alg, version, separate, id)
  {
    hide ParseItem, U32Of;
    var (m, n) := (U32Of(combined[NONCE_LEN..FRAME_HEAD]), U32Of(separate[NONCE_LEN..FRAME_HEAD]));
    Rejoined(combined, FRAME_HEAD, FRAME_HEAD + m);
    Rejoined(separate, FRAME_HEAD, FRAME_HEAD + n);
    Rejoined(combined, 0, NONCE_LEN);
    Rejoined(separate, 0, NONCE_LEN);
  }

  /** So two files that differ in the layout only stand for the same list. */
  lemma LayoutsMeanTheSame(c: Suite, dek: Key, alg: Algorithm, version: byte, es: seq<IndexEntry>,
                           combined: seq<Bytes>, separate: seq<Bytes>)
    requires |combined| == |separate|
    requires forall i :: 0 <= i < |combined| ==> SameSealed(combined[i], separate[i])
    ensures Items(c, dek, alg, version, es, combined) == Items(c, dek, alg, version, es, separate)
  {
    hide SameSealed, DecryptFrame;
    var (a, b) := (Items(c, dek, alg, version, es, combined), Items(c, dek, alg, version, es, separate));
    forall i | 0 <= i < |es|
      ensures a[i] == b[i]
    {
      var slot := es[i].slot;
      if slot < |combined| {
        LayoutsOpenAlike(c, dek, alg, version, combined[slot], separate[slot], es[i].itemId);
      }
    }
  }

  /**
   Two legacy files of one vault: the same key, algorithm and index, and frame by frame the same
   ciphertexts and tags, in the first file with combined lengths and in the second with separate tags.
   */
  ghost predicate SameVault(c: Suite, raw1: Bytes, raw2: Bytes, s1: Session, s2: Session) {
    && ParseLegacyHeader(raw1).Ok? && ParseLegacyHeader(raw2).Ok?
    && SessionFrames(raw1, ParseLegacyHeader(raw1).value, true).Ok?
    && SessionFrames(raw2, ParseLegacyHeader(raw2).value, true).Ok?
    && s1.dek == s2.dek && s1.config.itemAlg == s2.config.itemAlg && s1.config.version == s2.config.version
    && s1.entries == s2.entries
    && var combined := SessionFrames(raw1, ParseLegacyHeader(raw1).value, true).value;
    && var separate := SessionFrames(raw2, ParseLegacyHeader(raw2).value, true).value;
    && |combined| == |separate|
    && forall i :: 0 <= i < |combined| ==> SameSealed(combined[i], separate[i])
  }

  /** They stand for the same list. */
  lemma LegacyFilesMeanTheSame(c: Suite, raw1: Bytes, raw2: Bytes, s1: Session, s2: Session)
    requires SameVault(c, raw1, raw2, s1, s2)
    ensures LegacyContents(c, raw1, s1).Ok? && LegacyContents(c, raw1, s1) == LegacyContents(c, raw2, s2)
  {
    hide SameSealed, SessionFrames, ParseHeaderVersion, Items;
    var combined := SessionFrames(raw1, ParseLegacyHeader(raw1).value, true).value;
    var separate := SessionFrames(raw2, ParseLegacyHeader(raw2).value, true).value;
    LayoutsMeanTheSame(c, s1.dek, s1.config.itemAlg, s1.config.version, s1.entries, combined, separate);
  }

  /** And migrating either gives the same vault, whatever the new keys and passwords are. */
  lemma MigrationsAgree(c: Suite, raw1: Bytes, password1: Bytes, kek1: Key, dek1: Key, params1: KdfParams, salt1: Salt,
                        disk1: Option<Bytes>, s1: Session, disk1': Option<Bytes>, d1: Draws,
                        raw2: Bytes, password2: Bytes, kek2: Key, dek2: Key, params2: KdfParams, salt2: Salt,
                        disk2: Option<Bytes>, s2: Session, disk2': Option<Bytes>, d2: Draws)
    requires Lawful(c)
    requires MigrateStep(c, raw1, password1, kek1, dek1, params1, salt1, disk1, s1, disk1', Ok(()), d1)
    requires MigrateStep(c, raw2, password2, kek2, dek2, params2, salt2, disk2, s2, disk2', Ok(()), d2)
    requires SameVault(c, raw1, raw2, OpenBytes(c, raw1, password1, true).value,
                       OpenBytes(c, raw2, password2, true).value)
    ensures disk1'.Some? && disk2'.Some? && Contents(c, disk1'.value, dek1).Ok?
    ensures Contents(c, disk1'.value, dek1) == Contents(c, disk2'.value, dek2)
    ensures s1.nextId == s2.nextId
  {
    hide MigrateStep, SameVault, LegacyContents, OpenBytes, Contents, NextIdAfter;
    MigrationPreserves(c, raw1, password1, kek1, dek1, params1, salt1, disk1, s1, disk1', d1);
    MigrationPreserves(c, raw2, password2, kek2, dek2, params2, salt2, disk2, s2, disk2', d2);
    LegacyFilesMeanTheSame(c, raw1, raw2, OpenBytes(c, raw1, password1, true).value,
                           OpenBytes(c, raw2, password2, true).value);
    SameIndex(c, raw1, raw2, OpenBytes(c, raw1, password1, true).value, OpenBytes(c, raw2, password2, true).value);
  }

  lemma SameIndex(c: Suite, raw1: Bytes, raw2: Bytes, s1: Session, s2: Session)
    requires SameVault(c, raw1, raw2, s1, s2)
    ensures s1.entries == s2.entries
  {
    hide SameSealed, SessionFrames, ParseHeaderVersion;
  }
}
