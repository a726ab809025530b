/** What becomes of a record that a legacy file keeps in a tombstone's frame. */
module LegacyRuns {
  import opened Prelude
  import opened Crypto
  import opened Header
  import opened Shape
  import opened Frames
  import opened Image
  import opened SaveProof
  import opened Steps
  import opened Preservation
  import opened LegacyImages
  import opened Runs

  const KEPT := PLACEHOLDER.(created := 1)

  const TOMB := IndexEntry(1, 0, TOMBSTONE, [], [])

  function TombRecord(cache: map<u32, ItemRecord>): ItemRecord {
    if 0 in cache then cache[0] else PLACEHOLDER
  }

  lemma TombLength()
    ensures SerializeIndex([TOMB]).Ok? && |SerializeIndex([TOMB]).value| == 4 + EntriesLen([TOMB])
    ensures EntriesLen([TOMB]) <= 100
  {
    hide EntriesBytes, BE32;
    assert IndexOk([TOMB]) && NormAll([TOMB]) == [TOMB];
    EntriesBytesLen([TOMB]);
    assert [TOMB][..0] == [];
  }

  /** The plan of a session that holds that one dead entry, over anything it can read. */
  lemma TombFits(c: Suite, s: Session, header: ParsedHeader, disk: Bytes)
    requires s.entries == [TOMB] && (s.cache == map[] || s.cache == map[0 := KEPT])
    requires header.encCounter + 2 <= ROTATION_LIMIT && OldFile(c, s.tag, s.dek, disk).Ok?
    requires AlgorithmFromId(header.wrapAlgId).Ok? && AlgorithmFromId(header.itemAlgId).Ok?
    ensures Preflight(c, s, header, s.dek, disk).Ok?
    ensures Preflight(c, s, header, s.dek, disk).value.sources == [Seal(TombRecord(s.cache))]
    ensures FreshCount(s.cache, s.entries) == 1 && Renumber(s.entries) == [TOMB]
  {
    hide OldFile, SerializeIndex;
    var (slots, frames) := OldFile(c, s.tag, s.dek, disk).value;
    TombLength();
    assert s.entries[..0] == [];
    assert Renumber(s.entries) == [TOMB];
    var ss := [Seal(TombRecord(s.cache))];
    assert SourceOf(s.cache, slots, frames, TOMB) == Ok(ss[0]);
    assert [] + ss == ss;
    assert Sources(s.cache, slots, frames, s.entries) == Ok(ss);
    assert ss[..0] == [];
    assert SourcesLen(ss) == FRAME_HEAD + 25 + TAG_LEN;
    var indexPt := SerializeIndex([TOMB]).value;
    assert INDEX_AT + 4 + |indexPt| + TAG_LEN + 4 + TRAILER_LEN + SourcesLen(ss) <= MAX_VAULT_BYTES;
    assert s.entries == [TOMB];
    assert FreshCount(s.cache, s.entries) == 1;
  }

  lemma TombShape(s: Session)
    requires s.entries == [TOMB] && (s.cache == map[] || s.cache == map[0 := KEPT])
    ensures SlotsDistinct(s.entries) && Remap(s.cache, s.entries) == s.cache && NextIdAfter(s.entries) == Ok(2)
    ensures NormAll(Renumber(s.entries)) == [TOMB] && Dead(TOMB.state)
    ensures CacheAll([TOMB], [KEPT]) == map[0 := KEPT]
  {
    assert [TOMB][..0] == [];
  }

  /** For every lawful suite there is a legacy file with such a tombstone; it opens, and its record can be read. */
  lemma TombFile(c: Suite, password: Bytes, kek: Key, dek: Key, params: KdfParams, salt: Salt,
                 wrapAlg: Algorithm, itemAlg: Algorithm, d: Draws)
    returns (raw: Bytes, s: Session)
    requires Lawful(c) && params.PolicyOk() && c.kdf(params, salt, password) == Ok(kek) && |d.items| == 1
    ensures OpenBytes(c, raw, password, true) == Ok(s) && s.entries == [TOMB] && s.cache == map[]
    ensures s.config.wrapAlg == wrapAlg && s.config.itemAlg == itemAlg && s.nextId == 2 && s.tag == None
    ensures ParseLegacyHeader(raw).Ok? && SessionFrames(raw, ParseLegacyHeader(raw).value, true).Ok?
    ensures LegacyRecords(c, s, SessionFrames(raw, ParseLegacyHeader(raw).value, true).value, [KEPT])
  {
    hide Preflight, OpenBytes, SessionFrames, ParseHeaderVersion, LegacyImage, LegacyFrames, Fitting, LegacyRecords;
    var s0 := Session(Config(LEGACY_VERSION, wrapAlg, itemAlg, params, salt, 0), kek, dek, [TOMB], map[0 := KEPT], 2,
                      None);
    var h := FreshHeader(LEGACY_VERSION, wrapAlg, itemAlg, params, salt);
    NothingThere(c, dek);
    TombFits(c, s0, h, []);
    TombShape(s0);
    var p := Preflight(c, s0, h, dek, []).value;
    PlanShape(c, s0, h, dek, [], p);
    PreflightFits(c, s0, h, dek, [], d);
    raw, s := LegacyImage(c, s0, h, p, d), LegacySession(s0, h, p);
    LegacyImageOpens(c, s0, h, p, d, password);
    LegacyImageReads(c, s0, h, p, d, password);
    assert SealedRecords(p) == [KEPT];
  }

  lemma OneRecord(c: Suite, s: Session, raw: Bytes)
    requires ParseLegacyHeader(raw).Ok? && SessionFrames(raw, ParseLegacyHeader(raw).value, true).Ok?
    requires s.entries == [TOMB]
    requires LegacyRecords(c, s, SessionFrames(raw, ParseLegacyHeader(raw).value, true).value, [KEPT])
    ensures LegacyContents(c, raw, s).Ok? && |LegacyContents(c, raw, s).value| == 1
    ensures LegacyContents(c, raw, s).value[0].record == Ok(KEPT)
  {
    hide SessionFrames, ParseHeaderVersion, OpenSlot;
  }

  /**
   A migration that keeps a record and a save that loses it: the legacy tombstone's record is in the
   migrated file, and after the reopened session's next save the placeholder is in its place.
   */
  lemma TombstoneReplaced(c: Suite, password: Bytes, kek: Key, dek: Key, params: KdfParams, salt: Salt,
                          wrapAlg: Algorithm, itemAlg: Algorithm, kek': Key, dek': Key, params': KdfParams, salt': Salt,
                          d: Draws, d1: Draws, d2: Draws)
    returns (raw: Bytes, s1: Session, file1: Bytes, s2: Session, file2: Bytes)
    requires Lawful(c) && params.PolicyOk() && c.kdf(params, salt, password) == Ok(kek)
    requires |d.items| == |d1.items| == |d2.items| == 1
    ensures MigrateStep(c, raw, password, kek', dek', params', salt', None, s1, Some(file1), Ok(()), d1)
    ensures PlainSave(c, s1.(cache := map[]), Some(file1), s2, Some(file2), Ok(()), d2)
    ensures Contents(c, file1, dek').Ok? && Contents(c, file2, dek').Ok?
    ensures var (kept, now) := (Contents(c, file1, dek').value, Contents(c, file2, dek').value);
            |kept| > 0 && |now| > 0 && kept[0].record == Ok(KEPT) && now[0].record == Ok(PLACEHOLDER)
  {
    hide Preflight, OpenBytes, SessionFrames, ParseHeaderVersion, SaveStep, Contents, OldFile, LegacyRecords,
         Authenticate, OldItems, CacheCoherent;
    var s;
    raw, s := TombFile(c, password, kek, dek, params, salt, wrapAlg, itemAlg, d);
    OneRecord(c, s, raw);
    var t := Migrated(s, [KEPT], kek', dek', params', salt');
    var h := FreshHeader(CURRENT_VERSION, wrapAlg, itemAlg, params', salt');
    TombShape(t);
    NothingThere(c, dek');
    TombFits(c, t, h, []);
    s1, file1 := FreshSaves(c, t, h, None, d1);
    var reopened := s1.(cache := map[]);
    TombShape(reopened);
    TombFits(c, reopened, ParseHeader(file1).value, file1);
    s2, file2 := FreshSaves(c, reopened, ParseHeader(file1).value, Some(file1), d2);
    MigratedTombstoneLost(c, raw, password, kek', dek', params', salt', None, s1, Some(file1), d1, reopened, s2,
                          Some(file2), d2, 0);
  }
}
