/** Legacy files, in both of their frame layouts: each opens, and migrating either gives one and the same vault. */
module LegacyImages {
  import opened Prelude
  import opened Crypto
  import opened Header
  import opened Shape
  import opened Frames
  import opened Image
  import opened SaveProof
  import opened Steps
  import opened Preservation
  import opened Reopening
  import opened Beginnings
  import opened Runs

  // ------------------------------------------------------------------- the format

  ghost predicate AllSealed(p: Plan) {
    forall i :: 0 <= i < |p.sources| ==> p.sources[i].Seal?
  }

  /** Whether the lengths in front of the ciphertexts leave the tags out: the first reserved byte says so. */
  predicate TagsApart(h: ParsedHeader) {
    h.reserved[0] == 0xA5
  }

  /** Nonce, length, ciphertext and tag, under the legacy version. */
  ghost function LegacyFrame(c: Suite, dek: Key, alg: Algorithm, nonce: Nonce, r: ItemRecord, id: u32,
                             apart: bool): (f: Bytes)
    requires Lawful(c) && ValidItem(r)
  {
    ItemLenIsExact(r, id);
    var ct := c.seal(alg, dek, nonce, ItemBytes(r, id), ItemAad(LEGACY_VERSION, id));
    nonce + BE32(if apart then |ct| - 16 else |ct|) + ct
  }

  ghost function LegacyFrames(c: Suite, dek: Key, p: Plan, d: Draws, apart: bool): (fs: seq<Bytes>)
    requires Lawful(c) && Fitting(p, d) && AllSealed(p)
    ensures |fs| == |p.sources|
  {
    seq(|p.sources|, i requires 0 <= i < |p.sources| =>
      LegacyFrame(c, dek, p.itemAlg, d.items[i], p.sources[i].record, p.entries[i].itemId, apart))
  }

  /** The header with the wrapped key in it. */
  ghost function Wrapped(c: Suite, s: Session, header: ParsedHeader, p: Plan, d: Draws): ParsedHeader
    requires Lawful(c)
  {
    var h := header.(encCounter := p.counter, wrapNonce := d.wrapNonce);
    var ct := c.seal(p.wrapAlg, s.kek, d.wrapNonce, s.dek, AadBytes(h));
    h.(wrappedDek := ct[..KEY_LEN], wrapTag := ct[KEY_LEN..])
  }

  /** Header, index frame, slot count and item frames. */
  ghost function LegacyBody(c: Suite, s: Session, header: ParsedHeader, p: Plan, d: Draws): Bytes
    requires Lawful(c) && Fitting(p, d) && AllSealed(p)
  {
    var ct := c.seal(p.itemAlg, s.dek, d.indexNonce, p.indexPt, IndexAad(LEGACY_VERSION));
    HeaderBytes(Wrapped(c, s, header, p, d)) + d.indexNonce + BE32(|ct|) + ct + BE32(|p.entries|)
    + Concat(LegacyFrames(c, s.dek, p, d, TagsApart(header)))
  }

  /** A file of the legacy format ends with the slot count and the checksum; nothing authenticates it as a whole. */
  ghost function LegacyImage(c: Suite, s: Session, header: ParsedHeader, p: Plan, d: Draws): Bytes
    requires Lawful(c) && Fitting(p, d) && AllSealed(p)
  {
    var body := LegacyBody(c, s, header, p, d);
    body + BE32(|p.entries|) + BE32(c.crc(body))
  }

  // -------------------------------------------------------------------- the layout

  /** Eight parts laid end to end, found again by offset. */
  lemma EightParts(h: Bytes, n: Bytes, l: Bytes, ct: Bytes, m: Bytes, f: Bytes, m2: Bytes, crc: Bytes)
    requires |h| == HEADER_LEN && |n| == NONCE_LEN && |l| == |m| == |m2| == |crc| == 4
    ensures var raw := h + n + l + ct + m + f + m2 + crc;
            && |raw| == INDEX_AT + 8 + |ct| + |f| + LEGACY_TRAILER_LEN
            && h <= raw
            && raw[HEADER_LEN..INDEX_AT] == n
            && raw[INDEX_AT..INDEX_AT + 4] == l
            && raw[INDEX_AT + 4..INDEX_AT + 4 + |ct|] == ct
            && raw[INDEX_AT + 4 + |ct|..INDEX_AT + 8 + |ct|] == m
            && raw[INDEX_AT + 8 + |ct|..|raw| - LEGACY_TRAILER_LEN] == f
            && raw[|raw| - LEGACY_TRAILER_LEN..|raw| - 4] == m2
            && raw[|raw| - 4..] == crc
            && raw[..|raw| - LEGACY_TRAILER_LEN] == h + n + l + ct + m + f
  {
  }

  /** What lies where in a legacy image. */
  lemma LegacyLayout(c: Suite, s: Session, header: ParsedHeader, p: Plan, d: Draws)
    requires Lawful(c) && Fitting(p, d) && AllSealed(p)
    ensures var raw := LegacyImage(c, s, header, p, d);
            var ct := c.seal(p.itemAlg, s.dek, d.indexNonce, p.indexPt, IndexAad(LEGACY_VERSION));
            var f := Concat(LegacyFrames(c, s.dek, p, d, TagsApart(header)));
            && |raw| == INDEX_AT + 8 + |ct| + |f| + LEGACY_TRAILER_LEN
            && HeaderBytes(Wrapped(c, s, header, p, d)) <= raw
            && raw[HEADER_LEN..INDEX_AT] == d.indexNonce
            && raw[INDEX_AT..INDEX_AT + 4] == BE32(|ct|)
            && raw[INDEX_AT + 4..INDEX_AT + 4 + |ct|] == ct
            && raw[INDEX_AT + 4 + |ct|..INDEX_AT + 8 + |ct|] == BE32(|p.entries|)
            && raw[INDEX_AT + 8 + |ct|..|raw| - LEGACY_TRAILER_LEN] == f
            && raw[|raw| - LEGACY_TRAILER_LEN..|raw| - 4] == BE32(|p.entries|)
            && raw[|raw| - 4..] == BE32(c.crc(raw[..|raw| - LEGACY_TRAILER_LEN]))
  {
    hide BE32, HeaderBytes, Wrapped, LegacyFrames, Concat;
    var ct := c.seal(p.itemAlg, s.dek, d.indexNonce, p.indexPt, IndexAad(LEGACY_VERSION));
    EightParts(HeaderBytes(Wrapped(c, s, header, p, d)), d.indexNonce, BE32(|ct|), ct, BE32(|p.entries|),
               Concat(LegacyFrames(c, s.dek, p, d, TagsApart(header))), BE32(|p.entries|),
               BE32(c.crc(LegacyBody(c, s, header, p, d))));
  }

  // ------------------------------------------------------------------- reading it

  lemma LegacyHeader(c: Suite, s: Session, header: ParsedHeader, p: Plan, d: Draws)
    requires Lawful(c) && Fitting(p, d) && AllSealed(p)
    requires header.version == LEGACY_VERSION && header.pad == ZERO_PAD
    ensures ParseLegacyHeader(LegacyImage(c, s, header, p, d)) == Ok(Wrapped(c, s, header, p, d))
  {
    hide HeaderBytes, ParseHeaderVersion, LegacyImage, LegacyFrames, BE32, AadBytes;
    LegacyLayout(c, s, header, p, d);
    HeaderCodec(LegacyImage(c, s, header, p, d), LEGACY_VERSION, Wrapped(c, s, header, p, d));
  }

  lemma LegacyIndex(c: Suite, s: Session, header: ParsedHeader, p: Plan, d: Draws)
    requires Lawful(c) && Fitting(p, d) && AllSealed(p)
    ensures ReadIndex(c, LegacyImage(c, s, header, p, d), LEGACY_VERSION, s.dek, p.itemAlg) == ParseIndex(p.indexPt)
    ensures var raw := LegacyImage(c, s, header, p, d); |raw| >= HEADER_LEN && LegacyCrcOk(c, raw) == Ok(())
  {
    hide HeaderBytes, Wrapped, LegacyImage, LegacyFrames, ParseIndex, BE, Concat;
    LegacyLayout(c, s, header, p, d);
  }

  /** A frame of either layout is one of that layout and opens to what was sealed. */
  lemma LegacyFrameOpens(c: Suite, dek: Key, alg: Algorithm, nonce: Nonce, r: ItemRecord, id: u32, apart: bool)
    requires Lawful(c) && ValidItem(r)
    ensures var f := LegacyFrame(c, dek, alg, nonce, r, id, apart);
            && IsFrame(f, apart)
            && |f| == FRAME_HEAD + ItemLen(r) + TAG_LEN
            && f[..NONCE_LEN] == nonce
            && f[FRAME_HEAD..] == c.seal(alg, dek, nonce, ItemBytes(r, id), ItemAad(LEGACY_VERSION, id))
            && DecryptFrame(c, dek, alg, LEGACY_VERSION, f, id) == Ok(r)
  {
    hide ItemBytes, ParseItem, BE, ItemAad;
    ItemLenIsExact(r, id);
    var pt := ItemBytes(r, id);
    ItemCodec(pt, r, id);
    var ct := c.seal(alg, dek, nonce, pt, ItemAad(LEGACY_VERSION, id));
    SealedSlices(nonce, BE32(|pt|), ct, |pt|);
    LengthSlices(nonce, BE32(|ct|), ct);
  }

  lemma LengthSlices(nonce: Nonce, l: Bytes, ct: Bytes)
    requires |l| == 4
    ensures var f := nonce + l + ct;
            && f[0..NONCE_LEN] == nonce && f[NONCE_LEN..FRAME_HEAD] == l
            && f[FRAME_HEAD..FRAME_HEAD + |ct|] + f[FRAME_HEAD + |ct|..] == ct
  {
  }

  lemma LegacyFramesOpen(c: Suite, dek: Key, p: Plan, d: Draws, apart: bool)
    requires Lawful(c) && Fitting(p, d) && AllSealed(p)
    ensures var fs := LegacyFrames(c, dek, p, d, apart);
            && AllFrames(fs, apart)
            && forall i :: 0 <= i < |fs| ==>
                 DecryptFrame(c, dek, p.itemAlg, LEGACY_VERSION, fs[i], p.entries[i].itemId)
                   == Ok(p.sources[i].record)
  {
    hide IsFrame, DecryptFrame, LegacyFrame, ValidItem;
    var fs := LegacyFrames(c, dek, p, d, apart);
    forall i | 0 <= i < |fs|
      ensures IsFrame(fs[i], apart)
      ensures DecryptFrame(c, dek, p.itemAlg, LEGACY_VERSION, fs[i], p.entries[i].itemId) == Ok(p.sources[i].record)
    {
      LegacyFrameOpens(c, dek, p.itemAlg, d.items[i], p.sources[i].record, p.entries[i].itemId, apart);
    }
  }

  lemma LegacySplits(c: Suite, s: Session, header: ParsedHeader, p: Plan, d: Draws)
    requires Lawful(c) && Fitting(p, d) && AllSealed(p)
    ensures FramesOf(LegacyImage(c, s, header, p, d), TagsApart(header), LEGACY_TRAILER_LEN)
         == Ok(LegacyFrames(c, s.dek, p, d, TagsApart(header)))
  {
    hide HeaderBytes, Wrapped, LegacyImage, BE, AllFrames, IsFrame, FramesOf, Concat, LegacyFrames;
    LegacyLayout(c, s, header, p, d);
    LegacyFramesOpen(c, s.dek, p, d, TagsApart(header));
    TheFrames(LegacyImage(c, s, header, p, d), TagsApart(header), LEGACY_TRAILER_LEN,
              LegacyFrames(c, s.dek, p, d, TagsApart(header)));
  }

  lemma LegacyUnwraps(c: Suite, s: Session, header: ParsedHeader, p: Plan, d: Draws, password: Bytes)
    requires Lawful(c) && AlgorithmFromId(header.wrapAlgId) == Ok(p.wrapAlg)
    requires header.params.PolicyOk() && c.kdf(header.params, header.salt, password) == Ok(s.kek)
    ensures UnwrapDek(c, Wrapped(c, s, header, p, d), password) == Ok((s.kek, s.dek))
  {
    hide AadBytes;
    var h0 := header.(encCounter := p.counter, wrapNonce := d.wrapNonce);
    var ct := c.seal(p.wrapAlg, s.kek, d.wrapNonce, s.dek, AadBytes(h0));
    assert ct[..KEY_LEN] + ct[KEY_LEN..] == ct;
    var h := Wrapped(c, s, header, p, d);
    AadIgnoresWrapping(h0, h.wrappedDek, h.wrapTag);
  }

  lemma WrappedKeeps(c: Suite, s: Session, header: ParsedHeader, p: Plan, d: Draws)
    requires Lawful(c)
    ensures var h := Wrapped(c, s, header, p, d);
            && h.itemAlgId == header.itemAlgId && h.wrapAlgId == header.wrapAlgId && h.version == header.version
            && h.params == header.params && h.salt == header.salt && h.encCounter == p.counter
            && h.reserved == header.reserved
  {
    hide AadBytes;
  }

  /** The session a legacy image opens to. */
  ghost function LegacySession(s: Session, header: ParsedHeader, p: Plan): Session
    requires NextIdAfter(s.entries).Ok?
  {
    Session(Config(LEGACY_VERSION, p.wrapAlg, p.itemAlg, header.params, header.salt, p.counter),
            s.kek, s.dek, NormAll(p.entries), map[], NextIdAfter(s.entries).value, None)
  }

  /** The session and the plan can be filed under the header, sealed throughout, with the password's key. */
  ghost predicate Filed(c: Suite, s: Session, header: ParsedHeader, p: Plan, password: Bytes) {
    && Preflight(c, s, header, s.dek, []) == Ok(p) && AllSealed(p)
    && header.version == LEGACY_VERSION && header.pad == ZERO_PAD
    && header.params.PolicyOk() && c.kdf(header.params, header.salt, password) == Ok(s.kek)
    && NextIdAfter(s.entries).Ok?
  }

  /** In either layout the image opens with the password, to the same session, and is cut into the frames it holds. */
  lemma LegacyImageOpens(c: Suite, s: Session, header: ParsedHeader, p: Plan, d: Draws, password: Bytes)
    requires Lawful(c) && Filed(c, s, header, p, password) && Fitting(p, d)
    ensures var raw := LegacyImage(c, s, header, p, d);
            && OpenBytes(c, raw, password, true) == Ok(LegacySession(s, header, p))
            && ParseLegacyHeader(raw).Ok?
            && SessionFrames(raw, ParseLegacyHeader(raw).value, true)
            == Ok(LegacyFrames(c, s.dek, p, d, header.reserved[0] == 0xA5))
  {
    hide Preflight, ReadIndex, FramesOf, LegacyFrames, AllFrames, DecryptFrame, ParseHeaderVersion, UnwrapDek,
         NextIdAfter, LegacyImage, ParseIndex, SerializeIndex, Wrapped, LegacyCrcOk;
    PlanShape(c, s, header, s.dek, [], p);
    LegacyHeader(c, s, header, p, d);
    LegacyIndex(c, s, header, p, d);
    IndexRoundTrip(p.indexPt, p.entries);
    LegacySplits(c, s, header, p, d);
    LegacyUnwraps(c, s, header, p, d, password);
    WrappedKeeps(c, s, header, p, d);
    SameIdsSameNext(NormAll(p.entries), s.entries);
  }

  /** The records that were sealed, in order. */
  function SealedRecords(p: Plan): (rs: seq<ItemRecord>)
    requires forall i :: 0 <= i < |p.sources| ==> p.sources[i].Seal?
    ensures |rs| == |p.sources|
  {
    seq(|p.sources|, i requires 0 <= i < |p.sources| => p.sources[i].record)
  }

  /** And every entry opens its own frame, to the record that was sealed. */
  lemma LegacyImageReads(c: Suite, s: Session, header: ParsedHeader, p: Plan, d: Draws, password: Bytes)
    requires Lawful(c) && Filed(c, s, header, p, password) && Fitting(p, d)
    ensures LegacyRecords(c, LegacySession(s, header, p), LegacyFrames(c, s.dek, p, d, TagsApart(header)),
                          SealedRecords(p))
  {
    hide Preflight, LegacyFrames, AllFrames, DecryptFrame, NextIdAfter, SerializeIndex;
    PlanShape(c, s, header, s.dek, [], p);
    LegacyFramesOpen(c, s.dek, p, d, TagsApart(header));
    var t := LegacySession(s, header, p);
    var fs := LegacyFrames(c, s.dek, p, d, TagsApart(header));
    forall i | 0 <= i < |t.entries|
      ensures t.entries[i].slot == i
      ensures OpenSlot(c, t.dek, t.config.itemAlg, t.config.version, fs, i, t.entries[i].itemId)
           == Ok(SealedRecords(p)[i])
    {
    }
  }

  // -------------------------------------------------------------------- migrating it

  lemma {:induction false} SourcesAre(cache: map<u32, ItemRecord>, slots: map<u32, u32>, frames: seq<Bytes>,
                                      es: seq<IndexEntry>, ss: seq<Source>)
    requires |es| == |ss| && forall i :: 0 <= i < |es| ==> SourceOf(cache, slots, frames, es[i]) == Ok(ss[i])
    ensures Sources(cache, slots, frames, es) == Ok(ss)
  {
    hide SourceOf;
    if es != [] {
      SourcesAre(cache, slots, frames, es[..|es| - 1], ss[..|ss| - 1]);
      assert ss == ss[..|ss| - 1] + [ss[|ss| - 1]];
    }
  }

  /** What was sealed throughout charged one encryption an entry. */
  lemma {:induction false} SealedThroughout(cache: map<u32, ItemRecord>, slots: map<u32, u32>, frames: seq<Bytes>,
                                            es: seq<IndexEntry>)
    requires forall e :: e in es ==>
               SourceOf(cache, slots, frames, e).Ok? && SourceOf(cache, slots, frames, e).value.Seal?
    ensures FreshCount(cache, es) == |es|
  {
    if es != [] {
      assert es[|es| - 1] in es;
      SealedThroughout(cache, slots, frames, es[..|es| - 1]);
    }
  }

  lemma PlanCharges(c: Suite, s: Session, header: ParsedHeader, p: Plan)
    requires Preflight(c, s, header, s.dek, []) == Ok(p) && AllSealed(p)
    ensures p.counter == header.encCounter + |s.entries| + 1
  {
    hide OldFile, SerializeIndex, SourceOf, SourcesLen, FreshCount;
    var (slots, frames) := OldFile(c, s.tag, s.dek, []).value;
    forall e | e in s.entries
      ensures SourceOf(s.cache, slots, frames, e).Ok? && SourceOf(s.cache, slots, frames, e).value.Seal?
    {
      var i :| 0 <= i < |s.entries| && s.entries[i] == e;
      assert SourceOf(s.cache, slots, frames, s.entries[i]) == Ok(p.sources[i]);
    }
    SealedThroughout(s.cache, slots, frames, s.entries);
  }

  lemma SameIndexBytes(es: seq<IndexEntry>, indexPt: Bytes)
    requires SerializeIndex(es) == Ok(indexPt) && |es| <= U32_MAX && forall i :: 0 <= i < |es| ==> es[i].slot == i
    ensures Renumber(NormAll(es)) == NormAll(es) && SerializeIndex(NormAll(es)) == Ok(indexPt)
  {
    hide IndexBytes, EntryOk;
    NormAllOk(es);
  }

  /** A first plan, from its parts. */
  lemma FirstPlan(c: Suite, t: Session, header: ParsedHeader, p: Plan)
    requires t.tag == None && |t.entries| <= U32_MAX && Renumber(t.entries) == p.entries
    requires SerializeIndex(p.entries) == Ok(p.indexPt) && Sources(t.cache, map[], [], t.entries) == Ok(p.sources)
    requires p.counter == header.encCounter + FreshCount(t.cache, t.entries) + 1 <= ROTATION_LIMIT
    requires CandidateLen(p) <= MAX_VAULT_BYTES
    requires AlgorithmFromId(header.wrapAlgId) == Ok(p.wrapAlg) && AlgorithmFromId(header.itemAlgId) == Ok(p.itemAlg)
    ensures Preflight(c, t, header, t.dek, []) == Ok(p)
  {
    hide SerializeIndex, Sources, FreshCount, SourcesLen;
  }

  /** With every record cached, every record is sealed again. */
  lemma AllCachedSources(es: seq<IndexEntry>, p: Plan)
    requires AllSealed(p) && |es| == |p.sources| && SlotsDistinct(es)
    requires forall i :: 0 <= i < |p.sources| ==> ValidItem(p.sources[i].record)
    ensures Sources(CacheAll(es, SealedRecords(p)), map[], [], es) == Ok(p.sources)
  {
    hide ValidItem, CacheAll;
    var cache := CacheAll(es, SealedRecords(p));
    forall i | 0 <= i < |es|
      ensures SourceOf(cache, map[], [], es[i]) == Ok(p.sources[i])
    {
      CacheAllHolds(es, SealedRecords(p), i);
    }
    SourcesAre(cache, map[], [], es, p.sources);
  }

  /** Whenever a legacy file could be written, its migration has a plan: the same one, but for the counter. */
  lemma MigratedFits(c: Suite, s: Session, header: ParsedHeader, p: Plan, d: Draws, password: Bytes, kek: Key, dek: Key,
                     params: KdfParams, salt: Salt)
    requires Lawful(c) && Filed(c, s, header, p, password) && Fitting(p, d)
    ensures |SealedRecords(p)| == |LegacySession(s, header, p).entries|
    ensures var plan := Preflight(c, Migrated(LegacySession(s, header, p), SealedRecords(p), kek, dek, params, salt),
                                  FreshHeader(CURRENT_VERSION, p.wrapAlg, p.itemAlg, params, salt), dek, []);
            && plan.Ok? && plan.value.counter == |s.entries| + 1
            && plan.value.entries == NormAll(p.entries) && plan.value.sources == p.sources
  {
    hide NextIdAfter, ValidItem, SerializeIndex, CacheAll, SourcesLen, Preflight, FreshCount, Sources;
    PlanShape(c, s, header, s.dek, [], p);
    PlanCharges(c, s, header, p);
    var s0 := LegacySession(s, header, p);
    AllCachedSources(s0.entries, p);
    AllCached(s0, SealedRecords(p), kek, dek, params, salt);
    var t := Migrated(s0, SealedRecords(p), kek, dek, params, salt);
    AllFresh(t.cache, t.entries);
    SameIndexBytes(p.entries, p.indexPt);
    var charge: u32 := |s.entries| + 1;
    FirstPlan(c, t, FreshHeader(CURRENT_VERSION, p.wrapAlg, p.itemAlg, params, salt),
              p.(counter := charge, entries := NormAll(p.entries)));
  }

  lemma LegacySize(c: Suite, s: Session, header: ParsedHeader, p: Plan, d: Draws, password: Bytes)
    requires Lawful(c) && Filed(c, s, header, p, password) && Fitting(p, d)
    ensures |LegacyImage(c, s, header, p, d)| == CandidateLen(p) - MAC_LEN <= MAX_VAULT_BYTES
  {
    hide Preflight, LegacyImage, LegacyFrame, Concat, Wrapped, BE, HeaderBytes, ValidItem, DecryptFrame, IsFrame,
         ItemLen, NextIdAfter, SerializeIndex;
    PlanShape(c, s, header, s.dek, [], p);
    LegacyLayout(c, s, header, p, d);
    var fs := LegacyFrames(c, s.dek, p, d, TagsApart(header));
    forall i | 0 <= i < |fs|
      ensures |fs[i]| == SourceLen(p.sources[i])
    {
      LegacyFrameOpens(c, s.dek, p.itemAlg, d.items[i], p.sources[i].record, p.entries[i].itemId, TagsApart(header));
    }
    FramesLen(p.sources, fs);
  }

  /** A file of either layout can be migrated, to whatever key and parameters the password gives a wrapping key for. */
  lemma LegacyMigrates(c: Suite, s: Session, header: ParsedHeader, p: Plan, d: Draws, password: Bytes, dek: Key,
                       params: KdfParams, salt: Salt)
    requires Lawful(c) && Filed(c, s, header, p, password) && Fitting(p, d) && c.kdf(params, salt, password).Ok?
    ensures Migratable(c, LegacyImage(c, s, header, p, d), password, dek, params, salt)
  {
    hide LegacyImage, LegacyFrames, Preflight, OpenBytes, SessionFrames, ParseHeaderVersion, LegacyRecords, Migrated,
         LegacySession, CandidateLen, NextIdAfter;
    LegacySize(c, s, header, p, d, password);
    LegacyImageOpens(c, s, header, p, d, password);
    LegacyImageReads(c, s, header, p, d, password);
    MigratedFits(c, s, header, p, d, password, c.kdf(params, salt, password).value, dek, params, salt);
    SessionAlgorithms(c, s, header, p, password);
    assert LegacyRecords(c, LegacySession(s, header, p), LegacyFrames(c, s.dek, p, d, TagsApart(header)),
                         SealedRecords(p));
  }

  lemma SessionAlgorithms(c: Suite, s: Session, header: ParsedHeader, p: Plan, password: Bytes)
    requires Filed(c, s, header, p, password)
    ensures var t := LegacySession(s, header, p);
            t.config.wrapAlg == p.wrapAlg && t.config.itemAlg == p.itemAlg && t.dek == s.dek && t.tag == None
  {
  }

  /** What was filed: the entries in order, their states normalised, each with the record that was sealed. */
  function FiledItems(s: Session, p: Plan): (items: seq<Item>)
    requires |p.sources| == |s.entries| && forall i :: 0 <= i < |p.sources| ==> p.sources[i].Seal?
    ensures |items| == |s.entries|
  {
    seq(|s.entries|, i requires 0 <= i < |s.entries| =>
      Item(s.entries[i].itemId, if s.entries[i].state == 1 then 1 else 2, s.entries[i].title, s.entries[i].username,
           Ok(p.sources[i].record)))
  }

  /** What a first save asks of the session a migration saves. */
  lemma MigratedReady(c: Suite, s: Session, header: ParsedHeader, p: Plan, password: Bytes, kek: Key, dek: Key,
                      params: KdfParams, salt: Salt)
    requires Filed(c, s, header, p, password)
    ensures |SealedRecords(p)| == |LegacySession(s, header, p).entries|
    ensures var t := Migrated(LegacySession(s, header, p), SealedRecords(p), kek, dek, params, salt);
            && t.dek == dek && t.tag == None && |t.entries| == |s.entries| && SlotsDistinct(t.entries)
            && forall e :: e in t.entries ==> Dead(e.state) || (e.state == LIVE && e.slot in t.cache)
  {
    hide Preflight, NextIdAfter, CacheAll, SerializeIndex;
    PlanShape(c, s, header, s.dek, [], p);
    AllCached(LegacySession(s, header, p), SealedRecords(p), kek, dek, params, salt);
  }

  /** The migration goes through to its save. */
  lemma MigrationSaves(c: Suite, s: Session, header: ParsedHeader, p: Plan, d: Draws, password: Bytes, dek: Key,
                       params: KdfParams, salt: Salt, d': Draws)
    returns (s': Session, file: Bytes)
    requires Lawful(c) && Filed(c, s, header, p, password) && Fitting(p, d) && c.kdf(params, salt, password).Ok?
    requires |d'.items| == |s.entries|
    ensures MigrateStep(c, LegacyImage(c, s, header, p, d), password, c.kdf(params, salt, password).value, dek, params,
                        salt, None, s', Some(file), Ok(()), d')
  {
    hide LegacyImage, LegacyFrames, Preflight, OpenBytes, SessionFrames, ParseHeaderVersion, LegacyRecords,
         NextIdAfter, SaveStep, Authenticate, OldFile, FreshHeader, LegacySession, Migrated, SlotsDistinct, Remap;
    var kek := c.kdf(params, salt, password).value;
    var s0 := LegacySession(s, header, p);
    LegacyImageOpens(c, s, header, p, d, password);
    LegacyImageReads(c, s, header, p, d, password);
    MigratedFits(c, s, header, p, d, password, kek, dek, params, salt);
    MigratedReady(c, s, header, p, password, kek, dek, params, salt);
    SessionAlgorithms(c, s, header, p, password);
    var t := Migrated(s0, SealedRecords(p), kek, dek, params, salt);
    FreshHeaderIs(p.wrapAlg, p.itemAlg, params, salt);
    s', file := FreshSaves(c, t, FreshHeader(CURRENT_VERSION, p.wrapAlg, p.itemAlg, params, salt), None, d');
  }

  lemma FreshHeaderIs(wrapAlg: Algorithm, itemAlg: Algorithm, params: KdfParams, salt: Salt)
    ensures var h := FreshHeader(CURRENT_VERSION, wrapAlg, itemAlg, params, salt);
            h.version == CURRENT_VERSION && h.pad == ZERO_PAD
  {
  }

  /** Migrating it gives a current file with exactly the items that were filed. */
  lemma LegacyMigration(c: Suite, s: Session, header: ParsedHeader, p: Plan, d: Draws, password: Bytes, dek: Key,
                        params: KdfParams, salt: Salt, d': Draws)
    returns (s': Session, file: Bytes)
    requires Lawful(c) && Filed(c, s, header, p, password) && Fitting(p, d) && c.kdf(params, salt, password).Ok?
    requires |d'.items| == |s.entries|
    ensures MigrateStep(c, LegacyImage(c, s, header, p, d), password, c.kdf(params, salt, password).value, dek, params,
                        salt, None, s', Some(file), Ok(()), d')
    ensures |p.sources| == |s.entries| && Contents(c, file, dek) == Ok(FiledItems(s, p))
    ensures Ok(s'.nextId) == NextIdAfter(s.entries)
  {
    hide LegacyImage, LegacyFrames, Preflight, OpenBytes, SessionFrames, ParseHeaderVersion, LegacyContents, Contents,
         NextIdAfter, MigrateStep;
    s', file := MigrationSaves(c, s, header, p, d, password, dek, params, salt, d');
    LegacyImageOpens(c, s, header, p, d, password);
    FiledContents(c, s, header, p, d, password);
    MigrationPreserves(c, LegacyImage(c, s, header, p, d), password, c.kdf(params, salt, password).value, dek, params,
                       salt, None, s', Some(file), d');
  }

  lemma FiledContents(c: Suite, s: Session, header: ParsedHeader, p: Plan, d: Draws, password: Bytes)
    requires Lawful(c) && Filed(c, s, header, p, password) && Fitting(p, d)
    ensures |p.sources| == |s.entries|
    ensures LegacyContents(c, LegacyImage(c, s, header, p, d), LegacySession(s, header, p)) == Ok(FiledItems(s, p))
  {
    hide LegacyImage, LegacyFrames, Preflight, SessionFrames, ParseHeaderVersion, OpenSlot, NextIdAfter, OpenBytes,
         EveryFrameOpens, SerializeIndex;
    PlanShape(c, s, header, s.dek, [], p);
    LegacyImageOpens(c, s, header, p, d, password);
    LegacyImageReads(c, s, header, p, d, password);
    var (s0, fs) := (LegacySession(s, header, p), LegacyFrames(c, s.dek, p, d, TagsApart(header)));
    assert Items(c, s0.dek, s0.config.itemAlg, s0.config.version, s0.entries, fs) == FiledItems(s, p);
  }

  lemma ReservedIgnored(c: Suite, s: Session, header: ParsedHeader, p: Plan, password: Bytes, reserved: Reserved)
    requires Filed(c, s, header, p, password)
    ensures Filed(c, s, header.(reserved := reserved), p, password)
  {
    hide OldFile, SerializeIndex, Sources, FreshCount, SourcesLen, NextIdAfter;
  }

  /**
   One session filed in both layouts: the two files open to one session, hold the same ciphertexts and tags,
   and are both migrated, whatever the new keys and parameters; the two new vaults hold the same items and
   allocate the same id next.
   */
  lemma BothLayoutsMigrate(c: Suite, s: Session, header: ParsedHeader, p: Plan, d: Draws, password: Bytes,
                           dek1: Key, params1: KdfParams, salt1: Salt, d1: Draws,
                           dek2: Key, params2: KdfParams, salt2: Salt, d2: Draws)
    returns (s1: Session, file1: Bytes, s2: Session, file2: Bytes)
    requires Lawful(c) && Filed(c, s, header, p, password) && Fitting(p, d) && header.reserved[0] != 0xA5
    requires c.kdf(params1, salt1, password).Ok? && c.kdf(params2, salt2, password).Ok?
    requires |d1.items| == |d2.items| == |s.entries|
    ensures var combined := LegacyImage(c, s, header, p, d);
            var separate := LegacyImage(c, s, header.(reserved := header.reserved[0 := 0xA5]), p, d);
            && OpenBytes(c, combined, password, true).Ok?
            && OpenBytes(c, combined, password, true) == OpenBytes(c, separate, password, true)
            && SameVault(c, combined, separate, OpenBytes(c, combined, password, true).value,
                         OpenBytes(c, separate, password, true).value)
            && MigrateStep(c, combined, password, c.kdf(params1, salt1, password).value, dek1, params1, salt1, None, s1,
                           Some(file1), Ok(()), d1)
            && MigrateStep(c, separate, password, c.kdf(params2, salt2, password).value, dek2, params2, salt2, None, s2,
                           Some(file2), Ok(()), d2)
    ensures |p.sources| == |s.entries| && s1.nextId == s2.nextId
    ensures Contents(c, file1, dek1) == Contents(c, file2, dek2) == Ok(FiledItems(s, p))
  {
    hide LegacyImage, Filed, OpenBytes, SameVault, MigrateStep, Contents, NextIdAfter, LegacySession, FiledItems;
    var apart := header.(reserved := header.reserved[0 := 0xA5]);
    ReservedIgnored(c, s, header, p, password, apart.reserved);
    LayoutsAreOneVault(c, s, header, p, d, password);
    s1, file1 := LegacyMigration(c, s, header, p, d, password, dek1, params1, salt1, d1);
    s2, file2 := LegacyMigration(c, s, apart, p, d, password, dek2, params2, salt2, d2);
  }

  lemma LayoutsAreOneVault(c: Suite, s: Session, header: ParsedHeader, p: Plan, d: Draws, password: Bytes)
    requires Lawful(c) && Filed(c, s, header, p, password) && Fitting(p, d) && header.reserved[0] != 0xA5
    ensures var combined := LegacyImage(c, s, header, p, d);
            var separate := LegacyImage(c, s, header.(reserved := header.reserved[0 := 0xA5]), p, d);
            && OpenBytes(c, combined, password, true).Ok?
            && OpenBytes(c, combined, password, true) == OpenBytes(c, separate, password, true)
            && SameVault(c, combined, separate, OpenBytes(c, combined, password, true).value,
                         OpenBytes(c, separate, password, true).value)
  {
    hide LegacyImage, LegacyFrames, Preflight, OpenBytes, NextIdAfter, SessionFrames, ParseHeaderVersion, SameSealed;
    var apart := header.(reserved := header.reserved[0 := 0xA5]);
    ReservedIgnored(c, s, header, p, password, apart.reserved);
    LegacyImageOpens(c, s, header, p, d, password);
    LegacyImageOpens(c, s, apart, p, d, password);
    SealedAlike(c, s.dek, p, d);
    var (combined, separate) := (LegacyImage(c, s, header, p, d), LegacyImage(c, s, apart, p, d));
    var s0 := LegacySession(s, header, p);
    assert LegacySession(s, apart, p) == s0;
    assert SameVault(c, combined, separate, s0, s0);
  }

  lemma SealedAlike(c: Suite, dek: Key, p: Plan, d: Draws)
    requires Lawful(c) && Fitting(p, d) && AllSealed(p)
    ensures var (combined, separate) := (LegacyFrames(c, dek, p, d, false), LegacyFrames(c, dek, p, d, true));
            |combined| == |separate| && forall i :: 0 <= i < |combined| ==> SameSealed(combined[i], separate[i])
  {
    hide IsFrame, DecryptFrame, LegacyFrame, ValidItem, ItemBytes, ItemLen, ItemAad;
    forall i | 0 <= i < |p.sources|
      ensures SameSealed(LegacyFrames(c, dek, p, d, false)[i], LegacyFrames(c, dek, p, d, true)[i])
    {
      LegacyFrameOpens(c, dek, p.itemAlg, d.items[i], p.sources[i].record, p.entries[i].itemId, false);
      LegacyFrameOpens(c, dek, p.itemAlg, d.items[i], p.sources[i].record, p.entries[i].itemId, true);
    }
  }
}
