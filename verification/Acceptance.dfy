/**
 What is accepted, said without the code that accepts it: which saves and rotations have a
 plan, which items open and which files verify, for a session that is up to date with its file.
 */
module Acceptance {
  import opened Prelude
  import opened Crypto
  import opened Header
  import opened Shape
  import opened Frames
  import opened Image
  import opened SaveProof
  import opened Steps

  /** The file carries the MAC of its bytes and the checksum of its body, and the session knows the MAC. */
  ghost predicate Current(c: Suite, raw: Bytes, dek: Key, tag: Option<Mac>) {
    && ParseHeader(raw).Ok?
    && tag == Some(raw[|raw| - 32..]) && c.mac(dek, raw[..|raw| - 32]) == raw[|raw| - 32..]
    && BE32(c.crc(raw[..|raw| - 40])) == raw[|raw| - 36..|raw| - 32]
  }

  lemma CurrentIff(c: Suite, raw: Bytes, dek: Key, tag: Option<Mac>)
    ensures AuthenticateCurrent(c, raw, dek, tag).Ok? <==> Current(c, raw, dek, tag)
  {
    hide BE, ParseHeaderVersion;
    if ParseHeader(raw).Ok? {
      HeaderLong(raw);
      CrcBytes(c.crc(raw[..|raw| - 40]), raw[|raw| - 36..|raw| - 32]);
    }
  }

  lemma HeaderLong(raw: Bytes)
    requires ParseHeader(raw).Ok?
    ensures |raw| >= HEADER_LEN
  {
  }

  lemma CrcBytes(n: u32, b: Bytes)
    requires |b| == 4
    ensures BE32(n) == b <==> U32Of(b) == n
  {
    BEOfFromBE(b);
  }

  // ------------------------------------------------------- up to date with a file

  /** The index and the frames of a file, as the holder of the key reads them. */
  ghost function IndexOf(c: Suite, raw: Bytes, dek: Key, alg: Algorithm): seq<IndexEntry> {
    match ReadIndex(c, raw, CURRENT_VERSION, dek, alg) case Ok(es) => es case Err(_) => []
  }

  ghost function FramesIn(raw: Bytes): seq<Bytes> {
    match FramesOf(raw, true, TRAILER_LEN) case Ok(fs) => fs case Err(_) => []
  }

  /** Slots are positions, states are known, and cached records belong to entries. */
  ghost predicate Orderly(s: Session) {
    && s.config.version == CURRENT_VERSION
    && (forall p :: 0 <= p < |s.entries| ==>
          s.entries[p].slot == p && (s.entries[p].state == LIVE || s.entries[p].state == TOMBSTONE))
    && forall slot :: slot in s.cache ==> slot < |s.entries|
  }

  /** The file can be read in full with the key. */
  ghost predicate Intact(c: Suite, raw: Bytes, dek: Key, alg: Algorithm) {
    && ParseHeader(raw).Ok? && AlgorithmFromId(ParseHeader(raw).value.itemAlgId) == Ok(alg)
    && AlgorithmFromId(ParseHeader(raw).value.wrapAlgId).Ok?
    && ReadIndex(c, raw, CURRENT_VERSION, dek, alg).Ok? && FramesOf(raw, true, TRAILER_LEN).Ok?
    && IdsDistinct(IndexOf(c, raw, dek, alg))
    && |IndexOf(c, raw, dek, alg)| == |FramesIn(raw)|
    && forall p :: 0 <= p < |FramesIn(raw)| ==>
         && IndexOf(c, raw, dek, alg)[p].slot == p
         && DecryptFrame(c, dek, alg, CURRENT_VERSION, FramesIn(raw)[p], IndexOf(c, raw, dek, alg)[p].itemId).Ok?
  }

  /** The session's first entries are those of the file; any further one is cached or dead. */
  ghost predicate Extends(s: Session, es: seq<IndexEntry>) {
    && |es| <= |s.entries|
    && (forall p :: 0 <= p < |es| ==> s.entries[p].itemId == es[p].itemId)
    && forall p :: |es| <= p < |s.entries| ==> s.entries[p].state == TOMBSTONE || p in s.cache
  }

  /** The session is up to date with the file, up to what it has not saved yet. */
  ghost predicate Follows(c: Suite, s: Session, dek: Key, raw: Bytes) {
    && Orderly(s) && Current(c, raw, dek, s.tag) && Intact(c, raw, dek, s.config.itemAlg)
    && Extends(s, IndexOf(c, raw, dek, s.config.itemAlg))
  }

  // ----------------------------------------------------------------------- limits

  /** How long an entry's frame will be: sealed from the cache, sealed empty, or as it is in the file. */
  function FrameSize(cache: map<u32, ItemRecord>, frames: seq<Bytes>, e: IndexEntry): nat {
    if e.slot in cache then 12 + 4 + ItemLen(cache[e.slot]) + 16
    else if e.state == LIVE && e.slot < |frames| then |frames[e.slot]|
    else 12 + 4 + 25 + 16
  }

  function FramesSize(cache: map<u32, ItemRecord>, frames: seq<Bytes>, es: seq<IndexEntry>): nat {
    if es == [] then 0
    else FramesSize(cache, frames, es[..|es| - 1]) + FrameSize(cache, frames, es[|es| - 1])
  }

  function IndexSize(es: seq<IndexEntry>): nat {
    if es == [] then 4
    else IndexSize(es[..|es| - 1]) + 13 + |es[|es| - 1].title| + |es[|es| - 1].username|
  }

  /** Header, index frame, slot count, item frames and trailer. */
  function FileSize(cache: map<u32, ItemRecord>, frames: seq<Bytes>, es: seq<IndexEntry>): nat {
    117 + 12 + 4 + IndexSize(es) + 16 + 4 + FramesSize(cache, frames, es) + 40
  }

  /** What a record may hold. */
  predicate RecordFits(r: ItemRecord) {
    && (r.password.Some? ==> |r.password.value| <= 1024) && |r.url| <= 2048
    && (r.notes.Some? ==> |r.notes.value| <= 8192)
    && (r.totp.Some? ==> |r.totp.value.secret| <= 128 && r.totp.value.period > 0 && r.totp.value.digits in {6, 8})
  }

  lemma RecordIff(r: ItemRecord)
    ensures ValidItem(r) <==> RecordFits(r)
  {
  }

  /** Every text, record, the encryption counter and the file stay within their limits. */
  ghost predicate WithinLimits(s: Session, counter: nat, frames: seq<Bytes>) {
    && (forall e :: e in s.entries ==> |e.title| <= 256 && |e.username| <= 512)
    && (forall slot :: slot in s.cache ==> RecordFits(s.cache[slot]))
    && counter + FreshCount(s.cache, s.entries) + 1 <= 16777216
    && FileSize(s.cache, frames, s.entries) <= 67108864
  }

  /** There is room for an ordinary save of the session over the file. */
  ghost predicate HasRoom(s: Session, raw: Bytes) {
    ParseHeader(raw).Ok? && WithinLimits(s, ParseHeader(raw).value.encCounter, FramesIn(raw))
  }

  /** There is room for a rotation: nothing is unsaved, and everything fits when it is sealed afresh. */
  ghost predicate HasRoomToRotate(c: Suite, s: Session, raw: Bytes) {
    && |s.entries| == |IndexOf(c, raw, s.dek, s.config.itemAlg)| && Snapshot(c, s, raw).Ok?
    && WithinLimits(s.(cache := s.cache + Snapshot(c, s, raw).value), 0, FramesIn(raw))
  }

  // ------------------------------------------------------------------ the preflight

  lemma {:induction false} SlotMapAt(es: seq<IndexEntry>, p: nat)
    requires IdsDistinct(es) && p < |es|
    ensures es[p].itemId in SlotMap(es) && SlotMap(es)[es[p].itemId] == es[p].slot
  {
    if p < |es| - 1 {
      SlotMapAt(es[..|es| - 1], p);
    }
  }

  lemma OldFileIs(c: Suite, s: Session, dek: Key, raw: Bytes)
    requires Follows(c, s, dek, raw)
    ensures OldFile(c, s.tag, dek, raw) == Ok((SlotMap(IndexOf(c, raw, dek, s.config.itemAlg)), FramesIn(raw)))
  {
    hide ReadIndex, FramesOf, ParseHeaderVersion, AuthenticateCurrent, Current, DecryptFrame, SlotMap, Orderly,
         Extends, IdsDistinct;
    CurrentIff(c, raw, dek, s.tag);
    HeaderLong(raw);
    VersionIsCurrent(raw);
  }

  /** Where the frame of an entry comes from: there is always a place, and it fails only for an invalid record. */
  lemma SourceIff(c: Suite, s: Session, dek: Key, raw: Bytes, p: nat)
    requires Follows(c, s, dek, raw) && p < |s.entries|
    ensures var (e, frames) := (s.entries[p], FramesIn(raw));
            var source := SourceOf(s.cache, SlotMap(IndexOf(c, raw, dek, s.config.itemAlg)), frames, e);
            && (source.Ok? <==> (p in s.cache ==> ValidItem(s.cache[p])))
            && (source.Ok? ==> SourceLen(source.value) == FrameSize(s.cache, frames, e))
  {
    hide ReadIndex, FramesOf, ParseHeaderVersion, Current, DecryptFrame, SlotMap, IndexOf, FramesIn, IdsDistinct,
         ValidItem;
    var es := IndexOf(c, raw, dek, s.config.itemAlg);
    if p < |es| {
      SlotMapAt(es, p);
    }
  }

  lemma {:induction false} SourcesIff(cache: map<u32, ItemRecord>, slots: map<u32, u32>, frames: seq<Bytes>,
                                      es: seq<IndexEntry>)
    requires forall e :: e in es ==>
               var source := SourceOf(cache, slots, frames, e);
               source.Ok? ==> SourceLen(source.value) == FrameSize(cache, frames, e)
    ensures var r := Sources(cache, slots, frames, es);
            && (r.Ok? <==> forall e :: e in es ==> SourceOf(cache, slots, frames, e).Ok?)
            && (r.Ok? ==> SourcesLen(r.value) == FramesSize(cache, frames, es))
  {
    hide SourceOf, SourceLen, FrameSize;
    if es != [] {
      var (front, last) := (es[..|es| - 1], es[|es| - 1]);
      assert es == front + [last];
      SourcesIff(cache, slots, frames, front);
      var r := Sources(cache, slots, frames, es);
      if r.Ok? {
        assert r.value[..|es| - 1] == Sources(cache, slots, frames, front).value;
      }
    }
  }

  lemma {:induction false} IndexSizeIs(es: seq<IndexEntry>)
    ensures IndexSize(es) == 4 + EntriesLen(es) && IndexSize(es) >= 13 * |es|
  {
    if es != [] {
      IndexSizeIs(es[..|es| - 1]);
    }
  }

  lemma {:induction false} SameLengths(a: seq<IndexEntry>, b: seq<IndexEntry>)
    requires |a| == |b| && forall i :: 0 <= i < |a| ==> a[i].title == b[i].title && a[i].username == b[i].username
    ensures IndexSize(a) == IndexSize(b)
  {
    if a != [] {
      SameLengths(a[..|a| - 1], b[..|b| - 1]);
    }
  }

  /** An index is written exactly when its texts fit, and takes the space that was counted. */
  lemma IndexIff(s: Session)
    requires Orderly(s) && |s.entries| <= U32_MAX
    ensures var r := SerializeIndex(Renumber(s.entries));
            && (r.Ok? <==> forall e :: e in s.entries ==> |e.title| <= 256 && |e.username| <= 512)
            && (r.Ok? ==> |r.value| == IndexSize(s.entries))
  {
    hide EntriesBytes, BE32, IndexSize;
    var es := Renumber(s.entries);
    assert es == s.entries;
    if SerializeIndex(es).Ok? {
      EntriesBytesLen(NormAll(es));
      IndexSizeIs(NormAll(es));
      SameLengths(NormAll(es), s.entries);
    }
  }

  /** There are sources for all entries exactly when every cached record is valid, and they take the space counted. */
  lemma EverySource(c: Suite, s: Session, dek: Key, raw: Bytes)
    requires Follows(c, s, dek, raw)
    ensures var r := Sources(s.cache, SlotMap(IndexOf(c, raw, dek, s.config.itemAlg)), FramesIn(raw), s.entries);
            && (r.Ok? <==> forall e :: e in s.entries ==> (e.slot in s.cache ==> ValidItem(s.cache[e.slot])))
            && (r.Ok? ==> SourcesLen(r.value) == FramesSize(s.cache, FramesIn(raw), s.entries))
  {
    hide SourceOf, SourcesLen, Current, Intact, SlotMap, IndexOf, FramesIn, FramesSize, ValidItem, Sources;
    var (slots, frames) := (SlotMap(IndexOf(c, raw, dek, s.config.itemAlg)), FramesIn(raw));
    forall e | e in s.entries
      ensures SourceOf(s.cache, slots, frames, e).Ok? <==> (e.slot in s.cache ==> ValidItem(s.cache[e.slot]))
      ensures var source := SourceOf(s.cache, slots, frames, e);
              source.Ok? ==> SourceLen(source.value) == FrameSize(s.cache, frames, e)
    {
      var p :| 0 <= p < |s.entries| && s.entries[p] == e;
      SourceIff(c, s, dek, raw, p);
    }
    SourcesIff(s.cache, slots, frames, s.entries);
  }

  /**
   A session that is up to date has a plan exactly when nothing exceeds its limit: no live item of
   the file stands in the way, wherever its frame lies and whether it was opened or not.
   */
  lemma PreflightIff(c: Suite, s: Session, header: ParsedHeader, dek: Key, raw: Bytes)
    requires Follows(c, s, dek, raw)
    requires AlgorithmFromId(header.wrapAlgId).Ok? && AlgorithmFromId(header.itemAlgId).Ok?
    ensures Preflight(c, s, header, dek, raw).Ok? <==> WithinLimits(s, header.encCounter, FramesIn(raw))
  {
    hide OldFile, SerializeIndex, SourceOf, SourcesLen, Current, Intact, SlotMap, IndexOf, FramesIn, FramesSize,
         IndexSize, FreshCount, ValidItem, Sources, RecordFits;
    var (slots, frames) := (SlotMap(IndexOf(c, raw, dek, s.config.itemAlg)), FramesIn(raw));
    OldFileIs(c, s, dek, raw);
    IndexSizeIs(s.entries);
    EverySource(c, s, dek, raw);
    CachedByEntry(s);
    if |s.entries| <= U32_MAX {
      IndexIff(s);
    }
  }

  /** The same, for a session that has a file to lose. */
  lemma PlannedWithin(c: Suite, s: Session, header: ParsedHeader, dek: Key, raw: Bytes)
    requires Follows(c, s, dek, raw)
    ensures s.tag.Some?
    ensures AlgorithmFromId(header.wrapAlgId).Ok? && AlgorithmFromId(header.itemAlgId).Ok? ==>
              (Preflight(c, s, header, dek, raw).Ok? <==> WithinLimits(s, header.encCounter, FramesIn(raw)))
  {
    hide Preflight, WithinLimits, Intact, IndexOf, FramesIn, ParseHeaderVersion;
    if AlgorithmFromId(header.wrapAlgId).Ok? && AlgorithmFromId(header.itemAlgId).Ok? {
      PreflightIff(c, s, header, dek, raw);
    }
  }

  lemma CachedByEntry(s: Session)
    requires Orderly(s)
    ensures (forall slot :: slot in s.cache ==> RecordFits(s.cache[slot]))
         <==> forall e :: e in s.entries ==> (e.slot in s.cache ==> ValidItem(s.cache[e.slot]))
  {
    hide ValidItem, RecordFits;
    forall r: ItemRecord
      ensures ValidItem(r) <==> RecordFits(r)
    {
      RecordIff(r);
    }
    if forall e :: e in s.entries ==> (e.slot in s.cache ==> ValidItem(s.cache[e.slot])) {
      forall slot | slot in s.cache
        ensures RecordFits(s.cache[slot])
      {
        assert s.entries[slot] in s.entries && s.entries[slot].slot == slot;
      }
    }
  }

  /** An ordinary save has a plan exactly when nothing exceeds its limit. */
  lemma SaveIff(c: Suite, s: Session, raw: Bytes)
    requires Follows(c, s, s.dek, raw)
    ensures SavePlan(c, s, Some(raw)).Ok? <==> HasRoom(s, raw)
  {
    hide Preflight, Current, ReadIndex, FramesOf, ParseHeaderVersion, WithinLimits, DecryptFrame, IndexOf, FramesIn;
    PreflightIff(c, s, ParseHeader(raw).value, s.dek, raw);
  }

  // -------------------------------------------------------------- opening and verifying

  /** Every entry of the file opens its own frame. */
  lemma EntryOpens(c: Suite, s: Session, raw: Bytes, p: nat)
    requires Follows(c, s, s.dek, raw) && p < |IndexOf(c, raw, s.dek, s.config.itemAlg)|
    ensures p < |s.entries| && s.entries[p].slot == p && p < |FramesIn(raw)|
    ensures OpenSlot(c, s.dek, s.config.itemAlg, s.config.version, FramesIn(raw), p, s.entries[p].itemId)
         == DecryptFrame(c, s.dek, s.config.itemAlg, CURRENT_VERSION, FramesIn(raw)[p], s.entries[p].itemId)
    ensures DecryptFrame(c, s.dek, s.config.itemAlg, CURRENT_VERSION, FramesIn(raw)[p], s.entries[p].itemId).Ok?
  {
    hide ReadIndex, FramesOf, ParseHeaderVersion, Current, DecryptFrame, IndexOf, FramesIn, IdsDistinct;
  }

  /** An item opens exactly when it is live: neither its place nor whether it was opened before matters. */
  lemma OpenIff(c: Suite, s: Session, raw: Bytes, id: u32)
    requires Follows(c, s, s.dek, raw)
    ensures OpenItem(c, s, raw, id).1.Ok? <==> exists e :: e in s.entries && e.itemId == id && e.state == LIVE
  {
    hide Current, OpenSlot, FramesOf, ReadIndex, ParseHeaderVersion, DecryptFrame, AuthenticateCurrent, IdsDistinct;
    CurrentIff(c, raw, s.dek, s.tag);
    if LivePosition(s.entries, id).Some? {
      var p := LivePosition(s.entries, id).value;
      assert s.entries[p] in s.entries;
      if p < |IndexOf(c, raw, s.dek, s.config.itemAlg)| {
        EntryOpens(c, s, raw, p);
      }
    }
  }

  lemma {:induction false} LiveRecordsOk(c: Suite, s: Session, frames: seq<Bytes>, es: seq<IndexEntry>)
    requires forall e :: e in es && e.state == LIVE ==>
               OpenSlot(c, s.dek, s.config.itemAlg, s.config.version, frames, e.slot, e.itemId).Ok?
    ensures LiveRecords(c, s, frames, es).Ok?
  {
    hide OpenSlot;
    if es != [] {
      assert es[|es| - 1] in es;
      LiveRecordsOk(c, s, frames, es[..|es| - 1]);
    }
  }

  /** A snapshot can be taken exactly when nothing was added since the file was written. */
  lemma SnapshotIff(c: Suite, s: Session, raw: Bytes)
    requires Follows(c, s, s.dek, raw)
    ensures Snapshot(c, s, raw).Ok? <==> |s.entries| == |IndexOf(c, raw, s.dek, s.config.itemAlg)|
  {
    hide Current, OpenSlot, FramesOf, ReadIndex, ParseHeaderVersion, DecryptFrame, AuthenticateCurrent, IdsDistinct,
         LiveRecords;
    CurrentIff(c, raw, s.dek, s.tag);
    if |s.entries| == |IndexOf(c, raw, s.dek, s.config.itemAlg)| {
      forall e | e in s.entries
        ensures OpenSlot(c, s.dek, s.config.itemAlg, s.config.version, FramesIn(raw), e.slot, e.itemId).Ok?
      {
        var p :| 0 <= p < |s.entries| && s.entries[p] == e;
        EntryOpens(c, s, raw, p);
      }
      LiveRecordsOk(c, s, FramesIn(raw), s.entries);
    }
  }

  /** The file verifies exactly then, too. */
  lemma VerifiesIff(c: Suite, s: Session, raw: Bytes)
    requires Follows(c, s, s.dek, raw)
    ensures FileVerifies(c, s, raw) <==> |s.entries| == |IndexOf(c, raw, s.dek, s.config.itemAlg)|
  {
    hide Current, OpenSlot, FramesOf, ReadIndex, ParseHeaderVersion, DecryptFrame, AuthenticateCurrent, IdsDistinct;
    CurrentIff(c, raw, s.dek, s.tag);
    if |s.entries| == |IndexOf(c, raw, s.dek, s.config.itemAlg)| {
      forall e | e in s.entries
        ensures e.slot < |FramesIn(raw)|
        ensures OpenSlot(c, s.dek, s.config.itemAlg, s.config.version, FramesIn(raw), e.slot, e.itemId).Ok?
      {
        var p :| 0 <= p < |s.entries| && s.entries[p] == e;
        EntryOpens(c, s, raw, p);
      }
    }
  }

  /** Every frame belongs to one entry, and opens to a record under that entry's id. */
  ghost predicate EachOpens(c: Suite, s: Session, frames: seq<Bytes>) {
    && |frames| == |s.entries|
    && (forall a, b :: 0 <= a < b < |s.entries| ==> s.entries[a].slot != s.entries[b].slot)
    && forall e :: e in s.entries ==>
         && e.slot < |frames|
         && DecryptFrame(c, s.dek, s.config.itemAlg, s.config.version, frames[e.slot], e.itemId).Ok?
  }

  lemma AllEachOpen(c: Suite, s: Session, frames: seq<Bytes>)
    requires EveryFrameOpens(c, s.dek, s.config.itemAlg, s.config.version, s.entries, frames)
    ensures EachOpens(c, s, frames)
  {
    hide DecryptFrame;
  }

  // -------------------------------------------------------------------- rotation

  lemma SnapshotSlots(c: Suite, s: Session, raw: Bytes)
    requires Snapshot(c, s, raw).Ok? && Orderly(s)
    ensures forall slot :: slot in Snapshot(c, s, raw).value ==> slot < |s.entries|
  {
    hide LiveRecords, FramesOf, AuthenticateCurrent;
    LiveSlots(c, s, FramesOf(raw, true, TRAILER_LEN).value, s.entries, |s.entries|);
  }

  lemma {:induction false} LiveSlots(c: Suite, s: Session, frames: seq<Bytes>, es: seq<IndexEntry>, n: nat)
    requires LiveRecords(c, s, frames, es).Ok? && forall e :: e in es ==> e.slot < n
    ensures forall slot :: slot in LiveRecords(c, s, frames, es).value ==> slot < n
  {
    hide OpenSlot;
    if es != [] {
      LiveSlots(c, s, frames, es[..|es| - 1], n);
    }
  }

  /** The session as a rotation saves it is up to date with the same file. */
  lemma RekeyedFollows(c: Suite, s: Session, raw: Bytes, kek: Key, dek: Key, params: KdfParams, salt: Salt)
    requires Follows(c, s, s.dek, raw) && Snapshot(c, s, raw).Ok?
    ensures Follows(c, Rekeyed(s.(cache := s.cache + Snapshot(c, s, raw).value), kek, dek, params, salt), s.dek, raw)
  {
    hide Current, Intact, IndexOf, Snapshot;
    SnapshotSlots(c, s, raw);
  }

  /** A rotation has a plan exactly when nothing is unsaved, the new key can be derived, and the sealed items fit. */
  lemma RotateIff(c: Suite, s: Session, raw: Bytes, password: Bytes, params: KdfParams, salt: Salt, dek: Key)
    requires Follows(c, s, s.dek, raw)
    ensures RotatePlan(c, s, password, params, salt, dek, Some(raw)).Ok?
       <==> c.kdf(params, salt, password).Ok? && HasRoomToRotate(c, s, raw)
  {
    hide Follows, Snapshot, Preflight, IndexOf, FramesIn, FileSize, FreshCount, RecordFits;
    SnapshotIff(c, s, raw);
    if Snapshot(c, s, raw).Ok? && c.kdf(params, salt, password).Ok? {
      var kek := c.kdf(params, salt, password).value;
      RekeyedFollows(c, s, raw, kek, dek, params, salt);
      var t := Rekeyed(s.(cache := s.cache + Snapshot(c, s, raw).value), kek, dek, params, salt);
      PreflightIff(c, t, FreshHeader(s.config.version, s.config.wrapAlg, s.config.itemAlg, params, salt), s.dek, raw);
    }
  }

  /** A password change has a plan exactly when an ordinary save would have one. */
  lemma PasswordIff(c: Suite, s: Session, raw: Bytes, kek: Key, params: KdfParams, salt: Salt)
    requires Follows(c, s, s.dek, raw)
    ensures PasswordPlan(c, s, kek, params, salt, Some(raw)).Ok? <==> HasRoom(s, raw)
  {
    hide Preflight, Current, ReadIndex, FramesOf, ParseHeaderVersion, FileSize, FreshCount, RecordFits, DecryptFrame,
         IndexOf, FramesIn;
    var t := s.(kek := kek, config := s.config.(params := params, salt := salt));
    assert Follows(c, t, s.dek, raw);
    PreflightIff(c, t, PasswordHeader(ParseHeader(raw).value, params, salt), s.dek, raw);
  }

  // ------------------------------------------------------- candidates of operations

  lemma TombstonedOrderly(s: Session, i: nat)
    requires Orderly(s) && i < |s.entries|
    ensures s.entries[i].slot == i && Orderly(TombstonedAt(s, i, i))
  {
  }

  lemma TombstonedExtends(s: Session, es: seq<IndexEntry>, i: u32)
    requires Extends(s, es) && i < |s.entries|
    ensures Extends(TombstonedAt(s, i, i), es)
  {
    var t := TombstonedAt(s, i, i);
    forall p | |es| <= p < |t.entries|
      ensures t.entries[p].state == TOMBSTONE || p in t.cache
    {
      if p != i {
        assert t.entries[p] == s.entries[p];
      }
    }
  }

  lemma DeletedFollows(c: Suite, s: Session, dek: Key, raw: Bytes, i: nat)
    requires Follows(c, s, dek, raw) && i < |s.entries|
    ensures s.entries[i].slot == i && Follows(c, TombstonedAt(s, i, i), dek, raw)
  {
    hide Current, Intact, IndexOf, Orderly, Extends;
    TombstonedOrderly(s, i);
    TombstonedExtends(s, IndexOf(c, raw, dek, s.config.itemAlg), i);
  }

  lemma EditedFollows(c: Suite, s: Session, dek: Key, raw: Bytes, i: nat, title: Text, username: Text,
                      record: ItemRecord)
    requires Follows(c, s, dek, raw) && i < |s.entries|
    ensures Follows(c, EditedAt(s, i, title, username, record), dek, raw)
  {
    hide Current, Intact, IndexOf;
  }

  /** More of the cache, over the same entries. */
  lemma CachedFollows(c: Suite, s: Session, t: Session, dek: Key, raw: Bytes)
    requires Follows(c, s, dek, raw) && t == s.(cache := t.cache)
    requires forall slot :: slot in s.cache ==> slot in t.cache
    requires forall slot :: slot in t.cache ==> slot < |s.entries|
    ensures Follows(c, t, dek, raw)
  {
    hide Current, Intact, IndexOf;
  }

  lemma AddedFollows(c: Suite, s: Session, dek: Key, raw: Bytes, title: Text, username: Text, record: ItemRecord)
    requires Follows(c, s, dek, raw)
    ensures Follows(c, AddItem(s, title, username, record).0, dek, raw)
  {
    hide Current, Intact, IndexOf;
  }

  lemma {:induction false} AllAddedFollows(c: Suite, s: Session, dek: Key, raw: Bytes, adds: seq<NewItem>)
    requires Follows(c, s, dek, raw)
    ensures Follows(c, AddAll(s, adds).0, dek, raw)
  {
    hide Follows, AddItem;
    if adds != [] {
      AllAddedFollows(c, s, dek, raw, adds[..|adds| - 1]);
      var last := adds[|adds| - 1];
      AddedFollows(c, AddAll(s, adds[..|adds| - 1]).0, dek, raw, last.title, last.username, last.record);
    }
  }

  /** What an uncached live entry stands for is what the file holds at its place. */
  lemma FileHolds(c: Suite, s: Session, raw: Bytes, p: nat)
    requires Follows(c, s, s.dek, raw) && p < |IndexOf(c, raw, s.dek, s.config.itemAlg)|
    ensures |raw| >= HEADER_LEN
    ensures p < |s.entries| && Contents(c, raw, s.dek).Ok? && p < |Contents(c, raw, s.dek).value|
    ensures var item := Contents(c, raw, s.dek).value[p];
            && item.id == s.entries[p].itemId && item.record.Ok?
            && Lookup(Contents(c, raw, s.dek).value, s.entries[p].itemId) == item.record
  {
    hide Current, ReadIndex, FramesOf, ParseHeaderVersion, DecryptFrame, Lookup;
    HeaderLong(raw);
    VersionIsCurrent(raw);
    LookupAt(Contents(c, raw, s.dek).value, p);
  }
}
