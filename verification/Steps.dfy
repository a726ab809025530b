/**
 What each operation of a session may do to the session and to the file, as
 relations between the state before and the state after. Failures that depend on
 the environment (I/O, the lock, the random source) are left open, so a relation
 covers every outcome; the methods of `VaultSession` are proved to stay within it.
 */
module Steps {
  import opened Prelude
  import opened Crypto
  import opened Header
  import opened Shape
  import opened Frames
  import opened Image

  function BytesOf(disk: Option<Bytes>): Bytes {
    if disk.Some? then disk.value else []
  }

  /** Stands in for the draws of a save that made none. */
  function NoDraws(n: nat): Draws {
    Draws(Zeros(NONCE_LEN), Zeros(NONCE_LEN), seq(n, _ => Zeros(NONCE_LEN)))
  }

  ghost function NewImage(c: Suite, s: Session, header: ParsedHeader, p: Plan, d: Draws): Option<Bytes>
    requires Lawful(c) && Fitting(p, d)
  {
    Some(ImageOf(c, s, header, p, d))
  }

  /** The file is unchanged, or the complete new image was published. */
  ghost predicate OldOrNew(c: Suite, s: Session, header: ParsedHeader, p: Plan, d: Draws, disk: Option<Bytes>,
                           disk': Option<Bytes>)
    requires Lawful(c) && Fitting(p, d)
  {
    disk' == disk || (disk' == NewImage(c, s, header, p, d) && (s.tag.None? ==> disk.None?))
  }

  /**
   `save_with_header_locked`. When the preflight refuses, nothing changes. Otherwise the
   save succeeds, with the new image on disk and the session moved on; or it fails,
   with the session untouched and the file either old or already the complete new one.
   */
  ghost predicate SaveStep(c: Suite, s: Session, header: ParsedHeader, diskDek: Key, disk: Option<Bytes>,
                           s': Session, disk': Option<Bytes>, r: Result<()>, d: Draws)
    requires Lawful(c)
  {
    match Preflight(c, s, header, diskDek, BytesOf(disk))
    case Err(_) => r.Err? && s' == s && disk' == disk
    case Ok(p) =>
      PlanShape(c, s, header, diskDek, BytesOf(disk), p);
      && Fitting(p, d)
      && OldOrNew(c, s, header, p, d, disk, disk')
      && if r.Ok?
         then s' == Committed(s, p, TagOf(c, s, header, p, d)) && disk' == NewImage(c, s, header, p, d)
              && (s.tag.None? ==> disk.None?)
         else s' == s
  }

  /** The image a save with these draws would publish, if its plan exists. */
  ghost function SaveImage(c: Suite, s: Session, header: ParsedHeader, diskDek: Key, disk: Option<Bytes>,
                           d: Draws): Option<Bytes>
    requires Lawful(c)
  {
    match Preflight(c, s, header, diskDek, BytesOf(disk))
    case Err(_) => None
    case Ok(p) => if Fitting(p, d) then NewImage(c, s, header, p, d) else None
  }

  /** The same for `save`, whose header comes from the file. */
  ghost function PlainImage(c: Suite, s: Session, disk: Option<Bytes>, d: Draws): Option<Bytes>
    requires Lawful(c)
  {
    if disk.Some? && ParseHeader(disk.value).Ok? then SaveImage(c, s, ParseHeader(disk.value).value, s.dek, disk, d)
    else None
  }

  lemma SaveSucceeded(c: Suite, s: Session, header: ParsedHeader, diskDek: Key, disk: Option<Bytes>, p: Plan, d: Draws,
                      s': Session, disk': Option<Bytes>)
    requires Lawful(c) && Preflight(c, s, header, diskDek, BytesOf(disk)) == Ok(p) && Fitting(p, d)
    requires |s.entries| <= U32_MAX && s' == Committed(s, p, TagOf(c, s, header, p, d))
    requires disk' == NewImage(c, s, header, p, d) && (s.tag.None? ==> disk.None?)
    ensures SaveStep(c, s, header, diskDek, disk, s', disk', Ok(()), d)
  {
    hide Preflight, Committed, ImageOf, TagOf, Fitting;
  }

  lemma SaveFailed(c: Suite, s: Session, header: ParsedHeader, diskDek: Key, disk: Option<Bytes>, d: Draws,
                   disk': Option<Bytes>, error: Error)
    requires Lawful(c)
    requires match Preflight(c, s, header, diskDek, BytesOf(disk))
             case Err(_) => disk' == disk
             case Ok(p) => Fitting(p, d) && OldOrNew(c, s, header, p, d, disk, disk')
    ensures SaveStep(c, s, header, diskDek, disk, s, disk', Err(error), d)
  {
    hide Preflight, Committed, ImageOf, TagOf, Fitting;
  }

  /** `save`: the header comes from the file itself. */
  ghost predicate PlainSave(c: Suite, s: Session, disk: Option<Bytes>, s': Session, disk': Option<Bytes>,
                            r: Result<()>, d: Draws)
    requires Lawful(c)
  {
    || (r.Err? && s' == s && disk' == disk)
    || (&& disk.Some? && ParseHeader(disk.value).Ok?
        && SaveStep(c, s, ParseHeader(disk.value).value, s.dek, disk, s', disk', r, d))
  }

  /** What `save` will do if nothing goes wrong around it: the plan, or the reason to refuse. */
  ghost function SavePlan(c: Suite, s: Session, disk: Option<Bytes>): Result<Plan> {
    if disk.None? then Err(Encrypt) else
    var h :- ParseHeader(disk.value);
    Preflight(c, s, h, s.dek, disk.value)
  }

  /** A preflight that accepts a file has recognised the tag the session keeps. */
  lemma PreflightKnowsTag(c: Suite, s: Session, header: ParsedHeader, diskDek: Key, disk: Bytes)
    requires Preflight(c, s, header, diskDek, disk).Ok?
    ensures if disk == [] then s.tag.None? else |disk| >= MAC_LEN && s.tag == Some(disk[|disk| - MAC_LEN..])
  {
    hide ReadIndex, Sources, SerializeIndex, FramesOf, FreshCount;
  }

  // ------------------------------------------------------------------- entries

  function Position(es: seq<IndexEntry>, id: u32): (r: Option<nat>)
    ensures r.Some? ==> r.value < |es| && es[r.value].itemId == id
    ensures r.Some? ==> forall i :: 0 <= i < r.value ==> es[i].itemId != id
    ensures r.None? ==> forall e :: e in es ==> e.itemId != id
  {
    if es == [] then None
    else
      var front := Position(es[..|es| - 1], id);
      assert es == es[..|es| - 1] + [es[|es| - 1]];
      if front.Some? then front
      else if es[|es| - 1].itemId == id then Some(|es| - 1) else None
  }

  /** The first live entry with the id. */
  function LivePosition(es: seq<IndexEntry>, id: u32): (r: Option<nat>)
    ensures r.Some? ==> r.value < |es| && es[r.value].itemId == id && es[r.value].state == LIVE
    ensures r.Some? ==> forall i :: 0 <= i < r.value ==> es[i].itemId != id || es[i].state != LIVE
    ensures r.None? ==> forall e :: e in es ==> e.itemId != id || e.state != LIVE
  {
    if es == [] then None
    else
      var front := LivePosition(es[..|es| - 1], id);
      assert es == es[..|es| - 1] + [es[|es| - 1]];
      var last := es[|es| - 1];
      if front.Some? then front
      else if last.itemId == id && last.state == LIVE then Some(|es| - 1) else None
  }

  /** No two entries share an id. Every index the program grows itself is like this; a migrated one may not be. */
  ghost predicate IdsDistinct(es: seq<IndexEntry>) {
    forall a, b :: 0 <= a < b < |es| ==> es[a].itemId != es[b].itemId
  }

  /** Then the first entry with an id is the live one, if there is a live one. */
  lemma DistinctIdsAgree(es: seq<IndexEntry>, id: u32)
    requires IdsDistinct(es) && LivePosition(es, id).Some?
    ensures Position(es, id) == LivePosition(es, id)
  {
    var i := LivePosition(es, id).value;
    assert es[i] in es;
  }

  /** `add_item`. An error after the id was taken does not give it back. */
  function AddItem(s: Session, title: Text, username: Text, record: ItemRecord): (Session, Result<u32>) {
    if s.nextId == U32_MAX then (s, Err(Encrypt))
    else
      var s1 := s.(nextId := s.nextId + 1);
      if |s.entries| > U32_MAX then (s1, Err(Encrypt))
      else
        (s1.(entries := s.entries + [IndexEntry(s.nextId, |s.entries|, LIVE, title, username)],
             cache := s.cache[|s.entries| := record]),
         Ok(s.nextId))
  }

  /** `open_item`: the session may cache the record the file holds. */
  ghost function OpenItem(c: Suite, s: Session, raw: Bytes, id: u32): (Session, Result<()>) {
    match AuthenticateCurrent(c, raw, s.dek, s.tag)
    case Err(e) => (s, Err(e))
    case Ok(_) =>
      match LivePosition(s.entries, id)
      case None => (s, Err(Encrypt))
      case Some(i) =>
        var slot := s.entries[i].slot;
        if slot in s.cache then (s, Ok(()))
        else match FramesOf(raw, true, TRAILER_LEN)
          case Err(e) => (s, Err(e))
          case Ok(frames) =>
            match OpenSlot(c, s.dek, s.config.itemAlg, s.config.version, frames, slot, id)
            case Err(e) => (s, Err(e))
            case Ok(record) => (s.(cache := s.cache[slot := record]), Ok(()))
  }

  /** The candidate of `commit_entry`. */
  function EditedAt(s: Session, i: nat, title: Text, username: Text, record: ItemRecord): Session
    requires i < |s.entries|
  {
    var e := s.entries[i];
    s.(entries := s.entries[i := e.(title := title, username := username)], cache := s.cache[e.slot := record])
  }

  /** What `commit_entry` puts back after a failed save. */
  function EntryRestored(s: Session, before: Session, i: nat): Session
    requires i < |s.entries| && i < |before.entries|
  {
    var (e, was) := (s.entries[i], before.entries[i]);
    s.(entries := s.entries[i := e.(title := was.title, username := was.username)],
       cache := if was.slot in before.cache then s.cache[was.slot := before.cache[was.slot]] else s.cache)
  }

  /** `commit_entry`: the edit is committed, or undone as far as the code undoes it. */
  ghost predicate EntryStep(c: Suite, s: Session, id: u32, title: Text, username: Text, record: ItemRecord,
                            disk: Option<Bytes>, s': Session, disk': Option<Bytes>, r: Result<()>, d: Draws)
    requires Lawful(c)
  {
    match Position(s.entries, id)
    case None => r.Err? && s' == s && disk' == disk
    case Some(i) =>
      var s1 := EditedAt(s, i, title, username, record);
      if r.Ok? then PlainSave(c, s1, disk, s', disk', r, d)
      else PlainSave(c, s1, disk, s1, disk', r, d) && s' == EntryRestored(s1, s, i)
  }

  /** The candidate of `commit_tombstone`. */
  function TombstonedAt(s: Session, i: nat, slot: u32): Session
    requires i < |s.entries|
  {
    s.(entries := s.entries[i := s.entries[i].(state := TOMBSTONE)], cache := s.cache - {slot})
  }

  function TombstoneRestored(s: Session, before: Session, i: nat, slot: u32): Session
    requires i < |s.entries| && i < |before.entries|
  {
    s.(entries := s.entries[i := s.entries[i].(state := before.entries[i].state)],
       cache := if slot in before.cache then s.cache[slot := before.cache[slot]] else s.cache)
  }

  /** `commit_tombstone`. */
  ghost predicate TombstoneStep(c: Suite, s: Session, id: u32, disk: Option<Bytes>,
                                s': Session, disk': Option<Bytes>, r: Result<()>, d: Draws)
    requires Lawful(c)
  {
    match LivePosition(s.entries, id)
    case None => r.Err? && s' == s && disk' == disk
    case Some(live) =>
      var slot := s.entries[live].slot;
      match Position(s.entries, id)
      case None => r.Err? && s' == s && disk' == disk
      case Some(i) =>
        var s1 := TombstonedAt(s, i, slot);
        if r.Ok? then PlainSave(c, s1, disk, s', disk', r, d)
        else PlainSave(c, s1, disk, s1, disk', r, d) && s' == TombstoneRestored(s1, s, i, slot)
  }

  datatype NewItem = NewItem(title: Text, username: Text, record: ItemRecord)

  /** The adds of an import, in order, up to the first that fails. */
  function AddAll(s: Session, adds: seq<NewItem>): (Session, Result<()>) {
    if adds == [] then (s, Ok(()))
    else
      var (s1, r1) := AddAll(s, adds[..|adds| - 1]);
      if r1.Err? then (s1, r1)
      else
        var last := adds[|adds| - 1];
        var (s2, r2) := AddItem(s1, last.title, last.username, last.record);
        (s2, if r2.Ok? then Ok(()) else Err(r2.error))
  }

  function PutAll(cache: map<u32, ItemRecord>, updates: seq<(u32, ItemRecord)>): map<u32, ItemRecord> {
    if updates == [] then cache
    else PutAll(cache, updates[..|updates| - 1])[updates[|updates| - 1].0 := updates[|updates| - 1].1]
  }

  /** `commit_import`: adds and updates in memory, then one save; nothing is taken back. */
  ghost predicate ImportStep(c: Suite, s: Session, adds: seq<NewItem>, updates: seq<(u32, ItemRecord)>,
                             disk: Option<Bytes>, s': Session, disk': Option<Bytes>, r: Result<()>, d: Draws)
    requires Lawful(c)
  {
    var (s1, added) := AddAll(s, adds);
    if added.Err? then r.Err? && s' == s1 && disk' == disk
    else PlainSave(c, s1.(cache := PutAll(s1.cache, updates)), disk, s', disk', r, d)
  }

  /** Every live entry's record as the file holds it, by slot; an error if one does not open. */
  ghost function LiveRecords(c: Suite, s: Session, frames: seq<Bytes>,
                             es: seq<IndexEntry>): Result<map<u32, ItemRecord>>
  {
    if es == [] then Ok(map[])
    else
      var front :- LiveRecords(c, s, frames, es[..|es| - 1]);
      var e := es[|es| - 1];
      if e.state != LIVE then Ok(front)
      else
        var record :- OpenSlot(c, s.dek, s.config.itemAlg, s.config.version, frames, e.slot, e.itemId);
        Ok(front[e.slot := record])
  }

  /** `snapshot`, then every live record decrypted from it. */
  ghost function Snapshot(c: Suite, s: Session, raw: Bytes): Result<map<u32, ItemRecord>> {
    var _ :- AuthenticateCurrent(c, raw, s.dek, s.tag);
    var frames :- FramesOf(raw, true, TRAILER_LEN);
    if |frames| != |s.entries| then Err(Encrypt) else LiveRecords(c, s, frames, s.entries)
  }

  /** A header that starts a fresh data key: its counter starts again at zero. */
  function FreshHeader(version: byte, wrapAlg: Algorithm, itemAlg: Algorithm, params: KdfParams,
                       salt: Salt): ParsedHeader
  {
    ParsedHeader(version, 1, wrapAlg.Id(), itemAlg.Id(), [0, 0, 0], params, salt, 0,
                 Zeros(NONCE_LEN), ZERO_KEY, ZERO_TAG, ZERO_PAD)
  }

  function Rekeyed(s: Session, kek: Key, dek: Key, params: KdfParams, salt: Salt): Session {
    s.(kek := kek, dek := dek, config := s.config.(params := params, salt := salt, encCounter := 0))
  }

  /**
   `rotate`, given the new keys. `snap` is the file as first read, `disk` the file
   under the lock; the session may keep the records it decrypted even on failure.
   */
  ghost predicate RotateStep(c: Suite, s: Session, kek: Key, dek: Key, params: KdfParams, salt: Salt, snap: Bytes,
                             disk: Option<Bytes>, s': Session, disk': Option<Bytes>, r: Result<()>, d: Draws)
    requires Lawful(c)
  {
    match Snapshot(c, s, snap)
    case Err(_) => r.Err? && s' == s && disk' == disk
    case Ok(live) =>
      var s1 := s.(cache := s.cache + live);
      var s2 := Rekeyed(s1, kek, dek, params, salt);
      var header := FreshHeader(s.config.version, s.config.wrapAlg, s.config.itemAlg, params, salt);
      if r.Ok? then SaveStep(c, s2, header, s.dek, disk, s', disk', r, d)
      else s' == s1 && (disk' == disk || SaveStep(c, s2, header, s.dek, disk, s2, disk', r, d))
  }

  function PasswordHeader(h: ParsedHeader, params: KdfParams, salt: Salt): ParsedHeader {
    h.(params := params, salt := salt)
  }

  /** `change_password`, given the new wrapping key. */
  ghost predicate PasswordStep(c: Suite, s: Session, kek: Key, params: KdfParams, salt: Salt,
                               disk: Option<Bytes>, s': Session, disk': Option<Bytes>, r: Result<()>, d: Draws)
    requires Lawful(c)
  {
    var s1 := s.(kek := kek, config := s.config.(params := params, salt := salt));
    if r.Ok? then
      && disk.Some? && ParseHeader(disk.value).Ok?
      && SaveStep(c, s1, PasswordHeader(ParseHeader(disk.value).value, params, salt), s.dek, disk, s', disk', r, d)
    else
      && s' == s
      && (disk' == disk
          || (&& disk.Some? && ParseHeader(disk.value).Ok?
              && SaveStep(c, s1, PasswordHeader(ParseHeader(disk.value).value, params, salt), s.dek, disk, s1, disk',
                          r, d)))
  }

  /** What `rotate` will do if nothing goes wrong around it. */
  ghost function RotatePlan(c: Suite, s: Session, password: Bytes, params: KdfParams, salt: Salt, dek: Key,
                            disk: Option<Bytes>): Result<Plan>
  {
    if disk.None? then Err(Encrypt) else
    var live :- Snapshot(c, s, disk.value);
    var kek :- c.kdf(params, salt, password);
    Preflight(c, Rekeyed(s.(cache := s.cache + live), kek, dek, params, salt),
              FreshHeader(s.config.version, s.config.wrapAlg, s.config.itemAlg, params, salt), s.dek, disk.value)
  }

  /** What `change_password` will do if nothing goes wrong around it, given the new wrapping key. */
  ghost function PasswordPlan(c: Suite, s: Session, kek: Key, params: KdfParams, salt: Salt,
                              disk: Option<Bytes>): Result<Plan>
  {
    if disk.None? then Err(Encrypt) else
    var h :- ParseHeader(disk.value);
    Preflight(c, s.(kek := kek, config := s.config.(params := params, salt := salt)), PasswordHeader(h, params, salt),
              s.dek, disk.value)
  }

  /** The session a creation starts from. */
  function Newborn(kek: Key, dek: Key, params: KdfParams, salt: Salt, wrapAlg: Algorithm, itemAlg: Algorithm): Session {
    Session(Config(CURRENT_VERSION, wrapAlg, itemAlg, params, salt, 0), kek, dek, [], map[], 1, None)
  }

  // -------------------------------------------------------------- verification

  ghost predicate SlotsDistinct(es: seq<IndexEntry>) {
    forall i, j :: 0 <= i < j < |es| ==> es[i].slot != es[j].slot
  }

  /** Every entry opens its own frame of the file, and no frame is left over. */
  ghost predicate EveryFrameOpens(c: Suite, dek: Key, alg: Algorithm, version: byte, es: seq<IndexEntry>,
                                  frames: seq<Bytes>)
  {
    && |frames| == |es|
    && SlotsDistinct(es)
    && (forall e :: e in es ==> e.slot < |frames|)
    && (forall e :: e in es ==> OpenSlot(c, dek, alg, version, frames, e.slot, e.itemId).Ok?)
  }

  ghost predicate FileVerifies(c: Suite, s: Session, raw: Bytes) {
    && AuthenticateCurrent(c, raw, s.dek, s.tag).Ok?
    && FramesOf(raw, true, TRAILER_LEN).Ok?
    && EveryFrameOpens(c, s.dek, s.config.itemAlg, s.config.version, s.entries, FramesOf(raw, true, TRAILER_LEN).value)
  }

  function CountLive(es: seq<IndexEntry>): nat {
    if es == [] then 0 else CountLive(es[..|es| - 1]) + if es[|es| - 1].state == LIVE then 1 else 0
  }

  lemma {:induction false} CountLiveIs(es: seq<IndexEntry>)
    ensures CountLive(es) == |set i: nat | i < |es| && es[i].state == 1|
  {
    var live := set i: nat | i < |es| && es[i].state == 1;
    if es == [] {
      assert live == {};
    } else {
      var n := |es| - 1;
      var front := set i: nat | i < n && es[..n][i].state == 1;
      CountLiveIs(es[..n]);
      assert live == if es[n].state == 1 then front + {n} else front;
    }
  }

  /** Then the slots are a bijection: every frame belongs to exactly one entry. */
  lemma SlotsAreABijection(c: Suite, dek: Key, alg: Algorithm, version: byte, es: seq<IndexEntry>, frames: seq<Bytes>,
                           k: nat)
    requires EveryFrameOpens(c, dek, alg, version, es, frames) && k < |frames|
    ensures exists i :: 0 <= i < |es| && es[i].slot == k
    ensures forall i, j :: 0 <= i < |es| && 0 <= j < |es| && es[i].slot == k && es[j].slot == k ==> i == j
  {
    hide OpenSlot;
    var slots: seq<nat> := seq(|es|, i requires 0 <= i < |es| => es[i].slot);
    assert forall i :: 0 <= i < |es| ==> es[i] in es;
    Pigeonhole(slots, |es|);
    assert k in slots;
    var i :| 0 <= i < |slots| && slots[i] == k;
    assert es[i].slot == k;
  }

  // ----------------------------------------------------------------- migration

  /** Every entry's record, by slot. */
  function CacheAll(es: seq<IndexEntry>, records: seq<ItemRecord>): (m: map<u32, ItemRecord>)
    requires |es| == |records|
    ensures m.Keys == set e | e in es :: e.slot
  {
    if es == [] then map[]
    else
      assert es == es[..|es| - 1] + [es[|es| - 1]];
      CacheAll(es[..|es| - 1], records[..|es| - 1])[es[|es| - 1].slot := records[|es| - 1]]
  }

  /** The records of a legacy session, all opened. */
  ghost predicate LegacyRecords(c: Suite, s: Session, frames: seq<Bytes>, records: seq<ItemRecord>) {
    && EveryFrameOpens(c, s.dek, s.config.itemAlg, s.config.version, s.entries, frames)
    && |records| == |s.entries|
    && forall i :: 0 <= i < |s.entries| ==>
         OpenSlot(c, s.dek, s.config.itemAlg, s.config.version, frames, s.entries[i].slot, s.entries[i].itemId)
           == Ok(records[i])
  }

  /** The session a migration saves: the legacy index, every record cached, fresh keys, no file yet. */
  function Migrated(s: Session, records: seq<ItemRecord>, kek: Key, dek: Key, params: KdfParams, salt: Salt): Session
    requires |records| == |s.entries|
  {
    s.(cache := CacheAll(s.entries, records), kek := kek, dek := dek,
       config := s.config.(version := CURRENT_VERSION, params := params, salt := salt, encCounter := 0))
  }

  /** Nothing in the legacy file or the new parameters stands in the way of a migration. */
  ghost predicate Migratable(c: Suite, raw: Bytes, password: Bytes, dek: Key, params: KdfParams, salt: Salt) {
    && |raw| <= MAX_VAULT_BYTES && c.kdf(params, salt, password).Ok?
    && OpenBytes(c, raw, password, true).Ok? && ParseLegacyHeader(raw).Ok?
    && SessionFrames(raw, ParseLegacyHeader(raw).value, true).Ok?
    && var s := OpenBytes(c, raw, password, true).value;
    && exists records ::
         && LegacyRecords(c, s, SessionFrames(raw, ParseLegacyHeader(raw).value, true).value, records)
         && Preflight(c, Migrated(s, records, c.kdf(params, salt, password).value, dek, params, salt),
                      FreshHeader(CURRENT_VERSION, s.config.wrapAlg, s.config.itemAlg, params, salt), dek, []).Ok?
  }

  lemma LegacyRecordsUnique(c: Suite, s: Session, frames: seq<Bytes>, a: seq<ItemRecord>, b: seq<ItemRecord>)
    requires LegacyRecords(c, s, frames, a) && LegacyRecords(c, s, frames, b)
    ensures a == b
  {
    hide EveryFrameOpens, OpenSlot;
    forall i | 0 <= i < |a|
      ensures a[i] == b[i]
    {
      assert Ok(a[i]) == Ok(b[i]);
    }
  }

  /** `migrate_with_kdf`, given the new keys and the legacy file. */
  ghost predicate MigrateStep(c: Suite, raw: Bytes, password: Bytes, kek: Key, dek: Key, params: KdfParams, salt: Salt,
                              disk: Option<Bytes>, s': Session, disk': Option<Bytes>, r: Result<()>, d: Draws)
    requires Lawful(c)
  {
    && OpenBytes(c, raw, password, true).Ok?
    && ParseLegacyHeader(raw).Ok?
    && SessionFrames(raw, ParseLegacyHeader(raw).value, true).Ok?
    && var s := OpenBytes(c, raw, password, true).value;
    && var frames := SessionFrames(raw, ParseLegacyHeader(raw).value, true).value;
    && exists records ::
         && LegacyRecords(c, s, frames, records)
         && SaveStep(c, Migrated(s, records, kek, dek, params, salt),
                     FreshHeader(CURRENT_VERSION, s.config.wrapAlg, s.config.itemAlg, params, salt),
                     dek, disk, s', disk', r, d)
  }
}
