/**
 One vault file as bytes: how it is authenticated, opened and read, what list of
 items it stands for, and what a save writes.

 A save has two halves. `Preflight` decides everything that can be decided without
 randomness: staleness, the encryption budget, the size, and for every entry where
 its frame comes from. `ImageOf` is then total: it only seals, copies and frames.
 */
module Image {
  import opened Prelude
  import opened Crypto
  import opened Header
  import opened Shape
  import opened Frames

  const MAX_VAULT_BYTES := 64 * 1024 * 1024
  const ROTATION_LIMIT := 16777216
  const FRAME_LAYOUT_V2: byte := 0xA5

  datatype Config = Config(
    version: byte, wrapAlg: Algorithm, itemAlg: Algorithm, params: KdfParams, salt: Salt, encCounter: u32)

  /** An in-memory session over a vault file; `cache` holds decrypted records by slot. */
  datatype Session = Session(
    config: Config,
    kek: Key,
    dek: Key,
    entries: seq<IndexEntry>,
    cache: map<u32, ItemRecord>,
    nextId: u32,
    tag: Option<Mac>)

  /** What the file says about one item; the record is what opening the item yields. */
  datatype Item = Item(id: u32, state: byte, title: Text, username: Text, record: Result<ItemRecord>)

  function IndexAad(version: byte): Bytes {
    [version, 0x49]
  }

  function ItemAad(version: byte, id: u32): Bytes {
    [version, 0x53] + BE32(id)
  }

  // ------------------------------------------------------------------- reading

  /** `authenticate_snapshot`: the commit tag of the file, if the file authenticates under `dek`. */
  function Authenticate(c: Suite, raw: Bytes, dek: Key): Result<Mac> {
    var _ :- ParseHeader(raw);
    var macStart := |raw| - MAC_LEN;
    if c.mac(dek, raw[..macStart]) != raw[macStart..] then Err(Decrypt) else
    var crc := U32Of(raw[macStart - 4..macStart]);
    if c.crc(raw[..|raw| - TRAILER_LEN]) != crc then Err(Encrypt) else Ok(raw[macStart..])
  }

  /** `authenticate_current`: the file is the one this session last read or wrote. */
  function AuthenticateCurrent(c: Suite, raw: Bytes, dek: Key, tag: Option<Mac>): Result<Mac> {
    var t :- Authenticate(c, raw, dek);
    if tag != Some(t) then Err(Stale) else Ok(t)
  }

  function ReadIndex(c: Suite, raw: Bytes, version: byte, dek: Key, alg: Algorithm): Result<seq<IndexEntry>> {
    var nonce :- Take(raw, HEADER_LEN, NONCE_LEN);
    var n :- U32At(raw, INDEX_AT);
    var ct :- Take(raw, INDEX_AT + 4, n);
    var pt :- Unseal(c, alg, dek, nonce, ct, IndexAad(version));
    ParseIndex(pt)
  }

  function DecryptFrame(c: Suite, dek: Key, alg: Algorithm, version: byte, frame: Bytes, id: u32): Result<ItemRecord> {
    var nonce :- Take(frame, 0, NONCE_LEN);
    var n :- U32At(frame, NONCE_LEN);
    var ct :- Take(frame, FRAME_HEAD, n);
    var tag := frame[FRAME_HEAD + n..];
    var pt :- Unseal(c, alg, dek, nonce, ct + tag, ItemAad(version, id));
    var (record, embedded) :- ParseItem(pt);
    if embedded != id then Err(Encrypt) else Ok(record)
  }

  function OpenSlot(c: Suite, dek: Key, alg: Algorithm, version: byte, frames: seq<Bytes>, slot: u32, id: u32)
    : Result<ItemRecord>
  {
    if slot < |frames| then DecryptFrame(c, dek, alg, version, frames[slot], id) else Err(Encrypt)
  }

  function Items(c: Suite, dek: Key, alg: Algorithm, version: byte, es: seq<IndexEntry>, frames: seq<Bytes>)
    : (r: seq<Item>)
    ensures |r| == |es|
  {
    seq(|es|, i requires 0 <= i < |es| =>
      Item(es[i].itemId, es[i].state, es[i].title, es[i].username,
           OpenSlot(c, dek, alg, version, frames, es[i].slot, es[i].itemId)))
  }

  /** The list a current-format file stands for, to the holder of `dek`. */
  ghost function Contents(c: Suite, raw: Bytes, dek: Key): Result<seq<Item>> {
    var h :- ParseHeader(raw);
    var alg :- AlgorithmFromId(h.itemAlgId);
    var es :- ReadIndex(c, raw, h.version, dek, alg);
    var frames :- FramesOf(raw, true, TRAILER_LEN);
    Ok(Items(c, dek, alg, h.version, es, frames))
  }

  /** One above the highest id, if there is room. */
  function NextIdAfter(es: seq<IndexEntry>): Result<u32> {
    if es == [] then Ok(1)
    else if MaxId(es) == U32_MAX then Err(Encrypt) else Ok(MaxId(es) + 1)
  }

  function MaxId(es: seq<IndexEntry>): u32
    requires es != []
  {
    var last := es[|es| - 1];
    if |es| == 1 || MaxId(es[..|es| - 1]) <= last.itemId then last.itemId else MaxId(es[..|es| - 1])
  }

  lemma {:induction false} MaxIdIsTheHighest(es: seq<IndexEntry>)
    requires es != []
    ensures forall e :: e in es ==> e.itemId <= MaxId(es)
    ensures exists e :: e in es && e.itemId == MaxId(es)
  {
    var (front, last) := (es[..|es| - 1], es[|es| - 1]);
    assert es == front + [last] && last in es;
    if |es| > 1 {
      MaxIdIsTheHighest(front);
      var e :| e in front && e.itemId == MaxId(front);
      assert e in es;
    }
  }

  /** There is a next id exactly when no id is the last one; it is 1 or one above an id, and above every id. */
  lemma NextIdIff(es: seq<IndexEntry>)
    ensures NextIdAfter(es).Ok? <==> forall e :: e in es ==> e.itemId < 0xFFFF_FFFF
    ensures NextIdAfter(es).Ok? ==>
              && (forall e :: e in es ==> e.itemId < NextIdAfter(es).value)
              && (if es == [] then NextIdAfter(es).value == 1
                  else exists e :: e in es && e.itemId + 1 == NextIdAfter(es).value)
  {
    hide MaxId;
    if es != [] {
      MaxIdIsTheHighest(es);
    }
  }

  /** The associated data of a frame tells its version and its item, and no index has it. */
  lemma AadBinds(v: byte, id: u32, w: byte, other: u32)
    ensures ItemAad(v, id) == ItemAad(w, other) ==> v == w && id == other
    ensures ItemAad(v, id) != IndexAad(w)
    ensures IndexAad(v) == IndexAad(w) ==> v == w
  {
    hide BE;
    if ItemAad(v, id) == ItemAad(w, other) {
      assert BE32(id) == ItemAad(v, id)[2..] == BE32(other);
      FromBEOfBE(id, 4);
      FromBEOfBE(other, 4);
    }
  }

  /** The data key, unwrapped with the key derived from the password. */
  function UnwrapDek(c: Suite, h: ParsedHeader, password: Bytes): Result<(Key, Key)> {
    if !h.params.PolicyOk() then Err(Kdf) else
    var kek :- c.kdf(h.params, h.salt, password);
    var wrapAlg :- AlgorithmFromId(h.wrapAlgId);
    var dek :- Unseal(c, wrapAlg, kek, h.wrapNonce, h.wrappedDek + h.wrapTag, AadBytes(h));
    if |dek| != KEY_LEN then Err(KeyLength(|dek|)) else Ok((kek, dek))
  }

  function LegacyCrcOk(c: Suite, raw: Bytes): Result<()>
    requires |raw| >= HEADER_LEN
  {
    var crc := U32Of(raw[|raw| - 4..]);
    if c.crc(raw[..|raw| - LEGACY_TRAILER_LEN]) != crc then Err(Encrypt) else Ok(())
  }

  /** `open_bytes`. */
  ghost function OpenBytes(c: Suite, raw: Bytes, password: Bytes, legacy: bool): Result<Session> {
    var h :- if legacy then ParseLegacyHeader(raw) else ParseHeader(raw);
    var (kek, dek) :- UnwrapDek(c, h, password);
    var tag :-
      if legacy then
        var _ :- LegacyCrcOk(c, raw);
        Ok(None)
      else
        var t :- Authenticate(c, raw, dek);
        Ok(Some(t));
    var itemAlg :- AlgorithmFromId(h.itemAlgId);
    var es :- ReadIndex(c, raw, h.version, dek, itemAlg);
    var frames :- SessionFrames(raw, h, legacy);
    if |frames| != |es| then Err(Encrypt) else
    var nextId :- NextIdAfter(es);
    var wrapAlg :- AlgorithmFromId(h.wrapAlgId);
    Ok(Session(Config(h.version, wrapAlg, itemAlg, h.params, h.salt, h.encCounter), kek, dek, es, map[], nextId, tag))
  }

  ghost function SessionFrames(raw: Bytes, h: ParsedHeader, legacy: bool): Result<seq<Bytes>> {
    if legacy then FramesOf(raw, h.reserved[0] == FRAME_LAYOUT_V2, LEGACY_TRAILER_LEN)
    else FramesOf(raw, true, TRAILER_LEN)
  }

  // ----------------------------------------------------------- planning a save

  /** Where a frame of the new image comes from. */
  datatype Source = Seal(record: ItemRecord) | Copy(frame: Bytes)

  datatype Plan = Plan(
    counter: u32,
    entries: seq<IndexEntry>,
    indexPt: Bytes,
    sources: seq<Source>,
    wrapAlg: Algorithm,
    itemAlg: Algorithm)

  predicate Dead(state: byte) {
    state == TOMBSTONE || state == LEGACY_TOMBSTONE
  }

  /** Slot of each id in an index; the last entry wins. */
  function SlotMap(es: seq<IndexEntry>): map<u32, u32> {
    if es == [] then map[]
    else SlotMap(es[..|es| - 1])[es[|es| - 1].itemId := es[|es| - 1].slot]
  }

  /** How many entries a save encrypts afresh. */
  function FreshCount(cache: map<u32, ItemRecord>, es: seq<IndexEntry>): nat {
    if es == [] then 0
    else
      var e := es[|es| - 1];
      FreshCount(cache, es[..|es| - 1]) + if Dead(e.state) || e.slot in cache then 1 else 0
  }

  function SourceOf(cache: map<u32, ItemRecord>, slots: map<u32, u32>, frames: seq<Bytes>,
                    e: IndexEntry): Result<Source>
  {
    if e.slot in cache then
      if ValidItem(cache[e.slot]) then Ok(Seal(cache[e.slot])) else Err(Encrypt)
    else if Dead(e.state) then Ok(Seal(PLACEHOLDER))
    else if e.itemId !in slots then Err(Encrypt)
    else if slots[e.itemId] >= |frames| then Err(Encrypt)
    else Ok(Copy(frames[slots[e.itemId]]))
  }

  function Sources(cache: map<u32, ItemRecord>, slots: map<u32, u32>, frames: seq<Bytes>, es: seq<IndexEntry>)
    : (r: Result<seq<Source>>)
    ensures r.Ok? ==> |r.value| == |es|
    ensures r.Ok? ==> forall i :: 0 <= i < |es| ==> SourceOf(cache, slots, frames, es[i]) == Ok(r.value[i])
  {
    if es == [] then Ok([])
    else
      var front :- Sources(cache, slots, frames, es[..|es| - 1]);
      var last :- SourceOf(cache, slots, frames, es[|es| - 1]);
      Ok(front + [last])
  }

  function SourceLen(s: Source): nat {
    match s
    case Seal(r) => FRAME_HEAD + ItemLen(r) + TAG_LEN
    case Copy(f) => |f|
  }

  function SourcesLen(ss: seq<Source>): nat {
    if ss == [] then 0 else SourcesLen(ss[..|ss| - 1]) + SourceLen(ss[|ss| - 1])
  }

  /** The size computed before anything is encrypted. */
  function CandidateLen(p: Plan): nat {
    INDEX_AT + 4 + |p.indexPt| + TAG_LEN + 4 + TRAILER_LEN + SourcesLen(p.sources)
  }

  function Renumber(es: seq<IndexEntry>): (r: seq<IndexEntry>)
    requires |es| <= U32_MAX
    ensures |r| == |es|
    ensures forall i :: 0 <= i < |es| ==> r[i] == es[i].(slot := i)
  {
    seq(|es|, i requires 0 <= i < |es| => es[i].(slot := i))
  }

  /** What the old file offers a save: the slot of each id, and its frames. */
  ghost function OldFile(c: Suite, tag: Option<Mac>, diskDek: Key, disk: Bytes): Result<(map<u32, u32>, seq<Bytes>)> {
    if disk == [] then
      if tag.Some? then Err(Stale) else Ok((map[], []))
    else
      var _ :- AuthenticateCurrent(c, disk, diskDek, tag);
      var h :- ParseHeader(disk);
      var alg :- AlgorithmFromId(h.itemAlgId);
      var es :- ReadIndex(c, disk, h.version, diskDek, alg);
      var frames :- FramesOf(disk, true, TRAILER_LEN);
      Ok((SlotMap(es), frames))
  }

  /** `save_with_header_locked` up to the first random draw. */
  ghost function Preflight(c: Suite, s: Session, header: ParsedHeader, diskDek: Key, disk: Bytes): Result<Plan> {
    var (slots, frames) :- OldFile(c, s.tag, diskDek, disk);
    var counter := header.encCounter + FreshCount(s.cache, s.entries) + 1;
    if counter > ROTATION_LIMIT then Err(Encrypt)
    else if |s.entries| > U32_MAX then Err(Encrypt)
    else
      var indexPt :- SerializeIndex(Renumber(s.entries));
      var sources :- Sources(s.cache, slots, frames, s.entries);
      var len := INDEX_AT + 4 + |indexPt| + TAG_LEN + 4 + TRAILER_LEN + SourcesLen(sources);
      if len > MAX_VAULT_BYTES then Err(Encrypt) else
      var wrapAlg :- AlgorithmFromId(header.wrapAlgId);
      var itemAlg :- AlgorithmFromId(header.itemAlgId);
      Ok(Plan(counter, Renumber(s.entries), indexPt, sources, wrapAlg, itemAlg))
  }

  // ------------------------------------------------------------- writing a save

  /** The random draws of one save; `items[i]` matters only where entry i is sealed. */
  datatype Draws = Draws(wrapNonce: Nonce, indexNonce: Nonce, items: seq<Nonce>)

  ghost function FinalHeader(c: Suite, s: Session, header: ParsedHeader, p: Plan, d: Draws): ParsedHeader
    requires Lawful(c)
  {
    var h := header.(reserved := header.reserved[0 := FRAME_LAYOUT_V2], encCounter := p.counter,
                     wrapNonce := d.wrapNonce);
    var ct := c.seal(p.wrapAlg, s.kek, d.wrapNonce, s.dek, AadBytes(h));
    h.(wrappedDek := ct[..KEY_LEN], wrapTag := ct[KEY_LEN..])
  }

  ghost function SealedFrame(c: Suite, dek: Key, alg: Algorithm, version: byte, nonce: Nonce, r: ItemRecord,
                             id: u32): Bytes
    requires Lawful(c) && ValidItem(r)
  {
    ItemLenIsExact(r, id);
    var pt := ItemBytes(r, id);
    nonce + BE32(|pt|) + c.seal(alg, dek, nonce, pt, ItemAad(version, id))
  }

  ghost predicate Fitting(p: Plan, d: Draws) {
    && |p.sources| == |p.entries| == |d.items|
    && |p.entries| <= U32_MAX
    && |p.indexPt| + TAG_LEN <= U32_MAX
    && forall i :: 0 <= i < |p.sources| && p.sources[i].Seal? ==> ValidItem(p.sources[i].record)
  }

  ghost function FrameFrom(c: Suite, dek: Key, alg: Algorithm, version: byte, source: Source, nonce: Nonce,
                           id: u32): Bytes
    requires Lawful(c) && (source.Seal? ==> ValidItem(source.record))
  {
    match source
    case Seal(r) => SealedFrame(c, dek, alg, version, nonce, r, id)
    case Copy(f) => f
  }

  ghost function FrameAt(c: Suite, dek: Key, version: byte, p: Plan, d: Draws, i: nat): Bytes
    requires Lawful(c) && Fitting(p, d) && i < |p.sources|
  {
    FrameFrom(c, dek, p.itemAlg, version, p.sources[i], d.items[i], p.entries[i].itemId)
  }

  ghost function NewFrames(c: Suite, dek: Key, version: byte, p: Plan, d: Draws): (r: seq<Bytes>)
    requires Lawful(c) && Fitting(p, d)
    ensures |r| == |p.sources|
    ensures forall i :: 0 <= i < |r| ==> r[i] == FrameAt(c, dek, version, p, d, i)
  {
    seq(|p.sources|, i requires 0 <= i < |p.sources| => FrameAt(c, dek, version, p, d, i))
  }

  /** Header, index frame, slot count and item frames. */
  ghost function Body(c: Suite, s: Session, header: ParsedHeader, p: Plan, d: Draws): Bytes
    requires Lawful(c) && Fitting(p, d)
  {
    var ct := c.seal(p.itemAlg, s.dek, d.indexNonce, p.indexPt, IndexAad(header.version));
    HeaderBytes(FinalHeader(c, s, header, p, d)) + d.indexNonce + BE32(|ct|) + ct
    + BE32(|p.entries|) + Concat(NewFrames(c, s.dek, header.version, p, d))
  }

  /** Everything the commit tag covers. */
  ghost function Tagged(c: Suite, s: Session, header: ParsedHeader, p: Plan, d: Draws): Bytes
    requires Lawful(c) && Fitting(p, d)
  {
    var body := Body(c, s, header, p, d);
    body + BE32(|p.entries|) + BE32(c.crc(body))
  }

  ghost function TagOf(c: Suite, s: Session, header: ParsedHeader, p: Plan, d: Draws): Mac
    requires Lawful(c) && Fitting(p, d)
  {
    c.mac(s.dek, Tagged(c, s, header, p, d))
  }

  /** The bytes a save publishes. */
  ghost function ImageOf(c: Suite, s: Session, header: ParsedHeader, p: Plan, d: Draws): Bytes
    requires Lawful(c) && Fitting(p, d)
  {
    Tagged(c, s, header, p, d) + TagOf(c, s, header, p, d)
  }

  predicate FirstOfSlot(es: seq<IndexEntry>, i: nat)
    requires i < |es|
  {
    forall j :: 0 <= j < i ==> es[j].slot != es[i].slot
  }

  /** The cache after renumbering: each record moves to the new slot of the first entry that had its slot. */
  function Remap(cache: map<u32, ItemRecord>, es: seq<IndexEntry>): map<u32, ItemRecord>
    requires |es| <= U32_MAX
  {
    map i: u32 | i < |es| && es[i].slot in cache && FirstOfSlot(es, i) :: cache[es[i].slot]
  }

  /** The session after its save was published. */
  function Committed(s: Session, p: Plan, tag: Mac): Session
    requires |s.entries| <= U32_MAX
  {
    s.(entries := p.entries,
       cache := Remap(s.cache, s.entries),
       config := s.config.(encCounter := p.counter),
       tag := Some(tag))
  }

  // ------------------------------------------------------- what the plan says

  /** The plan covers the session's entries one to one, renumbered. */
  lemma PlanShape(c: Suite, s: Session, header: ParsedHeader, diskDek: Key, disk: Bytes, p: Plan)
    requires Preflight(c, s, header, diskDek, disk) == Ok(p)
    ensures |p.sources| == |p.entries| == |s.entries| <= U32_MAX
    ensures p.entries == Renumber(s.entries) && SerializeIndex(p.entries) == Ok(p.indexPt)
    ensures CandidateLen(p) <= MAX_VAULT_BYTES
    ensures AlgorithmFromId(header.wrapAlgId) == Ok(p.wrapAlg) && AlgorithmFromId(header.itemAlgId) == Ok(p.itemAlg)
    ensures p.counter == header.encCounter + FreshCount(s.cache, s.entries) + 1 <= ROTATION_LIMIT
  {
    hide OldFile, SerializeIndex, FreshCount, Sources, SourcesLen;
  }

  /** Each source of the plan is the one its entry asks for. */
  lemma PlanSource(c: Suite, s: Session, header: ParsedHeader, diskDek: Key, disk: Bytes, p: Plan, i: nat)
    requires Preflight(c, s, header, diskDek, disk) == Ok(p) && i < |s.entries|
    ensures |p.sources| == |s.entries| == |p.entries| && p.entries[i].itemId == s.entries[i].itemId
    ensures OldFile(c, s.tag, diskDek, disk).Ok?
    ensures var (slots, frames) := OldFile(c, s.tag, diskDek, disk).value;
            SourceOf(s.cache, slots, frames, s.entries[i]) == Ok(p.sources[i])
    ensures AlgorithmFromId(header.itemAlgId) == Ok(p.itemAlg)
  {
    hide OldFile, SerializeIndex, FreshCount, SourceOf, SourcesLen;
  }

  lemma SealsAreValid(cache: map<u32, ItemRecord>, slots: map<u32, u32>, frames: seq<Bytes>, e: IndexEntry)
    ensures var r := SourceOf(cache, slots, frames, e); r.Ok? && r.value.Seal? ==> ValidItem(r.value.record)
  {
  }

  lemma PreflightFits(c: Suite, s: Session, header: ParsedHeader, diskDek: Key, disk: Bytes, d: Draws)
    requires Preflight(c, s, header, diskDek, disk).Ok? && |d.items| == |s.entries|
    ensures Fitting(Preflight(c, s, header, diskDek, disk).value, d)
  {
    hide OldFile, SerializeIndex, ValidItem, SourceOf;
    var p := Preflight(c, s, header, diskDek, disk).value;
    var (slots, frames) := OldFile(c, s.tag, diskDek, disk).value;
    forall i | 0 <= i < |p.sources| && p.sources[i].Seal?
      ensures ValidItem(p.sources[i].record)
    {
      SealsAreValid(s.cache, slots, frames, s.entries[i]);
    }
  }
}
