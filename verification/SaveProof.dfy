/**
 A save refines the abstract list: opening what it wrote gives the session's
 entries, renumbered, and every frame opens to the record the session stands for.
 */
module SaveProof {
  import opened Prelude
  import opened Crypto
  import opened Header
  import opened Shape
  import opened Frames
  import opened Image

  // ------------------------------------------------------------ image layout

  /** Nine parts laid end to end, found again by offset. */
  ghost predicate LaidOut(img: Bytes, h: Bytes, n: Bytes, l: Bytes, ct: Bytes, m: Bytes, f: Bytes, m2: Bytes,
                          crc: Bytes, t: Bytes)
  {
    && |img| == INDEX_AT + 8 + |ct| + |f| + TRAILER_LEN
    && h <= img
    && img[HEADER_LEN..INDEX_AT] == n
    && img[INDEX_AT..INDEX_AT + 4] == l
    && img[INDEX_AT + 4..INDEX_AT + 4 + |ct|] == ct
    && img[INDEX_AT + 4 + |ct|..INDEX_AT + 8 + |ct|] == m
    && img[INDEX_AT + 8 + |ct|..|img| - TRAILER_LEN] == f
    && img[|img| - TRAILER_LEN..|img| - MAC_LEN - 4] == m2
    && img[|img| - MAC_LEN - 4..|img| - MAC_LEN] == crc
    && img[|img| - MAC_LEN..] == t
    && img[..|img| - TRAILER_LEN] == h + n + l + ct + m + f
    && img[..|img| - MAC_LEN] == h + n + l + ct + m + f + m2 + crc
  }

  lemma Layout(h: Bytes, n: Bytes, l: Bytes, ct: Bytes, m: Bytes, f: Bytes, m2: Bytes, crc: Bytes, t: Bytes)
    requires |h| == HEADER_LEN && |n| == NONCE_LEN && |l| == |m| == |m2| == |crc| == 4 && |t| == MAC_LEN
    ensures LaidOut(h + n + l + ct + m + f + m2 + crc + t, h, n, l, ct, m, f, m2, crc, t)
  {
  }

  ghost predicate Saved(c: Suite, img: Bytes, s: Session, header: ParsedHeader, p: Plan, d: Draws)
    requires Lawful(c) && Fitting(p, d)
  {
    var ct := c.seal(p.itemAlg, s.dek, d.indexNonce, p.indexPt, IndexAad(header.version));
    var body := Body(c, s, header, p, d);
    LaidOut(img, HeaderBytes(FinalHeader(c, s, header, p, d)), d.indexNonce, BE32(|ct|), ct,
            BE32(|p.entries|), Concat(NewFrames(c, s.dek, header.version, p, d)),
            BE32(|p.entries|), BE32(c.crc(body)), TagOf(c, s, header, p, d))
    && img[..|img| - TRAILER_LEN] == body
    && img[..|img| - MAC_LEN] == Tagged(c, s, header, p, d)
  }

  lemma ImageIsSaved(c: Suite, s: Session, header: ParsedHeader, p: Plan, d: Draws)
    requires Lawful(c) && Fitting(p, d)
    ensures Saved(c, ImageOf(c, s, header, p, d), s, header, p, d)
  {
    hide BE32, HeaderBytes, FinalHeader, NewFrames, Concat, TagOf, LaidOut;
    var ct := c.seal(p.itemAlg, s.dek, d.indexNonce, p.indexPt, IndexAad(header.version));
    var (h, l, m) := (HeaderBytes(FinalHeader(c, s, header, p, d)), BE32(|ct|), BE32(|p.entries|));
    var f := Concat(NewFrames(c, s.dek, header.version, p, d));
    var (crc, t) := (BE32(c.crc(Body(c, s, header, p, d))), TagOf(c, s, header, p, d));
    Layout(h, d.indexNonce, l, ct, m, f, m, crc, t);
    UnfoldLaidOut(ImageOf(c, s, header, p, d), h, d.indexNonce, l, ct, m, f, m, crc, t);
  }

  lemma UnfoldLaidOut(img: Bytes, h: Bytes, n: Bytes, l: Bytes, ct: Bytes, m: Bytes, f: Bytes, m2: Bytes, crc: Bytes,
                      t: Bytes)
    requires LaidOut(img, h, n, l, ct, m, f, m2, crc, t)
    ensures img[..|img| - TRAILER_LEN] == h + n + l + ct + m + f
    ensures img[..|img| - MAC_LEN] == h + n + l + ct + m + f + m2 + crc
  {
  }

  // ------------------------------------------------------------ reading it back

  lemma SavedHeader(c: Suite, img: Bytes, s: Session, header: ParsedHeader, p: Plan, d: Draws)
    requires Lawful(c) && Fitting(p, d) && Saved(c, img, s, header, p, d)
    requires header.version == CURRENT_VERSION && header.pad == ZERO_PAD
    ensures ParseHeader(img) == Ok(FinalHeader(c, s, header, p, d))
  {
    hide HeaderBytes, ParseHeaderVersion, Tagged, Body, TagOf, NewFrames, BE32;
    HeaderCodec(img, CURRENT_VERSION, FinalHeader(c, s, header, p, d));
  }

  lemma SavedAuthenticates(c: Suite, img: Bytes, s: Session, header: ParsedHeader, p: Plan, d: Draws)
    requires Lawful(c) && Fitting(p, d) && Saved(c, img, s, header, p, d)
    requires header.version == CURRENT_VERSION && header.pad == ZERO_PAD
    ensures Authenticate(c, img, s.dek) == Ok(TagOf(c, s, header, p, d))
  {
    hide HeaderBytes, ParseHeader, FinalHeader, Tagged, Body, NewFrames, BE;
    SavedHeader(c, img, s, header, p, d);
  }

  lemma SavedIndex(c: Suite, img: Bytes, s: Session, header: ParsedHeader, p: Plan, d: Draws)
    requires Lawful(c) && Fitting(p, d) && Saved(c, img, s, header, p, d)
    ensures ReadIndex(c, img, header.version, s.dek, p.itemAlg) == ParseIndex(p.indexPt)
  {
    hide HeaderBytes, FinalHeader, Tagged, TagOf, Body, NewFrames, ParseIndex, BE;
  }

  lemma SavedFrames(c: Suite, img: Bytes, s: Session, header: ParsedHeader, p: Plan, d: Draws)
    requires Lawful(c) && Fitting(p, d) && Saved(c, img, s, header, p, d)
    requires AllFrames(NewFrames(c, s.dek, header.version, p, d), true)
    ensures FramesOf(img, true, TRAILER_LEN) == Ok(NewFrames(c, s.dek, header.version, p, d))
  {
    hide HeaderBytes, FinalHeader, Tagged, TagOf, Body, BE, AllFrames, IsFrame, FramesOf, Concat;
    TheFrames(img, true, TRAILER_LEN, NewFrames(c, s.dek, header.version, p, d));
  }

  /** Sealing then opening a frame gives the record back; the frame has the announced length. */
  lemma SealedFrameOpens(c: Suite, dek: Key, alg: Algorithm, version: byte, nonce: Nonce, r: ItemRecord, id: u32)
    requires Lawful(c) && ValidItem(r)
    ensures var f := SealedFrame(c, dek, alg, version, nonce, r, id);
            && |f| == FRAME_HEAD + ItemLen(r) + TAG_LEN
            && IsFrame(f, true)
            && DecryptFrame(c, dek, alg, version, f, id) == Ok(r)
  {
    hide ItemBytes, ParseItem, BE;
    ItemLenIsExact(r, id);
    var pt := ItemBytes(r, id);
    ItemCodec(pt, r, id);
    var ct := c.seal(alg, dek, nonce, pt, ItemAad(version, id));
    SealedSlices(nonce, BE32(|pt|), ct, |pt|);
  }

  /** The frame of one item never opens as another's, even under a cipher that lets the wrong associated data pass. */
  lemma MovedFrameRefused(c: Suite, dek: Key, alg: Algorithm, version: byte, nonce: Nonce, r: ItemRecord, id: u32,
                          other: u32)
    requires Lawful(c) && ValidItem(r) && id != other
    requires var ct := c.seal(alg, dek, nonce, ItemBytes(r, id), ItemAad(version, id));
             var got := c.unseal(alg, dek, nonce, ct, ItemAad(version, other));
             got.None? || got == Some(ItemBytes(r, id))
    ensures DecryptFrame(c, dek, alg, version, SealedFrame(c, dek, alg, version, nonce, r, id), other).Err?
  {
    hide ItemBytes, ParseItem, BE, ItemAad;
    ItemLenIsExact(r, id);
    var pt := ItemBytes(r, id);
    ItemCodec(pt, r, id);
    SealedSlices(nonce, BE32(|pt|), c.seal(alg, dek, nonce, pt, ItemAad(version, id)), |pt|);
  }

  lemma SealedSlices(nonce: Nonce, l: Bytes, ct: Bytes, n: nat)
    requires |l| == 4 && |ct| == n + TAG_LEN
    ensures var f := nonce + l + ct;
            && f[0..NONCE_LEN] == nonce && f[NONCE_LEN..FRAME_HEAD] == l
            && f[FRAME_HEAD..FRAME_HEAD + n] + f[FRAME_HEAD + n..] == ct
  {
    var f := nonce + l + ct;
    assert f[FRAME_HEAD..FRAME_HEAD + n] + f[FRAME_HEAD + n..] == f[FRAME_HEAD..];
  }

  // ------------------------------------------------------------- what it means

  /** The record an item list holds for an id; the last item with that id counts. */
  function Lookup(items: seq<Item>, id: u32): Result<ItemRecord> {
    if items == [] then Err(Encrypt)
    else
      var last := items[|items| - 1];
      if last.id == id then last.record else Lookup(items[..|items| - 1], id)
  }

  lemma {:induction false} LookupNone(items: seq<Item>, id: u32)
    requires forall k :: 0 <= k < |items| ==> items[k].id != id
    ensures Lookup(items, id) == Err(Encrypt)
  {
    if items != [] {
      LookupNone(items[..|items| - 1], id);
    }
  }

  lemma {:induction false} LookupAt(items: seq<Item>, i: nat)
    requires i < |items| && forall a, b :: 0 <= a < b < |items| ==> items[a].id != items[b].id
    ensures Lookup(items, items[i].id) == items[i].record
  {
    if i < |items| - 1 {
      LookupAt(items[..|items| - 1], i);
    }
  }

  /** The record a session stands for at one entry: cached, else gone, else what the old file holds. */
  function RecordFor(cache: map<u32, ItemRecord>, oldItems: seq<Item>, e: IndexEntry): Result<ItemRecord> {
    if e.slot in cache then Ok(cache[e.slot])
    else if Dead(e.state) then Ok(PLACEHOLDER)
    else Lookup(oldItems, e.itemId)
  }

  /** The abstract list of a session over a file that holds `oldItems`. */
  function Meaning(cache: map<u32, ItemRecord>, es: seq<IndexEntry>, oldItems: seq<Item>): (r: seq<Item>)
    ensures |r| == |es|
  {
    seq(|es|, i requires 0 <= i < |es| =>
      Item(es[i].itemId, Norm(es[i]).state, es[i].title, es[i].username, RecordFor(cache, oldItems, es[i])))
  }

  ghost function OldItems(c: Suite, disk: Bytes, diskDek: Key): seq<Item> {
    if disk == [] then []
    else match Contents(c, disk, diskDek) case Ok(items) => items case Err(_) => []
  }

  lemma {:induction false} SlotMapLookup(c: Suite, dek: Key, alg: Algorithm, version: byte, es: seq<IndexEntry>,
                                         frames: seq<Bytes>, id: u32)
    requires id in SlotMap(es)
    ensures Lookup(Items(c, dek, alg, version, es, frames), id)
         == OpenSlot(c, dek, alg, version, frames, SlotMap(es)[id], id)
  {
    hide OpenSlot;
    var items := Items(c, dek, alg, version, es, frames);
    var front := es[..|es| - 1];
    assert items[..|es| - 1] == Items(c, dek, alg, version, front, frames);
    if es[|es| - 1].itemId != id {
      SlotMapLookup(c, dek, alg, version, front, frames, id);
    }
  }

  /** Copied frames are only readable if keys and algorithm stay the same. */
  ghost predicate CopiesReadable(p: Plan, header: ParsedHeader, dek: Key, diskDek: Key, disk: Bytes) {
    (exists i :: 0 <= i < |p.sources| && p.sources[i].Copy?) ==>
      && dek == diskDek
      && ParseHeader(disk).Ok?
      && ParseHeader(disk).value.itemAlgId == header.itemAlgId
  }

  /** A copied frame is a frame of the old file, and opens to what the old file holds for that id. */
  lemma CopiedFrame(c: Suite, s: Session, header: ParsedHeader, diskDek: Key, disk: Bytes, p: Plan, i: nat)
    requires Preflight(c, s, header, diskDek, disk) == Ok(p)
    requires i < |p.sources| && p.sources[i].Copy?
    requires CopiesReadable(p, header, s.dek, diskDek, disk)
    ensures IsFrame(p.sources[i].frame, true)
    ensures RecordFor(s.cache, OldItems(c, disk, diskDek), s.entries[i])
         == DecryptFrame(c, s.dek, p.itemAlg, CURRENT_VERSION, p.sources[i].frame, s.entries[i].itemId)
  {
    hide Preflight, ReadIndex, DecryptFrame, IsFrame, Authenticate, ValidItem;
    PlanLength(c, s, header, diskDek, disk, p);
    PlanSource(c, s, header, diskDek, disk, p, i);
    var (slots, frames) := OldFile(c, s.tag, diskDek, disk).value;
    var e := s.entries[i];
    var h := ParseHeader(disk).value;
    VersionIsCurrent(disk);
    var alg := AlgorithmFromId(h.itemAlgId).value;
    var es := ReadIndex(c, disk, h.version, diskDek, alg).value;
    SlotMapLookup(c, diskDek, alg, h.version, es, frames, e.itemId);
    assert IsFrame(frames[slots[e.itemId]], true);
  }

  lemma PlanLength(c: Suite, s: Session, header: ParsedHeader, diskDek: Key, disk: Bytes, p: Plan)
    requires Preflight(c, s, header, diskDek, disk) == Ok(p)
    ensures |p.sources| == |s.entries|
  {
    PlanShape(c, s, header, diskDek, disk, p);
  }

  lemma VersionIsCurrent(raw: Bytes)
    requires ParseHeader(raw).Ok?
    ensures ParseHeader(raw).value.version == CURRENT_VERSION && ParseHeader(raw).value.pad == ZERO_PAD
  {
  }

  /** Every new frame is a frame and opens to the record the session stands for. */
  lemma NewFrameOpens(c: Suite, s: Session, header: ParsedHeader, diskDek: Key, disk: Bytes, p: Plan, d: Draws, i: nat)
    requires Lawful(c) && Preflight(c, s, header, diskDek, disk) == Ok(p) && Fitting(p, d)
    requires header.version == CURRENT_VERSION
    requires CopiesReadable(p, header, s.dek, diskDek, disk)
    requires i < |p.sources| && i < |s.entries|
    ensures var f := FrameAt(c, s.dek, CURRENT_VERSION, p, d, i);
            && IsFrame(f, true) && |f| == SourceLen(p.sources[i])
            && DecryptFrame(c, s.dek, p.itemAlg, CURRENT_VERSION, f, s.entries[i].itemId)
            == RecordFor(s.cache, OldItems(c, disk, diskDek), s.entries[i])
  {
    hide IsFrame, DecryptFrame, SealedFrame, OldItems, ItemLen, ValidItem, OldFile, Preflight, CopiesReadable;
    PlanLength(c, s, header, diskDek, disk, p);
    PlanSource(c, s, header, diskDek, disk, p, i);
    match p.sources[i]
    case Seal(r) =>
      SealedFrameOpens(c, s.dek, p.itemAlg, CURRENT_VERSION, d.items[i], r, s.entries[i].itemId);
    case Copy(_) =>
      CopiedFrame(c, s, header, diskDek, disk, p, i);
  }

  lemma {:induction false} FramesLen(ss: seq<Source>, fs: seq<Bytes>)
    requires |ss| == |fs| && forall i :: 0 <= i < |ss| ==> |fs[i]| == SourceLen(ss[i])
    ensures |Concat(fs)| == SourcesLen(ss)
  {
    if ss != [] {
      FramesLen(ss[..|ss| - 1], fs[..|fs| - 1]);
    }
  }

  /** Everything about the frames of a save at once. */
  lemma AllNewFrames(c: Suite, s: Session, header: ParsedHeader, diskDek: Key, disk: Bytes, p: Plan, d: Draws)
    requires Lawful(c) && Preflight(c, s, header, diskDek, disk) == Ok(p) && Fitting(p, d)
    requires header.version == CURRENT_VERSION
    requires CopiesReadable(p, header, s.dek, diskDek, disk)
    ensures var fs := NewFrames(c, s.dek, CURRENT_VERSION, p, d);
            && AllFrames(fs, true) && |Concat(fs)| == SourcesLen(p.sources)
            && |fs| == |s.entries|
            && (forall i :: 0 <= i < |fs| ==>
                (DecryptFrame(c, s.dek, p.itemAlg, CURRENT_VERSION, fs[i], s.entries[i].itemId)
                == RecordFor(s.cache, OldItems(c, disk, diskDek), s.entries[i])))
  {
    PlanShape(c, s, header, diskDek, disk, p);
    hide IsFrame, DecryptFrame, FrameAt, Preflight, RecordFor, OldItems, Concat, SourceLen;
    var fs := NewFrames(c, s.dek, CURRENT_VERSION, p, d);
    forall i | 0 <= i < |fs|
      ensures IsFrame(fs[i], true) && |fs[i]| == SourceLen(p.sources[i])
      ensures DecryptFrame(c, s.dek, p.itemAlg, CURRENT_VERSION, fs[i], s.entries[i].itemId)
           == RecordFor(s.cache, OldItems(c, disk, diskDek), s.entries[i])
    {
      NewFrameOpens(c, s, header, diskDek, disk, p, d, i);
    }
    FramesLen(p.sources, fs);
  }

  lemma FrameFromLen(c: Suite, dek: Key, alg: Algorithm, version: byte, source: Source, nonce: Nonce, id: u32)
    requires Lawful(c) && (source.Seal? ==> ValidItem(source.record))
    ensures |FrameFrom(c, dek, alg, version, source, nonce, id)| == SourceLen(source)
  {
    hide ItemBytes, BE32;
    if source.Seal? {
      ItemLenIsExact(source.record, id);
    }
  }

  /**
   The size computed before any encryption is the size of the bytes written, for every
   plan and every draw of nonces, so the limit checked up front is the limit that holds.
   */
  lemma SizeIsExact(c: Suite, s: Session, header: ParsedHeader, p: Plan, d: Draws)
    requires Lawful(c) && Fitting(p, d)
    ensures |ImageOf(c, s, header, p, d)| == CandidateLen(p)
  {
    hide Concat, NewFrames, Body, Tagged, TagOf, ImageOf, FinalHeader, HeaderBytes, BE, FrameFrom, SourceLen,
         ValidItem;
    ImageIsSaved(c, s, header, p, d);
    var fs := NewFrames(c, s.dek, header.version, p, d);
    forall i | 0 <= i < |fs|
      ensures |fs[i]| == SourceLen(p.sources[i])
    {
      FrameFromLen(c, s.dek, p.itemAlg, header.version, p.sources[i], d.items[i], p.entries[i].itemId);
    }
    FramesLen(p.sources, fs);
  }

  /**
   Opening what a save wrote gives the list the session stood for: the session's
   entries in order, each with its cached record, else the placeholder if it is a
   tombstone, else the record the old file held for its id.
   */
  lemma SaveRefines(c: Suite, s: Session, header: ParsedHeader, diskDek: Key, disk: Bytes, p: Plan, d: Draws)
    requires Lawful(c) && Preflight(c, s, header, diskDek, disk) == Ok(p) && |d.items| == |s.entries|
    requires header.version == CURRENT_VERSION && header.pad == ZERO_PAD
    requires CopiesReadable(p, header, s.dek, diskDek, disk)
    ensures Fitting(p, d)
    ensures Contents(c, ImageOf(c, s, header, p, d), s.dek)
         == Ok(Meaning(s.cache, s.entries, OldItems(c, disk, diskDek)))
  {
    hide Saved, ImageOf, ReadIndex, FramesOf, NewFrames, DecryptFrame, RecordFor, OldItems, AllFrames, ParseHeader,
         ParseIndex, SerializeIndex, Preflight;
    PreflightFits(c, s, header, diskDek, disk, d);
    var img := ImageOf(c, s, header, p, d);
    ImageIsSaved(c, s, header, p, d);
    SavedHeader(c, img, s, header, p, d);
    SavedIndex(c, img, s, header, p, d);
    PlanShape(c, s, header, diskDek, disk, p);
    IndexRoundTrip(p.indexPt, p.entries);
    AllNewFrames(c, s, header, diskDek, disk, p, d);
    SavedFrames(c, img, s, header, p, d);
    var fs := NewFrames(c, s.dek, CURRENT_VERSION, p, d);
    assert AlgorithmFromId(header.itemAlgId) == Ok(p.itemAlg);
    assert Items(c, s.dek, p.itemAlg, CURRENT_VERSION, NormAll(p.entries), fs)
        == Meaning(s.cache, s.entries, OldItems(c, disk, diskDek));
  }

  /** The published file authenticates under the session's data key with the tag the session keeps. */
  lemma SaveAuthenticates(c: Suite, s: Session, header: ParsedHeader, diskDek: Key, disk: Bytes, p: Plan, d: Draws)
    requires Lawful(c) && Preflight(c, s, header, diskDek, disk) == Ok(p) && |d.items| == |s.entries|
    requires header.version == CURRENT_VERSION && header.pad == ZERO_PAD
    ensures Fitting(p, d)
    ensures Authenticate(c, ImageOf(c, s, header, p, d), s.dek) == Ok(TagOf(c, s, header, p, d))
  {
    hide Saved, ImageOf, TagOf, Preflight, Authenticate;
    PreflightFits(c, s, header, diskDek, disk, d);
    ImageIsSaved(c, s, header, p, d);
    SavedAuthenticates(c, ImageOf(c, s, header, p, d), s, header, p, d);
  }

  /** The wrapped data key in the new header opens under the session's wrapping key. */
  lemma WrappedKeyOpens(c: Suite, s: Session, header: ParsedHeader, p: Plan, d: Draws)
    requires Lawful(c)
    ensures var h := FinalHeader(c, s, header, p, d);
            c.unseal(p.wrapAlg, s.kek, h.wrapNonce, h.wrappedDek + h.wrapTag, AadBytes(h)) == Some(s.dek)
  {
    var h0 := header.(reserved := header.reserved[0 := FRAME_LAYOUT_V2], encCounter := p.counter,
                      wrapNonce := d.wrapNonce);
    var ct := c.seal(p.wrapAlg, s.kek, d.wrapNonce, s.dek, AadBytes(h0));
    assert ct[..KEY_LEN] + ct[KEY_LEN..] == ct;
    var h := FinalHeader(c, s, header, p, d);
    AadIgnoresWrapping(h0, h.wrappedDek, h.wrapTag);
  }

  lemma AadIgnoresWrapping(h: ParsedHeader, key: Key, tag: WrapTag)
    ensures AadBytes(h.(wrappedDek := key, wrapTag := tag)) == AadBytes(h)
  {
  }
}
