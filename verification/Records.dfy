/** The records of a published file: every frame opens, and to what it was written for. */
module Records {
  import opened Prelude
  import opened Crypto
  import opened Header
  import opened Shape
  import opened Frames
  import opened Image
  import opened SaveProof
  import opened Steps
  import opened Preservation
  import opened History

  /** Where an id's slot comes from: some entry with that id. */
  lemma {:induction false} SlotMapFrom(es: seq<IndexEntry>, id: u32) returns (i: nat)
    requires id in SlotMap(es)
    ensures i < |es| && es[i].itemId == id && es[i].slot == SlotMap(es)[id]
  {
    if es[|es| - 1].itemId == id {
      i := |es| - 1;
    } else {
      i := SlotMapFrom(es[..|es| - 1], id);
    }
  }

  /** The items of a good commit: one for each entry, with its metadata, and every record opens. */
  lemma ItemsOf(c: Suite, k: Commit)
    requires Decodes(c, k)
    ensures Contents(c, k.bytes, k.dek) == Ok(RecordsIn(c, k)) && |RecordsIn(c, k)| == |k.entries|
    ensures var frames := FramesOf(k.bytes, true, TRAILER_LEN).value;
            RecordsIn(c, k) == Items(c, k.dek, k.alg, CURRENT_VERSION, k.entries, frames)
    ensures forall i :: 0 <= i < |k.entries| ==>
              && RecordsIn(c, k)[i].record.Ok?
              && RecordsIn(c, k)[i] == Item(k.entries[i].itemId, k.entries[i].state, k.entries[i].title,
                                            k.entries[i].username, RecordsIn(c, k)[i].record)
  {
    hide ReadIndex, FramesOf, ParseHeaderVersion, OpenSlot, AadBytes;
    DecodedLength(c, k);
    VersionIsCurrent(k.bytes);
    assert forall i :: 0 <= i < |k.entries| ==> k.entries[i] in k.entries;
  }

  /** Whatever an id of a good commit leads to opens. */
  lemma LookupOpens(c: Suite, k: Commit, id: u32)
    requires Decodes(c, k) && id in SlotMap(k.entries)
    ensures Lookup(RecordsIn(c, k), id).Ok?
  {
    hide Decodes, RecordsIn, OpenSlot, Items;
    ItemsOf(c, k);
    var frames := FramesOf(k.bytes, true, TRAILER_LEN).value;
    SlotMapLookup(c, k.dek, k.alg, CURRENT_VERSION, k.entries, frames, id);
    var i := SlotMapFrom(k.entries, id);
    SlotOpens(c, k, i);
  }

  lemma SlotOpens(c: Suite, k: Commit, i: nat)
    requires Decodes(c, k) && i < |k.entries|
    ensures var frames := FramesOf(k.bytes, true, TRAILER_LEN).value;
            OpenSlot(c, k.dek, k.alg, CURRENT_VERSION, frames, k.entries[i].slot, k.entries[i].itemId).Ok?
  {
    hide ReadIndex, FramesOf, ParseHeaderVersion, OpenSlot, AadBytes;
    assert k.entries[i] in k.entries;
  }

  /** A save needs nothing of the old file, or builds on a good commit under the same key and algorithm. */
  ghost predicate BuildsOn(c: Suite, s: Session, header: ParsedHeader, diskDek: Key, disk: Bytes,
                           last: Option<Commit>)
  {
    || (forall e :: e in s.entries ==> Dead(e.state) || e.slot in s.cache)
    || (&& last.Some? && Decodes(c, last.value)
        && disk == last.value.bytes && diskDek == last.value.dek && s.dek == diskDek
        && ParseHeader(disk).Ok? && header.itemAlgId == ParseHeader(disk).value.itemAlgId)
  }

  lemma OldSlots(c: Suite, tag: Option<Mac>, k: Commit)
    requires Decodes(c, k) && OldFile(c, tag, k.dek, k.bytes).Ok?
    ensures OldFile(c, tag, k.dek, k.bytes).value.0 == SlotMap(k.entries)
  {
    hide ReadIndex, FramesOf, AadBytes, AuthenticateCurrent, SlotMap, FramesOpen, ParseHeaderVersion;
    DecodedLength(c, k);
    VersionIsCurrent(k.bytes);
  }

  /** Every record a save stands for can be read. */
  lemma RecordReads(c: Suite, s: Session, header: ParsedHeader, diskDek: Key, disk: Bytes, p: Plan,
                    last: Option<Commit>, i: nat)
    requires Preflight(c, s, header, diskDek, disk) == Ok(p) && i < |s.entries|
    requires BuildsOn(c, s, header, diskDek, disk, last)
    ensures RecordFor(s.cache, OldItems(c, disk, diskDek), s.entries[i]).Ok?
  {
    hide Preflight, Decodes, OldFile, OldItems, Lookup;
    var e := s.entries[i];
    assert e in s.entries;
    if e.slot !in s.cache && !Dead(e.state) {
      PlanSource(c, s, header, diskDek, disk, p, i);
      OldSlots(c, s.tag, last.value);
      LookupOpens(c, last.value, e.itemId);
    }
  }

  lemma CopiesRead(c: Suite, s: Session, header: ParsedHeader, diskDek: Key, disk: Bytes, p: Plan, last: Option<Commit>)
    requires Preflight(c, s, header, diskDek, disk) == Ok(p) && BuildsOn(c, s, header, diskDek, disk, last)
    ensures CopiesReadable(p, header, s.dek, diskDek, disk)
  {
    hide Preflight, Decodes;
    if forall e :: e in s.entries ==> Dead(e.state) || e.slot in s.cache {
      NothingToCopy(c, s, header, diskDek, disk, p);
    }
  }

  /** The frames of a published image all open, to the records its session stood for. */
  lemma ImageOpens(c: Suite, s: Session, header: ParsedHeader, diskDek: Key, disk: Bytes, p: Plan, d: Draws,
                   last: Option<Commit>, k: Commit)
    requires Lawful(c) && Preflight(c, s, header, diskDek, disk) == Ok(p) && Fitting(p, d)
    requires header.version == CURRENT_VERSION && header.pad == ZERO_PAD
    requires BuildsOn(c, s, header, diskDek, disk, last)
    requires k.bytes == ImageOf(c, s, header, p, d) && k.dek == s.dek && k.alg == p.itemAlg
    requires |k.entries| == |s.entries|
    requires forall i :: 0 <= i < |s.entries| ==> k.entries[i].slot == i && k.entries[i].itemId == s.entries[i].itemId
    ensures FramesOpen(c, k)
    ensures RecordsIn(c, k) == Meaning(s.cache, s.entries, OldItems(c, disk, diskDek))
  {
    hide Preflight, ImageOf, NewFrames, BuildsOn, Saved, FramesOf, AllFrames, DecryptFrame, RecordFor, OldItems,
         Meaning, Contents, ParseHeader, CopiesReadable, EveryFrameOpens;
    PlanShape(c, s, header, diskDek, disk, p);
    FittingDraws(p, d);
    CopiesRead(c, s, header, diskDek, disk, p, last);
    ImageIsSaved(c, s, header, p, d);
    AllNewFrames(c, s, header, diskDek, disk, p, d);
    SavedFrames(c, k.bytes, s, header, p, d);
    SaveRefines(c, s, header, diskDek, disk, p, d);
    ItemsOfImage(c, k.bytes, s.dek);
    EveryEntryOpens(c, s, header, diskDek, disk, p, last, k, NewFrames(c, s.dek, CURRENT_VERSION, p, d));
  }

  /** Frames that decrypt to what the session stands for all open. */
  lemma EveryEntryOpens(c: Suite, s: Session, header: ParsedHeader, diskDek: Key, disk: Bytes, p: Plan,
                        last: Option<Commit>, k: Commit, frames: seq<Bytes>)
    requires Preflight(c, s, header, diskDek, disk) == Ok(p) && BuildsOn(c, s, header, diskDek, disk, last)
    requires |k.entries| == |s.entries| == |frames| <= U32_MAX
    requires forall i :: 0 <= i < |s.entries| ==> k.entries[i].slot == i && k.entries[i].itemId == s.entries[i].itemId
    requires forall i :: 0 <= i < |frames| ==>
               DecryptFrame(c, k.dek, k.alg, CURRENT_VERSION, frames[i], s.entries[i].itemId)
               == RecordFor(s.cache, OldItems(c, disk, diskDek), s.entries[i])
    ensures EveryFrameOpens(c, k.dek, k.alg, CURRENT_VERSION, k.entries, frames)
  {
    hide Preflight, BuildsOn, DecryptFrame, RecordFor, OldItems;
    forall e | e in k.entries
      ensures e.slot < |frames| && OpenSlot(c, k.dek, k.alg, CURRENT_VERSION, frames, e.slot, e.itemId).Ok?
    {
      var i :| 0 <= i < |k.entries| && k.entries[i] == e;
      RecordReads(c, s, header, diskDek, disk, p, last, i);
    }
  }

  lemma ItemsOfImage(c: Suite, raw: Bytes, dek: Key)
    ensures Contents(c, raw, dek).Ok? ==> OldItems(c, raw, dek) == Contents(c, raw, dek).value
  {
    hide ReadIndex, FramesOf;
  }

  ghost predicate StatesKnown(es: seq<IndexEntry>) {
    forall e :: e in es ==> e.state == LIVE || Dead(e.state)
  }

  /** Renumbered with its cache, a session stands for the same items. */
  lemma SameMeaning(cache: map<u32, ItemRecord>, es: seq<IndexEntry>, before: seq<Item>)
    requires |es| <= U32_MAX && SlotsDistinct(es) && StatesKnown(es)
    ensures Meaning(Remap(cache, es), NormAll(Renumber(es)), before) == Meaning(cache, es, before)
  {
    hide Lookup;
    var (a, b) := (Meaning(Remap(cache, es), NormAll(Renumber(es)), before), Meaning(cache, es, before));
    forall i: u32 | i < |es|
      ensures a[i] == b[i]
    {
      SameRecord(cache, es, before, i);
    }
    assert a == b;
  }

  lemma SameRecord(cache: map<u32, ItemRecord>, es: seq<IndexEntry>, before: seq<Item>, i: u32)
    requires i < |es| <= U32_MAX && SlotsDistinct(es) && StatesKnown(es)
    ensures RecordFor(Remap(cache, es), before, NormAll(Renumber(es))[i]) == RecordFor(cache, before, es[i])
    ensures Norm(NormAll(Renumber(es))[i]) == Norm(es[i]).(slot := i)
  {
    hide Lookup;
    assert FirstOfSlot(es, i) && es[i] in es;
  }
}
