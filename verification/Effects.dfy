/**
 What a successful operation does to the file, said of the items in it: which item changed, to
 what, and that no other did.
 */
module Effects {
  import opened Prelude
  import opened Crypto
  import opened Header
  import opened Shape
  import opened Image
  import opened SaveProof
  import opened Steps
  import opened Preservation
  import opened Acceptance

  /** What the session stands for at one entry: the cached record, nothing if it is dead, else what the file holds. */
  ghost function Standing(c: Suite, s: Session, disk: Option<Bytes>, e: IndexEntry): Result<ItemRecord> {
    if e.slot in s.cache then Ok(s.cache[e.slot])
    else if e.state != LIVE then Ok(PLACEHOLDER)
    else Lookup(OldItems(c, BytesOf(disk), s.dek), e.itemId)
  }

  /** The item of the file is the session's entry, with the record the session stands for. */
  ghost predicate Unchanged(c: Suite, s: Session, disk: Option<Bytes>, e: IndexEntry, now: Item) {
    && now.id == e.itemId && now.title == e.title && now.username == e.username
    && (now.state == LIVE <==> e.state == LIVE) && (now.state == LIVE || now.state == TOMBSTONE)
    && now.record == Standing(c, s, disk, e)
  }

  /** Ids and slots are unambiguous and states known, as in every session of every run. */
  ghost predicate Unambiguous(s: Session) {
    && IdsDistinct(s.entries) && SlotsDistinct(s.entries)
    && (forall e :: e in s.entries ==> e.state == LIVE || e.state == TOMBSTONE)
    && forall e :: e in s.entries ==> e.slot < |s.entries|
  }

  /** The item with the id is dead and empty, every other is unchanged, and the session has no live entry of it. */
  ghost predicate Deleted(c: Suite, s: Session, disk: Option<Bytes>, s': Session, disk': Option<Bytes>, id: u32) {
    && disk'.Some? && Contents(c, disk'.value, s.dek).Ok?
    && var now := Contents(c, disk'.value, s.dek).value;
    && |now| == |s.entries| == |s'.entries|
    && (exists i :: 0 <= i < |now| && now[i].id == id && s.entries[i].state == LIVE)
    && (forall i :: 0 <= i < |now| ==>
          if s.entries[i].itemId == id then
            now[i] == Item(id, TOMBSTONE, s.entries[i].title, s.entries[i].username, Ok(PLACEHOLDER))
          else Unchanged(c, s, disk, s.entries[i], now[i]))
    && forall e :: e in s'.entries && e.itemId == id ==> e.state == TOMBSTONE
  }

  /** The item with the id has exactly this title, username and record and is live; every other is unchanged. */
  ghost predicate Edited(c: Suite, s: Session, disk: Option<Bytes>, disk': Option<Bytes>, id: u32, title: Text,
                         username: Text, record: ItemRecord)
  {
    && disk'.Some? && Contents(c, disk'.value, s.dek).Ok?
    && var now := Contents(c, disk'.value, s.dek).value;
    && |now| == |s.entries|
    && (exists i :: 0 <= i < |now| && now[i].id == id && s.entries[i].state == LIVE)
    && forall i :: 0 <= i < |now| ==>
         if s.entries[i].itemId == id then now[i] == Item(id, LIVE, title, username, Ok(record))
         else Unchanged(c, s, disk, s.entries[i], now[i])
  }

  /** One more item, last, with the next id; every other is unchanged. */
  ghost predicate Added(c: Suite, s: Session, disk: Option<Bytes>, disk': Option<Bytes>, title: Text, username: Text,
                        record: ItemRecord)
  {
    && disk'.Some? && Contents(c, disk'.value, s.dek).Ok?
    && var now := Contents(c, disk'.value, s.dek).value;
    && |now| == |s.entries| + 1
    && now[|s.entries|] == Item(s.nextId, LIVE, title, username, Ok(record))
    && forall i :: 0 <= i < |s.entries| ==> Unchanged(c, s, disk, s.entries[i], now[i])
  }

  lemma SavedEntries(c: Suite, s: Session, disk: Option<Bytes>, s': Session, disk': Option<Bytes>, d: Draws)
    requires Lawful(c) && PlainSave(c, s, disk, s', disk', Ok(()), d)
    ensures |s'.entries| == |s.entries|
    ensures forall i :: 0 <= i < |s.entries| ==>
              s'.entries[i].itemId == s.entries[i].itemId && s'.entries[i].state == s.entries[i].state
  {
    hide Preflight, ImageOf, Remap, Fitting, ParseHeaderVersion;
    PlanShape(c, s, ParseHeader(disk.value).value, s.dek, disk.value,
              Preflight(c, s, ParseHeader(disk.value).value, s.dek, disk.value).value);
  }

  /** One item of what a save publishes, when its entry and its cached record are as they were. */
  lemma ItemStands(c: Suite, s: Session, t: Session, disk: Option<Bytes>, k: nat)
    requires t.dek == s.dek && k < |s.entries| == |t.entries| && t.entries[k] == s.entries[k] && disk.Some?
    requires s.entries[k].state == LIVE || s.entries[k].state == TOMBSTONE
    requires var slot := s.entries[k].slot;
             (slot in t.cache <==> slot in s.cache) && (slot in s.cache ==> t.cache[slot] == s.cache[slot])
    ensures Unchanged(c, s, disk, s.entries[k], Meaning(t.cache, t.entries, OldItems(c, disk.value, s.dek))[k])
  {
    hide OldItems, Lookup;
  }

  lemma TombstonedItems(c: Suite, s: Session, disk: Option<Bytes>, i: nat, k: nat)
    requires i < |s.entries| && k < |s.entries| && disk.Some? && Unambiguous(s)
    ensures var t := TombstonedAt(s, i, s.entries[i].slot);
            var now := Meaning(t.cache, t.entries, OldItems(c, disk.value, s.dek))[k];
            if k == i then
              now == Item(s.entries[i].itemId, TOMBSTONE, s.entries[i].title, s.entries[i].username, Ok(PLACEHOLDER))
            else s.entries[k].itemId != s.entries[i].itemId && Unchanged(c, s, disk, s.entries[k], now)
  {
    hide OldItems, Lookup, IdsDistinct, SlotsDistinct, Unchanged;
    assert s.entries[k] in s.entries;
    if k != i {
      Apart(s.entries, i, k);
      ItemStands(c, s, TombstonedAt(s, i, s.entries[i].slot), disk, k);
    }
  }

  lemma DeletionTakesEffect(c: Suite, s: Session, id: u32, disk: Option<Bytes>, s': Session, disk': Option<Bytes>,
                            d: Draws)
    requires Lawful(c) && TombstoneStep(c, s, id, disk, s', disk', Ok(()), d) && Unambiguous(s)
    ensures Deleted(c, s, disk, s', disk', id)
  {
    hide PlainSave, Contents, OldItems, CacheCoherent, Lookup, Unambiguous, Unchanged, Meaning;
    IdsOf(s);
    DistinctIdsAgree(s.entries, id);
    var i := LivePosition(s.entries, id).value;
    var t := TombstonedAt(s, i, s.entries[i].slot);
    SavedEntries(c, t, disk, s', disk', d);
    PlainSavePublishes(c, t, disk, s', disk', d);
    forall k | 0 <= k < |s.entries|
      ensures var now := Meaning(t.cache, t.entries, OldItems(c, disk.value, s.dek))[k];
              if k == i then
                now == Item(id, TOMBSTONE, s.entries[i].title, s.entries[i].username, Ok(PLACEHOLDER))
              else s.entries[k].itemId != id && Unchanged(c, s, disk, s.entries[k], now)
    {
      TombstonedItems(c, s, disk, i, k);
    }
    assert s'.entries[i].itemId == id;
  }

  lemma IdsOf(s: Session)
    requires Unambiguous(s)
    ensures IdsDistinct(s.entries)
  {
  }

  lemma Apart(es: seq<IndexEntry>, i: nat, k: nat)
    requires IdsDistinct(es) && SlotsDistinct(es) && i < |es| && k < |es|
    ensures i != k ==> es[i].itemId != es[k].itemId && es[i].slot != es[k].slot
  {
  }

  lemma EditedItems(c: Suite, s: Session, title: Text, username: Text, record: ItemRecord, disk: Option<Bytes>, i: nat,
                    k: nat)
    requires i < |s.entries| && k < |s.entries| && disk.Some? && Unambiguous(s) && s.entries[i].state == LIVE
    ensures var t := EditedAt(s, i, title, username, record);
            var now := Meaning(t.cache, t.entries, OldItems(c, disk.value, s.dek))[k];
            if k == i then now == Item(s.entries[i].itemId, LIVE, title, username, Ok(record))
            else s.entries[k].itemId != s.entries[i].itemId && Unchanged(c, s, disk, s.entries[k], now)
  {
    hide OldItems, Lookup, IdsDistinct, SlotsDistinct, Unchanged;
    assert s.entries[k] in s.entries;
    if k != i {
      Apart(s.entries, i, k);
      ItemStands(c, s, EditedAt(s, i, title, username, record), disk, k);
    }
  }

  lemma EditTakesEffect(c: Suite, s: Session, id: u32, title: Text, username: Text, record: ItemRecord,
                        disk: Option<Bytes>, s': Session, disk': Option<Bytes>, d: Draws)
    requires Lawful(c) && EntryStep(c, s, id, title, username, record, disk, s', disk', Ok(()), d) && Unambiguous(s)
    requires LivePosition(s.entries, id).Some?
    ensures Edited(c, s, disk, disk', id, title, username, record)
  {
    hide PlainSave, Contents, OldItems, CacheCoherent, Lookup, Unambiguous, Unchanged, Meaning;
    IdsOf(s);
    DistinctIdsAgree(s.entries, id);
    var i := LivePosition(s.entries, id).value;
    var t := EditedAt(s, i, title, username, record);
    PlainSavePublishes(c, t, disk, s', disk', d);
    forall k | 0 <= k < |s.entries|
      ensures var now := Meaning(t.cache, t.entries, OldItems(c, disk.value, s.dek))[k];
              if k == i then now == Item(id, LIVE, title, username, Ok(record))
              else s.entries[k].itemId != id && Unchanged(c, s, disk, s.entries[k], now)
    {
      EditedItems(c, s, title, username, record, disk, i, k);
    }
  }

  lemma AdditionTakesEffect(c: Suite, s: Session, title: Text, username: Text, record: ItemRecord,
                            disk: Option<Bytes>, s': Session, disk': Option<Bytes>, d: Draws)
    requires Lawful(c) && Unambiguous(s) && AddItem(s, title, username, record).1.Ok?
    requires PlainSave(c, AddItem(s, title, username, record).0, disk, s', disk', Ok(()), d)
    ensures Added(c, s, disk, disk', title, username, record)
  {
    hide PlainSave, Contents, OldItems, CacheCoherent, Lookup, Unchanged, IdsDistinct, SlotsDistinct;
    var t := AddItem(s, title, username, record).0;
    PlainSavePublishes(c, t, disk, s', disk', d);
    var first := t.(entries := s.entries);
    forall k | 0 <= k < |s.entries|
      ensures Unchanged(c, s, disk, s.entries[k], Contents(c, disk'.value, s.dek).value[k])
    {
      assert s.entries[k] in s.entries && t.entries[k] == s.entries[k];
      ItemStands(c, s, first, disk, k);
    }
  }

  /** Decrypting more records of live items, as the file holds them, changes nothing of this. */
  lemma OpenedUnchanged(c: Suite, s: Session, t: Session, disk: Option<Bytes>, e: IndexEntry, now: Item)
    requires t == s.(cache := t.cache) && (e.slot in t.cache <==> e.slot in s.cache)
    requires e.slot in s.cache ==> t.cache[e.slot] == s.cache[e.slot]
    ensures Unchanged(c, t, disk, e, now) <==> Unchanged(c, s, disk, e, now)
  {
    hide OldItems, Lookup;
  }

  /** For an item nobody opened, unchanged means as in the file: the record it held there, and it still opens. */
  lemma UnchangedInFile(c: Suite, s: Session, raw: Bytes, p: nat, now: Item)
    requires Follows(c, s, s.dek, raw) && p < |IndexOf(c, raw, s.dek, s.config.itemAlg)|
    requires p < |s.entries| && s.entries[p].state == LIVE && p !in s.cache
    requires Unchanged(c, s, Some(raw), s.entries[p], now)
    ensures Contents(c, raw, s.dek).Ok? && p < |Contents(c, raw, s.dek).value|
    ensures now.id == Contents(c, raw, s.dek).value[p].id && now.record.Ok?
    ensures now.record == Contents(c, raw, s.dek).value[p].record
  {
    hide Contents, Lookup, Current, Intact, IndexOf;
    FileHolds(c, s, raw, p);
  }
}
