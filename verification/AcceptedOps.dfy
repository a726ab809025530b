/** Which additions, deletions, updates and imports are accepted, for a session that is up to date with its file. */
module AcceptedOps {
  import opened Prelude
  import opened Crypto
  import opened Header
  import opened Shape
  import opened Frames
  import opened Image
  import opened Steps
  import opened Acceptance
  import opened Ops

  /** There is a live entry with the id. */
  ghost predicate IsLive(es: seq<IndexEntry>, id: u32) {
    exists e :: e in es && e.itemId == id && e.state == LIVE
  }

  lemma LivePlace(s: Session, id: u32)
    requires Orderly(s) && IdsDistinct(s.entries)
    ensures IsLive(s.entries, id) <==> LivePosition(s.entries, id).Some?
    ensures LivePosition(s.entries, id).Some? ==>
              && Position(s.entries, id) == LivePosition(s.entries, id)
              && s.entries[LivePosition(s.entries, id).value].slot == LivePosition(s.entries, id).value
  {
    hide IdsDistinct;
    if LivePosition(s.entries, id).Some? {
      DistinctIdsAgree(s.entries, id);
      assert s.entries[LivePosition(s.entries, id).value] in s.entries;
    }
  }

  lemma OrderlyOf(c: Suite, s: Session, dek: Key, raw: Bytes)
    requires Follows(c, s, dek, raw)
    ensures Orderly(s)
  {
  }

  /** A deletion has a plan exactly when there is room for the file without the record. */
  lemma DeletionAccepted(c: Suite, s: Session, raw: Bytes, id: u32)
    requires Follows(c, s, s.dek, raw) && IdsDistinct(s.entries) && IsLive(s.entries, id)
    ensures LivePosition(s.entries, id).Some? && Position(s.entries, id) == LivePosition(s.entries, id)
    ensures var i := LivePosition(s.entries, id).value;
            var t := TombstonedAt(s, i, s.entries[i].slot);
            SavePlan(c, t, Some(raw)).Ok? <==> HasRoom(t, raw)
  {
    hide Follows, SavePlan, HasRoom, IdsDistinct, Orderly, TombstonedAt;
    OrderlyOf(c, s, s.dek, raw);
    LivePlace(s, id);
    var i := LivePosition(s.entries, id).value;
    DeletedFollows(c, s, s.dek, raw, i);
    TombstonedKey(s, i);
    SaveIff(c, TombstonedAt(s, i, s.entries[i].slot), raw);
  }

  lemma TombstonedKey(s: Session, i: nat)
    requires i < |s.entries|
    ensures TombstonedAt(s, i, s.entries[i].slot).dek == s.dek
  {
  }

  /** An update is accepted exactly when the item is live, and what it becomes, if it changes, is valid and has room. */
  lemma UpdateAccepted(c: Suite, s: Session, raw: Bytes, id: u32, patch: EntryPatch, now: u64)
    requires Follows(c, s, s.dek, raw) && IdsDistinct(s.entries)
    ensures var r := UpdateOutcome(c, s, Some(raw), id, patch, now);
            if !IsLive(s.entries, id) then r.Err?
            else
              var i := LivePosition(s.entries, id).value;
              && i < |s.entries| && Shown(c, s, Some(raw), s.entries[i]).Ok?
              && var was := Details(s.entries[i].title, s.entries[i].username,
                                    Shown(c, s, Some(raw), s.entries[i]).value);
              && var next := Patched(was, patch);
              && var stamped := next.record.(modified := now);
              && var s1 := OpenItem(c, s, raw, id).0;
              && (r == Ok(false) <==> next == was)
              && (next != was ==>
                   (r == Ok(true) <==> && Storable(Details(next.title, next.username, stamped))
                                       && HasRoom(EditedAt(s1, i, next.title, next.username, stamped), raw)))
  {
    hide Follows, SavePlan, HasRoom, IdsDistinct, Orderly, EditedAt, OpenItem, Patched, Storable;
    OrderlyOf(c, s, s.dek, raw);
    LivePlace(s, id);
    OpenIff(c, s, raw, id);
    if IsLive(s.entries, id) {
      OpenShows(c, s, raw, id);
      OpenedFollows(c, s, raw, id);
      var s1 := OpenItem(c, s, raw, id).0;
      var i := LivePosition(s.entries, id).value;
      var was := Details(s.entries[i].title, s.entries[i].username, s1.cache[s.entries[i].slot]);
      var next := Patched(was, patch);
      EditedFollows(c, s1, s.dek, raw, i, next.title, next.username, next.record.(modified := now));
      EditedKey(s1, i, next.title, next.username, next.record.(modified := now));
      SaveIff(c, EditedAt(s1, i, next.title, next.username, next.record.(modified := now)), raw);
    }
  }

  lemma EditedKey(s: Session, i: nat, title: Text, username: Text, record: ItemRecord)
    requires i < |s.entries|
    ensures EditedAt(s, i, title, username, record).dek == s.dek
  {
  }

  /** A session stays up to date when it opens an item. */
  lemma OpenedFollows(c: Suite, s: Session, raw: Bytes, id: u32)
    requires Follows(c, s, s.dek, raw)
    ensures Follows(c, OpenItem(c, s, raw, id).0, s.dek, raw)
  {
    hide Follows, OpenItem, Orderly;
    OrderlyOf(c, s, s.dek, raw);
    OpenedWithin(c, s, raw, id);
    CachedFollows(c, s, OpenItem(c, s, raw, id).0, s.dek, raw);
  }

  lemma OpenedWithin(c: Suite, s: Session, raw: Bytes, id: u32)
    requires Orderly(s)
    ensures var t := OpenItem(c, s, raw, id).0;
            && t == s.(cache := t.cache) && (forall slot :: slot in s.cache ==> slot in t.cache)
            && forall slot :: slot in t.cache ==> slot < |s.entries|
  {
    hide OpenSlot, FramesOf, AuthenticateCurrent;
  }

  /** An addition is valid, finds its id and has a plan exactly when ids are left and the item fits in. */
  lemma AdditionAccepted(c: Suite, s: Session, raw: Bytes, title: Text, username: Text, record: ItemRecord)
    requires Follows(c, s, s.dek, raw) && |s.entries| <= U32_MAX
    ensures var (t, added) := AddItem(s, title, username, record);
            (Storable(Details(title, username, record)) && added.Ok? && SavePlan(c, t, Some(raw)).Ok?
             <==> s.nextId < 0xFFFF_FFFF && HasRoom(t, raw))
  {
    hide Follows, SavePlan, FileSize, FreshCount, FramesIn, ValidItem, RecordFits, ParseHeaderVersion;
    if s.nextId < U32_MAX {
      AddedFollows(c, s, s.dek, raw, title, username, record);
      var t := AddItem(s, title, username, record).0;
      SaveIff(c, t, raw);
      RecordIff(record);
      assert t.entries[|s.entries|] in t.entries && t.cache[|s.entries|] == record;
    }
  }

  // ---------------------------------------------------------------------- imports

  /** `add_item` finds ids for a list of items exactly when there are enough left, given that slots suffice. */
  lemma {:induction false} AddsFit(s: Session, adds: seq<NewItem>)
    requires |s.entries| + |adds| <= U32_MAX
    ensures AddAll(s, adds).1.Ok? <==> s.nextId + |adds| <= U32_MAX
    ensures AddAll(s, adds).1.Ok? ==>
              AddAll(s, adds).0.nextId == s.nextId + |adds| && |AddAll(s, adds).0.entries| == |s.entries| + |adds|
    ensures |AddAll(s, adds).0.entries| <= |s.entries| + |adds| && AddAll(s, adds).0.nextId <= s.nextId + |adds|
  {
    if adds != [] {
      AddsFit(s, adds[..|adds| - 1]);
    }
  }

  /** So the check made before anything changes is the one that decides. */
  lemma ChecksAgree(s: Session, adds: seq<NewItem>)
    requires |s.entries| + |adds| <= U32_MAX
    ensures AddsOk(adds, s.nextId)
       <==> AddAll(s, adds).1.Ok? && forall k :: 0 <= k < |adds| ==>
              && MetadataOk(adds[k].title, adds[k].username) && ValidItem(adds[k].record)
  {
    hide AddAll, ValidItem;
    AddsFit(s, adds);
  }

  /** The item of an update is live, and its texts and the new record are within their limits. */
  ghost predicate Replaceable(s: Session, u: ImportedUpdate) {
    && IsLive(s.entries, u.itemId) && ValidItem(u.record)
    && forall e :: e in s.entries && e.itemId == u.itemId ==> MetadataOk(e.title, e.username)
  }

  lemma PrepareOneAccepted(c: Suite, s: Session, raw: Bytes, u: ImportedUpdate)
    requires Follows(c, s, s.dek, raw) && IdsDistinct(s.entries)
    ensures PrepareOne(c, s, raw, u).1.Ok? <==> Replaceable(s, u)
  {
    hide Follows, IdsDistinct, Orderly, OpenItem, Replaceable, Storable;
    OrderlyOf(c, s, s.dek, raw);
    LivePlace(s, u.itemId);
    OpenIff(c, s, raw, u.itemId);
    if LivePosition(s.entries, u.itemId).Some? {
      OnlyEntry(s, u.itemId);
      OpenShows(c, s, raw, u.itemId);
      var e := s.entries[LivePosition(s.entries, u.itemId).value];
      ReplaceableAt(s, u, e, u.record.(created := OpenItem(c, s, raw, u.itemId).0.cache[e.slot].created));
    } else {
      NotReplaceable(s, u);
    }
  }

  lemma NotReplaceable(s: Session, u: ImportedUpdate)
    ensures !IsLive(s.entries, u.itemId) ==> !Replaceable(s, u)
  {
  }

  lemma PrepareOneFollows(c: Suite, s: Session, raw: Bytes, u: ImportedUpdate)
    requires Follows(c, s, s.dek, raw)
    ensures var t := PrepareOne(c, s, raw, u).0;
            Follows(c, t, s.dek, raw) && t.entries == s.entries && t.dek == s.dek
  {
    hide Follows, Orderly, OpenItem, Storable;
    OrderlyOf(c, s, s.dek, raw);
    OpenedFollows(c, s, raw, u.itemId);
    OpenedWithin(c, s, raw, u.itemId);
  }

  lemma ReplaceableAt(s: Session, u: ImportedUpdate, e: IndexEntry, record: ItemRecord)
    requires e in s.entries && e.itemId == u.itemId && e.state == LIVE
    requires forall x :: x in s.entries && x.itemId == u.itemId ==> x == e
    requires record == u.record.(created := record.created)
    ensures Storable(Details(e.title, e.username, record)) <==> Replaceable(s, u)
  {
    assert IsLive(s.entries, u.itemId);
  }

  lemma OnlyEntry(s: Session, id: u32)
    requires IdsDistinct(s.entries) && LivePosition(s.entries, id).Some?
    ensures forall e :: e in s.entries && e.itemId == id ==> e == s.entries[LivePosition(s.entries, id).value]
    ensures s.entries[LivePosition(s.entries, id).value] in s.entries
  {
  }

  /** All updates can be prepared exactly when each is of a live item and valid. */
  lemma {:induction false} PrepareAccepted(c: Suite, s: Session, raw: Bytes, us: seq<ImportedUpdate>)
    requires Follows(c, s, s.dek, raw) && IdsDistinct(s.entries)
    ensures PrepareAll(c, s, raw, us).1.Ok? <==> forall u :: u in us ==> Replaceable(s, u)
    ensures var t := PrepareAll(c, s, raw, us).0;
            Follows(c, t, s.dek, raw) && t.entries == s.entries && t.dek == s.dek
  {
    hide Follows, IdsDistinct, PrepareOne, IsLive, ValidItem;
    if us != [] {
      var (front, last) := (us[..|us| - 1], us[|us| - 1]);
      assert us == front + [last];
      PrepareAccepted(c, s, raw, front);
      assert forall u :: Replaceable(PrepareAll(c, s, raw, front).0, u) <==> Replaceable(s, u);
      PrepareOneAccepted(c, PrepareAll(c, s, raw, front).0, raw, last);
      PrepareOneFollows(c, PrepareAll(c, s, raw, front).0, raw, last);
      assert last in us && forall u :: u in front ==> u in us;
    }
  }

  lemma PutAllFollows(c: Suite, s: Session, dek: Key, raw: Bytes, updates: seq<(u32, ItemRecord)>)
    requires Follows(c, s, dek, raw) && forall k :: 0 <= k < |updates| ==> updates[k].0 < |s.entries|
    ensures Follows(c, s.(cache := PutAll(s.cache, updates)), dek, raw)
  {
    hide Follows, PutAll;
    OrderlyOf(c, s, dek, raw);
    PutAllWithin(s.cache, updates, |s.entries|);
    CachedFollows(c, s, s.(cache := PutAll(s.cache, updates)), dek, raw);
  }

  lemma {:induction false} PutAllWithin(cache: map<u32, ItemRecord>, updates: seq<(u32, ItemRecord)>, n: nat)
    requires forall slot :: slot in cache ==> slot < n
    requires forall k :: 0 <= k < |updates| ==> updates[k].0 < n
    ensures forall slot :: slot in cache ==> slot in PutAll(cache, updates)
    ensures forall slot :: slot in PutAll(cache, updates) ==> slot < n
  {
    if updates != [] {
      PutAllWithin(cache, updates[..|updates| - 1], n);
    }
  }

  lemma {:induction false} PreparedSlots(c: Suite, s: Session, raw: Bytes, us: seq<ImportedUpdate>)
    requires Follows(c, s, s.dek, raw) && PrepareAll(c, s, raw, us).1.Ok?
    ensures var ready := PrepareAll(c, s, raw, us).1.value;
            forall k :: 0 <= k < |ready| ==> ready[k].0 < |s.entries|
    ensures var t := PrepareAll(c, s, raw, us).0;
            Follows(c, t, s.dek, raw) && t.entries == s.entries && t.dek == s.dek && t.nextId == s.nextId
  {
    hide Follows, PrepareOne;
    if us != [] {
      var front := us[..|us| - 1];
      PreparedSlots(c, s, raw, front);
      PrepareOneFollows(c, PrepareAll(c, s, raw, front).0, raw, us[|us| - 1]);
      PreparedSlot(c, PrepareAll(c, s, raw, front).0, raw, us[|us| - 1]);
    }
  }

  lemma PreparedSlot(c: Suite, s: Session, raw: Bytes, u: ImportedUpdate)
    requires Follows(c, s, s.dek, raw)
    ensures PrepareOne(c, s, raw, u).1.Ok? ==> PrepareOne(c, s, raw, u).1.value.0 < |s.entries|
    ensures PrepareOne(c, s, raw, u).0.nextId == s.nextId
  {
    hide Follows, OpenItem, Storable;
    OrderlyOf(c, s, s.dek, raw);
    OpenedWithin(c, s, raw, u.itemId);
  }

  lemma {:induction false} AddAllKeeps(s: Session, adds: seq<NewItem>)
    ensures AddAll(s, adds).0.dek == s.dek && |s.entries| <= |AddAll(s, adds).0.entries|
  {
    if adds != [] {
      AddAllKeeps(s, adds[..|adds| - 1]);
    }
  }

  /** The session an import tries to save. */
  ghost function ImportCandidate(c: Suite, s: Session, raw: Bytes, adds: seq<NewItem>,
                                 us: seq<ImportedUpdate>): Session {
    var (s1, prepared) := PrepareAll(c, s, raw, us);
    var t := AddAll(s1, adds).0;
    if prepared.Ok? then t.(cache := PutAll(t.cache, prepared.value)) else t
  }

  /**
   An import is accepted exactly when every add is valid and finds an id, every update is of a live
   item and valid, and there is room for all of it.
   */
  lemma ImportAccepted(c: Suite, s: Session, raw: Bytes, adds: seq<NewItem>, us: seq<ImportedUpdate>, r: Result<()>)
    requires Follows(c, s, s.dek, raw) && IdsDistinct(s.entries) && |s.entries| + |adds| <= U32_MAX
    requires ImportOutcome(c, s, Some(raw), adds, us, r)
    ensures r.Ok? <==>
              && (forall k :: 0 <= k < |adds| ==>
                    MetadataOk(adds[k].title, adds[k].username) && ValidItem(adds[k].record))
              && s.nextId + |adds| <= U32_MAX
              && (forall u :: u in us ==> Replaceable(s, u))
              && HasRoom(ImportCandidate(c, s, raw, adds, us), raw)
  {
    hide Follows, IdsDistinct, PrepareAll, AddAll, PutAll, SavePlan, HasRoom, Replaceable, ValidItem;
    PrepareAccepted(c, s, raw, us);
    ChecksAgree(s, adds);
    var (s1, prepared) := PrepareAll(c, s, raw, us);
    if prepared.Ok? {
      PreparedSlots(c, s, raw, us);
      AddsFit(s1, adds);
      AddAllKeeps(s1, adds);
      AllAddedFollows(c, s1, s.dek, raw, adds);
      PutAllFollows(c, AddAll(s1, adds).0, s.dek, raw, prepared.value);
      SaveIff(c, ImportCandidate(c, s, raw, adds, us), raw);
    }
  }
}
