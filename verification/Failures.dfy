/** What a failing operation leaves behind. */
module Failures {
  import opened Prelude
  import opened Crypto
  import opened Shape
  import opened Image
  import opened Steps

  /** The commit tag a file carries. */
  function FileTag(raw: Bytes): Mac
    requires |raw| >= MAC_LEN
  {
    raw[|raw| - MAC_LEN..]
  }

  /** The file is as it was, or the complete image the session was about to write, under the header the file had. */
  ghost predicate OldOrComplete(c: Suite, s: Session, disk: Option<Bytes>, disk': Option<Bytes>, d: Draws)
    requires Lawful(c)
  {
    || disk' == disk
    || (disk'.Some? && disk' == PlainImage(c, s, disk, d))
  }

  lemma FailedSave(c: Suite, s: Session, disk: Option<Bytes>, s': Session, disk': Option<Bytes>, r: Result<()>,
                   d: Draws)
    requires Lawful(c) && PlainSave(c, s, disk, s', disk', r, d) && r.Err?
    ensures s' == s && OldOrComplete(c, s, disk, disk', d)
  {
    hide Preflight, Committed, ImageOf, Fitting;
  }

  /** The session a deletion tries to save. */
  function DeletionCandidate(s: Session, id: u32): Session {
    var (live, i) := (LivePosition(s.entries, id), Position(s.entries, id));
    if live.Some? && i.Some? then TombstonedAt(s, i.value, s.entries[live.value].slot) else s
  }

  /**
   A failed deletion changes nothing in the session: entries, cache, keys, counter,
   next id and tag are as before; the file is old or complete.
   */
  lemma FailedDeletionUndone(c: Suite, s: Session, id: u32, disk: Option<Bytes>, s': Session, disk': Option<Bytes>,
                             r: Result<()>, d: Draws)
    requires Lawful(c) && TombstoneStep(c, s, id, disk, s', disk', r, d) && r.Err?
    ensures s' == s && OldOrComplete(c, DeletionCandidate(s, id), disk, disk', d)
  {
    hide PlainSave, Preflight;
    var live := LivePosition(s.entries, id);
    if live.Some? {
      var slot := s.entries[live.value].slot;
      var i := Position(s.entries, id);
      if i.Some? {
        var s1 := TombstonedAt(s, i.value, slot);
        FailedSave(c, s1, disk, s1, disk', r, d);
        assert s'.cache == s.cache;
        assert s'.entries == s.entries;
      }
    }
  }

  /**
   A failed edit is undone if and only if the entry's record was cached before; otherwise
   the metadata is restored but the uncommitted record stays in the cache.
   */
  lemma FailedEditUndoneIff(c: Suite, s: Session, id: u32, title: Text, username: Text, record: ItemRecord,
                            disk: Option<Bytes>, s': Session, disk': Option<Bytes>, r: Result<()>, d: Draws)
    requires Lawful(c) && EntryStep(c, s, id, title, username, record, disk, s', disk', r, d) && r.Err?
    requires Position(s.entries, id).Some?
    ensures var slot := s.entries[Position(s.entries, id).value].slot;
            && (s' == s <==> slot in s.cache)
            && s' == s.(cache := if slot in s.cache then s.cache else s.cache[slot := record])
    ensures OldOrComplete(c, EditedAt(s, Position(s.entries, id).value, title, username, record), disk, disk', d)
  {
    hide PlainSave, OldOrComplete;
    var i := Position(s.entries, id).value;
    var slot := s.entries[i].slot;
    var s1 := EditedAt(s, i, title, username, record);
    FailedSave(c, s1, disk, s1, disk', r, d);
    assert s'.entries == s.entries;
    if slot in s.cache {
      assert s'.cache == s.cache;
    } else {
      assert s'.cache == s.cache[slot := record];
      assert slot in s'.cache;
    }
  }

  /**
   Once the file carries another tag than the one the session keeps, every save of the
   session is refused and neither changes: the fate of a session whose save failed after
   its image had been published.
   */
  lemma StaleSessionRefused(c: Suite, s: Session, raw: Bytes, s': Session, disk': Option<Bytes>, r: Result<()>,
                            d: Draws)
    requires Lawful(c) && PlainSave(c, s, Some(raw), s', disk', r, d)
    requires |raw| >= MAC_LEN && s.tag != Some(FileTag(raw))
    ensures r.Err? && s' == s && disk' == Some(raw)
  {
    hide Committed, ImageOf, Fitting, ReadIndex, Sources, SerializeIndex;
  }

  /** `s1` is `s` with the adds appended under consecutive ids, live, cached and uncommitted. */
  ghost predicate Grown(s: Session, s1: Session, adds: seq<NewItem>) {
    && s1.kek == s.kek && s1.dek == s.dek && s1.config == s.config && s1.tag == s.tag
    && s1.nextId == s.nextId + |adds| && |s1.entries| == |s.entries| + |adds| <= U32_MAX
    && s1.entries[..|s.entries|] == s.entries
    && (forall k: u32 :: |s.entries| <= k < |s1.entries| ==>
         && s1.entries[k] == NewEntry(s, adds, k)
         && k in s1.cache && s1.cache[k] == adds[k - |s.entries|].record)
    && (forall slot :: slot < |s.entries| ==> (slot in s1.cache <==> slot in s.cache))
    && (forall slot :: slot < |s.entries| && slot in s.cache ==> s1.cache[slot] == s.cache[slot])
  }

  function NewEntry(s: Session, adds: seq<NewItem>, k: u32): IndexEntry
    requires |s.entries| <= k < |s.entries| + |adds| && s.nextId + |adds| <= U32_MAX
  {
    var j := k - |s.entries|;
    IndexEntry(s.nextId + j, k, LIVE, adds[j].title, adds[j].username)
  }

  lemma GrownStep(s: Session, s1: Session, adds: seq<NewItem>, last: NewItem)
    requires Grown(s, s1, adds) && s1.nextId < U32_MAX && |s1.entries| < U32_MAX
    ensures var (s2, r) := AddItem(s1, last.title, last.username, last.record);
            r.Ok? && Grown(s, s2, adds + [last])
  {
  }

  lemma {:induction false} AddAllGrows(s: Session, adds: seq<NewItem>)
    requires s.nextId + |adds| <= U32_MAX && |s.entries| + |adds| <= U32_MAX
    ensures AddAll(s, adds).1.Ok? && Grown(s, AddAll(s, adds).0, adds)
  {
    hide AddItem;
    if adds != [] {
      var (front, last) := (adds[..|adds| - 1], adds[|adds| - 1]);
      AddAllGrows(s, front);
      GrownStep(s, AddAll(s, front).0, front, last);
      assert front + [last] == adds;
    }
  }

  lemma {:induction false} NoRoomToAdd(s: Session, adds: seq<NewItem>)
    requires s.nextId == U32_MAX && adds != []
    ensures AddAll(s, adds) == (s, Err(Encrypt))
  {
    if |adds| > 1 {
      NoRoomToAdd(s, adds[..|adds| - 1]);
    }
  }

  /** A session that has an id to give uses up at least one on the first add, whatever comes of the rest. */
  lemma {:induction false} AddsUseIds(s: Session, adds: seq<NewItem>)
    ensures AddAll(s, adds).0.nextId >= s.nextId
    ensures s.nextId < U32_MAX && adds != [] ==> AddAll(s, adds).0.nextId > s.nextId
  {
    if adds != [] {
      AddsUseIds(s, adds[..|adds| - 1]);
    }
  }

  /**
   What a failed import leaves. It keeps its updates and as many adds as were made. So the
   session is as it was if and only if nothing was added, and nothing would be updated: no
   adds and updates that change nothing, or adds while there is no id left to give.
   */
  lemma FailedImportUndoneIff(c: Suite, s: Session, adds: seq<NewItem>, updates: seq<(u32, ItemRecord)>,
                              disk: Option<Bytes>, s': Session, disk': Option<Bytes>, r: Result<()>, d: Draws)
    requires Lawful(c) && ImportStep(c, s, adds, updates, disk, s', disk', r, d) && r.Err?
    ensures s' == s <==> if adds == [] then PutAll(s.cache, updates) == s.cache else s.nextId == U32_MAX
    ensures s'.nextId == AddAll(s, adds).0.nextId && s'.entries == AddAll(s, adds).0.entries
    ensures AddAll(s, adds).1.Ok? ==>
              OldOrComplete(c, AddAll(s, adds).0.(cache := PutAll(AddAll(s, adds).0.cache, updates)), disk, disk', d)
    ensures AddAll(s, adds).1.Err? ==> disk' == disk
  {
    hide PlainSave, AddItem, OldOrComplete, PutAll;
    var (s1, added) := AddAll(s, adds);
    if added.Ok? {
      FailedSave(c, s1.(cache := PutAll(s1.cache, updates)), disk, s', disk', r, d);
    }
    if adds == [] {
      assert s1 == s;
    } else if s.nextId == U32_MAX {
      NoRoomToAdd(s, adds);
    } else {
      AddsUseIds(s, adds);
    }
  }

  /** A concrete import that is not undone: one add into an empty session. */
  lemma ImportNotUndone(c: Suite, s: Session, item: NewItem, d: Draws)
    requires Lawful(c) && s.entries == [] && s.nextId == 1
    ensures var s' := AddAll(s, [item]).0.(cache := PutAll(AddAll(s, [item]).0.cache, []));
            ImportStep(c, s, [item], [], None, s', None, Err(Encrypt), d) && s' != s
  {
    assert [item][..0] == [];
    assert AddAll(s, [item]) == (AddItem(s, item.title, item.username, item.record).0, Ok(()));
  }

  /** A concrete edit that is not undone: the entry's record was not cached, and the file is gone. */
  lemma EditNotUndone(c: Suite, s: Session, record: ItemRecord, d: Draws)
    requires Lawful(c) && s.entries == [IndexEntry(1, 0, LIVE, [], [])] && s.cache == map[]
    ensures var s' := s.(cache := map[0 := record]);
            s' != s && EntryStep(c, s, 1, [], [], record, None, s', None, Err(Encrypt), d)
  {
    assert s.entries[..0] == [];
    var s1 := EditedAt(s, 0, [], [], record);
    assert PlainSave(c, s1, None, s1, None, Err(Encrypt), d);
    assert s.entries[0 := s.entries[0].(title := [], username := [])] == s.entries;
    assert 0 in s.cache[0 := record];
    assert s.cache[0 := record] == map[0 := record];
  }
}
