/** What a successful import leaves in the file. */
module ImportProof {
  import opened Prelude
  import opened Crypto
  import opened Header
  import opened Shape
  import opened Image
  import opened SaveProof
  import opened Steps
  import opened Preservation
  import opened Failures
  import opened Ops

  /** Slots are positions, as after every save, and every cached record belongs to an entry. */
  ghost predicate Dense(s: Session) {
    && (forall i :: 0 <= i < |s.entries| ==> s.entries[i].slot == i)
    && forall slot :: slot in s.cache ==> slot < |s.entries|
  }

  /** The last update for a slot. */
  function UpdateAt(updates: seq<(u32, ItemRecord)>, slot: u32): Option<ItemRecord> {
    if updates == [] then None
    else
      var last := updates[|updates| - 1];
      if last.0 == slot then Some(last.1) else UpdateAt(updates[..|updates| - 1], slot)
  }

  lemma {:induction false} PutAllLooksUp(cache: map<u32, ItemRecord>, updates: seq<(u32, ItemRecord)>, slot: u32)
    ensures match UpdateAt(updates, slot)
            case Some(r) => slot in PutAll(cache, updates) && PutAll(cache, updates)[slot] == r
            case None => (slot in PutAll(cache, updates) <==> slot in cache)
                         && (slot in cache ==> PutAll(cache, updates)[slot] == cache[slot])
  {
    if updates != [] {
      PutAllLooksUp(cache, updates[..|updates| - 1], slot);
    }
  }

  lemma {:induction false} UpdateWithin(updates: seq<(u32, ItemRecord)>, slot: u32, n: nat)
    requires forall k :: 0 <= k < |updates| ==> updates[k].0 < n
    ensures slot >= n ==> UpdateAt(updates, slot).None?
  {
    if updates != [] {
      UpdateWithin(updates[..|updates| - 1], slot, n);
    }
  }

  lemma {:induction false} CountLiveAppend(es: seq<IndexEntry>, more: seq<IndexEntry>)
    requires forall e :: e in more ==> e.state == LIVE
    ensures CountLive(es + more) == CountLive(es) + |more|
  {
    if more == [] {
      assert es + more == es;
    } else {
      CountLiveAppend(es, more[..|more| - 1]);
      assert (es + more)[..|es + more| - 1] == es + more[..|more| - 1];
      assert more[|more| - 1] in more;
    }
  }

  function LiveItems(items: seq<Item>): nat {
    if items == [] then 0 else LiveItems(items[..|items| - 1]) + if items[|items| - 1].state == LIVE then 1 else 0
  }

  /** The live items of a file are as many as the live entries of the session it was written from. */
  lemma {:induction false} LiveInMeaning(cache: map<u32, ItemRecord>, es: seq<IndexEntry>, before: seq<Item>)
    ensures LiveItems(Meaning(cache, es, before)) == CountLive(es)
  {
    hide RecordFor;
    if es != [] {
      var front := es[..|es| - 1];
      LiveInMeaning(cache, front, before);
      assert Meaning(cache, es, before)[..|es| - 1] == Meaning(cache, front, before);
    }
  }

  /** What the file holds for an old item after the import: the update, or what the session stood for. */
  function AfterImport(s: Session, updates: seq<(u32, ItemRecord)>, oldItems: seq<Item>, i: u32): Result<ItemRecord>
    requires i < |s.entries|
  {
    match UpdateAt(updates, s.entries[i].slot)
    case Some(r) => Ok(r)
    case None => RecordFor(s.cache, oldItems, s.entries[i])
  }

  lemma GrownShape(s: Session, s1: Session, adds: seq<NewItem>)
    requires Grown(s, s1, adds)
    ensures |s1.entries| == |s.entries| + |adds| <= U32_MAX && s1.dek == s.dek
  {
  }

  lemma {:induction false} OldEntryAfter(s: Session, s1: Session, adds: seq<NewItem>, updates: seq<(u32, ItemRecord)>,
                                         was: seq<Item>, i: u32)
    requires Grown(s, s1, adds) && Dense(s) && i < |s.entries|
    ensures s1.entries[i] == s.entries[i]
    ensures RecordFor(PutAll(s1.cache, updates), was, s1.entries[i]) == AfterImport(s, updates, was, i)
  {
    hide Lookup, PutAll, UpdateAt;
    assert s1.entries[..|s.entries|][i] == s.entries[i];
    PutAllLooksUp(s1.cache, updates, i);
  }

  lemma {:induction false} NewEntryAfter(s: Session, s1: Session, adds: seq<NewItem>, updates: seq<(u32, ItemRecord)>,
                                         was: seq<Item>, slot: u32)
    requires Grown(s, s1, adds) && |s.entries| <= slot < |s1.entries|
    requires forall j :: 0 <= j < |updates| ==> updates[j].0 < |s.entries|
    ensures s1.entries[slot] == NewEntry(s, adds, slot)
    ensures RecordFor(PutAll(s1.cache, updates), was, s1.entries[slot]) == Ok(adds[slot - |s.entries|].record)
  {
    hide Lookup, PutAll, UpdateAt;
    UpdateWithin(updates, slot, |s.entries|);
    PutAllLooksUp(s1.cache, updates, slot);
  }

  lemma {:induction false} NewItems(s: Session, s1: Session, adds: seq<NewItem>, updates: seq<(u32, ItemRecord)>,
                                    was: seq<Item>)
    requires Grown(s, s1, adds) && |s1.entries| == |s.entries| + |adds| && s.nextId + |adds| <= U32_MAX
    requires forall j :: 0 <= j < |updates| ==> updates[j].0 < |s.entries|
    ensures var m := Meaning(PutAll(s1.cache, updates), s1.entries, was);
            forall k :: 0 <= k < |adds| ==>
              m[|s.entries| + k] == Item(s.nextId + k, LIVE, adds[k].title, adds[k].username, Ok(adds[k].record))
  {
    hide Grown, PutAll, RecordFor;
    GrownShape(s, s1, adds);
    forall k | 0 <= k < |adds|
      ensures Meaning(PutAll(s1.cache, updates), s1.entries, was)[|s.entries| + k]
           == Item(s.nextId + k, LIVE, adds[k].title, adds[k].username, Ok(adds[k].record))
    {
      NewEntryAfter(s, s1, adds, updates, was, |s.entries| + k);
    }
  }

  lemma LiveAfter(s: Session, s1: Session, adds: seq<NewItem>)
    requires Grown(s, s1, adds)
    ensures CountLive(s1.entries) == CountLive(s.entries) + |adds|
  {
    var more := s1.entries[|s.entries|..];
    assert s1.entries == s.entries + more;
    forall e | e in more
      ensures e.state == LIVE
    {
      var k :| 0 <= k < |more| && more[k] == e;
      var slot: u32 := |s.entries| + k;
      assert s1.entries[slot] == NewEntry(s, adds, slot);
    }
    CountLiveAppend(s.entries, more);
  }

  lemma {:induction false} AddAllFits(s: Session, adds: seq<NewItem>)
    ensures AddAll(s, adds).1.Ok? ==>
              AddAll(s, adds).0.nextId == s.nextId + |adds| && |AddAll(s, adds).0.entries| == |s.entries| + |adds|
  {
    if adds != [] {
      AddAllFits(s, adds[..|adds| - 1]);
    }
  }

  lemma SavedFits(c: Suite, s: Session, disk: Option<Bytes>, s': Session, disk': Option<Bytes>, d: Draws)
    requires Lawful(c) && PlainSave(c, s, disk, s', disk', Ok(()), d)
    ensures |s.entries| <= U32_MAX
  {
    hide Preflight, ImageOf, Committed, Fitting, ParseHeaderVersion;
    var p := Preflight(c, s, ParseHeader(disk.value).value, s.dek, disk.value).value;
    PlanShape(c, s, ParseHeader(disk.value).value, s.dek, disk.value, p);
  }

  /** The old items with their updates, then the new ones in order. */
  ghost predicate HoldsImport(s: Session, adds: seq<NewItem>, updates: seq<(u32, ItemRecord)>, was: seq<Item>,
                              now: seq<Item>)
    requires s.nextId + |adds| <= U32_MAX && |s.entries| + |adds| <= U32_MAX
  {
    var n := |s.entries|;
    && |now| == n + |adds|
    && (forall i: u32 :: i < n ==>
          now[i] == Item(s.entries[i].itemId, Norm(s.entries[i]).state, s.entries[i].title, s.entries[i].username,
                         AfterImport(s, updates, was, i)))
    && (forall k :: 0 <= k < |adds| ==>
          now[n + k] == Item(s.nextId + k, LIVE, adds[k].title, adds[k].username, Ok(adds[k].record)))
  }

  /**
   After a successful import every old item keeps its id, state, title and username and
   holds its update if it has one; the new items follow in order under consecutive ids;
   and the number of live items rises by exactly the number of adds.
   */
  lemma {:induction false} ImportPublishes(c: Suite, s: Session, adds: seq<NewItem>, updates: seq<(u32, ItemRecord)>,
                        disk: Option<Bytes>, s': Session, disk': Option<Bytes>, d: Draws)
    requires Lawful(c) && ImportStep(c, s, adds, updates, disk, s', disk', Ok(()), d)
    requires Dense(s) && forall k :: 0 <= k < |updates| ==> updates[k].0 < |s.entries|
    ensures s.nextId + |adds| <= U32_MAX && |s.entries| + |adds| <= U32_MAX
    ensures disk.Some? && disk'.Some? && Contents(c, disk'.value, s.dek).Ok?
    ensures HoldsImport(s, adds, updates, OldItems(c, disk.value, s.dek), Contents(c, disk'.value, s.dek).value)
    ensures CountLive(AddAll(s, adds).0.entries) == CountLive(s.entries) + |adds|
    ensures LiveItems(Contents(c, disk'.value, s.dek).value) == CountLive(s.entries) + |adds|
  {
    hide LiveItems, CountLive, PlainSave, AddAll, PutAll, OldItems, Contents, CacheCoherent, Grown, RecordFor,
         AfterImport, Dense;
    AddAllFits(s, adds);
    var s1 := AddAll(s, adds).0;
    SavedFits(c, s1.(cache := PutAll(s1.cache, updates)), disk, s', disk', d);
    AddAllGrows(s, adds);
    var s2 := s1.(cache := PutAll(s1.cache, updates));
    PlainSavePublishes(c, s2, disk, s', disk', d);
    var was := OldItems(c, disk.value, s.dek);
    GrownShape(s, s1, adds);
    forall i: u32 | i < |s.entries|
      ensures s1.entries[i] == s.entries[i]
              && RecordFor(s2.cache, was, s1.entries[i]) == AfterImport(s, updates, was, i)
    {
      OldEntryAfter(s, s1, adds, updates, was, i);
    }
    NewItems(s, s1, adds, updates, was);
    LiveAfter(s, s1, adds);
    LiveInMeaning(s2.cache, s2.entries, was);
  }

  /** Every update keeps the creation time of the record it replaces. */
  lemma {:induction false} UpdateKeepsCreation(s: Session, updates: seq<ImportedUpdate>,
                                               prepared: seq<(u32, ItemRecord)>, slot: u32)
    requires |prepared| == |updates| && forall k :: 0 <= k < |updates| ==> PreparedFor(s, updates[k], prepared[k])
    ensures var u := UpdateAt(prepared, slot);
            u.Some? ==> slot in s.cache && u.value.created == s.cache[slot].created && ValidItem(u.value)
  {
    hide ValidItem;
    if prepared != [] {
      var n := |prepared| - 1;
      assert PreparedFor(s, updates[n], prepared[n]);
      UpdateKeepsCreation(s, updates[..n], prepared[..n], slot);
    }
  }
}
