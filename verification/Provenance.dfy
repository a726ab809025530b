/**
 Where the records of a committed file come from. A record that a session only read, or that a
 rotation decrypted, is cached like one that was edited; but what such a session writes for it
 is what the file it read held. So a live item's record changes only if an operation named it.
 */
module Provenance {
  import opened Prelude
  import opened Crypto
  import opened Header
  import opened Shape
  import opened Frames
  import opened Image
  import opened Steps
  import opened Failures
  import opened History
  import opened Records
  import opened HistoryProof
  import opened RecordHistory

  // ------------------------------------------------------------------- naming

  /** The slots of the entries that were appended. */
  function NewSlots(was: seq<IndexEntry>, now: seq<IndexEntry>): set<nat> {
    if |was| <= |now| then set e | e in now[|was|..] :: e.slot as nat else {}
  }

  /** The slots an operation gives a record to: the one edited, and those an import adds or updates. */
  function NamedBy(s: Session, op: Op): set<nat> {
    match op
    case Edit(at, _, _, _) => if at < |s.entries| then {s.entries[at].slot} else {}
    case Import(adds, updates) =>
      NewSlots(s.entries, AddAll(s, adds).0.entries) + (set u | u in updates :: u.0 as nat)
    case _ => {}
  }

  /** A step of session `i` that gives the record of `slot` a new value, in memory or in the file. */
  ghost predicate Names(w: World, a: Action, i: nat, slot: nat) {
    && a.i == i && i in w.members
    && match a
       case Append(_, _) => slot == |w.members[i].s.entries|
       case GiveUp(_, op) => slot in NamedBy(w.members[i].s, op)
       case Finish(_, _, _, _, _) => w.members[i].pc.Saving? && slot in NamedBy(w.members[i].s, w.members[i].pc.op)
       case Die(_, _, _) => w.members[i].pc.Saving? && slot in NamedBy(w.members[i].s, w.members[i].pc.op)
       case _ => false
  }

  function SlotsOf(names: map<nat, set<nat>>, i: nat): set<nat> {
    if i in names then names[i] else {}
  }

  /** By session, the slots named since it was opened or last saved. */
  function NamesAfter(w: World, a: Action, names: map<nat, set<nat>>): map<nat, set<nat>> {
    match a
    case Open(i, _) => names[i := {}]
    case Birth(i, _, _, _, _, _, _) => names[i := {}]
    case Append(i, _) =>
      if i in w.members then names[i := SlotsOf(names, i) + {|w.members[i].s.entries|}] else names
    case GiveUp(i, op) =>
      if i in w.members then names[i := SlotsOf(names, i) + NamedBy(w.members[i].s, op)] else names
    case Finish(i, _, _, r, _) =>
      if i in w.members && w.members[i].pc.Saving? then
        names[i := if r.Ok? then {} else SlotsOf(names, i) + NamedBy(w.members[i].s, w.members[i].pc.op)]
      else names
    case _ => names
  }

  /** The names after the first `k` steps of a run that starts without sessions. */
  function NamesAt(ws: seq<World>, acts: seq<Action>, k: nat): map<nat, set<nat>>
    requires k <= |acts| < |ws|
  {
    if k == 0 then map[] else NamesAfter(ws[k - 1], acts[k - 1], NamesAt(ws, acts, k - 1))
  }

  /** A slot among the names was named by some step. */
  lemma {:induction false} NamedBefore(ws: seq<World>, acts: seq<Action>, k: nat, i: nat, slot: nat) returns (t: nat)
    requires k <= |acts| < |ws| && slot in SlotsOf(NamesAt(ws, acts, k), i)
    ensures t < k && Names(ws[t], acts[t], i, slot)
  {
    hide NamedBy;
    var before := NamesAt(ws, acts, k - 1);
    if slot in SlotsOf(before, i) {
      t := NamedBefore(ws, acts, k - 1, i, slot);
    } else {
      t := k - 1;
    }
  }

  // ------------------------------------------------------- what is in the cache

  /** The record is the one the file the session has seen holds at that slot. */
  ghost predicate FromSeen(c: Suite, ks: seq<Commit>, seen: Option<nat>, slot: nat, record: ItemRecord) {
    && seen.Some? && seen.value < |ks|
    && slot < |RecordsIn(c, ks[seen.value])|
    && RecordsIn(c, ks[seen.value])[slot].record == Ok(record)
  }

  /** Every cached record was named, or is the one of the file the session has seen. */
  ghost predicate CacheFrom(c: Suite, ks: seq<Commit>, seen: Option<nat>, named: set<nat>, cache: map<u32,
                            ItemRecord>) {
    forall slot :: slot in cache && slot !in named ==> FromSeen(c, ks, seen, slot, cache[slot])
  }

  ghost predicate Sourced(c: Suite, w: World, names: map<nat, set<nat>>) {
    forall i :: i in w.members ==>
      CacheFrom(c, w.committed, w.members[i].seen, SlotsOf(names, i), w.members[i].s.cache)
  }

  lemma CacheFromGrows(c: Suite, ks: seq<Commit>, more: seq<Commit>, seen: Option<nat>, named: set<nat>,
                       cache: map<u32, ItemRecord>)
    requires CacheFrom(c, ks, seen, named, cache) && ks <= more
    ensures CacheFrom(c, more, seen, named, cache)
  {
    hide RecordsIn;
    forall slot | slot in cache && slot !in named
      ensures FromSeen(c, more, seen, slot, cache[slot])
    {
      assert FromSeen(c, ks, seen, slot, cache[slot]);
    }
  }

  /** A tag belongs to one commit: the one its session has seen. */
  lemma TagIsSeen(c: Suite, w: World, m: Member, k: nat, n0: nat)
    requires MemberOk(c, w, m, n0) && NoTagCollision(w.committed) && k < |w.committed|
    requires |w.committed[k].bytes| >= MAC_LEN && m.s.tag == Some(FileTag(w.committed[k].bytes))
    ensures m.seen == Some(k) && w.committed[k].entries <= m.s.entries
    ensures m.s.dek == w.committed[k].dek && m.s.config.itemAlg == w.committed[k].alg
  {
    hide SessionOk, OpOk, FileTag;
  }

  /** What the frame at an entry's own slot opens to. */
  lemma FrameRecord(c: Suite, k: Commit, n0: nat, slot: u32, id: u32)
    requires Decodes(c, k) && DenseOk(k.entries, n0)
    requires slot < |k.entries| && k.entries[slot].itemId == id
    ensures |RecordsIn(c, k)| == |k.entries| && FramesOf(k.bytes, true, TRAILER_LEN).Ok?
    ensures |FramesOf(k.bytes, true, TRAILER_LEN).value| == |k.entries|
    ensures RecordsIn(c, k)[slot].record
         == OpenSlot(c, k.dek, k.alg, CURRENT_VERSION, FramesOf(k.bytes, true, TRAILER_LEN).value, slot, id)
  {
    hide ReadIndex, FramesOf, OpenSlot, ParseHeaderVersion, AadBytes, RecordsIn;
    ItemsOf(c, k);
  }

  // --------------------------------------------------------------- opened items

  lemma OpenItemSaw(c: Suite, s: Session, raw: Bytes, id: u32)
    requires OpenItem(c, s, raw, id).0 != s
    ensures |raw| >= MAC_LEN && s.tag == Some(FileTag(raw)) && FramesOf(raw, true, TRAILER_LEN).Ok?
    ensures LivePosition(s.entries, id).Some?
    ensures var slot := s.entries[LivePosition(s.entries, id).value].slot;
            var frames := FramesOf(raw, true, TRAILER_LEN).value;
            var record := OpenSlot(c, s.dek, s.config.itemAlg, s.config.version, frames, slot, id);
            && slot < |frames| && record.Ok? && OpenItem(c, s, raw, id).0 == s.(cache := s.cache[slot := record.value])
  {
    hide FramesOf, DecryptFrame;
  }

  /** Reading an item caches what the file the session has seen holds for it. */
  lemma ReadIsFromSeen(c: Suite, w: World, m: Member, named: set<nat>, id: u32, n0: nat)
    requires Inv(c, w, n0) && NoTagCollision(w.committed) && MemberOk(c, w, m, n0) && w.disk.Some?
    requires CacheFrom(c, w.committed, m.seen, named, m.s.cache)
    ensures CacheFrom(c, w.committed, m.seen, named, OpenItem(c, m.s, w.disk.value, id).0.cache)
  {
    hide Inv, NoTagCollision, OpenItem, HistoryOk, OpOk, Decodes, RecordsIn, OpenSlot, FramesOf, FileTag, DenseOk;
    var raw := w.disk.value;
    var s' := OpenItem(c, m.s, raw, id).0;
    if s' != m.s {
      OpenItemSaw(c, m.s, raw, id);
      LastCommit(c, w, n0);
      var k := |w.committed| - 1;
      TagIsSeen(c, w, m, k, n0);
      var i := LivePosition(m.s.entries, id).value;
      EntryAt(m.s, i, n0);
      var slot := m.s.entries[i].slot;
      FramesNumber(c, w.committed[k]);
      FrameRecord(c, w.committed[k], n0, slot, id);
      assert FromSeen(c, w.committed, m.seen, slot, s'.cache[slot]);
      forall x | x in s'.cache && x !in named
        ensures FromSeen(c, w.committed, m.seen, x, s'.cache[x])
      {
        assert x == slot || FromSeen(c, w.committed, m.seen, x, m.s.cache[x]);
      }
    }
  }

  lemma EntryAt(s: Session, i: nat, n0: nat)
    requires SessionOk(s, n0) && i < |s.entries|
    ensures s.entries[i].slot == i && s.config.version == CURRENT_VERSION
  {
  }

  lemma FramesNumber(c: Suite, k: Commit)
    requires Decodes(c, k)
    ensures FramesOf(k.bytes, true, TRAILER_LEN).Ok? && |FramesOf(k.bytes, true, TRAILER_LEN).value| == |k.entries|
  {
    hide ReadIndex, FramesOf, OpenSlot, ParseHeaderVersion, AadBytes;
  }

  // ------------------------------------------------------------------ snapshots

  /** A snapshot's records are those of live entries' frames. */
  lemma {:induction false} LiveRecordsFrom(c: Suite, s: Session, frames: seq<Bytes>, es: seq<IndexEntry>, slot: u32)
    returns (i: nat)
    requires LiveRecords(c, s, frames, es).Ok? && slot in LiveRecords(c, s, frames, es).value
    ensures i < |es| && es[i].slot == slot
    ensures OpenSlot(c, s.dek, s.config.itemAlg, s.config.version, frames, slot, es[i].itemId)
         == Ok(LiveRecords(c, s, frames, es).value[slot])
  {
    hide OpenSlot;
    var e := es[|es| - 1];
    if e.state == LIVE && e.slot == slot {
      i := |es| - 1;
    } else {
      i := LiveRecordsFrom(c, s, frames, es[..|es| - 1], slot);
    }
  }

  lemma SnapshotIs(c: Suite, s: Session, raw: Bytes)
    requires Snapshot(c, s, raw).Ok?
    ensures FramesOf(raw, true, TRAILER_LEN).Ok?
    ensures LiveRecords(c, s, FramesOf(raw, true, TRAILER_LEN).value, s.entries) == Snapshot(c, s, raw)
  {
    hide LiveRecords, FramesOf, AuthenticateCurrent;
  }

  /** What a rotation decrypts is what the file the session has seen holds. */
  lemma SnapshotIsFromSeen(c: Suite, w: World, m: Member, k: nat, n0: nat)
    requires Inv(c, w, n0) && NoTagCollision(w.committed) && MemberOk(c, w, m, n0)
    requires k < |w.committed| && Snapshot(c, m.s, w.committed[k].bytes).Ok?
    ensures var live := Snapshot(c, m.s, w.committed[k].bytes).value;
            forall slot :: slot in live ==> FromSeen(c, w.committed, m.seen, slot, live[slot])
  {
    hide Inv, NoTagCollision, HistoryOk, OpOk, Decodes, RecordsIn, OpenSlot, FramesOf, FileTag, DenseOk, LiveRecords,
         Snapshot, Carries, Continues;
    var (s, commit) := (m.s, w.committed[k]);
    var live := Snapshot(c, s, commit.bytes).value;
    SnapshotSaw(c, s, commit.bytes);
    TagIsSeen(c, w, m, k, n0);
    HistoryOf(c, w, n0);
    CommitIs(c, w.committed, k, n0);
    SnapshotCounts(c, s, commit);
    SnapshotIs(c, s, commit.bytes);
    var frames := FramesOf(commit.bytes, true, TRAILER_LEN).value;
    forall slot | slot in live
      ensures FromSeen(c, w.committed, m.seen, slot, live[slot])
    {
      var i := LiveRecordsFrom(c, s, frames, s.entries, slot);
      EntryAt(s, i, n0);
      FrameRecord(c, commit, n0, slot, s.entries[i].itemId);
    }
  }

  // ----------------------------------------------------------------- operations

  /** Adding items touches only the slots of new entries. */
  lemma {:induction false} AddAllCache(s: Session, adds: seq<NewItem>)
    ensures var t := AddAll(s, adds).0;
            && s.entries <= t.entries
            && forall slot :: slot in t.cache ==>
                 (slot in s.cache && t.cache[slot] == s.cache[slot]) || slot in NewSlots(s.entries, t.entries)
  {
    hide NewSlots, AddItem;
    if adds == [] {
      assert AddAll(s, adds).0 == s;
    } else {
      AddAllCache(s, adds[..|adds| - 1]);
      var last := adds[|adds| - 1];
      AddItemCache(s.entries, AddAll(s, adds[..|adds| - 1]).0, last);
    }
  }

  lemma AddItemCache(was: seq<IndexEntry>, s: Session, item: NewItem)
    requires was <= s.entries
    ensures var t := AddItem(s, item.title, item.username, item.record).0;
            && s.entries <= t.entries
            && NewSlots(was, s.entries) <= NewSlots(was, t.entries)
            && forall slot :: slot in t.cache ==>
                 (slot in s.cache && t.cache[slot] == s.cache[slot]) || slot in NewSlots(was, t.entries)
  {
    var t := AddItem(s, item.title, item.username, item.record).0;
    if t.entries != s.entries {
      assert t.entries[|was|..] == s.entries[|was|..] + [t.entries[|s.entries|]];
      assert t.entries[|s.entries|] in t.entries[|was|..];
    }
  }

  lemma {:induction false} PutAllCache(cache: map<u32, ItemRecord>, updates: seq<(u32, ItemRecord)>, slot: u32)
    requires slot in PutAll(cache, updates)
    ensures (slot in cache && PutAll(cache, updates)[slot] == cache[slot]) || exists u :: u in updates && u.0 == slot
  {
    if updates != [] {
      var last := updates[|updates| - 1];
      if last.0 == slot {
        assert last in updates;
      } else {
        PutAllCache(cache, updates[..|updates| - 1], slot);
      }
    }
  }

  /** After an import every cached record is as before, or at a slot the import names. */
  lemma ImportCache(s: Session, adds: seq<NewItem>, updates: seq<(u32, ItemRecord)>)
    ensures var cache := Candidate(s, Import(adds, updates)).cache;
            forall slot :: slot in cache && slot !in NamedBy(s, Import(adds, updates)) ==>
              slot in s.cache && cache[slot] == s.cache[slot]
  {
    hide AddAll, PutAll;
    AddAllCache(s, adds);
    var t := AddAll(s, adds).0;
    forall slot | slot in PutAll(t.cache, updates)
      ensures slot in NamedBy(s, Import(adds, updates))
           || (slot in s.cache && PutAll(t.cache, updates)[slot] == s.cache[slot])
    {
      PutAllCache(t.cache, updates, slot);
    }
  }

  /** What an operation has cached, whether it goes on to save or fails, is named by it or was there or in the file. */
  lemma OperationIsNamed(c: Suite, w: World, m: Member, named: set<nat>, op: Op, n0: nat)
    requires Inv(c, w, n0) && NoTagCollision(w.committed) && MemberOk(c, w, m, n0) && OpOk(c, w.committed, m.s, op)
    requires CacheFrom(c, w.committed, m.seen, named, m.s.cache)
    ensures CacheFrom(c, w.committed, m.seen, named + NamedBy(m.s, op), Candidate(m.s, op).cache)
    ensures CacheFrom(c, w.committed, m.seen, named + NamedBy(m.s, op), Fallback(m.s, op).cache)
  {
    hide Inv, NoTagCollision, MemberOk, Snapshot, AddAll, PutAll, FromSeen;
    match op
    case Import(adds, updates) => ImportCache(m.s, adds, updates);
    case Rotate(_, _, _, _, live) =>
      var k :| 0 <= k < |w.committed| && Snapshot(c, m.s, w.committed[k].bytes) == Ok(live);
      SnapshotIsFromSeen(c, w, m, k, n0);
    case _ =>
  }

  // -------------------------------------------------------------------- commits

  lemma OutcomeCache(c: Suite, m: Member, disk': Option<Bytes>, s': Session, r: Result<()>, d: Draws)
    requires Lawful(c) && m.pc.Saving? && SaveOutcome(c, m, disk', s', r, d) && (r.Ok? || disk' != m.pc.read)
    ensures var s1 := Candidate(m.s, m.pc.op);
            && |s1.entries| <= U32_MAX && CommitOf(c, m, disk').cache == Remap(s1.cache, s1.entries)
            && (r.Ok? ==> s'.cache == Remap(s1.cache, s1.entries))
  {
    hide Preflight, Candidate, HeaderFor, ImageOf, TagOf, Fitting, SaveOutcome, Remap, FreshCount, NewImage;
    OutcomePublished(c, m, disk', s', r, d);
  }

  /** With dense slots the moved cache is the cache of the entries. */
  lemma RemapDense(cache: map<u32, ItemRecord>, es: seq<IndexEntry>, n0: nat)
    requires |es| <= U32_MAX && DenseOk(es, n0)
    ensures forall slot :: slot in Remap(cache, es) ==>
              slot < |es| && slot in cache && Remap(cache, es)[slot] == cache[slot]
  {
  }

  /** A commit holds what its session had cached. */
  lemma CachedIsCommitted(c: Suite, k: Commit, before: seq<Item>, n0: nat, slot: u32)
    requires Decodes(c, k) && DenseOk(k.entries, n0) && Carries(c, before, k)
    requires slot in k.cache && slot < |k.entries|
    ensures |RecordsIn(c, k)| == |k.entries| && RecordsIn(c, k)[slot].record == Ok(k.cache[slot])
  {
    hide Decodes, RecordsIn;
  }

  /** After its save a session's cache is in the file. */
  lemma SavedIsFromSeen(c: Suite, w: World, m: Member, disk': Option<Bytes>, s': Session, d: Draws, n0: nat)
    requires Lawful(c) && Inv(c, w, n0) && NoTagCollision(w.committed) && MemberOk(c, w, m, n0) && m.pc.Saving?
    requires SaveOutcome(c, m, disk', s', Ok(()), d)
    ensures CacheFrom(c, w.committed + [CommitOf(c, m, disk')], Some(|w.committed|), {}, s'.cache)
  {
    hide Inv, NoTagCollision, MemberOk, SaveOutcome, CommitOf, Remap, Decodes, DenseOk, Carries, RecordsIn, Candidate,
         ItemsBefore, Continues, Ledger;
    PublishedCommit(c, w, m, disk', s', Ok(()), d, n0);
    OutcomeCache(c, m, disk', s', Ok(()), d);
    var k := CommitOf(c, m, disk');
    var s1 := Candidate(m.s, m.pc.op);
    RemapDense(s1.cache, s1.entries, n0);
    forall slot | slot in s'.cache
      ensures FromSeen(c, w.committed + [k], Some(|w.committed|), slot, s'.cache[slot])
    {
      CachedIsCommitted(c, k, ItemsBefore(c, w.committed, |w.committed|), n0, slot);
    }
  }

  /** Every step keeps the caches accounted for. */
  lemma SourcedStep(c: Suite, w: World, a: Action, w': World, names: map<nat, set<nat>>, n0: nat)
    requires Lawful(c) && Inv(c, w, n0) && NoTagCollision(w.committed) && Next(c, w, a, w') && Sourced(c, w, names)
    ensures Sourced(c, w', NamesAfter(w, a, names))
  {
    hide Inv, NoTagCollision, CacheFrom, NamedBy, NamesAfter, SlotsOf;
    var names' := NamesAfter(w, a, names);
    StepGrows(c, w, a, w');
    forall j | j in w'.members
      ensures CacheFrom(c, w'.committed, w'.members[j].seen, SlotsOf(names', j), w'.members[j].s.cache)
    {
      if j == a.i {
        ActorSourced(c, w, a, w', names, n0);
      } else {
        OthersKeep(c, w, a, w', names, j);
        CacheFromGrows(c, w.committed, w'.committed, w.members[j].seen, SlotsOf(names, j), w.members[j].s.cache);
      }
    }
  }

  lemma OthersKeep(c: Suite, w: World, a: Action, w': World, names: map<nat, set<nat>>, j: nat)
    requires Lawful(c) && Next(c, w, a, w') && j in w'.members && j != a.i
    ensures j in w.members && w'.members[j] == w.members[j]
    ensures SlotsOf(NamesAfter(w, a, names), j) == SlotsOf(names, j)
  {
    hide SaveOutcome, OpOk, OpenBytes, OpenItem, AddItem, Fallback, CommitOf, NamedBy;
  }

  lemma ActorSourced(c: Suite, w: World, a: Action, w': World, names: map<nat, set<nat>>, n0: nat)
    requires Lawful(c) && Inv(c, w, n0) && NoTagCollision(w.committed) && Next(c, w, a, w') && Sourced(c, w, names)
    requires a.i in w'.members
    ensures CacheFrom(c, w'.committed, w'.members[a.i].seen, SlotsOf(NamesAfter(w, a, names), a.i),
                      w'.members[a.i].s.cache)
  {
    hide Inv, NoTagCollision, CacheFrom, NamedBy, SaveOutcome, OpOk, OpenBytes, OpenItem, AddItem, Fallback, CommitOf;
    match a
    case Open(i, password) => EmptyCache(c, w, i, password, w');
    case Birth(i, _, _, _, _, _, _) => NothingCached(c, w'.committed, w'.members[i].seen, w'.members[i].s.cache);
    case Read(i, id) =>
      MemberIs(c, w, i, n0);
      ReadIsFromSeen(c, w, w.members[i], SlotsOf(names, i), id, n0);
    case Append(i, item) =>
      AppendIsNamed(c, w.committed, w.members[i], SlotsOf(names, i), item);
    case Begin(i, op) =>
    case GiveUp(i, op) =>
      MemberIs(c, w, i, n0);
      OperationIsNamed(c, w, w.members[i], SlotsOf(names, i), op, n0);
    case Finish(i, disk', s', r, d) =>
      FinishSourced(c, w, i, disk', s', r, d, w', SlotsOf(names, i), n0);
    case Die(_, _, _) =>
  }

  lemma NothingCached(c: Suite, ks: seq<Commit>, seen: Option<nat>, cache: map<u32, ItemRecord>)
    requires cache == map[]
    ensures CacheFrom(c, ks, seen, {}, cache)
  {
  }

  lemma EmptyCache(c: Suite, w: World, i: nat, password: Bytes, w': World)
    requires Lawful(c) && Next(c, w, Open(i, password), w')
    ensures CacheFrom(c, w'.committed, w'.members[i].seen, {}, w'.members[i].s.cache)
  {
    hide ReadIndex, FramesOf, ParseHeaderVersion, UnwrapDek, NextIdAfter, Authenticate;
    NothingCached(c, w'.committed, w'.members[i].seen, w'.members[i].s.cache);
  }

  lemma AppendIsNamed(c: Suite, ks: seq<Commit>, m: Member, named: set<nat>, item: NewItem)
    requires CacheFrom(c, ks, m.seen, named, m.s.cache)
    ensures CacheFrom(c, ks, m.seen, named + {|m.s.entries|},
                      AddItem(m.s, item.title, item.username, item.record).0.cache)
  {
    hide FromSeen;
  }

  lemma FinishSourced(c: Suite, w: World, i: nat, disk': Option<Bytes>, s': Session, r: Result<()>, d: Draws, w': World,
                      named: set<nat>, n0: nat)
    requires Lawful(c) && Inv(c, w, n0) && NoTagCollision(w.committed) && Next(c, w, Finish(i, disk', s', r, d), w')
    requires CacheFrom(c, w.committed, w.members[i].seen, named, w.members[i].s.cache)
    ensures CacheFrom(c, w'.committed, w'.members[i].seen,
                      if r.Ok? then {} else named + NamedBy(w.members[i].s, w.members[i].pc.op), w'.members[i].s.cache)
  {
    hide Inv, NoTagCollision, CacheFrom, NamedBy, SaveOutcome, OpOk, Fallback, CommitOf, MemberOk;
    var m := w.members[i];
    MemberIs(c, w, i, n0);
    if r.Ok? {
      assert r.value == ();
      SavedIsFromSeen(c, w, m, disk', s', d, n0);
    } else {
      SavingMember(c, w, m, n0);
      OperationIsNamed(c, w, m, named, m.pc.op, n0);
      StepGrows(c, w, Finish(i, disk', s', r, d), w');
      CacheFromGrows(c, w.committed, w'.committed, m.seen, named + NamedBy(m.s, m.pc.op), Fallback(m.s, m.pc.op).cache);
    }
  }

  // ------------------------------------------------------------------- theorems

  /** The outcome of the save that a step publishes. */
  ghost predicate Publishes(c: Suite, w: World, a: Action, w': World, disk': Option<Bytes>, s': Session, r: Result<()>,
                            d: Draws)
    requires Lawful(c)
  {
    && a.i in w.members && w.members[a.i].pc.Saving?
    && SaveOutcome(c, w.members[a.i], disk', s', r, d) && (r.Ok? || disk' != w.members[a.i].pc.read)
    && w'.committed == w.committed + [CommitOf(c, w.members[a.i], disk')]
  }

  /** Only the end of a save, or of a session in the middle of one, publishes. */
  lemma PublishedBy(c: Suite, w: World, a: Action, w': World)
    returns (disk': Option<Bytes>, s': Session, r: Result<()>, d: Draws)
    requires Lawful(c) && Next(c, w, a, w') && |w'.committed| > |w.committed|
    ensures Publishes(c, w, a, w', disk', s', r, d) && (a.Finish? || a.Die?)
  {
    hide SaveOutcome, OpOk, OpenBytes, OpenItem, AddItem, Fallback, CommitOf;
    match a
    case Finish(i, disk1, s1, r1, d1) => disk', s', r, d := disk1, s1, r1, d1;
    case Die(i, disk1, d1) =>
      disk', s', r, d := disk1, Candidate(w.members[i].s, w.members[i].pc.op), Err(Encrypt), d1;
  }

  /** One commit after another: a live item that nobody named keeps its record. */
  lemma UnnamedIsKept(c: Suite, w: World, m: Member, disk': Option<Bytes>, s': Session, r: Result<()>, d: Draws,
                      named: set<nat>, n0: nat, p: nat)
    requires Lawful(c) && Inv(c, w, n0) && NoTagCollision(w.committed) && MemberOk(c, w, m, n0) && m.pc.Saving?
    requires SaveOutcome(c, m, disk', s', r, d) && (r.Ok? || disk' != m.pc.read)
    requires CacheFrom(c, w.committed, m.seen, named, m.s.cache) && w.committed != []
    requires var k := CommitOf(c, m, disk'); p < |k.entries| && k.entries[p].state == LIVE
    requires p !in named && p !in NamedBy(m.s, m.pc.op)
    ensures SameRecord(c, w.committed[|w.committed| - 1], CommitOf(c, m, disk'), p)
  {
    hide Inv, NoTagCollision, MemberOk, SaveOutcome, CommitOf, Remap, Decodes, DenseOk, Carries, RecordsIn, Candidate,
         NamedBy, HistoryOk, Ledger, Continues, CacheFrom;
    var (ks, k, s1) := (w.committed, CommitOf(c, m, disk'), Candidate(m.s, m.pc.op));
    PublishedCommit(c, w, m, disk', s', r, d, n0);
    OutcomeCache(c, m, disk', s', r, d);
    SavingMember(c, w, m, n0);
    HistoryOf(c, w, n0);
    HistoryExtends(c, ks, k, n0);
    assert (ks + [k])[|ks|] == k && (ks + [k])[|ks| - 1] == ks[|ks| - 1];
    CountOf(c, ks, |ks| - 1, n0);
    CountOf(c, ks + [k], |ks|, n0);
    if p in k.cache {
      OperationIsNamed(c, w, m, named, m.pc.op, n0);
      RemapDense(s1.cache, s1.entries, n0);
      CachedIsCommitted(c, k, ItemsBefore(c, ks, |ks|), n0, p);
      Unnamed(c, ks, m.seen, named + NamedBy(m.s, m.pc.op), s1.cache, p);
    } else {
      CarriedOn(c, ks + [k], |ks|, n0, p);
    }
  }

  lemma Unnamed(c: Suite, ks: seq<Commit>, seen: Option<nat>, named: set<nat>, cache: map<u32, ItemRecord>, slot: u32)
    requires CacheFrom(c, ks, seen, named, cache) && slot in cache && slot !in named
    ensures FromSeen(c, ks, seen, slot, cache[slot])
  {
    hide FromSeen;
  }

  /** Both files have the item, with the same record. */
  ghost predicate SameRecord(c: Suite, was: Commit, now: Commit, p: nat) {
    && p < |RecordsIn(c, was)| && p < |RecordsIn(c, now)|
    && RecordsIn(c, now)[p].record == RecordsIn(c, was)[p].record
  }

  /** The caches are accounted for in every world of a run that starts without sessions. */
  lemma {:induction false} SourcedInRuns(c: Suite, ws: seq<World>, acts: seq<Action>, k: nat, n0: nat)
    requires Lawful(c) && IsRun(c, ws, acts) && Inv(c, ws[0], n0) && ws[0].members == map[] && k < |ws|
    requires NoTagCollision(ws[|ws| - 1].committed)
    ensures Sourced(c, ws[k], NamesAt(ws, acts, k))
  {
    hide Inv, Next, NoTagCollision, CacheFrom, NamesAfter;
    if k > 0 {
      SourcedInRuns(c, ws, acts, k - 1, n0);
      RunKeeps(c, ws, acts, k - 1, n0);
      CommitsOnlyGrow(c, ws, acts, k - 1);
      PrefixNoCollision(ws[k - 1].committed, ws[|ws| - 1].committed);
      assert Next(c, ws[k - 1], acts[k - 1], ws[k]);
      SourcedStep(c, ws[k - 1], acts[k - 1], ws[k], NamesAt(ws, acts, k - 1), n0);
    }
  }

  /**
   In every run: when a step publishes over a file, and a live item of the new file is not in the
   old one with the same record, then the session that published named that item, in this step or before.
   */
  lemma RecordsChangeByName(c: Suite, ws: seq<World>, acts: seq<Action>, n0: nat, q: nat, p: nat) returns (t: nat)
    requires Lawful(c) && IsRun(c, ws, acts) && Inv(c, ws[0], n0) && ws[0].members == map[]
    requires NoTagCollision(ws[|ws| - 1].committed)
    requires q < |acts| && |ws[q + 1].committed| > |ws[q].committed| > 0
    requires var now := ws[q + 1].committed[|ws[q].committed|];
             && p < |now.entries| && now.entries[p].state == LIVE
             && !SameRecord(c, ws[q].committed[|ws[q].committed| - 1], now, p)
    ensures t <= q && Names(ws[t], acts[t], acts[q].i, p)
  {
    hide Inv, Next, NoTagCollision, CacheFrom, SaveOutcome, CommitOf, NamedBy, SameRecord;
    var (w, a, w') := (ws[q], acts[q], ws[q + 1]);
    var names := NamesAt(ws, acts, q);
    SourcedInRuns(c, ws, acts, q, n0);
    RunKeeps(c, ws, acts, q, n0);
    CommitsOnlyGrow(c, ws, acts, q);
    PrefixNoCollision(w.committed, ws[|ws| - 1].committed);
    assert Next(c, w, a, w');
    var disk', s', r, d := PublishedBy(c, w, a, w');
    MemberIs(c, w, a.i, n0);
    if p in SlotsOf(names, a.i) {
      t := NamedBefore(ws, acts, q, a.i, p);
    } else {
      t := q;
      if p !in NamedBy(w.members[a.i].s, w.members[a.i].pc.op) {
        UnnamedIsKept(c, w, w.members[a.i], disk', s', r, d, SlotsOf(names, a.i), n0, p);
      }
    }
  }
}
