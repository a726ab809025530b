/** The operations of the application: validation, change detection, one save each. */
module Ops {
  import opened Prelude
  import opened Crypto
  import opened Shape
  import opened Image
  import opened Frames
  import opened Header
  import opened Steps
  import opened Failures
  import opened Effects
  import opened Acceptance
  import opened AtomicWrite
  import opened Nonces
  import opened VaultSession

  datatype Change<T> = Keep | Set(value: T) | Clear

  datatype EntryPatch = EntryPatch(
    title: Option<Text>, username: Option<Text>, password: Change<Bytes>, url: Option<Text>,
    notes: Change<Bytes>, totp: Change<Totp>)

  /** Title, username and record of one item. */
  datatype Details = Details(title: Text, username: Text, record: ItemRecord)

  function Applied<T>(change: Change<T>, was: Option<T>): Option<T> {
    match change
    case Keep => was
    case Set(v) => Some(v)
    case Clear => None
  }

  function OrElse<T>(v: Option<T>, default: T): T {
    if v.Some? then v.value else default
  }

  /** The patch as a function on the item. */
  function Patched(was: Details, p: EntryPatch): Details {
    Details(OrElse(p.title, was.title), OrElse(p.username, was.username),
            was.record.(password := Applied(p.password, was.record.password), url := OrElse(p.url, was.record.url),
                        notes := Applied(p.notes, was.record.notes), totp := Applied(p.totp, was.record.totp)))
  }

  predicate Storable(d: Details) {
    MetadataOk(d.title, d.username) && ValidItem(d.record)
  }

  /** What opening an entry gives: its cached record, else the one in its frame of the file. */
  ghost function Shown(c: Suite, s: Session, file: Option<Bytes>, e: IndexEntry): Result<ItemRecord> {
    if e.slot in s.cache then Ok(s.cache[e.slot])
    else if file.None? then Err(Encrypt)
    else
      var frames :- FramesOf(file.value, true, TRAILER_LEN);
      OpenSlot(c, s.dek, s.config.itemAlg, s.config.version, frames, e.slot, e.itemId)
  }

  /** What a change of a field does. */
  ghost predicate Takes<T>(change: Change<T>, was: Option<T>, now: Option<T>) {
    match change
    case Keep => now == was
    case Set(v) => now == Some(v)
    case Clear => now.None?
  }

  /** The record after the patch: each field as the patch says, the creation time kept, the time of change `now`. */
  ghost predicate Patches(patch: EntryPatch, time: u64, was: ItemRecord, now: ItemRecord) {
    && Takes(patch.password, was.password, now.password) && Takes(patch.notes, was.notes, now.notes)
    && Takes(patch.totp, was.totp, now.totp)
    && now.url == (match patch.url case Some(url) => url case None => was.url)
    && now.created == was.created && now.modified == time
  }

  /** The live item with the id has the fields the patch gives it, every other is unchanged. */
  ghost predicate Updated(c: Suite, s: Session, disk: Option<Bytes>, disk': Option<Bytes>, id: u32, patch: EntryPatch,
                          time: u64)
  {
    exists e, record ::
      && e in s.entries && e.itemId == id && e.state == LIVE
      && Shown(c, s, disk, e).Ok? && Patches(patch, time, Shown(c, s, disk, e).value, record)
      && Edited(c, s, disk, disk', id, match patch.title case Some(title) => title case None => e.title,
                match patch.username case Some(username) => username case None => e.username, record)
  }

  /** `add_entry`: nothing is attempted unless the item is valid; a failed save leaves the item in memory. */
  method AddEntry(v: Vault, title: Text, username: Text, record: ItemRecord, now: u64)
    returns (r: Result<u32>, ghost d: Draws)
    requires v.Valid()
    modifies v`entries, v`openItems, v`nextItemId, v`header, v`lastDiskTag, v.fs, v.rng
    ensures v.Valid()
    ensures var stamped := record.(created := now, modified := now);
            var (s1, added) := AddItem(old(v.State()), title, username, stamped);
            if !Storable(Details(title, username, stamped))
            then r.Err? && v.State() == old(v.State()) && v.File() == old(v.File())
            else if added.Err? then r.Err? && v.State() == s1 && v.File() == old(v.File())
            else && (r.Ok? ==> r.value == added.value)
                 && PlainSave(v.c, s1, old(v.File()), v.State(), v.File(), if r.Ok? then Ok(()) else Err(r.error), d)
                 && (old(v.Calm(|v.entries| + 3)) && v.path !in old(v.fs.locks) ==>
                      r == match SavePlan(v.c, s1, old(v.File())) case Ok(_) => Ok(added.value) case Err(e) => Err(e))
    ensures r.Ok? && Unambiguous(old(v.State())) ==>
              && r.value == old(v.nextItemId)
              && Added(v.c, old(v.State()), old(v.File()), v.File(), title, username,
                       record.(created := now, modified := now))
  {
    hide PlainSave, ValidItem, SavePlan, Drawn, Durable, NamesFree, Unambiguous, Added, CrashOldOrNew, PlainImage;
    ghost var (s, file) := (v.State(), v.File());
    d := NoDraws(0);
    var stamped := record.(created := now, modified := now);
    if !MetadataOk(title, username) || !ValidItem(stamped) {
      return Err(Encrypt), d;
    }
    var added := v.AddNew(title, username, stamped);
    if added.Err? {
      return Err(added.error), d;
    }
    var saved;
    saved, d := v.Save();
    if saved.Err? {
      return Err(saved.error), d;
    }
    assert saved.value == ();
    if Unambiguous(s) {
      AdditionTakesEffect(v.c, s, title, username, stamped, file, v.State(), v.File(), d);
    }
    return Ok(added.value), d;
  }

  /** The patch as it runs: field by field on a working copy, noting whether anything differs. */
  method ApplyPatch(was: Details, patch: EntryPatch) returns (next: Details, changed: bool)
    ensures next == Patched(was, patch)
    ensures changed <==> next != was
  {
    var record := was.record;
    var title := OrElse(patch.title, was.title);
    var username := OrElse(patch.username, was.username);
    changed := title != was.title || username != was.username;
    match patch.password {
      case Keep =>
      case Set(value) =>
        changed := changed || record.password != Some(value);
        record := record.(password := Some(value));
      case Clear =>
        changed := changed || record.password.Some?;
        record := record.(password := None);
    }
    if patch.url.Some? {
      changed := changed || record.url != patch.url.value;
      record := record.(url := patch.url.value);
    }
    match patch.notes {
      case Keep =>
      case Set(value) =>
        changed := changed || record.notes != Some(value);
        record := record.(notes := Some(value));
      case Clear =>
        changed := changed || record.notes.Some?;
        record := record.(notes := None);
    }
    match patch.totp {
      case Keep =>
      case Set(value) =>
        changed := changed || record.totp != Some(value);
        record := record.(totp := Some(value));
      case Clear =>
        changed := changed || record.totp.Some?;
        record := record.(totp := None);
    }
    next := Details(title, username, record);
  }

  /** The working copy of one item: what the session holds once its record is open. */
  ghost predicate WorkingCopy(s: Session, id: u32, was: Details) {
    && LivePosition(s.entries, id).Some?
    && var e := s.entries[LivePosition(s.entries, id).value];
    && e.slot in s.cache
    && was == Details(e.title, e.username, s.cache[e.slot])
  }

  /** The session after `open_item` of a live entry, or as it was. */
  ghost predicate OpenedOrSame(c: Suite, s: Session, file: Option<Bytes>, id: u32, s1: Session) {
    s1 == s || (file.Some? && s1 == OpenItem(c, s, file.value, id).0)
  }

  /**
   `update_entry`. `opened` is the session with the record opened. Returns false exactly when
   the patch changes nothing, and then saves nothing; an invalid candidate is refused
   before anything is touched; otherwise the edit is one commit.
   */
  method UpdateEntry(v: Vault, id: u32, patch: EntryPatch, now: u64)
    returns (r: Result<bool>, ghost s1: Session, ghost was: Details, ghost d: Draws)
    requires v.Valid()
    modifies v`entries, v`openItems, v`header, v`lastDiskTag, v.fs, v.rng
    ensures v.Valid()
    ensures OpenedOrSame(v.c, old(v.State()), old(v.File()), id, s1)
    ensures r.Ok? ==> WorkingCopy(s1, id, was)
    ensures r == Ok(false) ==> Patched(was, patch) == was && v.State() == s1 && v.File() == old(v.File())
    ensures r == Ok(true) ==>
              && Patched(was, patch) != was
              && var next := Patched(was, patch);
              && Storable(next.(record := next.record.(modified := now)))
              && EntryStep(v.c, s1, id, next.title, next.username, next.record.(modified := now), old(v.File()),
                           v.State(), v.File(), Ok(()), d)
    ensures r.Err? ==>
              || (v.State() == s1 && v.File() == old(v.File()))
              || (&& WorkingCopy(s1, id, was)
                  && var next := Patched(was, patch);
                  && EntryStep(v.c, s1, id, next.title, next.username, next.record.(modified := now), old(v.File()),
                               v.State(), v.File(), Err(r.error), d))
    ensures r.Err? && IdsDistinct(old(v.entries)) ==> v.State() == s1
    ensures r == Ok(true) && Unambiguous(old(v.State())) ==>
              Updated(v.c, old(v.State()), old(v.File()), v.File(), id, patch, now)
    ensures old(v.Calm(|v.entries| + 2)) && v.path !in old(v.fs.locks) ==>
              r == UpdateOutcome(v.c, old(v.State()), old(v.File()), id, patch, now)
  {
    hide EntryStep, ValidItem, Patched, OpenItem, SavePlan, Drawn, Durable, NamesFree, IdsDistinct, CrashOldOrNew,
         PlainImage, Position, AllQuiet, Unambiguous, Updated, Current, Follows;
    d := NoDraws(0);
    was := Details([], [], PLACEHOLDER);
    s1 := v.State();
    ghost var file := v.File();
    var at := LivePosition(v.entries, id);
    if at.None? {
      return Err(Encrypt), s1, was, d;
    }
    var entry := v.entries[at.value];
    var open := v.Open(id);
    s1 := v.State();
    if open.Err? {
      return Err(open.error), s1, was, d;
    }
    OpenCaches(v.c, old(v.State()), file.value, id);
    var copy := Details(entry.title, entry.username, v.openItems[entry.slot]);
    was := copy;
    var next, changed := ApplyPatch(copy, patch);
    if !changed {
      return Ok(false), s1, was, d;
    }
    var record := next.record.(modified := now);
    if !MetadataOk(next.title, next.username) || !ValidItem(record) {
      return Err(Encrypt), s1, was, d;
    }
    var saved;
    saved, d := v.CommitEntry(id, next.title, next.username, record);
    if saved.Err? {
      UpdateUndoneIff(v.c, s1, id, was, next.title, next.username, record, file, v.State(), v.File(), saved.error, d);
      return Err(saved.error), s1, was, d;
    }
    assert saved.value == ();
    if Unambiguous(old(v.State())) {
      UpdateTakesEffect(v.c, old(v.State()), s1, id, was, patch, now, file, v.State(), v.File(), d);
    }
    return Ok(true), s1, was, d;
  }

  /** A committed update of a working copy, said of the file. */
  lemma UpdateTakesEffect(c: Suite, s: Session, s1: Session, id: u32, was: Details, patch: EntryPatch, time: u64,
                          disk: Option<Bytes>, s': Session, disk': Option<Bytes>, d: Draws)
    requires Lawful(c) && Unambiguous(s) && disk.Some?
    requires OpenItem(c, s, disk.value, id).1.Ok? && s1 == OpenItem(c, s, disk.value, id).0 && WorkingCopy(s1, id, was)
    requires var next := Patched(was, patch);
             EntryStep(c, s1, id, next.title, next.username, next.record.(modified := time), disk, s', disk', Ok(()), d)
    ensures Updated(c, s, disk, disk', id, patch, time)
  {
    hide EntryStep, OpenItem, Edited, IdsDistinct, SlotsDistinct, Patches;
    OpenShows(c, s, disk.value, id);
    var e := s.entries[LivePosition(s.entries, id).value];
    assert e in s.entries;
    var next := Patched(was, patch);
    EditTakesEffect(c, s1, id, next.title, next.username, next.record.(modified := time), disk, s', disk', d);
    EditedFromOpened(c, s, s1, disk, disk', id, next.title, next.username, next.record.(modified := time));
    PatchedPatches(was, patch, time);
  }

  lemma PatchedPatches(was: Details, patch: EntryPatch, time: u64)
    ensures Patches(patch, time, was.record, Patched(was, patch).record.(modified := time))
  {
  }

  /** What a successful opening gives is what the entry shows. */
  lemma OpenShows(c: Suite, s: Session, raw: Bytes, id: u32)
    requires OpenItem(c, s, raw, id).1.Ok?
    ensures var s1 := OpenItem(c, s, raw, id).0;
            && LivePosition(s.entries, id).Some? && s1 == s.(cache := s1.cache)
            && var e := s.entries[LivePosition(s.entries, id).value];
            && e.slot in s1.cache && Shown(c, s, Some(raw), e) == Ok(s1.cache[e.slot])
            && forall slot :: slot != e.slot ==>
                 (slot in s1.cache <==> slot in s.cache) && (slot in s.cache ==> s1.cache[slot] == s.cache[slot])
  {
    hide OpenSlot, FramesOf, AuthenticateCurrent;
  }

  lemma EditedFromOpened(c: Suite, s: Session, s1: Session, disk: Option<Bytes>, disk': Option<Bytes>, id: u32,
                         title: Text, username: Text, record: ItemRecord)
    requires Edited(c, s1, disk, disk', id, title, username, record) && Unambiguous(s)
    requires s1 == s.(cache := s1.cache) && LivePosition(s.entries, id).Some?
    requires forall slot :: slot != s.entries[LivePosition(s.entries, id).value].slot ==>
               (slot in s1.cache <==> slot in s.cache) && (slot in s.cache ==> s1.cache[slot] == s.cache[slot])
    ensures Edited(c, s, disk, disk', id, title, username, record)
  {
    hide Contents, IdsDistinct, SlotsDistinct, Unchanged;
    var i := LivePosition(s.entries, id).value;
    var now := Contents(c, disk'.value, s.dek).value;
    forall k | 0 <= k < |now| && s.entries[k].itemId != id
      ensures Unchanged(c, s, disk, s.entries[k], now[k])
    {
      Apart(s.entries, i, k);
      OpenedUnchanged(c, s, s1, disk, s.entries[k], now[k]);
    }
  }

  /**
   A failing commit of a working copy leaves the session as it was opened if and only if the first
   entry with the id is cached, which it is when ids are distinct. The working copy itself
   comes from the first live entry with the id.
   */
  lemma UpdateUndoneIff(c: Suite, s: Session, id: u32, was: Details, title: Text, username: Text, record: ItemRecord,
                        disk: Option<Bytes>, s': Session, disk': Option<Bytes>, error: Error, d: Draws)
    requires Lawful(c) && WorkingCopy(s, id, was)
    requires EntryStep(c, s, id, title, username, record, disk, s', disk', Err(error), d)
    ensures Position(s.entries, id).Some?
    ensures s' == s <==> s.entries[Position(s.entries, id).value].slot in s.cache
    ensures IdsDistinct(s.entries) ==> s' == s
  {
    hide EntryStep, IdsDistinct;
    var i := LivePosition(s.entries, id).value;
    assert s.entries[i] in s.entries;
    FailedEditUndoneIff(c, s, id, title, username, record, disk, s', disk', Err(error), d);
    if IdsDistinct(s.entries) {
      DistinctIdsAgree(s.entries, id);
    }
  }

  /**
   A failing update that is not undone: a dead entry and a live one share an id, as a migration
   may leave them. The working copy is the live item; the record stays at the dead entry's slot.
   */
  lemma UpdateNotUndone(c: Suite, s: Session, id: u32, was: ItemRecord, record: ItemRecord, d: Draws)
    requires Lawful(c) && s.cache == map[1 := was]
    requires s.entries == [IndexEntry(id, 0, TOMBSTONE, [], []), IndexEntry(id, 1, LIVE, [], [])]
    ensures WorkingCopy(s, id, Details([], [], was))
    ensures var s' := s.(cache := s.cache[0 := record]);
            s' != s && EntryStep(c, s, id, [], [], record, None, s', None, Err(Encrypt), d)
  {
    assert s.entries[..1] == [s.entries[0]] && s.entries[..1][..0] == [];
    var s1 := EditedAt(s, 0, [], [], record);
    assert PlainSave(c, s1, None, s1, None, Err(Encrypt), d);
    assert s.entries[0 := s.entries[0].(title := [], username := [])] == s.entries;
    assert 0 in s.cache[0 := record];
  }

  /** What `update_entry` answers if nothing goes wrong around it. */
  ghost function UpdateOutcome(c: Suite, s: Session, file: Option<Bytes>, id: u32, patch: EntryPatch,
                               now: u64): Result<bool>
  {
    if LivePosition(s.entries, id).None? || file.None? then Err(Encrypt) else
    var (s1, open) := OpenItem(c, s, file.value, id);
    if open.Err? then Err(open.error) else
    OpenCaches(c, s, file.value, id);
    var i := LivePosition(s1.entries, id).value;
    var e := s1.entries[i];
    var was := Details(e.title, e.username, s1.cache[e.slot]);
    var next := Patched(was, patch);
    var stamped := next.record.(modified := now);
    if next == was then Ok(false)
    else if !Storable(Details(next.title, next.username, stamped)) then Err(Encrypt)
    else if Position(s1.entries, id).None? then Err(Encrypt)
    else
      match SavePlan(c, EditedAt(s1, Position(s1.entries, id).value, next.title, next.username, stamped), file)
      case Ok(_) => Ok(true)
      case Err(error) => Err(error)
  }

  lemma OpenCaches(c: Suite, s: Session, raw: Bytes, id: u32)
    requires OpenItem(c, s, raw, id).1.Ok?
    ensures var s1 := OpenItem(c, s, raw, id).0;
            && s1 == s.(cache := s1.cache)
            && LivePosition(s.entries, id).Some?
            && s.entries[LivePosition(s.entries, id).value].slot in s1.cache
            && (forall slot :: slot in s.cache ==> slot in s1.cache && s1.cache[slot] == s.cache[slot])
  {
  }

  method DeleteEntry(v: Vault, id: u32) returns (r: Result<()>, ghost d: Draws)
    requires v.Valid()
    modifies v`entries, v`openItems, v`header, v`lastDiskTag, v.fs, v.rng
    ensures v.Valid()
    ensures TombstoneStep(v.c, old(v.State()), id, old(v.File()), v.State(), v.File(), r, d)
    ensures var (live, i) := (LivePosition(old(v.entries), id), Position(old(v.entries), id));
            live.Some? && i.Some? && old(v.Calm(|v.entries| + 2)) && v.path !in old(v.fs.locks) ==>
              Decided(r, SavePlan(v.c, TombstonedAt(old(v.State()), i.value, old(v.entries)[live.value].slot),
                                  old(v.File())))
    ensures r.Ok? && Unambiguous(old(v.State())) ==>
              Deleted(v.c, old(v.State()), old(v.File()), v.State(), v.File(), id)
  {
    hide TombstoneStep, SavePlan, NamesFree, Deleted, Unambiguous, CrashOldOrNew, PlainImage;
    ghost var (s, file) := (v.State(), v.File());
    r, d := v.CommitTombstone(id);
    if r.Ok? && Unambiguous(s) {
      assert r.value == ();
      DeletionTakesEffect(v.c, s, id, file, v.State(), v.File(), d);
    }
  }

  datatype ImportedUpdate = ImportedUpdate(itemId: u32, record: ItemRecord)

  /** The update of one item as it is installed: at its slot, with the creation time the item has. */
  ghost predicate PreparedFor(s: Session, u: ImportedUpdate, p: (u32, ItemRecord)) {
    && LivePosition(s.entries, u.itemId).Some?
    && p.0 == s.entries[LivePosition(s.entries, u.itemId).value].slot
    && p.0 in s.cache
    && p.1 == u.record.(created := s.cache[p.0].created)
    && ValidItem(p.1)
  }

  ghost predicate Targets(us: seq<ImportedUpdate>, id: u32) {
    exists u :: u in us && u.itemId == id
  }

  /** Where a newly cached record comes from. */
  ghost predicate OpenedFor(c: Suite, s: Session, file: Option<Bytes>, us: seq<ImportedUpdate>, slot: u32,
                            record: ItemRecord)
  {
    exists e :: e in s.entries && e.slot == slot && Targets(us, e.itemId) && Shown(c, s, file, e) == Ok(record)
  }

  /** Same session, possibly with the records of some updated items opened. */
  ghost predicate OnlyOpened(c: Suite, s: Session, file: Option<Bytes>, us: seq<ImportedUpdate>, s1: Session) {
    && s1 == s.(cache := s1.cache)
    && (forall slot :: slot in s.cache ==> slot in s1.cache && s1.cache[slot] == s.cache[slot])
    && forall slot :: slot in s1.cache && slot !in s.cache ==> OpenedFor(c, s, file, us, slot, s1.cache[slot])
  }

  /** Opening one more updated item. */
  lemma OpenedThen(c: Suite, s: Session, file: Option<Bytes>, us: seq<ImportedUpdate>, s1: Session, u: ImportedUpdate,
                   s2: Session)
    requires OnlyOpened(c, s, file, us, s1) && OnlyOpened(c, s1, file, [u], s2) && u in us
    ensures OnlyOpened(c, s, file, us, s2)
  {
    hide OpenSlot, FramesOf;
    forall slot | slot in s2.cache && slot !in s.cache
      ensures OpenedFor(c, s, file, us, slot, s2.cache[slot])
    {
      if slot !in s1.cache {
        assert OpenedFor(c, s1, file, [u], slot, s2.cache[slot]);
        var e :| e in s1.entries && e.slot == slot && Targets([u], e.itemId)
          && Shown(c, s1, file, e) == Ok(s2.cache[slot]);
        assert Targets(us, e.itemId);
        assert Shown(c, s, file, e) == Ok(s2.cache[slot]);
      } else {
        assert OpenedFor(c, s, file, us, slot, s1.cache[slot]);
      }
    }
  }

  /** Opening the item of one update. */
  lemma OpensOne(c: Suite, s: Session, raw: Bytes, u: ImportedUpdate)
    ensures OnlyOpened(c, s, Some(raw), [u], OpenItem(c, s, raw, u.itemId).0)
  {
    hide OpenSlot, FramesOf, AuthenticateCurrent;
    var s1 := OpenItem(c, s, raw, u.itemId).0;
    forall slot | slot in s1.cache && slot !in s.cache
      ensures OpenedFor(c, s, Some(raw), [u], slot, s1.cache[slot])
    {
      var e := s.entries[LivePosition(s.entries, u.itemId).value];
      assert u in [u];
      assert Targets([u], e.itemId);
      assert Shown(c, s, Some(raw), e) == Ok(s1.cache[slot]);
    }
  }

  /** One update after the others: the item is opened and the creation time carried over. */
  ghost function PrepareOne(c: Suite, s: Session, raw: Bytes, u: ImportedUpdate): (Session, Result<(u32, ItemRecord)>) {
    match LivePosition(s.entries, u.itemId)
    case None => (s, Err(Encrypt))
    case Some(i) =>
      var e := s.entries[i];
      var (s1, open) := OpenItem(c, s, raw, u.itemId);
      if open.Err? then (s1, Err(open.error)) else
      OpenCaches(c, s, raw, u.itemId);
      var record := u.record.(created := s1.cache[e.slot].created);
      (s1, if Storable(Details(e.title, e.username, record)) then Ok((e.slot, record)) else Err(Encrypt))
  }

  /** All updates in order, up to the first that cannot be prepared. */
  ghost function PrepareAll(c: Suite, s: Session, raw: Bytes, updates: seq<ImportedUpdate>)
    : (Session, Result<seq<(u32, ItemRecord)>>)
  {
    if updates == [] then (s, Ok([]))
    else
      var (s1, front) := PrepareAll(c, s, raw, updates[..|updates| - 1]);
      if front.Err? then (s1, front) else
      var (s2, last) := PrepareOne(c, s1, raw, updates[|updates| - 1]);
      (s2, if last.Ok? then Ok(front.value + [last.value]) else Err(last.error))
  }

  predicate AddsOk(adds: seq<NewItem>, nextId: u32) {
    && nextId + |adds| <= U32_MAX
    && forall k :: 0 <= k < |adds| ==> Storable(Details(adds[k].title, adds[k].username, adds[k].record))
  }

  /** What `apply_import` answers if nothing goes wrong around it. */
  ghost predicate ImportOutcome(c: Suite, s: Session, file: Option<Bytes>, adds: seq<NewItem>,
                                updates: seq<ImportedUpdate>, r: Result<()>)
  {
    if !AddsOk(adds, s.nextId) then r == Err(Encrypt)
    else if file.None? then r.Err?
    else
      var (s1, prepared) := PrepareAll(c, s, file.value, updates);
      if prepared.Err? then r == Err(prepared.error)
      else
        var (s2, added) := AddAll(s1, adds);
        if added.Err? then r == added
        else Decided(r, SavePlan(c, s2.(cache := PutAll(s2.cache, prepared.value)), file))
  }

  method CheckAdds(adds: seq<NewItem>, first: u32) returns (r: Result<()>)
    ensures r == if AddsOk(adds, first) then Ok(()) else Err(Encrypt)
  {
    hide ValidItem;
    var nextId := first;
    for i := 0 to |adds|
      invariant nextId == first + i <= U32_MAX
      invariant forall k :: 0 <= k < i ==> Storable(Details(adds[k].title, adds[k].username, adds[k].record))
    {
      if !MetadataOk(adds[i].title, adds[i].username) || !ValidItem(adds[i].record) || nextId == U32_MAX {
        return Err(Encrypt);
      }
      nextId := nextId + 1;
    }
    r := Ok(());
    assert r.value == ();
  }

  /** Opens the updated items one by one; nothing else of the session changes. */
  method PrepareUpdates(v: Vault, updates: seq<ImportedUpdate>) returns (r: Result<seq<(u32, ItemRecord)>>)
    requires v.Valid()
    modifies v`openItems
    ensures OnlyOpened(v.c, old(v.State()), v.File(), updates, v.State())
    ensures r.Ok? ==> |r.value| == |updates| && forall k :: 0 <= k < |updates| ==>
              PreparedFor(v.State(), updates[k], r.value[k])
    ensures v.Readable() && v.File().Some? ==>
              (v.State(), r) == PrepareAll(v.c, old(v.State()), v.File().value, updates)
  {
    hide ValidItem, OpenItem, PreparedFor, PrepareOne, OnlyOpened;
    var ready: seq<(u32, ItemRecord)> := [];
    ghost var s := v.State();
    NothingOpened(v.c, s, v.File(), updates);
    for i := 0 to |updates|
      modifies v`openItems
      invariant OnlyOpened(v.c, s, v.File(), updates, v.State())
      invariant |ready| == i
      invariant forall k :: 0 <= k < i ==> PreparedFor(v.State(), updates[k], ready[k])
      invariant v.Readable() && v.File().Some? ==>
                  (v.State(), Ok(ready)) == PrepareAll(v.c, s, v.File().value, updates[..i])
    {
      ghost var before := v.State();
      if v.File().Some? {
        PrepareStep(v.c, s, v.File().value, updates, i);
      }
      var one := PrepareUpdate(v, updates[i]);
      OpenedThen(v.c, s, v.File(), updates, before, updates[i], v.State());
      if one.Err? {
        return Err(one.error);
      }
      StillPrepared(v.c, before, v.File(), updates[i], v.State(), updates, ready);
      ready := ready + [one.value];
    }
    assert updates[..|updates|] == updates;
    return Ok(ready);
  }

  method PrepareUpdate(v: Vault, u: ImportedUpdate) returns (r: Result<(u32, ItemRecord)>)
    requires v.Valid()
    modifies v`openItems
    ensures OnlyOpened(v.c, old(v.State()), v.File(), [u], v.State())
    ensures r.Ok? ==> v.File().Some? && PreparedFor(v.State(), u, r.value)
    ensures v.Readable() && v.File().Some? ==> (v.State(), r) == PrepareOne(v.c, old(v.State()), v.File().value, u)
  {
    hide ValidItem, OpenItem, OnlyOpened;
    ghost var before := v.State();
    NothingOpened(v.c, before, v.File(), [u]);
    var at := LivePosition(v.entries, u.itemId);
    if at.None? {
      return Err(Encrypt);
    }
    var entry := v.entries[at.value];
    if v.File().Some? {
      OpensOne(v.c, before, v.File().value, u);
    }
    var open := v.Open(u.itemId);
    if open.Err? {
      OpenFailsQuietly(v.c, before, v.File(), u.itemId);
      return Err(open.error);
    }
    OpenCaches(v.c, before, v.File().value, u.itemId);
    var record := u.record.(created := v.openItems[entry.slot].created);
    if !MetadataOk(entry.title, entry.username) || !ValidItem(record) {
      return Err(Encrypt);
    }
    return Ok((entry.slot, record));
  }

  lemma PrepareStep(c: Suite, s: Session, raw: Bytes, updates: seq<ImportedUpdate>, i: nat)
    requires i < |updates|
    ensures var (s1, front) := PrepareAll(c, s, raw, updates[..i]);
            var (s2, last) := PrepareOne(c, s1, raw, updates[i]);
            front.Ok? ==>
              && (last.Ok? ==> PrepareAll(c, s, raw, updates[..i + 1]) == (s2, Ok(front.value + [last.value])))
              && (last.Err? ==> PrepareAll(c, s, raw, updates) == (s2, Err(last.error)))
  {
    hide PrepareOne;
    assert updates[..i + 1][..i] == updates[..i];
    if PrepareAll(c, s, raw, updates[..i + 1]).1.Err? {
      PrepareStops(c, s, raw, updates, i + 1);
    }
  }

  lemma {:induction false} PrepareStops(c: Suite, s: Session, raw: Bytes, updates: seq<ImportedUpdate>, i: nat)
    requires i <= |updates| && PrepareAll(c, s, raw, updates[..i]).1.Err?
    ensures PrepareAll(c, s, raw, updates) == PrepareAll(c, s, raw, updates[..i])
    decreases |updates|
  {
    hide PrepareOne;
    if i == |updates| {
      assert updates[..i] == updates;
    } else {
      assert updates[..|updates| - 1][..i] == updates[..i];
      PrepareStops(c, s, raw, updates[..|updates| - 1], i);
    }
  }

  /**
   `apply_import`: the whole candidate is validated before anything changes; then all adds
   and updates are one commit. `s1` is the session with the updated items opened.
   */
  method ApplyImport(v: Vault, adds: seq<NewItem>, updates: seq<ImportedUpdate>)
    returns (r: Result<()>, ghost s1: Session, ghost prepared: seq<(u32, ItemRecord)>, ghost d: Draws)
    requires v.Valid()
    modifies v`entries, v`openItems, v`nextItemId, v`header, v`lastDiskTag, v.fs, v.rng
    ensures v.Valid()
    ensures OnlyOpened(v.c, old(v.State()), old(v.File()), updates, s1)
    ensures || (r.Err? && v.State() == s1 && v.File() == old(v.File()))
            || (&& |prepared| == |updates|
                && (forall k :: 0 <= k < |updates| ==> PreparedFor(s1, updates[k], prepared[k]))
                && AddsOk(adds, old(v.nextItemId))
                && ImportStep(v.c, s1, adds, prepared, old(v.File()), v.State(), v.File(), r, d))
    ensures old(v.Calm(|v.entries| + |adds| + 2)) && v.path !in old(v.fs.locks) ==>
              ImportOutcome(v.c, old(v.State()), old(v.File()), adds, updates, r)
  {
    hide ImportStep, AddsOk, PreparedFor, PrepareAll, AddAll, PutAll, Preflight, ParseHeaderVersion, NamesFree,
         OnlyOpened;
    d := NoDraws(0);
    s1, prepared := v.State(), [];
    NothingOpened(v.c, s1, v.File(), updates);
    var checked := CheckAdds(adds, v.nextItemId);
    if checked.Err? {
      return Err(checked.error), s1, prepared, d;
    }
    var ready := PrepareUpdates(v, updates);
    s1 := v.State();
    if ready.Err? {
      return Err(ready.error), s1, prepared, d;
    }
    prepared := ready.value;
    r, d := v.CommitImport(adds, ready.value);
    assert AddAll(s1, adds).1.Err? ==> r == AddAll(s1, adds).1;
  }

  lemma OpenFailsQuietly(c: Suite, s: Session, file: Option<Bytes>, id: u32)
    ensures file.Some? && OpenItem(c, s, file.value, id).1.Err? ==> OpenItem(c, s, file.value, id).0 == s
  {
  }

  lemma NothingOpened(c: Suite, s: Session, file: Option<Bytes>, us: seq<ImportedUpdate>)
    ensures OnlyOpened(c, s, file, us, s)
  {
  }

  lemma StillPrepared(c: Suite, s: Session, file: Option<Bytes>, u: ImportedUpdate, s1: Session,
                      updates: seq<ImportedUpdate>, ready: seq<(u32, ItemRecord)>)
    requires OnlyOpened(c, s, file, [u], s1) && |ready| <= |updates|
    requires forall k :: 0 <= k < |ready| ==> PreparedFor(s, updates[k], ready[k])
    ensures forall k :: 0 <= k < |ready| ==> PreparedFor(s1, updates[k], ready[k])
  {
    hide ValidItem;
  }
}
