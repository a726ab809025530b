/**
 The session object: fields updated in place, over a file system and a random source.
 Every method is proved to stay within the relation `Steps` gives for it.
 */
module VaultSession {
  import opened Prelude
  import opened Crypto
  import opened Header
  import opened Shape
  import opened Frames
  import opened Image
  import opened SaveProof
  import opened Steps
  import opened Random
  import opened Nonces
  import opened AtomicWrite
  import opened SaveLoops
  import opened Acceptance

  class Vault {
    const c: Suite
    const fs: FileSystem
    const rng: Entropy
    const hasParent: bool
    var path: Name
    var header: Config
    var kek: Key
    var dek: Key
    var entries: seq<IndexEntry>
    var openItems: map<u32, ItemRecord>
    var nextItemId: u32
    var lastDiskTag: Option<Mac>

    ghost predicate Valid()
      reads this, fs
    {
      fs.Valid() && Lawful(c)
    }

    /** The session as a value. */
    function State(): Session
      reads this
    {
      Session(header, kek, dek, entries, openItems, nextItemId, lastDiskTag)
    }

    /** The file as a reader sees it. */
    function File(): Option<Bytes>
      reads this, fs
    {
      fs.disk.Content(path)
    }

    /** The file system works and the file, if any, is not too large to read. */
    ghost predicate Readable()
      reads this, fs
    {
      fs.works && (File().Some? ==> |File().value| <= MAX_VAULT_BYTES)
    }

    /**
     Nothing around a save can go wrong: no I/O error, no temporary file in the way,
     enough randomness for `n` nonces.
     */
    ghost predicate Calm(n: nat)
      reads this, fs, rng
    {
      Readable() && NamesFree(fs.disk, path) && |rng.pool| >= NONCE_LEN * n + 16
    }

    constructor (c: Suite, fs: FileSystem, rng: Entropy, hasParent: bool, path: Name, s: Session)
      requires fs.Valid() && Lawful(c)
      ensures Valid() && State() == s
      ensures this.c == c && this.fs == fs && this.rng == rng && this.hasParent == hasParent && this.path == path
    {
      this.c, this.fs, this.rng, this.hasParent, this.path := c, fs, rng, hasParent, path;
      header, kek, dek, entries := s.config, s.kek, s.dek, s.entries;
      openItems, nextItemId, lastDiskTag := s.cache, s.nextId, s.tag;
    }

    /** `read_vault_bytes`: the whole file, unless it cannot be read or is too large. */
    method ReadVaultBytes() returns (r: Result<Bytes>)
      ensures r.Ok? ==> File() == Some(r.value) && |r.value| <= MAX_VAULT_BYTES
      ensures r.Err? ==> r == Err(Encrypt)
      ensures Readable() && File().Some? ==> r.Ok?
    {
      var readable: bool :| fs.works ==> readable;
      if File().None? || !readable || |File().value| > MAX_VAULT_BYTES {
        return Err(Encrypt);
      }
      return Ok(File().value);
    }

    /** The old file's slots and frames, after re-authenticating it; empty when there is no file. */
    method LoadOld(diskDek: Key) returns (r: Result<(map<u32, u32>, seq<Bytes>)>)
      ensures r == OldFile(c, lastDiskTag, diskDek, BytesOf(File())) || (r == Err(Encrypt) && !Readable())
    {
      hide FramesOf, Framing, ReadIndex;
      var disk: Bytes := [];
      if File().Some? {
        var raw := ReadVaultBytes();
        if raw.Err? {
          return Err(raw.error);
        }
        disk := raw.value;
      }
      if disk == [] {
        return if lastDiskTag.Some? then Err(Stale) else Ok((map[], []));
      }
      var auth := AuthenticateCurrent(c, disk, diskDek, lastDiskTag);
      if auth.Err? {
        return Err(auth.error);
      }
      var h := ParseHeader(disk).value;
      var alg := AlgorithmFromId(h.itemAlgId);
      if alg.Err? {
        return Err(alg.error);
      }
      var es := ReadIndex(c, disk, h.version, diskDek, alg.value);
      if es.Err? {
        return Err(es.error);
      }
      var slots := IndexById(es.value);
      var frames, _ := SplitItemFrames(disk, true, TRAILER_LEN);
      if frames.Err? {
        return Err(frames.error);
      }
      return Ok((slots, frames.value));
    }

    /**
     Everything up to the first random draw: the old file, the encryption budget, the
     renumbered index and the size. Refuses exactly when the preflight does, or on I/O.
     */
    method Prepare(h: ParsedHeader, diskDek: Key)
      returns (r: Result<Ready>)
      ensures match Preflight(c, State(), h, diskDek, BytesOf(File()))
              case Ok(p) => (r.Ok? && ReadyFor(r.value, p, openItems, entries)) || (r == Err(Encrypt) && !Readable())
              case Err(e) => r == Err(e) || (r == Err(Encrypt) && !Readable())
    {
      hide OldFile, Sources, SourcesLen, SourceOf, FreshCount;
      var loaded := LoadOld(diskDek);
      if loaded.Err? {
        return Err(loaded.error);
      }
      var (slots, frames) := loaded.value;
      var count := CountFresh(openItems, entries);
      var counter := h.encCounter + count + 1;
      if counter > ROTATION_LIMIT {
        return Err(Encrypt);
      }
      if |entries| > U32_MAX {
        return Err(Encrypt);
      }
      var renumbered := Renumber(entries);
      var indexPt := ShapeIo.SerializeIndex(renumbered);
      if indexPt.Err? {
        return Err(indexPt.error);
      }
      var base := HEADER_LEN + NONCE_LEN + 4 + |indexPt.value| + TAG_LEN + 4 + TRAILER_LEN;
      SourcesErrors(openItems, slots, frames, entries);
      var size := CandidateSize(base, openItems, slots, frames, entries);
      if size.Err? {
        return Err(Encrypt);
      }
      var wrapAlg := AlgorithmFromId(h.wrapAlgId);
      if wrapAlg.Err? {
        return Err(wrapAlg.error);
      }
      var itemAlg := AlgorithmFromId(h.itemAlgId);
      if itemAlg.Err? {
        return Err(itemAlg.error);
      }
      return Ok(Ready(counter, renumbered, indexPt.value, slots, frames, wrapAlg.value, itemAlg.value));
    }

    /** Header, index, frames and trailer under fresh nonces; `sealed` counts the encryptions under the data key. */
    method Assemble(h: ParsedHeader, q: Ready, ghost p: Plan)
      returns (r: Result<(Bytes, Mac)>, ghost d: Draws, ghost sealed: nat)
      requires Valid() && ReadyFor(q, p, openItems, entries)
      requires |entries| <= U32_MAX && p.entries == Renumber(entries) && Fitting(p, NoDraws(|entries|))
      modifies rng
      ensures Fitting(p, d)
      ensures r.Ok? ==> r.value.0 == ImageOf(c, State(), h, p, d) && r.value.1 == TagOf(c, State(), h, p, d)
      ensures r.Ok? ==> sealed == FreshCount(openItems, entries) + 1
      ensures r.Ok? ==> d == Drawn(old(rng.pool), openItems, entries)
      ensures if |old(rng.pool)| < NONCE_LEN * (2 + FreshCount(openItems, entries)) then r == Err(Rng)
              else r.Ok? && rng.pool == old(rng.pool)[NONCE_LEN * (2 + FreshCount(openItems, entries))..]
    {
      hide SourceOf, Sources, Concat, BE, HeaderBytes, AadBytes, FrameFrom, FreshCount, ValidItem;
      d, sealed := NoDraws(|entries|), 0;
      var wrapNonce := rng.Draw(NONCE_LEN);
      if wrapNonce.Err? {
        return Err(wrapNonce.error), d, 0;
      }
      var final := h.(reserved := h.reserved[0 := FRAME_LAYOUT_V2], encCounter := q.counter,
                      wrapNonce := wrapNonce.value);
      var aad := HeaderAad(final);
      var wrapped := c.seal(q.wrapAlg, kek, wrapNonce.value, dek, aad[..]);
      final := final.(wrappedDek := wrapped[..KEY_LEN], wrapTag := wrapped[KEY_LEN..]);
      var headerBytes := BuildHeader(final);
      var out := headerBytes[..];
      var indexNonce := rng.Draw(NONCE_LEN);
      if indexNonce.Err? {
        return Err(indexNonce.error), d, 0;
      }
      var indexCt := c.seal(q.itemAlg, dek, indexNonce.value, q.indexPt, IndexAad(h.version));
      out := out + indexNonce.value + BE32(|indexCt|) + indexCt + BE32(|q.entries|);
      d := Draws(wrapNonce.value, indexNonce.value, NoDraws(|entries|).items);
      var body;
      body, d, sealed := EmitFrames(c, dek, q.itemAlg, h.version, rng, openItems, q.slots, q.frames, entries, out, p,
                                    d, old(rng.pool));
      if body.Err? {
        return Err(body.error), d, sealed;
      }
      sealed := sealed + 1;
      assert body.value == Body(c, State(), h, p, d);
      var tagged := body.value + BE32(|q.entries|) + BE32(c.crc(body.value));
      var tag := c.mac(dek, tagged);
      return Ok((tagged + tag, tag)), d, sealed;
    }

    /** Puts the finished image in place: a first publication never replaces a file. */
    method PublishImage(out: Bytes) returns (r: Result<()>)
      requires Valid()
      modifies fs`disk, fs`trace, rng
      ensures Valid() && old(fs.trace) <= fs.trace
      ensures CrashOldOrNew(old(fs.disk), fs.trace, |old(fs.trace)|, path, Some(out))
      ensures File() == old(File()) || (File() == Some(out) && (lastDiskTag.None? ==> old(File()).None?))
      ensures r.Ok? ==> File() == Some(out) && (lastDiskTag.None? ==> old(File()).None?)
      ensures r.Ok? && hasParent ==> Durable(fs.disk, path, out)
      ensures fs.works && NamesFree(old(fs.disk), path) && |old(rng.pool)| >= 16 ==>
                (r.Ok? <==> (lastDiskTag.None? ==> old(File()).None?))
    {
      hide Durable;
      if lastDiskTag.None? {
        ghost var tmp;
        r, tmp := AtomicCreateLocked(fs, rng, path, hasParent, out);
        CreateSafeCrashes(old(fs.disk), fs.trace, |old(fs.trace)|, tmp, path, out);
      } else {
        r := AtomicWriteLocked(fs, rng, path, hasParent, out);
        SafeCrashes(old(fs.disk), fs.trace, |old(fs.trace)|, path, out);
      }
    }

    /** From the checks to the publication; nothing of the session changes. */
    method WriteFile(h: ParsedHeader, diskDek: Key)
      returns (r: Result<(Ready, Mac)>, ghost d: Draws, ghost sealed: nat)
      requires Valid()
      modifies fs`disk, fs`trace, rng
      ensures Valid() && old(fs.trace) <= fs.trace
      ensures match Preflight(c, State(), h, diskDek, BytesOf(old(File())))
              case Err(_) => r.Err? && fs.disk == old(fs.disk)
              case Ok(p) => && Fitting(p, d)
                            && OldOrNew(c, State(), h, p, d, old(File()), File())
                            && (r.Ok? ==> && File() == NewImage(c, State(), h, p, d)
                                          && (lastDiskTag.None? ==> old(File()).None?)
                                          && ReadyFor(r.value.0, p, openItems, entries)
                                          && r.value.1 == TagOf(c, State(), h, p, d)
                                          && h.encCounter + sealed == p.counter)
      ensures r.Ok? && hasParent ==> File().Some? && Durable(fs.disk, path, File().value)
      ensures CrashOldOrNew(old(fs.disk), fs.trace, |old(fs.trace)|, path,
                            SaveImage(c, State(), h, diskDek, old(File()), d))
      ensures r.Ok? || File() != old(File()) ==> d == Drawn(old(rng.pool), openItems, entries)
      ensures var p := Preflight(c, State(), h, diskDek, BytesOf(old(File())));
              && (old(Readable()) && p.Err? ==> r == Err(p.error))
              && (old(Calm(|entries| + 2)) && p.Ok? ==> (r.Ok? <==> (lastDiskTag.None? ==> old(File()).None?)))
    {
      hide Preflight, ImageOf, TagOf, Sources, Durable, CrashOldOrNew, Fitting, CandidateLen, Drawn, FreshCount,
           NamesFree;
      EnoughForFresh(openItems, entries);
      NothingCrashes(fs.disk, fs.trace, path);
      sealed := 0;
      d := NoDraws(|entries|);
      ghost var pre := Preflight(c, State(), h, diskDek, BytesOf(File()));
      if pre.Ok? {
        PlanShape(c, State(), h, diskDek, BytesOf(File()), pre.value);
        PreflightFits(c, State(), h, diskDek, BytesOf(File()), d);
      }
      var ready := Prepare(h, diskDek);
      if ready.Err? {
        return Err(ready.error), d, 0;
      }
      var made;
      made, d, sealed := Assemble(h, ready.value, pre.value);
      if made.Err? {
        return Err(made.error), d, sealed;
      }
      var (out, tag) := made.value;
      SizeIsExact(c, State(), h, pre.value, d);
      if |out| > MAX_VAULT_BYTES {
        return Err(Encrypt), d, sealed;
      }
      var published := PublishImage(out);
      if published.Err? {
        return Err(published.error), d, sealed;
      }
      return Ok((ready.value, tag)), d, sealed;
    }

    /** After the publication the session takes the new numbering, counter and tag. */
    method TakeOver(q: Ready, tag: Mac, ghost p: Plan)
      requires ReadyFor(q, p, openItems, entries) && |entries| <= U32_MAX
      modifies this`entries, this`openItems, this`header, this`lastDiskTag
      ensures State() == Committed(old(State()), p, tag)
      ensures header.encCounter == p.counter
    {
      hide Remap, Sources;
      openItems := RemapItems(openItems, entries);
      entries := q.entries;
      header := header.(encCounter := q.counter);
      lastDiskTag := Some(tag);
    }

    /**
     `save_with_header_locked`. `sealed` counts the encryptions made under the data key:
     on success it is exactly what the counter in the new header rose by.
     */
    method SaveWithHeaderLocked(h: ParsedHeader, diskDek: Key)
      returns (r: Result<()>, ghost d: Draws, ghost sealed: nat)
      requires Valid()
      modifies this`entries, this`openItems, this`header, this`lastDiskTag, fs`disk, fs`trace, rng
      ensures Valid() && old(fs.trace) <= fs.trace
      ensures SaveStep(c, old(State()), h, diskDek, old(File()), State(), File(), r, d)
      ensures r.Ok? ==> header.encCounter == h.encCounter + sealed
      ensures r.Ok? && hasParent ==> File().Some? && Durable(fs.disk, path, File().value)
      ensures CrashOldOrNew(old(fs.disk), fs.trace, |old(fs.trace)|, path,
                            SaveImage(c, old(State()), h, diskDek, old(File()), d))
      ensures r.Ok? || File() != old(File()) ==> d == Drawn(old(rng.pool), old(openItems), old(entries))
      ensures var p := Preflight(c, old(State()), h, diskDek, BytesOf(old(File())));
              && (old(Readable()) && p.Err? ==> r == Err(p.error))
              && (old(Calm(|entries| + 2)) && p.Ok? ==> (r.Ok? <==> (old(lastDiskTag).None? ==> old(File()).None?)))
      ensures var (s, file) := (old(State()), old(File()));
              old(Calm(|entries| + 2)) && file.Some? && Follows(c, s, diskDek, file.value)
              && AlgorithmFromId(h.wrapAlgId).Ok? && AlgorithmFromId(h.itemAlgId).Ok? ==>
                (r.Ok? <==> WithinLimits(s, h.encCounter, FramesIn(file.value)))
    {
      hide Preflight, Committed, ImageOf, TagOf, Sources, Durable, Fitting, SaveStep, ReadyFor, Drawn, NamesFree,
           CrashOldOrNew, SaveImage, Follows, WithinLimits, FramesIn;
      ghost var s, disk := State(), File();
      if disk.Some? && Follows(c, s, diskDek, disk.value) {
        PlannedWithin(c, s, h, diskDek, disk.value);
      }
      var written;
      written, d, sealed := WriteFile(h, diskDek);
      if written.Err? {
        SaveFailed(c, s, h, diskDek, disk, d, File(), written.error);
        return Err(written.error), d, sealed;
      }
      ghost var p := Preflight(c, s, h, diskDek, BytesOf(disk)).value;
      PlanShape(c, s, h, diskDek, BytesOf(disk), p);
      TakeOver(written.value.0, written.value.1, p);
      SaveSucceeded(c, s, h, diskDek, disk, p, d, State(), File());
      return Ok(()), d, sealed;
    }

    /** `save_with_header`: the same under the write lock. */
    method SaveWithHeader(h: ParsedHeader, diskDek: Key) returns (r: Result<()>, ghost d: Draws, ghost sealed: nat)
      requires Valid()
      modifies this`entries, this`openItems, this`header, this`lastDiskTag, fs, rng
      ensures Valid() && old(fs.trace) <= fs.trace && fs.locks == old(fs.locks)
      ensures (r.Err? && State() == old(State()) && File() == old(File()))
              || SaveStep(c, old(State()), h, diskDek, old(File()), State(), File(), r, d)
      ensures r.Ok? ==> SaveStep(c, old(State()), h, diskDek, old(File()), State(), File(), r, d)
      ensures r.Ok? ==> header.encCounter == h.encCounter + sealed
      ensures r.Ok? && hasParent ==> File().Some? && Durable(fs.disk, path, File().value)
      ensures CrashOldOrNew(old(fs.disk), fs.trace, |old(fs.trace)|, path,
                            SaveImage(c, old(State()), h, diskDek, old(File()), d))
      ensures r.Ok? || File() != old(File()) ==> d == Drawn(old(rng.pool), old(openItems), old(entries))
      ensures var p := Preflight(c, old(State()), h, diskDek, BytesOf(old(File())));
              old(Calm(|entries| + 2)) && path !in old(fs.locks) ==>
                && (p.Err? ==> r == Err(p.error))
                && (p.Ok? ==> (r.Ok? <==> (old(lastDiskTag).None? ==> old(File()).None?)))
    {
      hide SaveStep, Durable, Preflight, Drawn, NamesFree, AllQuiet, CrashOldOrNew, SaveImage;
      d, sealed := NoDraws(0), 0;
      ghost var (disk0, from) := (fs.disk, |fs.trace|);
      var lock := AcquireWriteLock(fs, path);
      ghost var trace := fs.trace;
      NothingCrashes(fs.disk, trace, path);
      if lock.Err? {
        CrashAfterQuiet(disk0, trace, from, LockName(path), fs.trace, path,
                        SaveImage(c, State(), h, diskDek, File(), d));
        return Err(lock.error), d, 0;
      }
      ghost var (s, file) := (State(), File());
      r, d, sealed := SaveWithHeaderLocked(h, diskDek);
      ReleaseWriteLock(fs, path);
      CrashAfterQuiet(disk0, trace, from, LockName(path), fs.trace, path, SaveImage(c, s, h, diskDek, file, d));
    }

    /** The part of `save` under the lock: read the file, take its header, save. */
    method SaveUnderItsHeader() returns (r: Result<()>, ghost d: Draws)
      requires Valid()
      modifies this`entries, this`openItems, this`header, this`lastDiskTag, fs`disk, fs`trace, rng
      ensures Valid() && old(fs.trace) <= fs.trace
      ensures PlainSave(c, old(State()), old(File()), State(), File(), r, d)
      ensures r.Ok? && hasParent ==> File().Some? && Durable(fs.disk, path, File().value)
      ensures CrashOldOrNew(old(fs.disk), fs.trace, |old(fs.trace)|, path, PlainImage(c, old(State()), old(File()), d))
      ensures r.Ok? || File() != old(File()) ==> d == Drawn(old(rng.pool), old(openItems), old(entries))
      ensures old(Calm(|entries| + 2)) ==> Decided(r, SavePlan(c, old(State()), old(File())))
    {
      hide SaveStep, Durable, ParseHeaderVersion, Preflight, Drawn, NamesFree, CrashOldOrNew, SaveImage;
      d := NoDraws(0);
      NothingCrashes(fs.disk, fs.trace, path);
      var raw := ReadVaultBytes();
      if raw.Err? {
        return Err(raw.error), d;
      }
      var h := ParseHeader(raw.value);
      if h.Err? {
        return Err(h.error), d;
      }
      TaggedIfPlanned(c, State(), h.value, dek, raw.value);
      ghost var sealed;
      r, d, sealed := SaveWithHeaderLocked(h.value, dek);
    }

    /** `save`: rewrite the file this session last saw, under the header it has now. */
    method Save() returns (r: Result<()>, ghost d: Draws)
      requires Valid()
      modifies this`entries, this`openItems, this`header, this`lastDiskTag, fs, rng
      ensures Valid() && old(fs.trace) <= fs.trace && fs.locks == old(fs.locks)
      ensures PlainSave(c, old(State()), old(File()), State(), File(), r, d)
      ensures r.Ok? && hasParent ==> File().Some? && Durable(fs.disk, path, File().value)
      ensures CrashOldOrNew(old(fs.disk), fs.trace, |old(fs.trace)|, path,
                            PlainImage(c, old(State()), old(File()), d))
      ensures r.Ok? || File() != old(File()) ==> d == Drawn(old(rng.pool), old(openItems), old(entries))
      ensures old(Calm(|entries| + 2)) && path !in old(fs.locks) ==> Decided(r, SavePlan(c, old(State()), old(File())))
      ensures var (s, file) := (old(State()), old(File()));
              old(Calm(|entries| + 2)) && path !in old(fs.locks) && file.Some? && Follows(c, s, s.dek, file.value) ==>
                (r.Ok? <==> HasRoom(s, file.value))
    {
      hide PlainSave, Durable, SavePlan, Drawn, NamesFree, AllQuiet, CrashOldOrNew, PlainImage, Follows, HasRoom;
      ghost var (s, file) := (State(), File());
      if file.Some? && Follows(c, s, s.dek, file.value) {
        SaveIff(c, s, file.value);
      }
      d := NoDraws(0);
      ghost var (disk0, from) := (fs.disk, |fs.trace|);
      var lock := AcquireWriteLock(fs, path);
      ghost var trace := fs.trace;
      NothingCrashes(fs.disk, trace, path);
      CrashAfterQuiet(disk0, trace, from, LockName(path), trace, path, PlainImage(c, s, file, d));
      if lock.Err? {
        NothingSaved(c, s, file, lock.error, d);
        return Err(lock.error), d;
      }
      r, d := SaveUnderItsHeader();
      ReleaseWriteLock(fs, path);
      CrashAfterQuiet(disk0, trace, from, LockName(path), fs.trace, path, PlainImage(c, s, file, d));
    }

    // ----------------------------------------------------------- in-memory edits

    method AddNew(title: Text, username: Text, record: ItemRecord) returns (r: Result<u32>)
      modifies this`entries, this`openItems, this`nextItemId
      ensures (State(), r) == AddItem(old(State()), title, username, record)
    {
      var itemId := nextItemId;
      if nextItemId == U32_MAX {
        return Err(Encrypt);
      }
      nextItemId := nextItemId + 1;
      if |entries| > U32_MAX {
        return Err(Encrypt);
      }
      var slot := |entries|;
      entries := entries + [IndexEntry(itemId, slot, LIVE, title, username)];
      openItems := openItems[slot := record];
      return Ok(itemId);
    }

    /** `open_item`: even a cached record must not hide a stale or corrupt file. */
    method Open(itemId: u32) returns (r: Result<()>)
      requires Valid()
      modifies this`openItems
      ensures (r == Err(Encrypt) && State() == old(State()) && (File().Some? ==> !Readable()))
              || (File().Some? && (State(), r) == OpenItem(c, old(State()), File().value, itemId))
      ensures r.Ok? ==> File().Some? && Current(c, File().value, dek, lastDiskTag)
      ensures Readable() && File().Some? && Follows(c, old(State()), dek, File().value) ==>
                (r.Ok? <==> exists e :: e in entries && e.itemId == itemId && e.state == LIVE)
    {
      ghost var s := State();
      hide AuthenticateCurrent, FramesOf, Framing, OpenSlot, Current, Follows;
      if File().Some? {
        CurrentIff(c, File().value, dek, lastDiskTag);
        if Follows(c, s, dek, File().value) {
          OpenIff(c, s, File().value, itemId);
        }
      }
      var bytes :- ReadVaultBytes();
      var auth := AuthenticateCurrent(c, bytes, dek, lastDiskTag);
      if auth.Err? {
        return Err(auth.error);
      }
      var at := LivePosition(entries, itemId);
      if at.None? {
        return Err(Encrypt);
      }
      var slot := entries[at.value].slot;
      if slot in openItems {
        return Ok(());
      }
      var frames, _ := SplitItemFrames(bytes, true, TRAILER_LEN);
      if frames.Err? {
        return Err(frames.error);
      }
      var record := OpenSlot(c, dek, header.itemAlg, header.version, frames.value, slot, itemId);
      if record.Err? {
        return Err(record.error);
      }
      openItems := openItems[slot := record.value];
      return Ok(());
    }

    // ------------------------------------------------------------------- commits

    /** `commit_entry`: replace metadata and record, save, and undo on failure. */
    method CommitEntry(itemId: u32, title: Text, username: Text, record: ItemRecord)
      returns (r: Result<()>, ghost d: Draws)
      requires Valid()
      modifies this`entries, this`openItems, this`header, this`lastDiskTag, fs, rng
      ensures Valid() && fs.locks == old(fs.locks)
      ensures EntryStep(c, old(State()), itemId, title, username, record, old(File()), State(), File(), r, d)
      ensures var i := Position(old(entries), itemId);
              i.Some? ==>
                CrashOldOrNew(old(fs.disk), fs.trace, |old(fs.trace)|, path,
                              PlainImage(c, EditedAt(old(State()), i.value, title, username, record), old(File()), d))
      ensures var i := Position(old(entries), itemId);
              i.Some? && old(Calm(|entries| + 2)) && path !in old(fs.locks) ==>
                Decided(r, SavePlan(c, EditedAt(old(State()), i.value, title, username, record), old(File())))
    {
      hide PlainSave, SavePlan, Drawn, Durable, NamesFree, Decided, CrashOldOrNew, PlainImage;
      d := NoDraws(0);
      var stored := Position(entries, itemId);
      if stored.None? {
        return Err(Encrypt), d;
      }
      var i := stored.value;
      var slot := entries[i].slot;
      var (oldTitle, oldUsername) := (entries[i].title, entries[i].username);
      var oldRecord := if slot in openItems then Some(openItems[slot]) else None;
      entries := entries[i := entries[i].(title := title, username := username)];
      openItems := openItems[slot := record];
      assert State() == EditedAt(old(State()), i, title, username, record);
      r, d := Save();
      if r.Err? {
        assert State() == EditedAt(old(State()), i, title, username, record) by {
          FailedPlainSave(c, EditedAt(old(State()), i, title, username, record), old(File()), State(), File(), r, d);
        }
        entries := entries[i := entries[i].(title := oldTitle, username := oldUsername)];
        if oldRecord.Some? {
          openItems := openItems[slot := oldRecord.value];
        }
      }
    }

    /** `commit_tombstone`: drop the record, mark the entry dead, save, and undo on failure. */
    method CommitTombstone(itemId: u32) returns (r: Result<()>, ghost d: Draws)
      requires Valid()
      modifies this`entries, this`openItems, this`header, this`lastDiskTag, fs, rng
      ensures Valid() && fs.locks == old(fs.locks)
      ensures TombstoneStep(c, old(State()), itemId, old(File()), State(), File(), r, d)
      ensures var (live, i) := (LivePosition(old(entries), itemId), Position(old(entries), itemId));
              live.Some? && i.Some? ==>
                var s1 := TombstonedAt(old(State()), i.value, old(entries)[live.value].slot);
                CrashOldOrNew(old(fs.disk), fs.trace, |old(fs.trace)|, path, PlainImage(c, s1, old(File()), d))
      ensures var (live, i) := (LivePosition(old(entries), itemId), Position(old(entries), itemId));
              live.Some? && i.Some? && old(Calm(|entries| + 2)) && path !in old(fs.locks) ==>
                Decided(r, SavePlan(c, TombstonedAt(old(State()), i.value, old(entries)[live.value].slot), old(File())))
    {
      hide PlainSave, SavePlan, Drawn, Durable, NamesFree, Decided, CrashOldOrNew, PlainImage;
      d := NoDraws(0);
      var live := LivePosition(entries, itemId);
      if live.None? {
        return Err(Encrypt), d;
      }
      var slot := entries[live.value].slot;
      var stored := Position(entries, itemId);
      if stored.None? {
        return Err(Encrypt), d;
      }
      var i := stored.value;
      var cached := if slot in openItems then Some(openItems[slot]) else None;
      openItems := openItems - {slot};
      var oldState := entries[i].state;
      entries := entries[i := entries[i].(state := TOMBSTONE)];
      assert State() == TombstonedAt(old(State()), i, slot);
      r, d := Save();
      if r.Err? {
        assert State() == TombstonedAt(old(State()), i, slot) by {
          FailedPlainSave(c, TombstonedAt(old(State()), i, slot), old(File()), State(), File(), r, d);
        }
        entries := entries[i := entries[i].(state := oldState)];
        if cached.Some? {
          openItems := openItems[slot := cached.value];
        }
      }
    }

    /** `commit_import`: all adds and updates in memory, then a single save. */
    method CommitImport(adds: seq<NewItem>, updates: seq<(u32, ItemRecord)>) returns (r: Result<()>, ghost d: Draws)
      requires Valid()
      modifies this`entries, this`openItems, this`nextItemId, this`header, this`lastDiskTag, fs, rng
      ensures Valid() && fs.locks == old(fs.locks)
      ensures ImportStep(c, old(State()), adds, updates, old(File()), State(), File(), r, d)
      ensures var (s1, added) := AddAll(old(State()), adds);
              added.Ok? ==>
                CrashOldOrNew(old(fs.disk), fs.trace, |old(fs.trace)|, path,
                              PlainImage(c, s1.(cache := PutAll(s1.cache, updates)), old(File()), d))
      ensures var (s1, added) := AddAll(old(State()), adds);
              && (added.Err? ==> r == added)
              && (added.Ok? && old(Calm(|entries| + |adds| + 2)) && path !in old(fs.locks) ==>
                   Decided(r, SavePlan(c, s1.(cache := PutAll(s1.cache, updates)), old(File()))))
    {
      hide PlainSave, AddItem, SavePlan, Drawn, Durable, NamesFree, Decided, CrashOldOrNew, PlainImage;
      d := NoDraws(0);
      NothingAdded(State(), adds);
      for i := 0 to |adds|
        invariant (State(), Ok(())) == AddAll(old(State()), adds[..i])
        modifies this`entries, this`openItems, this`nextItemId
      {
        AddAllStep(old(State()), adds, i);
        var added := AddNew(adds[i].title, adds[i].username, adds[i].record);
        if added.Err? {
          AddAllStops(old(State()), adds, i + 1);
          return Err(added.error), d;
        }
      }
      assert adds[..|adds|] == adds;
      AddAllCounts(old(State()), adds);
      ghost var s1 := State();
      for i := 0 to |updates|
        invariant State() == s1.(cache := PutAll(s1.cache, updates[..i]))
        modifies this`openItems
      {
        assert updates[..i + 1][..i] == updates[..i];
        openItems := openItems[updates[i].0 := updates[i].1];
      }
      assert updates[..|updates|] == updates;
      r, d := Save();
    }

    // -------------------------------------------------------------- whole file

    /** The reading half of `verify_all_items`: opens every frame, keeping no plaintext. */
    method OpenAll() returns (r: Result<()>)
      requires Valid()
      ensures r.Ok? ==> File().Some? && FileVerifies(c, State(), File().value)
      ensures Readable() && File().Some? && FileVerifies(c, State(), File().value) ==> r.Ok?
      ensures r.Ok? ==> File().Some? && Current(c, File().value, dek, lastDiskTag)
      ensures r.Ok? ==> EachOpens(c, State(), FramesIn(File().value))
    {
      hide AuthenticateCurrent, EveryFrameOpens, Framing, FramesOf, Current, EachOpens;
      var bytes := ReadVaultBytes();
      if bytes.Err? {
        return Err(bytes.error);
      }
      CurrentIff(c, bytes.value, dek, lastDiskTag);
      var auth := AuthenticateCurrent(c, bytes.value, dek, lastDiskTag);
      if auth.Err? {
        return Err(auth.error);
      }
      var frames, _ := SplitItemFrames(bytes.value, true, TRAILER_LEN);
      if frames.Err? {
        return Err(frames.error);
      }
      if |frames.value| != |entries| {
        FramesMatchEntries(c, dek, header.itemAlg, header.version, entries, frames.value);
        return Err(Encrypt);
      }
      var records := OpenEvery(c, dek, header.itemAlg, header.version, entries, frames.value);
      if records.Err? {
        return Err(records.error);
      }
      AllEachOpen(c, State(), frames.value);
      return Ok(());
    }

    /**
     `verify_all_items`: opens every frame and counts live and dead entries. Unless the file
     cannot be read, it succeeds exactly when the file verifies.
     */
    method VerifyAllItems() returns (r: Result<(nat, nat)>)
      requires Valid()
      ensures r.Ok? ==> File().Some? && FileVerifies(c, State(), File().value)
      ensures Readable() && File().Some? && FileVerifies(c, State(), File().value) ==> r.Ok?
      ensures r.Ok? ==> r.value.0 == |set i: nat | i < |entries| && entries[i].state == LIVE|
      ensures r.Ok? ==> r.value.0 + r.value.1 == |entries|
      ensures r.Ok? ==> File().Some? && Current(c, File().value, dek, lastDiskTag)
      ensures r.Ok? ==> EachOpens(c, State(), FramesIn(File().value))
      ensures Readable() && File().Some? && Follows(c, State(), dek, File().value) ==>
                (r.Ok? <==> |entries| == |IndexOf(c, File().value, dek, header.itemAlg)|)
    {
      hide FileVerifies, Current, Follows, IndexOf, EachOpens, FramesIn;
      if File().Some? && Follows(c, State(), dek, File().value) {
        VerifiesIff(c, State(), File().value);
      }
      var verified := OpenAll();
      if verified.Err? {
        return Err(verified.error);
      }
      var live := 0;
      for i := 0 to |entries|
        invariant live == CountLive(entries[..i]) <= i
      {
        assert entries[..i + 1][..i] == entries[..i];
        if entries[i].state == LIVE {
          live := live + 1;
        }
      }
      assert entries[..|entries|] == entries;
      CountLiveIs(entries);
      return Ok((live, |entries| - live));
    }

    /** `snapshot` and the records of all live entries, decrypted from that one image. */
    method LiveFromSnapshot() returns (r: Result<map<u32, ItemRecord>>)
      requires Valid()
      ensures r.Ok? ==> File().Some? && r == Snapshot(c, State(), File().value)
      ensures r.Err? ==> r == Err(Encrypt) || (File().Some? && r == Snapshot(c, State(), File().value))
      ensures Readable() && File().Some? ==> r == Snapshot(c, State(), File().value)
    {
      hide AuthenticateCurrent, Framing, FramesOf, OpenSlot, LiveRecords;
      var bytes :- ReadVaultBytes();
      var auth := AuthenticateCurrent(c, bytes, dek, lastDiskTag);
      if auth.Err? {
        return Err(auth.error);
      }
      var frames, _ := SplitItemFrames(bytes, true, TRAILER_LEN);
      if frames.Err? {
        return Err(frames.error);
      }
      if |frames.value| != |entries| {
        return Err(Encrypt);
      }
      r := LiveLoop(c, State(), frames.value, entries);
    }

    /**
     `rotate`: new salt, wrapping key and data key in one commit. On failure both keys
     and the configuration are as before; records decrypted on the way stay cached.
     */
    method Rotate(password: Bytes, params: KdfParams, salt: Salt, newDek: Key) returns (r: Result<()>, ghost d: Draws)
      requires Valid()
      modifies this`entries, this`openItems, this`header, this`lastDiskTag, this`kek, this`dek, fs, rng
      ensures Valid() && fs.locks == old(fs.locks)
      ensures r.Ok? ==> old(File()).Some? && c.kdf(params, salt, password).Ok?
      ensures (r.Err? && State() == old(State()) && File() == old(File()))
              || (old(File()).Some? && exists newKek ::
                    (c.kdf(params, salt, password) == Ok(newKek) || (r.Err? && File() == old(File())))
                    && RotateStep(c, old(State()), newKek, newDek, params, salt, old(File()).value, old(File()),
                                  State(), File(), r, d))
      ensures old(Calm(|entries| + 3)) && path !in old(fs.locks) ==>
                Decided(r, RotatePlan(c, old(State()), password, params, salt, newDek, old(File())))
      ensures var (s, file) := (old(State()), old(File()));
              old(Calm(|entries| + 3)) && path !in old(fs.locks) && file.Some? && Follows(c, s, s.dek, file.value) ==>
                (r.Ok? <==> c.kdf(params, salt, password).Ok? && HasRoomToRotate(c, s, file.value))
    {
      hide SaveStep, Snapshot, Preflight, NamesFree, Follows, HasRoomToRotate;
      d := NoDraws(0);
      ghost var s, file := State(), File();
      if file.Some? && Follows(c, s, s.dek, file.value) {
        RotateIff(c, s, file.value, password, params, salt, newDek);
      }
      var live := LiveFromSnapshot();
      if live.Err? {
        return Err(live.error), d;
      }
      openItems := openItems + live.value;
      var newKek := c.kdf(params, salt, password);
      if newKek.Err? {
        assert RotateStep(c, s, kek, newDek, params, salt, file.value, file, State(), File(), Err(newKek.error), d);
        return Err(newKek.error), d;
      }
      var nonce := rng.Draw(NONCE_LEN);
      if nonce.Err? {
        assert RotateStep(c, s, newKek.value, newDek, params, salt, file.value, file, State(), File(),
                          Err(nonce.error), d);
        return Err(nonce.error), d;
      }
      TaggedBySnapshot(c, s, file.value);
      r, d := SaveRekeyed(newKek.value, newDek, params, salt);
      assert RotateStep(c, s, newKek.value, newDek, params, salt, file.value, file, State(), File(), r, d);
    }

    /** The part of a rotation that swaps both keys, saves, and swaps them back if the save fails. */
    method SaveRekeyed(newKek: Key, newDek: Key, params: KdfParams, salt: Salt) returns (r: Result<()>, ghost d: Draws)
      requires Valid()
      modifies this`entries, this`openItems, this`header, this`lastDiskTag, this`kek, this`dek, fs, rng
      ensures Valid() && fs.locks == old(fs.locks)
      ensures var (s, h) := (old(State()),
                             FreshHeader(old(header).version, old(header).wrapAlg, old(header).itemAlg, params, salt));
              var s2 := Rekeyed(s, newKek, newDek, params, salt);
              && (if r.Ok? then SaveStep(c, s2, h, s.dek, old(File()), State(), File(), r, d)
                  else State() == s && (File() == old(File())
                                        || SaveStep(c, s2, h, s.dek, old(File()), s2, File(), r, d)))
              && (old(Calm(|entries| + 2)) && path !in old(fs.locks) && s.tag.Some? ==>
                   Decided(r, Preflight(c, s2, h, s.dek, BytesOf(old(File())))))
    {
      hide SaveStep, Durable, AadBytes, Preflight, Drawn, NamesFree;
      ghost var s, file := State(), File();
      ghost var s2 := Rekeyed(s, newKek, newDek, params, salt);
      var h := FreshHeader(header.version, header.wrapAlg, header.itemAlg, params, salt);
      var (oldKek, oldDek, oldConfig) := (kek, dek, header);
      kek := newKek;
      dek := newDek;
      header := header.(params := params, salt := salt, encCounter := 0);
      ghost var sealed;
      r, d, sealed := SaveWithHeader(h, oldDek);
      if r.Err? {
        if State() != s2 || File() != file {
          FailedSaveKeepsSession(c, s2, h, oldDek, file, State(), File(), r, d);
        }
        kek, dek, header := oldKek, oldDek, oldConfig;
      }
    }

    /** `change_password`: a new salt and wrapping key; the data key and the frames stay. */
    method ChangePassword(newPassword: Bytes, params: KdfParams, salt: Salt) returns (r: Result<()>, ghost d: Draws)
      requires Valid()
      modifies this`entries, this`openItems, this`header, this`lastDiskTag, this`kek, fs, rng
      ensures Valid() && fs.locks == old(fs.locks)
      ensures r.Ok? ==> c.kdf(params, salt, newPassword) == Ok(kek)
      ensures exists newKek ::
                && (r.Ok? ==> newKek == kek)
                && (c.kdf(params, salt, newPassword) == Ok(newKek) || (r.Err? && File() == old(File())))
                && PasswordStep(c, old(State()), newKek, params, salt, old(File()), State(), File(), r, d)
      ensures old(Calm(|entries| + 3)) && path !in old(fs.locks) ==>
                match c.kdf(params, salt, newPassword)
                case Err(e) => r == Err(e)
                case Ok(newKek) => Decided(r, PasswordPlan(c, old(State()), newKek, params, salt, old(File())))
      ensures var (s, file) := (old(State()), old(File()));
              old(Calm(|entries| + 3)) && path !in old(fs.locks) && file.Some? && Follows(c, s, s.dek, file.value) ==>
                (r.Ok? <==> c.kdf(params, salt, newPassword).Ok? && HasRoom(s, file.value))
    {
      hide SaveStep, ParseHeaderVersion, PasswordPlan, NamesFree, Follows, HasRoom;
      d := NoDraws(0);
      ghost var s, file := State(), File();
      if file.Some? && Follows(c, s, s.dek, file.value) && c.kdf(params, salt, newPassword).Ok? {
        PasswordIff(c, s, file.value, c.kdf(params, salt, newPassword).value, params, salt);
      }
      var lock := AcquireWriteLock(fs, path);
      if lock.Err? {
        assert PasswordStep(c, s, kek, params, salt, file, State(), File(), Err(lock.error), d);
        return Err(lock.error), d;
      }
      var newKek := c.kdf(params, salt, newPassword);
      if newKek.Err? {
        ReleaseWriteLock(fs, path);
        assert PasswordStep(c, s, kek, params, salt, file, State(), File(), Err(newKek.error), d);
        return Err(newKek.error), d;
      }
      r, d := SaveUnder(newKek.value, params, salt);
      ReleaseWriteLock(fs, path);
      assert PasswordStep(c, s, newKek.value, params, salt, file, State(), File(), r, d);
    }

    /** The part of a password change that runs under the lock with the new key at hand. */
    method SaveUnder(newKek: Key, params: KdfParams, salt: Salt) returns (r: Result<()>, ghost d: Draws)
      requires Valid()
      modifies this`entries, this`openItems, this`header, this`lastDiskTag, this`kek, fs`disk, fs`trace, rng
      ensures Valid()
      ensures r.Ok? ==> kek == newKek
      ensures PasswordStep(c, old(State()), newKek, params, salt, old(File()), State(), File(), r, d)
      ensures old(Calm(|entries| + 3)) ==> Decided(r, PasswordPlan(c, old(State()), newKek, params, salt, old(File())))
    {
      hide SaveStep, ParseHeaderVersion, Preflight, Drawn, NamesFree, Durable;
      d := NoDraws(0);
      ghost var s, file := State(), File();
      var bytes := ReadVaultBytes();
      if bytes.Err? {
        return Err(bytes.error), d;
      }
      var parsed := ParseHeader(bytes.value);
      if parsed.Err? {
        return Err(parsed.error), d;
      }
      var h := PasswordHeader(parsed.value, params, salt);
      var nonce := rng.Draw(NONCE_LEN);
      if nonce.Err? {
        return Err(nonce.error), d;
      }
      var oldKek := kek;
      kek := newKek;
      var oldConfig := header;
      header := header.(params := params, salt := salt);
      ghost var s1 := State();
      ghost var sealed;
      TaggedIfPlanned(c, s1, h, dek, bytes.value);
      r, d, sealed := SaveWithHeaderLocked(h, dek);
      if r.Err? {
        FailedSaveKeepsSession(c, s1, h, s.dek, file, State(), File(), r, d);
        kek := oldKek;
        header := oldConfig;
      } else {
        KeysAfterSave(c, s1, h, s.dek, file, State(), File(), r, d);
      }
    }
  }

  /** The outcome is the one the plan announces: success, or the same error. */
  ghost predicate Decided(r: Result<()>, plan: Result<Plan>) {
    match plan
    case Ok(_) => r.Ok?
    case Err(e) => r == Err(e)
  }

  lemma TaggedIfPlanned(c: Suite, s: Session, header: ParsedHeader, diskDek: Key, disk: Bytes)
    requires ParseHeader(disk).Ok?
    ensures Preflight(c, s, header, diskDek, disk).Ok? ==> s.tag.Some?
  {
    hide Preflight;
    if Preflight(c, s, header, diskDek, disk).Ok? {
      PreflightKnowsTag(c, s, header, diskDek, disk);
    }
  }

  lemma NothingSaved(c: Suite, s: Session, disk: Option<Bytes>, error: Error, d: Draws)
    requires Lawful(c)
    ensures PlainSave(c, s, disk, s, disk, Err(error), d)
  {
  }

  lemma TaggedBySnapshot(c: Suite, s: Session, raw: Bytes)
    ensures Snapshot(c, s, raw).Ok? ==> s.tag.Some?
  {
    hide LiveRecords, FramesOf;
  }

  lemma EnoughForFresh(cache: map<u32, ItemRecord>, es: seq<IndexEntry>)
    ensures FreshCount(cache, es) <= |es|
  {
    FreshCountGrows(cache, es, 0, |es|);
    assert es[..|es|] == es && es[..0] == [];
  }

  lemma FramesMatchEntries(c: Suite, dek: Key, alg: Algorithm, version: byte, es: seq<IndexEntry>, frames: seq<Bytes>)
    ensures EveryFrameOpens(c, dek, alg, version, es, frames) ==> |frames| == |es|
  {
  }

  lemma FailedPlainSave(c: Suite, s: Session, disk: Option<Bytes>, s': Session, disk': Option<Bytes>, r: Result<()>,
                        d: Draws)
    requires Lawful(c) && PlainSave(c, s, disk, s', disk', r, d) && r.Err?
    ensures s' == s
  {
    hide Preflight, Committed, ImageOf, Fitting;
  }

  lemma FailedSaveKeepsSession(c: Suite, s: Session, header: ParsedHeader, diskDek: Key, disk: Option<Bytes>,
                               s': Session, disk': Option<Bytes>, r: Result<()>, d: Draws)
    requires Lawful(c) && SaveStep(c, s, header, diskDek, disk, s', disk', r, d) && r.Err?
    ensures s' == s
  {
    hide Preflight, Committed, ImageOf, Fitting;
  }

  lemma KeysAfterSave(c: Suite, s: Session, header: ParsedHeader, diskDek: Key, disk: Option<Bytes>,
                      s': Session, disk': Option<Bytes>, r: Result<()>, d: Draws)
    requires Lawful(c) && SaveStep(c, s, header, diskDek, disk, s', disk', r, d)
    ensures s'.kek == s.kek && s'.dek == s.dek
  {
    hide Preflight, ImageOf, Fitting, Remap;
  }

  lemma NothingAdded(s: Session, adds: seq<NewItem>)
    ensures AddAll(s, adds[..0]) == (s, Ok(()))
  {
  }

  lemma AddAllStep(s: Session, adds: seq<NewItem>, i: nat)
    requires i < |adds| && AddAll(s, adds[..i]).1.Ok?
    ensures var (s1, r1) := AddItem(AddAll(s, adds[..i]).0, adds[i].title, adds[i].username, adds[i].record);
            AddAll(s, adds[..i + 1]) == (s1, if r1.Ok? then Ok(()) else Err(r1.error))
  {
    assert adds[..i + 1][..i] == adds[..i];
  }

  lemma {:induction false} AddAllCounts(s: Session, adds: seq<NewItem>)
    ensures AddAll(s, adds).1.Ok? ==> |AddAll(s, adds).0.entries| == |s.entries| + |adds|
  {
    if adds != [] {
      AddAllCounts(s, adds[..|adds| - 1]);
    }
  }

  /** Once an add failed the later ones are not tried. */
  lemma {:induction false} AddAllStops(s: Session, adds: seq<NewItem>, i: nat)
    requires i <= |adds| && AddAll(s, adds[..i]).1.Err?
    ensures AddAll(s, adds) == AddAll(s, adds[..i])
    decreases |adds|
  {
    hide AddItem;
    if i == |adds| {
      assert adds[..i] == adds;
    } else {
      assert adds[..|adds| - 1][..i] == adds[..i];
      AddAllStops(s, adds[..|adds| - 1], i);
    }
  }
}
