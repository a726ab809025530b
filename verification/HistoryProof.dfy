/** Every step keeps the invariant of `History`. */
module HistoryProof {
  import opened Prelude
  import opened Crypto
  import opened Header
  import opened Shape
  import opened Frames
  import opened Image
  import opened SaveProof
  import opened Steps
  import opened Preservation
  import opened Failures
  import opened History
  import opened Records

  // ----------------------------------------------------------- in-memory edits

  lemma EditedOk(s: Session, i: nat, title: Text, username: Text, record: ItemRecord, n0: nat)
    requires SessionOk(s, n0) && i < |s.entries|
    ensures SessionOk(EditedAt(s, i, title, username, record), n0)
    ensures Continues(s.entries, EditedAt(s, i, title, username, record).entries)
  {
    var t := EditedAt(s, i, title, username, record);
    forall e | e in t.entries
      ensures e.itemId < t.nextId
    {
      var k :| 0 <= k < |t.entries| && t.entries[k] == e;
      assert s.entries[k] in s.entries;
    }
  }

  lemma TombstonedOk(s: Session, i: nat, slot: u32, n0: nat)
    requires SessionOk(s, n0) && i < |s.entries|
    ensures SessionOk(TombstonedAt(s, i, slot), n0)
    ensures Continues(s.entries, TombstonedAt(s, i, slot).entries)
  {
    var t := TombstonedAt(s, i, slot);
    forall e | e in t.entries
      ensures e.itemId < t.nextId
    {
      var k :| 0 <= k < |t.entries| && t.entries[k] == e;
      assert s.entries[k] in s.entries;
    }
  }

  lemma AddedOk(s: Session, title: Text, username: Text, record: ItemRecord, n0: nat)
    requires SessionOk(s, n0)
    ensures var t := AddItem(s, title, username, record).0;
            && SessionOk(t, n0) && Grows(s, t)
            && t.tag == s.tag && t.dek == s.dek && t.config == s.config && t.kek == s.kek
  {
    var t := AddItem(s, title, username, record).0;
    if t.entries != s.entries {
      forall i, j | 0 <= i < j < |t.entries|
        ensures if n0 <= j then t.entries[i].itemId < t.entries[j].itemId
                else t.entries[i].itemId != t.entries[j].itemId
      {
        if j == |s.entries| {
          assert s.entries[i] in s.entries;
        }
      }
    }
  }

  lemma {:induction false} AllAddedOk(s: Session, adds: seq<NewItem>, n0: nat)
    requires SessionOk(s, n0)
    ensures var t := AddAll(s, adds).0;
            && SessionOk(t, n0) && Grows(s, t)
            && t.tag == s.tag && t.dek == s.dek && t.config == s.config && t.kek == s.kek
  {
    hide SessionOk, AddItem, Grows;
    if adds != [] {
      AllAddedOk(s, adds[..|adds| - 1], n0);
      var s1 := AddAll(s, adds[..|adds| - 1]).0;
      var last := adds[|adds| - 1];
      AddedOk(s1, last.title, last.username, last.record, n0);
      GrowsOn(s, s1, AddAll(s, adds).0);
    } else {
      GrowsNot(s);
    }
  }

  lemma GrowsOn(s: Session, t: Session, u: Session)
    requires Grows(s, t) && Grows(t, u)
    ensures Grows(s, u)
  {
  }

  lemma GrowsNot(s: Session)
    ensures Grows(s, s)
  {
  }

  lemma {:induction false} PutAllKeeps(cache: map<u32, ItemRecord>, updates: seq<(u32, ItemRecord)>)
    ensures forall slot :: slot in cache ==> slot in PutAll(cache, updates)
  {
    if updates != [] {
      PutAllKeeps(cache, updates[..|updates| - 1]);
    }
  }

  lemma PrefixContinues(a: seq<IndexEntry>, b: seq<IndexEntry>)
    requires a <= b
    ensures Continues(a, b)
  {
  }

  lemma {:induction false} PutAllKeys(cache: map<u32, ItemRecord>, updates: seq<(u32, ItemRecord)>, n: nat)
    requires forall slot :: slot in cache ==> slot < n
    requires forall k :: 0 <= k < |updates| ==> updates[k].0 < n
    ensures forall slot :: slot in PutAll(cache, updates) ==> slot < n
  {
    if updates != [] {
      PutAllKeys(cache, updates[..|updates| - 1], n);
    }
  }

  lemma {:induction false} LiveRecordsKeys(c: Suite, s: Session, frames: seq<Bytes>, es: seq<IndexEntry>, n: nat)
    requires LiveRecords(c, s, frames, es).Ok? && forall e :: e in es ==> e.slot < n
    ensures forall slot :: slot in LiveRecords(c, s, frames, es).value ==> slot < n
  {
    hide OpenSlot;
    if es != [] {
      LiveRecordsKeys(c, s, frames, es[..|es| - 1], n);
    }
  }

  /** After a snapshot every live entry is cached, and only entries are. */
  lemma SnapshotCovers(c: Suite, s: Session, snap: Bytes, n0: nat)
    requires Snapshot(c, s, snap).Ok? && SessionOk(s, n0)
    ensures forall slot :: slot in Snapshot(c, s, snap).value ==> slot < |s.entries|
    ensures forall i :: 0 <= i < |s.entries| && s.entries[i].state == LIVE ==>
              s.entries[i].slot in Snapshot(c, s, snap).value
  {
    hide LiveRecords, FramesOf, AuthenticateCurrent;
    var frames := FramesOf(snap, true, TRAILER_LEN).value;
    LiveRecordsKeys(c, s, frames, s.entries, |s.entries|);
    forall i | 0 <= i < |s.entries| && s.entries[i].state == LIVE
      ensures s.entries[i].slot in Snapshot(c, s, snap).value
    {
      LiveRecordsHold(c, s, frames, s.entries, i);
    }
  }

  /** Whatever an operation tries to save is sound and continues what the session had. */
  lemma CandidateOk(c: Suite, ks: seq<Commit>, s: Session, op: Op, n0: nat)
    requires SessionOk(s, n0) && OpOk(c, ks, s, op)
    ensures SessionOk(Candidate(s, op), n0) && Continues(s.entries, Candidate(s, op).entries)
    ensures Candidate(s, op).tag == s.tag && Candidate(s, op).config.itemAlg == s.config.itemAlg
    ensures !Rekeys(op) ==> Candidate(s, op).dek == s.dek
  {
    hide Snapshot, AddAll, PutAll;
    match op
    case Edit(at, title, username, record) => EditedOk(s, at, title, username, record, n0);
    case Delete(id) => TombstonedOk(s, Position(s.entries, id).value,
                                    s.entries[LivePosition(s.entries, id).value].slot, n0);
    case Import(adds, updates) =>
      AllAddedOk(s, adds, n0);
      PutAllKeys(AddAll(s, adds).0.cache, updates, |AddAll(s, adds).0.entries|);
      PrefixContinues(s.entries, AddAll(s, adds).0.entries);
    case Rotate(_, _, _, _, live) =>
      var k :| 0 <= k < |ks| && Snapshot(c, s, ks[k].bytes) == Ok(live);
      SnapshotCovers(c, s, ks[k].bytes, n0);
    case _ =>
  }

  lemma FallbackOk(c: Suite, ks: seq<Commit>, s: Session, op: Op, n0: nat)
    requires SessionOk(s, n0) && OpOk(c, ks, s, op)
    ensures var t := Fallback(s, op);
            && SessionOk(t, n0) && Grows(s, t)
            && t.tag == s.tag && t.dek == s.dek && t.config.itemAlg == s.config.itemAlg
  {
    hide Snapshot, AddAll, PutAll;
    match op
    case Import(adds, updates) =>
      AllAddedOk(s, adds, n0);
      PutAllKeys(AddAll(s, adds).0.cache, updates, |AddAll(s, adds).0.entries|);
      PutAllKeeps(AddAll(s, adds).0.cache, updates);
    case Rotate(_, _, _, _, live) =>
      var k :| 0 <= k < |ks| && Snapshot(c, s, ks[k].bytes) == Ok(live);
      SnapshotCovers(c, s, ks[k].bytes, n0);
    case _ =>
  }

  lemma ContinuesOn(a: seq<IndexEntry>, b: seq<IndexEntry>, d: seq<IndexEntry>)
    requires Continues(a, b) && Continues(b, d)
    ensures Continues(a, d)
  {
  }

  /** Opening an item only fills the cache. */
  lemma ReadOk(c: Suite, s: Session, raw: Bytes, id: u32, n0: nat)
    requires SessionOk(s, n0)
    ensures var t := OpenItem(c, s, raw, id).0;
            && SessionOk(t, n0) && t == s.(cache := t.cache) && Grows(s, t)
  {
    hide AuthenticateCurrent, FramesOf, OpenSlot;
  }

  // --------------------------------------------------------------- what is written

  lemma DenseIsItsOwnRenumbering(es: seq<IndexEntry>, n0: nat)
    requires DenseOk(es, n0) && |es| <= U32_MAX
    ensures Renumber(es) == es && NormAll(es) == es
  {
  }

  lemma DenseSlots(es: seq<IndexEntry>, n0: nat)
    requires DenseOk(es, n0)
    ensures SlotsDistinct(es) && StatesKnown(es)
  {
  }

  /** The commit that a published image is. */
  ghost function ImageCommit(c: Suite, s: Session, header: ParsedHeader, p: Plan, d: Draws, sealed: nat,
                             rekeyed: bool): Commit
    requires Lawful(c) && Fitting(p, d) && |s.entries| <= U32_MAX
  {
    Commit(ImageOf(c, s, header, p, d), s.kek, s.dek, p.itemAlg, NormAll(p.entries), p.counter, sealed, rekeyed,
           Remap(s.cache, s.entries))
  }

  /** A published image decodes to the entries it was written for, and carries their records. */
  lemma ImageDecodes(c: Suite, s: Session, header: ParsedHeader, diskDek: Key, disk: Bytes, p: Plan, d: Draws,
                     last: Option<Commit>, sealed: nat, rekeyed: bool)
    requires Lawful(c) && Preflight(c, s, header, diskDek, disk) == Ok(p) && Fitting(p, d)
    requires header.version == CURRENT_VERSION && header.pad == ZERO_PAD && SlotsDistinct(s.entries)
             && StatesKnown(s.entries)
    requires BuildsOn(c, s, header, diskDek, disk, last)
    ensures |s.entries| <= U32_MAX
    ensures var k := ImageCommit(c, s, header, p, d, sealed, rekeyed);
            && Decodes(c, k) && k.entries == NormAll(Renumber(s.entries)) && Carries(c, OldItems(c, disk, diskDek), k)
            && |k.bytes| >= MAC_LEN && FileTag(k.bytes) == TagOf(c, s, header, p, d)
            && k.counter == header.encCounter + FreshCount(s.cache, s.entries) + 1 <= ROTATION_LIMIT
  {
    hide Preflight, ParseHeaderVersion, ReadIndex, Saved, ImageOf, TagOf, FreshCount, ParseIndex, SerializeIndex,
         AadBytes, FramesOpen, BuildsOn, Meaning, RecordsIn, FinalHeader, OldItems, Remap, Authenticate;
    PlanShape(c, s, header, diskDek, disk, p);
    var img := ImageOf(c, s, header, p, d);
    ImageIsSaved(c, s, header, p, d);
    SavedHeader(c, img, s, header, p, d);
    SavedIndex(c, img, s, header, p, d);
    IndexRoundTrip(p.indexPt, p.entries);
    SavedAuthenticates(c, img, s, header, p, d);
    WrappedKeyOpens(c, s, header, p, d);
    FinalHeaderKeeps(c, s, header, p, d);
    ImageTag(c, s, header, p, d);
    ImageOpens(c, s, header, diskDek, disk, p, d, last, ImageCommit(c, s, header, p, d, sealed, rekeyed));
    SameMeaning(s.cache, s.entries, OldItems(c, disk, diskDek));
  }

  lemma FinalHeaderKeeps(c: Suite, s: Session, header: ParsedHeader, p: Plan, d: Draws)
    requires Lawful(c)
    ensures var h := FinalHeader(c, s, header, p, d);
            h.encCounter == p.counter && h.itemAlgId == header.itemAlgId && h.wrapAlgId == header.wrapAlgId
  {
    hide AadBytes;
  }

  lemma ImageTag(c: Suite, s: Session, header: ParsedHeader, p: Plan, d: Draws)
    requires Lawful(c) && Fitting(p, d)
    ensures var img := ImageOf(c, s, header, p, d);
            |img| >= MAC_LEN && FileTag(img) == TagOf(c, s, header, p, d)
  {
    hide Tagged, TagOf;
  }

  // ------------------------------------------------------------ a published save

  /** What `SaveOutcome` says of a save that published. */
  lemma OutcomePublished(c: Suite, m: Member, disk': Option<Bytes>, s': Session, r: Result<()>, d: Draws)
    requires Lawful(c) && m.pc.Saving? && SaveOutcome(c, m, disk', s', r, d)
    requires r.Ok? || disk' != m.pc.read
    ensures HeaderFor(m.s, m.pc.op, BytesOf(m.pc.read)).Ok?
    ensures var (s1, header) := (Candidate(m.s, m.pc.op), HeaderFor(m.s, m.pc.op, BytesOf(m.pc.read)).value);
            var pre := Preflight(c, s1, header, m.s.dek, BytesOf(m.pc.read));
            && pre.Ok? && Fitting(pre.value, d) && disk' == NewImage(c, s1, header, pre.value, d)
            && |s1.entries| <= U32_MAX
            && (r.Ok? ==> s' == Committed(s1, pre.value, TagOf(c, s1, header, pre.value, d)))
  {
    hide Preflight, Candidate, Committed, ImageOf, TagOf, Fitting, HeaderFor;
    var (s1, header) := (Candidate(m.s, m.pc.op), HeaderFor(m.s, m.pc.op, BytesOf(m.pc.read)).value);
    PlanShape(c, s1, header, m.s.dek, BytesOf(m.pc.read), Preflight(c, s1, header, m.s.dek, BytesOf(m.pc.read)).value);
  }

  lemma CommitBytes(c: Suite, m: Member, disk': Option<Bytes>)
    requires m.pc.Saving?
    ensures CommitOf(c, m, disk').bytes == BytesOf(disk')
  {
    hide Preflight, HeaderFor, Candidate, FreshCount, Remap;
  }

  /** The header a save starts from: current, and counting on from the file unless the key is new. */
  lemma HeaderStart(s: Session, op: Op, disk: Bytes)
    requires HeaderFor(s, op, disk).Ok? && s.config.version == CURRENT_VERSION
    ensures var h := HeaderFor(s, op, disk).value;
            && h.version == CURRENT_VERSION && h.pad == ZERO_PAD
            && if Rekeys(op) then h.encCounter == 0 && AlgorithmFromId(h.itemAlgId) == Ok(s.config.itemAlg)
               else ParseHeader(disk).Ok? && h.encCounter == ParseHeader(disk).value.encCounter
                    && h.itemAlgId == ParseHeader(disk).value.itemAlgId
  {
    if ParseHeader(disk).Ok? {
      VersionIsCurrent(disk);
    }
  }

  /** The commit a save adds, and whom it replaces. */
  ghost predicate GoodSuccessor(c: Suite, w: World, m: Member, k: Commit, n0: nat)
    requires m.pc.Saving?
  {
    && CommitOk(c, k, n0) && |k.bytes| >= MAC_LEN
    && k.entries == Candidate(m.s, m.pc.op).entries
    && k.dek == Candidate(m.s, m.pc.op).dek && k.alg == m.s.config.itemAlg
    && k.counter == Ledger(w.committed + [k]) <= ROTATION_LIMIT
    && m.seen == (if w.committed == [] then None else Some(|w.committed| - 1))
    && (w.committed != [] ==> Continues(w.committed[|w.committed| - 1].entries, k.entries))
    && Carries(c, ItemsBefore(c, w.committed, |w.committed|), k)
  }

  lemma LastCommit(c: Suite, w: World, n0: nat)
    requires Inv(c, w, n0)
    ensures if w.committed == [] then w.disk.None?
            else w.disk == Some(w.committed[|w.committed| - 1].bytes)
                 && |w.committed[|w.committed| - 1].bytes| >= HEADER_LEN
                 && CommitOk(c, w.committed[|w.committed| - 1], n0)
  {
    hide DenseOk, Continues, Ledger, MemberOk, ReadIndex, AadBytes;
    if w.committed != [] {
      assert CommitAt(c, w.committed, |w.committed| - 1, n0);
      DecodedLength(c, w.committed[|w.committed| - 1]);
    }
  }

  /** The lock holder saw the file it replaces: the one last committed. */
  lemma HolderIsCurrent(c: Suite, w: World, m: Member, n0: nat)
    requires Inv(c, w, n0) && NoTagCollision(w.committed) && MemberOk(c, w, m, n0)
    requires if BytesOf(w.disk) == [] then m.s.tag.None?
             else |BytesOf(w.disk)| >= MAC_LEN && m.s.tag == Some(FileTag(BytesOf(w.disk)))
    ensures m.seen == if w.committed == [] then None else Some(|w.committed| - 1)
  {
    hide SessionOk, HistoryOk, CommitOk, Continues, OpOk, FileTag, Inv;
    LastCommit(c, w, n0);
  }

  lemma LedgerPush(ks: seq<Commit>, k: Commit)
    ensures Ledger(ks + [k]) == k.sealed + if k.rekeyed then 0 else Ledger(ks)
  {
    assert (ks + [k])[..|ks|] == ks;
  }

  lemma SavingMember(c: Suite, w: World, m: Member, n0: nat)
    requires MemberOk(c, w, m, n0) && m.pc.Saving?
    ensures m.pc.read == w.disk && SessionOk(m.s, n0) && OpOk(c, w.committed, m.s, m.pc.op)
    ensures m.s.config.version == CURRENT_VERSION
  {
    hide OpOk, FileTag, Continues;
  }

  lemma SeenContinues(c: Suite, w: World, m: Member, n0: nat)
    requires MemberOk(c, w, m, n0) && w.committed != [] && m.seen == Some(|w.committed| - 1)
    ensures Continues(w.committed[|w.committed| - 1].entries, m.s.entries)
  {
    hide OpOk, FileTag, Continues, SessionOk;
    PrefixContinues(w.committed[|w.committed| - 1].entries, m.s.entries);
  }

  /** What a save refers to in the old file is good, or it refers to nothing there. */
  lemma SaverBuildsOn(c: Suite, ks: seq<Commit>, s: Session, op: Op, disk: Bytes, last: Option<Commit>, n0: nat)
    requires SessionOk(s, n0) && OpOk(c, ks, s, op) && HeaderFor(s, op, disk).Ok?
    requires !Rekeys(op) ==> last.Some? && Decodes(c, last.value) && disk == last.value.bytes && s.dek == last.value.dek
    ensures BuildsOn(c, Candidate(s, op), HeaderFor(s, op, disk).value, s.dek, disk, last)
  {
    hide Decodes, Snapshot, AddAll, PutAll, ParseHeaderVersion;
    CandidateOk(c, ks, s, op, n0);
    HeaderStart(s, op, disk);
    if op.Rotate? {
      var k :| 0 <= k < |ks| && Snapshot(c, s, ks[k].bytes) == Ok(op.live);
      SnapshotCovers(c, s, ks[k].bytes, n0);
      forall e | e in s.entries
        ensures Dead(e.state) || e.slot in s.cache + op.live
      {
        var i :| 0 <= i < |s.entries| && s.entries[i] == e;
      }
    }
  }

  /** The commit a session last saw, when that is the last one. */
  lemma SeenKeys(c: Suite, w: World, m: Member, n0: nat)
    requires MemberOk(c, w, m, n0) && w.committed != [] && m.seen == Some(|w.committed| - 1)
    ensures m.s.dek == w.committed[|w.committed| - 1].dek
  {
    hide OpOk, FileTag, Continues, SessionOk;
  }

  lemma NoItems(c: Suite, dek: Key)
    ensures OldItems(c, [], dek) == []
  {
  }

  /** The items a save builds on are those of the file it read. */
  lemma BeforeIsRead(c: Suite, w: World, m: Member, n0: nat)
    requires Inv(c, w, n0) && MemberOk(c, w, m, n0)
    requires m.seen == if w.committed == [] then None else Some(|w.committed| - 1)
    ensures ItemsBefore(c, w.committed, |w.committed|) == OldItems(c, BytesOf(w.disk), m.s.dek)
    ensures w.committed != [] ==>
              var last := w.committed[|w.committed| - 1];
              Decodes(c, last) && BytesOf(w.disk) == last.bytes && m.s.dek == last.dek
    ensures w.committed == [] ==> BytesOf(w.disk) == []
  {
    hide Inv, MemberOk, Decodes, OldItems;
    LastCommit(c, w, n0);
    NoItems(c, m.s.dek);
    if w.committed != [] {
      SeenKeys(c, w, m, n0);
    }
  }

  /** The lock holder of a save that published has seen the last commit, and builds on it. */
  lemma PublisherIsCurrent(c: Suite, w: World, m: Member, disk': Option<Bytes>, s': Session, r: Result<()>, d: Draws,
                           n0: nat)
    requires Lawful(c) && Inv(c, w, n0) && NoTagCollision(w.committed)
    requires MemberOk(c, w, m, n0) && m.pc.Saving?
    requires SaveOutcome(c, m, disk', s', r, d) && (r.Ok? || disk' != m.pc.read)
    ensures HeaderFor(m.s, m.pc.op, BytesOf(m.pc.read)).Ok?
    ensures m.pc.read == w.disk && m.seen == if w.committed == [] then None else Some(|w.committed| - 1)
    ensures var last := if w.committed == [] then None else Some(w.committed[|w.committed| - 1]);
            var header := HeaderFor(m.s, m.pc.op, BytesOf(m.pc.read)).value;
            BuildsOn(c, Candidate(m.s, m.pc.op), header, m.s.dek, BytesOf(m.pc.read), last)
    ensures ItemsBefore(c, w.committed, |w.committed|) == OldItems(c, BytesOf(m.pc.read), m.s.dek)
  {
    hide SaveOutcome, Preflight, Candidate, HeaderFor, Fitting, OpOk, Decodes, ImageOf, ParseHeaderVersion, Inv,
         NoTagCollision, MemberOk, BuildsOn, OldItems, ItemsBefore;
    SavingMember(c, w, m, n0);
    OutcomePublished(c, m, disk', s', r, d);
    CandidateOk(c, w.committed, m.s, m.pc.op, n0);
    var disk := BytesOf(m.pc.read);
    PreflightKnowsTag(c, Candidate(m.s, m.pc.op), HeaderFor(m.s, m.pc.op, disk).value, m.s.dek, disk);
    HolderIsCurrent(c, w, m, n0);
    BeforeIsRead(c, w, m, n0);
    HeaderStart(m.s, m.pc.op, disk);
    CounterGoesOn(c, w, m, n0);
    var last := if w.committed == [] then None else Some(w.committed[|w.committed| - 1]);
    SaverBuildsOn(c, w.committed, m.s, m.pc.op, disk, last, n0);
  }

  /** The commit of a save that published: a good file, counted on from the header it started with. */
  lemma PublishedImage(c: Suite, w: World, m: Member, disk': Option<Bytes>, s': Session, r: Result<()>, d: Draws,
                       n0: nat)
    requires Lawful(c) && Inv(c, w, n0) && NoTagCollision(w.committed)
    requires MemberOk(c, w, m, n0) && m.pc.Saving?
    requires SaveOutcome(c, m, disk', s', r, d) && (r.Ok? || disk' != m.pc.read)
    ensures HeaderFor(m.s, m.pc.op, BytesOf(m.pc.read)).Ok?
    ensures var (k, s1) := (CommitOf(c, m, disk'), Candidate(m.s, m.pc.op));
            var header := HeaderFor(m.s, m.pc.op, BytesOf(m.pc.read)).value;
            && CommitOk(c, k, n0) && |k.bytes| >= MAC_LEN && disk' == Some(k.bytes)
            && k.entries == s1.entries && k.dek == s1.dek && AlgorithmFromId(header.itemAlgId) == Ok(k.alg)
            && Carries(c, ItemsBefore(c, w.committed, |w.committed|), k)
            && k.counter == header.encCounter + k.sealed <= ROTATION_LIMIT && k.rekeyed == Rekeys(m.pc.op)
            && (r.Ok? ==>
                 && s'.tag == Some(FileTag(k.bytes)) && s'.entries == s1.entries
                 && s'.dek == k.dek && s'.config.itemAlg == s1.config.itemAlg && SessionOk(s', n0))
  {
    hide SaveOutcome, Preflight, Candidate, HeaderFor, ImageOf, TagOf, Fitting, DenseOk, FreshCount, OpOk, Decodes,
         ParseHeaderVersion, FinalHeader, Renumber, NormAll, Inv, NoTagCollision, MemberOk, BuildsOn, Carries,
         OldItems, ItemsBefore, Remap, CommitOf, Continues;
    SavingMember(c, w, m, n0);
    OutcomePublished(c, m, disk', s', r, d);
    CandidateOk(c, w.committed, m.s, m.pc.op, n0);
    PublisherIsCurrent(c, w, m, disk', s', r, d, n0);
    var s1 := Candidate(m.s, m.pc.op);
    var disk := BytesOf(m.pc.read);
    var header := HeaderFor(m.s, m.pc.op, disk).value;
    var p := Preflight(c, s1, header, m.s.dek, disk).value;
    HeaderStart(m.s, m.pc.op, disk);
    var last := if w.committed == [] then None else Some(w.committed[|w.committed| - 1]);
    var (sealed, rekeyed) := (FreshCount(s1.cache, s1.entries) + 1, Rekeys(m.pc.op));
    DenseSlots(s1.entries, n0);
    ImageDecodes(c, s1, header, m.s.dek, disk, p, d, last, sealed, rekeyed);
    PlanShape(c, s1, header, m.s.dek, disk, p);
    DenseIsItsOwnRenumbering(s1.entries, n0);
    CommitIsImage(c, m, disk', p, d);
    if r.Ok? {
      CommittedOk(s1, p, TagOf(c, s1, header, p, d), n0);
    }
  }

  lemma PublishedCommit(c: Suite, w: World, m: Member, disk': Option<Bytes>, s': Session, r: Result<()>, d: Draws,
                        n0: nat)
    requires Lawful(c) && Inv(c, w, n0) && NoTagCollision(w.committed)
    requires MemberOk(c, w, m, n0) && m.pc.Saving?
    requires SaveOutcome(c, m, disk', s', r, d) && (r.Ok? || disk' != m.pc.read)
    ensures var k := CommitOf(c, m, disk');
            && GoodSuccessor(c, w, m, k, n0) && disk' == Some(k.bytes)
            && (r.Ok? ==>
                 && s'.tag == Some(FileTag(k.bytes)) && s'.entries == Candidate(m.s, m.pc.op).entries
                 && s'.dek == k.dek && s'.config.itemAlg == m.s.config.itemAlg && SessionOk(s', n0))
  {
    hide SaveOutcome, Candidate, HeaderFor, Ledger, OpOk, CommitOk, ParseHeaderVersion, Inv, NoTagCollision, MemberOk,
         Continues, BuildsOn, Carries, OldItems, ItemsBefore, CommitOf, SessionOk, FileTag;
    SavingMember(c, w, m, n0);
    CandidateOk(c, w.committed, m.s, m.pc.op, n0);
    PublisherIsCurrent(c, w, m, disk', s', r, d, n0);
    PublishedImage(c, w, m, disk', s', r, d, n0);
    HeaderStart(m.s, m.pc.op, BytesOf(m.pc.read));
    CounterGoesOn(c, w, m, n0);
    LedgerPush(w.committed, CommitOf(c, m, disk'));
    if w.committed != [] {
      SeenContinues(c, w, m, n0);
      ContinuesOn(w.committed[|w.committed| - 1].entries, m.s.entries, Candidate(m.s, m.pc.op).entries);
    }
  }

  lemma CommitIsImage(c: Suite, m: Member, disk': Option<Bytes>, p: Plan, d: Draws)
    requires Lawful(c) && m.pc.Saving? && HeaderFor(m.s, m.pc.op, BytesOf(m.pc.read)).Ok?
    requires var header := HeaderFor(m.s, m.pc.op, BytesOf(m.pc.read)).value;
             var s1 := Candidate(m.s, m.pc.op);
             && Preflight(c, s1, header, m.s.dek, BytesOf(m.pc.read)) == Ok(p) && Fitting(p, d)
             && disk' == NewImage(c, s1, header, p, d) && |s1.entries| <= U32_MAX
    ensures var header := HeaderFor(m.s, m.pc.op, BytesOf(m.pc.read)).value;
            var s1 := Candidate(m.s, m.pc.op);
            CommitOf(c, m, disk')
            == ImageCommit(c, s1, header, p, d, FreshCount(s1.cache, s1.entries) + 1, Rekeys(m.pc.op))
  {
    hide Preflight, Candidate, HeaderFor, ImageOf, Fitting, FreshCount, Remap, NormAll;
  }

  lemma CommittedOk(s: Session, p: Plan, tag: Mac, n0: nat)
    requires SessionOk(s, n0) && |s.entries| <= U32_MAX && p.entries == Renumber(s.entries)
    ensures var t := Committed(s, p, tag);
            SessionOk(t, n0) && t.entries == s.entries && t.tag == Some(tag) && t.dek == s.dek
              && t.config.itemAlg == s.config.itemAlg
  {
    DenseIsItsOwnRenumbering(s.entries, n0);
  }

  /** The counter in the file is the ledger so far; the item algorithm of the file is the session's. */
  /** What the header of a commit says. */
  lemma CommitHead(c: Suite, ks: seq<Commit>, n0: nat, k: nat)
    requires HistoryOk(c, ks, n0) && k < |ks|
    ensures IdsOk(ks[k].entries, n0) && ParseHeader(ks[k].bytes).Ok?
    ensures ParseHeader(ks[k].bytes).value.encCounter == Ledger(ks[..k + 1]) <= ROTATION_LIMIT
    ensures AlgorithmFromId(ParseHeader(ks[k].bytes).value.itemAlgId) == Ok(ks[k].alg)
  {
    hide Continues, IdsOk, Ledger, ParseHeaderVersion, Carries, ReadIndex, AadBytes, FramesOpen;
    assert CommitAt(c, ks, k, n0);
  }

  lemma SeenAlgorithm(c: Suite, w: World, m: Member, n0: nat)
    requires MemberOk(c, w, m, n0) && w.committed != [] && m.seen == Some(|w.committed| - 1)
    ensures m.s.config.itemAlg == w.committed[|w.committed| - 1].alg
  {
    hide OpOk, FileTag, SessionOk;
  }

  lemma CounterGoesOn(c: Suite, w: World, m: Member, n0: nat)
    requires Inv(c, w, n0) && MemberOk(c, w, m, n0)
    requires m.seen == if w.committed == [] then None else Some(|w.committed| - 1)
    ensures ParseHeader(BytesOf(w.disk)).Ok? ==>
              && w.committed != []
              && ParseHeader(BytesOf(w.disk)).value.encCounter == Ledger(w.committed)
              && AlgorithmFromId(ParseHeader(BytesOf(w.disk)).value.itemAlgId) == Ok(m.s.config.itemAlg)
  {
    hide HistoryOk, MemberOk, Ledger;
    if w.committed == [] {
      assert BytesOf(w.disk) == [];
    } else {
      var n := |w.committed|;
      CommitHead(c, w.committed, n0, n - 1);
      SeenAlgorithm(c, w, m, n0);
      assert w.committed[..n] == w.committed;
    }
  }

  // -------------------------------------------------------------- the invariant

  lemma HistoryExtends(c: Suite, ks: seq<Commit>, k: Commit, n0: nat)
    requires HistoryOk(c, ks, n0) && CommitOk(c, k, n0)
    requires ks != [] ==> Continues(ks[|ks| - 1].entries, k.entries)
    requires Carries(c, ItemsBefore(c, ks, |ks|), k)
    requires k.counter == Ledger(ks + [k]) <= ROTATION_LIMIT
    ensures HistoryOk(c, ks + [k], n0)
  {
    hide CommitOk, Continues, Ledger, Carries, RecordsIn;
    var next := ks + [k];
    assert next[..|next|] == next;
    forall j | 0 <= j < |ks|
      ensures CommitAt(c, next, j, n0)
    {
      assert CommitAt(c, ks, j, n0);
      assert next[..j + 1] == ks[..j + 1];
    }
  }

  lemma OpOkGrows(c: Suite, ks: seq<Commit>, more: seq<Commit>, s: Session, op: Op)
    requires OpOk(c, ks, s, op) && ks <= more
    ensures OpOk(c, more, s, op)
  {
    hide Snapshot, AddAll;
    if op.Rotate? {
      var k :| 0 <= k < |ks| && Snapshot(c, s, ks[k].bytes) == Ok(op.live);
      assert Snapshot(c, s, more[k].bytes) == Ok(op.live);
    }
  }

  /** A member that is not saving does not care what was committed meanwhile. */
  lemma BystanderOk(c: Suite, w: World, w': World, m: Member, n0: nat)
    requires MemberOk(c, w, m, n0) && w.committed <= w'.committed
    requires m.pc.Idle? || w'.disk == w.disk
    ensures MemberOk(c, w', m, n0)
  {
    hide SessionOk, OpOk, Continues, FileTag;
    if m.pc.Saving? {
      OpOkGrows(c, w.committed, w'.committed, m.s, m.pc.op);
    }
    if m.seen.Some? {
      assert w'.committed[m.seen.value] == w.committed[m.seen.value];
    }
  }

  lemma BystandersOk(c: Suite, w: World, w': World, i: nat, n0: nat)
    requires Inv(c, w, n0) && w.committed <= w'.committed
    requires forall j :: j in w'.members && j != i ==> j in w.members && w'.members[j] == w.members[j]
    requires w'.disk == w.disk || w.lock == Some(i)
    ensures forall j :: j in w'.members && j != i ==> MemberOk(c, w', w'.members[j], n0)
  {
    hide MemberOk, HistoryOk;
    forall j | j in w'.members && j != i
      ensures MemberOk(c, w', w'.members[j], n0)
    {
      BystanderOk(c, w, w', w.members[j], n0);
    }
  }

  /** One session moved on its own: same file, same commits, same lock. */
  lemma LocalStep(c: Suite, w: World, w': World, i: nat, m': Member, n0: nat)
    requires Inv(c, w, n0) && MemberOk(c, w, m', n0) && m'.pc.Idle? && (i in w.members ==> w.members[i].pc.Idle?)
    requires w' == w.(members := w.members[i := m'])
    ensures Inv(c, w', n0)
  {
    hide MemberOk, HistoryOk;
    BystandersOk(c, w, w', i, n0);
    BystanderOk(c, w, w', m', n0);
  }

  /** The same session with another cache, or more uncommitted items. */
  lemma MovedOk(c: Suite, w: World, m: Member, t: Session, n0: nat)
    requires MemberOk(c, w, m, n0) && SessionOk(t, n0) && Grows(m.s, t) && m.pc.Idle?
    requires t.tag == m.s.tag && t.dek == m.s.dek && t.config.itemAlg == m.s.config.itemAlg
    ensures MemberOk(c, w, m.(s := t), n0)
  {
    hide SessionOk, FileTag;
  }

  /** Opening the current file gives a session that has seen the last commit. */
  lemma OpenedOk(c: Suite, w: World, password: Bytes, n0: nat)
    requires Lawful(c) && Inv(c, w, n0) && w.committed != []
    requires OpenBytes(c, w.disk.value, password, false).Ok?
    requires OpenBytes(c, w.disk.value, password, false).value.kek == w.committed[|w.committed| - 1].kek
    ensures MemberOk(c, w, Member(OpenBytes(c, w.disk.value, password, false).value, Some(|w.committed| - 1), Idle), n0)
  {
    LastCommit(c, w, n0);
    var k := w.committed[|w.committed| - 1];
    OpenedMatches(c, k, password);
    hide OpenBytes, Decodes, MemberOk, Inv, HistoryOk, DenseOk;
    var s := OpenBytes(c, k.bytes, password, false).value;
    SeenIsOk(c, w, s, n0);
  }

  /** A session opened with the right key holds exactly what the commit records. */
  lemma OpenedMatches(c: Suite, k: Commit, password: Bytes)
    requires Decodes(c, k) && OpenBytes(c, k.bytes, password, false).Ok?
    requires OpenBytes(c, k.bytes, password, false).value.kek == k.kek
    ensures var s := OpenBytes(c, k.bytes, password, false).value;
            && s.entries == k.entries && s.dek == k.dek && s.config.itemAlg == k.alg && s.cache == map[]
            && s.config.version == CURRENT_VERSION
            && |k.bytes| >= MAC_LEN && s.tag == Some(FileTag(k.bytes))
            && forall e :: e in s.entries ==> e.itemId < s.nextId
  {
    hide FramesOf, ReadIndex, AadBytes, NextIdAfter;
    VersionIsCurrent(k.bytes);
    NextIdAbove(OpenBytes(c, k.bytes, password, false).value.entries);
  }

  lemma NextIdAbove(es: seq<IndexEntry>)
    ensures NextIdAfter(es).Ok? ==> forall e :: e in es ==> e.itemId < NextIdAfter(es).value
  {
    hide MaxId;
    if es != [] {
      MaxIdIsTheHighest(es);
    }
  }

  lemma SeenIsOk(c: Suite, w: World, s: Session, n0: nat)
    requires w.committed != [] && SessionOk(s, n0)
    requires var k := w.committed[|w.committed| - 1];
             |k.bytes| >= MAC_LEN && s.tag == Some(FileTag(k.bytes)) && s.dek == k.dek && s.config.itemAlg == k.alg
             && k.entries == s.entries
    ensures MemberOk(c, w, Member(s, Some(|w.committed| - 1), Idle), n0)
  {
  }

  /** The end of a save or the death of its session: the file and the history move together. */
  lemma ReleasedOk(c: Suite, w: World, w': World, i: nat, k: Commit, published: bool, n0: nat)
    requires Inv(c, w, n0) && i in w.members && w.members[i].pc.Saving?
    requires published ==> GoodSuccessor(c, w, w.members[i], k, n0)
    requires w'.committed == if published then w.committed + [k] else w.committed
    requires w'.disk == if published then Some(k.bytes) else w.disk
    requires w'.lock == None
    requires forall j :: j in w'.members && j != i ==> j in w.members && w'.members[j] == w.members[j]
    requires i in w'.members ==> MemberOk(c, w', w'.members[i], n0) && w'.members[i].pc.Idle?
    ensures Inv(c, w', n0)
  {
    hide MemberOk, HistoryOk, CommitOk, Ledger, Continues, Candidate;
    if published {
      HistoryExtends(c, w.committed, k, n0);
    }
    BystandersOk(c, w, w', i, n0);
  }

  lemma IdleOk(c: Suite, w: World, m: Member, n0: nat)
    requires MemberOk(c, w, m, n0)
    ensures MemberOk(c, w, m.(pc := Idle), n0)
  {
    hide SessionOk, OpOk, FileTag;
  }

  /** What `Finish` does to the world. */
  lemma FinishShape(c: Suite, w: World, i: nat, disk': Option<Bytes>, s': Session, r: Result<()>, d: Draws, w': World)
    requires Lawful(c) && Next(c, w, Finish(i, disk', s', r, d), w') && w.lock == Some(i)
    ensures var m := w.members[i];
            var published := r.Ok? || disk' != m.pc.read;
            && w'.disk == (if published then disk' else w.disk) && w'.lock == None
            && w'.committed == (if published then w.committed + [CommitOf(c, m, disk')] else w.committed)
            && i in w'.members
            && w'.members[i] == (if r.Ok? then Member(s', Some(|w.committed|), Idle)
                                 else Member(Fallback(m.s, m.pc.op), m.seen, Idle))
            && forall j :: j in w'.members && j != i ==> j in w.members && w'.members[j] == w.members[j]
  {
    hide SaveOutcome, CommitOf, Fallback;
  }

  lemma FinishKeeps(c: Suite, w: World, i: nat, disk': Option<Bytes>, s': Session, r: Result<()>, d: Draws, w': World,
                    n0: nat)
    requires Lawful(c) && Inv(c, w, n0) && NoTagCollision(w.committed)
    requires Next(c, w, Finish(i, disk', s', r, d), w')
    ensures Inv(c, w', n0) && w.committed <= w'.committed
  {
    hide SaveOutcome, CommitOf, HistoryOk, SessionOk, Continues, OpOk, Fallback, FileTag, MemberOk, Candidate;
    var m := w.members[i];
    var published := r.Ok? || disk' != m.pc.read;
    var k := CommitOf(c, m, disk');
    FinishShape(c, w, i, disk', s', r, d, w');
    SavingMember(c, w, m, n0);
    FallbackOk(c, w.committed, m.s, m.pc.op, n0);
    if published {
      PublishedCommit(c, w, m, disk', s', r, d, n0);
    }
    if r.Ok? {
      NewestOk(c, w, w', m, s', k, n0);
    } else {
      IdleOk(c, w, m, n0);
      MovedOk(c, w, m.(pc := Idle), Fallback(m.s, m.pc.op), n0);
      BystanderOk(c, w, w', w'.members[i], n0);
    }
    ReleasedOk(c, w, w', i, k, published, n0);
  }

  lemma NewestOk(c: Suite, w: World, w': World, m: Member, s': Session, k: Commit, n0: nat)
    requires m.pc.Saving? && GoodSuccessor(c, w, m, k, n0) && SessionOk(s', n0)
    requires w'.committed == w.committed + [k]
    requires s'.tag == Some(FileTag(k.bytes)) && s'.dek == k.dek && s'.config.itemAlg == k.alg
             && s'.entries == k.entries
    ensures MemberOk(c, w', Member(s', Some(|w.committed|), Idle), n0)
  {
    hide SessionOk, CommitOk, FileTag, Ledger;
  }

  lemma DieKeeps(c: Suite, w: World, i: nat, disk': Option<Bytes>, d: Draws, w': World, n0: nat)
    requires Lawful(c) && Inv(c, w, n0) && NoTagCollision(w.committed)
    requires Next(c, w, Die(i, disk', d), w')
    ensures Inv(c, w', n0) && w.committed <= w'.committed
  {
    hide SaveOutcome, CommitOf, HistoryOk, MemberOk;
    var m := w.members[i];
    if m.pc.Saving? {
      var k := CommitOf(c, m, disk');
      if disk' != m.pc.read {
        PublishedCommit(c, w, w.members[i], disk', Candidate(m.s, m.pc.op), Err(Encrypt), d, n0);
      }
      ReleasedOk(c, w, w', i, k, disk' != m.pc.read, n0);
    } else {
      BystandersOk(c, w, w', i, n0);
    }
  }

  lemma BeginKeeps(c: Suite, w: World, i: nat, op: Op, w': World, n0: nat)
    requires Lawful(c) && Inv(c, w, n0) && Next(c, w, Begin(i, op), w')
    ensures Inv(c, w', n0)
  {
    hide HistoryOk, MemberOk, OpOk;
    BystandersOk(c, w, w', i, n0);
    BeginsOk(c, w, w', w.members[i], op, n0);
  }

  lemma BeginsOk(c: Suite, w: World, w': World, m: Member, op: Op, n0: nat)
    requires MemberOk(c, w, m, n0) && m.pc.Idle? && OpOk(c, w.committed, m.s, op)
    requires w'.committed == w.committed && w'.disk == w.disk
    ensures MemberOk(c, w', m.(pc := Saving(op, w.disk)), n0)
  {
    hide SessionOk, OpOk, FileTag;
  }

  /** Every step of every session keeps the invariant and only ever adds to the history. */
  lemma StepKeeps(c: Suite, w: World, a: Action, w': World, n0: nat)
    requires Lawful(c) && Inv(c, w, n0) && NoTagCollision(w.committed) && Next(c, w, a, w')
    ensures Inv(c, w', n0) && w.committed <= w'.committed
  {
    hide Inv, OpOk, SaveOutcome, Fallback, MemberOk, SessionOk, Continues;
    match a
    case Open(i, password) =>
      OpenStep(c, w, i, password, w', n0);
    case Birth(i, kek, dek, params, salt, wrapAlg, itemAlg) =>
      NewbornOk(c, w, Newborn(kek, dek, params, salt, wrapAlg, itemAlg), n0);
      LocalStep(c, w, w', i, w'.members[i], n0);
    case Read(i, id) =>
      MemberIs(c, w, i, n0);
      ReadOk(c, w.members[i].s, w.disk.value, id, n0);
      MovedOk(c, w, w.members[i], OpenItem(c, w.members[i].s, w.disk.value, id).0, n0);
      LocalStep(c, w, w', i, w'.members[i], n0);
    case Append(i, item) =>
      MemberIs(c, w, i, n0);
      AddedOk(w.members[i].s, item.title, item.username, item.record, n0);
      MovedOk(c, w, w.members[i], AddItem(w.members[i].s, item.title, item.username, item.record).0, n0);
      LocalStep(c, w, w', i, w'.members[i], n0);
    case Begin(i, op) =>
      BeginKeeps(c, w, i, op, w', n0);
    case GiveUp(i, op) =>
      MemberIs(c, w, i, n0);
      FallbackOk(c, w.committed, w.members[i].s, op, n0);
      MovedOk(c, w, w.members[i], Fallback(w.members[i].s, op), n0);
      LocalStep(c, w, w', i, w'.members[i], n0);
    case Finish(i, disk', s', r, d) =>
      FinishKeeps(c, w, i, disk', s', r, d, w', n0);
    case Die(i, disk', d) =>
      DieKeeps(c, w, i, disk', d, w', n0);
  }

  lemma OpenStep(c: Suite, w: World, i: nat, password: Bytes, w': World, n0: nat)
    requires Lawful(c) && Inv(c, w, n0) && Next(c, w, Open(i, password), w')
    ensures Inv(c, w', n0)
  {
    hide OpenBytes, MemberOk, HistoryOk;
    OpenedOk(c, w, password, n0);
    LocalStep(c, w, w', i, w'.members[i], n0);
  }

  lemma MemberIs(c: Suite, w: World, i: nat, n0: nat)
    requires Inv(c, w, n0) && i in w.members
    ensures MemberOk(c, w, w.members[i], n0) && SessionOk(w.members[i].s, n0)
  {
    hide SessionOk, HistoryOk;
  }

  lemma NewbornOk(c: Suite, w: World, s: Session, n0: nat)
    requires s.entries == [] && s.cache == map[] && s.tag.None? && s.config.version == CURRENT_VERSION
    ensures MemberOk(c, w, Member(s, None, Idle), n0)
  {
  }

  // ------------------------------------------------------------------- theorems

  /** A run: worlds linked by steps. */
  ghost predicate IsRun(c: Suite, ws: seq<World>, acts: seq<Action>)
    requires Lawful(c)
  {
    |ws| == |acts| + 1 && forall k :: 0 <= k < |acts| ==> Next(c, ws[k], acts[k], ws[k + 1])
  }

  ghost predicate RunFrom(c: Suite, w: World, ws: seq<World>, acts: seq<Action>)
    requires Lawful(c)
  {
    IsRun(c, ws, acts) && ws[0] == w
  }

  const GENESIS := World(None, None, map[], [])

  lemma GenesisOk(c: Suite)
    ensures Inv(c, GENESIS, 0)
  {
  }

  lemma PrefixNoCollision(a: seq<Commit>, b: seq<Commit>)
    requires a <= b && NoTagCollision(b)
    ensures NoTagCollision(a)
  {
  }

  lemma {:induction false} CommitsOnlyGrow(c: Suite, ws: seq<World>, acts: seq<Action>, k: nat)
    requires Lawful(c) && IsRun(c, ws, acts) && k < |ws|
    ensures ws[k].committed <= ws[|ws| - 1].committed
    decreases |ws| - k
  {
    if k < |acts| {
      CommitsOnlyGrow(c, ws, acts, k + 1);
      StepGrows(c, ws[k], acts[k], ws[k + 1]);
    }
  }

  lemma StepGrows(c: Suite, w: World, a: Action, w': World)
    requires Lawful(c) && Next(c, w, a, w')
    ensures w.committed <= w'.committed
  {
    hide SaveOutcome, OpOk, OpenBytes, OpenItem, AddItem, Fallback, CommitOf;
  }

  /** Every world of a run satisfies the invariant, if no two of its commits carry the same tag. */
  lemma {:induction false} RunKeeps(c: Suite, ws: seq<World>, acts: seq<Action>, k: nat, n0: nat)
    requires Lawful(c) && IsRun(c, ws, acts) && Inv(c, ws[0], n0) && k < |ws|
    requires NoTagCollision(ws[|ws| - 1].committed)
    ensures Inv(c, ws[k], n0)
  {
    hide Inv, Next;
    if k > 0 {
      RunKeeps(c, ws, acts, k - 1, n0);
      CommitsOnlyGrow(c, ws, acts, k - 1);
      PrefixNoCollision(ws[k - 1].committed, ws[|ws| - 1].committed);
      assert Next(c, ws[k - 1], acts[k - 1], ws[k]);
      StepKeeps(c, ws[k - 1], acts[k - 1], ws[k], n0);
    }
  }

  lemma CommitIs(c: Suite, ks: seq<Commit>, k: nat, n0: nat)
    requires HistoryOk(c, ks, n0) && k < |ks|
    ensures Decodes(c, ks[k]) && DenseOk(ks[k].entries, n0) && Carries(c, ItemsBefore(c, ks, k), ks[k])
    ensures k > 0 ==> Continues(ks[k - 1].entries, ks[k].entries)
  {
    hide Decodes, DenseOk, Carries, Continues, Ledger;
    assert CommitAt(c, ks, k, n0);
  }

  lemma {:induction false} CommitsContinue(c: Suite, ks: seq<Commit>, n0: nat, i: nat, j: nat)
    requires HistoryOk(c, ks, n0) && i <= j < |ks|
    ensures Continues(ks[i].entries, ks[j].entries)
  {
    hide HistoryOk, Decodes, DenseOk, Carries, Continues;
    if i == j {
      PrefixContinues(ks[i].entries, ks[j].entries);
    } else {
      CommitsContinue(c, ks, n0, i, j - 1);
      CommitIs(c, ks, j, n0);
      ContinuesOn(ks[i].entries, ks[j - 1].entries, ks[j].entries);
    }
  }

  /**
   Linear history, over any interleaving of sessions, failures and deaths: the commits of a
   run form one line in which every file continues every earlier one. Ids keep their places,
   new ids come at the end and above all before them, and no tombstone becomes live again.
   */
  lemma LinearHistory(c: Suite, ws: seq<World>, acts: seq<Action>, n0: nat, i: nat, j: nat)
    requires Lawful(c) && IsRun(c, ws, acts) && Inv(c, ws[0], n0)
    requires NoTagCollision(ws[|ws| - 1].committed)
    requires i <= j < |ws[|ws| - 1].committed|
    ensures var ks := ws[|ws| - 1].committed;
            && ReadIndex(c, ks[i].bytes, CURRENT_VERSION, ks[i].dek, ks[i].alg) == Ok(ks[i].entries)
            && ReadIndex(c, ks[j].bytes, CURRENT_VERSION, ks[j].dek, ks[j].alg) == Ok(ks[j].entries)
            && Continues(ks[i].entries, ks[j].entries)
            && IdsOk(ks[j].entries, n0)
  {
    hide Next, Continues, MemberOk, ReadIndex, Ledger, IdsOk, AadBytes, ParseHeaderVersion;
    var ks := ws[|ws| - 1].committed;
    RunKeeps(c, ws, acts, |ws| - 1, n0);
    CommitsContinue(c, ks, n0, i, j);
    assert CommitAt(c, ks, i, n0) && CommitAt(c, ks, j, n0);
  }

  /** In a vault grown from its creation the ids of every committed file strictly increase. */
  lemma GrownIdsIncrease(c: Suite, ws: seq<World>, acts: seq<Action>, k: nat, p: nat, q: nat)
    requires Lawful(c) && IsRun(c, ws, acts) && ws[0] == GENESIS
    requires NoTagCollision(ws[|ws| - 1].committed)
    requires k < |ws[|ws| - 1].committed| && p < q < |ws[|ws| - 1].committed[k].entries|
    ensures ws[|ws| - 1].committed[k].entries[p].itemId < ws[|ws| - 1].committed[k].entries[q].itemId
  {
    hide Next, Inv, ReadIndex;
    GenesisOk(c);
    LinearHistory(c, ws, acts, 0, k, k);
  }

  /**
   The encryption ledger: in every committed file the counter is the number of encryptions
   made under its data key by the commits since that key was new, and never passes the limit.
   */
  lemma CounterIsTheLedger(c: Suite, ws: seq<World>, acts: seq<Action>, n0: nat, k: nat)
    requires Lawful(c) && IsRun(c, ws, acts) && Inv(c, ws[0], n0)
    requires NoTagCollision(ws[|ws| - 1].committed) && k < |ws[|ws| - 1].committed|
    ensures var ks := ws[|ws| - 1].committed;
            && ParseHeader(ks[k].bytes).Ok?
            && ParseHeader(ks[k].bytes).value.encCounter == Ledger(ks[..k + 1]) <= ROTATION_LIMIT
  {
    hide Next, Continues, MemberOk, ReadIndex, Ledger, DenseOk, AadBytes, ParseHeaderVersion;
    RunKeeps(c, ws, acts, |ws| - 1, n0);
    assert CommitAt(c, ws[|ws| - 1].committed, k, n0);
  }

  /**
   Each publication replaces exactly the file its session last read or wrote; any other save
   changes nothing on disk.
   */
  lemma PublishesOverWhatItSaw(c: Suite, w: World, i: nat, disk': Option<Bytes>, s': Session, r: Result<()>, d: Draws,
                               w': World, n0: nat)
    requires Lawful(c) && Inv(c, w, n0) && NoTagCollision(w.committed)
    requires Next(c, w, Finish(i, disk', s', r, d), w')
    ensures if |w'.committed| > |w.committed|
            then w.members[i].seen == (if w.committed == [] then None else Some(|w.committed| - 1))
                 && (w.committed == [] || w.disk == Some(w.committed[|w.committed| - 1].bytes))
                 && w'.disk == Some(w'.committed[|w.committed|].bytes)
            else r.Err? && w'.disk == w.disk && w'.committed == w.committed
    ensures w.members[i].seen != (if w.committed == [] then None else Some(|w.committed| - 1)) ==>
              r.Err? && w'.disk == w.disk
  {
    hide SaveOutcome, CommitOf, HistoryOk, MemberOk, Fallback, CommitOk, Ledger, Candidate, Continues;
    if r.Ok? || disk' != w.members[i].pc.read {
      PublishedCommit(c, w, w.members[i], disk', s', r, d, n0);
    }
  }

  /** At most one session is between reading the file and publishing. */
  lemma SavesExclude(c: Suite, w: World, n0: nat, i: nat, j: nat)
    requires Inv(c, w, n0) && i in w.members && j in w.members
    requires w.members[i].pc.Saving? && w.members[j].pc.Saving?
    ensures i == j && w.members[i].pc.read == w.disk
  {
    hide HistoryOk, SessionOk, Continues, OpOk, FileTag;
  }

  // ----------------------------------------------------------- what is counted

  function CountSeals(ss: seq<Source>): nat {
    if ss == [] then 0 else CountSeals(ss[..|ss| - 1]) + if ss[|ss| - 1].Seal? then 1 else 0
  }

  /** The entries charged to the counter are exactly those whose frames are sealed; copies cost nothing. */
  lemma {:induction false} ChargesAreSeals(cache: map<u32, ItemRecord>, slots: map<u32, u32>, frames: seq<Bytes>,
                                           es: seq<IndexEntry>)
    requires Sources(cache, slots, frames, es).Ok?
    ensures CountSeals(Sources(cache, slots, frames, es).value) == FreshCount(cache, es)
  {
    if es != [] {
      var ss := Sources(cache, slots, frames, es).value;
      ChargesAreSeals(cache, slots, frames, es[..|es| - 1]);
      assert ss[..|es| - 1] == Sources(cache, slots, frames, es[..|es| - 1]).value;
    }
  }
}
