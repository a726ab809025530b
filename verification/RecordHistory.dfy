/** The records of the files of a run: what each commit holds for each item, and what a rotation keeps. */
module RecordHistory {
  import opened Prelude
  import opened Crypto
  import opened Header
  import opened Shape
  import opened Frames
  import opened Image
  import opened SaveProof
  import opened Steps
  import opened Preservation
  import opened Failures
  import opened Acceptance
  import opened History
  import opened Records
  import opened HistoryProof

  // -------------------------------------------------------------------- records

  lemma DistinctIds(es: seq<IndexEntry>, n0: nat)
    requires DenseOk(es, n0)
    ensures forall a, b :: 0 <= a < b < |es| ==> es[a].itemId != es[b].itemId
    ensures forall i :: 0 <= i < |es| ==> es[i].slot == i && (es[i].state == LIVE || Dead(es[i].state))
  {
  }

  /** The record of one item of a commit, and the ids that are looked up for it. */
  lemma RecordOf(c: Suite, ks: seq<Commit>, k: nat, n0: nat, i: nat)
    requires HistoryOk(c, ks, n0) && k < |ks| && i < |ks[k].entries|
    ensures |RecordsIn(c, ks[k])| == |ks[k].entries| && RecordsIn(c, ks[k])[i].id == ks[k].entries[i].itemId
    ensures RecordsIn(c, ks[k])[i].record == RecordFor(ks[k].cache, ItemsBefore(c, ks, k), ks[k].entries[i])
    ensures forall a, b :: 0 <= a < b < |ks[k].entries| ==> RecordsIn(c, ks[k])[a].id != RecordsIn(c, ks[k])[b].id
  {
    hide HistoryOk, Decodes, DenseOk, RecordsIn, RecordFor;
    CommitIs(c, ks, k, n0);
    ItemsOf(c, ks[k]);
    DistinctIds(ks[k].entries, n0);
  }

  /** From one commit to the next: a live item the save had not cached keeps its record; a dead one is empty. */
  lemma CarriedOn(c: Suite, ks: seq<Commit>, k: nat, n0: nat, i: nat)
    requires HistoryOk(c, ks, n0) && 0 < k < |ks| && i < |ks[k].entries| && i !in ks[k].cache
    ensures |RecordsIn(c, ks[k])| == |ks[k].entries| && |RecordsIn(c, ks[k - 1])| == |ks[k - 1].entries|
    ensures if ks[k].entries[i].state == LIVE
            then i < |ks[k - 1].entries| && RecordsIn(c, ks[k])[i].record == RecordsIn(c, ks[k - 1])[i].record
            else RecordsIn(c, ks[k])[i].record == Ok(PLACEHOLDER)
  {
    hide HistoryOk, Decodes, DenseOk, RecordsIn, Lookup, Carries, Continues;
    RecordOf(c, ks, k, n0, i);
    CommitIs(c, ks, k, n0);
    CommitIs(c, ks, k - 1, n0);
    DistinctIds(ks[k].entries, n0);
    ItemsOf(c, ks[k - 1]);
    ItemsOf(c, ks[k]);
    PreviousRecord(c, ks, k, n0, i);
  }

  /** What looking up an item's id in the commit before gives. */
  lemma PreviousRecord(c: Suite, ks: seq<Commit>, k: nat, n0: nat, i: nat)
    requires HistoryOk(c, ks, n0) && 0 < k < |ks| && i < |ks[k].entries|
    ensures |RecordsIn(c, ks[k - 1])| == |ks[k - 1].entries|
    ensures Lookup(RecordsIn(c, ks[k - 1]), ks[k].entries[i].itemId)
         == if i < |ks[k - 1].entries| then RecordsIn(c, ks[k - 1])[i].record else Err(Encrypt)
  {
    hide HistoryOk, Decodes, DenseOk, RecordsIn, Lookup, Carries, Meaning;
    CommitIs(c, ks, k, n0);
    CommitIs(c, ks, k - 1, n0);
    ItemsOf(c, ks[k - 1]);
    DistinctIds(ks[k].entries, n0);
    DistinctIds(ks[k - 1].entries, n0);
    if i < |ks[k - 1].entries| {
      LookupAt(RecordsIn(c, ks[k - 1]), i);
    } else {
      LookupNone(RecordsIn(c, ks[k - 1]), ks[k].entries[i].itemId);
    }
  }

  /** Over any number of commits a record stays as it is while no save has it cached and its item lives. */
  lemma {:induction false} RecordSurvives(c: Suite, ks: seq<Commit>, n0: nat, i: nat, j: nat, p: nat)
    requires HistoryOk(c, ks, n0) && i <= j < |ks| && p < |ks[i].entries|
    requires forall k :: i < k <= j ==> p !in ks[k].cache
    ensures |RecordsIn(c, ks[i])| == |ks[i].entries| && |RecordsIn(c, ks[j])| == |ks[j].entries|
    ensures p < |ks[j].entries|
    ensures ks[j].entries[p].state == LIVE ==> RecordsIn(c, ks[j])[p].record == RecordsIn(c, ks[i])[p].record
  {
    hide HistoryOk, RecordsIn;
    CountOf(c, ks, i, n0);
    CountOf(c, ks, j, n0);
    if i < j {
      RecordSurvives(c, ks, n0, i, j - 1, p);
      EntryLives(c, ks, j, n0, p);
      CarriedOn(c, ks, j, n0, p);
    }
  }

  lemma CountOf(c: Suite, ks: seq<Commit>, k: nat, n0: nat)
    requires HistoryOk(c, ks, n0) && k < |ks|
    ensures |RecordsIn(c, ks[k])| == |ks[k].entries|
  {
    hide HistoryOk, RecordsIn, Decodes, DenseOk, Carries, Continues;
    CommitIs(c, ks, k, n0);
    ItemsOf(c, ks[k]);
  }

  /** What lives now lived before. */
  lemma EntryLives(c: Suite, ks: seq<Commit>, k: nat, n0: nat, p: nat)
    requires HistoryOk(c, ks, n0) && 0 < k < |ks| && p < |ks[k - 1].entries|
    ensures p < |ks[k].entries|
    ensures ks[k].entries[p].state == LIVE ==> ks[k - 1].entries[p].state == LIVE
  {
    hide HistoryOk, Decodes, DenseOk, Carries;
    CommitIs(c, ks, k, n0);
    CommitIs(c, ks, k - 1, n0);
    StateOf(ks[k - 1].entries, n0, p);
  }

  lemma StateOf(es: seq<IndexEntry>, n0: nat, p: nat)
    requires DenseOk(es, n0) && p < |es|
    ensures es[p].state == LIVE || es[p].state == TOMBSTONE
  {
  }

  /**
   In every run every committed file can be read in full: each item's record opens, to the
   one its save had cached, else to nothing if it is dead, else to what the commit before held.
   */
  lemma RecordsInRuns(c: Suite, ws: seq<World>, acts: seq<Action>, n0: nat, k: nat)
    requires Lawful(c) && IsRun(c, ws, acts) && Inv(c, ws[0], n0)
    requires NoTagCollision(ws[|ws| - 1].committed) && k < |ws[|ws| - 1].committed|
    ensures var ks := ws[|ws| - 1].committed;
            var items := Contents(c, ks[k].bytes, ks[k].dek);
            && HistoryOk(c, ks, n0) && items.Ok? && |items.value| == |ks[k].entries|
            && (forall i :: 0 <= i < |ks[k].entries| ==> items.value[i].record.Ok?)
            && items.value == Meaning(ks[k].cache, ks[k].entries, ItemsBefore(c, ks, k))
  {
    hide Next, Inv, HistoryOk, Decodes, DenseOk, Meaning;
    RunKeeps(c, ws, acts, |ws| - 1, n0);
    var ks := ws[|ws| - 1].committed;
    HistoryOf(c, ws[|ws| - 1], n0);
    CommitIs(c, ks, k, n0);
    ItemsOf(c, ks[k]);
  }

  lemma HistoryOf(c: Suite, w: World, n0: nat)
    requires Inv(c, w, n0)
    ensures HistoryOk(c, w.committed, n0)
  {
    hide HistoryOk, MemberOk;
  }

  // ------------------------------------------------------------------- rotations

  /** A session that can take a snapshot of the file holds exactly the index of that file. */
  lemma ReachableIndexIsCurrent(c: Suite, w: World, i: nat, n0: nat)
    requires Lawful(c) && Inv(c, w, n0) && NoTagCollision(w.committed)
    requires i in w.members && w.disk.Some? && Snapshot(c, w.members[i].s, w.disk.value).Ok?
    ensures IndexIsCurrent(c, w.members[i].s, w.disk.value)
  {
    hide HistoryOk, OpOk, Decodes, SessionOk, Snapshot, NoTagCollision, FileTag, ReadIndex;
    var m := w.members[i];
    LastCommit(c, w, n0);
    SnapshotSaw(c, m.s, w.disk.value);
    SawLast(c, w, m, n0);
    var last := w.committed[|w.committed| - 1];
    SnapshotCounts(c, m.s, last);
    CommitReads(c, last);
    MemberIs(c, w, i, n0);
    SessionSlots(m.s, n0);
  }

  lemma SnapshotSaw(c: Suite, s: Session, raw: Bytes)
    requires Snapshot(c, s, raw).Ok?
    ensures |raw| >= MAC_LEN && s.tag == Some(FileTag(raw))
  {
    hide LiveRecords, FramesOf;
  }

  /** A session whose tag is the file's has seen the last commit. */
  lemma SawLast(c: Suite, w: World, m: Member, n0: nat)
    requires Inv(c, w, n0) && NoTagCollision(w.committed) && MemberOk(c, w, m, n0)
    requires w.disk.Some? && |w.disk.value| >= MAC_LEN && m.s.tag == Some(FileTag(w.disk.value))
    ensures w.committed != []
    ensures var last := w.committed[|w.committed| - 1];
            && w.disk.value == last.bytes && m.s.dek == last.dek && m.s.config.itemAlg == last.alg
            && last.entries <= m.s.entries
  {
    hide HistoryOk, OpOk, SessionOk, FileTag, CommitOk;
    LastCommit(c, w, n0);
  }

  lemma SnapshotCounts(c: Suite, s: Session, k: Commit)
    requires Decodes(c, k) && Snapshot(c, s, k.bytes).Ok? && k.entries <= s.entries
    ensures s.entries == k.entries
  {
    hide LiveRecords, FramesOf, ReadIndex, AuthenticateCurrent, AadBytes, OpenSlot, ParseHeaderVersion;
  }

  lemma CommitReads(c: Suite, k: Commit)
    requires Decodes(c, k)
    ensures ParseHeader(k.bytes).Ok? && AlgorithmFromId(ParseHeader(k.bytes).value.itemAlgId) == Ok(k.alg)
    ensures ReadIndex(c, k.bytes, CURRENT_VERSION, k.dek, k.alg) == Ok(k.entries)
  {
    hide ReadIndex, FramesOpen, AadBytes;
  }

  lemma SessionSlots(s: Session, n0: nat)
    requires SessionOk(s, n0)
    ensures SlotsDistinct(s.entries) && s.config.version == CURRENT_VERSION
  {
  }

  /**
   Every rotation of every session of every run preserves meaning: if it succeeds, each item has
   the metadata it had, each live item its record, under the new key, and no frame was copied.
   */
  lemma RotationInRuns(c: Suite, w: World, i: nat, n0: nat, kek: Key, dek: Key, params: KdfParams, salt: Salt,
                       disk: Option<Bytes>, s': Session, disk': Option<Bytes>, d: Draws)
    requires Lawful(c) && Inv(c, w, n0) && NoTagCollision(w.committed) && i in w.members && w.disk.Some?
    requires RotateStep(c, w.members[i].s, kek, dek, params, salt, w.disk.value, disk, s', disk', Ok(()), d)
    ensures var s := w.members[i].s;
            && disk'.Some? && Contents(c, disk'.value, dek).Ok? && Contents(c, w.disk.value, s.dek).Ok?
            && var (was, now) := (Contents(c, w.disk.value, s.dek).value, Contents(c, disk'.value, dek).value);
            && |now| == |was| == |s.entries|
            && forall k :: 0 <= k < |was| ==>
                 SameMetadata(now[k], was[k])
                   && (was[k].state == LIVE ==> was[k].record.Ok? && now[k].record == was[k].record)
    ensures s'.dek == dek && s'.kek == kek
  {
    hide Inv, NoTagCollision, SaveStep, Contents, IndexIsCurrent, Snapshot, SameMetadata, Preflight;
    ReachableIndexIsCurrent(c, w, i, n0);
    RotationPreserves(c, w.members[i].s, kek, dek, params, salt, w.disk.value, disk, s', disk', d);
  }

  // ------------------------------------------------------------------ acceptance

  /**
   A session of a run that has seen the last commit is up to date with the file: so its saves, rotations, openings
   and verifications are accepted exactly as `Acceptance` says, whatever it has opened, edited or added.
   */
  lemma MembersFollow(c: Suite, w: World, i: nat, n0: nat)
    requires Inv(c, w, n0) && i in w.members && w.committed != [] && w.members[i].seen == Some(|w.committed| - 1)
    ensures w.disk.Some? && Follows(c, w.members[i].s, w.members[i].s.dek, w.disk.value)
    ensures ParseHeader(w.disk.value).Ok? && ParseHeader(w.disk.value).value.encCounter == Ledger(w.committed)
    ensures IndexOf(c, w.disk.value, w.members[i].s.dek, w.members[i].s.config.itemAlg)
         == w.committed[|w.committed| - 1].entries
  {
    hide HistoryOk, Decodes, DenseOk, Carries, MemberOk, Follows, Intact, IndexOf, Ledger, ParseHeaderVersion, Inv;
    var (m, last) := (w.members[i], w.committed[|w.committed| - 1]);
    LastGood(c, w, n0);
    CommitIntact(c, last, n0);
    MemberOf(c, w, i, n0);
    MemberFollows(c, w, m, n0);
  }

  lemma MemberOf(c: Suite, w: World, i: nat, n0: nat)
    requires Inv(c, w, n0) && i in w.members
    ensures MemberOk(c, w, w.members[i], n0)
  {
    hide HistoryOk, MemberOk;
  }

  /** The last commit is the file, decodes, and has the ledger in its header. */
  lemma LastGood(c: Suite, w: World, n0: nat)
    requires Inv(c, w, n0) && w.committed != []
    ensures var last := w.committed[|w.committed| - 1];
            && w.disk == Some(last.bytes) && Decodes(c, last) && DenseOk(last.entries, n0)
            && ParseHeader(last.bytes).Ok? && ParseHeader(last.bytes).value.encCounter == Ledger(w.committed)
  {
    hide HistoryOk, Decodes, DenseOk, Carries, MemberOk, Ledger, ParseHeaderVersion, Inv;
    HistoryOf(c, w, n0);
    CommitIs(c, w.committed, |w.committed| - 1, n0);
    LastCommit(c, w, n0);
    CommitHead(c, w.committed, n0, |w.committed| - 1);
    assert w.committed[..|w.committed|] == w.committed;
  }

  lemma MemberFollows(c: Suite, w: World, m: Member, n0: nat)
    requires MemberOk(c, w, m, n0) && w.committed != [] && m.seen == Some(|w.committed| - 1)
    requires var last := w.committed[|w.committed| - 1]; Decodes(c, last) && DenseOk(last.entries, n0)
    ensures var last := w.committed[|w.committed| - 1];
            m.s.dek == last.dek && m.s.config.itemAlg == last.alg && Follows(c, m.s, m.s.dek, last.bytes)
  {
    hide Decodes, DenseOk, MemberOk, Follows, Intact, Current, Extends, Orderly, IndexOf;
    var last := w.committed[|w.committed| - 1];
    SeenLast(c, w, m, n0);
    CommitIntact(c, last, n0);
    CurrentCommit(c, last, m.s.tag);
    MemberOrderly(m.s, n0);
    MemberExtends(c, w, m, n0);
    FollowsParts(c, m.s, m.s.dek, last.bytes);
  }

  lemma FollowsParts(c: Suite, s: Session, dek: Key, raw: Bytes)
    requires Orderly(s) && Current(c, raw, dek, s.tag) && Intact(c, raw, dek, s.config.itemAlg)
    requires Extends(s, IndexOf(c, raw, dek, s.config.itemAlg))
    ensures Follows(c, s, dek, raw)
  {
  }

  lemma SeenLast(c: Suite, w: World, m: Member, n0: nat)
    requires MemberOk(c, w, m, n0) && w.committed != [] && m.seen == Some(|w.committed| - 1)
    ensures var last := w.committed[|w.committed| - 1];
            && |last.bytes| >= MAC_LEN && m.s.tag == Some(FileTag(last.bytes))
            && m.s.dek == last.dek && m.s.config.itemAlg == last.alg && SessionOk(m.s, n0)
  {
    hide SessionOk, OpOk;
  }

  lemma CommitIntact(c: Suite, k: Commit, n0: nat)
    requires Decodes(c, k) && DenseOk(k.entries, n0)
    ensures Intact(c, k.bytes, k.dek, k.alg) && IndexOf(c, k.bytes, k.dek, k.alg) == k.entries
  {
    hide ReadIndex, FramesOf, AadBytes, ParseHeaderVersion, DecryptFrame, Authenticate;
    forall p | 0 <= p < |k.entries|
      ensures OpenSlot(c, k.dek, k.alg, CURRENT_VERSION, FramesIn(k.bytes), k.entries[p].slot, k.entries[p].itemId).Ok?
    {
      assert k.entries[p] in k.entries;
    }
  }

  lemma CurrentCommit(c: Suite, k: Commit, tag: Option<Mac>)
    requires Decodes(c, k) && |k.bytes| >= MAC_LEN && tag == Some(FileTag(k.bytes))
    ensures Current(c, k.bytes, k.dek, tag)
  {
    hide ReadIndex, AadBytes, ParseHeaderVersion, FramesOpen, Current;
    CurrentIff(c, k.bytes, k.dek, tag);
  }

  lemma MemberOrderly(s: Session, n0: nat)
    requires SessionOk(s, n0)
    ensures Orderly(s)
  {
  }

  lemma MemberExtends(c: Suite, w: World, m: Member, n0: nat)
    requires MemberOk(c, w, m, n0) && w.committed != [] && m.seen == Some(|w.committed| - 1)
    ensures Extends(m.s, w.committed[|w.committed| - 1].entries)
  {
    hide SessionOk, OpOk, FileTag;
  }
}
