/**
 Many sessions over one file, interleaved. A save takes the lock, reads the file,
 and publishes later; between the two any other session may act. Sessions open,
 read, edit in memory, save, fail, give up when the lock is held, and die at any moment.

 The committed files are recorded in order. The results speak of every reachable world.
 */
module History {
  import opened Prelude
  import opened Crypto
  import opened Header
  import opened Shape
  import opened Frames
  import opened Image
  import opened SaveProof
  import opened Steps
  import opened Failures

  /**
   A published file with the keys it was written under. `sealed` counts its encryptions under
   the data key; `cache` holds the records the session that wrote it had cached, by their new slots.
   */
  datatype Commit = Commit(
    bytes: Bytes, kek: Key, dek: Key, alg: Algorithm, entries: seq<IndexEntry>, counter: u32, sealed: nat,
    rekeyed: bool, cache: map<u32, ItemRecord>)

  datatype Op =
    | Resave
    | Edit(at: nat, title: Text, username: Text, record: ItemRecord)
    | Delete(id: u32)
    | Import(adds: seq<NewItem>, updates: seq<(u32, ItemRecord)>)
    | Rotate(kek: Key, dek: Key, params: KdfParams, salt: Salt, live: map<u32, ItemRecord>)
    | Password(kek: Key, params: KdfParams, salt: Salt)
    | Create

  datatype Pc = Idle | Saving(op: Op, read: Option<Bytes>)

  /** `seen` is the commit the session last read or wrote. */
  datatype Member = Member(s: Session, seen: Option<nat>, pc: Pc)

  datatype World = World(disk: Option<Bytes>, lock: Option<nat>, members: map<nat, Member>, committed: seq<Commit>)

  // ------------------------------------------------------------------ operations

  /** When an operation can be attempted at all; a rotation took its snapshot of one of the files there have been. */
  ghost predicate OpOk(c: Suite, ks: seq<Commit>, s: Session, op: Op) {
    match op
    case Resave => true
    case Edit(at, _, _, _) => at < |s.entries|
    case Delete(id) => LivePosition(s.entries, id).Some? && Position(s.entries, id).Some?
    case Import(adds, updates) =>
      AddAll(s, adds).1.Ok? && forall k :: 0 <= k < |updates| ==> updates[k].0 < |s.entries|
    case Rotate(_, _, _, _, live) => exists k :: 0 <= k < |ks| && Snapshot(c, s, ks[k].bytes) == Ok(live)
    case Password(_, _, _) => true
    case Create => s.tag.None? && s.entries == []
  }

  /** The session an operation tries to save. */
  function Candidate(s: Session, op: Op): Session {
    match op
    case Resave => s
    case Edit(at, title, username, record) => if at < |s.entries| then EditedAt(s, at, title, username, record) else s
    case Delete(id) => DeletionCandidate(s, id)
    case Import(adds, updates) => var s1 := AddAll(s, adds).0; s1.(cache := PutAll(s1.cache, updates))
    case Rotate(kek, dek, params, salt, live) => Rekeyed(s.(cache := s.cache + live), kek, dek, params, salt)
    case Password(kek, params, salt) => s.(kek := kek, config := s.config.(params := params, salt := salt))
    case Create => s
  }

  /** The session after the operation failed. */
  function Fallback(s: Session, op: Op): Session {
    match op
    case Resave => s
    case Edit(at, _, _, record) =>
      if at < |s.entries| && s.entries[at].slot !in s.cache
      then s.(cache := s.cache[s.entries[at].slot := record]) else s
    case Delete(_) => s
    case Import(_, _) => Candidate(s, op)
    case Rotate(_, _, _, _, live) => s.(cache := s.cache + live)
    case Password(_, _, _) => s
    case Create => s
  }

  predicate Rekeys(op: Op) {
    op.Rotate? || op.Create?
  }

  function HeaderFor(s: Session, op: Op, disk: Bytes): Result<ParsedHeader> {
    match op
    case Rotate(_, _, params, salt, _) =>
      Ok(FreshHeader(s.config.version, s.config.wrapAlg, s.config.itemAlg, params, salt))
    case Create => Ok(FreshHeader(s.config.version, s.config.wrapAlg, s.config.itemAlg, s.config.params, s.config.salt))
    case Password(_, params, salt) => var h :- ParseHeader(disk); Ok(PasswordHeader(h, params, salt))
    case _ => ParseHeader(disk)
  }

  // ----------------------------------------------------------------- transitions

  datatype Action =
    | Open(i: nat, password: Bytes)
    | Birth(i: nat, kek: Key, dek: Key, params: KdfParams, salt: Salt, wrapAlg: Algorithm, itemAlg: Algorithm)
    | Read(i: nat, id: u32)
    | Append(i: nat, item: NewItem)
    | Begin(i: nat, op: Op)
    | GiveUp(i: nat, op: Op)
    | Finish(i: nat, disk': Option<Bytes>, s': Session, r: Result<()>, d: Draws)
    | Die(i: nat, disk': Option<Bytes>, d: Draws)

  ghost predicate IsIdle(w: World, i: nat) {
    i in w.members && w.members[i].pc.Idle?
  }

  /** The save a session is in the middle of, with the file as it read it under the lock. */
  ghost predicate SaveOutcome(c: Suite, m: Member, disk': Option<Bytes>, s': Session, r: Result<()>, d: Draws)
    requires Lawful(c) && m.pc.Saving?
  {
    var header := HeaderFor(m.s, m.pc.op, BytesOf(m.pc.read));
    if header.Err? then r.Err? && disk' == m.pc.read && s' == Candidate(m.s, m.pc.op)
    else SaveStep(c, Candidate(m.s, m.pc.op), header.value, m.s.dek, m.pc.read, s', disk', r, d)
  }

  /** The commit a finished save adds, if it published. */
  ghost function CommitOf(c: Suite, m: Member, disk': Option<Bytes>): Commit
    requires m.pc.Saving?
  {
    var s1 := Candidate(m.s, m.pc.op);
    var header := HeaderFor(m.s, m.pc.op, BytesOf(m.pc.read));
    var p := if header.Ok? then Preflight(c, s1, header.value, m.s.dek, BytesOf(m.pc.read)) else Err(Encrypt);
    if p.Ok? then
      Commit(BytesOf(disk'), s1.kek, s1.dek, p.value.itemAlg, NormAll(p.value.entries), p.value.counter,
             FreshCount(s1.cache, s1.entries) + 1, Rekeys(m.pc.op),
             if |s1.entries| <= U32_MAX then Remap(s1.cache, s1.entries) else map[])
    else Commit(BytesOf(disk'), s1.kek, s1.dek, s1.config.itemAlg, [], 0, 0, false, map[])
  }

  function Unlocked(w: World, i: nat): Option<nat> {
    if w.lock == Some(i) then None else w.lock
  }

  ghost predicate Next(c: Suite, w: World, a: Action, w': World)
    requires Lawful(c)
  {
    match a
    case Open(i, password) =>
      && i !in w.members && w.disk.Some? && w.committed != []
      && var r := OpenBytes(c, w.disk.value, password, false);
      && r.Ok? && r.value.kek == w.committed[|w.committed| - 1].kek
      && w' == w.(members := w.members[i := Member(r.value, Some(|w.committed| - 1), Idle)])
    case Birth(i, kek, dek, params, salt, wrapAlg, itemAlg) =>
      && i !in w.members
      && w' == w.(members := w.members[i := Member(Newborn(kek, dek, params, salt, wrapAlg, itemAlg), None, Idle)])
    case Read(i, id) =>
      && IsIdle(w, i) && w.disk.Some?
      && w' == w.(members := w.members[i := w.members[i].(s := OpenItem(c, w.members[i].s, w.disk.value, id).0)])
    case Append(i, item) =>
      && IsIdle(w, i)
      && var s' := AddItem(w.members[i].s, item.title, item.username, item.record).0;
      && w' == w.(members := w.members[i := w.members[i].(s := s')])
    case Begin(i, op) =>
      && IsIdle(w, i) && w.lock.None? && OpOk(c, w.committed, w.members[i].s, op)
      && w' == w.(lock := Some(i), members := w.members[i := w.members[i].(pc := Saving(op, w.disk))])
    case GiveUp(i, op) =>
      && IsIdle(w, i) && OpOk(c, w.committed, w.members[i].s, op)
      && w' == w.(members := w.members[i := w.members[i].(s := Fallback(w.members[i].s, op))])
    case Finish(i, disk', s', r, d) =>
      && i in w.members && w.members[i].pc.Saving?
      && var m := w.members[i];
      && SaveOutcome(c, m, disk', s', r, d)
      && var published := r.Ok? || disk' != m.pc.read;
      && w' == World(
           if published then disk' else w.disk, Unlocked(w, i),
           w.members[i := if r.Ok? then Member(s', Some(|w.committed|), Idle)
                          else Member(Fallback(m.s, m.pc.op), m.seen, Idle)],
           if published then w.committed + [CommitOf(c, m, disk')] else w.committed)
    case Die(i, disk', d) =>
      && i in w.members
      && var m := w.members[i];
      if m.pc.Idle? then w' == w.(members := w.members - {i})
      else
        && SaveOutcome(c, m, disk', Candidate(m.s, m.pc.op), Err(Encrypt), d)
        && var published := disk' != m.pc.read;
        && w' == World(if published then disk' else w.disk, Unlocked(w, i), w.members - {i},
                       if published then w.committed + [CommitOf(c, m, disk')] else w.committed)
  }

  // ------------------------------------------------------------------ invariants

  /** Ids after the first `n0` entries are above everything before them; those first ones are distinct. */
  ghost predicate IdsOk(es: seq<IndexEntry>, n0: nat) {
    forall i, j :: 0 <= i < j < |es| ==>
      if n0 <= j then es[i].itemId < es[j].itemId else es[i].itemId != es[j].itemId
  }

  /** Dense slots, normalised states, allocated ids. */
  ghost predicate DenseOk(es: seq<IndexEntry>, n0: nat) {
    && IdsOk(es, n0)
    && forall i :: 0 <= i < |es| ==> es[i].slot == i && (es[i].state == LIVE || es[i].state == TOMBSTONE)
  }

  ghost predicate SessionOk(s: Session, n0: nat) {
    && s.config.version == CURRENT_VERSION
    && DenseOk(s.entries, n0)
    && (forall e :: e in s.entries ==> e.itemId < s.nextId)
    && forall slot :: slot in s.cache ==> slot < |s.entries|
  }

  /** Every entry from position `n` on is cached: what a session added and has not saved. */
  ghost predicate CachedFrom(s: Session, n: nat) {
    forall p :: n <= p < |s.entries| ==> p in s.cache
  }

  /** The same entries and possibly more, each of those cached, and nothing dropped from the cache. */
  ghost predicate Grows(s: Session, t: Session) {
    && s.entries <= t.entries && CachedFrom(t, |s.entries|)
    && forall slot :: slot in s.cache ==> slot in t.cache
  }

  /** `later` continues `earlier`: the same ids in the same places, and the dead stay dead. */
  ghost predicate Continues(earlier: seq<IndexEntry>, later: seq<IndexEntry>) {
    && |earlier| <= |later|
    && forall i :: 0 <= i < |earlier| ==>
         later[i].itemId == earlier[i].itemId && (earlier[i].state == TOMBSTONE ==> later[i].state == TOMBSTONE)
  }

  /** The commit's bytes are what the record says. */
  ghost predicate Decodes(c: Suite, k: Commit) {
    && ParseHeader(k.bytes).Ok?
    && var h := ParseHeader(k.bytes).value;
    && h.encCounter == k.counter
    && AlgorithmFromId(h.itemAlgId) == Ok(k.alg)
    && AlgorithmFromId(h.wrapAlgId).Ok?
    && c.unseal(AlgorithmFromId(h.wrapAlgId).value, k.kek, h.wrapNonce, h.wrappedDek + h.wrapTag, AadBytes(h))
      == Some(k.dek)
    && ReadIndex(c, k.bytes, CURRENT_VERSION, k.dek, k.alg) == Ok(k.entries)
    && FramesOpen(c, k)
    && Authenticate(c, k.bytes, k.dek).Ok?
  }

  /** Every entry opens a frame of its own, and no frame is left over. */
  ghost predicate FramesOpen(c: Suite, k: Commit) {
    && FramesOf(k.bytes, true, TRAILER_LEN).Ok?
    && EveryFrameOpens(c, k.dek, k.alg, CURRENT_VERSION, k.entries, FramesOf(k.bytes, true, TRAILER_LEN).value)
  }

  /** The items of a commit, as its bytes hold them. */
  ghost function RecordsIn(c: Suite, k: Commit): seq<Item> {
    OldItems(c, k.bytes, k.dek)
  }

  /**
   Each item is as the saving session had it cached, else empty if it is dead, else as the
   commit before held it.
   */
  ghost predicate Carries(c: Suite, before: seq<Item>, k: Commit) {
    RecordsIn(c, k) == Meaning(k.cache, k.entries, before)
  }

  /** The items a commit builds on. */
  ghost function ItemsBefore(c: Suite, ks: seq<Commit>, k: nat): seq<Item>
    requires k <= |ks|
  {
    if k == 0 then [] else RecordsIn(c, ks[k - 1])
  }

  lemma DecodedLength(c: Suite, k: Commit)
    requires Decodes(c, k)
    ensures |k.bytes| >= HEADER_LEN
  {
    hide ReadIndex, AadBytes, FramesOpen;
  }

  ghost predicate CommitOk(c: Suite, k: Commit, n0: nat) {
    Decodes(c, k) && DenseOk(k.entries, n0)
  }

  /** Encryptions under the current data key, over all commits since the last new key. */
  function Ledger(ks: seq<Commit>): nat {
    if ks == [] then 0
    else
      var last := ks[|ks| - 1];
      last.sealed + if last.rekeyed then 0 else Ledger(ks[..|ks| - 1])
  }

  /**
   The k-th commit decodes, continues the one before it and carries its items on, and its
   counter is the ledger so far.
   */
  ghost predicate CommitAt(c: Suite, ks: seq<Commit>, k: nat, n0: nat)
    requires k < |ks|
  {
    && CommitOk(c, ks[k], n0)
    && (k > 0 ==> Continues(ks[k - 1].entries, ks[k].entries))
    && Carries(c, ItemsBefore(c, ks, k), ks[k])
    && ks[k].counter == Ledger(ks[..k + 1]) <= ROTATION_LIMIT
  }

  ghost predicate HistoryOk(c: Suite, ks: seq<Commit>, n0: nat) {
    forall k :: 0 <= k < |ks| ==> CommitAt(c, ks, k, n0)
  }

  ghost predicate MemberOk(c: Suite, w: World, m: Member, n0: nat) {
    && SessionOk(m.s, n0)
    && (m.pc.Saving? ==> m.pc.read == w.disk && OpOk(c, w.committed, m.s, m.pc.op))
    && match m.seen
       case None => m.s.tag.None? && CachedFrom(m.s, 0)
       case Some(k) =>
         && k < |w.committed|
         && |w.committed[k].bytes| >= MAC_LEN
         && m.s.tag == Some(FileTag(w.committed[k].bytes))
         && m.s.dek == w.committed[k].dek && m.s.config.itemAlg == w.committed[k].alg
         && w.committed[k].entries <= m.s.entries && CachedFrom(m.s, |w.committed[k].entries|)
  }

  ghost predicate Inv(c: Suite, w: World, n0: nat) {
    && (if w.committed == [] then w.disk.None? && n0 == 0 else w.disk == Some(w.committed[|w.committed| - 1].bytes))
    && HistoryOk(c, w.committed, n0)
    && (forall i :: i in w.members ==> MemberOk(c, w, w.members[i], n0))
    && (forall i :: i in w.members && w.members[i].pc.Saving? ==> w.lock == Some(i))
    && (w.lock.Some? ==> w.lock.value in w.members && w.members[w.lock.value].pc.Saving?)
  }

  /** The assumption on the commit tags: distinct commits carry distinct tags. */
  ghost predicate NoTagCollision(ks: seq<Commit>) {
    forall i, j :: 0 <= i < j < |ks| && |ks[i].bytes| >= MAC_LEN && |ks[j].bytes| >= MAC_LEN ==>
      FileTag(ks[i].bytes) != FileTag(ks[j].bytes)
  }
}
