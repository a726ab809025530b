/** There are runs to speak of, with commits whose tags differ. */
module Runs {
  import opened Prelude
  import opened Crypto
  import opened Header
  import opened Frames
  import opened Image
  import opened SaveProof
  import opened Shape
  import opened Steps
  import opened Acceptance
  import opened Failures
  import opened History
  import opened HistoryProof
  import opened RecordHistory
  import opened Simulation

  /** A session that encrypts every entry afresh saves whenever its plan exists, and can then save over its own file. */
  lemma FreshSaves(c: Suite, s: Session, header: ParsedHeader, disk: Option<Bytes>, d: Draws)
    returns (s': Session, img: Bytes)
    requires Lawful(c) && Preflight(c, s, header, s.dek, BytesOf(disk)).Ok? && |d.items| == |s.entries|
    requires header.version == CURRENT_VERSION && header.pad == ZERO_PAD && (s.tag.None? ==> disk.None?)
    requires SlotsDistinct(s.entries)
    requires forall e :: e in s.entries ==> Dead(e.state) || (e.state == LIVE && e.slot in s.cache)
    ensures SaveStep(c, s, header, s.dek, disk, s', Some(img), Ok(()), d)
    ensures |s.entries| <= U32_MAX
    ensures s' == s.(entries := Renumber(s.entries), cache := Remap(s.cache, s.entries), config := s'.config,
                     tag := Some(FileTag(img)))
    ensures Authenticate(c, img, s.dek) == Ok(FileTag(img)) && OldFile(c, s'.tag, s.dek, img).Ok?
    ensures ParseHeader(img).Ok?
    ensures var h := ParseHeader(img).value;
            && h.encCounter == header.encCounter + FreshCount(s.cache, s.entries) + 1
            && h.version == CURRENT_VERSION && h.pad == ZERO_PAD
            && AlgorithmFromId(h.wrapAlgId).Ok? && AlgorithmFromId(h.itemAlgId).Ok?
  {
    hide OldFile, Authenticate, Fitting, ImageOf, TagOf, Decodes, SaveStep, Carries, AadBytes, ParseHeaderVersion,
         Preflight, Remap, FreshCount;
    var before := BytesOf(disk);
    var p := Preflight(c, s, header, s.dek, before).value;
    PlanShape(c, s, header, s.dek, before, p);
    PreflightFits(c, s, header, s.dek, before, d);
    img := ImageOf(c, s, header, p, d);
    s' := Committed(s, p, TagOf(c, s, header, p, d));
    SaveSucceeded(c, s, header, s.dek, disk, p, d, s', Some(img));
    ImageDecodes(c, s, header, s.dek, before, p, d, None, 1, false);
    SaveAuthenticates(c, s, header, s.dek, before, p, d);
    ReadsBack(c, ImageCommit(c, s, header, p, d, 1, false), s'.tag);
    VersionIsCurrent(img);
  }

  /** After such a save the session is up to date with its file: there are such sessions, with any items. */
  lemma FreshFollows(c: Suite, s: Session, header: ParsedHeader, disk: Option<Bytes>, d: Draws)
    returns (s': Session, img: Bytes)
    requires Lawful(c) && Preflight(c, s, header, s.dek, BytesOf(disk)).Ok? && |d.items| == |s.entries|
    requires header.version == CURRENT_VERSION && header.pad == ZERO_PAD && (s.tag.None? ==> disk.None?)
    requires s.config.version == CURRENT_VERSION && AlgorithmFromId(header.itemAlgId) == Ok(s.config.itemAlg)
    requires SlotsDistinct(s.entries) && IdsDistinct(s.entries)
    requires forall e :: e in s.entries ==> e.state == TOMBSTONE || (e.state == LIVE && e.slot in s.cache)
    ensures SaveStep(c, s, header, s.dek, disk, s', Some(img), Ok(()), d)
    ensures Follows(c, s', s'.dek, img)
  {
    hide OldFile, Authenticate, Fitting, ImageOf, TagOf, Decodes, SaveStep, Carries, AadBytes, ParseHeaderVersion,
         Preflight, Remap, FreshCount, Current, Intact, IndexOf, SlotsDistinct, Follows, Orderly, Extends, DenseOk,
         IdsDistinct;
    var before := BytesOf(disk);
    var p := Preflight(c, s, header, s.dek, before).value;
    PlanShape(c, s, header, s.dek, before, p);
    PreflightFits(c, s, header, s.dek, before, d);
    img := ImageOf(c, s, header, p, d);
    s' := Committed(s, p, TagOf(c, s, header, p, d));
    SaveSucceeded(c, s, header, s.dek, disk, p, d, s', Some(img));
    ImageDecodes(c, s, header, s.dek, before, p, d, None, 1, false);
    var k := ImageCommit(c, s, header, p, d, 1, false);
    RenumberedOrderly(s, s');
    CommitIntact(c, k, |s.entries|);
    CurrentCommit(c, k, s'.tag);
    FollowsParts(c, s', s.dek, img);
  }

  lemma RenumberedOrderly(s: Session, t: Session)
    requires |s.entries| <= U32_MAX && t.entries == Renumber(s.entries) && t.cache == Remap(s.cache, s.entries)
    requires t.config.version == CURRENT_VERSION && IdsDistinct(s.entries)
    requires forall e :: e in s.entries ==> e.state == LIVE || e.state == TOMBSTONE
    ensures Orderly(t) && DenseOk(NormAll(t.entries), |s.entries|) && Extends(t, NormAll(t.entries))
  {
    assert forall i :: 0 <= i < |s.entries| ==> s.entries[i] in s.entries;
  }

  /** A session without entries saves over nothing, or over a good file whose tag it keeps. */
  lemma EmptyFits(c: Suite, s: Session, header: ParsedHeader, disk: Option<Bytes>)
    requires s.entries == [] && header.encCounter < ROTATION_LIMIT
    requires AlgorithmFromId(header.wrapAlgId).Ok? && AlgorithmFromId(header.itemAlgId).Ok?
    requires OldFile(c, s.tag, s.dek, BytesOf(disk)).Ok?
    ensures Preflight(c, s, header, s.dek, BytesOf(disk)).Ok?
  {
    hide OldFile;
  }

  /** A good commit is an old file to any session that keeps its tag. */
  lemma ReadsBack(c: Suite, k: Commit, tag: Option<Mac>)
    requires Decodes(c, k) && |k.bytes| >= MAC_LEN
    requires Authenticate(c, k.bytes, k.dek) == Ok(FileTag(k.bytes)) && tag == Some(FileTag(k.bytes))
    ensures OldFile(c, tag, k.dek, k.bytes).Ok?
    ensures ParseHeader(k.bytes).Ok? && ParseHeader(k.bytes).value.encCounter == k.counter
    ensures AlgorithmFromId(ParseHeader(k.bytes).value.wrapAlgId).Ok?
    ensures AlgorithmFromId(ParseHeader(k.bytes).value.itemAlgId).Ok?
  {
    hide ReadIndex, FramesOf, AadBytes, Authenticate, FileTag, ParseHeaderVersion, EveryFrameOpens, SlotMap;
    VersionIsCurrent(k.bytes);
  }

  ghost predicate Counts(c: Suite, raw: Bytes, dek: Key, n: nat) {
    Authenticate(c, raw, dek).Ok? && ParseHeader(raw).Ok? && ParseHeader(raw).value.encCounter == n
  }

  /** From nothing: a creation, and a second save of the same session. Both files authenticate; the counter goes on. */
  lemma TwoSaves(c: Suite, kek: Key, dek: Key, params: KdfParams, salt: Salt, wrapAlg: Algorithm, itemAlg: Algorithm,
                 d1: Draws, d2: Draws)
    returns (ws: seq<World>, acts: seq<Action>)
    requires Lawful(c) && d1.items == [] && d2.items == []
    ensures RunFrom(c, GENESIS, ws, acts) && |ws[|ws| - 1].committed| == 2
    ensures var ks := ws[|ws| - 1].committed; Counts(c, ks[0].bytes, dek, 1) && Counts(c, ks[1].bytes, dek, 2)
  {
    hide OldFile, Authenticate, SaveStep, AadBytes, ParseHeaderVersion, Next, CommitOf;
    var s := Newborn(kek, dek, params, salt, wrapAlg, itemAlg);
    var h := FreshHeader(CURRENT_VERSION, wrapAlg, itemAlg, params, salt);
    NothingThere(c, dek);
    EmptyFits(c, s, h, None);
    var s1, img1 := FreshSaves(c, s, h, None, d1);
    assert Remap(s.cache, s.entries) == map[] && s1.entries == [];
    ws, acts := CreationSteps(c, GENESIS, 0, kek, dek, params, salt, wrapAlg, itemAlg, s1, Some(img1), Ok(()), d1);
    var w := ws[|ws| - 1];
    EmptyFits(c, s1, ParseHeader(img1).value, w.disk);
    var s2, img2 := FreshSaves(c, s1, ParseHeader(img1).value, w.disk, d2);
    assert SaveOutcome(c, Member(s1, None, Saving(Resave, w.disk)), Some(img2), s2, Ok(()), d2);
    var vs, bs := OperationSteps(c, w, 0, Resave, s2, Some(img2), Ok(()), d2);
    ws, acts := Joined(c, ws, acts, vs, bs);
  }

  lemma NothingThere(c: Suite, dek: Key)
    ensures OldFile(c, None, dek, []).Ok?
  {
  }

  /** With the stamping suite the tag of a file shows the counter in its header. */
  lemma TagShowsCounter(raw: Bytes, dek: Key)
    requires Authenticate(Stamping(), raw, dek).Ok?
    ensures |raw| >= HEADER_LEN && ParseHeader(raw).Ok?
    ensures U32Of(FileTag(raw)[..4]) == ParseHeader(raw).value.encCounter
  {
    hide U32Of;
    assert raw[..|raw| - MAC_LEN][35..39] == raw[35..39];
  }

  /** A run whose two commits carry different tags under one data key: the assumption of the histories can be met. */
  lemma DistinctTags(kek: Key, dek: Key, params: KdfParams, salt: Salt, wrapAlg: Algorithm, itemAlg: Algorithm,
                     d1: Draws, d2: Draws)
    returns (ws: seq<World>, acts: seq<Action>)
    requires d1.items == [] && d2.items == []
    ensures Lawful(Stamping()) && RunFrom(Stamping(), GENESIS, ws, acts)
    ensures |ws[|ws| - 1].committed| == 2 && NoTagCollision(ws[|ws| - 1].committed)
  {
    hide Next, Authenticate, ParseHeaderVersion, U32Of, FileTag;
    StampingIsLawful();
    ws, acts := TwoSaves(Stamping(), kek, dek, params, salt, wrapAlg, itemAlg, d1, d2);
    var ks := ws[|ws| - 1].committed;
    TagShowsCounter(ks[0].bytes, dek);
    TagShowsCounter(ks[1].bytes, dek);
  }
}
