/** The loops of a save, each proved against the function of `Image` it computes. */
module SaveLoops {
  import opened Prelude
  import opened Crypto
  import opened Shape
  import opened Image
  import opened Steps
  import opened Random
  import opened Nonces
  import ShapeIo

  /** How many entries will be encrypted afresh. */
  method CountFresh(cache: map<u32, ItemRecord>, es: seq<IndexEntry>) returns (n: nat)
    ensures n == FreshCount(cache, es)
  {
    n := 0;
    for i := 0 to |es|
      invariant n == FreshCount(cache, es[..i])
    {
      FreshCountStep(cache, es, i);
      if Dead(es[i].state) || es[i].slot in cache {
        n := n + 1;
      }
    }
    assert es[..|es|] == es;
  }

  /** The slot of each id in the old index. */
  method IndexById(es: seq<IndexEntry>) returns (m: map<u32, u32>)
    ensures m == SlotMap(es)
  {
    m := map[];
    for i := 0 to |es|
      invariant m == SlotMap(es[..i])
    {
      assert es[..i + 1][..i] == es[..i];
      m := m[es[i].itemId := es[i].slot];
    }
    assert es[..|es|] == es;
  }

  lemma {:induction false} SourcesPrefix(cache: map<u32, ItemRecord>, slots: map<u32, u32>, frames: seq<Bytes>,
                                         es: seq<IndexEntry>, i: nat)
    requires i <= |es|
    ensures Sources(cache, slots, frames, es).Ok? ==>
              && Sources(cache, slots, frames, es[..i]) == Ok(Sources(cache, slots, frames, es).value[..i])
              && SourcesLen(Sources(cache, slots, frames, es).value[..i])
                 <= SourcesLen(Sources(cache, slots, frames, es).value)
    ensures Sources(cache, slots, frames, es[..i]).Err? ==> Sources(cache, slots, frames, es).Err?
    decreases |es|
  {
    hide SourceOf, SourceLen;
    if i == |es| {
      assert es[..i] == es;
      var r := Sources(cache, slots, frames, es);
      assert r.Ok? ==> r.value[..i] == r.value;
    } else {
      var front := es[..|es| - 1];
      SourcesPrefix(cache, slots, frames, front, i);
      assert front[..i] == es[..i];
      var r := Sources(cache, slots, frames, es);
      if r.Ok? {
        assert r.value[..|es| - 1] == Sources(cache, slots, frames, front).value;
        assert r.value[..|es| - 1][..i] == r.value[..i];
      }
    }
  }

  /** The length of one new frame, from whichever source it will come. */
  method FrameLenFor(cache: map<u32, ItemRecord>, slots: map<u32, u32>, frames: seq<Bytes>, e: IndexEntry)
    returns (r: Result<nat>)
    ensures match SourceOf(cache, slots, frames, e)
            case Ok(source) => r == Ok(SourceLen(source))
            case Err(error) => r == Err(error)
  {
    hide ValidItem, ItemLen;
    if e.slot in cache {
      if !ValidItem(cache[e.slot]) {
        return Err(Encrypt);
      }
      return Ok(NONCE_LEN + 4 + ItemLen(cache[e.slot]) + TAG_LEN);
    } else if Dead(e.state) {
      PlaceholderLen();
      return Ok(NONCE_LEN + 4 + 25 + TAG_LEN);
    } else if e.itemId !in slots || slots[e.itemId] >= |frames| {
      return Err(Encrypt);
    }
    return Ok(|frames[slots[e.itemId]]|);
  }

  lemma SourceErrors(cache: map<u32, ItemRecord>, slots: map<u32, u32>, frames: seq<Bytes>, e: IndexEntry)
    ensures SourceOf(cache, slots, frames, e).Err? ==> SourceOf(cache, slots, frames, e) == Err(Encrypt)
  {
  }

  /** One more entry: its source and its length are added. */
  lemma SourcesStep(cache: map<u32, ItemRecord>, slots: map<u32, u32>, frames: seq<Bytes>, es: seq<IndexEntry>, i: nat)
    requires i < |es| && Sources(cache, slots, frames, es[..i]).Ok?
    ensures var (was, now, one) := (Sources(cache, slots, frames, es[..i]), Sources(cache, slots, frames, es[..i + 1]),
                                    SourceOf(cache, slots, frames, es[i]));
            && now.Ok? == one.Ok?
            && (one.Ok? ==> now.value == was.value + [one.value]
                            && SourcesLen(now.value) == SourcesLen(was.value) + SourceLen(one.value))
  {
    hide SourceOf, SourceLen;
    assert es[..i + 1][..i] == es[..i];
    if SourceOf(cache, slots, frames, es[i]).Ok? {
      var (was, one) := (Sources(cache, slots, frames, es[..i]).value, SourceOf(cache, slots, frames, es[i]).value);
      assert (was + [one])[..i] == was;
    }
  }

  /**
   The size of the candidate, before encryption or allocation. Refusing as soon as the
   running total passes the limit gives the same answer as adding everything up first.
   */
  method CandidateSize(base: nat, cache: map<u32, ItemRecord>, slots: map<u32, u32>, frames: seq<Bytes>,
                       es: seq<IndexEntry>)
    returns (r: Result<nat>)
    ensures r.Ok? <==> Sources(cache, slots, frames, es).Ok?
                       && base + SourcesLen(Sources(cache, slots, frames, es).value) <= MAX_VAULT_BYTES
    ensures r.Ok? ==> r.value == base + SourcesLen(Sources(cache, slots, frames, es).value)
    ensures r.Err? ==> r == Err(Encrypt)
  {
    hide SourceOf, SourceLen, Sources, SourcesLen;
    var len := base;
    SourcesNone(cache, slots, frames);
    assert es[..0] == [];
    for i := 0 to |es|
      invariant Sources(cache, slots, frames, es[..i]).Ok?
      invariant len == base + SourcesLen(Sources(cache, slots, frames, es[..i]).value)
    {
      SourcesStep(cache, slots, frames, es, i);
      SourcesPrefix(cache, slots, frames, es, i + 1);
      SourceErrors(cache, slots, frames, es[i]);
      var frameLen :- FrameLenFor(cache, slots, frames, es[i]);
      len := len + frameLen;
      if len > MAX_VAULT_BYTES {
        return Err(Encrypt);
      }
    }
    assert es[..|es|] == es;
    if len > MAX_VAULT_BYTES {
      return Err(Encrypt);
    }
    return Ok(len);
  }

  lemma SourcesNone(cache: map<u32, ItemRecord>, slots: map<u32, u32>, frames: seq<Bytes>)
    ensures Sources(cache, slots, frames, []) == Ok([]) && SourcesLen([]) == 0
  {
  }

  lemma PlaceholderLen()
    ensures ItemLen(PLACEHOLDER) == 25 && ValidItem(PLACEHOLDER)
  {
  }

  /** One sealed item frame under a fresh nonce. */
  method SealItem(c: Suite, dek: Key, alg: Algorithm, version: byte, rng: Entropy, record: ItemRecord, id: u32)
    returns (r: Result<Bytes>, ghost nonce: Nonce)
    requires Lawful(c) && ValidItem(record)
    modifies rng
    ensures r.Ok? ==> r.value == SealedFrame(c, dek, alg, version, nonce, record, id)
    ensures if |old(rng.pool)| < NONCE_LEN then r == Err(Rng)
            else r.Ok? && nonce == old(rng.pool)[..NONCE_LEN] && rng.pool == old(rng.pool)[NONCE_LEN..]
  {
    hide BE32, ItemBytes, ItemLen, ValidItem;
    nonce := Zeros(NONCE_LEN);
    ItemLenIsExact(record, id);
    var pt := ShapeIo.SerializeItem(record, id);
    var drawn := rng.Draw(NONCE_LEN);
    if drawn.Err? {
      return Err(drawn.error), nonce;
    }
    nonce := drawn.value;
    var ct := c.seal(alg, dek, drawn.value, pt.value, ItemAad(version, id));
    var split := |ct| - TAG_LEN;
    ItemLenBound(record);
    var frame := drawn.value + BE32(split) + ct[..split] + ct[split..];
    assert ct[..split] + ct[split..] == ct;
    return Ok(frame), nonce;
  }

  lemma ItemLenBound(r: ItemRecord)
    requires ValidItem(r)
    ensures ItemLen(r) + TAG_LEN <= U32_MAX
  {
  }

  /** One frame of the new image: sealed from the cache, sealed empty, or copied. */
  method EmitFrame(c: Suite, dek: Key, alg: Algorithm, version: byte, rng: Entropy,
                   cache: map<u32, ItemRecord>, slots: map<u32, u32>, frames: seq<Bytes>, e: IndexEntry)
    returns (r: Result<Bytes>, ghost nonce: Nonce, ghost sealed: bool)
    requires Lawful(c) && SourceOf(cache, slots, frames, e).Ok?
    modifies rng
    ensures var source := SourceOf(cache, slots, frames, e).value;
            && (source.Seal? ==> ValidItem(source.record))
            && (r.Ok? ==> r.value == FrameFrom(c, dek, alg, version, source, nonce, e.itemId))
    ensures r.Ok? ==> (sealed <==> IsFresh(cache, e))
    ensures if !IsFresh(cache, e) then r.Ok? && nonce == Zeros(NONCE_LEN) && rng.pool == old(rng.pool)
            else if |old(rng.pool)| < NONCE_LEN then r == Err(Rng)
            else r.Ok? && nonce == old(rng.pool)[..NONCE_LEN] && rng.pool == old(rng.pool)[NONCE_LEN..]
  {
    hide SealedFrame, ValidItem;
    nonce := Zeros(NONCE_LEN);
    if e.slot in cache {
      sealed := true;
      r, nonce := SealItem(c, dek, alg, version, rng, cache[e.slot], e.itemId);
    } else if Dead(e.state) {
      PlaceholderLen();
      sealed := true;
      r, nonce := SealItem(c, dek, alg, version, rng, PLACEHOLDER, e.itemId);
    } else {
      sealed := false;
      r := Ok(frames[slots[e.itemId]]);
    }
  }

  /** All frames, appended to `out` in entry order; `sealed` counts the encryptions performed. */
  method EmitFrames(c: Suite, dek: Key, alg: Algorithm, version: byte, rng: Entropy, cache: map<u32, ItemRecord>,
                    slots: map<u32, u32>, frames: seq<Bytes>, es: seq<IndexEntry>, start: Bytes, ghost p: Plan,
                    ghost d: Draws, ghost pool: Bytes)
    returns (r: Result<Bytes>, ghost d': Draws, ghost sealed: nat)
    requires Lawful(c) && Fitting(p, d) && |es| == |p.sources| && alg == p.itemAlg
    requires forall i :: 0 <= i < |es| ==>
               SourceOf(cache, slots, frames, es[i]) == Ok(p.sources[i]) && es[i].itemId == p.entries[i].itemId
    requires |pool| >= 2 * NONCE_LEN && rng.pool == pool[2 * NONCE_LEN..]
    modifies rng
    ensures d'.wrapNonce == d.wrapNonce && d'.indexNonce == d.indexNonce && Fitting(p, d')
    ensures r.Ok? ==> r.value == start + Concat(NewFrames(c, dek, version, p, d'))
    ensures r.Ok? ==> sealed == FreshCount(cache, es) && d'.items == Drawn(pool, cache, es).items
    ensures r.Ok? ==> NONCE_LEN * (2 + sealed) <= |pool| && rng.pool == pool[NONCE_LEN * (2 + sealed)..]
    ensures if |pool| < NONCE_LEN * (2 + FreshCount(cache, es)) then r == Err(Rng) else r.Ok?
  {
    hide SourceOf, FrameFrom, Concat, ValidItem, NewFrames, Emitted, FreshCount, IsFresh, ItemNonce;
    var out := start;
    ghost var nonces: seq<Nonce> := [];
    ghost var done: seq<Bytes> := [];
    sealed := 0;
    NothingEmitted(c, dek, version, p, cache, es);
    for i := 0 to |es|
      invariant out == start + Concat(done)
      invariant Emitted(c, dek, version, p, nonces, done, i)
      invariant sealed == FreshCount(cache, es[..i])
      invariant NONCE_LEN * (2 + sealed) <= |pool| && rng.pool == pool[NONCE_LEN * (2 + sealed)..]
      invariant |nonces| == i && forall k :: 0 <= k < i ==> nonces[k] == ItemNonce(pool, cache, es, k)
    {
      FreshCountBound(cache, es, i);
      NextNonce(pool, cache, es, i);
      var frame, nonce, one := EmitFrame(c, dek, alg, version, rng, cache, slots, frames, es[i]);
      if frame.Err? {
        return Err(frame.error), d, sealed;
      }
      out := out + frame.value;
      ConcatPush(done, frame.value);
      EmittedStep(c, dek, version, p, nonces, done, i, nonce, frame.value);
      FreshCountStep(cache, es, i);
      done := done + [frame.value];
      nonces := nonces + [nonce];
      sealed := sealed + if one then 1 else 0;
    }
    assert es[..|es|] == es;
    d' := Draws(d.wrapNonce, d.indexNonce, nonces);
    EmittedAll(c, dek, version, p, d', done);
    return Ok(out), d', sealed;
  }

  lemma NextNonce(pool: Bytes, cache: map<u32, ItemRecord>, es: seq<IndexEntry>, i: nat)
    requires i < |es| && NONCE_LEN * (2 + FreshCount(cache, es[..i])) <= |pool|
    ensures var rest := pool[NONCE_LEN * (2 + FreshCount(cache, es[..i]))..];
            if !IsFresh(cache, es[i]) then ItemNonce(pool, cache, es, i) == Zeros(NONCE_LEN)
            else if |rest| < NONCE_LEN then |pool| < NONCE_LEN * (3 + FreshCount(cache, es[..i]))
            else
              && NONCE_LEN * (3 + FreshCount(cache, es[..i])) <= |pool|
              && ItemNonce(pool, cache, es, i) == rest[..NONCE_LEN]
              && rest[NONCE_LEN..] == pool[NONCE_LEN * (3 + FreshCount(cache, es[..i]))..]
  {
    hide FreshCount, IsFresh;
  }

  /** The first `n` frames of the plan, under these nonces. */
  ghost predicate Emitted(c: Suite, dek: Key, version: byte, p: Plan, nonces: seq<Nonce>, done: seq<Bytes>, n: nat)
    requires Lawful(c)
  {
    && |nonces| == |done| == n <= |p.sources| == |p.entries|
    && forall k :: 0 <= k < n ==>
         && (p.sources[k].Seal? ==> ValidItem(p.sources[k].record))
         && done[k] == FrameFrom(c, dek, p.itemAlg, version, p.sources[k], nonces[k], p.entries[k].itemId)
  }

  lemma NothingEmitted(c: Suite, dek: Key, version: byte, p: Plan, cache: map<u32, ItemRecord>, es: seq<IndexEntry>)
    requires Lawful(c) && |p.sources| == |p.entries|
    ensures Emitted(c, dek, version, p, [], [], 0)
    ensures Concat<byte>([]) == [] && FreshCount(cache, es[..0]) == 0
  {
  }

  lemma EmittedStep(c: Suite, dek: Key, version: byte, p: Plan, nonces: seq<Nonce>, done: seq<Bytes>, i: nat,
                    nonce: Nonce, frame: Bytes)
    requires Lawful(c) && Emitted(c, dek, version, p, nonces, done, i) && i < |p.sources|
    requires p.sources[i].Seal? ==> ValidItem(p.sources[i].record)
    requires frame == FrameFrom(c, dek, p.itemAlg, version, p.sources[i], nonce, p.entries[i].itemId)
    ensures Emitted(c, dek, version, p, nonces + [nonce], done + [frame], i + 1)
  {
    hide FrameFrom, ValidItem;
  }

  lemma EmittedAll(c: Suite, dek: Key, version: byte, p: Plan, d: Draws, done: seq<Bytes>)
    requires Lawful(c) && Emitted(c, dek, version, p, d.items, done, |p.sources|) && |p.entries| <= U32_MAX
    requires |p.indexPt| + TAG_LEN <= U32_MAX
    ensures Fitting(p, d) && done == NewFrames(c, dek, version, p, d)
  {
    hide FrameFrom, ValidItem;
  }

  function SlotsOf(es: seq<IndexEntry>): set<u32> {
    set e | e in es :: e.slot
  }

  lemma FirstMeansUnseen(es: seq<IndexEntry>, i: nat)
    requires i < |es|
    ensures FirstOfSlot(es, i) <==> es[i].slot !in SlotsOf(es[..i])
    ensures SlotsOf(es[..i + 1]) == SlotsOf(es[..i]) + {es[i].slot}
  {
    assert es[..i + 1] == es[..i] + [es[i]];
    forall j | 0 <= j < i
      ensures es[j].slot in SlotsOf(es[..i])
    {
      assert es[..i][j] in es[..i];
    }
  }

  lemma FirstInPrefix(es: seq<IndexEntry>, n: nat, k: nat)
    requires k < n <= |es|
    ensures FirstOfSlot(es[..n], k) <==> FirstOfSlot(es, k)
  {
    assert forall j :: 0 <= j <= k ==> es[..n][j] == es[j];
  }

  lemma RemapStep(items: map<u32, ItemRecord>, es: seq<IndexEntry>, i: u32)
    requires i < |es| <= U32_MAX
    ensures Remap(items, es[..i + 1]) ==
            if es[i].slot in items && FirstOfSlot(es, i) then Remap(items, es[..i])[i := items[es[i].slot]]
            else Remap(items, es[..i])
  {
    hide FirstOfSlot;
    var (was, now) := (Remap(items, es[..i]), Remap(items, es[..i + 1]));
    FirstInPrefix(es, i + 1, i);
    forall k: u32 | k < i
      ensures k in was <==> k in now
      ensures k in was ==> was[k] == now[k]
    {
      FirstInPrefix(es, i, k);
      FirstInPrefix(es, i + 1, k);
    }
  }

  /** Moves the cached records to their new slots. */
  method RemapItems(items: map<u32, ItemRecord>, es: seq<IndexEntry>) returns (moved: map<u32, ItemRecord>)
    requires |es| <= U32_MAX
    ensures moved == Remap(items, es)
  {
    hide SlotsOf, Remap, FirstOfSlot;
    var left := items;
    moved := map[];
    NothingMoved(items, es);
    for i := 0 to |es|
      invariant left == items - SlotsOf(es[..i])
      invariant moved == Remap(items, es[..i])
    {
      FirstMeansUnseen(es, i);
      RemapStep(items, es, i);
      var slot := es[i].slot;
      if slot in left {
        moved := moved[i := left[slot]];
        left := left - {slot};
      }
    }
    assert es[..|es|] == es;
  }

  lemma NothingMoved(items: map<u32, ItemRecord>, es: seq<IndexEntry>)
    ensures Remap(items, es[..0]) == map[] && SlotsOf(es[..0]) == {}
  {
    assert es[..0] == [];
  }

  /** What a save carries from its checks to its encryptions. */
  datatype Ready = Ready(counter: u32, entries: seq<IndexEntry>, indexPt: Bytes, slots: map<u32, u32>,
                         frames: seq<Bytes>, wrapAlg: Algorithm, itemAlg: Algorithm)

  /** The carried values determine the plan. */
  ghost predicate ReadyFor(q: Ready, p: Plan, cache: map<u32, ItemRecord>, es: seq<IndexEntry>) {
    && p.counter == q.counter && p.entries == q.entries && p.indexPt == q.indexPt
    && p.wrapAlg == q.wrapAlg && p.itemAlg == q.itemAlg
    && Sources(cache, q.slots, q.frames, es) == Ok(p.sources)
  }

  lemma {:induction false} SourcesErrors(cache: map<u32, ItemRecord>, slots: map<u32, u32>, frames: seq<Bytes>,
                                         es: seq<IndexEntry>)
    ensures Sources(cache, slots, frames, es).Err? ==> Sources(cache, slots, frames, es) == Err(Encrypt)
  {
    hide SourceOf;
    if es != [] {
      SourcesErrors(cache, slots, frames, es[..|es| - 1]);
      SourceErrors(cache, slots, frames, es[|es| - 1]);
    }
  }

  /** One entry that has no frame of its own is enough to fail. */
  lemma OneFails(c: Suite, dek: Key, alg: Algorithm, version: byte, es: seq<IndexEntry>, frames: seq<Bytes>, i: nat)
    requires i < |es|
    requires || es[i].slot >= |frames|
             || (exists k :: 0 <= k < i && es[k].slot == es[i].slot)
             || OpenSlot(c, dek, alg, version, frames, es[i].slot, es[i].itemId).Err?
    ensures !EveryFrameOpens(c, dek, alg, version, es, frames)
  {
    hide OpenSlot;
    assert es[i] in es;
  }

  lemma AllOpen(c: Suite, dek: Key, alg: Algorithm, version: byte, es: seq<IndexEntry>, frames: seq<Bytes>)
    requires |frames| == |es| && SlotsDistinct(es)
    requires forall k :: 0 <= k < |es| ==>
               && es[k].slot < |frames|
               && OpenSlot(c, dek, alg, version, frames, es[k].slot, es[k].itemId).Ok?
    ensures EveryFrameOpens(c, dek, alg, version, es, frames)
  {
    hide OpenSlot, SlotsDistinct;
  }

  /**
   The shared loop of verification and migration: opens every entry's frame, refusing a
   slot out of range or used twice. Succeeds exactly when every frame opens.
   */
  method OpenEvery(c: Suite, dek: Key, alg: Algorithm, version: byte, es: seq<IndexEntry>, frames: seq<Bytes>)
    returns (r: Result<seq<ItemRecord>>)
    requires |frames| == |es|
    ensures r.Ok? <==> EveryFrameOpens(c, dek, alg, version, es, frames)
    ensures r.Ok? ==> |r.value| == |es|
    ensures r.Ok? ==> forall i :: 0 <= i < |es| ==>
              OpenSlot(c, dek, alg, version, frames, es[i].slot, es[i].itemId) == Ok(r.value[i])
  {
    hide OpenSlot, EveryFrameOpens, SlotsDistinct;
    var seen := new bool[|frames|](_ => false);
    var records: seq<ItemRecord> := [];
    assert SlotsDistinct(es[..0]) by { NoSlots(es[..0]); }
    for i := 0 to |es|
      invariant |records| == i
      invariant forall k :: 0 <= k < i ==> es[k].slot < |frames| && seen[es[k].slot]
      invariant forall v :: 0 <= v < |frames| && seen[v] ==> exists k :: 0 <= k < i && es[k].slot == v
      invariant SlotsDistinct(es[..i])
      invariant forall k :: 0 <= k < i ==>
                  OpenSlot(c, dek, alg, version, frames, es[k].slot, es[k].itemId) == Ok(records[k])
    {
      var e := es[i];
      if e.slot >= |frames| {
        OneFails(c, dek, alg, version, es, frames, i);
        return Err(Encrypt);
      }
      if seen[e.slot] {
        OneFails(c, dek, alg, version, es, frames, i);
        return Err(Encrypt);
      }
      SlotsPush(es, i);
      seen[e.slot] := true;
      var record := OpenSlot(c, dek, alg, version, frames, e.slot, e.itemId);
      if record.Err? {
        OneFails(c, dek, alg, version, es, frames, i);
        return Err(record.error);
      }
      records := records + [record.value];
    }
    assert es[..|es|] == es;
    AllOpen(c, dek, alg, version, es, frames);
    return Ok(records);
  }

  lemma NoSlots(es: seq<IndexEntry>)
    requires es == []
    ensures SlotsDistinct(es)
  {
  }

  lemma SlotsPush(es: seq<IndexEntry>, i: nat)
    requires i < |es| && SlotsDistinct(es[..i]) && forall k :: 0 <= k < i ==> es[k].slot != es[i].slot
    ensures SlotsDistinct(es[..i + 1])
  {
    assert es[..i + 1] == es[..i] + [es[i]];
  }

  /** The records of all live entries of an image, by slot. */
  method LiveLoop(c: Suite, s: Session, frames: seq<Bytes>, es: seq<IndexEntry>)
    returns (r: Result<map<u32, ItemRecord>>)
    ensures r == LiveRecords(c, s, frames, es)
  {
    hide OpenSlot;
    var live: map<u32, ItemRecord> := map[];
    for i := 0 to |es|
      invariant LiveRecords(c, s, frames, es[..i]) == Ok(live)
    {
      assert es[..i + 1][..i] == es[..i];
      if es[i].state == LIVE {
        var record := OpenSlot(c, s.dek, s.config.itemAlg, s.config.version, frames, es[i].slot, es[i].itemId);
        if record.Err? {
          LiveRecordsStop(c, s, frames, es, i + 1);
          return Err(record.error);
        }
        live := live[es[i].slot := record.value];
      }
    }
    assert es[..|es|] == es;
    return Ok(live);
  }

  lemma {:induction false} LiveRecordsStop(c: Suite, s: Session, frames: seq<Bytes>, es: seq<IndexEntry>, i: nat)
    requires i <= |es| && LiveRecords(c, s, frames, es[..i]).Err?
    ensures LiveRecords(c, s, frames, es) == LiveRecords(c, s, frames, es[..i])
    decreases |es|
  {
    hide OpenSlot;
    if i == |es| {
      assert es[..i] == es;
    } else {
      assert es[..|es| - 1][..i] == es[..i];
      LiveRecordsStop(c, s, frames, es[..|es| - 1], i);
    }
  }
}
