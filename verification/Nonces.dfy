/** Which random bytes become which nonces: one consecutive slice of the pool each. */
module Nonces {
  import opened Prelude
  import opened Crypto
  import opened Header
  import opened Shape
  import opened Frames
  import opened Image
  import opened SaveProof

  /** The k-th nonce-sized slice of the pool. */
  function NonceAt(pool: Bytes, k: nat): Nonce {
    if NONCE_LEN * (k + 1) <= |pool| then pool[NONCE_LEN * k..NONCE_LEN * k + NONCE_LEN] else Zeros(NONCE_LEN)
  }

  predicate IsFresh(cache: map<u32, ItemRecord>, e: IndexEntry) {
    Dead(e.state) || e.slot in cache
  }

  /** The nonce of entry `i`: those of the wrapped key, the index and the fresh entries before it come first. */
  function ItemNonce(pool: Bytes, cache: map<u32, ItemRecord>, es: seq<IndexEntry>, i: nat): Nonce
    requires i < |es|
  {
    if IsFresh(cache, es[i]) then NonceAt(pool, 2 + FreshCount(cache, es[..i])) else Zeros(NONCE_LEN)
  }

  /** The draws of a save that starts from this pool. */
  function Drawn(pool: Bytes, cache: map<u32, ItemRecord>, es: seq<IndexEntry>): Draws {
    Draws(NonceAt(pool, 0), NonceAt(pool, 1), seq(|es|, i requires 0 <= i < |es| => ItemNonce(pool, cache, es, i)))
  }

  lemma FreshCountStep(cache: map<u32, ItemRecord>, es: seq<IndexEntry>, i: nat)
    requires i < |es|
    ensures FreshCount(cache, es[..i + 1]) == FreshCount(cache, es[..i]) + if IsFresh(cache, es[i]) then 1 else 0
  {
    assert es[..i + 1][..i] == es[..i];
  }

  lemma {:induction false} FreshCountGrows(cache: map<u32, ItemRecord>, es: seq<IndexEntry>, i: nat, j: nat)
    requires i <= j <= |es|
    ensures FreshCount(cache, es[..i]) <= FreshCount(cache, es[..j]) <= FreshCount(cache, es[..i]) + (j - i)
    decreases j
  {
    if i < j {
      FreshCountGrows(cache, es, i, j - 1);
      FreshCountStep(cache, es, j - 1);
    }
  }

  lemma FreshCountBound(cache: map<u32, ItemRecord>, es: seq<IndexEntry>, i: nat)
    requires i < |es|
    ensures FreshCount(cache, es[..i]) + (if IsFresh(cache, es[i]) then 1 else 0) <= FreshCount(cache, es) <= |es|
  {
    FreshCountStep(cache, es, i);
    FreshCountGrows(cache, es, i + 1, |es|);
    FreshCountGrows(cache, es, 0, |es|);
    assert es[..|es|] == es;
  }

  /** The random source does not repeat itself within the first `n` slices. */
  ghost predicate Varied(pool: Bytes, n: nat) {
    NONCE_LEN * n <= |pool| && forall a, b :: 0 <= a < b < n ==> NonceAt(pool, a) != NonceAt(pool, b)
  }

  /**
   No nonce is used twice within one save, however many entries are fresh: the wrapped key,
   the index and the encrypted items all take different slices of the pool.
   */
  lemma NoncesDiffer(pool: Bytes, cache: map<u32, ItemRecord>, es: seq<IndexEntry>)
    requires Varied(pool, FreshCount(cache, es) + 2)
    ensures var d := Drawn(pool, cache, es);
            && d.wrapNonce != d.indexNonce
            && (forall i :: 0 <= i < |es| && IsFresh(cache, es[i]) ==>
                  d.items[i] != d.indexNonce && d.items[i] != d.wrapNonce)
            && (forall i, j :: 0 <= i < j < |es| && IsFresh(cache, es[i]) && IsFresh(cache, es[j]) ==>
                  d.items[i] != d.items[j])
  {
    hide NonceAt, IsFresh, ItemNonce;
    var d := Drawn(pool, cache, es);
    forall i | 0 <= i < |es| && IsFresh(cache, es[i])
      ensures d.items[i] != d.indexNonce && d.items[i] != d.wrapNonce
    {
      FreshNonce(pool, cache, es, i);
    }
    forall i, j | 0 <= i < j < |es| && IsFresh(cache, es[i]) && IsFresh(cache, es[j])
      ensures d.items[i] != d.items[j]
    {
      FreshPair(pool, cache, es, i, j);
    }
  }

  lemma FreshPair(pool: Bytes, cache: map<u32, ItemRecord>, es: seq<IndexEntry>, i: nat, j: nat)
    requires Varied(pool, FreshCount(cache, es) + 2)
    requires i < j < |es| && IsFresh(cache, es[i]) && IsFresh(cache, es[j])
    ensures ItemNonce(pool, cache, es, i) != ItemNonce(pool, cache, es, j)
  {
    hide NonceAt, IsFresh, ItemNonce;
    FreshNonce(pool, cache, es, i);
    FreshNonce(pool, cache, es, j);
    FreshCountStep(cache, es, i);
    FreshCountGrows(cache, es, i + 1, j);
  }

  /** A fresh entry's slice comes after the first two and is one of those the save draws. */
  lemma FreshNonce(pool: Bytes, cache: map<u32, ItemRecord>, es: seq<IndexEntry>, i: nat)
    requires i < |es| && IsFresh(cache, es[i])
    ensures ItemNonce(pool, cache, es, i) == NonceAt(pool, 2 + FreshCount(cache, es[..i]))
    ensures FreshCount(cache, es[..i]) < FreshCount(cache, es)
  {
    hide NonceAt;
    FreshCountBound(cache, es, i);
  }

  /** The nonces a file shows are those that were drawn. */
  lemma ShownNonces(c: Suite, s: Session, header: ParsedHeader, p: Plan, d: Draws)
    requires Lawful(c) && Fitting(p, d)
    ensures var img := ImageOf(c, s, header, p, d);
            && |img| >= INDEX_AT && img[39..51] == d.wrapNonce && img[117..129] == d.indexNonce
    ensures var fs := NewFrames(c, s.dek, header.version, p, d);
            forall i :: 0 <= i < |fs| && p.sources[i].Seal? ==> |fs[i]| >= 12 && fs[i][..12] == d.items[i]
  {
    hide BE32, NewFrames, Concat, TagOf, ImageOf, Body, Tagged, AadBytes, ValidItem, FinalHeader;
    ImageIsSaved(c, s, header, p, d);
    var h := FinalHeader(c, s, header, p, d);
    WrapNonceShown(c, s, header, p, d);
    HeaderIsLaid(ImageOf(c, s, header, p, d), h);
    forall i | 0 <= i < |p.sources| && p.sources[i].Seal?
      ensures var f := NewFrames(c, s.dek, header.version, p, d)[i]; |f| >= 12 && f[..12] == d.items[i]
    {
    }
  }

  lemma FreshIsSealed(c: Suite, s: Session, header: ParsedHeader, diskDek: Key, disk: Bytes, p: Plan, i: nat)
    requires Preflight(c, s, header, diskDek, disk) == Ok(p) && i < |s.entries| && IsFresh(s.cache, s.entries[i])
    ensures i < |p.sources| && p.sources[i].Seal?
  {
    hide Preflight, OldFile;
    PlanSource(c, s, header, diskDek, disk, p, i);
  }

  lemma WrapNonceShown(c: Suite, s: Session, header: ParsedHeader, p: Plan, d: Draws)
    requires Lawful(c)
    ensures FinalHeader(c, s, header, p, d).wrapNonce == d.wrapNonce
  {
    hide AadBytes;
  }

  /** The frames of the file are the new frames. */
  lemma FileFrames(c: Suite, s: Session, header: ParsedHeader, diskDek: Key, disk: Bytes, p: Plan, d: Draws)
    requires Lawful(c) && Preflight(c, s, header, diskDek, disk) == Ok(p) && Fitting(p, d)
    requires header.version == CURRENT_VERSION && CopiesReadable(p, header, s.dek, diskDek, disk)
    ensures FramesOf(ImageOf(c, s, header, p, d), true, TRAILER_LEN) == Ok(NewFrames(c, s.dek, header.version, p, d))
  {
    hide Preflight, ImageOf, NewFrames, FramesOf, CopiesReadable, RecordFor, DecryptFrame, OldItems, Saved, AllFrames;
    ImageIsSaved(c, s, header, p, d);
    AllNewFrames(c, s, header, diskDek, disk, p, d);
    SavedFrames(c, ImageOf(c, s, header, p, d), s, header, p, d);
  }

  /**
   So in a file that was saved with draws from a varied pool, the wrapped key, the index and the frames of
   all entries that were encrypted show pairwise different nonces.
   */
  lemma FileNonces(c: Suite, s: Session, header: ParsedHeader, diskDek: Key, disk: Bytes, p: Plan, pool: Bytes)
    requires Lawful(c) && Preflight(c, s, header, diskDek, disk) == Ok(p)
    requires header.version == CURRENT_VERSION && header.pad == ZERO_PAD
    requires CopiesReadable(p, header, s.dek, diskDek, disk)
    requires Varied(pool, FreshCount(s.cache, s.entries) + 2)
    ensures Fitting(p, Drawn(pool, s.cache, s.entries))
    ensures var img := ImageOf(c, s, header, p, Drawn(pool, s.cache, s.entries));
            && |img| >= INDEX_AT && FramesOf(img, true, TRAILER_LEN).Ok?
            && var fs := FramesOf(img, true, TRAILER_LEN).value;
            && |fs| == |s.entries| && img[39..51] != img[117..129]
            && (forall i :: 0 <= i < |fs| && IsFresh(s.cache, s.entries[i]) ==>
                  |fs[i]| >= 12 && fs[i][..12] != img[39..51] && fs[i][..12] != img[117..129])
            && forall i, j :: 0 <= i < j < |fs| && IsFresh(s.cache, s.entries[i]) && IsFresh(s.cache, s.entries[j]) ==>
                 fs[i][..12] != fs[j][..12]
  {
    hide Preflight, ImageOf, FreshCount, FramesOf, CopiesReadable, IsFresh, Fitting, ItemNonce, NonceAt, FrameAt,
         Varied;
    PlanShape(c, s, header, diskDek, disk, p);
    var d := Drawn(pool, s.cache, s.entries);
    PreflightFits(c, s, header, diskDek, disk, d);
    FileFrames(c, s, header, diskDek, disk, p, d);
    ShownNonces(c, s, header, p, d);
    NoncesDiffer(pool, s.cache, s.entries);
    forall i | 0 <= i < |s.entries| && IsFresh(s.cache, s.entries[i])
      ensures p.sources[i].Seal?
    {
      FreshIsSealed(c, s, header, diskDek, disk, p, i);
    }
  }
}
