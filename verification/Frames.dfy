/**
 The items region: which frames a vault image holds.

 `Framing` says what it means for `frames` to be the frames of an image, without
 saying how to find them. The splitter is proved to find them whenever there are
 any, and there is never more than one way to cut an image.
 */
module Frames {
  import opened Prelude
  import opened Crypto
  import opened Header

  const INDEX_AT := HEADER_LEN + NONCE_LEN
  const FRAME_HEAD := NONCE_LEN + 4
  const TRAILER_LEN := 40
  const LEGACY_TRAILER_LEN := 8

  /** Nonce, ciphertext length, ciphertext, and the tag unless the length includes it. */
  ghost predicate IsFrame(f: Bytes, separateTag: bool) {
    && |f| >= FRAME_HEAD
    && |f| == FRAME_HEAD + U32Of(f[NONCE_LEN..FRAME_HEAD]) + if separateTag then TAG_LEN else 0
  }

  ghost predicate AllFrames(fs: seq<Bytes>, separateTag: bool) {
    forall i :: 0 <= i < |fs| ==> IsFrame(fs[i], separateTag)
  }

  /** Offset of the slot count, when the index length can be read. */
  function RegionStart(raw: Bytes): Result<nat> {
    var n :- U32At(raw, INDEX_AT);
    Ok(INDEX_AT + 4 + n)
  }

  ghost predicate Framing(raw: Bytes, separateTag: bool, trailerLen: nat, fs: seq<Bytes>) {
    && RegionStart(raw).Ok?
    && var start := RegionStart(raw).value;
    && U32At(raw, start) == Ok(|fs|)
    && start + 4 + trailerLen <= |raw|
    && U32At(raw, |raw| - trailerLen) == Ok(|fs|)
    && raw[start + 4..|raw| - trailerLen] == Concat(fs)
    && AllFrames(fs, separateTag)
  }

  lemma FirstFrame(fs: seq<Bytes>, separateTag: bool)
    requires AllFrames(fs, separateTag) && fs != []
    ensures Concat(fs) == fs[0] + Concat(fs[1..])
    ensures |Concat(fs)| >= FRAME_HEAD && IsFrame(fs[0], separateTag)
  {
    ConcatCons(fs[0], fs[1..]);
    assert fs == [fs[0]] + fs[1..];
  }

  /** Frames laid end to end can be cut in one way only. */
  lemma {:induction false} CutOnce(a: seq<Bytes>, b: seq<Bytes>, separateTag: bool)
    requires AllFrames(a, separateTag) && AllFrames(b, separateTag)
    requires Concat(a) == Concat(b)
    ensures a == b
  {
    if a != [] {
      FirstFrame(a, separateTag);
    }
    if b != [] {
      FirstFrame(b, separateTag);
    }
    if a != [] && b != [] {
      var (x, y, s) := (a[0], b[0], Concat(a));
      assert s[..|x|] == x && s[..|y|] == y;
      assert x[NONCE_LEN..FRAME_HEAD] == s[NONCE_LEN..FRAME_HEAD] == y[NONCE_LEN..FRAME_HEAD];
      assert Concat(a[1..]) == s[|x|..] == Concat(b[1..]);
      CutOnce(a[1..], b[1..], separateTag);
      assert a == [x] + a[1..] && b == [y] + b[1..];
    }
  }

  lemma FramingUnique(raw: Bytes, separateTag: bool, trailerLen: nat, a: seq<Bytes>, b: seq<Bytes>)
    requires Framing(raw, separateTag, trailerLen, a) && Framing(raw, separateTag, trailerLen, b)
    ensures a == b
  {
    CutOnce(a, b, separateTag);
  }

  /** The frames of an image. */
  ghost function FramesOf(raw: Bytes, separateTag: bool, trailerLen: nat): Result<seq<Bytes>> {
    if fs :| Framing(raw, separateTag, trailerLen, fs) then Ok(fs) else Err(Encrypt)
  }

  /** Where the frame starting at `at` says it ends. */
  function FrameEnd(raw: Bytes, at: nat, separateTag: bool): Result<nat> {
    var n :- U32At(raw, at + NONCE_LEN);
    Ok(at + FRAME_HEAD + n + if separateTag then TAG_LEN else 0)
  }

  lemma CutIsFrame(raw: Bytes, at: nat, end: nat, separateTag: bool)
    requires at <= end <= |raw| && end - at >= FRAME_HEAD
    ensures FrameEnd(raw, at, separateTag) == Ok(end) <==> IsFrame(raw[at..end], separateTag)
  {
    hide U32Of;
    SliceOfSlice(raw, at, end, NONCE_LEN, FRAME_HEAD);
  }

  /** `done` is how every framing of the image begins. */
  ghost predicate Forced(raw: Bytes, separateTag: bool, trailerLen: nat, done: seq<Bytes>) {
    forall fs :: Framing(raw, separateTag, trailerLen, fs) ==> |done| <= |fs| && fs[..|done|] == done
  }

  /** A frame between its neighbours. */
  lemma AtPosition(fs: seq<Bytes>, k: nat, separateTag: bool)
    requires k < |fs| && AllFrames(fs, separateTag)
    ensures Concat(fs) == Concat(fs[..k]) + fs[k] + Concat(fs[k + 1..])
    ensures IsFrame(fs[k], separateTag) && |fs[k]| >= FRAME_HEAD
  {
    assert fs == fs[..k] + [fs[k]] + fs[k + 1..];
    ConcatAppend(fs[..k] + [fs[k]], fs[k + 1..]);
    ConcatPush(fs[..k], fs[k]);
  }

  /** In a framing, the next frame's bytes follow those of the frames before it. */
  lemma FrameBytes(raw: Bytes, separateTag: bool, trailerLen: nat, fs: seq<Bytes>, done: seq<Bytes>, at: nat)
    requires Framing(raw, separateTag, trailerLen, fs)
    requires |done| < |fs| && fs[..|done|] == done && at == RegionStart(raw).value + 4 + |Concat(done)|
    ensures var end := at + |fs[|done|]|;
            end <= |raw| - trailerLen && raw[at..end] == fs[|done|]
    ensures IsFrame(fs[|done|], separateTag) && |fs[|done|]| >= FRAME_HEAD
  {
    hide U32At, RegionStart, Concat, IsFrame, AllFrames;
    AtPosition(fs, |done|, separateTag);
    var start := RegionStart(raw).value + 4;
    Inside(raw, start, |raw| - trailerLen, Concat(done), fs[|done|], Concat(fs[|done| + 1..]));
  }

  /** In a framing, the frame after `done` starts where they end and announces its own end. */
  lemma NextFrame(raw: Bytes, separateTag: bool, trailerLen: nat, fs: seq<Bytes>, done: seq<Bytes>)
    requires Framing(raw, separateTag, trailerLen, fs)
    requires |done| < |fs| && fs[..|done|] == done
    ensures var at := RegionStart(raw).value + 4 + |Concat(done)|;
            && FrameEnd(raw, at, separateTag).Ok?
            && var end := FrameEnd(raw, at, separateTag).value;
            && end <= |raw| - trailerLen
            && fs[..|done| + 1] == done + [raw[at..end]]
  {
    hide U32At, FrameEnd, RegionStart, Concat, IsFrame, AllFrames;
    var at := RegionStart(raw).value + 4 + |Concat(done)|;
    var end := at + |fs[|done|]|;
    FrameBytes(raw, separateTag, trailerLen, fs, done, at);
    CutIsFrame(raw, at, end, separateTag);
    TakePush(fs, done);
    assert FrameEnd(raw, at, separateTag) == Ok(end);
  }

  /** One more forced frame, or no framing at all. */
  lemma ForcedStep(raw: Bytes, separateTag: bool, trailerLen: nat, slotCount: u32, done: seq<Bytes>)
    requires Forced(raw, separateTag, trailerLen, done)
    requires RegionStart(raw).Ok? && U32At(raw, RegionStart(raw).value) == Ok(slotCount) && |done| < slotCount
    requires |raw| >= trailerLen
    ensures var at := RegionStart(raw).value + 4 + |Concat(done)|;
            var end := FrameEnd(raw, at, separateTag);
            if end.Ok? && at <= end.value <= |raw| - trailerLen
            then Forced(raw, separateTag, trailerLen, done + [raw[at..end.value]])
            else forall fs :: !Framing(raw, separateTag, trailerLen, fs)
  {
    hide Concat, FrameEnd, RegionStart;
    var at := RegionStart(raw).value + 4 + |Concat(done)|;
    forall fs | Framing(raw, separateTag, trailerLen, fs)
      ensures FrameEnd(raw, at, separateTag).Ok?
      ensures var end := FrameEnd(raw, at, separateTag).value;
              at <= end <= |raw| - trailerLen && |done| < |fs| && fs[..|done| + 1] == done + [raw[at..end]]
    {
      NextFrame(raw, separateTag, trailerLen, fs, done);
      FrameEndAfter(raw, at, separateTag);
    }
  }

  lemma FrameEndAfter(raw: Bytes, at: nat, separateTag: bool)
    requires FrameEnd(raw, at, separateTag).Ok?
    ensures FrameEnd(raw, at, separateTag).value >= at + FRAME_HEAD
  {
  }

  /**
   `split_item_frames_with_layout`: finds the framing if there is one, and
   goes round its loop at most once per sixteen bytes whatever the count says.
   */
  method SplitItemFrames(raw: Bytes, separateTag: bool, trailerLen: nat)
    returns (r: Result<seq<Bytes>>, ghost rounds: nat)
    requires trailerLen >= 4
    ensures r == FramesOf(raw, separateTag, trailerLen)
    ensures r.Ok? ==> Framing(raw, separateTag, trailerLen, r.value)
    ensures r.Err? ==> r == Err(Encrypt) && forall fs :: !Framing(raw, separateTag, trailerLen, fs)
    ensures FRAME_HEAD * rounds <= |raw| + FRAME_HEAD
  {
    hide U32Of, Concat, AllFrames;
    rounds := 0;
    var n := U32At(raw, INDEX_AT);
    if n.Err? {
      return Err(n.error), 0;
    }
    var cursor := INDEX_AT + 4 + n.value;
    var start := cursor;
    var slotCount := U32At(raw, cursor);
    if slotCount.Err? {
      return Err(slotCount.error), 0;
    }
    cursor := cursor + 4;
    if |raw| < trailerLen {
      return Err(Encrypt), 0;
    }
    var trailer := |raw| - trailerLen;
    var trailerCount := U32At(raw, trailer);
    if trailerCount != slotCount {
      return Err(Encrypt), 0;
    }
    r, rounds := Walk(raw, separateTag, trailerLen, start, slotCount.value);
  }

  /** The frames cut so far: those every framing begins with, laid end to end up to the cursor. */
  ghost predicate Walked(raw: Bytes, separateTag: bool, trailerLen: nat, start: nat, cursor: nat, frames: seq<Bytes>) {
    && cursor == start + 4 + |Concat(frames)|
    && FRAME_HEAD * |frames| <= |Concat(frames)|
    && (frames != [] ==> cursor + trailerLen <= |raw|)
    && (cursor <= |raw| ==> raw[start + 4..cursor] == Concat(frames))
    && AllFrames(frames, separateTag)
    && Forced(raw, separateTag, trailerLen, frames)
  }

  lemma WalkedStart(raw: Bytes, separateTag: bool, trailerLen: nat, start: nat)
    ensures Walked(raw, separateTag, trailerLen, start, start + 4, [])
  {
    hide Framing, IsFrame;
  }

  /** The next frame, if the region has room for one; otherwise there is no framing. */
  lemma WalkedStep(raw: Bytes, separateTag: bool, trailerLen: nat, start: nat, slotCount: u32, cursor: nat,
                   frames: seq<Bytes>)
    requires Walked(raw, separateTag, trailerLen, start, cursor, frames) && |frames| < slotCount
    requires RegionStart(raw) == Ok(start) && U32At(raw, start) == Ok(slotCount) && trailerLen <= |raw|
    ensures var end := FrameEnd(raw, cursor, separateTag);
            if end.Ok? && end.value + trailerLen <= |raw|
            then cursor <= end.value
                 && Walked(raw, separateTag, trailerLen, start, end.value, frames + [raw[cursor..end.value]])
            else forall fs :: !Framing(raw, separateTag, trailerLen, fs)
  {
    hide U32At, Concat, RegionStart, IsFrame, AllFrames, Framing, Forced, FrameEnd;
    ForcedStep(raw, separateTag, trailerLen, slotCount, frames);
    if FrameEnd(raw, cursor, separateTag).Ok? {
      var end := FrameEnd(raw, cursor, separateTag).value;
      FrameEndAfter(raw, cursor, separateTag);
      if end + trailerLen <= |raw| {
        CutIsFrame(raw, cursor, end, separateTag);
        ConcatPush(frames, raw[cursor..end]);
        AllFramesPush(frames, raw[cursor..end], separateTag);
        Adjacent(raw, start + 4, cursor, end);
      }
    }
  }

  /** With all frames cut, they are the framing if they fill the region; otherwise there is none. */
  lemma WalkedEnd(raw: Bytes, separateTag: bool, trailerLen: nat, start: nat, cursor: nat, frames: seq<Bytes>)
    requires Walked(raw, separateTag, trailerLen, start, cursor, frames) && trailerLen <= |raw|
    requires RegionStart(raw) == Ok(start) && U32At(raw, start) == Ok(|frames|)
    requires U32At(raw, |raw| - trailerLen) == Ok(|frames|)
    ensures if cursor == |raw| - trailerLen then Framing(raw, separateTag, trailerLen, frames)
            else forall fs :: !Framing(raw, separateTag, trailerLen, fs)
  {
    hide U32At, Concat, RegionStart, IsFrame, AllFrames, Forced;
    ForcedAll(raw, separateTag, trailerLen, frames);
  }

  method Walk(raw: Bytes, separateTag: bool, trailerLen: nat, start: nat, slotCount: u32)
    returns (r: Result<seq<Bytes>>, ghost rounds: nat)
    requires RegionStart(raw) == Ok(start) && trailerLen <= |raw|
    requires U32At(raw, start) == Ok(slotCount) && U32At(raw, |raw| - trailerLen) == Ok(slotCount)
    ensures r == FramesOf(raw, separateTag, trailerLen)
    ensures r.Ok? ==> Framing(raw, separateTag, trailerLen, r.value)
    ensures r.Err? ==> r == Err(Encrypt) && forall fs :: !Framing(raw, separateTag, trailerLen, fs)
    ensures FRAME_HEAD * rounds <= |raw| + FRAME_HEAD
  {
    hide U32At, RegionStart, Walked, Framing, FramesOf;
    var trailer := |raw| - trailerLen;
    var cursor: nat := start + 4;
    var frames: seq<Bytes> := [];
    rounds := 0;
    WalkedStart(raw, separateTag, trailerLen, start);
    for i := 0 to slotCount
      invariant |frames| == i == rounds
      invariant Walked(raw, separateTag, trailerLen, start, cursor, frames)
      invariant FRAME_HEAD * rounds <= |raw|
    {
      rounds := rounds + 1;
      WalkedStep(raw, separateTag, trailerLen, start, slotCount, cursor, frames);
      var at := cursor;
      var ctLen := U32At(raw, at + NONCE_LEN);
      if ctLen.Err? {
        NoFrames(raw, separateTag, trailerLen);
        return Err(Encrypt), rounds;
      }
      cursor := at + FRAME_HEAD + ctLen.value + if separateTag then TAG_LEN else 0;
      if cursor > trailer {
        NoFrames(raw, separateTag, trailerLen);
        return Err(Encrypt), rounds;
      }
      frames := frames + [raw[at..cursor]];
      FewRounds(raw, separateTag, trailerLen, start, cursor, frames);
    }
    WalkedEnd(raw, separateTag, trailerLen, start, cursor, frames);
    if cursor != trailer {
      NoFrames(raw, separateTag, trailerLen);
      return Err(Encrypt), rounds;
    }
    TheFrames(raw, separateTag, trailerLen, frames);
    return Ok(frames), rounds;
  }

  lemma FewRounds(raw: Bytes, separateTag: bool, trailerLen: nat, start: nat, cursor: nat, frames: seq<Bytes>)
    requires Walked(raw, separateTag, trailerLen, start, cursor, frames) && cursor <= |raw|
    ensures FRAME_HEAD * |frames| <= |raw|
  {
    hide Concat, AllFrames, Forced;
  }

  lemma ForcedAll(raw: Bytes, separateTag: bool, trailerLen: nat, frames: seq<Bytes>)
    requires Forced(raw, separateTag, trailerLen, frames)
    requires RegionStart(raw).Ok? && U32At(raw, RegionStart(raw).value) == Ok(|frames|)
    ensures forall fs :: Framing(raw, separateTag, trailerLen, fs) ==> fs == frames
  {
    forall fs | Framing(raw, separateTag, trailerLen, fs)
      ensures fs == frames
    {
      assert fs == fs[..|frames|];
    }
  }

  lemma AllFramesPush(fs: seq<Bytes>, f: Bytes, separateTag: bool)
    requires AllFrames(fs, separateTag) && IsFrame(f, separateTag)
    ensures AllFrames(fs + [f], separateTag)
  {
    hide IsFrame;
  }

  lemma Adjacent(b: Bytes, i: nat, j: nat, k: nat)
    requires i <= j <= k <= |b|
    ensures b[i..k] == b[i..j] + b[j..k]
  {
  }

  lemma NoFrames(raw: Bytes, separateTag: bool, trailerLen: nat)
    requires forall fs :: !Framing(raw, separateTag, trailerLen, fs)
    ensures FramesOf(raw, separateTag, trailerLen) == Err(Encrypt)
  {
  }

  lemma TheFrames(raw: Bytes, separateTag: bool, trailerLen: nat, frames: seq<Bytes>)
    requires Framing(raw, separateTag, trailerLen, frames)
    ensures FramesOf(raw, separateTag, trailerLen) == Ok(frames)
  {
    forall fs | Framing(raw, separateTag, trailerLen, fs)
      ensures fs == frames
    {
      FramingUnique(raw, separateTag, trailerLen, fs, frames);
    }
  }
}
