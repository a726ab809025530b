/** The 117-byte vault header: its layout, its parser and its associated data. */
module Header {
  import opened Prelude
  import opened Crypto

  const MAGIC: Bytes := [0x4C, 0x4B, 0x76]
  const CURRENT_VERSION: byte := 2
  const LEGACY_VERSION: byte := 1
  const HEADER_LEN := 117
  const AAD_LEN := 47
  const PAD_LEN := 18

  type Reserved = r: Bytes | |r| == 3 witness [0, 0, 0]
  type WrapTag = t: Bytes | |t| == TAG_LEN witness Zeros(TAG_LEN)
  type Pad = p: Bytes | |p| == PAD_LEN witness Zeros(PAD_LEN)

  const ZERO_PAD: Pad := Zeros(PAD_LEN)
  const ZERO_KEY: Key := Zeros(KEY_LEN)
  const ZERO_TAG: WrapTag := Zeros(TAG_LEN)

  datatype ParsedHeader = ParsedHeader(
    version: byte,
    kdfId: byte,
    wrapAlgId: byte,
    itemAlgId: byte,
    reserved: Reserved,
    params: KdfParams,
    salt: Salt,
    encCounter: u32,
    wrapNonce: Nonce,
    wrappedDek: Key,
    wrapTag: WrapTag,
    pad: Pad)

  function AadBytes(h: ParsedHeader): (r: Bytes)
    ensures |r| == AAD_LEN
  {
    [h.kdfId, h.wrapAlgId, h.itemAlgId] + h.reserved
    + BE32(h.params.mMib) + BE32(h.params.t) + [h.params.p]
    + h.salt + BE32(h.encCounter) + h.wrapNonce
  }

  function HeaderBytes(h: ParsedHeader): (r: Bytes)
    ensures |r| == HEADER_LEN
  {
    MAGIC + [h.version] + AadBytes(h) + h.wrappedDek + h.wrapTag + h.pad
  }

  function ParseHeaderVersion(d: Bytes, expected: byte): Result<ParsedHeader> {
    if |d| < HEADER_LEN then Err(Encrypt)
    else if d[0..3] != MAGIC then Err(Encrypt)
    else if d[3] != expected then
      if d[3] == LEGACY_VERSION && expected == CURRENT_VERSION then Err(Encrypt) else Err(Unsupported(d[3]))
    else if d[99..117] != ZERO_PAD then Err(Encrypt)
    else Ok(ParsedHeader(
      d[3], d[4], d[5], d[6], d[7..10],
      KdfParams(U32Of(d[10..14]), U32Of(d[14..18]), d[18]),
      d[19..35], U32Of(d[35..39]), d[39..51], d[51..83], d[83..99], d[99..117]))
  }

  function ParseHeader(d: Bytes): Result<ParsedHeader> {
    ParseHeaderVersion(d, CURRENT_VERSION)
  }

  function ParseLegacyHeader(d: Bytes): Result<ParsedHeader> {
    ParseHeaderVersion(d, LEGACY_VERSION)
  }

  /** The layout as offsets: `b` has the fields of `h` at their places. */
  ghost predicate Laid(b: Bytes, h: ParsedHeader)
    requires |b| >= HEADER_LEN
  {
    && b[0..3] == MAGIC && b[3] == h.version
    && b[4] == h.kdfId && b[5] == h.wrapAlgId && b[6] == h.itemAlgId && b[7..10] == h.reserved
    && b[10..14] == BE32(h.params.mMib) && b[14..18] == BE32(h.params.t) && b[18] == h.params.p
    && b[19..35] == h.salt && b[35..39] == BE32(h.encCounter) && b[39..51] == h.wrapNonce
    && b[51..83] == h.wrappedDek && b[83..99] == h.wrapTag && b[99..117] == h.pad
  }

  lemma AadParts(x: Bytes, r: Bytes, m: Bytes, t: Bytes, p: Bytes, salt: Bytes, n: Bytes, nonce: Bytes)
    requires |x| == |r| == 3 && |m| == |t| == |n| == 4 && |p| == 1 && |salt| == SALT_LEN && |nonce| == NONCE_LEN
    ensures var a := x + r + m + t + p + salt + n + nonce;
            && a[0..3] == x && a[3..6] == r && a[6..10] == m && a[10..14] == t && a[14..15] == p
            && a[15..31] == salt && a[31..35] == n && a[35..47] == nonce
  {
  }

  lemma HeaderParts(head: Bytes, aad: Bytes, key: Bytes, tag: Bytes, pad: Bytes, d: Bytes)
    requires |head| == 4 && |aad| == AAD_LEN && |key| == KEY_LEN && |tag| == TAG_LEN && |pad| == PAD_LEN
    requires head + aad + key + tag + pad <= d
    ensures d[0..4] == head && d[4..51] == aad && d[51..83] == key && d[83..99] == tag && d[99..117] == pad
  {
    var b := head + aad + key + tag + pad;
    assert forall i, j :: 0 <= i <= j <= HEADER_LEN ==> d[i..j] == b[i..j];
  }

  lemma HeaderIsLaid(d: Bytes, h: ParsedHeader)
    requires HeaderBytes(h) <= d
    ensures Laid(d, h)
  {
    hide BE32;
    HeaderParts(MAGIC + [h.version], AadBytes(h), h.wrappedDek, h.wrapTag, h.pad, d);
    AadParts([h.kdfId, h.wrapAlgId, h.itemAlgId], h.reserved, BE32(h.params.mMib), BE32(h.params.t), [h.params.p],
             h.salt, BE32(h.encCounter), h.wrapNonce);
    hide AadBytes, HeaderBytes;
    var a := d[4..51];
    SliceOfSlice(d, 4, 51, 0, 3);
    SliceOfSlice(d, 4, 51, 3, 6);
    SliceOfSlice(d, 4, 51, 6, 10);
    SliceOfSlice(d, 4, 51, 10, 14);
    SliceOfSlice(d, 4, 51, 14, 15);
    SliceOfSlice(d, 4, 51, 15, 31);
    SliceOfSlice(d, 4, 51, 31, 35);
    SliceOfSlice(d, 4, 51, 35, 47);
    SliceOfSlice(d, 0, 4, 0, 3);
    assert d[4] == d[4..7][0] && d[5] == d[4..7][1] && d[6] == d[4..7][2] && d[18] == d[18..19][0];
    assert d[0..4][3] == d[3];
  }

  lemma LaidIsHeader(d: Bytes, h: ParsedHeader)
    requires |d| >= HEADER_LEN && Laid(d, h)
    ensures HeaderBytes(h) <= d
  {
    hide BE32;
    var aad := d[4..51];
    assert aad == [d[4], d[5], d[6]] + d[7..10] + d[10..14] + d[14..18] + [d[18]] + d[19..35] + d[35..39] + d[39..51];
    assert aad == AadBytes(h);
    hide AadBytes;
    assert d[..HEADER_LEN] == d[0..3] + [d[3]] + aad + d[51..83] + d[83..99] + d[99..117];
  }

  /**
   The parser accepts exactly the built headers of the expected version with zero padding,
   whatever follows them, and returns the header they were built from.
   */
  lemma HeaderCodec(d: Bytes, expected: byte, h: ParsedHeader)
    ensures ParseHeaderVersion(d, expected) == Ok(h) <==>
            h.version == expected && h.pad == ZERO_PAD && HeaderBytes(h) <= d
  {
    hide BE32, U32Of, HeaderBytes;
    if HeaderBytes(h) <= d {
      HeaderIsLaid(d, h);
    } else if |d| >= HEADER_LEN {
      if Laid(d, h) {
        LaidIsHeader(d, h);
      }
    }
  }

  /** The associated data of the wrapped key is bytes 4..51 of the built header. */
  lemma AadIsHeaderRange(h: ParsedHeader)
    ensures HeaderBytes(h)[4..51] == AadBytes(h)
  {
    hide AadBytes;
  }

  // ------------------------------------------------------- filled in place

  /** `a[off..off + |b|].copy_from_slice(b)`. */
  method CopyInto(a: array<byte>, off: nat, b: Bytes)
    requires off + |b| <= a.Length
    modifies a
    ensures a[..off + |b|] == old(a[..off]) + b
    ensures a[off + |b|..] == old(a[off + |b|..])
  {
    for i := 0 to |b|
      invariant a[..off] == old(a[..off])
      invariant a[off..off + i] == b[..i]
      invariant a[off + |b|..] == old(a[off + |b|..])
    {
      a[off + i] := b[i];
    }
    assert a[..off + |b|] == a[..off] + a[off..off + |b|];
  }

  /** Appending the ten fields one by one appends the associated data. */
  lemma AadOneByOne(pre: Bytes, h: ParsedHeader)
    ensures pre + [h.kdfId] + [h.wrapAlgId] + [h.itemAlgId] + h.reserved
            + BE32(h.params.mMib) + BE32(h.params.t) + [h.params.p]
            + h.salt + BE32(h.encCounter) + h.wrapNonce == pre + AadBytes(h)
  {
    hide BE32;
    assert [h.kdfId] + [h.wrapAlgId] + [h.itemAlgId] == [h.kdfId, h.wrapAlgId, h.itemAlgId];
  }

  /** The fields from the key derivation to the wrap nonce, in two halves. */
  method CopyParameters(out: array<byte>, h: ParsedHeader)
    requires out.Length == HEADER_LEN
    modifies out
    ensures out[..51] == old(out[..4]) + AadBytes(h)
  {
    hide BE32, AadBytes;
    ghost var pre := out[..4];
    CopyInto(out, 4, [h.kdfId]);
    CopyInto(out, 5, [h.wrapAlgId]);
    CopyInto(out, 6, [h.itemAlgId]);
    CopyInto(out, 7, h.reserved);
    CopyInto(out, 10, BE32(h.params.mMib));
    ghost var half := pre + [h.kdfId] + [h.wrapAlgId] + [h.itemAlgId] + h.reserved + BE32(h.params.mMib);
    assert out[..14] == half;
    CopyInto(out, 14, BE32(h.params.t));
    CopyInto(out, 18, [h.params.p]);
    CopyInto(out, 19, h.salt);
    CopyInto(out, 35, BE32(h.encCounter));
    CopyInto(out, 39, h.wrapNonce);
    assert out[..51] == half + BE32(h.params.t) + [h.params.p] + h.salt + BE32(h.encCounter) + h.wrapNonce;
    AadOneByOne(pre, h);
  }

  method BuildHeader(h: ParsedHeader) returns (out: array<byte>)
    ensures fresh(out) && out[..] == HeaderBytes(h)
  {
    hide BE32;
    out := new byte[HEADER_LEN](_ => 0);
    CopyInto(out, 0, MAGIC);
    assert out[..3] == MAGIC;
    CopyInto(out, 3, [h.version]);
    CopyParameters(out, h);
    assert out[..51] == MAGIC + [h.version] + AadBytes(h);
    CopyInto(out, 51, h.wrappedDek);
    CopyInto(out, 83, h.wrapTag);
    CopyInto(out, 99, h.pad);
    assert out[..] == out[..99 + |h.pad|];
  }

  method HeaderAad(h: ParsedHeader) returns (a: array<byte>)
    ensures fresh(a) && a[..] == AadBytes(h)
  {
    hide BE32, AadBytes;
    a := new byte[AAD_LEN](_ => 0);
    CopyInto(a, 0, [h.kdfId]);
    CopyInto(a, 1, [h.wrapAlgId]);
    CopyInto(a, 2, [h.itemAlgId]);
    CopyInto(a, 3, h.reserved);
    CopyInto(a, 6, BE32(h.params.mMib));
    ghost var half := [h.kdfId] + [h.wrapAlgId] + [h.itemAlgId] + h.reserved + BE32(h.params.mMib);
    assert a[..10] == half;
    CopyInto(a, 10, BE32(h.params.t));
    CopyInto(a, 14, [h.params.p]);
    CopyInto(a, 15, h.salt);
    CopyInto(a, 31, BE32(h.encCounter));
    CopyInto(a, 35, h.wrapNonce);
    assert a[..47] == half + BE32(h.params.t) + [h.params.p] + h.salt + BE32(h.encCounter) + h.wrapNonce;
    AadOneByOne([], h);
    assert a[..] == a[..35 + |h.wrapNonce|];
  }
}
