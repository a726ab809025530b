/**
 The plaintext codecs: index entries and item records.

 `EntryBytes`, `ItemBytes` and their parts are the format. `ParseIndex` and
 `ParseItem` read a buffer at a position, as the cursor does; the two theorems
 of this module say that they accept exactly the format's byte strings.
 */
module Shape {
  import opened Prelude

  const LIVE: byte := 0x01
  const TOMBSTONE: byte := 0x02
  const LEGACY_TOMBSTONE: byte := 0xFF

  const MAX_TITLE := 256
  const MAX_USERNAME := 512
  const MAX_PASSWORD := 1024
  const MAX_URL := 2048
  const MAX_NOTES := 8192
  const MAX_SECRET := 128

  // ---------------------------------------------------------------------- text

  predicate Continuations(b: Bytes, from: nat, n: nat) {
    from + n <= |b| && forall i :: from <= i < from + n ==> 0x80 <= b[i] <= 0xBF
  }

  /** Length of the well-formed UTF-8 sequence `b` starts with, 0 if there is none. */
  function CharLen(b: Bytes): nat
    requires b != []
  {
    if b[0] <= 0x7F then 1
    else if 0xC2 <= b[0] <= 0xDF && Continuations(b, 1, 1) then 2
    else if 0xE0 <= b[0] <= 0xEF && Continuations(b, 1, 2)
         && (b[0] == 0xE0 ==> 0xA0 <= b[1]) && (b[0] == 0xED ==> b[1] <= 0x9F) then 3
    else if 0xF0 <= b[0] <= 0xF4 && Continuations(b, 1, 3)
         && (b[0] == 0xF0 ==> 0x90 <= b[1]) && (b[0] == 0xF4 ==> b[1] <= 0x8F) then 4
    else 0
  }

  predicate ValidUtf8(b: Bytes) {
    b == [] || (0 < CharLen(b) <= |b| && ValidUtf8(b[CharLen(b)..]))
  }

  type Text = b: Bytes | ValidUtf8(b) witness []

  // ------------------------------------------------------------------ entities

  datatype IndexEntry = IndexEntry(itemId: u32, slot: u32, state: byte, title: Text, username: Text)

  datatype TotpAlgorithm = Sha1 | Sha256 | Sha512 {
    function Id(): byte {
      match this
      case Sha1 => 1
      case Sha256 => 2
      case Sha512 => 3
    }
  }

  function TotpAlgorithmFromId(id: byte): Result<TotpAlgorithm> {
    if id == 1 then Ok(Sha1) else if id == 2 then Ok(Sha256) else if id == 3 then Ok(Sha512) else Err(Encrypt)
  }

  datatype Totp = Totp(secret: Bytes, period: u32, digits: u32, algorithm: TotpAlgorithm)

  datatype ItemRecord = ItemRecord(
    password: Option<Bytes>,
    url: Text,
    notes: Option<Bytes>,
    totp: Option<Totp>,
    created: u64,
    modified: u64)

  /** What a tombstone frame holds when nothing is cached for it. */
  const PLACEHOLDER := ItemRecord(None, [], None, None, 0, 0)

  predicate Fits(v: Option<Bytes>, max: nat) {
    v.Some? ==> |v.value| <= max
  }

  predicate TotpOk(t: Option<Totp>) {
    t.Some? ==> |t.value.secret| <= MAX_SECRET && t.value.period != 0 && (t.value.digits == 6 || t.value.digits == 8)
  }

  /** `validate_item` succeeds. */
  predicate ValidItem(r: ItemRecord) {
    Fits(r.password, MAX_PASSWORD) && |r.url| <= MAX_URL && Fits(r.notes, MAX_NOTES) && TotpOk(r.totp)
  }

  predicate MetadataOk(title: Text, username: Text) {
    |title| <= MAX_TITLE && |username| <= MAX_USERNAME
  }

  predicate StateOk(state: byte) {
    state == LIVE || state == TOMBSTONE || state == LEGACY_TOMBSTONE
  }

  predicate EntryOk(e: IndexEntry) {
    StateOk(e.state) && MetadataOk(e.title, e.username)
  }

  predicate IndexOk(es: seq<IndexEntry>) {
    |es| <= U32_MAX && forall e :: e in es ==> EntryOk(e)
  }

  /** Every non-live state is written and read as a tombstone. */
  function Norm(e: IndexEntry): IndexEntry {
    e.(state := if e.state == LIVE then LIVE else TOMBSTONE)
  }

  function NormAll(es: seq<IndexEntry>): (r: seq<IndexEntry>)
    ensures |r| == |es|
    ensures forall i :: 0 <= i < |es| ==> r[i] == Norm(es[i])
  {
    seq(|es|, i requires 0 <= i < |es| => Norm(es[i]))
  }

  lemma NormAllOk(es: seq<IndexEntry>)
    requires IndexOk(es)
    ensures IndexOk(NormAll(es))
    ensures NormAll(NormAll(es)) == NormAll(es)
    ensures (forall e :: e in es ==> e.state != LEGACY_TOMBSTONE) ==> NormAll(es) == es
  {
    assert forall i :: 0 <= i < |es| ==> es[i] in es;
    forall e | e in NormAll(es)
      ensures EntryOk(e)
    {
      var i :| 0 <= i < |es| && NormAll(es)[i] == e;
      assert es[i] in es;
    }
  }

  // -------------------------------------------------------------------- format

  function StrBytes(s: Bytes): (r: Bytes)
    requires |s| < 0x1_0000
    ensures |r| == 2 + |s|
  {
    BE16(|s|) + s
  }

  function FieldBytes(b: Bytes): (r: Bytes)
    requires |b| <= U32_MAX
    ensures |r| == 4 + |b|
  {
    BE32(|b|) + b
  }

  function OptBytes(v: Option<Bytes>): (r: Bytes)
    requires Fits(v, U32_MAX)
    ensures |r| == OptLen(v)
  {
    if v.None? then [0] else [1] + FieldBytes(v.value)
  }

  function TotpBytes(t: Option<Totp>): (r: Bytes)
    requires TotpOk(t)
    ensures |r| == TotpLen(t)
  {
    if t.None? then [0]
    else [1] + FieldBytes(t.value.secret) + BE32(t.value.period) + BE32(t.value.digits) + [t.value.algorithm.Id()]
  }

  function ItemBytes(r: ItemRecord, id: u32): Bytes
    requires ValidItem(r)
  {
    OptBytes(r.password) + StrBytes(r.url) + OptBytes(r.notes) + TotpBytes(r.totp)
    + BE64(r.created) + BE64(r.modified) + BE32(id)
  }

  /** `item_plaintext_len`. */
  function ItemLen(r: ItemRecord): nat {
    25 + |r.url|
    + (if r.password.Some? then 4 + |r.password.value| else 0)
    + (if r.notes.Some? then 4 + |r.notes.value| else 0)
    + (if r.totp.Some? then 13 + |r.totp.value.secret| else 0)
  }

  lemma ItemLenIsExact(r: ItemRecord, id: u32)
    requires ValidItem(r)
    ensures |ItemBytes(r, id)| == ItemLen(r)
  {
    hide OptBytes, StrBytes, TotpBytes, BE64, BE32;
  }

  function EntryBytes(e: IndexEntry): (r: Bytes)
    requires EntryOk(e)
    ensures |r| == EntryLen(e)
  {
    BE32(e.itemId) + BE32(e.slot) + [e.state] + StrBytes(e.title) + StrBytes(e.username)
  }

  function EntriesBytes(es: seq<IndexEntry>): Bytes
    requires forall e :: e in es ==> EntryOk(e)
  {
    if es == [] then [] else EntriesBytes(es[..|es| - 1]) + EntryBytes(es[|es| - 1])
  }

  function IndexBytes(es: seq<IndexEntry>): Bytes
    requires IndexOk(es)
  {
    BE32(|es|) + EntriesBytes(es)
  }

  function SerializeIndex(es: seq<IndexEntry>): Result<Bytes> {
    if IndexOk(es) then
      NormAllOk(es);
      Ok(IndexBytes(NormAll(es)))
    else Err(Encrypt)
  }

  function SerializeItem(r: ItemRecord, id: u32): Result<Bytes> {
    if ValidItem(r) then Ok(ItemBytes(r, id)) else Err(Encrypt)
  }

  // ------------------------------------------------------- reading at a position

  function Take(b: Bytes, pos: nat, n: nat): Result<Bytes> {
    if pos + n <= |b| then Ok(b[pos..pos + n]) else Err(Encrypt)
  }

  function ReadU8(b: Bytes, pos: nat): Result<byte> {
    if pos < |b| then Ok(b[pos]) else Err(Encrypt)
  }

  function ReadU32(b: Bytes, pos: nat): Result<u32> {
    var s :- Take(b, pos, 4);
    Ok(U32Of(s))
  }

  function ReadU64(b: Bytes, pos: nat): Result<u64> {
    var s :- Take(b, pos, 8);
    Ok(U64Of(s))
  }

  lemma ReadU8Iff(b: Bytes, pos: nat, v: byte)
    ensures ReadU8(b, pos) == Ok(v) <==> At(b, pos, [v])
  {
    if pos < |b| {
      assert b[pos..pos + 1] == [b[pos]];
    }
  }

  lemma ReadU32Iff(b: Bytes, pos: nat, v: u32)
    ensures ReadU32(b, pos) == Ok(v) <==> At(b, pos, BE32(v))
  {
  }

  lemma ReadU64Iff(b: Bytes, pos: nat, v: u64)
    ensures ReadU64(b, pos) == Ok(v) <==> At(b, pos, BE64(v))
  {
  }

  function ReadField(b: Bytes, pos: nat, max: nat): Result<Bytes> {
    var n :- ReadU32(b, pos);
    if n > max then Err(Encrypt) else Take(b, pos + 4, n)
  }

  lemma ReadFieldIff(b: Bytes, pos: nat, max: nat, v: Bytes)
    requires max <= U32_MAX
    ensures ReadField(b, pos, max) == Ok(v) <==> |v| <= max && At(b, pos, FieldBytes(v))
  {
    if |v| <= max {
      ReadU32Iff(b, pos, |v|);
      AtSplit(b, pos, BE32(|v|), v);
    }
  }

  function ReadStr(b: Bytes, pos: nat, max: nat): Result<Text> {
    var l :- Take(b, pos, 2);
    var n := U16Of(l);
    if n > max then Err(Encrypt) else
    var s :- Take(b, pos + 2, n);
    if ValidUtf8(s) then Ok(s) else Err(Encrypt)
  }

  lemma ReadStrIff(b: Bytes, pos: nat, max: nat, s: Text)
    requires max < 0x1_0000
    ensures ReadStr(b, pos, max) == Ok(s) <==> |s| <= max && At(b, pos, StrBytes(s))
  {
    if |s| <= max {
      AtSplit(b, pos, BE16(|s|), s);
    }
  }

  function ReadOpt(b: Bytes, pos: nat, max: nat): Result<Option<Bytes>> {
    var tag :- ReadU8(b, pos);
    if tag == 0 then Ok(None)
    else if tag == 1 then
      var v :- ReadField(b, pos + 1, max);
      Ok(Some(v))
    else Err(Encrypt)
  }

  function OptLen(v: Option<Bytes>): nat {
    if v.None? then 1 else 5 + |v.value|
  }

  lemma ReadOptIff(b: Bytes, pos: nat, max: nat, v: Option<Bytes>)
    requires max <= U32_MAX
    ensures ReadOpt(b, pos, max) == Ok(v) <==> Fits(v, max) && At(b, pos, OptBytes(v))
  {
    if v.None? {
      ReadU8Iff(b, pos, 0);
    } else {
      ReadU8Iff(b, pos, 1);
      ReadFieldIff(b, pos + 1, max, v.value);
      if |v.value| <= max {
        AtSplit(b, pos, [1], FieldBytes(v.value));
      }
    }
  }

  function TotpLen(t: Option<Totp>): nat {
    if t.None? then 1 else 14 + |t.value.secret|
  }

  function ReadTotp(b: Bytes, pos: nat): Result<Option<Totp>> {
    var tag :- ReadU8(b, pos);
    if tag == 0 then Ok(None)
    else if tag != 1 then Err(Encrypt)
    else
      var secret :- ReadField(b, pos + 1, MAX_SECRET);
      var p := pos + 5 + |secret|;
      var period :- ReadU32(b, p);
      var digits :- ReadU32(b, p + 4);
      if period == 0 || (digits != 6 && digits != 8) then Err(Encrypt) else
      var algId :- ReadU8(b, p + 8);
      var alg :- TotpAlgorithmFromId(algId);
      Ok(Some(Totp(secret, period, digits, alg)))
  }

  lemma ReadTotpIff(b: Bytes, pos: nat, t: Option<Totp>)
    ensures ReadTotp(b, pos) == Ok(t) <==> TotpOk(t) && At(b, pos, TotpBytes(t))
  {
    hide At, BE32, FieldBytes, ReadField, ReadU8, ReadU32;
    if t.None? {
      ReadU8Iff(b, pos, 0);
    } else {
      var v := t.value;
      ReadU8Iff(b, pos, 1);
      ReadU32Iff(b, pos + 5 + |v.secret|, v.period);
      ReadU32Iff(b, pos + 9 + |v.secret|, v.digits);
      ReadU8Iff(b, pos + 13 + |v.secret|, v.algorithm.Id());
      ReadFieldIff(b, pos + 1, MAX_SECRET, v.secret);
      if TotpOk(t) {
        AtSplit5(b, pos, [1], FieldBytes(v.secret), BE32(v.period), BE32(v.digits), [v.algorithm.Id()]);
      }
    }
  }

  function ParseItem(b: Bytes): Result<(ItemRecord, u32)> {
    var password :- ReadOpt(b, 0, MAX_PASSWORD);
    var p1 := OptLen(password);
    var url :- ReadStr(b, p1, MAX_URL);
    var p2 := p1 + 2 + |url|;
    var notes :- ReadOpt(b, p2, MAX_NOTES);
    var p3 := p2 + OptLen(notes);
    var totp :- ReadTotp(b, p3);
    var p4 := p3 + TotpLen(totp);
    var created :- ReadU64(b, p4);
    var modified :- ReadU64(b, p4 + 8);
    var id :- ReadU32(b, p4 + 16);
    if |b| != p4 + 20 then Err(Encrypt)
    else Ok((ItemRecord(password, url, notes, totp, created, modified), id))
  }

  /** The item layout, field by field. */
  ghost predicate ItemAt(b: Bytes, r: ItemRecord, id: u32)
    requires ValidItem(r)
  {
    var p1 := OptLen(r.password);
    var p2 := p1 + 2 + |r.url|;
    var p3 := p2 + OptLen(r.notes);
    var p4 := p3 + TotpLen(r.totp);
    && At(b, 0, OptBytes(r.password)) && At(b, p1, StrBytes(r.url)) && At(b, p2, OptBytes(r.notes))
    && At(b, p3, TotpBytes(r.totp)) && At(b, p4, BE64(r.created)) && At(b, p4 + 8, BE64(r.modified))
    && At(b, p4 + 16, BE32(id)) && |b| == p4 + 20
  }

  lemma ItemAtIff(b: Bytes, r: ItemRecord, id: u32)
    requires ValidItem(r)
    ensures ItemAt(b, r, id) <==> b == ItemBytes(r, id)
  {
    hide At, BE32, BE64, OptBytes, StrBytes, TotpBytes;
    AtSplit7(b, OptBytes(r.password), StrBytes(r.url), OptBytes(r.notes), TotpBytes(r.totp),
             BE64(r.created), BE64(r.modified), BE32(id));
  }

  /** The item codec is a bijection between valid records with an id and the byte strings it accepts. */
  lemma ItemCodec(b: Bytes, r: ItemRecord, id: u32)
    ensures ParseItem(b) == Ok((r, id)) <==> SerializeItem(r, id) == Ok(b)
  {
    hide At, BE32, BE64, OptBytes, StrBytes, TotpBytes, ReadOpt, ReadStr, ReadTotp, ReadU32, ReadU64, ItemBytes;
    var p1 := OptLen(r.password);
    var p2 := p1 + 2 + |r.url|;
    var p3 := p2 + OptLen(r.notes);
    ReadOptIff(b, 0, MAX_PASSWORD, r.password);
    ReadStrIff(b, p1, MAX_URL, r.url);
    ReadOptIff(b, p2, MAX_NOTES, r.notes);
    ReadTotpIff(b, p3, r.totp);
    var p4 := p3 + TotpLen(r.totp);
    ReadU64Iff(b, p4, r.created);
    ReadU64Iff(b, p4 + 8, r.modified);
    ReadU32Iff(b, p4 + 16, id);
    if ValidItem(r) {
      ItemAtIff(b, r, id);
    }
  }

  // --------------------------------------------------------------------- index

  function EntryLen(e: IndexEntry): nat {
    13 + |e.title| + |e.username|
  }

  /** One entry, its state byte as stored. */
  function ReadEntry(b: Bytes, pos: nat): Result<IndexEntry> {
    var id :- ReadU32(b, pos);
    var slot :- ReadU32(b, pos + 4);
    var state :- ReadU8(b, pos + 8);
    if !StateOk(state) then Err(Encrypt) else
    var title :- ReadStr(b, pos + 9, MAX_TITLE);
    var username :- ReadStr(b, pos + 11 + |title|, MAX_USERNAME);
    Ok(IndexEntry(id, slot, state, title, username))
  }

  lemma ReadEntryIff(b: Bytes, pos: nat, e: IndexEntry)
    ensures ReadEntry(b, pos) == Ok(e) <==> EntryOk(e) && At(b, pos, EntryBytes(e))
  {
    hide At, BE32, StrBytes, ReadStr, ReadU8, ReadU32;
    ReadU32Iff(b, pos, e.itemId);
    ReadU32Iff(b, pos + 4, e.slot);
    ReadU8Iff(b, pos + 8, e.state);
    ReadStrIff(b, pos + 9, MAX_TITLE, e.title);
    ReadStrIff(b, pos + 11 + |e.title|, MAX_USERNAME, e.username);
    if EntryOk(e) {
      AtSplit5(b, pos, BE32(e.itemId), BE32(e.slot), [e.state], StrBytes(e.title), StrBytes(e.username));
    }
  }

  function EntriesLen(es: seq<IndexEntry>): (n: nat)
    ensures es == [] ==> n == 0
  {
    if es == [] then 0 else EntriesLen(es[..|es| - 1]) + EntryLen(es[|es| - 1])
  }

  function ReadEntries(b: Bytes, pos: nat, n: nat): (r: Result<seq<IndexEntry>>)
    ensures r.Ok? ==> |r.value| == n
    ensures n == 0 ==> r == Ok([])
  {
    if n == 0 then Ok([])
    else
      var es :- ReadEntries(b, pos, n - 1);
      var e :- ReadEntry(b, pos + EntriesLen(es));
      Ok(es + [e])
  }

  lemma {:induction false} EntriesBytesLen(es: seq<IndexEntry>)
    requires forall e :: e in es ==> EntryOk(e)
    ensures |EntriesBytes(es)| == EntriesLen(es)
  {
    hide EntryBytes, EntryLen;
    if es != [] {
      EntriesBytesLen(es[..|es| - 1]);
    }
  }

  /** Whatever is read is where it was read; and what is there is read. */
  lemma {:induction false} ReadEntriesIff(b: Bytes, pos: nat, es: seq<IndexEntry>)
    requires pos <= |b|
    ensures ReadEntries(b, pos, |es|) == Ok(es)
        <==> (forall e :: e in es ==> EntryOk(e)) && At(b, pos, EntriesBytes(es))
  {
    hide ReadEntry, EntryBytes, EntryLen, EntryOk;
    if es != [] {
      var (t, e) := (es[..|es| - 1], es[|es| - 1]);
      assert es == t + [e];
      ReadEntriesIff(b, pos, t);
      if forall x :: x in t ==> EntryOk(x) {
        EntriesBytesLen(t);
        ReadEntryIff(b, pos + EntriesLen(t), e);
        if EntryOk(e) {
          AtSplit(b, pos, EntriesBytes(t), EntryBytes(e));
        }
      }
    }
  }

  /** The index as stored: state bytes not yet normalised. */
  function ParseRaw(b: Bytes): Result<seq<IndexEntry>> {
    var n :- ReadU32(b, 0);
    var es :- ReadEntries(b, 4, n);
    if |b| != 4 + EntriesLen(es) then Err(Encrypt) else Ok(es)
  }

  function ParseIndex(b: Bytes): Result<seq<IndexEntry>> {
    var es :- ParseRaw(b);
    Ok(NormAll(es))
  }

  /** The stored form is a bijection on well-formed indexes, whatever their state bytes. */
  lemma RawIndexCodec(b: Bytes, es: seq<IndexEntry>)
    ensures ParseRaw(b) == Ok(es) <==> IndexOk(es) && b == IndexBytes(es)
  {
    hide ReadEntries, EntriesBytes, EntriesLen, EntryOk, BE32, ReadU32;
    if |es| <= U32_MAX {
      ReadU32Iff(b, 0, |es|);
      if At(b, 0, BE32(|es|)) {
        ReadEntriesIff(b, 4, es);
      }
      if IndexOk(es) {
        EntriesBytesLen(es);
        AtSplit(b, 0, BE32(|es|), EntriesBytes(es));
        assert b == IndexBytes(es) <==> At(b, 0, IndexBytes(es)) && |b| == |IndexBytes(es)|;
      }
    }
  }

  /** Parsing a serialized index returns it with every non-live state normalised. */
  lemma IndexRoundTrip(b: Bytes, es: seq<IndexEntry>)
    requires SerializeIndex(es) == Ok(b)
    ensures ParseIndex(b) == Ok(NormAll(es))
  {
    hide ParseRaw, IndexBytes;
    NormAllOk(es);
    RawIndexCodec(b, NormAll(es));
  }

  /** Serializing an accepted index gives the accepted bytes, except that 0xFF states become tombstones. */
  lemma IndexReserialize(b: Bytes)
    requires ParseIndex(b).Ok?
    ensures IndexOk(ParseRaw(b).value) && b == IndexBytes(ParseRaw(b).value)
    ensures SerializeIndex(ParseIndex(b).value) == SerializeIndex(ParseRaw(b).value)
    ensures (forall e :: e in ParseRaw(b).value ==> e.state != LEGACY_TOMBSTONE)
            ==> SerializeIndex(ParseIndex(b).value) == Ok(b)
  {
    hide ParseRaw, IndexBytes, IndexOk, NormAll;
    var raw := ParseRaw(b).value;
    RawIndexCodec(b, raw);
    NormAllOk(raw);
  }
}
