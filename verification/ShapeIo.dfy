/**
 The codecs as they run: a buffer that grows and a cursor that advances.
 Each method is proved to compute the corresponding function of `Shape`.
 */
module ShapeIo {
  import opened Prelude
  import opened Shape
  import S = Shape

  class Buffer {
    var data: Bytes

    constructor ()
      ensures data == []
    {
      data := [];
    }

    method Extend(b: Bytes)
      modifies this
      ensures data == old(data) + b
    {
      data := data + b;
    }

    method PushStr(s: Text, max: nat) returns (r: Result<()>)
      modifies this
      ensures r.Ok? <==> |s| <= max && |s| < 0x1_0000
      ensures r.Ok? ==> data == old(data) + StrBytes(s)
      ensures r.Err? ==> data == old(data) && r == Err(Encrypt)
    {
      if |s| > max || |s| > 0xFFFF {
        return Err(Encrypt);
      }
      Extend(BE16(|s|));
      Extend(s);
      return Ok(());
    }

    method PushBytes(b: Bytes, max: nat) returns (r: Result<()>)
      requires max <= U32_MAX
      modifies this
      ensures r.Ok? <==> |b| <= max
      ensures r.Ok? ==> data == old(data) + FieldBytes(b)
      ensures r.Err? ==> data == old(data) && r == Err(Encrypt)
    {
      if |b| > max {
        return Err(Encrypt);
      }
      Extend(BE32(|b|));
      Extend(b);
      return Ok(());
    }

    method PushOptBytes(v: Option<Bytes>, max: nat) returns (r: Result<()>)
      requires max <= U32_MAX
      modifies this
      ensures r.Ok? <==> Fits(v, max)
      ensures r.Ok? ==> data == old(data) + OptBytes(v)
      ensures r.Err? ==> r == Err(Encrypt)
    {
      match v
      case None =>
        Extend([0]);
        return Ok(());
      case Some(b) =>
        Extend([1]);
        r := PushBytes(b, max);
    }
  }

  method SerializeIndex(es: seq<IndexEntry>) returns (r: Result<Bytes>)
    ensures r == S.SerializeIndex(es)
  {
    hide BE32, EntryBytes, EntriesBytes, EntryOk, Norm, NormAll;
    if |es| > U32_MAX {
      return Err(Encrypt);
    }
    var out := new Buffer();
    out.Extend(BE32(|es|));
    NothingWritten(es);
    for i := 0 to |es|
      invariant AllOk(es[..i])
      invariant out.data == BE32(|es|) + EntriesBytes(NormAll(es[..i]))
      invariant fresh(out)
    {
      WriteStep(es, i);
      var one := WriteOne(out, es[i]);
      if one.Err? {
        assert es[i] in es && !EntryOk(es[i]);
        return Err(one.error);
      }
    }
    assert es[..|es|] == es;
    return Ok(out.data);
  }

  /** Every entry, and so every normalised entry, can be written. */
  ghost predicate AllOk(es: seq<IndexEntry>) {
    (forall e :: e in es ==> EntryOk(e)) && (forall e :: e in NormAll(es) ==> EntryOk(e))
  }

  lemma NothingWritten(es: seq<IndexEntry>)
    ensures AllOk(es[..0]) && EntriesBytes(NormAll(es[..0])) == []
  {
  }

  lemma WriteStep(es: seq<IndexEntry>, i: nat)
    requires i < |es| && AllOk(es[..i])
    ensures EntryOk(es[i]) && EntryOk(Norm(es[i])) ==>
              && AllOk(es[..i + 1])
              && EntriesBytes(NormAll(es[..i + 1])) == EntriesBytes(NormAll(es[..i])) + EntryBytes(Norm(es[i]))
  {
    hide EntryOk, EntryBytes, Norm;
    assert es[..i + 1] == es[..i] + [es[i]];
    assert NormAll(es[..i + 1]) == NormAll(es[..i]) + [Norm(es[i])];
  }

  /** One round of the serializing loop. */
  method WriteOne(out: Buffer, e: IndexEntry) returns (r: Result<()>)
    modifies out
    ensures r.Ok? <==> EntryOk(e)
    ensures r.Ok? ==> EntryOk(Norm(e)) && out.data == old(out.data) + EntryBytes(Norm(e))
    ensures r.Err? ==> r == Err(Encrypt)
  {
    hide BE32, StrBytes;
    if !StateOk(e.state) {
      return Err(Encrypt);
    }
    out.Extend(BE32(e.itemId));
    out.Extend(BE32(e.slot));
    out.Extend([if e.state == LIVE then LIVE else TOMBSTONE]);
    var _ :- out.PushStr(e.title, MAX_TITLE);
    r := out.PushStr(e.username, MAX_USERNAME);
  }

  method SerializeItem(rec: ItemRecord, id: u32) returns (r: Result<Bytes>)
    ensures r == S.SerializeItem(rec, id)
  {
    if !ValidItem(rec) {
      return Err(Encrypt);
    }
    r := PushItem(rec, id);
  }

  method PushItem(rec: ItemRecord, id: u32) returns (r: Result<Bytes>)
    ensures ValidItem(rec) ==> r == Ok(ItemBytes(rec, id))
  {
    hide BE32, BE64, StrBytes, OptBytes, TotpBytes;
    var out := new Buffer();
    var _ :- out.PushOptBytes(rec.password, MAX_PASSWORD);
    var _ :- out.PushStr(rec.url, MAX_URL);
    var _ :- out.PushOptBytes(rec.notes, MAX_NOTES);
    var _ :- PushTotp(out, rec.totp);
    out.Extend(BE64(rec.created));
    out.Extend(BE64(rec.modified));
    out.Extend(BE32(id));
    assert ValidItem(rec) ==> out.data == ItemBytes(rec, id);
    return Ok(out.data);
  }

  method PushTotp(out: Buffer, t: Option<Totp>) returns (r: Result<()>)
    modifies out
    ensures TotpOk(t) ==> r.Ok? && out.data == old(out.data) + TotpBytes(t)
  {
    hide BE32, FieldBytes;
    match t
    case None =>
      out.Extend([0]);
      return Ok(());
    case Some(v) =>
      out.Extend([1]);
      var _ :- out.PushBytes(v.secret, MAX_SECRET);
      out.Extend(BE32(v.period));
      out.Extend(BE32(v.digits));
      out.Extend([v.algorithm.Id()]);
      return Ok(());
  }

  class Cursor {
    const buf: Bytes
    var pos: nat

    ghost predicate Valid()
      reads this
    {
      pos <= |buf|
    }

    constructor (buf: Bytes)
      ensures Valid() && this.buf == buf && pos == 0
    {
      this.buf := buf;
      pos := 0;
    }

    function Remaining(): nat
      requires Valid()
      reads this
    {
      |buf| - pos
    }

    method Take(n: nat) returns (r: Result<Bytes>)
      requires Valid()
      modifies this
      ensures Valid()
      ensures r == S.Take(buf, old(pos), n)
      ensures pos == if r.Ok? then old(pos) + n else old(pos)
    {
      if Remaining() < n {
        return Err(Encrypt);
      }
      r := Ok(buf[pos..pos + n]);
      pos := pos + n;
    }

    method ReadU8() returns (r: Result<byte>)
      requires Valid()
      modifies this
      ensures Valid()
      ensures r == S.ReadU8(buf, old(pos))
      ensures r.Ok? ==> pos == old(pos) + 1
    {
      var s :- Take(1);
      return Ok(s[0]);
    }

    method ReadU32() returns (r: Result<u32>)
      requires Valid()
      modifies this
      ensures Valid()
      ensures r == S.ReadU32(buf, old(pos))
      ensures r.Ok? ==> pos == old(pos) + 4
    {
      var s :- Take(4);
      return Ok(U32Of(s));
    }

    method ReadU64() returns (r: Result<u64>)
      requires Valid()
      modifies this
      ensures Valid()
      ensures r == S.ReadU64(buf, old(pos))
      ensures r.Ok? ==> pos == old(pos) + 8
    {
      var s :- Take(8);
      return Ok(U64Of(s));
    }

    method ReadBytesMax(max: nat) returns (r: Result<Bytes>)
      requires Valid()
      modifies this
      ensures Valid()
      ensures r == ReadField(buf, old(pos), max)
      ensures r.Ok? ==> pos == old(pos) + 4 + |r.value|
    {
      var n :- ReadU32();
      if n > max {
        return Err(Encrypt);
      }
      r := Take(n);
    }

    method ReadStrMax(max: nat) returns (r: Result<Text>)
      requires Valid()
      modifies this
      ensures Valid()
      ensures r == ReadStr(buf, old(pos), max)
      ensures r.Ok? ==> pos == old(pos) + 2 + |r.value|
    {
      var l :- Take(2);
      var n := U16Of(l);
      if n > max {
        return Err(Encrypt);
      }
      var s :- Take(n);
      if !ValidUtf8(s) {
        return Err(Encrypt);
      }
      return Ok(s);
    }

    method ReadOptBytesMax(max: nat) returns (r: Result<Option<Bytes>>)
      requires Valid()
      modifies this
      ensures Valid()
      ensures r == ReadOpt(buf, old(pos), max)
      ensures r.Ok? ==> pos == old(pos) + OptLen(r.value)
    {
      var tag :- ReadU8();
      if tag == 0 {
        return Ok(None);
      } else if tag == 1 {
        var v :- ReadBytesMax(max);
        return Ok(Some(v));
      }
      return Err(Encrypt);
    }
  }

  method ParseIndex(b: Bytes) returns (r: Result<seq<IndexEntry>>)
    ensures r == S.ParseIndex(b)
  {
    hide S.ReadU32, ReadEntry, ReadEntries, EntryLen, EntriesLen, Norm;
    var cur := new Cursor(b);
    var count :- cur.ReadU32();
    var entries: seq<IndexEntry> := [];
    ghost var raw: seq<IndexEntry> := [];
    for i := 0 to count
      invariant cur.Valid() && cur.buf == b && fresh(cur)
      invariant ReadEntries(b, 4, i) == Ok(raw)
      invariant cur.pos == 4 + EntriesLen(raw)
      invariant entries == NormAll(raw)
    {
      var stored := ReadOne(cur);
      if stored.Err? {
        ReadEntriesFails(b, 4, raw, count, stored.error);
        return Err(stored.error);
      }
      ReadEntriesStep(b, 4, raw, stored.value);
      NormAllPush(raw, stored.value);
      raw := raw + [stored.value];
      entries := entries + [Norm(stored.value)];
    }
    if cur.Remaining() != 0 {
      return Err(Encrypt);
    }
    return Ok(entries);
  }

  /** One round of the index loop, before normalisation. */
  method ReadOne(cur: Cursor) returns (r: Result<IndexEntry>)
    requires cur.Valid()
    modifies cur
    ensures cur.Valid()
    ensures r == ReadEntry(cur.buf, old(cur.pos))
    ensures r.Ok? ==> cur.pos == old(cur.pos) + EntryLen(r.value)
  {
    hide S.ReadU8, S.ReadU32, ReadStr;
    var id :- cur.ReadU32();
    var slot :- cur.ReadU32();
    var state :- cur.ReadU8();
    if !StateOk(state) {
      return Err(Encrypt);
    }
    var title :- cur.ReadStrMax(MAX_TITLE);
    var username :- cur.ReadStrMax(MAX_USERNAME);
    return Ok(IndexEntry(id, slot, state, title, username));
  }

  lemma ReadEntriesStep(b: Bytes, pos: nat, es: seq<IndexEntry>, e: IndexEntry)
    requires ReadEntries(b, pos, |es|) == Ok(es)
    requires ReadEntry(b, pos + EntriesLen(es)) == Ok(e)
    ensures ReadEntries(b, pos, |es| + 1) == Ok(es + [e])
    ensures EntriesLen(es + [e]) == EntriesLen(es) + EntryLen(e)
  {
    hide ReadEntry, EntryLen;
    assert (es + [e])[..|es|] == es;
  }

  lemma NormAllPush(es: seq<IndexEntry>, e: IndexEntry)
    ensures NormAll(es + [e]) == NormAll(es) + [Norm(e)]
  {
    hide Norm;
  }

  lemma {:induction false} ReadEntriesFails(b: Bytes, pos: nat, es: seq<IndexEntry>, n: nat, error: Error)
    requires |es| < n
    requires ReadEntries(b, pos, |es|) == Ok(es)
    requires ReadEntry(b, pos + EntriesLen(es)) == Err(error)
    ensures ReadEntries(b, pos, n) == Err(error)
  {
    hide ReadEntry, EntryLen, EntriesLen;
    if |es| + 1 < n {
      ReadEntriesFails(b, pos, es, n - 1, error);
      assert ReadEntries(b, pos, n - 1).Err?;
    } else {
      assert ReadEntries(b, pos, n - 1) == Ok(es);
    }
  }

  method LoadTotp(cur: Cursor) returns (r: Result<Option<Totp>>)
    requires cur.Valid()
    modifies cur
    ensures cur.Valid()
    ensures r == ReadTotp(cur.buf, old(cur.pos))
    ensures r.Ok? ==> cur.pos == old(cur.pos) + TotpLen(r.value)
  {
    hide S.ReadU8, S.ReadU32, ReadField;
    var tag :- cur.ReadU8();
    if tag == 0 {
      return Ok(None);
    } else if tag != 1 {
      return Err(Encrypt);
    }
    var secret :- cur.ReadBytesMax(MAX_SECRET);
    var period :- cur.ReadU32();
    var digits :- cur.ReadU32();
    if period == 0 || (digits != 6 && digits != 8) {
      return Err(Encrypt);
    }
    var algId :- cur.ReadU8();
    var algorithm :- TotpAlgorithmFromId(algId);
    return Ok(Some(Totp(secret, period, digits, algorithm)));
  }

  method ParseItem(b: Bytes) returns (r: Result<(ItemRecord, u32)>)
    ensures r == S.ParseItem(b)
  {
    hide S.ReadU32, S.ReadU64, ReadStr, ReadOpt, ReadTotp;
    var cur := new Cursor(b);
    var rec := PLACEHOLDER;
    var password :- cur.ReadOptBytesMax(MAX_PASSWORD);
    rec := rec.(password := password);
    var url :- cur.ReadStrMax(MAX_URL);
    rec := rec.(url := url);
    var notes :- cur.ReadOptBytesMax(MAX_NOTES);
    rec := rec.(notes := notes);
    var totp :- LoadTotp(cur);
    rec := rec.(totp := totp);
    var created :- cur.ReadU64();
    var modified :- cur.ReadU64();
    rec := rec.(created := created, modified := modified);
    var id :- cur.ReadU32();
    if cur.Remaining() != 0 {
      return Err(Encrypt);
    }
    return Ok((rec, id));
  }
}
