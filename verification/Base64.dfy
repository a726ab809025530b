/** Base64 with padding, as section 4 of RFC 4648 defines it, and the decoder that reads it back. */
module Base64 {
  import opened Prelude

  type Sextet = v: int | 0 <= v < 64

  const UPPER: string := "ABCDEFGHIJKLMNOPQRSTUVWXYZ"
  const LOWER: string := "abcdefghijklmnopqrstuvwxyz"
  const DIGITS: string := "0123456789"
  const ALPHABET: string := UPPER + LOWER + DIGITS + "+/"

  /** The table entry, by ranges. */
  function Letter(v: Sextet): char {
    if v < 26 then 'A' + v as char
    else if v < 52 then 'a' + (v - 26) as char
    else if v < 62 then '0' + (v - 52) as char
    else if v == 62 then '+'
    else '/'
  }

  lemma TableIsLetter(v: Sextet)
    ensures |ALPHABET| == 64 && ALPHABET[v] == Letter(v)
  {
  }

  function Table(v: Sextet): (c: char)
    ensures c == Letter(v)
  {
    TableIsLetter(v);
    ALPHABET[v]
  }

  // ------------------------------------------------------------- specification

  /** A whole group: three bytes are one 24-bit number, four digits to base 64. */
  function Digits(n: nat): (r: seq<Sextet>)
    requires n < 0x100_0000
    ensures |r| == 4
  {
    [n / 64 / 64 / 64, n / 64 / 64 % 64, n / 64 % 64, n % 64]
  }

  function Letters(vs: seq<Sextet>): (r: string)
    ensures |r| == |vs|
  {
    seq(|vs|, i requires 0 <= i < |vs| => Letter(vs[i]))
  }

  function OrZero(b: Bytes, i: nat): nat {
    if i < |b| then b[i] else 0
  }

  function Triple(b0: nat, b1: nat, b2: nat): nat {
    b0 * 65536 + b1 * 256 + b2
  }

  /** One to three bytes as four characters; the missing bytes count as zero and show as padding. */
  function Group(b: Bytes): (r: string)
    requires 1 <= |b| <= 3
    ensures |r| == 4
  {
    Letters(Digits(Triple(OrZero(b, 0), OrZero(b, 1), OrZero(b, 2)))[..|b| + 1]) + seq(3 - |b|, _ => '=')
  }

  function Encode(b: Bytes): string {
    if b == [] then ""
    else if |b| <= 3 then Group(b)
    else Group(b[..3]) + Encode(b[3..])
  }

  function Value(c: char): (r: Option<Sextet>)
    ensures r.Some? ==> Letter(r.value) == c
  {
    if 'A' <= c <= 'Z' then Some(c as int - 'A' as int)
    else if 'a' <= c <= 'z' then Some(c as int - 'a' as int + 26)
    else if '0' <= c <= '9' then Some(c as int - '0' as int + 52)
    else if c == '+' then Some(62)
    else if c == '/' then Some(63)
    else None
  }

  /** `b64_val` recognises exactly the characters of the table. */
  lemma ValueIff(c: char)
    ensures Value(c).Some? <==> c in ALPHABET
  {
    if c in ALPHABET {
      var i :| 0 <= i < |ALPHABET| && ALPHABET[i] == c;
      TableIsLetter(i);
    }
    if Value(c).Some? {
      TableIsLetter(Value(c).value);
    }
  }

  predicate Blank(c: char) {
    c == ' ' || c == '\t' || c == '\n' || c == '\r' || c as int == 12
  }

  /** The five codes of ASCII white space. */
  predicate WhiteSpace(code: int) {
    code == 9 || code == 10 || code == 12 || code == 13 || code == 32
  }

  lemma BlankIff(c: char)
    ensures Blank(c) <==> WhiteSpace(c as int)
  {
  }

  function Strip(s: string): string {
    if s == "" then "" else (if Blank(s[0]) then "" else [s[0]]) + Strip(s[1..])
  }

  /** The number of bytes a group stands for, if it is one; only the last group may be padded. */
  function GroupLen(g: string, last: bool): (k: Option<nat>)
    requires |g| == 4
    ensures k.Some? ==> 1 <= k.value <= 3 && (k.value < 3 ==> last)
  {
    if Value(g[0]).None? || Value(g[1]).None? then None
    else if g[2] == '=' then if last && g[3] == '=' then Some(1) else None
    else if Value(g[2]).None? then None
    else if g[3] == '=' then if last then Some(2) else None
    else if Value(g[3]).None? then None
    else Some(3)
  }

  function Bits(c: char): nat
    ensures Bits(c) < 64
  {
    if Value(c).Some? then Value(c).value else 0
  }

  function Combine(a: nat, b: nat, c: nat, d: nat): nat {
    a * 262144 + b * 4096 + c * 64 + d
  }

  /** The 24-bit number of a group, padding counting as zero. */
  function Number(g: string): (n: nat)
    requires |g| == 4
    ensures n < 0x100_0000
  {
    Combine(Bits(g[0]), Bits(g[1]), Bits(g[2]), Bits(g[3]))
  }

  function ThreeBytes(n: nat): (r: Bytes)
    requires n < 0x100_0000
    ensures |r| == 3
  {
    [n / 256 / 256, n / 256 % 256, n % 256]
  }

  function GroupBytes(g: string, k: nat): (r: Bytes)
    requires |g| == 4 && k <= 3
    ensures |r| == k
  {
    ThreeBytes(Number(g))[..k]
  }

  /** The groups of an already stripped text. */
  function DecodeGroups(t: string): Option<Bytes> {
    if t == "" then Some([])
    else if |t| % 4 != 0 then None
    else
      var k := GroupLen(t[..4], |t| == 4);
      if k.None? then None
      else
        var rest := DecodeGroups(t[4..]);
        if rest.None? then None else Some(GroupBytes(t[..4], k.value) + rest.value)
  }

  function Decode(s: string): Option<Bytes> {
    DecodeGroups(Strip(s))
  }

  // ---------------------------------------------------------------- algorithms

  method EncodeLoop(data: Bytes) returns (out: string)
    ensures out == Encode(data)
  {
    hide Group, Encode, Letter, Table;
    out := "";
    var i := 0;
    NothingEncoded(data);
    while i < |data|
      invariant 0 <= i
      invariant out + EncodeFrom(data, i) == Encode(data)
    {
      var chunk := data[i..if i + 3 <= |data| then i + 3 else |data|];
      var b0: nat := chunk[0];
      var b1: nat := OrZero(chunk, 1);
      var b2: nat := OrZero(chunk, 2);
      GroupByShifts(chunk);
      EncodeNext(data, i);
      var (v0, v1, v2, v3) := (b0 / 4, b0 % 4 * 16 + b1 / 16, b1 % 16 * 4 + b2 / 64, b2 % 64);
      var c0 := Table(v0);
      var c1 := Table(v1);
      var c2 := if |chunk| > 1 then Table(v2) else '=';
      var c3 := if |chunk| > 2 then Table(v3) else '=';
      assert Group(chunk) == [c0, c1, c2, c3];
      Regroup(out, [c0, c1, c2, c3], EncodeFrom(data, i + 3));
      out := out + [c0, c1, c2, c3];
      i := i + 3;
    }
  }

  lemma Regroup(a: string, b: string, c: string)
    ensures a + b + c == a + (b + c)
  {
  }

  /** What is still to be encoded from position `i`. */
  function EncodeFrom(b: Bytes, i: nat): string {
    if i < |b| then Encode(b[i..]) else ""
  }

  lemma EncodeNext(b: Bytes, i: nat)
    requires i < |b|
    ensures EncodeFrom(b, i) == Group(b[i..if i + 3 <= |b| then i + 3 else |b|]) + EncodeFrom(b, i + 3)
  {
    hide Group;
    if i + 3 < |b| {
      assert b[i..][3..] == b[i + 3..] && b[i..][..3] == b[i..i + 3];
    } else {
      assert b[i..] == b[i..|b|];
    }
  }

  lemma NothingEncoded(b: Bytes)
    ensures "" + EncodeFrom(b, 0) == Encode(b)
  {
    assert b[0..] == b;
  }

  /** Shifting and masking byte by byte gives the base-64 digits of the whole group. */
  lemma GroupByShifts(b: Bytes)
    requires 1 <= |b| <= 3
    ensures var (b0, b1, b2) := (OrZero(b, 0), OrZero(b, 1), OrZero(b, 2));
            && b0 % 4 * 16 + b1 / 16 < 64 && b1 % 16 * 4 + b2 / 64 < 64
            && Group(b) == [Letter(b0 / 4), Letter(b0 % 4 * 16 + b1 / 16),
                            if |b| > 1 then Letter(b1 % 16 * 4 + b2 / 64) else '=',
                            if |b| > 2 then Letter(b2 % 64) else '=']
  {
    hide Group, Digits, Triple, Letter;
    DigitsByShifts(OrZero(b, 0), OrZero(b, 1), OrZero(b, 2));
    GroupAt(b);
  }

  lemma GroupAt(b: Bytes)
    requires 1 <= |b| <= 3
    ensures Triple(OrZero(b, 0), OrZero(b, 1), OrZero(b, 2)) < 0x100_0000
    ensures var vs := Digits(Triple(OrZero(b, 0), OrZero(b, 1), OrZero(b, 2)));
            forall i :: 0 <= i < 4 ==> Group(b)[i] == if i <= |b| then Letter(vs[i]) else '='
  {
    hide Digits, Letter;
  }

  lemma DigitsOf(a: nat, b: nat, c: nat, d: nat)
    requires a < 64 && b < 64 && c < 64 && d < 64
    ensures var n := a * 262144 + b * 4096 + c * 64 + d;
            n < 0x100_0000 && Digits(n) == [a, b, c, d]
  {
    assert a * 262144 + b * 4096 + c * 64 + d == ((a * 64 + b) * 64 + c) * 64 + d;
    By64((a * 64 + b) * 64 + c, d);
    By64(a * 64 + b, c);
    By64(a, b);
  }

  lemma By64(q: nat, r: nat)
    requires r < 64
    ensures (q * 64 + r) / 64 == q && (q * 64 + r) % 64 == r
  {
  }

  lemma BytesOf(x: nat, y: nat, z: nat)
    requires x < 256 && y < 256 && z < 256
    ensures Triple(x, y, z) < 0x100_0000 && ThreeBytes(Triple(x, y, z)) == [x, y, z]
  {
    assert Triple(x, y, z) == (x * 256 + y) * 256 + z;
    By256(x * 256 + y, z);
    By256(x, y);
  }

  lemma By256(q: nat, r: nat)
    requires r < 256
    ensures (q * 256 + r) / 256 == q && (q * 256 + r) % 256 == r
  {
  }

  lemma DigitsByShifts(b0: nat, b1: nat, b2: nat)
    requires b0 < 256 && b1 < 256 && b2 < 256
    ensures Triple(b0, b1, b2) < 0x100_0000
    ensures Digits(Triple(b0, b1, b2)) == [b0 / 4, b0 % 4 * 16 + b1 / 16, b1 % 16 * 4 + b2 / 64, b2 % 64]
  {
    hide Digits;
    DigitsOf(b0 / 4, b0 % 4 * 16 + b1 / 16, b1 % 16 * 4 + b2 / 64, b2 % 64);
  }

  method DecodeLoop(s: string) returns (r: Option<Bytes>)
    ensures r == Decode(s)
  {
    hide GroupLen, GroupBytes, DecodeGroups, Value, Bits, Prepend;
    var bytes := StripLoop(s);
    NothingDecoded(bytes);
    if bytes == "" {
      return Some([]);
    }
    if |bytes| % 4 != 0 {
      return None;
    }
    var out: Bytes := [];
    var (i, groups) := (0, |bytes| / 4);
    while i < groups
      invariant 0 <= i <= groups
      invariant DecodeGroups(bytes) == Prepend(out, DecodeGroups(bytes[4 * i..]))
    {
      ghost var done := out;
      var g := bytes[4 * i..4 * i + 4];
      var last := i + 1 == groups;
      DecodeNext(bytes, out, i);
      GroupByMasks(g, last);
      GroupCases(g, last);
      if Value(g[0]).None? || Value(g[1]).None? {
        return None;
      }
      var (v0, v1) := (Bits(g[0]), Bits(g[1]));
      out := out + [v0 * 4 + v1 / 16];
      if g[2] == '=' {
        if !(last && g[3] == '=') {
          return None;
        }
        assert out == done + GroupBytes(g, 1);
        i := i + 1;
        break;
      }
      if Value(g[2]).None? {
        return None;
      }
      var v2 := Bits(g[2]);
      out := out + [v1 % 16 * 16 + v2 / 4];
      if g[3] == '=' {
        if !last {
          return None;
        }
        assert out == done + GroupBytes(g, 2);
        i := i + 1;
        break;
      }
      if Value(g[3]).None? {
        return None;
      }
      out := out + [v2 % 4 * 64 + Bits(g[3])];
      assert out == done + GroupBytes(g, 3);
      i := i + 1;
    }
    NothingLeft(bytes, 4 * i, out);
    return Some(out);
  }

  lemma NothingDecoded(t: string)
    ensures t[0..] == t && Prepend([], DecodeGroups(t)) == DecodeGroups(t)
    ensures DecodeGroups("") == Some([])
    ensures |t| % 4 != 0 ==> DecodeGroups(t) == None
  {
    if DecodeGroups(t).Some? {
      assert [] + DecodeGroups(t).value == DecodeGroups(t).value;
    }
  }

  lemma NothingLeft(t: string, i: nat, out: Bytes)
    requires i == |t|
    ensures Prepend(out, DecodeGroups(t[i..])) == Some(out)
  {
    assert t[i..] == "" && out + [] == out;
  }

  method StripLoop(s: string) returns (t: string)
    ensures t == Strip(s)
  {
    t := "";
    for i := 0 to |s|
      invariant t + Strip(s[i..]) == Strip(s)
    {
      if !Blank(s[i]) {
        t := t + [s[i]];
      }
      assert s[i..][1..] == s[i + 1..];
    }
  }

  function Prepend(a: Bytes, r: Option<Bytes>): Option<Bytes> {
    if r.None? then None else Some(a + r.value)
  }

  lemma DecodeNext(t: string, out: Bytes, i: nat)
    requires i < |t| / 4 && |t| % 4 == 0
    ensures var k := GroupLen(t[4 * i..4 * i + 4], i + 1 == |t| / 4);
            Prepend(out, DecodeGroups(t[4 * i..]))
            == if k.None? then None
               else Prepend(out + GroupBytes(t[4 * i..4 * i + 4], k.value), DecodeGroups(t[4 * (i + 1)..]))
  {
    hide GroupLen, GroupBytes;
    var p := 4 * i;
    assert t[p..][..4] == t[p..p + 4] && t[p..][4..] == t[p + 4..];
    var k := GroupLen(t[p..p + 4], i + 1 == |t| / 4);
    if k.Some? && DecodeGroups(t[p + 4..]).Some? {
      assert out + (GroupBytes(t[p..p + 4], k.value) + DecodeGroups(t[p + 4..]).value)
          == out + GroupBytes(t[p..p + 4], k.value) + DecodeGroups(t[p + 4..]).value;
    }
  }

  /** Shifting and masking digit by digit gives the bytes of the whole group. */
  lemma GroupByMasks(g: string, last: bool)
    requires |g| == 4
    ensures var k := GroupLen(g, last);
            k.Some? ==>
              && 1 <= k.value <= 3 && (k.value < 3 ==> last)
              && GroupBytes(g, k.value) == [Bits(g[0]) * 4 + Bits(g[1]) / 16, Bits(g[1]) % 16 * 16 + Bits(g[2]) / 4,
                                            Bits(g[2]) % 4 * 64 + Bits(g[3])][..k.value]
  {
    hide GroupLen, Bits, ThreeBytes, Combine;
    BytesByMasks(Bits(g[0]), Bits(g[1]), Bits(g[2]), Bits(g[3]));
  }

  lemma GroupCases(g: string, last: bool)
    requires |g| == 4
    ensures GroupLen(g, last) ==
            if Value(g[0]).None? || Value(g[1]).None? then None
            else if g[2] == '=' then if last && g[3] == '=' then Some(1) else None
            else if Value(g[2]).None? then None
            else if g[3] == '=' then if last then Some(2) else None
            else if Value(g[3]).None? then None
            else Some(3)
  {
    hide Value;
  }

  lemma BytesByMasks(v0: nat, v1: nat, v2: nat, v3: nat)
    requires v0 < 64 && v1 < 64 && v2 < 64 && v3 < 64
    ensures Combine(v0, v1, v2, v3) < 0x100_0000
    ensures ThreeBytes(Combine(v0, v1, v2, v3)) == [v0 * 4 + v1 / 16, v1 % 16 * 16 + v2 / 4, v2 % 4 * 64 + v3]
  {
    hide ThreeBytes;
    BytesOf(v0 * 4 + v1 / 16, v1 % 16 * 16 + v2 / 4, v2 % 4 * 64 + v3);
  }

  // ---------------------------------------------------------------- properties

  lemma {:induction false} EncodedLength(b: Bytes)
    ensures |Encode(b)| == (|b| + 2) / 3 * 4
  {
    hide Group;
    if |b| > 3 {
      EncodedLength(b[3..]);
    }
  }

  lemma LetterValue(v: Sextet)
    ensures Value(Letter(v)) == Some(v) && Letter(v) != '=' && !Blank(Letter(v))
  {
  }

  /** The characters of a group carry its digits; the digits that are left out are zero. */
  lemma GroupDigits(b: Bytes)
    requires 1 <= |b| <= 3
    ensures Triple(OrZero(b, 0), OrZero(b, 1), OrZero(b, 2)) < 0x100_0000
    ensures var vs := Digits(Triple(OrZero(b, 0), OrZero(b, 1), OrZero(b, 2)));
            forall i :: 0 <= i < 4 ==> Bits(Group(b)[i]) == vs[i]
    ensures forall i :: 0 <= i < 4 ==> !Blank(Group(b)[i])
    ensures forall i :: 0 <= i < 4 ==> if i <= |b| then Value(Group(b)[i]).Some? && Group(b)[i] != '='
            else Group(b)[i] == '='
  {
    hide Value, Letter, Digits;
    var vs := Digits(Triple(OrZero(b, 0), OrZero(b, 1), OrZero(b, 2)));
    PaddingHasNoValue();
    DigitsByShifts(OrZero(b, 0), OrZero(b, 1), OrZero(b, 2));
    forall i | 0 <= i < 4
      ensures Value(Letter(vs[i])) == Some(vs[i]) && Letter(vs[i]) != '=' && !Blank(Letter(vs[i]))
    {
      LetterValue(vs[i]);
    }
  }

  lemma PaddingHasNoValue()
    ensures Value('=') == None
  {
    var c := '=';
    assert Value(c) == None;
  }

  lemma Recombined(n: nat)
    requires n < 0x100_0000
    ensures var vs := Digits(n); Combine(vs[0], vs[1], vs[2], vs[3]) == n
  {
    var q1 := n / 64;
    var q2 := q1 / 64;
    var q3 := q2 / 64;
    assert n == q1 * 64 + n % 64 && q1 == q2 * 64 + q1 % 64 && q2 == q3 * 64 + q2 % 64;
  }

  lemma GroupLenOf(b: Bytes, last: bool)
    requires 1 <= |b| <= 3 && (|b| < 3 ==> last)
    ensures GroupLen(Group(b), last) == Some(|b|)
  {
    hide Value, Digits, Bits, Group;
    GroupDigits(b);
  }

  lemma NumberOf(b: Bytes)
    requires 1 <= |b| <= 3
    ensures Number(Group(b)) == Triple(OrZero(b, 0), OrZero(b, 1), OrZero(b, 2))
  {
    hide Digits, Bits, Group, Combine, Triple;
    GroupDigits(b);
    Recombined(Triple(OrZero(b, 0), OrZero(b, 1), OrZero(b, 2)));
  }

  /** A group decodes to the bytes it was made from. */
  lemma GroupRoundTrip(b: Bytes, last: bool)
    requires 1 <= |b| <= 3 && (|b| < 3 ==> last)
    ensures GroupLen(Group(b), last) == Some(|b|) && GroupBytes(Group(b), |b|) == b
  {
    hide GroupLen, Group, Number, ThreeBytes, Triple;
    GroupLenOf(b, last);
    NumberOf(b);
    BytesOf(OrZero(b, 0), OrZero(b, 1), OrZero(b, 2));
    assert [OrZero(b, 0), OrZero(b, 1), OrZero(b, 2)][..|b|] == b;
  }

  lemma {:induction false} StripKeeps(s: string)
    requires forall i :: 0 <= i < |s| ==> !Blank(s[i])
    ensures Strip(s) == s
  {
    if s != "" {
      StripKeeps(s[1..]);
    }
  }

  lemma {:induction false} EncodingIsDense(b: Bytes)
    ensures forall i :: 0 <= i < |Encode(b)| ==> !Blank(Encode(b)[i])
  {
    hide Group;
    if b != [] && |b| <= 3 {
      GroupDigits(b);
    } else if b != [] {
      GroupDigits(b[..3]);
      EncodingIsDense(b[3..]);
    }
  }

  lemma {:induction false} GroupsRoundTrip(b: Bytes)
    ensures DecodeGroups(Encode(b)) == Some(b)
  {
    hide Group, GroupLen, GroupBytes;
    if b != [] && |b| <= 3 {
      GroupRoundTrip(b, true);
      assert Encode(b)[..4] == Group(b) && Encode(b)[4..] == "";
      assert b + [] == b;
    } else if b != [] {
      GroupRoundTrip(b[..3], false);
      GroupsRoundTrip(b[3..]);
      EncodedLength(b[3..]);
      assert Encode(b)[..4] == Group(b[..3]) && Encode(b)[4..] == Encode(b[3..]);
      assert b == b[..3] + b[3..];
    }
  }

  /** Decoding the encoding of any byte string returns it. */
  lemma RoundTrip(b: Bytes)
    ensures Decode(Encode(b)) == Some(b)
  {
    EncodingIsDense(b);
    StripKeeps(Encode(b));
    GroupsRoundTrip(b);
  }

  lemma StripUnfold(s: string)
    ensures s != "" ==> Strip(s) == (if Blank(s[0]) then "" else [s[0]]) + Strip(s[1..])
  {
  }

  lemma {:induction false} StripAppend(a: string, b: string)
    ensures Strip(a + b) == Strip(a) + Strip(b)
  {
    hide Blank;
    StripUnfold(a + b);
    if a == "" {
      assert a + b == b;
    } else {
      StripAppend(a[1..], b);
      assert (a + b)[1..] == a[1..] + b;
    }
  }

  /** White space inserted anywhere does not change the decoding. */
  lemma WhitespaceIgnored(a: string, blanks: string, b: string)
    requires forall i :: 0 <= i < |blanks| ==> WhiteSpace(blanks[i] as int)
    ensures Decode(a + blanks + b) == Decode(a + b)
  {
    hide DecodeGroups, Strip, Blank, WhiteSpace;
    forall i | 0 <= i < |blanks|
      ensures Blank(blanks[i])
    {
      BlankIff(blanks[i]);
    }
    StripAppend(a + blanks, b);
    StripAppend(a, blanks);
    StripAppend(a, b);
    StripBlanks(blanks);
    assert Strip(a) + "" + Strip(b) == Strip(a) + Strip(b);
  }

  lemma {:induction false} StripBlanks(s: string)
    requires forall i :: 0 <= i < |s| ==> Blank(s[i])
    ensures Strip(s) == ""
  {
    if s != "" {
      StripBlanks(s[1..]);
    }
  }

  // ------------------------------------------------------------- what is accepted

  /** Letters, then `pad` padding characters. */
  ghost predicate Padded(t: string, pad: nat) {
    && pad <= |t|
    && (forall i :: 0 <= i < |t| - pad ==> Value(t[i]).Some?)
    && (forall i :: |t| - pad <= i < |t| ==> t[i] == '=')
  }

  /** Whole groups of letters, the last of which may end in one or two padding characters. */
  ghost predicate WellFormed(t: string) {
    |t| % 4 == 0 && (Padded(t, 0) || Padded(t, 1) || Padded(t, 2))
  }

  lemma GroupAccepted(g: string, last: bool)
    requires |g| == 4
    ensures GroupLen(g, last).Some? <==> Padded(g, 0) || (last && (Padded(g, 1) || Padded(g, 2)))
  {
    hide Value;
    PaddingHasNoValue();
  }

  /** The decoder accepts exactly the well-formed texts: padding stands only at the very end. */
  lemma {:induction false} AcceptsIff(t: string)
    ensures DecodeGroups(t).Some? <==> WellFormed(t)
  {
    hide Value, GroupLen, GroupBytes, Padded;
    if t == "" {
      assert Padded(t, 0) by { PaddedNothing(); }
    } else if |t| % 4 == 0 {
      GroupAccepted(t[..4], |t| == 4);
      AcceptsIff(t[4..]);
      PaddedStep(t, 0);
      PaddedStep(t, 1);
      PaddedStep(t, 2);
      if |t| == 4 {
        assert t[4..] == "" && t[..4] == t;
        PaddedNothing();
      }
    }
  }

  lemma PaddedNothing()
    ensures Padded("", 0) && !Padded("", 1) && !Padded("", 2)
  {
  }

  lemma PaddedStep(t: string, pad: nat)
    requires |t| >= 4 && pad <= 2
    ensures |t| > 4 && |t| % 4 == 0 ==> (Padded(t, pad) <==> Padded(t[..4], 0) && Padded(t[4..], pad))
  {
    hide Value;
    if |t| > 4 && |t| % 4 == 0 {
      var (g, u) := (t[..4], t[4..]);
      assert forall i :: 0 <= i < 4 ==> g[i] == t[i];
      assert forall i :: 0 <= i < |u| ==> u[i] == t[i + 4];
      assert forall i :: 4 <= i < |t| ==> t[i] == u[i - 4];
    }
  }

  // ---------------------------------------------------------------- canonical texts

  /** The bits of the last letter that belong to no byte are zero. */
  predicate SpareBitsZero(g: string)
    requires |g| == 4
  {
    && (g[2] == '=' ==> Bits(g[1]) % 16 == 0)
    && (g[2] != '=' && g[3] == '=' ==> Bits(g[2]) % 4 == 0)
  }

  predicate Canonical(t: string) {
    |t| >= 4 ==> SpareBitsZero(t[|t| - 4..])
  }

  lemma LetterOfBits(c: char)
    requires Value(c).Some?
    ensures Letter(Bits(c)) == c && c != '='
  {
    PaddingHasNoValue();
  }

  lemma SameLetter(a: Sextet, b: Sextet)
    ensures Letter(a) == Letter(b) <==> a == b
  {
    hide Letter;
    LetterValue(a);
    LetterValue(b);
  }

  lemma HighBitsBack(v: nat, w: nat)
    requires v < 64 && w < 64
    ensures var x := v * 4 + w / 16;
            x < 256 && x / 4 == v && x % 4 * 16 == w - w % 16 && (x % 4 * 16 == w <==> w % 16 == 0)
  {
    By4(v, w / 16);
  }

  lemma MiddleBitsBack(v: nat, w: nat)
    requires v < 64 && w < 64
    ensures var y := v % 16 * 16 + w / 4;
            y < 256 && y / 16 == v % 16 && y % 16 * 4 == w - w % 4 && (y % 16 * 4 == w <==> w % 4 == 0)
  {
    By16(v % 16, w / 4);
  }

  lemma LowBitsBack(v: nat, w: nat)
    requires v < 64 && w < 64
    ensures var z := v % 4 * 64 + w;
            z < 256 && z / 64 == v % 4 && z % 64 == w
  {
    By64(v % 4, w);
  }

  lemma By4(q: nat, r: nat)
    requires r < 4
    ensures (q * 4 + r) / 4 == q && (q * 4 + r) % 4 == r
  {
  }

  lemma By16(q: nat, r: nat)
    requires r < 16
    ensures (q * 16 + r) / 16 == q && (q * 16 + r) % 16 == r
  {
  }

  lemma GroupLetters(g: string, last: bool)
    requires |g| == 4 && GroupLen(g, last).Some?
    ensures var k := GroupLen(g, last).value;
            && g[0] == Letter(Bits(g[0])) && g[1] == Letter(Bits(g[1]))
            && (if k == 1 then g[2] == '=' else g[2] == Letter(Bits(g[2])) && g[2] != '=')
            && (if k < 3 then g[3] == '=' else g[3] == Letter(Bits(g[3])) && g[3] != '=')
  {
    hide Value, Letter, Bits;
    LetterOfBitsAll(g);
  }

  lemma LetterOfBitsAll(g: string)
    ensures forall i :: 0 <= i < |g| && Value(g[i]).Some? ==> Letter(Bits(g[i])) == g[i] && g[i] != '='
  {
    hide Value, Letter, Bits;
    forall i | 0 <= i < |g| && Value(g[i]).Some?
      ensures Letter(Bits(g[i])) == g[i] && g[i] != '='
    {
      LetterOfBits(g[i]);
    }
  }

  /** The digits of the decoded bytes are those of the group, but for the spare bits. */
  ghost predicate DigitsBack(k: nat, b: Bytes, g: string)
    requires |g| == 4
  {
    var (b0, b1, b2) := (OrZero(b, 0), OrZero(b, 1), OrZero(b, 2));
    && b0 / 4 == Bits(g[0])
    && (k == 1 ==> (b0 % 4 * 16 + b1 / 16 == Bits(g[1]) <==> Bits(g[1]) % 16 == 0))
    && (k > 1 ==> b0 % 4 * 16 + b1 / 16 == Bits(g[1]))
    && (k == 2 ==> (b1 % 16 * 4 + b2 / 64 == Bits(g[2]) <==> Bits(g[2]) % 4 == 0))
    && (k > 2 ==> b1 % 16 * 4 + b2 / 64 == Bits(g[2]) && b2 % 64 == Bits(g[3]))
  }

  lemma LettersBack(k: nat, b: Bytes, g: string)
    requires 1 <= k <= 3 && |g| == 4
    requires var (v0, v1, v2, v3) := (Bits(g[0]), Bits(g[1]), Bits(g[2]), Bits(g[3]));
             && v0 * 4 + v1 / 16 < 256 && v1 % 16 * 16 + v2 / 4 < 256 && v2 % 4 * 64 + v3 < 256
             && b == [v0 * 4 + v1 / 16, v1 % 16 * 16 + v2 / 4, v2 % 4 * 64 + v3][..k]
    ensures DigitsBack(k, b, g)
  {
    hide Bits;
    var (v0, v1, v2, v3) := (Bits(g[0]), Bits(g[1]), Bits(g[2]), Bits(g[3]));
    HighBitsBack(v0, v1);
    MiddleBitsBack(v1, v2);
    LowBitsBack(v2, v3);
    assert OrZero(b, 0) == v0 * 4 + v1 / 16;
    if k == 1 {
      assert OrZero(b, 1) == 0;
    } else if k == 2 {
      assert OrZero(b, 1) == v1 % 16 * 16 + v2 / 4 && OrZero(b, 2) == 0;
    } else {
      assert OrZero(b, 1) == v1 % 16 * 16 + v2 / 4 && OrZero(b, 2) == v2 % 4 * 64 + v3;
    }
  }

  lemma MaskedBack(g: string, last: bool)
    requires |g| == 4 && GroupLen(g, last).Some?
    ensures DigitsBack(GroupLen(g, last).value, GroupBytes(g, GroupLen(g, last).value), g)
  {
    hide Bits, GroupLen, ThreeBytes, Combine, DigitsBack;
    var (v0, v1, v2, v3) := (Bits(g[0]), Bits(g[1]), Bits(g[2]), Bits(g[3]));
    BytesByMasks(v0, v1, v2, v3);
    var k := GroupLen(g, last).value;
    LettersBack(k, GroupBytes(g, k), g);
  }

  /** Encoding the bytes of an accepted group gives the group back if and only if its spare bits are zero. */
  lemma GroupBack(g: string, last: bool)
    requires |g| == 4 && GroupLen(g, last).Some?
    ensures var b := GroupBytes(g, GroupLen(g, last).value);
            Group(b) == g <==> SpareBitsZero(g)
  {
    hide Value, Letter, Bits, Group, GroupBytes, GroupLen;
    var k := GroupLen(g, last).value;
    var b := GroupBytes(g, k);
    MaskedBack(g, last);
    GroupByShifts(b);
    GroupLetters(g, last);
    SameLetterAs(OrZero(b, 0) % 4 * 16 + OrZero(b, 1) / 16, Bits(g[1]));
    SameLetterAs(OrZero(b, 1) % 16 * 4 + OrZero(b, 2) / 64, Bits(g[2]));
  }

  lemma SameLetterAs(a: nat, b: nat)
    requires b < 64
    ensures a < 64 ==> (Letter(a) == Letter(b) <==> a == b)
  {
    hide Letter;
    if a < 64 {
      SameLetter(a, b);
    }
  }

  /** Encoding what was decoded gives the stripped text back if and only if it is canonical. */
  lemma {:induction false} ReencodesIff(t: string)
    requires DecodeGroups(t).Some?
    ensures Encode(DecodeGroups(t).value) == t <==> Canonical(t)
  {
    hide Group, GroupBytes, GroupLen, SpareBitsZero;
    if t != "" {
      var (g, u) := (t[..4], t[4..]);
      var k := GroupLen(g, |t| == 4).value;
      GroupBack(g, |t| == 4);
      if u == "" {
        assert t == g && t[|t| - 4..] == g && GroupBytes(g, k) + [] == GroupBytes(g, k);
      } else {
        ReencodesIff(u);
        DecodesSomething(u);
        FullGroup(g);
        var (x, y) := (GroupBytes(g, 3), DecodeGroups(u).value);
        assert (x + y)[..3] == x && (x + y)[3..] == y;
        assert t == g + u && t[|t| - 4..] == u[|u| - 4..];
        assert Group(x) + Encode(y) == t <==> Group(x) == g && Encode(y) == u;
      }
    }
  }

  lemma DecodesSomething(t: string)
    requires t != "" && DecodeGroups(t).Some?
    ensures |t| >= 4 && DecodeGroups(t).value != []
  {
    hide GroupLen, GroupBytes;
  }

  lemma FullGroup(g: string)
    requires |g| == 4 && GroupLen(g, false).Some?
    ensures GroupLen(g, false) == Some(3) && SpareBitsZero(g)
  {
    hide Value, Bits;
    PaddingHasNoValue();
  }

  /** The decoder is not injective: two texts, one canonical, stand for the same byte. */
  lemma NotInjective()
    ensures Decode("QQ==") == Decode("QR==") == Some([65])
    ensures Encode([65]) == "QQ=="
  {
    hide Group, GroupLen, ThreeBytes;
    RoundTrip([65]);
    GroupByShifts([65]);
    var t := "QR==";
    StripKeeps(t);
    TwoLetters(t, 16, 17);
    assert Combine(16, 17, 0, 0) == Triple(65, 16, 0);
    BytesOf(65, 16, 0);
    assert GroupBytes(t, 1) == [65];
    assert t[..4] == t && t[4..] == "" && [65] + [] == [65];
  }

  lemma TwoLetters(t: string, a: Sextet, b: Sextet)
    requires |t| == 4 && t[0] == Letter(a) && t[1] == Letter(b) && t[2] == t[3] == '='
    ensures Number(t) == Combine(a, b, 0, 0) && GroupLen(t, true) == Some(1)
  {
    hide Value, Letter;
    LetterValue(a);
    LetterValue(b);
    PaddingHasNoValue();
  }
}
