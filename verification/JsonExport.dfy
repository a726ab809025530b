/** The JSON export of one item, and a reader for what it writes. */
module JsonExport {
  import opened Prelude

  // ------------------------------------------------------------------ escaping

  function HexDigit(d: nat): (c: char)
    requires d < 16
    ensures HexValue(c) == Some(d)
  {
    if d < 10 then '0' + d as char else 'a' + (d - 10) as char
  }

  /** Section 7 of RFC 8259 allows either case. */
  function HexValue(c: char): (d: Option<nat>)
    ensures d.Some? ==> d.value < 16
  {
    if '0' <= c <= '9' then Some(c as int - '0' as int)
    else if 'a' <= c <= 'f' then Some(c as int - 'a' as int + 10)
    else if 'A' <= c <= 'F' then Some(c as int - 'A' as int + 10)
    else None
  }

  /** `\u` and four digits. */
  function Unicode(n: nat): (s: string)
    requires n < 0x1_0000
    ensures |s| == 6
  {
    ['\\', 'u', HexDigit(n / 4096), HexDigit(n / 256 % 16), HexDigit(n / 16 % 16), HexDigit(n % 16)]
  }

  function EscapeChar(c: char): string {
    if c == '"' then ['\\', '"']
    else if c == '\\' then ['\\', '\\']
    else if c == '\n' then ['\\', 'n']
    else if c == '\r' then ['\\', 'r']
    else if c == '\t' then ['\\', 't']
    else if c as int < 0x20 then Unicode(c as int)
    else [c]
  }

  function Escape(s: string): string {
    if s == "" then "" else EscapeChar(s[0]) + Escape(s[1..])
  }

  method Esc(s: string) returns (out: string)
    ensures out == Escape(s)
  {
    hide EscapeChar;
    out := "";
    assert s[0..] == s;
    for i := 0 to |s|
      invariant out + Escape(s[i..]) == Escape(s)
    {
      assert s[i..][1..] == s[i + 1..];
      var c := s[i];
      var piece: string;
      if c == '"' {
        piece := "\\\"";
      } else if c == '\\' {
        piece := "\\\\";
      } else if c == '\n' {
        piece := "\\n";
      } else if c == '\r' {
        piece := "\\r";
      } else if c == '\t' {
        piece := "\\t";
      } else if c as int < 0x20 {
        piece := "\\u00" + [HexDigit(c as int / 16), HexDigit(c as int % 16)];
      } else {
        piece := [c];
      }
      PieceIs(c, piece);
      out := out + piece;
    }
  }

  /** The strings of the table, and `{:04x}` of a control character. */
  lemma PieceIs(c: char, piece: string)
    requires piece == (if c == '"' then "\\\"" else if c == '\\' then "\\\\" else if c == '\n' then "\\n"
                       else if c == '\r' then "\\r" else if c == '\t' then "\\t"
                       else if c as int < 0x20 then "\\u00" + [HexDigit(c as int / 16), HexDigit(c as int % 16)]
                         else [c])
    ensures piece == EscapeChar(c)
  {
  }

  // ------------------------------------------------------------------- reading

  function Four(t: string): Option<nat>
    requires |t| >= 4
  {
    if HexValue(t[0]).Some? && HexValue(t[1]).Some? && HexValue(t[2]).Some? && HexValue(t[3]).Some? then
      Some(HexValue(t[0]).value * 4096 + HexValue(t[1]).value * 256 + HexValue(t[2]).value * 16 + HexValue(t[3]).value)
    else None
  }

  predicate Surrogate(n: nat) {
    0xD800 <= n < 0xE000
  }

  /**
   The next character of a JSON string and how much text it took, as section 7 of RFC 8259
   defines it: an unescaped character, a two-character escape, `\u` and four digits, or two
   of those for a surrogate pair.
   */
  function ReadChar(t: string): (r: Option<(char, nat)>)
    ensures r.Some? ==> 0 < r.value.1 <= |t|
  {
    if t == "" || t[0] == '"' || t[0] as int < 0x20 then None
    else if t[0] != '\\' then Some((t[0], 1))
    else if |t| < 2 then None
    else if t[1] == '"' then Some(('"', 2))
    else if t[1] == '\\' then Some(('\\', 2))
    else if t[1] == '/' then Some(('/', 2))
    else if t[1] == 'b' then Some((8 as char, 2))
    else if t[1] == 'f' then Some((12 as char, 2))
    else if t[1] == 'n' then Some(('\n', 2))
    else if t[1] == 'r' then Some(('\r', 2))
    else if t[1] == 't' then Some(('\t', 2))
    else if t[1] != 'u' || |t| < 6 then None
    else
      var high := Four(t[2..]);
      if high.None? then None
      else if high.value < 0x1_0000 && !Surrogate(high.value) then Some((high.value as char, 6))
      else if |t| < 12 || t[6] != '\\' || t[7] != 'u' then None
      else
        var low := Four(t[8..]);
        if low.Some? && 0xD800 <= high.value < 0xDC00 <= low.value < 0xE000 then
          Some(((0x1_0000 + (high.value - 0xD800) * 0x400 + (low.value - 0xDC00)) as char, 12))
        else None
  }

  /** The contents of a JSON string up to its closing quote, and the text after the quote. */
  function ReadString(t: string): Option<(string, string)> {
    if t != "" && t[0] == '"' then Some(("", t[1..]))
    else
      var c := ReadChar(t);
      if c.None? then None
      else
        var rest := ReadString(t[c.value.1..]);
        if rest.None? then None else Some(([c.value.0] + rest.value.0, rest.value.1))
  }

  /** Where the first quote that no backslash precedes stands; each backslash takes the next character with it. */
  function FirstQuote(t: string): Option<nat> {
    if t == "" then None
    else if t[0] == '"' then Some(0)
    else
      var skip := if t[0] == '\\' && |t| > 1 then 2 else 1;
      var rest := FirstQuote(t[skip..]);
      if rest.None? then None else Some(skip + rest.value)
  }

  // ---------------------------------------------------------------- properties

  lemma HexBack(n: nat, rest: string)
    requires n < 0x20
    ensures Unicode(n) + rest != "" && ReadChar(Unicode(n) + rest) == Some((n as char, 6))
  {
    var t := Unicode(n) + rest;
    assert t[2..][0] == HexDigit(n / 4096) && t[2..][1] == HexDigit(n / 256 % 16);
    assert t[2..][2] == HexDigit(n / 16 % 16) && t[2..][3] == HexDigit(n % 16);
    assert n / 4096 == 0 && n / 256 % 16 == 0 && n / 16 % 16 == n / 16;
    assert Four(t[2..]) == Some(n);
  }

  predicate Short(c: char) {
    c == '"' || c == '\\' || c == '\n' || c == '\r' || c == '\t'
  }

  lemma ShortBack(c: char, rest: string)
    requires Short(c)
    ensures ReadChar(EscapeChar(c) + rest) == Some((c, 2)) && |EscapeChar(c)| == 2
  {
    hide Unicode, Four;
    var t := EscapeChar(c) + rest;
    assert t[0] == '\\' && t[1] == EscapeChar(c)[1];
  }

  lemma ControlBack(c: char, rest: string)
    requires !Short(c) && c as int < 0x20
    ensures ReadChar(EscapeChar(c) + rest) == Some((c, 6)) && |EscapeChar(c)| == 6
  {
    hide Four, ReadChar;
    HexBack(c as int, rest);
    assert EscapeChar(c) == Unicode(c as int);
  }

  lemma PlainBack(c: char, rest: string)
    requires !Short(c) && c as int >= 0x20
    ensures ReadChar(EscapeChar(c) + rest) == Some((c, 1)) && EscapeChar(c) == [c]
  {
    hide Unicode, Four;
  }

  /** Reading what one character was escaped to gives the character. */
  lemma ReadsBack(c: char, rest: string)
    ensures ReadChar(EscapeChar(c) + rest) == Some((c, |EscapeChar(c)|))
    ensures EscapeChar(c) != "" && EscapeChar(c)[0] != '"'
  {
    hide ReadChar;
    if Short(c) {
      ShortBack(c, rest);
    } else if c as int < 0x20 {
      ControlBack(c, rest);
      assert EscapeChar(c) == Unicode(c as int) && Unicode(c as int)[0] == '\\';
    } else {
      PlainBack(c, rest);
    }
  }

  /** A field survives: the reader gives back the text and stops at the quote after it, whatever follows. */
  lemma {:induction false} StringRoundTrip(s: string, suffix: string)
    ensures ReadString(Escape(s) + "\"" + suffix) == Some((s, suffix))
  {
    hide EscapeChar, ReadChar;
    var t := Escape(s) + "\"" + suffix;
    if s == "" {
      assert t[0] == '"' && t[1..] == suffix;
    } else {
      var (head, tail) := (EscapeChar(s[0]), Escape(s[1..]) + "\"" + suffix);
      assert t == head + tail;
      ReadsBack(s[0], tail);
      StringRoundTrip(s[1..], suffix);
      assert t[|head|..] == tail;
      assert [s[0]] + s[1..] == s;
    }
  }

  /** The position further on by `n`, if there is one. */
  function Beyond(n: nat, at: Option<nat>): Option<nat> {
    if at.None? then None else Some(n + at.value)
  }

  lemma SkipsOne(c: char, rest: string)
    requires c != '"' && c != '\\'
    ensures FirstQuote([c] + rest) == Beyond(1, FirstQuote(rest))
  {
    assert ([c] + rest)[1..] == rest;
  }

  lemma SkipsTwo(c: char, rest: string)
    ensures FirstQuote(['\\', c] + rest) == Beyond(2, FirstQuote(rest))
  {
    assert (['\\', c] + rest)[2..] == rest;
  }

  lemma SkipsFour(a: char, b: char, c: char, d: char, rest: string)
    requires HexValue(a).Some? && HexValue(b).Some? && HexValue(c).Some? && HexValue(d).Some?
    ensures FirstQuote([a, b, c, d] + rest) == Beyond(4, FirstQuote(rest))
  {
    hide FirstQuote;
    SkipsOne(d, rest);
    SkipsOne(c, [d] + rest);
    SkipsOne(b, [c] + ([d] + rest));
    SkipsOne(a, [b] + ([c] + ([d] + rest)));
    assert [a] + ([b] + ([c] + ([d] + rest))) == [a, b, c, d] + rest;
  }

  lemma SkipsEscape(c: char, rest: string)
    ensures FirstQuote(EscapeChar(c) + rest) == Beyond(|EscapeChar(c)|, FirstQuote(rest))
  {
    hide FirstQuote, HexDigit;
    if Short(c) {
      SkipsTwo(EscapeChar(c)[1], rest);
      assert EscapeChar(c) == ['\\', EscapeChar(c)[1]];
    } else if c as int < 0x20 {
      var u := Unicode(c as int);
      SkipsFour(u[2], u[3], u[4], u[5], rest);
      SkipsTwo('u', [u[2], u[3], u[4], u[5]] + rest);
      assert EscapeChar(c) == u && ['\\', 'u'] + ([u[2], u[3], u[4], u[5]] + rest) == u + rest;
    } else {
      SkipsOne(c, rest);
    }
  }

  /** No field can end its own string early: the first unescaped quote is the closing one. */
  lemma {:induction false} ClosingQuote(s: string, suffix: string)
    ensures FirstQuote(Escape(s) + "\"" + suffix) == Some(|Escape(s)|)
  {
    hide EscapeChar;
    var t := Escape(s) + "\"" + suffix;
    if s == "" {
      assert t[0] == '"';
    } else {
      var tail := Escape(s[1..]) + "\"" + suffix;
      assert t == EscapeChar(s[0]) + tail;
      SkipsEscape(s[0], tail);
      ClosingQuote(s[1..], suffix);
    }
  }

  // ------------------------------------------------------------- the whole block

  datatype Json = Null | Num(n: nat) | Str(s: string) | Obj(members: Members)
  datatype Members = One(key: string, value: Json) | More(key: string, value: Json, rest: Members)

  function Decimal(n: nat): (s: string)
    ensures s != ""
  {
    (if n < 10 then "" else Decimal(n / 10)) + [HexDigit(n % 10)]
  }

  function Quoted(s: string): string {
    "\"" + Escape(s) + "\""
  }

  /** A value as the export lays it out: members on lines of their own, always at the same depth. */
  function Text(j: Json): string {
    match j
    case Null => "null"
    case Num(n) => Decimal(n)
    case Str(s) => Quoted(s)
    case Obj(ms) => "{\n" + MembersText(ms) + "\n    }"
  }

  function MembersText(ms: Members): string {
    match ms
    case One(k, v) => "      " + Quoted(k) + ": " + Text(v)
    case More(k, v, rest) => "      " + Quoted(k) + ": " + Text(v) + ",\n" + MembersText(rest)
  }

  // ------------------------------------------------------------------ a JSON reader

  function Skip(t: string): (r: string)
    ensures |r| <= |t|
  {
    if t != "" && t[0] in [' ', '\t', '\n', '\r'] then Skip(t[1..]) else t
  }

  predicate Digit(c: char) {
    '0' <= c <= '9'
  }

  /** A number without sign, fraction or exponent; no leading zero. `n` is the value so far. */
  function ReadDigits(t: string, n: nat): (r: (nat, string))
    ensures |r.1| <= |t|
  {
    if t != "" && Digit(t[0]) then ReadDigits(t[1..], 10 * n + (t[0] as int - '0' as int)) else (n, t)
  }

  /** A value at the start of the text, as section 3 of RFC 8259 defines it for strings, objects, naturals and null. */
  function ReadValue(t: string): (r: Option<(Json, string)>)
    ensures r.Some? ==> |r.value.1| < |t|
    decreases |t|, 0
  {
    if t == "" then None
    else if t[0] == '"' then
      var s := ReadString(t[1..]);
      ReadStringShortens(t[1..]);
      if s.None? then None else Some((Str(s.value.0), s.value.1))
    else if "null" <= t then Some((Null, t[4..]))
    else if t[0] == '0' then Some((Num(0), t[1..]))
    else if Digit(t[0]) then
      var d := ReadDigits(t[1..], t[0] as int - '0' as int);
      Some((Num(d.0), d.1))
    else if t[0] == '{' then
      var ms := ReadMembers(Skip(t[1..]));
      if ms.None? then None else Some((Obj(ms.value.0), ms.value.1))
    else None
  }

  /** The members of an object and its closing brace. */
  function ReadMembers(t: string): (r: Option<(Members, string)>)
    ensures r.Some? ==> |r.value.1| < |t|
    decreases |t|, 1
  {
    if t == "" || t[0] != '"' then None
    else
      var key := ReadString(t[1..]);
      ReadStringShortens(t[1..]);
      if key.None? then None
      else
        var colon := Skip(key.value.1);
        if colon == "" || colon[0] != ':' then None
        else
          var value := ReadValue(Skip(colon[1..]));
          if value.None? then None
          else
            var next := Skip(value.value.1);
            if next == "" then None
            else if next[0] == '}' then Some((One(key.value.0, value.value.0), next[1..]))
            else if next[0] != ',' then None
            else
              var rest := ReadMembers(Skip(next[1..]));
              if rest.None? then None
              else Some((More(key.value.0, value.value.0, rest.value.0), rest.value.1))
  }

  lemma {:induction false} ReadStringShortens(t: string)
    ensures ReadString(t).Some? ==> |ReadString(t).value.1| < |t|
  {
    hide ReadChar;
    if !(t != "" && t[0] == '"') && ReadChar(t).Some? {
      ReadStringShortens(t[ReadChar(t).value.1..]);
    }
  }

  // ------------------------------------------------------ the block reads back

  /** What may follow a number without becoming part of it. */
  predicate Stops(rest: string) {
    rest == "" || !Digit(rest[0])
  }

  /** Reading a numeral that more text follows goes on from its value. */
  lemma {:induction false} DigitsThen(n: nat, rest: string)
    requires n > 0
    ensures var t := Decimal(n) + rest;
            Digit(t[0]) && t[0] != '0' && ReadDigits(t[1..], t[0] as int - '0' as int) == ReadDigits(rest, n)
  {
    if n < 10 {
      assert (Decimal(n) + rest)[1..] == rest;
    } else {
      var more := [HexDigit(n % 10)] + rest;
      DigitsThen(n / 10, more);
      assert Decimal(n) + rest == Decimal(n / 10) + more;
      assert more[1..] == rest;
    }
  }

  lemma NumberBack(n: nat, rest: string)
    requires Stops(rest)
    ensures ReadValue(Decimal(n) + rest) == Some((Num(n), rest))
  {
    hide Decimal, ReadString;
    var t := Decimal(n) + rest;
    if n == 0 {
      ZeroIs();
      assert t[0] == '0' && t[1..] == rest;
    } else {
      DigitsThen(n, rest);
      assert t[0] != 'n';
    }
  }

  lemma ZeroIs()
    ensures Decimal(0) == "0"
  {
  }

  predicate Blank(c: char) {
    c == ' ' || c == '\t' || c == '\n' || c == '\r'
  }

  lemma {:induction false} SkipsBlanks(blanks: string, t: string)
    requires forall i :: 0 <= i < |blanks| ==> Blank(blanks[i])
    requires t != "" && !Blank(t[0])
    ensures Skip(blanks + t) == t
  {
    if blanks == "" {
      assert blanks + t == t;
    } else {
      SkipsBlanks(blanks[1..], t);
      assert (blanks + t)[1..] == blanks[1..] + t;
    }
  }

  lemma QuotedBack(s: string, rest: string)
    ensures var t := Quoted(s) + rest;
            t[0] == '"' && ReadString(t[1..]) == Some((s, rest))
  {
    hide Escape, ReadString;
    StringRoundTrip(s, rest);
    assert (Quoted(s) + rest)[1..] == Escape(s) + "\"" + rest;
  }

  /** No value starts with a blank. */
  lemma StartsPlainly(j: Json)
    ensures Text(j) != "" && !Blank(Text(j)[0])
  {
    hide Escape, MembersText;
    if j.Num? && j.n > 0 {
      DigitsThen(j.n, "");
      assert (Decimal(j.n) + "")[0] == Decimal(j.n)[0];
    }
  }

  /** A value reads back, whatever follows it. */
  lemma {:induction false} ValueBack(j: Json, rest: string)
    requires Stops(rest)
    ensures ReadValue(Text(j) + rest) == Some((j, rest))
    decreases j, 1
  {
    hide ReadString, Escape, Decimal, MembersText, ReadMembers, Skip;
    var t := Text(j) + rest;
    match j
    case Null =>
      assert t[..4] == "null" && t[4..] == rest;
    case Num(n) =>
      NumberBack(n, rest);
    case Str(s) =>
      QuotedBack(s, rest);
    case Obj(ms) =>
      var inner := MembersText(ms) + ("\n    }" + rest);
      assert t[0] == '{' && t[1..] == "\n" + inner;
      MembersBack(ms, "\n", rest);
  }

  /** Where the reader stands before a key, before the colon and before the value. */
  lemma MemberParts(k: string, v: Json, blanks: string, tail: string)
    requires forall i :: 0 <= i < |blanks| ==> Blank(blanks[i])
    ensures var value := Text(v) + tail;
            var text := Quoted(k) + (": " + value);
            && Skip(blanks + text) == text && text[0] == '"' && ReadString(text[1..]) == Some((k, ": " + value))
            && Skip(": " + value) == ": " + value && Skip((": " + value)[1..]) == value
  {
    hide ReadString, Escape, Decimal, Text, Skip, Quoted;
    var value := Text(v) + tail;
    QuotedBack(k, ": " + value);
    SkipsBlanks(blanks, Quoted(k) + (": " + value));
    SkipsBlanks("", ": " + value);
    assert "" + (": " + value) == ": " + value && (": " + value)[1..] == " " + value;
    StartsPlainly(v);
    SkipsBlanks(" ", value);
  }

  /** One member and what follows it. */
  lemma MemberBack(k: string, v: Json, blanks: string, tail: string)
    requires forall i :: 0 <= i < |blanks| ==> Blank(blanks[i])
    requires ReadValue(Text(v) + tail) == Some((v, tail))
    ensures var (t, next) := (Skip(blanks + (Quoted(k) + (": " + (Text(v) + tail)))), Skip(tail));
            && (next != "" && next[0] == '}' ==> ReadMembers(t) == Some((One(k, v), next[1..])))
            && (next != "" && next[0] == ',' ==>
                 ReadMembers(t) == var more := ReadMembers(Skip(next[1..]));
                   if more.None? then None else Some((More(k, v, more.value.0), more.value.1)))
  {
    hide ReadString, Escape, Decimal, Text, Skip, Quoted, ReadValue;
    MemberParts(k, v, blanks, tail);
  }

  lemma OneLaidOut(k: string, v: Json, blanks: string, close: string)
    ensures blanks + (MembersText(One(k, v)) + close) == (blanks + "      ") + (Quoted(k) + (": " + (Text(v) + close)))
  {
    hide Quoted, Text;
  }

  lemma MoreLaidOut(k: string, v: Json, more: Members, blanks: string, close: string)
    ensures blanks + (MembersText(More(k, v, more)) + close)
         == (blanks + "      ") + (Quoted(k) + (": " + (Text(v) + (",\n" + (MembersText(more) + close)))))
  {
    hide Quoted, Text;
    var m := MembersText(more);
    assert MembersText(More(k, v, more)) == "      " + Quoted(k) + ": " + Text(v) + ",\n" + m;
  }

  lemma Closes(rest: string)
    ensures Stops("\n    }" + rest) && Skip("\n    }" + rest) == "}" + rest && ("}" + rest)[1..] == rest
  {
    SkipsBlanks("\n    ", "}" + rest);
    assert "\n    " + ("}" + rest) == "\n    }" + rest;
  }

  lemma Separates(rest: string)
    ensures Stops(",\n" + rest) && Skip(",\n" + rest) == ",\n" + rest && (",\n" + rest)[1..] == "\n" + rest
  {
    SkipsBlanks("", ",\n" + rest);
    assert "" + (",\n" + rest) == ",\n" + rest;
  }

  /** The members read back, from any blanks before them to the closing brace. */
  lemma {:induction false} MembersBack(ms: Members, blanks: string, rest: string)
    requires forall i :: 0 <= i < |blanks| ==> Blank(blanks[i])
    ensures ReadMembers(Skip(blanks + (MembersText(ms) + ("\n    }" + rest)))) == Some((ms, rest))
    decreases ms, 0
  {
    hide ReadString, Escape, Decimal, Text, MembersText, Skip, Quoted, ReadValue, ReadMembers;
    var close := "\n    }" + rest;
    match ms
    case One(k, v) =>
      OneLaidOut(k, v, blanks, close);
      ValueBack(v, close);
      MemberBack(k, v, blanks + "      ", close);
      Closes(rest);
    case More(k, v, more) =>
      var tail := ",\n" + (MembersText(more) + close);
      MoreLaidOut(k, v, more, blanks, close);
      ValueBack(v, tail);
      MemberBack(k, v, blanks + "      ", tail);
      Separates(MembersText(more) + close);
      MembersBack(more, "\n", rest);
  }

  // ------------------------------------------------------------ the exported item

  datatype Hash = Sha1 | Sha256 | Sha512 {
    function Name(): string {
      match this
      case Sha1 => "SHA1"
      case Sha256 => "SHA256"
      case Sha512 => "SHA512"
    }
  }

  /** A record as text: secret bytes already decoded, the TOTP secret already in base32. */
  datatype ExportedTotp = ExportedTotp(secret: string, period: nat, digits: nat, algorithm: Hash)
  datatype Exported = Exported(
    id: nat, title: string, username: string, password: Option<string>, url: string, notes: Option<string>,
    totp: Option<ExportedTotp>, created: nat, modified: nat)

  function OrNull(v: Option<string>): string {
    if v.None? then "null" else "\"" + Escape(v.value) + "\""
  }

  function TotpText(t: Option<ExportedTotp>): string {
    if t.None? then "null"
    else
      "{\n      \"secret\": \"" + (Escape(t.value.secret)
      + ("\",\n      \"period\": " + (Decimal(t.value.period)
      + (",\n      \"digits\": " + (Decimal(t.value.digits)
      + (",\n      \"algorithm\": \"" + (t.value.algorithm.Name()
      + ("\"" + "\n    }"))))))))
  }

  /** `export_item_json`: the format string with its holes filled. */
  function ExportText(e: Exported): string {
    "    \"" + (Decimal(e.id)
    + ("\": {\n      \"title\": \"" + (Escape(e.title)
    + ("\",\n      \"username\": \"" + (Escape(e.username)
    + ("\",\n      \"password\": " + (OrNull(e.password)
    + (",\n      \"url\": \"" + (Escape(e.url)
    + ("\",\n      \"notes\": " + (OrNull(e.notes)
    + (",\n      \"totp\": " + (TotpText(e.totp)
    + (",\n      \"created_unix\": " + (Decimal(e.created)
    + (",\n      \"modified_unix\": " + (Decimal(e.modified) + "\n    }")))))))))))))))))
  }

  function OptJson(v: Option<string>): Json {
    if v.None? then Null else Str(v.value)
  }

  function TotpJson(t: Option<ExportedTotp>): Json {
    if t.None? then Null
    else Obj(More("secret", Str(t.value.secret), More("period", Num(t.value.period),
             More("digits", Num(t.value.digits), One("algorithm", Str(t.value.algorithm.Name()))))))
  }

  /** The item as a JSON value. */
  function ItemJson(e: Exported): Json {
    Obj(More("title", Str(e.title), More("username", Str(e.username), More("password", OptJson(e.password),
        More("url", Str(e.url), More("notes", OptJson(e.notes), More("totp", TotpJson(e.totp),
        More("created_unix", Num(e.created), One("modified_unix", Num(e.modified))))))))))
  }

  // ------------------------------------------------- the format string is that layout

  const CLOSE := "\n    }"

  /** What stands between a value and the next one. */
  function Sep(key: string): (s: string)
    ensures s != ""
  {
    ",\n      \"" + key + "\": "
  }

  predicate Plain(s: string) {
    forall i :: 0 <= i < |s| ==> s[i] as int >= 0x20 && s[i] != '"' && s[i] != '\\'
  }

  lemma {:induction false} PlainEscape(s: string)
    requires Plain(s)
    ensures Escape(s) == s
  {
    if s != "" {
      PlainEscape(s[1..]);
    }
  }

  lemma LastField(key: string, v: Json)
    requires Plain(key)
    ensures Sep(key) + (Text(v) + CLOSE) == ",\n" + (MembersText(One(key, v)) + CLOSE)
  {
    hide Text, Escape;
    PlainEscape(key);
  }

  lemma NextField(key: string, v: Json, more: Members)
    requires Plain(key)
    ensures Sep(key) + (Text(v) + (",\n" + (MembersText(more) + CLOSE)))
            == ",\n" + (MembersText(More(key, v, more)) + CLOSE)
  {
    hide Text, Escape, MembersText;
    PlainEscape(key);
    MoreText(key, v, more);
    LaidOut(key, Text(v), MembersText(more));
  }

  lemma MoreText(key: string, v: Json, more: Members)
    ensures MembersText(More(key, v, more)) == "      " + Quoted(key) + ": " + Text(v) + ",\n" + MembersText(more)
  {
    hide Text, Quoted;
  }

  lemma LaidOut(key: string, v: string, m: string)
    ensures Sep(key) + (v + (",\n" + (m + CLOSE)))
            == ",\n" + (("      " + ("\"" + key + "\"") + ": " + v + ",\n" + m) + CLOSE)
  {
    assert Sep(key) == ",\n" + ("      " + ("\"" + key + "\"") + ": ");
  }

  /** The first field of an object follows its brace. */
  lemma FirstField(key: string, v: Json, more: Members)
    requires Plain(key)
    ensures ("{" + Sep(key)[1..]) + (Text(v) + (",\n" + (MembersText(more) + CLOSE))) == Text(Obj(More(key, v, more)))
  {
    hide MembersText, Escape;
    NextField(key, v, more);
    var (a, b, c) := (Sep(key), Text(v) + (",\n" + (MembersText(more) + CLOSE)), MembersText(More(key, v, more)));
    assert (a + b)[1..] == a[1..] + b && (",\n" + (c + CLOSE))[1..] == "\n" + (c + CLOSE);
    assert "{" + (a[1..] + b) == ("{" + a[1..]) + b;
    assert "{" + ("\n" + (c + CLOSE)) == "{\n" + c + "\n    }";
  }

  /** A string value in the format string: the quotes belong to the literals around the hole. */
  lemma StringHole(before: string, s: string, after: string, rest: string)
    ensures (before + "\"") + (Escape(s) + (("\"" + after) + rest)) == before + (Text(Str(s)) + (after + rest))
  {
    hide Escape;
  }

  lemma OrNullIs(v: Option<string>)
    ensures OrNull(v) == Text(OptJson(v))
  {
    hide Escape;
  }

  lemma NameIsPlain(h: Hash)
    ensures Plain(h.Name()) && Escape(h.Name()) == h.Name()
  {
    PlainEscape(h.Name());
  }

  lemma TotpIs(t: Option<ExportedTotp>)
    ensures TotpText(t) == Text(TotpJson(t))
  {
    if t.Some? {
      SomeTotpIs(t.value);
    }
  }

  lemma SomeTotpIs(t: ExportedTotp)
    ensures TotpText(Some(t)) == Text(TotpJson(Some(t)))
  {
    hide Escape, Text, MembersText, Decimal, Sep;
    var m4 := One("algorithm", Str(t.algorithm.Name()));
    var m3 := More("digits", Num(t.digits), m4);
    var m2 := More("period", Num(t.period), m3);
    NameIsPlain(t.algorithm);
    TotpLiterals();
    NumText(t.period);
    NumText(t.digits);
    StringHole(Sep("algorithm"), t.algorithm.Name(), "", CLOSE);
    LastField("algorithm", Str(t.algorithm.Name()));
    NextField("digits", Num(t.digits), m4);
    NextField("period", Num(t.period), m3);
    StringHole("{" + Sep("secret")[1..], t.secret, Sep("period"),
               Text(Num(t.period)) + (",\n" + (MembersText(m3) + CLOSE)));
    FirstField("secret", Str(t.secret), m2);
  }

  lemma NumText(n: nat)
    ensures Text(Num(n)) == Decimal(n)
  {
  }

  lemma TotpLiterals()
    ensures "{\n      \"secret\": \"" == ("{" + Sep("secret")[1..]) + "\""
    ensures "\",\n      \"period\": " == "\"" + Sep("period")
    ensures ",\n      \"digits\": " == Sep("digits")
    ensures ",\n      \"algorithm\": \"" == Sep("algorithm") + "\""
    ensures "\"" + "\n    }" == ("\"" + "") + CLOSE && forall s: string :: "" + s == s
    ensures Plain("secret") && Plain("period") && Plain("digits") && Plain("algorithm")
  {
  }

  /** The text of the members after the first, from the separator on. */
  function Rest(ms: Members): string {
    ",\n" + (MembersText(ms) + CLOSE)
  }

  lemma ItemLiterals()
    ensures "\",\n      \"username\": \"" == "\"" + (Sep("username") + "\"")
    ensures "\",\n      \"password\": " == "\"" + Sep("password")
    ensures ",\n      \"url\": \"" == Sep("url") + "\""
  {
  }

  lemma TitleLiteral()
    ensures "\": {\n      \"title\": \"" == ("\"" + ": ") + (("{" + Sep("title")[1..]) + "\"")
  {
  }

  lemma TailLiterals()
    ensures "\",\n      \"notes\": " == "\"" + Sep("notes")
    ensures ",\n      \"totp\": " == Sep("totp")
  {
  }

  lemma TimeLiterals()
    ensures ",\n      \"created_unix\": " == Sep("created_unix")
    ensures ",\n      \"modified_unix\": " == Sep("modified_unix")
  {
  }

  lemma KeysArePlain()
    ensures Plain("title") && Plain("username") && Plain("password") && Plain("url")
    ensures Plain("notes") && Plain("totp") && Plain("created_unix") && Plain("modified_unix")
  {
  }

  function AfterUrl(e: Exported): Members {
    More("notes", OptJson(e.notes), More("totp", TotpJson(e.totp),
      More("created_unix", Num(e.created), One("modified_unix", Num(e.modified)))))
  }

  /** The format string from the hole of the notes on. */
  function TailText(e: Exported): string {
    OrNull(e.notes)
    + (",\n      \"totp\": " + (TotpText(e.totp)
    + (",\n      \"created_unix\": " + (Decimal(e.created)
    + (",\n      \"modified_unix\": " + (Decimal(e.modified) + "\n    }"))))))
  }

  lemma TailIs(e: Exported)
    ensures Sep("notes") + TailText(e) == Rest(AfterUrl(e))
  {
    hide Escape, Text, MembersText, Decimal, Sep, TotpText, TotpJson, OrNull, OptJson;
    TailLiterals();
    TimeLiterals();
    KeysArePlain();
    var m4 := One("modified_unix", Num(e.modified));
    var m3 := More("created_unix", Num(e.created), m4);
    NumText(e.created);
    NumText(e.modified);
    TotpIs(e.totp);
    OrNullIs(e.notes);
    LastField("modified_unix", Num(e.modified));
    NextField("created_unix", Num(e.created), m4);
    NextField("totp", TotpJson(e.totp), m3);
    NextField("notes", OptJson(e.notes), More("totp", TotpJson(e.totp), m3));
  }

  function AfterTitle(e: Exported): Members {
    More("username", Str(e.username), More("password", OptJson(e.password), More("url", Str(e.url), AfterUrl(e))))
  }

  /** The format string from the hole of the user name on. */
  function MiddleText(e: Exported): string {
    Escape(e.username)
    + ("\",\n      \"password\": " + (OrNull(e.password)
    + (",\n      \"url\": \"" + (Escape(e.url)
    + ("\",\n      \"notes\": " + TailText(e))))))
  }

  lemma MiddleIs(e: Exported)
    ensures (Sep("username") + "\"") + MiddleText(e) == Rest(AfterTitle(e))
  {
    hide Escape, Text, MembersText, Sep, TailText, OrNull, OptJson, AfterUrl;
    ItemLiterals();
    TailLiterals();
    TimeLiterals();
    KeysArePlain();
    TailIs(e);
    OrNullIs(e.password);
    var ms := More("url", Str(e.url), AfterUrl(e));
    StringHole(Sep("url"), e.url, Sep("notes"), TailText(e));
    NextField("url", Str(e.url), AfterUrl(e));
    NextField("password", OptJson(e.password), ms);
    StringHole(Sep("username"), e.username, Sep("password"), OrNull(e.password) + Rest(ms));
    NextField("username", Str(e.username), More("password", OptJson(e.password), ms));
  }

  lemma IdHole(d: string, b: string, y: string)
    ensures "    \"" + (d + ((("\"" + ": ") + b) + y)) == "    " + (("\"" + d + "\"") + (": " + (b + y)))
  {
  }

  lemma {:induction false} DecimalIsPlain(n: nat)
    ensures Plain(Decimal(n)) && Escape(Decimal(n)) == Decimal(n)
  {
    if n >= 10 {
      DecimalIsPlain(n / 10);
    }
    PlainEscape(Decimal(n));
  }

  lemma FormatParts(e: Exported)
    ensures ExportText(e) ==
            "    \"" + (Decimal(e.id) + ("\": {\n      \"title\": \""
                                         + (Escape(e.title) + ("\",\n      \"username\": \"" + MiddleText(e)))))
  {
    hide Escape, OrNull, TotpText, Decimal;
  }

  /** The exported block is one member of a JSON object: the id, and the item as a value. */
  lemma ExportIs(e: Exported)
    ensures ExportText(e) == "    " + (Quoted(Decimal(e.id)) + (": " + Text(ItemJson(e))))
  {
    hide Escape, Text, MembersText, Sep, MiddleText, ExportText, AfterTitle, Decimal;
    FormatParts(e);
    TitleLiteral();
    ItemLiterals();
    KeysArePlain();
    MiddleIs(e);
    DecimalIsPlain(e.id);
    var before := "{" + Sep("title")[1..];
    StringHole(before, e.title, Sep("username") + "\"", MiddleText(e));
    FirstField("title", Str(e.title), AfterTitle(e));
    assert ItemJson(e) == Obj(More("title", Str(e.title), AfterTitle(e))) by { ItemParts(e); }
    IdHole(Decimal(e.id), before + "\"", Escape(e.title) + (("\"" + (Sep("username") + "\"")) + MiddleText(e)));
  }

  lemma ItemParts(e: Exported)
    ensures ItemJson(e) == Obj(More("title", Str(e.title), AfterTitle(e)))
  {
  }

  /** A JSON reader gets the item back from the exported block, whatever text its fields hold. */
  lemma ExportReadsBack(e: Exported, tail: string)
    requires Stops(tail) && Skip(tail) != "" && Skip(tail)[0] == '}'
    ensures ReadMembers(Skip(ExportText(e) + tail)) == Some((One(Decimal(e.id), ItemJson(e)), Skip(tail)[1..]))
  {
    hide Escape, Text, ReadMembers, ReadValue, ExportText, Decimal, ItemJson, Quoted, Skip;
    ExportIs(e);
    ValueBack(ItemJson(e), tail);
    MemberBack(Decimal(e.id), ItemJson(e), "    ", tail);
    var (q, v) := (Quoted(Decimal(e.id)), Text(ItemJson(e)));
    assert ("    " + (q + (": " + v))) + tail == "    " + (q + (": " + (v + tail)));
  }

  /** So no two different items export alike. */
  lemma ExportInjective(a: Exported, b: Exported)
    requires ExportText(a) == ExportText(b)
    ensures a == b
  {
    hide ReadMembers, ReadValue, ExportText, Decimal;
    Closes("");
    ExportReadsBack(a, "\n    }" + "");
    ExportReadsBack(b, "\n    }" + "");
    NumberBack(a.id, "");
    NumberBack(b.id, "");
    assert Decimal(a.id) + "" == Decimal(a.id) && Decimal(b.id) + "" == Decimal(b.id);
  }
}