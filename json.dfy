// JSON text for the values `saveSession` serialises: `JSON.stringify` of a
// flat object whose members are strings, integers, booleans or null
// (ECMAScript 2024, section 25.5.2.2-25.5.2.5), and a reader for such text
// following RFC 8259. The reader is the partner of the writer: what is
// written reads back as the same members.

module Json {
  import opened Js
  import Uri

  /** The member values handled here: no nested arrays or objects. */
  predicate IsFlat(v: Value) {
    v.Undefined? || v.Null? || v.Bool? || v.Num? || v.Str?
  }

  function LowerHexDigit(d: nat): char
    requires d < 16
  {
    if d < 10 then ('0' as int + d) as char else ('a' as int + d - 10) as char
  }

  /** How QuoteJSONString writes one character. */
  function EscapeChar(c: char): (r: string)
    ensures r != [] && r[0] != '"'
  {
    if c == '"' then "\\\""
    else if c == '\\' then "\\\\"
    else if c == '\U{0008}' then "\\b"
    else if c == '\U{000C}' then "\\f"
    else if c == '\n' then "\\n"
    else if c == '\r' then "\\r"
    else if c == '\t' then "\\t"
    else if (c as int) < 0x20 then
      "\\u00" + [LowerHexDigit(c as int / 16), LowerHexDigit(c as int % 16)]
    else [c]
  }

  function EscapeChars(s: string): string {
    if s == [] then [] else EscapeChar(s[0]) + EscapeChars(s[1..])
  }

  /** `JSON.stringify(s)` for a string. */
  function QuoteString(s: string): string {
    "\"" + EscapeChars(s) + "\""
  }

  /** `JSON.stringify(v)` for a flat value other than undefined. */
  function Stringify(v: Value): string
    requires IsFlat(v) && !v.Undefined?
  {
    match v
    case Null => "null"
    case Bool(b) => if b then "true" else "false"
    case Num(n) => IntToString(n)
    case Str(s) => QuoteString(s)
  }

  /** One `"key":value` member, or nothing for an undefined value, which
      `JSON.stringify` omits. */
  function Member(key: string, v: Value): string
    requires IsFlat(v)
  {
    if v.Undefined? then "" else QuoteString(key) + ":" + Stringify(v)
  }

  /** The members that are present, joined with ','. */
  function Members(fields: seq<(string, Value)>): string
    requires forall i :: 0 <= i < |fields| ==> IsFlat(fields[i].1)
  {
    if fields == [] then ""
    else if fields[0].1.Undefined? then Members(fields[1..])
    else
      var rest := Members(fields[1..]);
      Member(fields[0].0, fields[0].1) + (if rest == "" then "" else "," + rest)
  }

  /** `JSON.stringify` of an object literal with these members, in order. */
  function StringifyObject(fields: seq<(string, Value)>): string
    requires forall i :: 0 <= i < |fields| ==> IsFlat(fields[i].1)
  {
    "{" + Members(fields) + "}"
  }

  // Reading

  /** The character a backslash escape at the start of `s` stands for, and
      the escape's length. A `\u` escape of a surrogate, which a Dafny
      string cannot hold, is refused. */
  function EscapeAt(s: string): (r: Option<(char, nat)>)
    requires s != [] && s[0] == '\\'
    ensures r.Some? ==> 2 <= r.value.1 <= |s|
  {
    if |s| < 2 then None
    else
      var e := s[1];
      if e == '"' then Some(('"', 2)) else if e == '\\' then Some(('\\', 2))
      else if e == '/' then Some(('/', 2)) else if e == 'b' then Some(('\U{0008}', 2))
      else if e == 'f' then Some(('\U{000C}', 2)) else if e == 'n' then Some(('\n', 2))
      else if e == 'r' then Some(('\r', 2)) else if e == 't' then Some(('\t', 2))
      else if e == 'u' && |s| >= 6 then
        match (Uri.HexValue(s[2]), Uri.HexValue(s[3]), Uri.HexValue(s[4]), Uri.HexValue(s[5]))
        case (Some(a), Some(b), Some(c), Some(d)) =>
          var cp := 4096 * a + 256 * b + 16 * c + d;
          if 0xD800 <= cp < 0xE000 then None else Some((cp as char, 6))
        case _ => None
      else None
  }

  /** The characters of a string literal up to its closing quote, and the
      text after the quote. Unescaped control characters are refused. */
  function ReadChars(s: string): (r: Option<(string, string)>)
    ensures r.Some? ==> |r.value.1| < |s|
    decreases |s|
  {
    if s == [] then None
    else if s[0] == '"' then Some(([], s[1..]))
    else if s[0] == '\\' then
      match EscapeAt(s)
      case None => None
      case Some((c, n)) => Prepend(c, ReadChars(s[n..]))
    else if (s[0] as int) < 0x20 then None
    else Prepend(s[0], ReadChars(s[1..]))
  }

  function Prepend(c: char, r: Option<(string, string)>): (p: Option<(string, string)>)
    ensures p.Some? <==> r.Some?
    ensures p.Some? ==> p.value.1 == r.value.1
  {
    match r
    case None => None
    case Some((chars, rest)) => Some(([c] + chars, rest))
  }

  predicate IsDigit(c: char) {
    '0' <= c <= '9'
  }

  /** The longest prefix of decimal digits. */
  function TakeDigits(s: string): (p: string)
    ensures p <= s
    ensures forall i :: 0 <= i < |p| ==> IsDigit(p[i])
    ensures |p| < |s| ==> !IsDigit(s[|p|])
  {
    if s != [] && IsDigit(s[0]) then [s[0]] + TakeDigits(s[1..]) else []
  }

  function DigitsValue(ds: string): nat
    requires forall i :: 0 <= i < |ds| ==> IsDigit(ds[i])
  {
    if ds == [] then 0
    else
      var last := ds[|ds| - 1];
      assert IsDigit(last);
      10 * DigitsValue(ds[..|ds| - 1]) + (last as int - '0' as int)
  }

  function Signed(negative: bool, n: nat): int {
    if negative then -(n as int) else n
  }

  /** An integer: an optional '-', then digits without a leading zero. A
      fraction or exponent is left unread, so the caller refuses it. */
  function ReadInt(s: string): (r: Option<(int, string)>)
    ensures r.Some? ==> |r.value.1| < |s|
  {
    var negative := s != [] && s[0] == '-';
    var body := if negative then s[1..] else s;
    var ds := TakeDigits(body);
    if ds == [] || (|ds| > 1 && ds[0] == '0') then None
    else
      Some((Signed(negative, DigitsValue(ds)), body[|ds|..]))
  }

  function ReadValue(s: string): (r: Option<(Value, string)>)
    ensures r.Some? ==> |r.value.1| < |s| && IsFlat(r.value.0) && !r.value.0.Undefined?
  {
    if |s| >= 4 && s[..4] == "null" then Some((Null, s[4..]))
    else if |s| >= 4 && s[..4] == "true" then Some((Bool(true), s[4..]))
    else if |s| >= 5 && s[..5] == "false" then Some((Bool(false), s[5..]))
    else if s != [] && s[0] == '"' then
      match ReadChars(s[1..])
      case None => None
      case Some((chars, rest)) => Some((Str(chars), rest))
    else
      match ReadInt(s)
      case None => None
      case Some((n, rest)) => Some((Num(n), rest))
  }

  /** One member: a key, ':', a value; then the text after the value. */
  function ReadMember(s: string): (r: Option<(string, Value, string)>)
    ensures r.Some? ==> |r.value.2| < |s|
  {
    if s == [] || s[0] != '"' then None
    else match ReadChars(s[1..])
      case None => None
      case Some((key, afterKey)) =>
        if afterKey == [] || afterKey[0] != ':' then None
        else match ReadValue(afterKey[1..])
          case None => None
          case Some((v, afterValue)) => Some((key, v, afterValue))
  }

  /** The members of an object after its '{': members separated by ',',
      then '}' at the very end. A repeated key keeps its last value. */
  function ReadMembers(s: string): Option<map<string, Value>>
    decreases |s|
  {
    match ReadMember(s)
    case None => None
    case Some((key, v, after)) =>
      if after == "}" then Some(map[key := v])
      else if after != [] && after[0] == ',' then
        match ReadMembers(after[1..])
        case None => None
        case Some(others) => Some(map[key := v] + others)
      else None
  }

  /** `JSON.parse` of the object text written by StringifyObject (no
      whitespace between tokens); None where JSON.parse would throw. */
  function ReadObject(s: string): Option<map<string, Value>> {
    if s == "{}" then Some(map[])
    else if s != [] && s[0] == '{' then ReadMembers(s[1..])
    else None
  }

  /** The object that reading back should give: the present members, a
      later one winning over an earlier one of the same key. */
  function PresentMembers(fields: seq<(string, Value)>): map<string, Value> {
    if fields == [] then map[]
    else
      var others := PresentMembers(fields[1..]);
      if fields[0].1.Undefined? then others else map[fields[0].0 := fields[0].1] + others
  }

  // Round trip

  lemma HexOfLowerDigit(d: nat)
    requires d < 16
    ensures Uri.HexValue(LowerHexDigit(d)) == Some(d)
  {
  }

  lemma ReadEscapedChar(c: char, tail: string)
    ensures ReadChars(EscapeChar(c) + tail) == Prepend(c, ReadChars(tail))
  {
    var s := EscapeChar(c) + tail;
    if IsShortEscaped(c) {
      ShortEscape(c, tail);
      ReadCharsEscape(s, c, 2, tail);
    } else if (c as int) < 0x20 {
      UnicodeEscape(c, tail);
      ReadCharsEscape(s, c, 6, tail);
    } else {
      assert s[1..] == tail;
      ReadCharsPlain(s, c, tail);
    }
  }

  /** The characters QuoteJSONString writes as '\' and one letter. */
  predicate IsShortEscaped(c: char) {
    c == '"' || c == '\\' || c == '\U{0008}' || c == '\U{000C}' || c == '\n' || c == '\r' || c == '\t'
  }

  lemma ShortEscape(c: char, tail: string)
    requires IsShortEscaped(c)
    ensures var s := EscapeChar(c) + tail;
      s != [] && s[0] == '\\' && EscapeAt(s) == Some((c, 2)) && s[2..] == tail
  {
    var s := EscapeChar(c) + tail;
    assert s[2..] == tail;
  }

  lemma UnicodeEscape(c: char, tail: string)
    requires !IsShortEscaped(c) && (c as int) < 0x20
    ensures var s := EscapeChar(c) + tail;
      s != [] && s[0] == '\\' && EscapeAt(s) == Some((c, 6)) && s[6..] == tail
  {
    var s := EscapeChar(c) + tail;
    HexOfLowerDigit(c as int / 16);
    HexOfLowerDigit(c as int % 16);
    assert s[0] == '\\' && s[1] == 'u' && s[2] == '0' && s[3] == '0';
    assert s[6..] == tail;
  }

  /** An escape sequence is read as its character, then the rest. */
  lemma ReadCharsEscape(s: string, c: char, n: nat, tail: string)
    requires s != [] && s[0] == '\\' && EscapeAt(s) == Some((c, n)) && s[n..] == tail
    ensures ReadChars(s) == Prepend(c, ReadChars(tail))
  {
  }

  /** A character that needs no escape is read as itself, then the rest. */
  lemma ReadCharsPlain(s: string, c: char, tail: string)
    requires s != [] && s[0] == c && c != '"' && c != '\\' && (c as int) >= 0x20 && s[1..] == tail
    ensures ReadChars(s) == Prepend(c, ReadChars(tail))
  {
  }

  /** The escaped characters of a string, then its closing quote, read back
      as that string. */
  lemma {:induction false} ReadEscapedChars(x: string, rest: string)
    ensures ReadChars(EscapeChars(x) + "\"" + rest) == Some((x, rest))
  {
    if x == [] {
      assert EscapeChars(x) + "\"" + rest == "\"" + rest;
    } else {
      var tail := EscapeChars(x[1..]) + "\"" + rest;
      assert EscapeChars(x) + "\"" + rest == EscapeChar(x[0]) + tail;
      ReadEscapedChar(x[0], tail);
      ReadEscapedChars(x[1..], rest);
      assert [x[0]] + x[1..] == x;
    }
  }

  lemma {:induction false} DigitsOfNat(n: nat)
    ensures forall i :: 0 <= i < |NatToString(n)| ==> IsDigit(NatToString(n)[i])
    ensures DigitsValue(NatToString(n)) == n
    ensures n >= 1 ==> NatToString(n)[0] != '0'
  {
    if n >= 10 {
      DigitsOfNat(n / 10);
      var p := NatToString(n / 10);
      assert NatToString(n)[..|NatToString(n)| - 1] == p;
    }
  }

  lemma {:induction false} TakeDigitsOfPrefix(p: string, rest: string)
    requires forall i :: 0 <= i < |p| ==> IsDigit(p[i])
    requires rest == [] || !IsDigit(rest[0])
    ensures TakeDigits(p + rest) == p
  {
    if p != [] {
      assert (p + rest)[1..] == p[1..] + rest;
      TakeDigitsOfPrefix(p[1..], rest);
      assert [p[0]] + p[1..] == p;
    } else {
      assert p + rest == rest;
    }
  }

  /** An integer's text: its sign, then digits without a leading zero,
      then text that cannot continue the number. */
  /** `ds` is the decimal text of `n`: digits, no leading zero. */
  predicate DigitText(ds: string, n: nat) {
    && (forall i :: 0 <= i < |ds| ==> IsDigit(ds[i]))
    && ds != [] && (|ds| == 1 || ds[0] != '0')
    && DigitsValue(ds) == n
  }

  lemma NatDigitText(n: nat)
    ensures DigitText(NatToString(n), n)
  {
    DigitsOfNat(n);
  }

  lemma ReadIntParts(s: string, negative: bool, ds: string, rest: string, n: nat)
    requires DigitText(ds, n)
    requires rest == [] || !IsDigit(rest[0])
    requires s == (if negative then "-" + (ds + rest) else ds + rest)
    ensures ReadInt(s) == Some((Signed(negative, n), rest))
  {
    var body := if negative then s[1..] else s;
    assert body == ds + rest;
    assert negative <==> s != [] && s[0] == '-';
    TakeDigitsOfPrefix(ds, rest);
    assert body[|ds|..] == rest;
  }

  lemma ReadIntOf(n: int, rest: string)
    requires rest == [] || !IsDigit(rest[0])
    ensures ReadInt(IntToString(n) + rest) == Some((n, rest))
  {
    if n < 0 {
      ReadNegative(-n, rest);
    } else {
      ReadNonNegative(n, rest);
    }
  }

  lemma ReadNegative(m: nat, rest: string)
    requires m > 0 && (rest == [] || !IsDigit(rest[0]))
    ensures ReadInt(IntToString(-(m as int)) + rest) == Some((-(m as int), rest))
  {
    var t := IntToString(-(m as int)) + rest;
    NegativeText(m, rest);
    NatDigitText(m);
    ReadIntParts(t, true, NatToString(m), rest, m);
  }

  lemma NegativeText(m: nat, rest: string)
    requires m > 0
    ensures IntToString(-(m as int)) + rest == "-" + (NatToString(m) + rest)
  {
  }

  lemma ReadNonNegative(m: nat, rest: string)
    requires rest == [] || !IsDigit(rest[0])
    ensures ReadInt(IntToString(m) + rest) == Some((m, rest))
  {
    var ds := NatToString(m);
    NatDigitText(m);
    assert IntToString(m) == ds;
    ReadIntParts(ds + rest, false, ds, rest, m);
  }

  predicate EndsValue(rest: string) {
    rest == [] || rest[0] == ',' || rest[0] == '}'
  }

  lemma ReadNull(rest: string)
    ensures ReadValue("null" + rest) == Some((Null, rest))
  {
    var s := "null" + rest;
    assert s[..4] == "null" && s[4..] == rest;
  }

  lemma ReadTrue(rest: string)
    ensures ReadValue("true" + rest) == Some((Bool(true), rest))
  {
    var s := "true" + rest;
    assert s[..4][0] == 't';
    assert s[..4] == "true" && s[4..] == rest;
  }

  lemma ReadFalse(rest: string)
    ensures ReadValue("false" + rest) == Some((Bool(false), rest))
  {
    var s := "false" + rest;
    assert s[..4][0] == 'f';
    assert s[..5] == "false" && s[5..] == rest;
  }

  lemma ReadNum(n: int, rest: string)
    requires EndsValue(rest)
    ensures ReadValue(IntToString(n) + rest) == Some((Num(n), rest))
  {
    var s := IntToString(n) + rest;
    IntTextStart(n, rest);
    ReadIntOf(n, rest);
    ReadNumber(s, n, rest);
  }

  lemma IntTextStart(n: int, rest: string)
    ensures (IntToString(n) + rest)[0] == '-' || IsDigit((IntToString(n) + rest)[0])
  {
  }

  /** A text starting with '-' or a digit is read as an integer. */
  lemma ReadNumber(s: string, n: int, rest: string)
    requires s != [] && (s[0] == '-' || IsDigit(s[0]))
    requires ReadInt(s) == Some((n, rest))
    ensures ReadValue(s) == Some((Num(n), rest))
  {
    if |s| >= 4 { assert s[..4][0] == s[0]; }
    if |s| >= 5 { assert s[..5][0] == s[0]; }
  }

  lemma ReadStr(x: string, rest: string)
    ensures ReadValue(QuoteString(x) + rest) == Some((Str(x), rest))
  {
    var t := EscapeChars(x) + "\"" + rest;
    assert QuoteString(x) + rest == ['"'] + t;
    ReadEscapedChars(x, rest);
    ReadQuoted(['"'] + t, t);
  }

  /** A '"' opens a string, read up to its closing quote. */
  lemma ReadQuoted(s: string, t: string)
    requires s == ['"'] + t && ReadChars(t).Some?
    ensures ReadValue(s) == Some((Str(ReadChars(t).value.0), ReadChars(t).value.1))
  {
    if |s| >= 4 { assert s[..4][0] == '"'; }
    if |s| >= 5 { assert s[..5][0] == '"'; }
    assert s[1..] == t;
  }

  /** A written value reads back as itself. */
  lemma ReadStringified(v: Value, rest: string)
    requires IsFlat(v) && !v.Undefined?
    requires EndsValue(rest)
    ensures ReadValue(Stringify(v) + rest) == Some((v, rest))
  {
    match v
    case Null => ReadNull(rest);
    case Bool(b) => if b { ReadTrue(rest); } else { ReadFalse(rest); }
    case Num(n) => ReadNum(n, rest);
    case Str(x) => ReadStr(x, rest);
  }

  /** A member's parts read in turn. */
  lemma ReadMemberParts(s: string, t: string, key: string, afterKey: string, u: string, v: Value, after: string)
    requires s == ['"'] + t && ReadChars(t) == Some((key, afterKey))
    requires afterKey == [':'] + u && ReadValue(u) == Some((v, after))
    ensures ReadMember(s) == Some((key, v, after))
  {
    assert s[1..] == t;
    assert afterKey[1..] == u;
  }

  /** A written member reads back as its key and value. */
  lemma ReadMemberOf(key: string, v: Value, after: string)
    requires IsFlat(v) && !v.Undefined?
    requires EndsValue(after)
    ensures ReadMember(Member(key, v) + after) == Some((key, v, after))
  {
    var text := Stringify(v);
    var afterKey := [':'] + (text + after);
    ReadStringified(v, after);
    ReadEscapedChars(key, afterKey);
    MemberText(key, v, after);
    ReadMemberParts(Member(key, v) + after, EscapeChars(key) + "\"" + afterKey,
                    key, afterKey, text + after, v, after);
  }

  lemma MemberText(key: string, v: Value, after: string)
    requires IsFlat(v) && !v.Undefined?
    ensures Member(key, v) + after == ['"'] + (EscapeChars(key) + "\"" + ([':'] + (Stringify(v) + after)))
  {
  }

  lemma ReadLastMember(key: string, v: Value)
    requires IsFlat(v) && !v.Undefined?
    ensures ReadMembers(Member(key, v) + "}") == Some(map[key := v])
  {
    ReadMemberOf(key, v, "}");
  }

  lemma ReadNextMember(key: string, v: Value, rest: string)
    requires IsFlat(v) && !v.Undefined?
    requires ReadMembers(rest + "}").Some?
    ensures ReadMembers(Member(key, v) + ("," + rest + "}")) ==
      Some(map[key := v] + ReadMembers(rest + "}").value)
  {
    var after := "," + rest + "}";
    AfterComma(rest);
    ReadMemberOf(key, v, after);
    ReadMembersStep(Member(key, v) + after, key, v, after);
  }

  lemma AfterComma(rest: string)
    ensures |"," + rest + "}"| >= 2 && ("," + rest + "}")[0] == ','
    ensures ("," + rest + "}")[1..] == rest + "}"
  {
  }

  /** A member followed by ',' reads as that member joined to the rest. */
  lemma ReadMembersStep(s: string, key: string, v: Value, after: string)
    requires ReadMember(s) == Some((key, v, after))
    requires |after| >= 2 && after[0] == ',' && ReadMembers(after[1..]).Some?
    ensures ReadMembers(s) == Some(map[key := v] + ReadMembers(after[1..]).value)
  {
    assert after != "}";
  }

  lemma FlatTail(fields: seq<(string, Value)>)
    requires fields != [] && forall i :: 0 <= i < |fields| ==> IsFlat(fields[i].1)
    ensures forall i :: 0 <= i < |fields[1..]| ==> IsFlat(fields[1..][i].1)
  {
    forall i | 0 <= i < |fields[1..]| ensures IsFlat(fields[1..][i].1) { assert fields[1..][i] == fields[i + 1]; }
  }

  lemma {:induction false} ReadMembersOf(fields: seq<(string, Value)>)
    requires forall i :: 0 <= i < |fields| ==> IsFlat(fields[i].1)
    requires Members(fields) != ""
    ensures ReadMembers(Members(fields) + "}") == Some(PresentMembers(fields))
  {
    FlatTail(fields);
    if fields[0].1.Undefined? {
      ReadMembersOf(fields[1..]);
    } else if Members(fields[1..]) == "" {
      ReadOnlyMember(fields);
    } else {
      ReadMembersOf(fields[1..]);
      ReadFirstMember(fields);
    }
  }

  /** The first member present and none after it. */
  lemma ReadOnlyMember(fields: seq<(string, Value)>)
    requires fields != [] && forall i :: 0 <= i < |fields| ==> IsFlat(fields[i].1)
    requires !fields[0].1.Undefined?
    requires forall i :: 0 <= i < |fields[1..]| ==> IsFlat(fields[1..][i].1)
    requires Members(fields[1..]) == ""
    ensures ReadMembers(Members(fields) + "}") == Some(PresentMembers(fields))
  {
    var key := fields[0].0;
    var v := fields[0].1;
    ReadLastMember(key, v);
    PresentOfAbsent(fields[1..]);
    assert Members(fields) == Member(key, v) + "";
    assert Member(key, v) + "" == Member(key, v);
    assert PresentMembers(fields) == map[key := v] + map[];
    assert map[key := v] + map[] == map[key := v];
  }

  /** The first member present, followed by others. */
  lemma ReadFirstMember(fields: seq<(string, Value)>)
    requires fields != [] && forall i :: 0 <= i < |fields| ==> IsFlat(fields[i].1)
    requires !fields[0].1.Undefined?
    requires forall i :: 0 <= i < |fields[1..]| ==> IsFlat(fields[1..][i].1)
    requires Members(fields[1..]) != ""
    requires ReadMembers(Members(fields[1..]) + "}") == Some(PresentMembers(fields[1..]))
    ensures ReadMembers(Members(fields) + "}") == Some(PresentMembers(fields))
  {
    var key := fields[0].0;
    var v := fields[0].1;
    var rest := Members(fields[1..]);
    ReadNextMember(key, v, rest);
    assert Members(fields) + "}" == Member(key, v) + ("," + rest + "}");
  }

  /** No present member writes no text. */
  lemma {:induction false} PresentOfAbsent(fields: seq<(string, Value)>)
    requires forall i :: 0 <= i < |fields| ==> IsFlat(fields[i].1)
    requires Members(fields) == ""
    ensures PresentMembers(fields) == map[]
  {
    if fields != [] {
      FlatTail(fields);
      PresentOfAbsent(fields[1..]);
    }
  }

  /** `JSON.parse(JSON.stringify(obj))` gives back the members of `obj` that
      are not undefined. */
  lemma RoundTrip(fields: seq<(string, Value)>)
    requires forall i :: 0 <= i < |fields| ==> IsFlat(fields[i].1)
    ensures ReadObject(StringifyObject(fields)) == Some(PresentMembers(fields))
  {
    var m := Members(fields);
    if m == "" {
      PresentOfAbsent(fields);
      EmptyObjectText();
    } else {
      ReadMembersOf(fields);
      ObjectText(m);
    }
  }

  lemma EmptyObjectText()
    ensures ReadObject("{" + "" + "}") == Some(map[])
  {
    assert "{" + "" + "}" == "{}";
  }

  lemma ObjectText(m: string)
    requires m != ""
    ensures ReadObject("{" + m + "}") == ReadMembers(m + "}")
  {
    var s := "{" + m + "}";
    assert |s| > 2;
    assert s[0] == '{';
    assert s[1..] == m + "}";
  }
}
