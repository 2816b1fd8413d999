// `encodeURIComponent`, which the profile endpoints apply to a name before
// placing it in a path, and its inverse `decodeURIComponent`, both as
// ECMAScript defines them (ECMAScript 2024, sections 19.2.6.1-19.2.6.5:
// UTF-8 octets, percent-encoded with upper-case hexadecimal digits).

module Uri {
  import opened Js

  /** The characters `encodeURIComponent` leaves as they are. */
  predicate Unreserved(c: char) {
    ('A' <= c <= 'Z') || ('a' <= c <= 'z') || ('0' <= c <= '9')
    || c == '-' || c == '_' || c == '.' || c == '!' || c == '~' || c == '*'
    || c == '\'' || c == '(' || c == ')'
  }

  function HexDigit(d: nat): (c: char)
    requires d < 16
    ensures Unreserved(c)
  {
    if d < 10 then ('0' as int + d) as char else ('A' as int + d - 10) as char
  }

  /** The value of a hexadecimal digit of either case. */
  function HexValue(c: char): (r: Option<nat>)
    ensures r.Some? ==> r.value < 16
  {
    if '0' <= c <= '9' then Some(c as int - '0' as int)
    else if 'A' <= c <= 'F' then Some(c as int - 'A' as int + 10)
    else if 'a' <= c <= 'f' then Some(c as int - 'a' as int + 10)
    else None
  }

  lemma HexValueOfDigit(d: nat)
    requires d < 16
    ensures HexValue(HexDigit(d)) == Some(d)
  {
  }

  predicate IsByte(b: int) {
    0 <= b < 256
  }

  /** The UTF-8 encoding of one Unicode scalar value. */
  function Utf8(c: char): (bytes: seq<int>)
    ensures 1 <= |bytes| <= 4
    ensures forall i :: 0 <= i < |bytes| ==> IsByte(bytes[i])
  {
    var cp := c as int;
    if cp < 0x80 then [cp]
    else if cp < 0x800 then [0xC0 + cp / 64, 0x80 + cp % 64]
    else if cp < 0x10000 then [0xE0 + cp / 4096, 0x80 + cp / 64 % 64, 0x80 + cp % 64]
    else [0xF0 + cp / 262144, 0x80 + cp / 4096 % 64, 0x80 + cp / 64 % 64, 0x80 + cp % 64]
  }

  function PercentByte(b: int): (r: string)
    requires IsByte(b)
    ensures |r| == 3 && r[0] == '%'
  {
    ['%', HexDigit(b / 16), HexDigit(b % 16)]
  }

  function PercentBytes(bytes: seq<int>): (r: string)
    requires forall i :: 0 <= i < |bytes| ==> IsByte(bytes[i])
    ensures |r| == 3 * |bytes|
  {
    if bytes == [] then [] else PercentByte(bytes[0]) + PercentBytes(bytes[1..])
  }

  function EncodeChar(c: char): (r: string)
    ensures r != []
  {
    if Unreserved(c) then [c] else PercentBytes(Utf8(c))
  }

  /** `encodeURIComponent(s)`. A JavaScript string with an unpaired surrogate
      makes it throw; a Dafny string holds none, so here it never fails. */
  function EncodeComponent(s: string): (r: string)
    ensures s == [] <==> r == []
  {
    if s == [] then [] else EncodeChar(s[0]) + EncodeComponent(s[1..])
  }

  /** Every character of an encoded component is unreserved or '%'; so none
      of '/', '?', '#', '&' or '=' appears in it. */
  lemma {:induction false} EncodedIsSafe(s: string)
    ensures forall i :: 0 <= i < |EncodeComponent(s)| ==>
      Unreserved(EncodeComponent(s)[i]) || EncodeComponent(s)[i] == '%'
  {
    if s != [] {
      EncodedIsSafe(s[1..]);
      PercentBytesSafe(Utf8(s[0]));
    }
  }

  lemma {:induction false} PercentBytesSafe(bytes: seq<int>)
    requires forall i :: 0 <= i < |bytes| ==> IsByte(bytes[i])
    ensures forall i :: 0 <= i < |PercentBytes(bytes)| ==>
      Unreserved(PercentBytes(bytes)[i]) || PercentBytes(bytes)[i] == '%'
  {
    if bytes != [] {
      PercentBytesSafe(bytes[1..]);
    }
  }

  /** A text made of unreserved characters only is encoded as itself. */
  lemma {:induction false} UnreservedUnchanged(s: string)
    requires forall i :: 0 <= i < |s| ==> Unreserved(s[i])
    ensures EncodeComponent(s) == s
  {
    if s != [] {
      UnreservedUnchanged(s[1..]);
    }
  }

  // Decoding

  /** The octet written as "%XY" at the start of `s`, if it is one. */
  function OctetAt(s: string): (b: Option<int>)
    ensures b.Some? ==> IsByte(b.value)
  {
    if |s| < 3 || s[0] != '%' then None
    else match (HexValue(s[1]), HexValue(s[2]))
      case (Some(hi), Some(lo)) => Some(16 * hi + lo)
      case _ => None
  }

  predicate IsContinuation(b: int) {
    0x80 <= b < 0xC0
  }

  /** The number of octets of a UTF-8 sequence with this lead octet; 0 when
      the octet cannot start one. */
  function SequenceLength(lead: int): nat {
    if lead < 0x80 then 1
    else if 0xC0 <= lead < 0xE0 then 2
    else if 0xE0 <= lead < 0xF0 then 3
    else if 0xF0 <= lead < 0xF8 then 4
    else 0
  }

  predicate IsScalar(cp: int) {
    (0 <= cp < 0xD800) || (0xE000 <= cp < 0x110000)
  }

  /** The code point of a complete, well-formed, shortest-form UTF-8
      sequence. */
  function Utf8Decode(bytes: seq<int>): Option<char>
    requires forall i :: 0 <= i < |bytes| ==> IsByte(bytes[i])
  {
    if |bytes| == 1 && 0 <= bytes[0] < 0x80 then Some(bytes[0] as char)
    else if |bytes| == 2 && SequenceLength(bytes[0]) == 2 && IsContinuation(bytes[1]) then
      var cp := (bytes[0] - 0xC0) * 64 + (bytes[1] - 0x80);
      if cp < 0x80 then None else Some(cp as char)
    else if |bytes| == 3 && SequenceLength(bytes[0]) == 3
      && IsContinuation(bytes[1]) && IsContinuation(bytes[2]) then
      var cp := (bytes[0] - 0xE0) * 4096 + (bytes[1] - 0x80) * 64 + (bytes[2] - 0x80);
      if cp < 0x800 || !IsScalar(cp) then None else Some(cp as char)
    else if |bytes| == 4 && SequenceLength(bytes[0]) == 4
      && IsContinuation(bytes[1]) && IsContinuation(bytes[2]) && IsContinuation(bytes[3]) then
      var cp := (bytes[0] - 0xF0) * 262144 + (bytes[1] - 0x80) * 4096
        + (bytes[2] - 0x80) * 64 + (bytes[3] - 0x80);
      if cp < 0x10000 || !IsScalar(cp) then None else Some(cp as char)
    else None
  }

  /** The `n` octets written as "%XY%XY..." at the start of `s`. */
  function OctetsAt(s: string, n: nat): (r: Option<seq<int>>)
    ensures r.Some? ==> |r.value| == n && 3 * n <= |s|
    ensures r.Some? ==> forall i :: 0 <= i < |r.value| ==> IsByte(r.value[i])
  {
    if n == 0 then Some([])
    else match OctetAt(s)
      case None => None
      case Some(b) =>
        match OctetsAt(s[3..], n - 1)
        case None => None
        case Some(rest) => Some([b] + rest)
  }

  /** `decodeURIComponent(s)`; None stands for the URIError it throws on a
      malformed escape or an octet sequence that is not UTF-8. */
  function DecodeComponent(s: string): Option<string>
    decreases |s|
  {
    if s == [] then Some([])
    else if s[0] != '%' then
      match DecodeComponent(s[1..])
      case None => None
      case Some(rest) => Some([s[0]] + rest)
    else match OctetAt(s)
      case None => None
      case Some(lead) =>
        var n := SequenceLength(lead);
        if n == 0 then None
        else match OctetsAt(s, n)
          case None => None
          case Some(bytes) =>
            match Utf8Decode(bytes)
            case None => None
            case Some(c) =>
              match DecodeComponent(s[3 * n..])
              case None => None
              case Some(rest) => Some([c] + rest)
  }

  lemma OctetOfPercentByte(b: int, rest: string)
    requires IsByte(b)
    ensures OctetAt(PercentByte(b) + rest) == Some(b)
  {
    HexValueOfDigit(b / 16);
    HexValueOfDigit(b % 16);
  }

  lemma {:induction false} OctetsOfPercentBytes(bytes: seq<int>, rest: string)
    requires forall i :: 0 <= i < |bytes| ==> IsByte(bytes[i])
    ensures OctetsAt(PercentBytes(bytes) + rest, |bytes|) == Some(bytes)
  {
    if bytes != [] {
      var t := PercentBytes(bytes[1..]) + rest;
      var s := PercentByte(bytes[0]) + t;
      assert PercentBytes(bytes) + rest == s;
      OctetOfPercentByte(bytes[0], t);
      assert s[3..] == t;
      OctetsOfPercentBytes(bytes[1..], rest);
      OctetsAtCons(s, |bytes|, bytes[0], bytes[1..]);
      assert [bytes[0]] + bytes[1..] == bytes;
    }
  }

  lemma OctetsAtCons(s: string, n: nat, b: int, tail: seq<int>)
    requires n > 0 && |s| >= 3
    requires OctetAt(s) == Some(b) && OctetsAt(s[3..], n - 1) == Some(tail)
    ensures OctetsAt(s, n) == Some([b] + tail)
  {
  }

  /** UTF-8 decoding inverts UTF-8 encoding. */
  lemma Utf8RoundTrip(c: char)
    ensures Utf8Decode(Utf8(c)) == Some(c)
  {
    var cp := c as int;
    var bytes := Utf8(c);
    if cp < 0x80 {
    } else if cp < 0x800 {
      assert (bytes[0] - 0xC0) * 64 + (bytes[1] - 0x80) == cp;
    } else if cp < 0x10000 {
      var q := cp / 64;
      assert q / 64 == cp / 4096;
      assert (bytes[0] - 0xE0) * 4096 + (bytes[1] - 0x80) * 64 + (bytes[2] - 0x80) == cp;
    } else {
      var q := cp / 64;
      var q2 := q / 64;
      assert q2 == cp / 4096;
      assert q2 / 64 == cp / 262144;
      assert (bytes[0] - 0xF0) * 262144 + (bytes[1] - 0x80) * 4096
        + (bytes[2] - 0x80) * 64 + (bytes[3] - 0x80) == cp;
    }
  }

  /** The lead octet of an encoded character announces the right length. */
  lemma LeadAnnouncesLength(c: char)
    ensures SequenceLength(Utf8(c)[0]) == |Utf8(c)|
  {
  }

  lemma DecodeEncodedChar(c: char, rest: string)
    requires !Unreserved(c)
    ensures DecodeComponent(EncodeChar(c) + rest) ==
      match DecodeComponent(rest)
      case None => None
      case Some(r) => Some([c] + r)
  {
    var bytes := Utf8(c);
    var s := PercentBytes(bytes) + rest;
    assert s == PercentByte(bytes[0]) + (PercentBytes(bytes[1..]) + rest);
    OctetOfPercentByte(bytes[0], PercentBytes(bytes[1..]) + rest);
    LeadAnnouncesLength(c);
    OctetsOfPercentBytes(bytes, rest);
    Utf8RoundTrip(c);
    assert s[3 * |bytes|..] == rest;
  }

  /** `decodeURIComponent(encodeURIComponent(s)) == s`: the encoded name in a
      path determines the name. */
  lemma {:induction false} DecodeEncode(s: string)
    ensures DecodeComponent(EncodeComponent(s)) == Some(s)
  {
    if s != [] {
      var rest := EncodeComponent(s[1..]);
      DecodeEncode(s[1..]);
      assert EncodeComponent(s) == EncodeChar(s[0]) + rest;
      if Unreserved(s[0]) {
        assert (EncodeChar(s[0]) + rest)[1..] == rest;
      } else {
        DecodeEncodedChar(s[0], rest);
      }
      assert [s[0]] + s[1..] == s;
    }
  }

  /** Two names with the same encoding are the same name. */
  lemma EncodeInjective(s: string, t: string)
    requires EncodeComponent(s) == EncodeComponent(t)
    ensures s == t
  {
    DecodeEncode(s);
    DecodeEncode(t);
  }
}
