// src/utils/validators.js: form validators, each a normalise-and-match
// expression. The two patterns are written out in Regex's terms; what they
// accept is then stated with character-class and length predicates.

module Validators {
  import opened Js
  import Strings
  import Regex
  import Uri

  /** `String(v || "")`: missing and falsy inputs count as "". */
  function Coerce(v: Value): string {
    ToJsString(Or(v, Str("")))
  }

  /** `/^[a-zA-Z0-9_]{3,20}$/` */
  function NamePattern(): seq<Regex.Piece> {
    [Regex.Piece(Regex.Class([Regex.Range('a', 'z'), Regex.Range('A', 'Z'), Regex.Range('0', '9'),
                              Regex.Range('_', '_')], false), 3, Some(20))]
  }

  const EmailDomain := "@stud.noroff.no"

  /** `/^[^\s@]+<domain>$/`, with the domain's characters matched literally. */
  function AddressPattern(domain: string): seq<Regex.Piece> {
    [Regex.Piece(Regex.Class([Regex.Space, Regex.Range('@', '@')], true), 1, None)] + Regex.Literal(domain)
  }

  /** `isValidName(name)`, for a string argument: 3 to 20 characters, each
      a letter, a digit or '_'. */
  predicate IsValidName(name: string): (b: bool)
    ensures b <==> 3 <= |name| <= 20 && forall i :: 0 <= i < |name| ==> IsWordChar(name[i])
  {
    NamePatternMeaning(name);
    Regex.Matches(NamePattern(), name)
  }

  /** The value `isValidEmail` matches: the input, trimmed, lower-cased. */
  function NormalisedEmail(email: Value): string {
    Normalise(Coerce(email))
  }

  function Normalise(s: string): string {
    Strings.ToLower(Strings.Trim(s))
  }

  /** `String(v || "")` is the String form of a truthy value and "" otherwise. */
  lemma CoerceMeaning(v: Value)
    ensures Coerce(v) == if Truthy(v) then ToJsString(v) else ""
  {
    if !Truthy(v) {
      assert Or(v, Str("")) == Str("");
    }
  }

  lemma CoerceString(s: string)
    ensures Coerce(Str(s)) == s
  {
  }

  /** `/^[^\s@]+@stud\.noroff\.no$/.test(value)`: the check, stated for any
      domain so that its proofs need not unfold the literal domain. */
  predicate IsValidEmailFor(domain: string, email: Value) {
    Regex.Matches(AddressPattern(domain), NormalisedEmail(email))
  }

  /** `isValidEmail(email)`: trimmed and lower-cased, a non-empty local part
      free of whitespace and '@' followed by exactly "@stud.noroff.no". */
  predicate IsValidEmail(email: Value): (b: bool)
    ensures b <==> IsAddressIn(EmailDomain, NormalisedEmail(email))
  {
    AddressPatternMeaning(EmailDomain, NormalisedEmail(email));
    IsValidEmailFor(EmailDomain, email)
  }

  /** `isValidPassword(password)`; `.length` counts UTF-16 code units. A
      missing or falsy password is rejected. */
  predicate IsValidPassword(password: Value): (b: bool)
    ensures b ==> Truthy(password)
  {
    CoerceMeaning(password);
    Strings.Utf16Length(Coerce(password)) >= 8
  }

  /** `isValidBio(bio)`: a missing or falsy bio is accepted. */
  predicate IsValidBio(bio: Value): (b: bool)
    ensures !Truthy(bio) ==> b
  {
    CoerceMeaning(bio);
    Strings.Utf16Length(Coerce(bio)) <= 160
  }

  /** The part of `isValidUrl` before `new URL`: Some(true) for empty or
      whitespace-only input; None where the URL parser would decide. */
  function UrlEmptyBranch(url: Value): (r: Option<bool>)
    ensures r.Some? ==> r.value
  {
    if Strings.Trim(Coerce(url)) == "" then Some(true) else None
  }

  // What the patterns accept

  predicate IsWordChar(c: char) {
    ('a' <= c <= 'z') || ('A' <= c <= 'Z') || ('0' <= c <= '9') || c == '_'
  }

  /** A name is valid exactly when it has 3 to 20 characters, all letters,
      digits or underscores. */
  lemma NamePatternMeaning(name: string)
    ensures Regex.Matches(NamePattern(), name) <==>
      3 <= |name| <= 20 && forall i :: 0 <= i < |name| ==> IsWordChar(name[i])
  {
    var p := NamePattern()[0];
    Regex.SinglePiece(p, name);
    forall c: char ensures Regex.AtomMatches(p.atom, c) <==> IsWordChar(c) {
      var items := [Regex.Range('a', 'z'), Regex.Range('A', 'Z'), Regex.Range('0', '9'), Regex.Range('_', '_')];
      if IsWordChar(c) {
        if 'a' <= c <= 'z' { assert Regex.ItemMatches(items[0], c); }
        else if 'A' <= c <= 'Z' { assert Regex.ItemMatches(items[1], c); }
        else if '0' <= c <= '9' { assert Regex.ItemMatches(items[2], c); }
        else { assert Regex.ItemMatches(items[3], c); }
      }
    }
  }

  /** What the address pattern accepts: a non-empty local part free of
      whitespace and '@', then exactly the domain. */
  predicate IsAddressIn(domain: string, v: string) {
    && |v| > |domain|
    && v[|v| - |domain|..] == domain
    && forall i :: 0 <= i < |v| - |domain| ==> !Strings.IsJsWhitespace(v[i]) && v[i] != '@'
  }

  lemma AddressPatternMeaning(domain: string, v: string)
    ensures Regex.Matches(AddressPattern(domain), v) <==> IsAddressIn(domain, v)
  {
    var p := AddressPattern(domain)[0];
    assert AddressPattern(domain) == [p] + Regex.Literal(domain);
    Regex.RunThenLiteral(p, domain, v);
    forall c: char ensures Regex.AtomMatches(p.atom, c) <==> !Strings.IsJsWhitespace(c) && c != '@' {
      var items := [Regex.Space, Regex.Range('@', '@')];
      if Strings.IsJsWhitespace(c) { assert Regex.ItemMatches(items[0], c); }
      if c == '@' { assert Regex.ItemMatches(items[1], c); }
    }
  }

    /** Surrounding whitespace does not change the normalised value. */
  lemma {:induction false} NormalisedIgnoresPadding(w1: string, s: string, w2: string)
    requires forall k :: 0 <= k < |w1| ==> Strings.IsJsWhitespace(w1[k])
    requires forall k :: 0 <= k < |w2| ==> Strings.IsJsWhitespace(w2[k])
    ensures NormalisedEmail(Str(w1 + s + w2)) == NormalisedEmail(Str(s))
  {
    Strings.TrimIgnoresPadding(w1, s, w2);
    CoerceString(w1 + s + w2);
    CoerceString(s);
  }

  /** Surrounding whitespace does not change the verdict on an address. */
  lemma EmailIgnoresPadding(w1: string, s: string, w2: string)
    requires forall k :: 0 <= k < |w1| ==> Strings.IsJsWhitespace(w1[k])
    requires forall k :: 0 <= k < |w2| ==> Strings.IsJsWhitespace(w2[k])
    ensures IsValidEmail(Str(w1 + s + w2)) == IsValidEmail(Str(s))
  {
    NormalisedIgnoresPadding(w1, s, w2);
  }

  /** Lower-casing keeps every character's whitespace status, so it commutes with `trim`. */
  lemma LowerKeepsWhitespace(c: char)
    ensures Strings.IsJsWhitespace(Strings.AsciiLower(c)) == Strings.IsJsWhitespace(c)
  {
  }

  lemma {:induction false} TrimStartOfLower(s: string)
    ensures Strings.TrimStart(Strings.ToLower(s)) == Strings.ToLower(Strings.TrimStart(s))
  {
    if s != [] {
      LowerKeepsWhitespace(s[0]);
      assert Strings.ToLower(s)[1..] == Strings.ToLower(s[1..]);
      TrimStartOfLower(s[1..]);
    }
  }

  lemma {:induction false} TrimEndOfLower(s: string)
    ensures Strings.TrimEnd(Strings.ToLower(s)) == Strings.ToLower(Strings.TrimEnd(s))
  {
    if s != [] {
      LowerKeepsWhitespace(s[|s| - 1]);
      assert Strings.ToLower(s)[..|s| - 1] == Strings.ToLower(s[..|s| - 1]);
      TrimEndOfLower(s[..|s| - 1]);
    }
  }

  lemma LowerIdempotent(s: string)
    ensures Strings.ToLower(Strings.ToLower(s)) == Strings.ToLower(s)
  {
  }

  /** Two spellings that differ only in letter case normalise alike. */
  lemma NormalisedIgnoresCase(s: string, t: string)
    requires Strings.ToLower(s) == Strings.ToLower(t)
    ensures NormalisedEmail(Str(s)) == NormalisedEmail(Str(t))
  {
    CoerceString(s);
    CoerceString(t);
    TrimOfLower(s);
    TrimOfLower(t);
    LowerIdempotent(Strings.Trim(s));
    LowerIdempotent(Strings.Trim(t));
  }

  lemma TrimOfLower(s: string)
    ensures Strings.Trim(Strings.ToLower(s)) == Strings.ToLower(Strings.Trim(s))
  {
    TrimStartOfLower(s);
    TrimEndOfLower(Strings.TrimStart(s));
  }

  /** Two spellings that differ only in letter case get the same verdict. */
  lemma EmailIgnoresCase(s: string, t: string)
    requires Strings.ToLower(s) == Strings.ToLower(t)
    ensures IsValidEmail(Str(s)) == IsValidEmail(Str(t))
  {
    NormalisedIgnoresCase(s, t);
  }

  /** A password is valid exactly when its string form has at least 8 UTF-16
      code units; a missing password counts as "" and is rejected. */
  lemma PasswordMeaning(password: Value)
    ensures IsValidPassword(password) <==> Truthy(password) && Strings.Utf16Length(ToJsString(password)) >= 8
    ensures !IsValidPassword(Undefined) && !IsValidPassword(Null)
  {
    CoerceMeaning(password);
    CoerceMeaning(Undefined);
    CoerceMeaning(Null);
    assert Strings.Utf16Length("") == 0;
  }

  /** A bio is valid exactly when it has at most 160 UTF-16 code units;
      a missing bio is valid. */
  lemma BioMeaning(bio: Value)
    ensures IsValidBio(bio) <==> !Truthy(bio) || Strings.Utf16Length(ToJsString(bio)) <= 160
    ensures IsValidBio(Undefined) && IsValidBio(Null)
  {
    CoerceMeaning(bio);
    CoerceMeaning(Undefined);
    CoerceMeaning(Null);
    assert Strings.Utf16Length("") == 0;
  }

  /** Empty and whitespace-only URLs are accepted before any parsing. */
  lemma BlankUrlAccepted(s: string)
    requires forall i :: 0 <= i < |s| ==> Strings.IsJsWhitespace(s[i])
    ensures UrlEmptyBranch(Str(s)) == Some(true)
  {
    Strings.TrimIgnoresPadding(s, "", "");
    assert s + "" + "" == s;
  }

  /** A text with a non-whitespace character goes on to the URL parser. */
  lemma NonBlankUrlParsed(s: string, j: nat)
    requires j < |s| && !Strings.IsJsWhitespace(s[j])
    ensures UrlEmptyBranch(Str(s)) == None
  {
    var i := Strings.TrimIsInfix(s);
    var r := Strings.Trim(s);
    assert i <= j < i + |r|;
  }

  /** A valid name is placed in a profile path as it is: every one of its
      characters is left alone by the path encoding. */
  lemma ValidNameEncodesVerbatim(name: string)
    requires IsValidName(name)
    ensures Uri.EncodeComponent(name) == name
  {
    Uri.UnreservedUnchanged(name);
  }
}
