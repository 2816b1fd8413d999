// src/utils/queryParams.js: the query string of the location hash, and the
// parameters `URLSearchParams` reads from it. The hash is passed in rather
// than read from `window.location`.

module QueryParams {
  import opened Js
  import Strings

  /** `getHashQueryString`: the text after the first '?' of the hash, up to
      (not including) the next '#'; "" when the hash has no '?'. A missing
      hash counts as "". */
  function HashQueryString(hash: Option<string>): (q: string)
    ensures var h := if hash.Some? then hash.value else "";
      && ('?' !in h ==> q == "")
      && ('?' in h ==>
            var i := Strings.IndexOf(h, '?');
            && i + 1 + |q| <= |h|
            && q == h[i + 1..i + 1 + |q|]
            && '#' !in q
            && (i + 1 + |q| == |h| || h[i + 1 + |q|] == '#'))
  {
    var h := if hash.Some? then hash.value else "";
    var queryIndex := Strings.IndexOf(h, '?');
    if queryIndex == -1 then ""
    else
      var query := h[queryIndex + 1..];
      var q := Strings.Before(query, '#');
      assert query[..|q|] == q;
      q
  }

  function ReplacePlus(s: string): (r: string)
    ensures |r| == |s|
    ensures forall i :: 0 <= i < |s| ==> r[i] == (if s[i] == '+' then ' ' else s[i])
  {
    seq(|s|, i requires 0 <= i < |s| => if s[i] == '+' then ' ' else s[i])
  }

  /** One `&`-separated piece of a non-empty query, as the
      application/x-www-form-urlencoded parser of the WHATWG URL Standard
      (section 5.1) reads it: name before the first '=', value after it (""
      without '='), '+' read as a space, then percent-decoded. The decoding
      (percent-decode and UTF-8 decode) is the parameter `decode`. */
  function ParsePair(piece: string, decode: string -> string): (p: (string, string))
    requires piece != ""
  {
    var eq := Strings.IndexOf(piece, '=');
    var name := if eq == -1 then piece else piece[..eq];
    var value := if eq == -1 then "" else piece[eq + 1..];
    (decode(ReplacePlus(name)), decode(ReplacePlus(value)))
  }

  /** The name/value pairs of the pieces, skipping empty pieces. */
  function ParsePieces(pieces: seq<string>, decode: string -> string): (ps: seq<(string, string)>)
    ensures |ps| <= |pieces|
  {
    if pieces == [] then []
    else if pieces[0] == "" then ParsePieces(pieces[1..], decode)
    else [ParsePair(pieces[0], decode)] + ParsePieces(pieces[1..], decode)
  }

  /** `new URLSearchParams(query)`: a leading '?' is dropped, then the text is
      split on '&' and parsed piece by piece. */
  function SearchParams(query: string, decode: string -> string): (ps: seq<(string, string)>)
    ensures query == "" || query == "?" ==> ps == []
  {
    var input := if query != [] && query[0] == '?' then query[1..] else query;
    ParsePieces(Strings.Split(input, '&'), decode)
  }

  /** `URLSearchParams.get(key)` (URL Standard, section 6.2): the value of the
      first pair named `key`, or null. */
  function FirstValue(ps: seq<(string, string)>, key: string): (r: Option<string>)
    ensures r.None? <==> forall j :: 0 <= j < |ps| ==> ps[j].0 != key
    ensures r.Some? ==>
      exists j :: 0 <= j < |ps| && ps[j] == (key, r.value) &&
        forall i :: 0 <= i < j ==> ps[i].0 != key
  {
    if ps == [] then None
    else if ps[0].0 == key then Some(ps[0].1)
    else
      var r := FirstValue(ps[1..], key);
      if r.Some? then
        ghost var j :| 0 <= j < |ps[1..]| && ps[1..][j] == (key, r.value)
          && forall i :: 0 <= i < j ==> ps[1..][i].0 != key;
        assert ps[j + 1] == (key, r.value);
        assert forall i :: 0 <= i < j + 1 ==> ps[i].0 != key by {
          forall i | 0 <= i < j + 1 ensures ps[i].0 != key {
            if i > 0 { assert ps[i] == ps[1..][i - 1]; }
          }
        }
        r
      else r
  }

  /** `getHashQueryParam(key)`: the trimmed first value of `key`; null when
      the key is absent or its first value is empty. A value of spaces only
      is non-empty, so it gives "" rather than null. */
  function HashQueryParam(hash: Option<string>, key: string, decode: string -> string): (r: Option<string>)
    ensures var ps := SearchParams(HashQueryString(hash), decode);
      && (r.None? <==> (forall j :: 0 <= j < |ps| ==> ps[j].0 != key) || FirstValue(ps, key) == Some(""))
      && (r.Some? ==>
            exists j :: 0 <= j < |ps| && ps[j].0 == key && ps[j].1 != "" &&
              r.value == Strings.Trim(ps[j].1) &&
              forall i :: 0 <= i < j ==> ps[i].0 != key)
  {
    var value := FirstValue(SearchParams(HashQueryString(hash), decode), key);
    if value.Some? && value.value != "" then Some(Strings.Trim(value.value)) else None
  }

  /** Assigning a string to `obj["__proto__"]` on a plain object runs the
      inherited `__proto__` setter, which ignores non-object values. */
  const ProtoKey := "__proto__"

  /** The object that assigning every pair in order, `obj[key] = value.trim()`,
      leaves behind. */
  function Collect(ps: seq<(string, string)>): (m: map<string, string>)
    ensures ProtoKey !in m
  {
    if ps == [] then map[]
    else
      var last := ps[|ps| - 1];
      var before := Collect(ps[..|ps| - 1]);
      if last.0 == ProtoKey then before else before[last.0 := Strings.Trim(last.1)]
  }

  lemma CollectUnfold(ps: seq<(string, string)>)
    requires ps != []
    ensures var last := ps[|ps| - 1];
      Collect(ps) == if last.0 == ProtoKey then Collect(ps[..|ps| - 1])
                     else Collect(ps[..|ps| - 1])[last.0 := Strings.Trim(last.1)]
  {
  }

  /** The keys of the collected object are the pair names, except "__proto__". */
  lemma {:induction false} CollectKeys(ps: seq<(string, string)>, k: string)
    ensures k in Collect(ps) <==> k != ProtoKey && exists j :: 0 <= j < |ps| && ps[j].0 == k
  {
    if ps != [] {
      var init := ps[..|ps| - 1];
      CollectUnfold(ps);
      CollectKeys(init, k);
      NamedSnoc(ps, init, k);
      KeyUnder(Collect(init), ps[|ps| - 1], k);
    }
  }

  /** A name occurs in a non-empty list when it occurs before the last pair or is the last pair's. */
  lemma NamedSnoc(ps: seq<(string, string)>, init: seq<(string, string)>, k: string)
    requires ps != [] && init == ps[..|ps| - 1]
    ensures (exists j :: 0 <= j < |ps| && ps[j].0 == k) <==>
      (exists j :: 0 <= j < |init| && init[j].0 == k) || ps[|ps| - 1].0 == k
  {
    if exists j :: 0 <= j < |ps| && ps[j].0 == k {
      var j :| 0 <= j < |ps| && ps[j].0 == k;
      if j < |ps| - 1 { assert init[j].0 == k; }
    }
    if exists j :: 0 <= j < |init| && init[j].0 == k {
      var j :| 0 <= j < |init| && init[j].0 == k;
      assert ps[j].0 == k;
    }
  }

  /** One assignment adds its key, unless it is "__proto__", and keeps the others. */
  lemma KeyUnder(obj: map<string, string>, pair: (string, string), k: string)
    ensures var after := if pair.0 == ProtoKey then obj else obj[pair.0 := Strings.Trim(pair.1)];
      k in after <==> k in obj || (pair.0 == k && k != ProtoKey)
  {
  }

  /** For a repeated key the last occurrence wins: the collected value of a
      key is the trimmed value of the last pair with that name. */
  lemma {:induction false} CollectLastWins(ps: seq<(string, string)>, j: nat)
    requires j < |ps| && ps[j].0 != ProtoKey
    requires forall i :: j < i < |ps| ==> ps[i].0 != ps[j].0
    ensures ps[j].0 in Collect(ps) && Collect(ps)[ps[j].0] == Strings.Trim(ps[j].1)
  {
    var init := ps[..|ps| - 1];
    var last := ps[|ps| - 1];
    var key := ps[j].0;
    CollectUnfold(ps);
    if j < |ps| - 1 {
      assert init[j] == ps[j];
      assert forall i :: j < i < |init| ==> init[i].0 != init[j].0 by {
        forall i | j < i < |init| ensures init[i].0 != init[j].0 { assert init[i] == ps[i]; }
      }
      CollectLastWins(init, j);
      assert last.0 != key;
      KeptUnder(Collect(init), last, key);
    } else {
      assert last == ps[j];
    }
  }

  /** Assigning another key leaves this one's value alone. */
  lemma KeptUnder(obj: map<string, string>, pair: (string, string), key: string)
    requires key in obj && pair.0 != key
    ensures var after := if pair.0 == ProtoKey then obj else obj[pair.0 := Strings.Trim(pair.1)];
      key in after && after[key] == obj[key]
  {
  }

  lemma CollectStep(ps: seq<(string, string)>, n: nat)
    requires n < |ps|
    ensures Collect(ps[..n + 1]) == if ps[n].0 == ProtoKey then Collect(ps[..n])
                                    else Collect(ps[..n])[ps[n].0 := Strings.Trim(ps[n].1)]
  {
    CollectUnfold(ps[..n + 1]);
    assert ps[..n + 1][..n] == ps[..n];
  }

  /** `getHashQueryParams()`: fills an object pair by pair in a loop. */
  method HashQueryParams(hash: Option<string>, decode: string -> string) returns (obj: map<string, string>)
    ensures obj == Collect(SearchParams(HashQueryString(hash), decode))
  {
    var params := SearchParams(HashQueryString(hash), decode);
    obj := map[];
    for n := 0 to |params|
      invariant obj == Collect(params[..n])
    {
      var key := params[n].0;
      var value := params[n].1;
      CollectStep(params, n);
      if key != ProtoKey {
        obj := obj[key := Strings.Trim(value)];
      }
    }
    assert params[..|params|] == params;
  }
}
