// The fragment of JavaScript regular expressions the validators use: a
// pattern anchored with ^ and $, made of pieces, each an atom (a literal
// character or a bracketed class) with a repetition count. `test` decides
// whether some way of giving each piece a number of characters within its
// bounds consumes the whole text, which is what backtracking explores.
//
// Without the `u` flag a JavaScript pattern matches UTF-16 code units. The
// two patterns here only ever match a code unit of a character outside the
// Basic Multilingual Plane through a negated class, which matches both
// halves of such a character, so matching whole characters decides the same.

module Regex {
  import opened Js
  import Strings

  /** `a-z` (a single character `c` is `c-c`), or `\s`. */
  datatype ClassItem = Range(lo: char, hi: char) | Space

  datatype Atom = Lit(c: char) | Class(items: seq<ClassItem>, negated: bool)

  /** An atom repeated at least `min` and at most `max` times (no `max`: unbounded). */
  datatype Piece = Piece(atom: Atom, min: nat, max: Option<nat>)

  predicate ItemMatches(item: ClassItem, c: char) {
    match item
    case Range(lo, hi) => lo <= c <= hi
    case Space => Strings.IsJsWhitespace(c)
  }

  predicate AnyItemMatches(items: seq<ClassItem>, c: char) {
    exists i :: 0 <= i < |items| && ItemMatches(items[i], c)
  }

  predicate AtomMatches(a: Atom, c: char) {
    match a
    case Lit(l) => c == l
    case Class(items, negated) => AnyItemMatches(items, c) != negated
  }

  predicate BelowMax(k: nat, max: Option<nat>) {
    max.None? || k < max.value
  }

  predicate WithinMax(k: nat, max: Option<nat>) {
    max.None? || k <= max.value
  }

  /** `^<ps>$` matches all of `s`. */
  predicate Matches(ps: seq<Piece>, s: string)
    decreases |ps|, |s| + 1
  {
    if ps == [] then s == [] else MatchesAfter(ps, s, 0)
  }

  /** The first piece has consumed `s[..k]`: either it stops there and the
      other pieces match the rest, or it takes one more character. */
  predicate MatchesAfter(ps: seq<Piece>, s: string, k: nat)
    requires ps != [] && k <= |s|
    decreases |ps|, |s| - k
  {
    var p := ps[0];
    (k >= p.min && WithinMax(k, p.max) && Matches(ps[1..], s[k..]))
    || (k < |s| && BelowMax(k, p.max) && AtomMatches(p.atom, s[k]) && MatchesAfter(ps, s, k + 1))
  }

  /** One piece per character of `w`, each matching that character once. */
  function Literal(w: string): (ps: seq<Piece>)
    ensures |ps| == |w|
  {
    if w == [] then [] else [Piece(Lit(w[0]), 1, Some(1))] + Literal(w[1..])
  }

  /** A pattern of literal characters matches exactly that text. */
  lemma {:induction false} LiteralMatches(w: string, s: string)
    ensures Matches(Literal(w), s) <==> s == w
  {
    if w != [] {
      var ps := Literal(w);
      assert ps[1..] == Literal(w[1..]);
      LiteralMatches(w[1..], if s == [] then [] else s[1..]);
      if s != [] {
        assert MatchesAfter(ps, s, 1) <==> Matches(Literal(w[1..]), s[1..]);
        if s == w {
          assert s[1..] == w[1..];
        }
        if s[0] == w[0] && s[1..] == w[1..] {
          assert s == [s[0]] + s[1..] && w == [w[0]] + w[1..];
        }
      }
    }
  }

  /** A pattern of one piece matches exactly the texts whose length is within
      the piece's bounds and whose every character the atom matches. */
  lemma {:induction false} SinglePieceFrom(p: Piece, s: string, k: nat)
    requires k <= |s| && WithinMax(k, p.max)
    ensures MatchesAfter([p], s, k) <==>
      p.min <= |s| && WithinMax(|s|, p.max) && forall i :: k <= i < |s| ==> AtomMatches(p.atom, s[i])
    decreases |s| - k
  {
    var ps := [p];
    assert ps[1..] == [];
    if k < |s| && BelowMax(k, p.max) {
      SinglePieceFrom(p, s, k + 1);
    }
  }

  lemma SinglePiece(p: Piece, s: string)
    ensures Matches([p], s) <==>
      p.min <= |s| && WithinMax(|s|, p.max) && forall i :: 0 <= i < |s| ==> AtomMatches(p.atom, s[i])
  {
    SinglePieceFrom(p, s, 0);
  }

  /** An unbounded piece followed by a literal: the text ends with the
      literal, and the atom matches every character before it, of which
      there are at least `min`. */
  lemma {:induction false} RunThenLiteralFrom(p: Piece, w: string, s: string, k: nat)
    requires p.max.None? && k <= |s|
    ensures MatchesAfter([p] + Literal(w), s, k) <==>
      && |s| - |w| >= k && |s| - |w| >= p.min
      && s[|s| - |w|..] == w
      && forall i :: k <= i < |s| - |w| ==> AtomMatches(p.atom, s[i])
    decreases |s| - k
  {
    var ps := [p] + Literal(w);
    assert ps[0] == p && ps[1..] == Literal(w);
    LiteralMatches(w, s[k..]);
    if k < |s| {
      RunThenLiteralFrom(p, w, s, k + 1);
    }
    if s[k..] == w {
      assert |s| - |w| == k;
    }
    if |s| - |w| == k && s[|s| - |w|..] == w {
      assert s[k..] == w;
    }
  }

  lemma RunThenLiteral(p: Piece, w: string, s: string)
    requires p.max.None?
    ensures Matches([p] + Literal(w), s) <==>
      && |s| - |w| >= p.min
      && s[|s| - |w|..] == w
      && forall i :: 0 <= i < |s| - |w| ==> AtomMatches(p.atom, s[i])
  {
    RunThenLiteralFrom(p, w, s, 0);
  }
}
