// The part of the browser's `window.location` that the routers use: the
// `hash` attribute, its setter, and whether setting it fires `hashchange`.

module Browser {

  /** A value the `hash` getter can return: "" for an empty fragment,
      otherwise "#" followed by a non-empty fragment. */
  predicate IsReportedHash(h: string) {
    h == "" || (|h| >= 2 && h[0] == '#')
  }

  function HashOfFragment(fragment: string): (h: string)
    ensures IsReportedHash(h)
  {
    if fragment == "" then "" else "#" + fragment
  }

  predicate IsTabOrNewline(c: char) {
    c == '\t' || c == '\n' || c == '\r'
  }

  function RemoveTabsAndNewlines(s: string): (r: string)
    ensures forall i :: 0 <= i < |r| ==> !IsTabOrNewline(r[i])
    ensures (forall i :: 0 <= i < |s| ==> !IsTabOrNewline(s[i])) ==> r == s
  {
    if s == [] then []
    else (if IsTabOrNewline(s[0]) then [] else [s[0]]) + RemoveTabsAndNewlines(s[1..])
  }

  /** The fragment that `location.hash = value` installs: the value without
      one leading '#', parsed in the URL parser's fragment state, which drops
      ASCII tab and newline characters. */
  function FragmentFor(value: string): string {
    var input := if value != [] && value[0] == '#' then value[1..] else value;
    RemoveTabsAndNewlines(input)
  }

  /** What the `hash` getter returns after `location.hash = value`. */
  function HashAfterSet(value: string): (h: string)
    ensures IsReportedHash(h)
  {
    HashOfFragment(FragmentFor(value))
  }

  /** Setting the hash to a text that already looks like a reported hash
      reads back exactly that text. */
  lemma HashAfterSetKeepsHash(value: string)
    requires |value| >= 2 && value[0] == '#'
    requires forall i :: 0 <= i < |value| ==> !IsTabOrNewline(value[i])
    ensures HashAfterSet(value) == value
  {
    assert forall i :: 0 <= i < |value[1..]| ==> value[1..][i] == value[i + 1];
    assert "#" + value[1..] == value;
  }

  /** Setting a text that does not start with '#' reads back with a '#' in front. */
  lemma HashAfterSetPrefixes(value: string)
    requires |value| >= 1 && value[0] != '#'
    requires forall i :: 0 <= i < |value| ==> !IsTabOrNewline(value[i])
    ensures HashAfterSet(value) == "#" + value
  {
  }

  class Location {
    var hash: string

    ghost predicate Valid()
      reads this
    {
      IsReportedHash(hash)
    }

    /** A location whose URL has the given fragment. */
    constructor (fragment: string)
      ensures Valid()
      ensures hash == HashOfFragment(fragment)
    {
      hash := HashOfFragment(fragment);
    }

    /** `location.hash = value`. The `hashchange` event fires, and the page
        re-dispatches, only when the fragment actually changes. */
    method SetHash(value: string) returns (hashChange: bool)
      modifies this
      ensures Valid()
      ensures hash == HashAfterSet(value)
      ensures hashChange == (hash != old(hash))
    {
      var previous := hash;
      hash := HashAfterSet(value);
      hashChange := hash != previous;
    }
  }
}
