// src/utils/storage.js: `saveSession`, two writes into the browser's
// key-value store. The store is a map from keys to strings; `setItem`
// stores the String form of its value.

module Storage {
  import opened Js
  import Json

  const TokenKey := "accessToken"
  const UserKey := "user"

  /** `JSON.stringify({ name, email })`: members in this order, an
      undefined one omitted. */
  function UserJson(name: Value, email: Value): string
    requires Json.IsFlat(name) && Json.IsFlat(email)
  {
    Json.StringifyObject([("name", name), ("email", email)])
  }

  /** The store after `saveSession({ accessToken, name, email })`. */
  function Saved(store: map<string, string>, accessToken: Value, name: Value, email: Value): map<string, string>
    requires Json.IsFlat(name) && Json.IsFlat(email)
  {
    store[TokenKey := ToJsString(accessToken)][UserKey := UserJson(name, email)]
  }

  class SessionStore {
    var items: map<string, string>

    constructor(initial: map<string, string>)
      ensures items == initial
    {
      items := initial;
    }

    /** `saveSession`: the token under "accessToken", then the user's name
        and email as JSON under "user". */
    method SaveSession(accessToken: Value, name: Value, email: Value)
      requires Json.IsFlat(name) && Json.IsFlat(email)
      modifies this
      ensures items == Saved(old(items), accessToken, name, email)
    {
      items := items[TokenKey := ToJsString(accessToken)];
      items := items[UserKey := UserJson(name, email)];
    }
  }

  /** The token entry is the token's String form: the token itself for a
      string, "undefined" when it is missing. */
  lemma SavedToken(store: map<string, string>, accessToken: Value, name: Value, email: Value)
    requires Json.IsFlat(name) && Json.IsFlat(email)
    ensures TokenKey in Saved(store, accessToken, name, email)
    ensures Saved(store, accessToken, name, email)[TokenKey] == ToJsString(accessToken)
    ensures accessToken.Str? ==> Saved(store, accessToken, name, email)[TokenKey] == accessToken.s
    ensures accessToken.Undefined? ==> Saved(store, accessToken, name, email)[TokenKey] == "undefined"
  {
  }

  /** The user entry parses back as an object holding exactly the name and
      email that were given, less any that was undefined. */
  lemma SavedUser(store: map<string, string>, accessToken: Value, name: Value, email: Value)
    requires Json.IsFlat(name) && Json.IsFlat(email)
    ensures var user := Saved(store, accessToken, name, email)[UserKey];
      && (var parsed := Json.ReadObject(user);
          && parsed.Some?
          && ("name" in parsed.value <==> !name.Undefined?)
          && ("email" in parsed.value <==> !email.Undefined?)
          && ("name" in parsed.value ==> parsed.value["name"] == name)
          && ("email" in parsed.value ==> parsed.value["email"] == email)
          && parsed.value.Keys <= {"name", "email"})
  {
    Json.RoundTrip([("name", name), ("email", email)]);
    UserMembers(name, email);
  }

  /** The members of `{ name, email }` that are not undefined. */
  lemma UserMembers(name: Value, email: Value)
    ensures var m := Json.PresentMembers([("name", name), ("email", email)]);
      && ("name" in m <==> !name.Undefined?)
      && ("email" in m <==> !email.Undefined?)
      && ("name" in m ==> m["name"] == name)
      && ("email" in m ==> m["email"] == email)
      && m.Keys <= {"name", "email"}
  {
    var fields := [("name", name), ("email", email)];
    assert fields[1..] == [("email", email)];
    assert fields[1..][1..] == [];
    assert Json.PresentMembers(fields[1..][1..]) == map[];
    var tail := Json.PresentMembers(fields[1..]);
    assert "email" in tail <==> !email.Undefined?;
    assert tail.Keys <= {"email"};
    assert "name" != "email";
  }

  /** For string name and email, the entry reads back as exactly those two. */
  lemma SavedUserStrings(store: map<string, string>, accessToken: Value, name: string, email: string)
    ensures Json.ReadObject(Saved(store, accessToken, Str(name), Str(email))[UserKey]) ==
      Some(map["name" := Str(name), "email" := Str(email)])
  {
    SavedUser(store, accessToken, Str(name), Str(email));
    var parsed := Json.ReadObject(Saved(store, accessToken, Str(name), Str(email))[UserKey]).value;
    assert parsed.Keys == {"name", "email"};
    assert parsed == map["name" := Str(name), "email" := Str(email)];
  }

  /** No other key is added, removed or changed. */
  lemma OthersUnchanged(store: map<string, string>, accessToken: Value, name: Value, email: Value, k: string)
    requires Json.IsFlat(name) && Json.IsFlat(email)
    requires k != TokenKey && k != UserKey
    ensures k in Saved(store, accessToken, name, email) <==> k in store
    ensures k in store ==> Saved(store, accessToken, name, email)[k] == store[k]
  {
  }

  /** A later save replaces both entries of an earlier one. */
  lemma LaterSaveWins(store: map<string, string>, a1: Value, n1: Value, e1: Value, a2: Value, n2: Value, e2: Value)
    requires Json.IsFlat(n1) && Json.IsFlat(e1) && Json.IsFlat(n2) && Json.IsFlat(e2)
    ensures Saved(Saved(store, a1, n1, e1), a2, n2, e2) == Saved(store, a2, n2, e2)
  {
    Overwritten(store, ToJsString(a1), UserJson(n1, e1), ToJsString(a2), UserJson(n2, e2));
  }

  /** Writing both keys again replaces both earlier writes. */
  lemma Overwritten(store: map<string, string>, t1: string, u1: string, t2: string, u2: string)
    ensures store[TokenKey := t1][UserKey := u1][TokenKey := t2][UserKey := u2] ==
            store[TokenKey := t2][UserKey := u2]
  {
  }

  /** Saving the same session twice leaves the store as one save did. */
  lemma SaveIdempotent(store: map<string, string>, accessToken: Value, name: Value, email: Value)
    requires Json.IsFlat(name) && Json.IsFlat(email)
    ensures Saved(Saved(store, accessToken, name, email), accessToken, name, email) ==
            Saved(store, accessToken, name, email)
  {
    LaterSaveWins(store, accessToken, name, email, accessToken, name, email);
  }
}
