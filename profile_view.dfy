// src/handlers/profileHandler.js: the view-model helpers of the profile
// page and the follow button. The helpers are decisions on parsed JSON;
// the button is an object whose label, `disabled` flag and
// `data-following` attribute the click handler rewrites step by step,
// together with the handler's `followingState` variable and the three
// count figures it refreshes.

module ProfileView {
  import opened Js

  /** What `safeText` returns: the fallback as it is, or `escapeHtml` applied
      to the string form of the value (escapeHtml is not part of this model). */
  datatype Text = Fallback(text: string) | Escaped(raw: string)

  /** `safeText(value, fallback)` */
  function SafeText(value: Value, fallback: string): (r: Text)
    ensures r.Fallback? <==> Nullish(value) || value == Str("")
    ensures r.Fallback? ==> r.text == fallback
    ensures r.Escaped? ==> r.raw == ToJsString(value)
  {
    if value.Null? || value.Undefined? || value == Str("") then Fallback(fallback)
    else Escaped(ToJsString(value))
  }

  /** `safeImg(url)`: a URL is kept only when it is a non-empty string. */
  function SafeImg(url: Value): (r: string)
    ensures r != "" <==> url.Str? && url.s != ""
    ensures r != "" ==> url == Str(r)
  {
    if Truthy(url) && url.Str? then url.s else ""
  }

  datatype Counts = Counts(posts: Value, followers: Value, following: Value)

  /** One figure of `getCounts`: `profile?._count?.<key>` unless that is
      null or undefined, else the length of the `<key>` array, else 0. */
  function CountOf(profile: Value, key: string): (r: Value)
    ensures !Nullish(r)
    ensures !Nullish(OptGet(OptGet(profile, "_count"), key)) ==> r == OptGet(OptGet(profile, "_count"), key)
    ensures Nullish(OptGet(OptGet(profile, "_count"), key)) ==>
      r == Num(if OptGet(profile, key).Arr? then |OptGet(profile, key).items| else 0)
  {
    var listed := OptGet(profile, key);
    Coalesce(OptGet(OptGet(profile, "_count"), key), Num(if listed.Arr? then |listed.items| else 0))
  }

  function GetCounts(profile: Value): (c: Counts)
    ensures !Nullish(c.posts) && !Nullish(c.followers) && !Nullish(c.following)
  {
    Counts(CountOf(profile, "posts"), CountOf(profile, "followers"), CountOf(profile, "following"))
  }

  /** `followers.some(f => f?.name === viewerName)` */
  function AnyNamed(followers: seq<Value>, viewerName: Value): (r: bool)
    ensures r <==> exists i :: 0 <= i < |followers| && StrictEquals(OptGet(followers[i], "name"), viewerName)
  {
    if followers == [] then false
    else if StrictEquals(OptGet(followers[0], "name"), viewerName) then true
    else
      var rest := AnyNamed(followers[1..], viewerName);
      assert forall i :: 1 <= i < |followers| ==> followers[i] == followers[1..][i - 1];
      rest
  }

  /** `isFollowing(profile, viewerName)` */
  function IsFollowing(profile: Value, viewerName: Value): (r: bool)
    ensures r ==> Truthy(viewerName) && OptGet(profile, "followers").Arr? && OptGet(profile, "followers").items != []
  {
    if !Truthy(viewerName) then false
    else if !OptGet(profile, "followers").Arr? then false
    else AnyNamed(OptGet(profile, "followers").items, viewerName)
  }

  /** `!!viewer?.name && profile?.name === viewer.name` */
  predicate IsMe(viewer: Value, profile: Value): (r: bool)
    ensures r ==> Truthy(OptGet(profile, "name")) && OptGet(profile, "name") == OptGet(viewer, "name")
  {
    Truthy(OptGet(viewer, "name")) && StrictEquals(OptGet(profile, "name"), OptGet(viewer, "name"))
  }

  /** `!!nameParam && !isMe`, where `nameParam` is `getHashQueryParam("name")`. */
  predicate ShowFollowButton(nameParam: Option<string>, viewer: Value, profile: Value): (r: bool)
    ensures r ==> nameParam.Some? && LoadFor(nameParam) == ByName(nameParam.value)
  {
    nameParam.Some? && nameParam.value != "" && !IsMe(viewer, profile)
  }

  /** Which profile the page loads. */
  datatype Load = ByName(name: string) | Mine

  /** `nameParam ? getProfileByName(nameParam) : getMyProfile()` */
  function LoadFor(nameParam: Option<string>): (l: Load)
    ensures l.ByName? <==> nameParam.Some? && nameParam.value != ""
    ensures l.ByName? ==> l.name == nameParam.value
  {
    if nameParam.Some? && nameParam.value != "" then ByName(nameParam.value) else Mine
  }

  // Properties of the helpers

  /** Zero, false and the empty array are shown, not replaced by the fallback. */
  lemma FalsyButShown(fallback: string)
    ensures SafeText(Num(0), fallback) == Escaped("0")
    ensures SafeText(Bool(false), fallback) == Escaped("false")
    ensures SafeText(Arr([]), fallback) == Escaped("")
  {
    assert ToJsString(Arr([])) == "";
  }

  /** A count of zero in `_count` wins over a non-empty list. */
  lemma ZeroCountKept(profile: Value, key: string)
    requires OptGet(OptGet(profile, "_count"), key) == Num(0)
    ensures CountOf(profile, key) == Num(0)
  {
  }

  /** With no `_count`, each figure is the length of its list, or 0. */
  lemma CountsFromLists(fields: map<string, Value>, key: string)
    requires "_count" !in fields
    ensures CountOf(Obj(fields), key) ==
      Num(if key in fields && fields[key].Arr? then |fields[key].items| else 0)
  {
  }

  /** A missing profile counts zero everywhere. */
  lemma CountsOfMissingProfile()
    ensures GetCounts(Undefined) == Counts(Num(0), Num(0), Num(0))
    ensures GetCounts(Null) == Counts(Num(0), Num(0), Num(0))
  {
  }

  /** The viewer follows the profile exactly when some follower's name is
      the viewer's (non-empty) name. */
  lemma IsFollowingMeaning(profile: Value, viewerName: Value)
    ensures IsFollowing(profile, viewerName) <==>
      && Truthy(viewerName)
      && OptGet(profile, "followers").Arr?
      && exists i :: 0 <= i < |OptGet(profile, "followers").items| &&
           StrictEquals(OptGet(OptGet(profile, "followers").items[i], "name"), viewerName)
  {
  }

  /** Names are compared exactly: a follower differing only in letter case
      does not count. */
  lemma NamesCaseSensitive()
    ensures !IsFollowing(Obj(map["followers" := Arr([Obj(map["name" := Str("Ann")])])]), Str("ann"))
  {
    var f := Obj(map["name" := Str("Ann")]);
    assert OptGet(f, "name") == Str("Ann");
    assert Str("Ann") != Str("ann") by { assert "Ann"[0] != "ann"[0]; }
  }

  /** The follow button never appears on one's own profile, nor without a
      `name` parameter; when it appears the profile was loaded by name. */
  lemma FollowButtonWhen(nameParam: Option<string>, viewer: Value, profile: Value)
    ensures ShowFollowButton(nameParam, viewer, profile) ==> LoadFor(nameParam).ByName?
    ensures IsMe(viewer, profile) ==> !ShowFollowButton(nameParam, viewer, profile)
    ensures (nameParam.None? || nameParam == Some("")) ==> !ShowFollowButton(nameParam, viewer, profile)
  {
  }

  /** A viewer without a name is never "me", so any named profile shows the button. */
  lemma AnonymousViewerSeesButton(name: string, viewer: Value, profile: Value)
    requires name != "" && !Truthy(OptGet(viewer, "name"))
    ensures ShowFollowButton(Some(name), viewer, profile)
  {
  }

  // The follow button

  const FollowLabel := "Follow"
  const UnfollowLabel := "Unfollow"
  const FollowingLabel := "Following..."
  const UnfollowingLabel := "Unfollowing..."
  const FailedUpdate := "Failed to update follow status. Please try again."

  function IdleLabel(state: bool): string {
    if state then UnfollowLabel else FollowLabel
  }

  function PendingLabel(state: bool): string {
    if state then UnfollowingLabel else FollowingLabel
  }

  function FollowingText(state: bool): string {
    if state then "true" else "false"
  }

  /** How a click's requests end: the follow or unfollow call fails; it
      succeeds and reloading the profile fails; or both succeed. A failure
      carries the thrown error's `message`. */
  datatype ClickOutcome = ToggleFailed(message: string) | RefreshFailed(message: string) | Refreshed(profile: Value)

  /** `error?.message || "Failed to update follow status. Please try again."` */
  function AlertText(message: string): (r: string)
    ensures r != ""
    ensures message != "" ==> r == message
  {
    if message != "" then message else FailedUpdate
  }

  /** `followingState` once a click has settled. */
  function StateAfter(currentlyFollowing: bool, before: bool, viewerName: Value, outcome: ClickOutcome): bool {
    match outcome
    case ToggleFailed(_) => before
    case RefreshFailed(_) => !currentlyFollowing
    case Refreshed(p) => IsFollowing(p, viewerName) || !currentlyFollowing
  }

  /** What the button shows once a click has settled. */
  function ShownAfter(currentlyFollowing: bool, viewerName: Value, outcome: ClickOutcome): bool {
    match outcome
    case Refreshed(p) => IsFollowing(p, viewerName) || !currentlyFollowing
    case _ => currentlyFollowing
  }

  class FollowButton {
    var textContent: string
    var disabled: bool
    var dataFollowing: string
    var followingState: bool
    var stats: Counts
    const viewerName: Value

    /** The label and data attribute agree, with the in-flight label while
        the button is disabled. */
    predicate Valid()
      reads this
    {
      && (dataFollowing == "true" || dataFollowing == "false")
      && textContent == (if disabled then PendingLabel(dataFollowing == "true") else IdleLabel(dataFollowing == "true"))
    }

    /** The button as first rendered: `setBtn(isFollowing(profile, viewer?.name))`,
        and the count figures of the loaded profile. */
    constructor(profile: Value, viewer: Value)
      ensures Valid() && !disabled
      ensures viewerName == OptGet(viewer, "name")
      ensures followingState == IsFollowing(profile, OptGet(viewer, "name"))
      ensures dataFollowing == FollowingText(followingState)
      ensures stats == GetCounts(profile)
    {
      var state := IsFollowing(profile, OptGet(viewer, "name"));
      viewerName := OptGet(viewer, "name");
      followingState := state;
      textContent := IdleLabel(state);
      disabled := false;
      dataFollowing := FollowingText(state);
      stats := GetCounts(profile);
    }

    /** `setBtn(state, disabled, label)` */
    method SetBtn(state: bool, isDisabled: bool, newLabel: Option<string>)
      modifies this
      ensures textContent == (if newLabel.Some? then newLabel.value else IdleLabel(state))
      ensures disabled == isDisabled && dataFollowing == FollowingText(state)
      ensures followingState == old(followingState) && stats == old(stats)
    {
      textContent := if newLabel.Some? then newLabel.value else IdleLabel(state);
      disabled := isDisabled;
      dataFollowing := FollowingText(state);
    }

    /** The start of a click, up to the first request: the state is read from
        `data-following`, which stays as it was while the button is disabled
        with the in-flight label. A disabled button receives no clicks. */
    method Press() returns (currentlyFollowing: bool)
      requires Valid() && !disabled
      modifies this
      ensures Valid() && disabled
      ensures currentlyFollowing == (old(dataFollowing) == "true")
      ensures dataFollowing == old(dataFollowing)
      ensures textContent == PendingLabel(currentlyFollowing)
      ensures followingState == old(followingState) && stats == old(stats)
    {
      currentlyFollowing := dataFollowing == "true";
      SetBtn(currentlyFollowing, true, Some(PendingLabel(currentlyFollowing)));
    }

    /** The rest of the click, once its requests have ended. On success the
        state flips, the figures are refreshed, and the state becomes
        `isFollowing(refreshed) || flipped`; on any failure the button goes
        back to what it showed before the click and an alert is raised. */
    method Settle(currentlyFollowing: bool, outcome: ClickOutcome) returns (alert: Option<string>)
      requires Valid() && disabled && currentlyFollowing == (dataFollowing == "true")
      modifies this
      ensures Valid() && !disabled
      ensures followingState == StateAfter(currentlyFollowing, old(followingState), viewerName, outcome)
      ensures dataFollowing == FollowingText(ShownAfter(currentlyFollowing, viewerName, outcome))
      ensures stats == if outcome.Refreshed? then GetCounts(outcome.profile) else old(stats)
      ensures alert == if outcome.Refreshed? then None else Some(AlertText(outcome.message))
    {
      match outcome
      case ToggleFailed(m) =>
        SetBtn(currentlyFollowing, false, None);
        alert := Some(AlertText(m));
      case RefreshFailed(m) =>
        followingState := !currentlyFollowing;
        SetBtn(followingState, false, None);
        SetBtn(currentlyFollowing, false, None);
        alert := Some(AlertText(m));
      case Refreshed(p) =>
        followingState := !currentlyFollowing;
        SetBtn(followingState, false, None);
        stats := GetCounts(p);
        followingState := IsFollowing(p, viewerName) || followingState;
        SetBtn(followingState, false, None);
        alert := None;
    }
  }

  // Properties of a click

  /** Any failure shows the pre-click state again. */
  lemma FailureRestores(currentlyFollowing: bool, viewerName: Value, outcome: ClickOutcome)
    requires !outcome.Refreshed?
    ensures ShownAfter(currentlyFollowing, viewerName, outcome) == currentlyFollowing
  {
  }

  /** After a successful follow the button shows "Unfollow" whatever the
      reloaded profile lists. */
  lemma FollowSticks(viewerName: Value, p: Value)
    ensures ShownAfter(false, viewerName, Refreshed(p))
    ensures IdleLabel(StateAfter(false, false, viewerName, Refreshed(p))) == UnfollowLabel
  {
  }

  /** After a successful unfollow the reloaded follower list decides: the
      button shows "Follow" exactly when the viewer is no longer listed. */
  lemma UnfollowFollowsServer(viewerName: Value, p: Value, before: bool)
    ensures ShownAfter(true, viewerName, Refreshed(p)) == IsFollowing(p, viewerName)
    ensures StateAfter(true, before, viewerName, Refreshed(p)) == IsFollowing(p, viewerName)
  {
  }

  /** On success the handler's state and the button agree; when only the
      reload fails they part: the state holds the flipped value while the
      button shows the pre-click one. */
  lemma StateAndButton(currentlyFollowing: bool, before: bool, viewerName: Value, outcome: ClickOutcome)
    ensures outcome.Refreshed? ==>
      StateAfter(currentlyFollowing, before, viewerName, outcome) == ShownAfter(currentlyFollowing, viewerName, outcome)
    ensures outcome.RefreshFailed? ==>
      StateAfter(currentlyFollowing, before, viewerName, outcome) != ShownAfter(currentlyFollowing, viewerName, outcome)
  {
  }

  /** A whole click from an idle button: it settles enabled with the state,
      label, figures and alert that `Settle` gives for the state read from
      `data-following`, and a failed toggle leaves every field as it was. */
  method Click(b: FollowButton, outcome: ClickOutcome) returns (alert: Option<string>)
    requires b.Valid() && !b.disabled
    modifies b
    ensures b.Valid() && !b.disabled
    ensures outcome.ToggleFailed? ==>
      b.textContent == old(b.textContent) && b.dataFollowing == old(b.dataFollowing) &&
      b.followingState == old(b.followingState) && b.stats == old(b.stats)
    ensures b.dataFollowing == FollowingText(ShownAfter(old(b.dataFollowing) == "true", b.viewerName, outcome))
    ensures b.followingState == StateAfter(old(b.dataFollowing) == "true", old(b.followingState), b.viewerName, outcome)
    ensures b.stats == if outcome.Refreshed? then GetCounts(outcome.profile) else old(b.stats)
    ensures alert == if outcome.Refreshed? then None else Some(AlertText(outcome.message))
  {
    var current := b.Press();
    alert := b.Settle(current, outcome);
  }
}
