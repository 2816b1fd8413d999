// src/handlers/createPostHandler.js: the submit handler of the new-post
// form. It clears the error line, validates the trimmed title and then the
// trimmed body, and only then disables the button and calls the API; when
// the call ends it navigates to the feed or shows the error, and in every
// case restores the button.

module CreatePost {
  import opened Js
  import Strings
  import Browser
  import Router

  const TitleEmpty := "Title cannot be empty."
  const BodyEmpty := "Post cannot be empty."
  const PublishLabel := "Publish"
  const PublishingLabel := "Publishing..."

  /** The post handed to the API. */
  datatype Draft = Draft(title: string, body: string)

  /** The validation verdict on the two fields as typed. */
  datatype Check = Rejected(message: string) | Accepted(draft: Draft)

  /** The two `if` guards, in their order. */
  function CheckFields(titleValue: string, bodyValue: string): (c: Check)
    ensures c.Rejected? <==> Strings.Trim(titleValue) == "" || Strings.Trim(bodyValue) == ""
    ensures c.Rejected? ==> c.message == (if Strings.Trim(titleValue) == "" then TitleEmpty else BodyEmpty)
    ensures c.Accepted? ==> c.draft == Draft(Strings.Trim(titleValue), Strings.Trim(bodyValue))
  {
    var title := Strings.Trim(titleValue);
    var body := Strings.Trim(bodyValue);
    if |title| < 1 then Rejected(TitleEmpty)
    else if |body| < 1 then Rejected(BodyEmpty)
    else Accepted(Draft(title, body))
  }

  /** How the `createPost` call ends: resolved, or rejected with an error
      whose `message` is given. */
  datatype Outcome = Published | Failed(message: string)

  class PostForm {
    var errorText: string
    var disabled: bool
    var buttonText: string
    const location: Browser.Location

    /** The button reads "Publishing..." exactly while it is disabled. */
    predicate Valid()
      reads this
    {
      buttonText == (if disabled then PublishingLabel else PublishLabel)
    }

    /** The form as rendered: no error, an enabled "Publish" button. */
    constructor(loc: Browser.Location)
      ensures Valid() && !disabled && errorText == "" && location == loc
    {
      errorText := "";
      disabled := false;
      buttonText := PublishLabel;
      location := loc;
    }

    /** The synchronous part of a submit. The error line is cleared; an
        invalid form gets its message and leaves the button alone; a valid
        one hands back the draft to send, with the button disabled and
        relabelled. */
    method Submit(titleValue: string, bodyValue: string) returns (request: Option<Draft>)
      requires Valid()
      modifies this
      ensures Valid()
      ensures request.None? <==> CheckFields(titleValue, bodyValue).Rejected?
      ensures request.None? ==>
        && errorText == CheckFields(titleValue, bodyValue).message
        && disabled == old(disabled) && buttonText == old(buttonText)
      ensures request.Some? ==>
        && request.value == CheckFields(titleValue, bodyValue).draft
        && errorText == "" && disabled && buttonText == PublishingLabel
    {
      errorText := "";
      var check := CheckFields(titleValue, bodyValue);
      if check.Rejected? {
        errorText := check.message;
        return None;
      }
      disabled := true;
      buttonText := PublishingLabel;
      request := Some(check.draft);
    }

    /** The rest of the handler once `createPost` has settled: success
        navigates to "#/feed", failure shows the message; the `finally`
        block re-enables the button either way. */
    method Finish(outcome: Outcome) returns (hashChange: bool)
      modifies this, location
      ensures Valid() && !disabled && buttonText == PublishLabel
      ensures outcome.Published? ==>
        location.hash == Browser.HashAfterSet(Router.FeedHash) && errorText == old(errorText) &&
        hashChange == (location.hash != old(location.hash))
      ensures outcome.Failed? ==>
        errorText == outcome.message && location.hash == old(location.hash) && !hashChange
    {
      hashChange := false;
      match outcome {
        case Published =>
          hashChange := Router.Navigate(location, Router.FeedHash);
        case Failed(m) =>
          errorText := m;
      }
      disabled := false;
      buttonText := PublishLabel;
    }
  }

  /** One whole submit: validation, then, for a valid form, the call and its
      settling. An invalid form shows its message and sends nothing; a valid
      one sends the trimmed draft, the button ends enabled, a success lands
      on the feed and a failure stays on the page with the message shown. */
  method SubmitForm(form: PostForm, titleValue: string, bodyValue: string, outcome: Outcome)
    returns (sent: Option<Draft>)
    requires form.Valid()
    modifies form, form.location
    ensures form.Valid()
    ensures sent.None? <==> CheckFields(titleValue, bodyValue).Rejected?
    ensures sent.None? ==>
      && form.errorText == CheckFields(titleValue, bodyValue).message
      && form.location.hash == old(form.location.hash)
      && form.disabled == old(form.disabled) && form.buttonText == old(form.buttonText)
    ensures sent.Some? ==> sent.value == CheckFields(titleValue, bodyValue).draft
    ensures sent.Some? ==> !form.disabled && form.buttonText == PublishLabel
    ensures sent.Some? && outcome.Published? ==> Router.Route(form.location.hash) == Router.RenderFeed
    ensures sent.Some? && outcome.Failed? ==>
      form.errorText == outcome.message && form.location.hash == old(form.location.hash)
  {
    sent := form.Submit(titleValue, bodyValue);
    if sent.Some? {
      var _ := form.Finish(outcome);
      Router.NavigateThenDispatch(Router.FeedHash);
    }
  }

  // Properties of the checks

  /** The title is checked first: with both fields blank only its message
      is shown. */
  lemma TitleCheckedFirst(bodyValue: string)
    ensures CheckFields("", bodyValue) == Rejected(TitleEmpty)
  {
    Strings.TrimIgnoresPadding("", "", "");
  }

  /** Whitespace around either field changes neither the verdict nor the draft. */
  lemma PaddingIgnored(w1: string, t: string, w2: string, w3: string, b: string, w4: string)
    requires forall k :: 0 <= k < |w1| ==> Strings.IsJsWhitespace(w1[k])
    requires forall k :: 0 <= k < |w2| ==> Strings.IsJsWhitespace(w2[k])
    requires forall k :: 0 <= k < |w3| ==> Strings.IsJsWhitespace(w3[k])
    requires forall k :: 0 <= k < |w4| ==> Strings.IsJsWhitespace(w4[k])
    ensures CheckFields(w1 + t + w2, w3 + b + w4) == CheckFields(t, b)
  {
    Strings.TrimIgnoresPadding(w1, t, w2);
    Strings.TrimIgnoresPadding(w3, b, w4);
  }

  /** A field of whitespace only counts as empty. */
  lemma BlankTitleRejected(w: string, bodyValue: string)
    requires forall k :: 0 <= k < |w| ==> Strings.IsJsWhitespace(w[k])
    ensures CheckFields(w, bodyValue) == Rejected(TitleEmpty)
  {
    Strings.TrimIgnoresPadding(w, "", "");
    assert w + "" + "" == w;
  }

  /** An accepted draft has non-empty, already trimmed fields. */
  lemma AcceptedIsTrimmed(titleValue: string, bodyValue: string)
    requires CheckFields(titleValue, bodyValue).Accepted?
    ensures var d := CheckFields(titleValue, bodyValue).draft;
      d.title != "" && d.body != "" && Strings.Trim(d.title) == d.title && Strings.Trim(d.body) == d.body
  {
    Strings.TrimIdempotent(titleValue);
    Strings.TrimIdempotent(bodyValue);
  }
}
