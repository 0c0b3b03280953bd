/**
 The issue table behind target suspension: one row per target that has failed, with a counter of equal
 failures in a row, and the target list of `Targets` that must agree with it.
 */
module TargetIssues {
  import opened Common
  import opened Targets

  // ---------------------------------------------------------------- classification

  datatype Classification = Classification(
    errorType: string, category: string, message: string, autoSuspend: bool,
    reason: Option<string>, suspendAfter: Option<nat>)

  /** What sending to a target raised. */
  datatype SendError =
    | Forbidden(name: string)                    // one of the errors that suspend a target at once
    | RateLimited(name: string)
    | DomainError(code: string, detail: string)
    | EmptyResult
    | OtherError(name: string, detail: string)

  /** The error names with an entry of their own: error type, category, reason. */
  const SPECIALIZED: map<string, (string, string, string)> := map[
    "ChatSendPhotosForbiddenError" := ("TARGET_PHOTO_FORBIDDEN", "media_permission_denied", "target_photo_forbidden"),
    "ChatSendVideosForbiddenError" := ("TARGET_VIDEO_FORBIDDEN", "media_permission_denied", "target_video_forbidden"),
    "ChatSendGifsForbiddenError" := ("TARGET_ANIMATION_FORBIDDEN", "media_permission_denied", "target_animation_forbidden"),
    "ChatSendMediaForbiddenError" := ("TARGET_MEDIA_FORBIDDEN", "media_permission_denied", "target_media_forbidden"),
    "UserBannedInChannelError" := ("UserBannedInChannelError", "permission_denied", "user_banned_in_channel"),
    "ChatWriteForbiddenError" := ("ChatWriteForbiddenError", "permission_denied", "chat_write_forbidden"),
    "ChatSendPlainForbiddenError" := ("ChatSendPlainForbiddenError", "permission_denied", "chat_send_plain_forbidden"),
    "ChatRestrictedError" := ("ChatRestrictedError", "permission_denied", "chat_restricted"),
    "ChannelPrivateError" := ("ChannelPrivateError", "target_inaccessible", "channel_private")
  ]

  /** The user-facing text stands for itself: it is a function of the error. */
  function Classify(error: SendError): Classification {
    match error
    case Forbidden(name) =>
      if name in SPECIALIZED then
        Classification(SPECIALIZED[name].0, SPECIALIZED[name].1, name, true, Some(SPECIALIZED[name].2), Some(1))
      else Classification(name, "send_error", name, false, None, None)
    case RateLimited(name) => Classification(name, "rate_limit", name, false, None, None)
    case DomainError(code, detail) => Classification(code, "task_media_contract", detail, false, None, None)
    case EmptyResult => Classification("EmptyMessageResultError", "empty_result", "empty", false, Some("empty_result"), Some(3))
    case OtherError(name, detail) => Classification(name, "send_error", detail, false, None, None)
  }

  /** A classification that can suspend says why. */
  predicate SaysWhy(c: Classification) {
    (c.suspendAfter.None? && c.autoSuspend) || c.suspendAfter.Some? ==> c.reason.Some?
  }

  lemma ClassificationsSayWhy(error: SendError)
    ensures SaysWhy(Classify(error))
  {
  }

  predicate SameIssue(a: Classification, b: Classification) {
    a.errorType == b.errorType && a.message == b.message && a.category == b.category
  }

  // ---------------------------------------------------------------- the issue row

  datatype Issue = Issue(errorType: string, message: string, category: string, active: bool, failures: nat, autoSuspended: bool)

  /** Whether the `n`-th equal failure in a row suspends. */
  predicate Suspends(c: Classification, n: nat) {
    if c.suspendAfter.Some? then n >= c.suspendAfter.value else c.autoSuspend
  }

  predicate Changed(issue: Issue, c: Classification) {
    !issue.active || issue.errorType != c.errorType || issue.message != c.message || issue.category != c.category
  }

  function Recorded(issue: Option<Issue>, c: Classification): Issue {
    var n := if issue.None? || Changed(issue.value, c) then 1 else issue.value.failures + 1;
    Issue(c.errorType, c.message, c.category, true, n, Suspends(c, n))
  }

  type Issues = map<Key, Issue>

  function Resolved(issues: Issues, key: Key): Issues {
    if key in issues && issues[key].active
    then issues[key := issues[key].(active := false, failures := 0, autoSuspended := false)] else issues
  }

  class IssueTable {
    var issues: Issues

    constructor ()
      ensures issues == map[]
    {
      issues := map[];
    }

    method RecordTaskTargetSendIssue(key: Key, c: Classification) returns (issue: Issue)
      modifies this
      ensures issue == Recorded(Lookup(old(issues), key), c) && issues == old(issues)[key := issue]
    {
      if key !in issues {
        var autoSuspended := c.autoSuspend;
        if c.suspendAfter.Some? {
          autoSuspended := 1 >= c.suspendAfter.value;
        }
        issue := Issue(c.errorType, c.message, c.category, true, 1, autoSuspended);
        issues := issues[key := issue];
        return;
      }
      issue := issues[key];
      var changed := !issue.active || issue.errorType != c.errorType || issue.message != c.message || issue.category != c.category;
      var failures := if changed then 1 else issue.failures + 1;
      var autoSuspended := c.autoSuspend;
      if c.suspendAfter.Some? {
        autoSuspended := failures >= c.suspendAfter.value;
      }
      issue := issue.(errorType := c.errorType, message := c.message, category := c.category);
      issue := issue.(active := true, failures := failures, autoSuspended := autoSuspended);
      issues := issues[key := issue];
    }

    method ResolveTaskTargetSendIssue(key: Key)
      modifies this
      ensures issues == Resolved(old(issues), key)
    {
      if key !in issues || !issues[key].active {
        return;
      }
      issues := issues[key := issues[key].(active := false, failures := 0, autoSuspended := false)];
    }
  }

  // ---------------------------------------------------------------- one writer at a time

  /** The task, its issue rows, and for every target its failures since its last success. */
  datatype State = State(task: Task, issues: Issues, history: map<Key, seq<Classification>>)

  datatype Step =
    | SendFailed(key: Key, title: Option<string>, error: SendError)
    | SendOk(key: Key)
    | Saved(sub: Submission)

  function History(s: State, key: Key): seq<Classification> {
    if key in s.history then s.history[key] else []
  }

  /** A run that sends to one target, or a save, that nobody disturbs; `TargetRuns` lets them overlap. */
  function Next(s: State, step: Step): State {
    match step
    case SendFailed(key, title, error) =>
      var c := Classify(error);
      var issue := Recorded(Lookup(s.issues, key), c);
      State(AfterFailure(s.task, key, title, c.errorType, c.message, if issue.autoSuspended then c.reason else None),
            s.issues[key := issue], s.history[key := History(s, key) + [c]])
    case SendOk(key) =>
      State(AfterSuccess(s.task, key), Resolved(s.issues, key), s.history[key := []])
    case Saved(sub) => if Save(s.task, sub).None? then s else s.(task := Save(s.task, sub).value)
  }

  /** The length of the longest suffix of equal classifications. */
  function SameRun(h: seq<Classification>): (n: nat)
    ensures n <= |h| && (h != [] ==> n >= 1)
  {
    if h == [] then 0
    else if |h| == 1 || !SameIssue(h[|h| - 2], h[|h| - 1]) then 1
    else 1 + SameRun(h[..|h| - 1])
  }

  lemma SameRunMore(h: seq<Classification>, c: Classification)
    ensures SameRun(h + [c]) == if h != [] && SameIssue(h[|h| - 1], c) then SameRun(h) + 1 else 1
  {
    assert (h + [c])[..|h|] == h;
  }

  /** The counter is what its name says: the classifications of the suffix equal the last one, and the one
      before the suffix does not. */
  lemma {:induction false} SameRunIsLongest(h: seq<Classification>)
    requires h != []
    ensures forall i | |h| - SameRun(h) <= i < |h| :: SameIssue(h[i], h[|h| - 1])
    ensures SameRun(h) < |h| ==> !SameIssue(h[|h| - SameRun(h) - 1], h[|h| - 1])
  {
    if |h| > 1 && SameIssue(h[|h| - 2], h[|h| - 1]) {
      SameRunIsLongest(h[..|h| - 1]);
    }
  }

  /** The row of a target tells its history: active with the last classification and its run length when it
      has failed since its last success, and not active otherwise. */
  ghost predicate RowFits(issue: Option<Issue>, h: seq<Classification>) {
    if h == [] then issue.None? || !issue.value.active
    else
      var c := h[|h| - 1];
      issue == Some(Issue(c.errorType, c.message, c.category, true, SameRun(h), Suspends(c, SameRun(h))))
  }

  ghost predicate RowsFit(s: State) {
    forall key :: RowFits(Lookup(s.issues, key), History(s, key))
  }

  /** A suspended item has an active row that is auto-suspended. */
  ghost predicate SuspensionsFit(s: State) {
    forall i | 0 <= i < |Items(s.task)| && Items(s.task)[i].Object? && Items(s.task)[i].target.peerId.Some?
               && Items(s.task)[i].target.delivery == DeliverySuspended ::
      var key := KeyOf(Items(s.task)[i].target);
      key in s.issues && s.issues[key].active && s.issues[key].autoSuspended
  }

  ghost predicate Inv(s: State) {
    RowsFit(s) && SuspensionsFit(s)
  }

  /** A step that rewrites the items in place and touches one row keeps the suspensions explained, when the
      matching items it leaves suspended are explained. */
  lemma SuspensionsKept(s: State, s': State, key: Key)
    requires SuspensionsFit(s) && |Items(s'.task)| == |Items(s.task)|
    requires forall k | k in s.issues && k != key :: k in s'.issues && s'.issues[k] == s.issues[k]
    requires forall i | 0 <= i < |Items(s.task)| && !Matches(Items(s.task)[i], key) :: Items(s'.task)[i] == Items(s.task)[i]
    requires forall i | 0 <= i < |Items(s.task)| && Matches(Items(s.task)[i], key) ::
               && Matches(Items(s'.task)[i], key)
               && (Items(s'.task)[i].target.delivery == DeliverySuspended ==>
                     key in s'.issues && s'.issues[key].active && s'.issues[key].autoSuspended)
    ensures SuspensionsFit(s')
  {
    forall i | 0 <= i < |Items(s'.task)| && Items(s'.task)[i].Object? && Items(s'.task)[i].target.peerId.Some?
               && Items(s'.task)[i].target.delivery == DeliverySuspended
      ensures var k := KeyOf(Items(s'.task)[i].target); k in s'.issues && s'.issues[k].active && s'.issues[k].autoSuspended
    {
      assert Matches(Items(s.task)[i], key) || Items(s'.task)[i] == Items(s.task)[i];
    }
  }

  /** Recording a failure on a row that fits gives the one row that fits afterwards. */
  lemma RecordedFits(row: Option<Issue>, h: seq<Classification>, c: Classification, x: Option<Issue>)
    requires RowFits(row, h)
    ensures RowFits(x, h + [c]) <==> x == Some(Recorded(row, c))
  {
    SameRunMore(h, c);
    hide SameRun, Suspends;
  }

  lemma FailureKeeps(s: State, key: Key, title: Option<string>, error: SendError)
    requires Inv(s)
    ensures Inv(Next(s, SendFailed(key, title, error)))
  {
    var c := Classify(error);
    var h := History(s, key);
    var s' := Next(s, SendFailed(key, title, error));
    ClassificationsSayWhy(error);
    hide Classify;
    assert RowFits(Lookup(s.issues, key), h);
    RecordedFits(Lookup(s.issues, key), h, c, Lookup(s'.issues, key));
    assert RowsFit(s') by {
      forall k ensures RowFits(Lookup(s'.issues, k), History(s', k)) {
        assert k != key ==> RowFits(Lookup(s.issues, k), History(s, k));
      }
    }
    hide RowsFit, RowFits, SameRun;
    SuspensionsKept(s, s', key);
  }

  lemma SuccessKeeps(s: State, key: Key)
    requires Inv(s)
    ensures Inv(Next(s, SendOk(key)))
  {
    var s' := Next(s, SendOk(key));
    assert RowsFit(s') by {
      forall k ensures RowFits(Lookup(s'.issues, k), History(s', k)) {
        assert RowFits(Lookup(s.issues, k), History(s, k));
      }
    }
    hide RowsFit, RowFits, SameRun;
    SuspensionsKept(s, s', key);
  }

  /** What a save leaves suspended was suspended before. */
  lemma {:induction false} SavedSuspensions(task: Task, sub: Submission, i: nat)
    requires Save(task, sub).Some? && i < |Items(Save(task, sub).value)|
    ensures var item := Items(Save(task, sub).value)[i];
            && item.Object? && item.target.peerId.Some?
            && (item.target.delivery == DeliverySuspended ==> StaysSuspended(Items(task), KeyOf(item.target), false))
  {
    hide Identities, Incomparable, LastMatch;
  }

  /** A target that a list holds suspended last is an item of the list. */
  lemma {:induction false} LastIsItem(items: seq<Item>, key: Key)
    requires LastMatch(items, key).Some?
    ensures exists i :: 0 <= i < |items| && Matches(items[i], key) && items[i].target == LastMatch(items, key).value
  {
    var n := |items| - 1;
    if Matches(items[n], key) && key.peerType != OtherType("") {
      assert items[n].target == LastMatch(items, key).value;
    } else {
      LastIsItem(items[..n], key);
      var i :| 0 <= i < n && Matches(items[..n][i], key) && items[..n][i].target == LastMatch(items[..n], key).value;
      assert items[i] == items[..n][i];
    }
  }

  lemma SaveKeeps(s: State, sub: Submission)
    requires Inv(s)
    ensures Inv(Next(s, Saved(sub)))
  {
    if Save(s.task, sub).None? {
      return;
    }
    var s' := Next(s, Saved(sub));
    assert RowsFit(s') by {
      forall k ensures RowFits(Lookup(s'.issues, k), History(s', k)) {
        assert RowFits(Lookup(s.issues, k), History(s, k));
      }
    }
    hide RowsFit, Save;
    forall i | 0 <= i < |Items(s'.task)| && Items(s'.task)[i].Object? && Items(s'.task)[i].target.peerId.Some?
               && Items(s'.task)[i].target.delivery == DeliverySuspended
      ensures var k := KeyOf(Items(s'.task)[i].target); k in s'.issues && s'.issues[k].active && s'.issues[k].autoSuspended
    {
      SavedSuspensions(s.task, sub, i);
      LastIsItem(Items(s.task), KeyOf(Items(s'.task)[i].target));
    }
  }

  /** A task nobody has sent yet: no rows, nothing suspended. */
  ghost predicate Fresh(s: State) {
    && s.issues == map[] && s.history == map[]
    && forall i | 0 <= i < |Items(s.task)| && Items(s.task)[i].Object? :: Items(s.task)[i].target.delivery != DeliverySuspended
  }

  lemma FreshFits(s: State)
    requires Fresh(s)
    ensures Inv(s)
  {
    assert forall k :: Lookup(s.issues, k).None? && History(s, k) == [];
  }

  // ---------------------------------------------------------------- when a failure suspends

  /** After a failed send an explicit target is collected exactly if the failure does not suspend, that is,
      if its run of equal failures is still short of the classification's threshold. */
  lemma FailureSuspendsExactly(s: State, key: Key, title: Option<string>, error: SendError)
    requires Inv(s) && Lists(Items(s.task), key)
    ensures var s' := Next(s, SendFailed(key, title, error));
            Has(Collect(s'.task), key) <==> !Suspends(Classify(error), SameRun(History(s', key)))
  {
    var c := Classify(error);
    var s' := Next(s, SendFailed(key, title, error));
    FailureKeeps(s, key, title, error);
    ClassificationsSayWhy(error);
    assert RowFits(Lookup(s'.issues, key), History(s', key));
    assert History(s', key) == History(s, key) + [c];
    var items, items' := Items(s.task), Items(s'.task);
    var k :| 0 <= k < |items| && Valid(items[k]) && Matches(items[k], key);
    assert Valid(items'[k]) && Matches(items'[k], key);
    hide RowFits, SameRun, Classify, Inv;
    CollectsKeys(s'.task);
    if Suspends(c, SameRun(History(s', key))) {
      assert forall i | 0 <= i < |items'| && Visible(items'[i]) :: KeyOf(items'[i].target) != key;
    } else {
      assert Visible(items'[k]);
    }
  }

  /** The errors that say a target cannot be sent to. */
  ghost predicate SaysForbidden(error: SendError) {
    error.Forbidden? && error.name in {
      "ChatSendPhotosForbiddenError", "ChatSendVideosForbiddenError", "ChatSendGifsForbiddenError", "ChatSendMediaForbiddenError",
      "UserBannedInChannelError", "ChatWriteForbiddenError", "ChatSendPlainForbiddenError", "ChatRestrictedError", "ChannelPrivateError"}
  }

  /** Such an error suspends at once, an empty result at the third time in a row, and nothing else ever. */
  lemma SuspendsExactly(error: SendError, n: nat)
    ensures Suspends(Classify(error), n) <==> (SaysForbidden(error) && n >= 1) || (error == EmptyResult && n >= 3)
  {
  }

  /** What is noted about an error: its own name or code, except for the four kinds of media a chat can forbid. */
  lemma ClassifiedExactly(error: SendError)
    ensures Classify(error).autoSuspend <==> SaysForbidden(error)
    ensures var c := Classify(error);
            match error
            case Forbidden(name) =>
              && c.message == name
              && (c.errorType == name <==> name !in {"ChatSendPhotosForbiddenError", "ChatSendVideosForbiddenError",
                                                     "ChatSendGifsForbiddenError", "ChatSendMediaForbiddenError"})
              && (c.errorType != name ==>
                    && c.category == "media_permission_denied"
                    && (name, c.errorType, c.reason.value) in {
                         ("ChatSendPhotosForbiddenError", "TARGET_PHOTO_FORBIDDEN", "target_photo_forbidden"),
                         ("ChatSendVideosForbiddenError", "TARGET_VIDEO_FORBIDDEN", "target_video_forbidden"),
                         ("ChatSendGifsForbiddenError", "TARGET_ANIMATION_FORBIDDEN", "target_animation_forbidden"),
                         ("ChatSendMediaForbiddenError", "TARGET_MEDIA_FORBIDDEN", "target_media_forbidden")})
              && (c.errorType == name && SaysForbidden(error) ==>
                    (name, c.category, c.reason.value) in {
                      ("UserBannedInChannelError", "permission_denied", "user_banned_in_channel"),
                      ("ChatWriteForbiddenError", "permission_denied", "chat_write_forbidden"),
                      ("ChatSendPlainForbiddenError", "permission_denied", "chat_send_plain_forbidden"),
                      ("ChatRestrictedError", "permission_denied", "chat_restricted"),
                      ("ChannelPrivateError", "target_inaccessible", "channel_private")})
              && (!SaysForbidden(error) ==> c.category == "send_error" && c.reason.None?)
            case RateLimited(name) => c.errorType == c.message == name && c.category == "rate_limit" && c.reason.None?
            case DomainError(code, detail) =>
              c.errorType == code && c.message == detail && c.category == "task_media_contract" && c.reason.None?
            case EmptyResult => c.errorType == "EmptyMessageResultError" && c.category == "empty_result" && c.reason == Some("empty_result")
            case OtherError(name, detail) => c.errorType == name && c.message == detail && c.category == "send_error" && c.reason.None?
  {
  }

  /** What a failed send does to a listed target, by its error: it is not collected any more at once if the error says
      it is forbidden, at the third empty result in a row, and never otherwise. */
  lemma FailureDropsExactly(s: State, key: Key, title: Option<string>, error: SendError)
    requires Inv(s) && Lists(Items(s.task), key)
    ensures var s' := Next(s, SendFailed(key, title, error));
            !Has(Collect(s'.task), key) <==> SaysForbidden(error) || (error == EmptyResult && SameRun(History(s', key)) >= 3)
  {
    var s' := Next(s, SendFailed(key, title, error));
    FailureSuspendsExactly(s, key, title, error);
    SuspendsExactly(error, SameRun(History(s', key)));
    assert History(s', key) == History(s, key) + [Classify(error)];
    hide Inv, Collect, Lists, Has, Classify, Suspends;
  }

  /** Right after a success, a target whose sends return nothing is suspended at the third time in a row and
      not before. */
  lemma EmptyResultSuspendsAtThird(s: State, key: Key, title: Option<string>)
    requires Inv(s) && Lists(Items(s.task), key)
    ensures var s1 := Next(s, SendOk(key));
            var s2 := Next(s1, SendFailed(key, title, EmptyResult));
            var s3 := Next(s2, SendFailed(key, title, EmptyResult));
            var s4 := Next(s3, SendFailed(key, title, EmptyResult));
            Has(Collect(s2.task), key) && Has(Collect(s3.task), key) && !Has(Collect(s4.task), key)
  {
    var s1 := Next(s, SendOk(key));
    SuccessKeeps(s, key);
    StillListed(s, SendOk(key), key);
    assert History(s1, key) == [];
    hide Next, Inv, Collect, Lists, Has, Classify;
    EmptyOnce(s1, key, title);
    var s2 := Next(s1, SendFailed(key, title, EmptyResult));
    EmptyOnce(s2, key, title);
    var s3 := Next(s2, SendFailed(key, title, EmptyResult));
    EmptyOnce(s3, key, title);
  }

  lemma EmptyOnce(s: State, key: Key, title: Option<string>)
    requires Inv(s) && Lists(Items(s.task), key)
    ensures var s' := Next(s, SendFailed(key, title, EmptyResult));
            var h := History(s, key);
            && Inv(s') && Lists(Items(s'.task), key)
            && History(s', key) == h + [Classify(EmptyResult)]
            && (h == [] || h[|h| - 1] == Classify(EmptyResult) ==> SameRun(History(s', key)) == SameRun(h) + 1)
            && (Has(Collect(s'.task), key) <==> SameRun(History(s', key)) < 3)
  {
    var step := SendFailed(key, title, EmptyResult);
    FailureKeeps(s, key, title, EmptyResult);
    FailureSuspendsExactly(s, key, title, EmptyResult);
    StillListed(s, step, key);
    SameRunMore(History(s, key), Classify(EmptyResult));
    hide Inv, Collect, Lists;
  }

  lemma StillListed(s: State, step: Step, key: Key)
    requires !step.Saved? && Lists(Items(s.task), key)
    ensures Lists(Items(Next(s, step).task), key)
  {
    var items, items' := Items(s.task), Items(Next(s, step).task);
    var k :| 0 <= k < |items| && Valid(items[k]) && Matches(items[k], key);
    assert Valid(items'[k]) && Matches(items'[k], key);
  }
}
