/** When a pull request may be merged. */
module MergeRules {
  import opened Basics
  import opened Sorting
  import opened Text
  import opened TextFacts
  import opened Readiness
  import opened Reconcile
  import opened Reconciliation

  // Reviews.

  ghost predicate SubmittedBefore(a: Review, b: Review) {
    || (a.submittedAt.None? && b.submittedAt.Some?)
    || (a.submittedAt.Some? && b.submittedAt.Some? && StringLess(a.submittedAt.value, b.submittedAt.value))
    || (a.submittedAt == b.submittedAt && a.id < b.id)
  }

  /** The last review of this user that decides anything: a comment or a pending review does not. */
  ghost predicate LastWord(reviews: seq<Review>, login: string, r: Review) {
    && r in reviews && r.login == login && r.state in {"APPROVED", "CHANGES_REQUESTED", "DISMISSED"}
    && forall other | other in reviews && other.login == login && other.state in {"APPROVED", "CHANGES_REQUESTED", "DISMISSED"} ::
         !SubmittedBefore(r, other)
  }

  /** The users whose last word approves the head, or approves without naming a commit. */
  ghost function CurrentApprovers(data: ReadSet): set<string> {
    set r | r in data.reviews && LastWord(data.reviews, r.login, r) && r.state == "APPROVED"
         && (r.commitId == None || r.commitId == Some(data.headSha)) :: r.login
  }

  /** Somebody's last word approves another commit. */
  ghost predicate ApprovedEarlier(data: ReadSet) {
    exists r :: r in data.reviews && LastWord(data.reviews, r.login, r) && r.state == "APPROVED"
         && r.commitId != None && r.commitId != Some(data.headSha)
  }

  ghost function ApprovalsNeeded(data: ReadSet): nat {
    if data.reviewRequirements.Some? then data.reviewRequirements.value.requiredApprovingReviewCount else 0
  }

  ghost predicate AfterLastPush(data: ReadSet) {
    data.reviewRequirements.Some? && data.reviewRequirements.value.requireLastPushApproval
  }

  ghost predicate OwnersAwaited(data: ReadSet) {
    && data.reviewRequirements.Some? && data.reviewRequirements.value.requireCodeOwnerReviews
    && (data.mergeableState == None || data.mergeableState == Some("blocked") || data.mergeableState == Some("unknown"))
  }

  // Checks.

  /** Required by the policy or by the protection of the branch. */
  ghost predicate Needed(data: ReadSet, policy: Policy, name: string) {
    || name in policy.requiredChecks
    || (data.statusRequirements.Some?
        && (name in data.statusRequirements.value.contexts
            || exists check :: check in data.statusRequirements.value.checks && check.context == name))
  }

  /** The first requirement of this name asks for an application, and for this one. */
  ghost predicate AsksFor(data: ReadSet, name: string, app: int) {
    data.statusRequirements.Some? && FirstAsks(data.statusRequirements.value.checks, name, app)
  }

  ghost predicate FirstAsks(checks: seq<RequiredCheck>, name: string, app: int) {
    exists i | 0 <= i < |checks| ::
      checks[i] == RequiredCheck(name, Some(app)) && forall j | 0 <= j < i :: checks[j].context != name
  }

  ghost predicate LastRun(data: ReadSet, name: string, run: CheckRun) {
    && run in data.checkRuns && run.name == name
    && forall other | other in data.checkRuns && other.name == name :: other.id <= run.id
  }

  ghost predicate LastStatus(data: ReadSet, name: string, s: CommitStatus) {
    && s in data.statuses && s.context == name
    && forall other | other in data.statuses && other.context == name :: other.id <= s.id
  }

  ghost predicate NeverRan(data: ReadSet, name: string) {
    forall run | run in data.checkRuns :: run.name != name
  }

  /** The last run is of the application asked for; a status is of none. */
  ghost predicate OfItsApp(data: ReadSet, name: string) {
    forall app | AsksFor(data, name, app) :: exists run :: LastRun(data, name, run) && run.appId == Some(app)
  }

  ghost predicate HasEnded(data: ReadSet, name: string) {
    || (exists run :: LastRun(data, name, run) && run.status == "completed")
    || (NeverRan(data, name) && exists s :: LastStatus(data, name, s) && s.state in {"success", "failure", "error"})
  }

  ghost predicate HasEndedWell(data: ReadSet, name: string) {
    || (exists run :: LastRun(data, name, run) && run.status == "completed" && run.conclusion in {Some("success"), Some("skipped")})
    || (NeverRan(data, name) && exists s :: LastStatus(data, name, s) && s.state == "success")
  }

  ghost predicate CheckPasses(data: ReadSet, name: string) {
    OfItsApp(data, name) && HasEndedWell(data, name)
  }

  ghost predicate CheckGives(data: ReadSet, name: string, reason: Reason) {
    match reason
    case RequiredCheckWrongApp => !OfItsApp(data, name)
    case RequiredCheckFailed => OfItsApp(data, name) && HasEnded(data, name) && !HasEndedWell(data, name)
    case RequiredCheckPending => OfItsApp(data, name) && !HasEnded(data, name)
    case _ => false
  }

  /** A status passes when nothing asks for an application and the last one of its context succeeded. */
  lemma StatusPasses(data: ReadSet, name: string, s: CommitStatus)
    requires UniqueStatuses(data.statuses) && NeverRan(data, name) && LastStatus(data, name, s)
    ensures CheckPasses(data, name) <==> (forall app :: !AsksFor(data, name, app)) && s.state == "success"
  {
    hide AsksFor;
    forall other | LastStatus(data, name, other)
      ensures other == s
    {
    }
  }

  /** A run passes when it is the application's and was completed with success, or skipped. */
  lemma RunPasses(data: ReadSet, name: string, run: CheckRun)
    requires UniqueRuns(data.checkRuns) && LastRun(data, name, run)
    ensures CheckPasses(data, name) <==>
              && (forall app | AsksFor(data, name, app) :: run.appId == Some(app))
              && run.status == "completed" && (run.conclusion == Some("success") || run.conclusion == Some("skipped"))
  {
    hide AsksFor;
    forall other | LastRun(data, name, other)
      ensures other == run
    {
    }
  }

  // Feedback.

  ghost predicate Said(body: Option<string>) {
    body.Some? && !Blank(body.value)
  }

  ghost predicate Settled(reviews: seq<Review>, login: string) {
    exists r :: LastWord(reviews, login, r) && (r.state == "APPROVED" || r.state == "DISMISSED")
  }

  ghost predicate OpenReview(data: ReadSet, policy: Policy, done: set<string>, r: Review) {
    && r in data.reviews && Said(r.body) && r.login in policy.automationActors
    && r.state != "APPROVED" && r.state != "DISMISSED" && !Settled(data.reviews, r.login)
    && ("review:" + IntText(r.id)) !in done
  }

  ghost predicate OpenComment(prefix: string, comments: seq<Comment>, policy: Policy, done: set<string>, c: Comment) {
    c in comments && Said(c.body) && c.login in policy.automationActors && (prefix + IntText(c.id)) !in done
  }

  /** A configured automation has said something that is neither settled nor among what was done about it. */
  ghost predicate AutomationWaits(data: ReadSet, policy: Policy, done: set<string>) {
    || (exists r :: OpenReview(data, policy, done, r))
    || (exists c :: OpenComment("issue-comment:", data.issueComments, policy, done, c))
    || (exists c :: OpenComment("review-comment:", data.reviewComments, policy, done, c))
  }

  // The decision.

  /** What stands against merging. */
  ghost predicate Stands(data: ReadSet, policy: Policy, done: set<string>, reason: Reason) {
    var approvals := |CurrentApprovers(data)|;
    match reason
    case Draft => data.draft
    case MergeConflict => data.mergeable == Some(false)
    case MergeabilityUnknown => data.mergeable == None
    case BranchOutOfDate => policy.requireCurrentBranch && data.baseSha != data.baseBranchSha
    case RequiredCheckMissing => false
    case RequiredCheckWrongApp => exists name :: Needed(data, policy, name) && CheckGives(data, name, reason)
    case RequiredCheckFailed => exists name :: Needed(data, policy, name) && CheckGives(data, name, reason)
    case RequiredCheckPending => exists name :: Needed(data, policy, name) && CheckGives(data, name, reason)
    case RequiredReviewMissing => approvals == 0 && (policy.requireApproval || ApprovalsNeeded(data) > 0)
    case RequiredReviewCountMissing => 0 < approvals < ApprovalsNeeded(data)
    case StaleReview => AfterLastPush(data) && approvals == 0 && ApprovedEarlier(data)
    case LastPushApprovalMissing => AfterLastPush(data) && approvals == 0 && !ApprovedEarlier(data)
    case CodeOwnerReviewMissing => OwnersAwaited(data)
    case UnresolvedAutomationFeedback => AutomationWaits(data, policy, done)
  }

  /** Ready to merge, said of what was read and of the feedback known to be resolved. */
  ghost predicate MergeReady(data: ReadSet, policy: Policy, done: set<string>) {
    var approvals := |CurrentApprovers(data)|;
    && !data.draft && data.mergeable == Some(true)
    && (policy.requireCurrentBranch ==> data.baseSha == data.baseBranchSha)
    && (forall name | Needed(data, policy, name) :: CheckPasses(data, name))
    && (policy.requireApproval || AfterLastPush(data) ==> approvals > 0)
    && ApprovalsNeeded(data) <= approvals && !OwnersAwaited(data)
    && !AutomationWaits(data, policy, done)
  }

  lemma EndedWellEnded(data: ReadSet, name: string)
    requires HasEndedWell(data, name)
    ensures HasEnded(data, name)
  {
  }

  /** A pull request is ready when nothing stands against merging it. */
  lemma NothingStands(data: ReadSet, policy: Policy, done: set<string>)
    ensures MergeReady(data, policy, done) <==> forall reason :: !Stands(data, policy, done, reason)
  {
    hide Needed, OfItsApp, HasEnded, HasEndedWell, CurrentApprovers, ApprovedEarlier, OwnersAwaited, AutomationWaits, AfterLastPush,
      ApprovalsNeeded;
    forall name
      ensures HasEndedWell(data, name) ==> HasEnded(data, name)
    {
      if HasEndedWell(data, name) {
        EndedWellEnded(data, name);
      }
    }
    if forall reason :: !Stands(data, policy, done, reason) {
      NothingStandsReady(data, policy, done);
    }
  }

  lemma NothingStandsReady(data: ReadSet, policy: Policy, done: set<string>)
    requires forall reason :: !Stands(data, policy, done, reason)
    ensures MergeReady(data, policy, done)
  {
    hide Needed, OfItsApp, HasEnded, HasEndedWell, CurrentApprovers, ApprovedEarlier, OwnersAwaited, AutomationWaits, AfterLastPush,
      ApprovalsNeeded;
    var approvals := |CurrentApprovers(data)|;
    assert !Stands(data, policy, done, Draft) && !Stands(data, policy, done, MergeConflict);
    assert !Stands(data, policy, done, MergeabilityUnknown) && !Stands(data, policy, done, BranchOutOfDate);
    assert !Stands(data, policy, done, RequiredReviewMissing) && !Stands(data, policy, done, RequiredReviewCountMissing);
    assert !Stands(data, policy, done, StaleReview) && !Stands(data, policy, done, LastPushApprovalMissing);
    assert !Stands(data, policy, done, CodeOwnerReviewMissing) && !Stands(data, policy, done, UnresolvedAutomationFeedback);
    forall name | Needed(data, policy, name)
      ensures CheckPasses(data, name)
    {
      assert !Stands(data, policy, done, RequiredCheckWrongApp) && !CheckGives(data, name, RequiredCheckWrongApp);
      assert !Stands(data, policy, done, RequiredCheckFailed) && !CheckGives(data, name, RequiredCheckFailed);
      assert !Stands(data, policy, done, RequiredCheckPending) && !CheckGives(data, name, RequiredCheckPending);
    }
    assert data.mergeable.Some? && data.mergeable.value;
  }

  // Ids name one thing each.

  ghost predicate UniqueReviews(reviews: seq<Review>) {
    forall a, b | a in reviews && b in reviews && a.id == b.id :: a == b
  }

  ghost predicate UniqueComments(comments: seq<Comment>) {
    forall a, b | a in comments && b in comments && a.id == b.id :: a == b
  }

  ghost predicate UniqueStatuses(statuses: seq<CommitStatus>) {
    forall a, b | a in statuses && b in statuses && a.id == b.id :: a == b
  }

  ghost predicate UniqueRuns(runs: seq<CheckRun>) {
    forall a, b | a in runs && b in runs && a.id == b.id :: a == b
  }

  ghost predicate UniqueIds(data: ReadSet) {
    && UniqueReviews(data.reviews) && UniqueComments(data.issueComments) && UniqueComments(data.reviewComments)
    && UniqueStatuses(data.statuses) && UniqueRuns(data.checkRuns)
  }

  // What the reconciliation makes of each of them.

  lemma LastWordIs(reviews: seq<Review>, login: string, r: Review)
    ensures LastWord(reviews, login, r) <==> IsLatestOf(reviews, login, r)
  {
    forall a: Review, b: Review
      ensures SubmittedBefore(a, b) <==> ReviewLess(a, b)
    {
      hide StringLess;
    }
    forall a: Review
      ensures Deciding(a) <==> a.state in {"APPROVED", "CHANGES_REQUESTED", "DISMISSED"}
    {
    }
    hide SubmittedBefore, ReviewLess, Deciding;
  }

  lemma ApprovesIs(r: Review, head: string)
    ensures Approves(r, head) <==> r.state == "APPROVED" && (r.commitId == None || r.commitId == Some(head))
    ensures ApprovedBefore(r, head) <==> r.state == "APPROVED" && r.commitId != None && r.commitId != Some(head)
    ensures Settles(r.state) <==> r.state == "APPROVED" || r.state == "DISMISSED"
  {
  }

  lemma RequirementsAre(data: ReadSet)
    ensures Requirements(data).requiredApprovingReviewCount == ApprovalsNeeded(data)
    ensures Requirements(data).requireLastPushApproval <==> AfterLastPush(data)
    ensures Requirements(data).requireCodeOwnerReviews && !CodeOwnersSatisfied(data) <==> OwnersAwaited(data)
  {
  }

  lemma NeededIs(data: ReadSet, policy: Policy, name: string)
    ensures name in RequiredNames(data, policy) <==> Needed(data, policy, name)
  {
  }

  lemma {:induction false} FirstAppIdIs(checks: seq<RequiredCheck>, name: string, app: int)
    ensures FirstAppId(checks, name) == Some(app) <==> FirstAsks(checks, name, app)
  {
    if checks != [] && checks[0].context != name {
      var rest := checks[1..];
      FirstAppIdIs(rest, name, app);
      if FirstAsks(rest, name, app) {
        var i :| 0 <= i < |rest| && rest[i] == RequiredCheck(name, Some(app)) && forall j | 0 <= j < i :: rest[j].context != name;
        assert checks[i + 1] == RequiredCheck(name, Some(app));
        assert forall j | 0 < j < i + 1 :: checks[j] == rest[j - 1];
      }
      if FirstAsks(checks, name, app) {
        var i :| 0 <= i < |checks| && checks[i] == RequiredCheck(name, Some(app)) && forall j | 0 <= j < i :: checks[j].context != name;
        assert rest[i - 1] == RequiredCheck(name, Some(app));
        assert forall j | 0 <= j < i - 1 :: rest[j] == checks[j + 1];
      }
    } else if checks != [] && checks[0] == RequiredCheck(name, Some(app)) {
      assert FirstAsks(checks, name, app);
    }
  }

  lemma RequiredAppIs(data: ReadSet, name: string, app: int)
    ensures RequiredAppId(data, name) == Some(app) <==> AsksFor(data, name, app)
  {
    hide FirstAppId, FirstAsks;
    if data.statusRequirements.Some? {
      FirstAppIdIs(data.statusRequirements.value.checks, name, app);
    }
  }

  lemma SaidIs(body: Option<string>)
    ensures NonemptyBody(body).Some? <==> Said(body)
    ensures Said(body) ==> NonemptyBody(body).value == Trim(body.value)
  {
    hide Trim, IsWhitespace;
    if body.Some? {
      var a, b := TrimMeans(body.value);
      if Trim(body.value) == "" {
        assert body.value == a + b;
      } else {
        assert body.value[|a|] == Trim(body.value)[0];
      }
    }
  }

  lemma IdsAre(id: int)
    ensures ReviewId(id) == "review:" + IntText(id)
    ensures CommentId("issue-comment", id) == "issue-comment:" + IntText(id)
    ensures CommentId("review-comment", id) == "review-comment:" + IntText(id)
  {
    hide IntText;
    assert "issue-comment" + ":" == "issue-comment:";
    assert "review-comment" + ":" == "review-comment:";
  }
}
