/** What reconciling stores, field by field. */
module ReconciledFacts {
  import opened Basics
  import opened Ordering
  import opened Sorting
  import opened Text
  import opened Readiness
  import opened Reconcile
  import opened Reconciliation
  import opened MergeRules
  import opened MergeDecision

  // Check records.

  /** A commit status in the words of a check run. */
  ghost predicate StateRead(state: string, status: string, conclusion: Option<string>) {
    if state == "success" then status == "completed" && conclusion == Some("success")
    else if state == "failure" || state == "error" then status == "completed" && conclusion == Some("failure")
    else if state == "pending" then status == "in_progress" && conclusion == None
    else status == "unknown" && conclusion == None
  }

  ghost predicate OfRun(run: CheckRun, rec: CheckRecord) {
    rec == CheckRecord(IntText(run.id), run.name, run.appId, run.status, run.conclusion, run.detailsUrl)
  }

  ghost predicate OfStatus(s: CommitStatus, rec: CheckRecord) {
    && rec == CheckRecord("status:" + IntText(s.id), s.context, None, rec.status, rec.conclusion, s.targetUrl)
    && StateRead(s.state, rec.status, rec.conclusion)
  }

  /** The record of the last run of its name or, without any, of the last status. */
  ghost predicate Reports(data: ReadSet, rec: CheckRecord) {
    || (exists run :: LastRun(data, rec.name, run) && OfRun(run, rec))
    || (NeverRan(data, rec.name) && exists s :: LastStatus(data, rec.name, s) && OfStatus(s, rec))
  }

  lemma OfStatusIs(s: CommitStatus, rec: CheckRecord)
    ensures OfStatus(s, rec) <==> rec == StatusRecord(s)
  {
    hide IntText;
  }

  lemma ReportsIs(data: ReadSet, rec: CheckRecord)
    ensures Reports(data, rec) <==> IsCheck(data.statuses, data.checkRuns, rec)
  {
    hide OfStatus, StatusRecord, IntText;
    forall s
      ensures OfStatus(s, rec) <==> rec == StatusRecord(s)
      ensures rec == StatusRecord(s) ==> rec.name == s.context
      ensures LastStatus(data, rec.name, s) <==> GreatestStatus(data.statuses, s) && s.context == rec.name
    {
      OfStatusIs(s, rec);
    }
    forall run
      ensures LastRun(data, rec.name, run) <==> GreatestRun(data.checkRuns, run) && run.name == rec.name
    {
    }
    hide LastStatus, LastRun, GreatestRun, GreatestStatus;
  }

  lemma ReconciledChecks(data: ReadSet, policy: Policy, r: Reconciled, rec: CheckRecord)
    requires UniqueIds(data) && IsReconciled(data, policy, r)
    ensures rec in r.checks <==> Reports(data, rec)
  {
    hide UniqueReviews, UniqueComments, UniqueRuns, UniqueStatuses, IsLatest, AreSnapshots, AreFeedback, AreFields, NameLess, IsCheck, Reports;
    ReportsIs(data, rec);
    if IsCheck(data.statuses, data.checkRuns, rec) {
      CheckNamed(data.statuses, data.checkRuns, rec);
      var other :| other in r.checks && other.name == rec.name;
      OneCheck(data.statuses, data.checkRuns, rec, other);
    }
  }

  lemma CheckNamed(statuses: seq<CommitStatus>, runs: seq<CheckRun>, rec: CheckRecord)
    requires IsCheck(statuses, runs, rec)
    ensures StatusNamed(statuses, rec.name) || RunNamed(runs, rec.name)
  {
    hide StatusRecord, RunRecord;
  }

  // Feedback records.

  ghost predicate OfReview(data: ReadSet, policy: Policy, v: Review, rec: FeedbackRecord) {
    && v in data.reviews && Said(v.body)
    && rec == FeedbackRecord(
         "review:" + IntText(v.id), v.login, v.actorType, Trim(v.body.value),
         v.state == "APPROVED" || v.state == "DISMISSED" || Settled(data.reviews, v.login),
         v.actorType == "Bot" || v.login in policy.automationActors, None, None, None)
  }

  ghost predicate OfComment(prefix: string, comments: seq<Comment>, policy: Policy, c: Comment, rec: FeedbackRecord) {
    && c in comments && Said(c.body)
    && rec == FeedbackRecord(
         prefix + IntText(c.id), c.login, c.actorType, Trim(c.body.value), false,
         c.actorType == "Bot" || c.login in policy.automationActors, c.path, c.startLine, c.line)
  }

  ghost predicate SaysSomething(data: ReadSet, policy: Policy, rec: FeedbackRecord) {
    || (exists v :: OfReview(data, policy, v, rec))
    || (exists c :: OfComment("issue-comment:", data.issueComments, policy, c, rec))
    || (exists c :: OfComment("review-comment:", data.reviewComments, policy, c, rec))
  }

  lemma OfReviewIs(data: ReadSet, latest: map<string, Review>, policy: Policy, v: Review, rec: FeedbackRecord)
    requires UniqueReviews(data.reviews) && IsLatest(data.reviews, latest)
    ensures OfReview(data, policy, v, rec) <==>
              v in data.reviews && NonemptyBody(v.body).Some? && rec == ReviewRecord(v, NonemptyBody(v.body).value, latest, policy)
  {
    hide UniqueReviews, IsLatest, NonemptyBody, ReviewId, Settles, Settled, Said, IntText, Trim;
    SettledByLatest(data, latest, v.login);
    ApprovesIs(v, data.headSha);
    SaidIs(v.body);
    IdsAre(v.id);
  }

  lemma OfCommentIs(prefix: string, comments: seq<Comment>, policy: Policy, c: Comment, rec: FeedbackRecord)
    ensures OfComment(prefix + ":", comments, policy, c, rec) <==>
              c in comments && NonemptyBody(c.body).Some? && rec == CommentRecord(prefix, c, NonemptyBody(c.body).value, policy)
  {
    hide NonemptyBody, Said, IntText, Trim;
    SaidIs(c.body);
  }

  lemma SaysSomethingIs(data: ReadSet, latest: map<string, Review>, policy: Policy, rec: FeedbackRecord)
    requires UniqueReviews(data.reviews) && IsLatest(data.reviews, latest)
    ensures SaysSomething(data, policy, rec) <==> IsFeedback(data, latest, policy, rec)
  {
    hide UniqueReviews, IsLatest, NonemptyBody, ReviewRecord, CommentRecord, OfReview, OfComment;
    assert "issue-comment" + ":" == "issue-comment:" && "review-comment" + ":" == "review-comment:";
    forall v
      ensures OfReview(data, policy, v, rec) <==>
                v in data.reviews && NonemptyBody(v.body).Some? && rec == ReviewRecord(v, NonemptyBody(v.body).value, latest, policy)
    {
      OfReviewIs(data, latest, policy, v, rec);
    }
    forall c
      ensures OfComment("issue-comment:", data.issueComments, policy, c, rec) <==>
                && c in data.issueComments && NonemptyBody(c.body).Some?
                && rec == CommentRecord("issue-comment", c, NonemptyBody(c.body).value, policy)
      ensures OfComment("review-comment:", data.reviewComments, policy, c, rec) <==>
                && c in data.reviewComments && NonemptyBody(c.body).Some?
                && rec == CommentRecord("review-comment", c, NonemptyBody(c.body).value, policy)
    {
      OfCommentIs("issue-comment", data.issueComments, policy, c, rec);
      OfCommentIs("review-comment", data.reviewComments, policy, c, rec);
    }
  }

  lemma ReconciledFeedback(data: ReadSet, policy: Policy, r: Reconciled, rec: FeedbackRecord)
    requires UniqueIds(data) && IsReconciled(data, policy, r)
    ensures rec in r.feedback <==> SaysSomething(data, policy, rec)
  {
    hide UniqueReviews, UniqueComments, UniqueRuns, UniqueStatuses, IsLatest, AreSnapshots, AreChecks, AreFields, RecordLess, IsFeedback,
      SaysSomething;
    var latest :| IsLatest(data.reviews, latest) && Describes(data, policy, latest, r);
    SaysSomethingIs(data, latest, policy, rec);
    if IsFeedback(data, latest, policy, rec) {
      RecordAlsoIn(data, latest, policy, r.feedback, rec);
    }
  }

  // The input of the evaluation.

  ghost predicate StatusRead(text: string, status: CheckStatus) {
    if text in {"queued", "pending", "requested", "waiting"} then status == Queued
    else if text == "in_progress" then status == InProgress
    else if text == "completed" then status == Completed
    else status == CheckStatus.Unknown
  }

  ghost predicate ConclusionRead(text: string, conclusion: CheckConclusion) {
    if text == "success" then conclusion.Success?
    else if text == "failure" then conclusion.Failure?
    else if text == "cancelled" then conclusion.Cancelled?
    else if text == "timed_out" then conclusion.TimedOut?
    else if text == "neutral" then conclusion.Neutral?
    else if text == "skipped" then conclusion.Skipped?
    else if text == "action_required" then conclusion.ActionRequired?
    else if text == "stale" then conclusion.Stale?
    else if text == "startup_failure" then conclusion.StartupFailure?
    else conclusion.Unknown?
  }

  ghost predicate AppRead(data: ReadSet, name: string, app: Option<int>) {
    forall x :: app == Some(x) <==> AsksFor(data, name, x)
  }

  /** The snapshot of a reported check, or of a required one nobody has reported. */
  ghost predicate Shows(data: ReadSet, policy: Policy, checks: seq<CheckRecord>, snap: CheckSnapshot) {
    && AppRead(data, snap.name, snap.requiredAppId)
    && (if HasRecord(checks, snap.name) then
          exists rec | rec in checks ::
            && snap.name == rec.name && snap.appId == rec.appId && StatusRead(rec.status, snap.status)
            && (snap.required <==> Needed(data, policy, snap.name)) && (rec.conclusion.None? <==> snap.conclusion.None?)
            && (rec.conclusion.Some? && snap.conclusion.Some? ==> ConclusionRead(rec.conclusion.value, snap.conclusion.value))
        else
          Needed(data, policy, snap.name) && snap.required && snap.appId == None && snap.status.Unknown? && snap.conclusion == None)
  }

  lemma StatusReadIs(text: string, status: CheckStatus)
    ensures StatusRead(text, status) <==> status == ToStatus(text)
  {
  }

  lemma ConclusionReadIs(text: string)
    ensures ConclusionRead(text, ToConclusion(text))
  {
  }

  lemma OneConclusion(text: string, a: CheckConclusion, b: CheckConclusion)
    requires ConclusionRead(text, a) && ConclusionRead(text, b)
    ensures a == b
  {
  }

  lemma AppReadIs(data: ReadSet, name: string, app: Option<int>)
    ensures AppRead(data, name, app) <==> app == RequiredAppId(data, name)
  {
    hide RequiredAppId, AsksFor;
    forall x
      ensures RequiredAppId(data, name) == Some(x) <==> AsksFor(data, name, x)
    {
      RequiredAppIs(data, name, x);
    }
    if AppRead(data, name, app) {
      assert RequiredAppId(data, name).Some? ==> AsksFor(data, name, RequiredAppId(data, name).value);
      assert app.Some? ==> AsksFor(data, name, app.value);
    }
  }

  lemma ShowsIs(data: ReadSet, policy: Policy, checks: seq<CheckRecord>, snap: CheckSnapshot)
    ensures Shows(data, policy, checks, snap) <==> IsSnapshot(data, policy, checks, snap)
  {
    hide AppRead, StatusRead, ConclusionRead, RequiredAppId, RequiredNames, ToStatus, ToConclusion, Needed;
    AppReadIs(data, snap.name, snap.requiredAppId);
    NeededIs(data, policy, snap.name);
    forall rec | rec in checks && rec.name == snap.name
      ensures snap == SnapshotOf(data, policy, rec) <==>
                && snap.appId == rec.appId && StatusRead(rec.status, snap.status)
                && snap.requiredAppId == RequiredAppId(data, snap.name)
                && (snap.required <==> snap.name in RequiredNames(data, policy)) && (rec.conclusion.None? <==> snap.conclusion.None?)
                && (rec.conclusion.Some? && snap.conclusion.Some? ==> ConclusionRead(rec.conclusion.value, snap.conclusion.value))
    {
      StatusReadIs(rec.status, snap.status);
      if rec.conclusion.Some? && snap.conclusion.Some? {
        ConclusionReadIs(rec.conclusion.value);
        if ConclusionRead(rec.conclusion.value, snap.conclusion.value) {
          OneConclusion(rec.conclusion.value, snap.conclusion.value, ToConclusion(rec.conclusion.value));
        }
      }
    }
    if check :| check in checks && snap == SnapshotOf(data, policy, check) {
      assert check.name == snap.name && HasRecord(checks, snap.name);
    }
  }

  lemma ReconciledSnapshots(data: ReadSet, policy: Policy, r: Reconciled, snap: CheckSnapshot)
    requires IsReconciled(data, policy, r)
    ensures snap in r.readiness.requiredChecks <==> Shows(data, policy, r.checks, snap)
  {
    hide IsLatest, AreChecks, AreFeedback, AreFields, SnapshotLess, IsSnapshot, Shows;
    ShowsIs(data, policy, r.checks, snap);
  }

  /** The other fields. */
  ghost predicate FieldsRead(data: ReadSet, input: ReadinessInput) {
    var approvals := |CurrentApprovers(data)|;
    && input.mergeable == data.mergeable && input.isDraft == data.draft
    && (input.branchIsCurrent <==> data.baseSha == data.baseBranchSha)
    && (input.approved <==> approvals > 0) && input.approvalCount == approvals
    && input.requiredApprovalCount == ApprovalsNeeded(data)
    && (input.staleApprovalPresent <==> ApprovedEarlier(data))
    && (input.lastPushApprovalRequired <==> AfterLastPush(data)) && (input.latestPushApproval <==> approvals > 0)
    && (input.codeOwnerReviewRequired <==>
          data.reviewRequirements.Some? && data.reviewRequirements.value.requireCodeOwnerReviews)
    && (!input.codeOwnerReviewSatisfied <==> OwnersAwaited(data))
  }

  lemma ReconciledFields(data: ReadSet, policy: Policy, r: Reconciled)
    requires UniqueReviews(data.reviews) && IsReconciled(data, policy, r)
    ensures FieldsRead(data, r.readiness)
  {
    hide UniqueReviews, IsLatest, Approvers, CurrentApprovers, ApprovedEarlier, SomeStale, PushApproved, Unresolved;
    hide AreSnapshots, AreChecks, AreFeedback;
    var latest :| IsLatest(data.reviews, latest) && Describes(data, policy, latest, r);
    ApproversAreCurrent(data, latest);
    if PushApproved(latest, data.headSha) {
      PushApprovalCounts(latest, data.headSha);
    }
  }

  /** The feedback still to be looked at: one snapshot for each record that is not resolved, in the order of the records. */
  lemma {:induction false} UnresolvedAre(records: seq<FeedbackRecord>, snap: FeedbackSnapshot)
    ensures snap in Unresolved(records) <==>
              exists rec :: rec in records && !rec.resolved
                         && snap == FeedbackSnapshot(rec.id, rec.actorLogin, rec.actorType, rec.body, false, rec.isAutomation)
  {
    if records != [] {
      var front, last := records[..|records| - 1], records[|records| - 1];
      UnresolvedAre(front, snap);
      assert forall rec :: rec in records <==> rec in front || rec == last;
    }
  }

  lemma ReconciledUnresolved(data: ReadSet, policy: Policy, r: Reconciled, snap: FeedbackSnapshot)
    requires IsReconciled(data, policy, r)
    ensures snap in r.readiness.unresolvedFeedback <==>
              exists rec :: rec in r.feedback && !rec.resolved
                         && snap == FeedbackSnapshot(rec.id, rec.actorLogin, rec.actorType, rec.body, false, rec.isAutomation)
  {
    hide IsLatest, AreSnapshots, AreChecks, AreFeedback, Unresolved, Approvers, SomeStale, PushApproved;
    UnresolvedAre(r.feedback, snap);
  }

  /** Every list is in the order of names or ids, and says nothing twice. */
  lemma ReconciledOrder(data: ReadSet, policy: Policy, r: Reconciled)
    requires IsReconciled(data, policy, r)
    ensures forall i, j | 0 <= i < j < |r.checks| :: StringLess(r.checks[i].name, r.checks[j].name)
    ensures forall i, j | 0 <= i < j < |r.feedback| :: StringLess(r.feedback[i].id, r.feedback[j].id)
    ensures forall i, j | 0 <= i < j < |r.readiness.requiredChecks| ::
              StringLess(r.readiness.requiredChecks[i].name, r.readiness.requiredChecks[j].name)
    ensures forall i, j | 0 <= i < j < |r.readiness.unresolvedFeedback| ::
              StringLess(r.readiness.unresolvedFeedback[i].id, r.readiness.unresolvedFeedback[j].id)
  {
    hide IsLatest, IsCheck, IsSnapshot, IsFeedback, Approvers, SomeStale, PushApproved, Unresolved, StringLess;
    UnresolvedInOrder(r.feedback);
  }

  lemma {:induction false} UnresolvedInOrder(records: seq<FeedbackRecord>)
    requires forall i, j | 0 <= i < j < |records| :: StringLess(records[i].id, records[j].id)
    ensures forall i, j | 0 <= i < j < |Unresolved(records)| :: StringLess(Unresolved(records)[i].id, Unresolved(records)[j].id)
  {
    hide StringLess;
    if records != [] {
      var front, last := records[..|records| - 1], records[|records| - 1];
      UnresolvedInOrder(front);
      forall i | 0 <= i < |Unresolved(front)|
        ensures StringLess(Unresolved(front)[i].id, last.id)
      {
        UnresolvedIds(front, Unresolved(front)[i]);
        var rec :| rec in front && rec.id == Unresolved(front)[i].id;
        assert last == records[|records| - 1];
      }
    }
  }
}
