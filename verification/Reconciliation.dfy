/** The reconciled read set: checks against requirements, feedback, approvals (src/reconcile.rs). */
module Reconciliation {
  import opened Basics
  import opened Ordering
  import opened Sorting
  import opened Text
  import opened Readiness
  import opened Reconcile

  // Required checks.

  function RequiredNames(data: ReadSet, policy: Policy): set<string> {
    (set name | name in policy.requiredChecks)
    + if data.statusRequirements.None? then {}
      else
        (set name | name in data.statusRequirements.value.contexts)
        + set check | check in data.statusRequirements.value.checks :: check.context
  }

  /** The application the first requirement of this name asks for. */
  function FirstAppId(checks: seq<RequiredCheck>, name: string): Option<int> {
    if checks == [] then None
    else if checks[0].context == name then checks[0].appId
    else FirstAppId(checks[1..], name)
  }

  function RequiredAppId(data: ReadSet, name: string): Option<int> {
    if data.statusRequirements.None? then None else FirstAppId(data.statusRequirements.value.checks, name)
  }

  function ToStatus(status: string): CheckStatus {
    match status
    case "queued" => Queued
    case "pending" => Queued
    case "requested" => Queued
    case "waiting" => Queued
    case "in_progress" => InProgress
    case "completed" => Completed
    case _ => CheckStatus.Unknown
  }

  function ToConclusion(conclusion: string): CheckConclusion {
    match conclusion
    case "success" => CheckConclusion.Success
    case "failure" => CheckConclusion.Failure
    case "cancelled" => Cancelled
    case "timed_out" => TimedOut
    case "neutral" => Neutral
    case "skipped" => Skipped
    case "action_required" => ActionRequired
    case "stale" => Stale
    case "startup_failure" => StartupFailure
    case _ => CheckConclusion.Unknown
  }

  function SnapshotOf(data: ReadSet, policy: Policy, check: CheckRecord): (r: CheckSnapshot)
    ensures r.name == check.name
  {
    CheckSnapshot(check.name, check.appId, RequiredAppId(data, check.name), ToStatus(check.status),
                  if check.conclusion.None? then None else Some(ToConclusion(check.conclusion.value)),
                  check.name in RequiredNames(data, policy))
  }

  /** Stands for a required check nobody has reported. */
  function MissingSnapshot(data: ReadSet, name: string): (r: CheckSnapshot)
    ensures r.name == name
  {
    CheckSnapshot(name, None, RequiredAppId(data, name), CheckStatus.Unknown, None, true)
  }

  ghost predicate IsSnapshot(data: ReadSet, policy: Policy, checks: seq<CheckRecord>, snap: CheckSnapshot) {
    || (exists check :: check in checks && snap == SnapshotOf(data, policy, check))
    || (snap.name in RequiredNames(data, policy) && !HasRecord(checks, snap.name) && snap == MissingSnapshot(data, snap.name))
  }

  predicate SnapshotLess(a: CheckSnapshot, b: CheckSnapshot) {
    StringLess(a.name, b.name)
  }

  /** One snapshot for each reported or required check, in the order of the names. */
  ghost predicate AreSnapshots(data: ReadSet, policy: Policy, checks: seq<CheckRecord>, snaps: seq<CheckSnapshot>) {
    Sorted(SnapshotLess, snaps) && forall snap :: snap in snaps <==> IsSnapshot(data, policy, checks, snap)
  }

  /** The snapshots of some checks, by name. */
  ghost predicate AreOfChecks(data: ReadSet, policy: Policy, checks: seq<CheckRecord>, byName: map<string, CheckSnapshot>) {
    && (forall check | check in checks :: check.name in byName && byName[check.name] == SnapshotOf(data, policy, check))
    && forall name | name in byName :: HasRecord(checks, name)
  }

  /** And of some required names nobody reported. */
  ghost predicate AreWithMissing(
      data: ReadSet, policy: Policy, checks: seq<CheckRecord>, names: seq<string>, byName: map<string, CheckSnapshot>) {
    && (forall check | check in checks :: check.name in byName && byName[check.name] == SnapshotOf(data, policy, check))
    && (forall name | name in names :: name in byName)
    && forall name | name in byName :: HasRecord(checks, name) || (name in names && byName[name] == MissingSnapshot(data, name))
  }

  method ReadinessChecks(data: ReadSet, policy: Policy, checks: seq<CheckRecord>) returns (snaps: seq<CheckSnapshot>)
    requires Sorted(NameLess, checks)
    ensures AreSnapshots(data, policy, checks, snaps)
  {
    hide *;
    var byName := map[];
    NoChecks(data, policy, checks);
    for i := 0 to |checks|
      invariant AreOfChecks(data, policy, checks[..i], byName)
    {
      OneMoreCheck(data, policy, checks, i, byName);
      byName := byName[checks[i].name := SnapshotOf(data, policy, checks[i])];
    }
    var names := AscendStrings(RequiredNames(data, policy));
    NoMissing(data, policy, checks, names, byName);
    for i := 0 to |names|
      invariant AreWithMissing(data, policy, checks, names[..i], byName)
    {
      OneMoreName(data, policy, checks, names, i, byName);
      if names[i] !in byName {
        byName := byName[names[i] := MissingSnapshot(data, names[i])];
      }
    }
    var keys;
    keys, snaps := ListValues(byName);
    SnapshotsOfMap(data, policy, checks, names, byName, keys, snaps);
  }

  lemma NoChecks(data: ReadSet, policy: Policy, checks: seq<CheckRecord>)
    ensures AreOfChecks(data, policy, checks[..0], map[])
  {
  }

  lemma OneMoreCheck(data: ReadSet, policy: Policy, checks: seq<CheckRecord>, i: nat, byName: map<string, CheckSnapshot>)
    requires i < |checks| && Sorted(NameLess, checks) && AreOfChecks(data, policy, checks[..i], byName)
    ensures AreOfChecks(data, policy, checks[..i + 1], byName[checks[i].name := SnapshotOf(data, policy, checks[i])])
  {
    StringLessIsTotal();
    hide StringLess, SnapshotOf, StrictWeak;
    assert forall c :: c in checks[..i + 1] <==> c in checks[..i] || c == checks[i];
    forall c | c in checks[..i]
      ensures c.name != checks[i].name
    {
      assert NameLess(c, checks[i]);
    }
    assert HasRecord(checks[..i + 1], checks[i].name);
    forall name | HasRecord(checks[..i], name)
      ensures HasRecord(checks[..i + 1], name)
    {
    }
  }

  lemma NoMissing(data: ReadSet, policy: Policy, checks: seq<CheckRecord>, names: seq<string>, byName: map<string, CheckSnapshot>)
    requires AreOfChecks(data, policy, checks[..|checks|], byName)
    ensures AreWithMissing(data, policy, checks, names[..0], byName)
  {
    hide HasRecord, SnapshotOf;
    assert checks[..|checks|] == checks;
  }

  lemma OneMoreName(
      data: ReadSet, policy: Policy, checks: seq<CheckRecord>, names: seq<string>, i: nat, byName: map<string, CheckSnapshot>)
    requires i < |names| && AreWithMissing(data, policy, checks, names[..i], byName)
    ensures AreWithMissing(data, policy, checks, names[..i + 1],
                           if names[i] in byName then byName else byName[names[i] := MissingSnapshot(data, names[i])])
  {
    hide HasRecord, SnapshotOf, MissingSnapshot;
    assert forall name :: name in names[..i + 1] <==> name in names[..i] || name == names[i];
  }

  lemma SnapshotsOfMap(
      data: ReadSet, policy: Policy, checks: seq<CheckRecord>, names: seq<string>, byName: map<string, CheckSnapshot>,
      keys: seq<string>, snaps: seq<CheckSnapshot>)
    requires AreWithMissing(data, policy, checks, names[..|names|], byName) && Elements(names) == RequiredNames(data, policy)
    requires IsListing(byName, keys, snaps)
    ensures AreSnapshots(data, policy, checks, snaps)
  {
    hide SnapshotOf, MissingSnapshot, RequiredNames, StringLess;
    assert names[..|names|] == names;
    forall name | name in byName
      ensures byName[name].name == name && IsSnapshot(data, policy, checks, byName[name])
      ensures byName[name] in snaps
    {
      assert name in names <==> name in Elements(names);
      KeyedSnapshot(data, policy, checks, names, byName, name);
      assert name in Elements(keys);
      var i :| 0 <= i < |keys| && keys[i] == name;
      assert snaps[i] == byName[name];
    }
    forall snap | IsSnapshot(data, policy, checks, snap)
      ensures snap in snaps
    {
      assert snap.name in names <==> snap.name in Elements(names);
      SnapshotKeyed(data, policy, checks, names, byName, snap);
    }
  }

  lemma KeyedSnapshot(
      data: ReadSet, policy: Policy, checks: seq<CheckRecord>, names: seq<string>, byName: map<string, CheckSnapshot>, name: string)
    requires AreWithMissing(data, policy, checks, names, byName) && name in byName
    requires name in names ==> name in RequiredNames(data, policy)
    ensures byName[name].name == name && IsSnapshot(data, policy, checks, byName[name])
  {
    hide SnapshotOf, MissingSnapshot, RequiredNames;
    if HasRecord(checks, name) {
      var check :| check in checks && check.name == name;
      assert byName[name] == SnapshotOf(data, policy, check);
    }
  }

  lemma SnapshotKeyed(
      data: ReadSet, policy: Policy, checks: seq<CheckRecord>, names: seq<string>, byName: map<string, CheckSnapshot>, snap: CheckSnapshot)
    requires AreWithMissing(data, policy, checks, names, byName) && IsSnapshot(data, policy, checks, snap)
    requires snap.name in RequiredNames(data, policy) ==> snap.name in names
    ensures snap.name in byName && byName[snap.name] == snap
  {
    hide SnapshotOf, MissingSnapshot, RequiredNames;
  }

  // Feedback.

  function NonemptyBody(body: Option<string>): Option<string> {
    if body.None? || Trim(body.value) == "" then None else Some(Trim(body.value))
  }

  predicate IsAutomation(login: string, actorType: string, policy: Policy) {
    actorType == "Bot" || policy.IsAutomationActor(login)
  }

  predicate Settles(state: string) {
    state in {"APPROVED", "DISMISSED"}
  }

  function ReviewId(id: int): string {
    "review:" + IntText(id)
  }

  function ReviewRecord(r: Review, body: string, latest: map<string, Review>, policy: Policy): FeedbackRecord {
    FeedbackRecord(ReviewId(r.id), r.login, r.actorType, body,
                   Settles(r.state) || (r.login in latest && Settles(latest[r.login].state)),
                   IsAutomation(r.login, r.actorType, policy), None, None, None)
  }

  function CommentId(prefix: string, id: int): string {
    prefix + ":" + IntText(id)
  }

  function CommentRecord(prefix: string, c: Comment, body: string, policy: Policy): FeedbackRecord {
    FeedbackRecord(CommentId(prefix, c.id), c.login, c.actorType, body, false,
                   IsAutomation(c.login, c.actorType, policy), c.path, c.startLine, c.line)
  }

  ghost predicate IsReviewRecord(reviews: seq<Review>, latest: map<string, Review>, policy: Policy, rec: FeedbackRecord) {
    exists r :: r in reviews && NonemptyBody(r.body).Some? && rec == ReviewRecord(r, NonemptyBody(r.body).value, latest, policy)
  }

  ghost predicate IsCommentRecord(prefix: string, comments: seq<Comment>, policy: Policy, rec: FeedbackRecord) {
    exists c :: c in comments && NonemptyBody(c.body).Some? && rec == CommentRecord(prefix, c, NonemptyBody(c.body).value, policy)
  }

  ghost predicate IsFeedback(data: ReadSet, latest: map<string, Review>, policy: Policy, rec: FeedbackRecord) {
    || IsReviewRecord(data.reviews, latest, policy, rec)
    || IsCommentRecord("issue-comment", data.issueComments, policy, rec)
    || IsCommentRecord("review-comment", data.reviewComments, policy, rec)
  }

  predicate RecordLess(a: FeedbackRecord, b: FeedbackRecord) {
    StringLess(a.id, b.id)
  }

  ghost predicate HasId(feedback: seq<FeedbackRecord>, id: string) {
    exists rec :: rec in feedback && rec.id == id
  }

  /** Records of what was said, one for each id, in the order of the ids. */
  ghost predicate AreFeedback(data: ReadSet, latest: map<string, Review>, policy: Policy, feedback: seq<FeedbackRecord>) {
    && Sorted(RecordLess, feedback)
    && (forall rec | rec in feedback :: IsFeedback(data, latest, policy, rec))
    && forall rec | IsFeedback(data, latest, policy, rec) :: HasId(feedback, rec.id)
  }

  function CommentRecords(prefix: string, comments: seq<Comment>, policy: Policy): seq<FeedbackRecord> {
    if comments == [] then []
    else
      var c := comments[|comments| - 1];
      var body := NonemptyBody(c.body);
      CommentRecords(prefix, comments[..|comments| - 1], policy)
      + if body.None? then [] else [CommentRecord(prefix, c, body.value, policy)]
  }

  lemma {:induction false} CommentRecordsMeaning(prefix: string, comments: seq<Comment>, policy: Policy, rec: FeedbackRecord)
    ensures rec in CommentRecords(prefix, comments, policy) <==> IsCommentRecord(prefix, comments, policy, rec)
  {
    hide NonemptyBody, CommentRecord;
    if comments != [] {
      var front, c := comments[..|comments| - 1], comments[|comments| - 1];
      CommentRecordsMeaning(prefix, front, policy, rec);
      assert forall x :: x in comments <==> x in front || x == c;
    }
  }

  method FeedbackRecords(data: ReadSet, latest: map<string, Review>, policy: Policy) returns (feedback: seq<FeedbackRecord>)
    ensures AreFeedback(data, latest, policy, feedback)
  {
    hide *;
    var records := ReviewRecords(data.reviews, latest, policy);
    records := records + CommentRecords("issue-comment", data.issueComments, policy)
            + CommentRecords("review-comment", data.reviewComments, policy);
    AllRecords(data, latest, policy, records);
    feedback := Dedup(RecordLess, StableSort(RecordLess, records));
    SortedRecords(data, latest, policy, records);
  }

  ghost predicate AreReviewRecords(reviews: seq<Review>, latest: map<string, Review>, policy: Policy, records: seq<FeedbackRecord>) {
    forall rec :: rec in records <==> IsReviewRecord(reviews, latest, policy, rec)
  }

  method ReviewRecords(reviews: seq<Review>, latest: map<string, Review>, policy: Policy) returns (records: seq<FeedbackRecord>)
    ensures AreReviewRecords(reviews, latest, policy, records)
  {
    hide *;
    records := [];
    NoReviewRecords(reviews, latest, policy);
    for i := 0 to |reviews|
      invariant AreReviewRecords(reviews[..i], latest, policy, records)
    {
      OneMoreReviewRecord(reviews, latest, policy, i, records);
      var body := NonemptyBody(reviews[i].body);
      if body.None? {
        continue;
      }
      records := records + [ReviewRecord(reviews[i], body.value, latest, policy)];
    }
    assert reviews[..|reviews|] == reviews;
  }

  lemma NoReviewRecords(reviews: seq<Review>, latest: map<string, Review>, policy: Policy)
    ensures AreReviewRecords(reviews[..0], latest, policy, [])
  {
  }

  lemma OneMoreReviewRecord(
      reviews: seq<Review>, latest: map<string, Review>, policy: Policy, i: nat, records: seq<FeedbackRecord>)
    requires i < |reviews| && AreReviewRecords(reviews[..i], latest, policy, records)
    ensures var body := NonemptyBody(reviews[i].body);
            AreReviewRecords(reviews[..i + 1], latest, policy,
                             if body.None? then records else records + [ReviewRecord(reviews[i], body.value, latest, policy)])
  {
    hide NonemptyBody, ReviewRecord;
    assert forall x :: x in reviews[..i + 1] <==> x in reviews[..i] || x == reviews[i];
    forall rec
      ensures IsReviewRecord(reviews[..i + 1], latest, policy, rec) <==>
                IsReviewRecord(reviews[..i], latest, policy, rec)
                || (NonemptyBody(reviews[i].body).Some? && rec == ReviewRecord(reviews[i], NonemptyBody(reviews[i].body).value, latest, policy))
    {
    }
  }

  ghost predicate AreAllRecords(data: ReadSet, latest: map<string, Review>, policy: Policy, records: seq<FeedbackRecord>) {
    forall rec :: rec in records <==> IsFeedback(data, latest, policy, rec)
  }

  lemma AllRecords(data: ReadSet, latest: map<string, Review>, policy: Policy, records: seq<FeedbackRecord>)
    requires exists ofReviews :: AreReviewRecords(data.reviews, latest, policy, ofReviews)
               && records == ofReviews + CommentRecords("issue-comment", data.issueComments, policy)
                             + CommentRecords("review-comment", data.reviewComments, policy)
    ensures AreAllRecords(data, latest, policy, records)
  {
    hide CommentRecords, IsCommentRecord, IsReviewRecord;
    forall rec
      ensures rec in CommentRecords("issue-comment", data.issueComments, policy)
              <==> IsCommentRecord("issue-comment", data.issueComments, policy, rec)
      ensures rec in CommentRecords("review-comment", data.reviewComments, policy)
              <==> IsCommentRecord("review-comment", data.reviewComments, policy, rec)
    {
      CommentRecordsMeaning("issue-comment", data.issueComments, policy, rec);
      CommentRecordsMeaning("review-comment", data.reviewComments, policy, rec);
    }
  }

  lemma RecordLessIsOrder()
    ensures StrictWeak(RecordLess) && StrictOrder(RecordLess)
  {
    StringLessIsTotal();
    hide StringLess;
  }

  lemma SortedRecords(data: ReadSet, latest: map<string, Review>, policy: Policy, records: seq<FeedbackRecord>)
    requires AreAllRecords(data, latest, policy, records)
    ensures AreFeedback(data, latest, policy, Dedup(RecordLess, StableSort(RecordLess, records)))
  {
    hide IsFeedback, StableSort, Dedup, StringLess, StrictWeak, StrictOrder, InOrder;
    var sorted := StableSort(RecordLess, records);
    var feedback := Dedup(RecordLess, sorted);
    RecordLessIsOrder();
    StableSortSorts(RecordLess, records);
    DedupSorted(RecordLess, sorted);
    forall rec
      ensures rec in feedback ==> rec in records
      ensures rec in records ==> HasId(feedback, rec.id)
    {
      assert rec in feedback ==> rec in Elements(feedback);
      assert rec in records <==> rec in Elements(records);
      assert rec in sorted <==> rec in Elements(sorted);
      if rec in records {
        DedupKeepsPlaces(RecordLess, sorted, rec);
        var y :| y in feedback && !RecordLess(rec, y) && !RecordLess(y, rec);
        SameId(rec, y);
      }
    }
  }

  lemma SameId(a: FeedbackRecord, b: FeedbackRecord)
    requires !RecordLess(a, b) && !RecordLess(b, a)
    ensures a.id == b.id
  {
    StringLessIsTotal();
  }

  // The whole read set.

  function Unresolved(records: seq<FeedbackRecord>): seq<FeedbackSnapshot> {
    if records == [] then []
    else
      var rec := records[|records| - 1];
      Unresolved(records[..|records| - 1])
      + if rec.resolved then []
        else [FeedbackSnapshot(rec.id, rec.actorLogin, rec.actorType, rec.body, rec.resolved, rec.isAutomation)]
  }

  function Requirements(data: ReadSet): ReviewRequirements {
    if data.reviewRequirements.None? then ReviewRequirements(false, 0, false) else data.reviewRequirements.value
  }

  predicate CodeOwnersSatisfied(data: ReadSet) {
    || !Requirements(data).requireCodeOwnerReviews
    || (data.mergeableState.Some? && data.mergeableState.value !in {"blocked", "unknown"})
  }

  predicate PushApproved(latest: map<string, Review>, head: string) {
    exists login | login in latest :: latest[login].state == "APPROVED" && latest[login].commitId == Some(head)
  }

  /** Everything but the three lists. */
  ghost predicate AreFields(data: ReadSet, latest: map<string, Review>, feedback: seq<FeedbackRecord>, input: ReadinessInput) {
    var approvals := |Approvers(latest, data.headSha)|;
    && input.mergeable == data.mergeable
    && input.branchIsCurrent == (data.baseSha == data.baseBranchSha)
    && input.approved == (approvals > 0)
    && input.approvalCount == approvals
    && input.requiredApprovalCount == Requirements(data).requiredApprovingReviewCount
    && input.staleApprovalPresent == SomeStale(latest, data.headSha)
    && input.lastPushApprovalRequired == Requirements(data).requireLastPushApproval
    && input.latestPushApproval == (PushApproved(latest, data.headSha) || approvals > 0)
    && input.codeOwnerReviewRequired == Requirements(data).requireCodeOwnerReviews
    && input.codeOwnerReviewSatisfied == CodeOwnersSatisfied(data)
    && input.unresolvedFeedback == Unresolved(feedback)
    && input.isDraft == data.draft
  }

  ghost predicate Describes(data: ReadSet, policy: Policy, latest: map<string, Review>, r: Reconciled) {
    && AreChecks(data.statuses, data.checkRuns, r.checks)
    && AreFeedback(data, latest, policy, r.feedback)
    && AreSnapshots(data, policy, r.checks, r.readiness.requiredChecks)
    && AreFields(data, latest, r.feedback, r.readiness)
  }

  /** What a read set amounts to. */
  ghost predicate IsReconciled(data: ReadSet, policy: Policy, r: Reconciled) {
    exists latest :: IsLatest(data.reviews, latest) && Describes(data, policy, latest, r)
  }

  method ReconcileReadSet(data: ReadSet, policy: Policy) returns (r: Reconciled)
    ensures IsReconciled(data, policy, r)
  {
    hide StrictWeak, StrictTotal, IsLatest, AreFeedback, AreSnapshots, Approvers, SomeStale, RequiredNames;
    var latest := LatestReviews(data.reviews);
    var feedback := FeedbackRecords(data, latest, policy);
    var checks := CheckRecords(data.statuses, data.checkRuns);
    var snaps := ReadinessChecks(data, policy, checks);
    hide AreChecks;
    var count, stale := CurrentApprovals(latest, data.headSha);
    var requirements := Requirements(data);
    var readiness := ReadinessInput(
      data.mergeable, data.baseSha == data.baseBranchSha, snaps, count > 0, count,
      requirements.requiredApprovingReviewCount, stale, requirements.requireLastPushApproval,
      PushApproved(latest, data.headSha) || count > 0,
      requirements.requireCodeOwnerReviews, CodeOwnersSatisfied(data), Unresolved(feedback), data.draft);
    r := Reconciled(readiness, feedback, checks);
    assert Describes(data, policy, latest, r);
  }
}
