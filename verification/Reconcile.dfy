/** Folding what was read about a pull request into one readiness input (src/reconcile.rs). */
module Reconcile {
  import opened Basics
  import opened Ordering
  import opened Sorting
  import opened Text
  import opened Readiness

  datatype Review = Review(
    id: int, body: Option<string>, state: string, submittedAt: Option<string>, commitId: Option<string>,
    login: string, actorType: string)

  datatype Comment = Comment(
    id: int, body: Option<string>, login: string, actorType: string,
    path: Option<string>, startLine: Option<nat>, line: Option<nat>)

  datatype CommitStatus = CommitStatus(id: int, context: string, state: string, targetUrl: Option<string>)

  datatype CheckRun = CheckRun(
    id: int, name: string, status: string, conclusion: Option<string>, detailsUrl: Option<string>, appId: Option<int>)

  datatype ReviewRequirements = ReviewRequirements(
    requireCodeOwnerReviews: bool, requiredApprovingReviewCount: nat, requireLastPushApproval: bool)

  datatype RequiredCheck = RequiredCheck(context: string, appId: Option<int>)

  datatype StatusRequirements = StatusRequirements(contexts: seq<string>, checks: seq<RequiredCheck>)

  datatype ReadSet = ReadSet(
    draft: bool, mergeable: Option<bool>, mergeableState: Option<string>,
    headSha: string, baseSha: string, baseBranchSha: string,
    reviewRequirements: Option<ReviewRequirements>, statusRequirements: Option<StatusRequirements>,
    reviews: seq<Review>, issueComments: seq<Comment>, reviewComments: seq<Comment>,
    checkRuns: seq<CheckRun>, statuses: seq<CommitStatus>)

  datatype CheckRecord = CheckRecord(
    externalId: string, name: string, appId: Option<int>, status: string, conclusion: Option<string>,
    detailsUrl: Option<string>)

  datatype FeedbackRecord = FeedbackRecord(
    id: string, actorLogin: string, actorType: string, body: string, resolved: bool, isAutomation: bool,
    path: Option<string>, startLine: Option<nat>, line: Option<nat>)

  datatype Reconciled = Reconciled(readiness: ReadinessInput, feedback: seq<FeedbackRecord>, checks: seq<CheckRecord>)

  // The latest deciding review of each user.

  predicate Deciding(r: Review) {
    r.state in {"APPROVED", "CHANGES_REQUESTED", "DISMISSED"}
  }

  predicate TimeLess(a: Option<string>, b: Option<string>) {
    b.Some? && (a.None? || StringLess(a.value, b.value))
  }

  predicate ReviewLess(a: Review, b: Review) {
    TimeLess(a.submittedAt, b.submittedAt) || (a.submittedAt == b.submittedAt && a.id < b.id)
  }

  lemma ReviewLessIsOrder()
    ensures StrictWeak(ReviewLess)
  {
    StringLessIsTotal();
    hide StringLess;
  }

  /** Of the deciding reviews of this user, none comes after r. */
  ghost predicate IsLatestOf(reviews: seq<Review>, login: string, r: Review) {
    && r in reviews && Deciding(r) && r.login == login
    && forall other | other in reviews && Deciding(other) && other.login == login :: !ReviewLess(r, other)
  }

  ghost predicate IsLatest(reviews: seq<Review>, latest: map<string, Review>) {
    && (forall login | login in latest :: IsLatestOf(reviews, login, latest[login]))
    && forall r | r in reviews && Deciding(r) :: r.login in latest
  }

  method LatestReviews(reviews: seq<Review>) returns (latest: map<string, Review>)
    ensures IsLatest(reviews, latest)
  {
    hide *;
    var ordered := StableSort(ReviewLess, reviews);
    ReviewLessIsOrder();
    StableSortSorts(ReviewLess, reviews);
    latest := map[];
    NoReviews();
    for i := 0 to |ordered|
      invariant IsLatest(ordered[..i], latest)
    {
      OneMoreReview(ordered, i, latest);
      if Deciding(ordered[i]) {
        latest := latest[ordered[i].login := ordered[i]];
      }
    }
    assert ordered[..|ordered|] == ordered;
    SameReviews(ordered, reviews, latest);
  }

  lemma NoReviews()
    ensures forall none: seq<Review> | |none| == 0 :: IsLatest(none, map[])
  {
  }

  lemma OneMoreReview(ordered: seq<Review>, i: nat, latest: map<string, Review>)
    requires i < |ordered| && InOrder(ReviewLess, ordered) && IsLatest(ordered[..i], latest)
    ensures IsLatest(ordered[..i + 1], if Deciding(ordered[i]) then latest[ordered[i].login := ordered[i]] else latest)
  {
    ReviewLessIsOrder();
    hide Deciding, ReviewLess;
    var front, r := ordered[..i], ordered[i];
    var after := if Deciding(r) then latest[r.login := r] else latest;
    assert forall other :: other in ordered[..i + 1] <==> other in front || other == r;
    assert forall other | other in front :: !ReviewLess(r, other);
    forall login | login in after
      ensures IsLatestOf(ordered[..i + 1], login, after[login])
    {
      if login in latest {
        assert IsLatestOf(front, login, latest[login]);
      }
    }
  }

  lemma SameReviews(a: seq<Review>, b: seq<Review>, latest: map<string, Review>)
    requires Elements(a) == Elements(b) && IsLatest(a, latest)
    ensures IsLatest(b, latest)
  {
    hide Deciding, ReviewLess;
    forall r
      ensures r in a <==> r in b
    {
      assert r in a <==> r in Elements(a);
      assert r in b <==> r in Elements(b);
    }
    forall login | login in latest
      ensures IsLatestOf(b, login, latest[login])
    {
      assert IsLatestOf(a, login, latest[login]);
    }
  }

  // Approvals.

  ghost predicate Approves(r: Review, head: string) {
    r.state == "APPROVED" && (r.commitId.None? || r.commitId.value == head)
  }

  ghost predicate ApprovedBefore(r: Review, head: string) {
    r.state == "APPROVED" && r.commitId.Some? && r.commitId.value != head
  }

  /** The users whose latest decision approves this head. */
  ghost function Approvers(latest: map<string, Review>, head: string): set<string> {
    set login | login in latest && Approves(latest[login], head)
  }

  ghost predicate SomeStale(latest: map<string, Review>, head: string) {
    exists login :: login in latest && ApprovedBefore(latest[login], head)
  }

  ghost function ApproversAmong(latest: map<string, Review>, head: string, logins: seq<string>): set<string> {
    set login | login in logins && login in latest && Approves(latest[login], head)
  }

  ghost predicate StaleAmong(latest: map<string, Review>, head: string, logins: seq<string>) {
    exists login :: login in logins && login in latest && ApprovedBefore(latest[login], head)
  }

  method CurrentApprovals(latest: map<string, Review>, head: string) returns (count: nat, stale: bool)
    ensures count == |Approvers(latest, head)|
    ensures stale <==> SomeStale(latest, head)
  {
    hide ApproversAmong, StaleAmong, Approvers, SomeStale, Approves, ApprovedBefore, Sorted, StrictTotal;
    var logins := AscendStrings(latest.Keys);
    count, stale := 0, false;
    NoLogins(latest, head, logins);
    for i := 0 to |logins|
      invariant count == |ApproversAmong(latest, head, logins[..i])|
      invariant stale <==> StaleAmong(latest, head, logins[..i])
    {
      OneMoreLogin(latest, head, logins, i);
      var review := latest[logins[i]];
      ApprovalCases(review, head);
      if review.state != "APPROVED" {
        continue;
      }
      match review.commitId {
        case None => count := count + 1;
        case Some(commit) =>
          if commit == head {
            count := count + 1;
          } else {
            stale := true;
          }
      }
    }
    AllLogins(latest, head, logins);
  }

  lemma ApprovalCases(r: Review, head: string)
    ensures Approves(r, head) <==> r.state == "APPROVED" && (r.commitId.None? || r.commitId.value == head)
    ensures ApprovedBefore(r, head) <==> r.state == "APPROVED" && r.commitId.Some? && r.commitId.value != head
  {
  }

  lemma NoLogins(latest: map<string, Review>, head: string, logins: seq<string>)
    ensures |ApproversAmong(latest, head, logins[..0])| == 0 && !StaleAmong(latest, head, logins[..0])
  {
  }

  lemma OneMoreLogin(latest: map<string, Review>, head: string, logins: seq<string>, i: nat)
    requires i < |logins| && Sorted(StringLess, logins) && Elements(logins) == latest.Keys
    ensures logins[i] in latest
    ensures var before, after := logins[..i], logins[..i + 1];
            && (StaleAmong(latest, head, after) <==> StaleAmong(latest, head, before) || ApprovedBefore(latest[logins[i]], head))
            && |ApproversAmong(latest, head, after)|
               == |ApproversAmong(latest, head, before)| + if Approves(latest[logins[i]], head) then 1 else 0
  {
    hide Approves, ApprovedBefore, Sorted;
    NewLogin(latest.Keys, logins, i);
    assert ApproversAmong(latest, head, logins[..i + 1])
        == ApproversAmong(latest, head, logins[..i]) + if Approves(latest[logins[i]], head) then {logins[i]} else {};
  }

  lemma NewLogin(known: set<string>, logins: seq<string>, i: nat)
    requires i < |logins| && Sorted(StringLess, logins) && Elements(logins) == known
    ensures logins[i] in known && logins[i] !in logins[..i]
    ensures forall x :: x in logins[..i + 1] <==> x in logins[..i] || x == logins[i]
  {
    StringLessIsTotal();
    hide StringLess;
    assert logins[i] in Elements(logins);
  }

  lemma AllLogins(latest: map<string, Review>, head: string, logins: seq<string>)
    requires Elements(logins) == latest.Keys
    ensures ApproversAmong(latest, head, logins[..|logins|]) == Approvers(latest, head)
    ensures StaleAmong(latest, head, logins[..|logins|]) <==> SomeStale(latest, head)
  {
    hide Approves, ApprovedBefore;
    assert logins[..|logins|] == logins;
    assert forall login :: login in latest <==> login in Elements(logins);
  }

  method AscendStrings(s: set<string>) returns (r: seq<string>)
    ensures Sorted(StringLess, r) && Elements(r) == s
  {
    StringLessIsTotal();
    r := Ascend(StringLess, s);
  }

  // Checks: runs over statuses, and of each the greatest id.

  function StatusState(state: string): (string, Option<string>) {
    match state
    case "success" => ("completed", Some("success"))
    case "failure" => ("completed", Some("failure"))
    case "error" => ("completed", Some("failure"))
    case "pending" => ("in_progress", None)
    case _ => ("unknown", None)
  }

  function StatusRecord(s: CommitStatus): (r: CheckRecord)
    ensures r.name == s.context
  {
    CheckRecord("status:" + IntText(s.id), s.context, None, StatusState(s.state).0, StatusState(s.state).1, s.targetUrl)
  }

  function RunRecord(run: CheckRun): (r: CheckRecord)
    ensures r.name == run.name
  {
    CheckRecord(IntText(run.id), run.name, run.appId, run.status, run.conclusion, run.detailsUrl)
  }

  predicate StatusLess(a: CommitStatus, b: CommitStatus) {
    a.id < b.id
  }

  predicate RunLess(a: CheckRun, b: CheckRun) {
    a.id < b.id
  }

  ghost predicate GreatestStatus(statuses: seq<CommitStatus>, s: CommitStatus) {
    s in statuses && forall other | other in statuses && other.context == s.context :: other.id <= s.id
  }

  ghost predicate GreatestRun(runs: seq<CheckRun>, run: CheckRun) {
    run in runs && forall other | other in runs && other.name == run.name :: other.id <= run.id
  }

  ghost predicate IsStatusCheck(statuses: seq<CommitStatus>, rec: CheckRecord) {
    exists s :: GreatestStatus(statuses, s) && rec == StatusRecord(s)
  }

  ghost predicate IsRunCheck(runs: seq<CheckRun>, rec: CheckRecord) {
    exists run :: GreatestRun(runs, run) && rec == RunRecord(run)
  }

  ghost predicate RunNamed(runs: seq<CheckRun>, name: string) {
    exists run :: run in runs && run.name == name
  }

  ghost predicate StatusNamed(statuses: seq<CommitStatus>, name: string) {
    exists s :: s in statuses && s.context == name
  }

  /** A record of the greatest run of its name, or without a run of the greatest status. */
  ghost predicate IsCheck(statuses: seq<CommitStatus>, runs: seq<CheckRun>, rec: CheckRecord) {
    IsRunCheck(runs, rec) || (!RunNamed(runs, rec.name) && IsStatusCheck(statuses, rec))
  }

  ghost predicate IsNamedCheck(statuses: seq<CommitStatus>, runs: seq<CheckRun>, name: string, rec: CheckRecord) {
    rec.name == name && IsCheck(statuses, runs, rec)
  }

  ghost predicate AreNamedChecks(statuses: seq<CommitStatus>, runs: seq<CheckRun>, byName: map<string, CheckRecord>) {
    && (forall name | name in byName :: IsNamedCheck(statuses, runs, name, byName[name]))
    && forall name :: name in byName <==> StatusNamed(statuses, name) || RunNamed(runs, name)
  }

  predicate NameLess(a: CheckRecord, b: CheckRecord) {
    StringLess(a.name, b.name)
  }

  /** The checks, one for each name, in the order of the names. */
  ghost predicate AreChecks(statuses: seq<CommitStatus>, runs: seq<CheckRun>, checks: seq<CheckRecord>) {
    && Sorted(NameLess, checks)
    && (forall rec | rec in checks :: IsCheck(statuses, runs, rec))
    && forall name :: HasRecord(checks, name) <==> StatusNamed(statuses, name) || RunNamed(runs, name)
  }

  ghost predicate HasRecord(checks: seq<CheckRecord>, name: string) {
    exists rec :: rec in checks && rec.name == name
  }

  method CheckRecords(statuses: seq<CommitStatus>, runs: seq<CheckRun>) returns (checks: seq<CheckRecord>)
    ensures AreChecks(statuses, runs, checks)
  {
    hide *;
    var byName := StatusChecks(statuses);
    byName := RunChecks(statuses, runs, byName);
    var names;
    names, checks := ListValues(byName);
    ValuesInOrder(byName, names, checks);
    ValuesAreChecks(statuses, runs, byName, checks);
  }

  method StatusChecks(statuses: seq<CommitStatus>) returns (byName: map<string, CheckRecord>)
    ensures AreNamedChecks(statuses, [], byName)
  {
    hide *;
    var ordered := StableSort(StatusLess, statuses);
    StatusesSorted(statuses);
    byName := map[];
    NoStatuses(ordered);
    for i := 0 to |ordered|
      invariant AreNamedChecks(ordered[..i], [], byName)
    {
      OneMoreStatus(ordered, i, byName);
      byName := byName[ordered[i].context := StatusRecord(ordered[i])];
    }
    assert ordered[..|ordered|] == ordered;
    SameStatuses(ordered, statuses, byName);
  }

  lemma StatusesSorted(statuses: seq<CommitStatus>)
    ensures InOrder(StatusLess, StableSort(StatusLess, statuses)) && Elements(StableSort(StatusLess, statuses)) == Elements(statuses)
  {
    StableSortSorts(StatusLess, statuses);
  }

  lemma NoStatuses(ordered: seq<CommitStatus>)
    ensures AreNamedChecks(ordered[..0], [], map[])
  {
  }

  lemma NoRuns()
    ensures forall name :: !RunNamed([], name)
    ensures forall rec :: !IsRunCheck([], rec)
  {
  }

  lemma OneMoreStatus(ordered: seq<CommitStatus>, i: nat, byName: map<string, CheckRecord>)
    requires i < |ordered| && InOrder(StatusLess, ordered) && AreNamedChecks(ordered[..i], [], byName)
    ensures AreNamedChecks(ordered[..i + 1], [], byName[ordered[i].context := StatusRecord(ordered[i])])
  {
    hide StatusRecord, IsRunCheck, RunNamed, InOrder, GreatestStatus;
    NoRuns();
    var front, s := ordered[..i], ordered[i];
    var after := byName[s.context := StatusRecord(s)];
    GreatestSoFar(ordered, i);
    forall name | name in after
      ensures IsNamedCheck(ordered[..i + 1], [], name, after[name])
    {
      if name != s.context {
        assert IsNamedCheck(front, [], name, byName[name]);
        var t :| GreatestStatus(front, t) && byName[name] == StatusRecord(t);
        assert GreatestStatus(ordered[..i + 1], t);
      }
    }
  }

  lemma GreatestSoFar(ordered: seq<CommitStatus>, i: nat)
    requires i < |ordered| && InOrder(StatusLess, ordered)
    ensures GreatestStatus(ordered[..i + 1], ordered[i])
    ensures forall t | GreatestStatus(ordered[..i], t) && t.context != ordered[i].context :: GreatestStatus(ordered[..i + 1], t)
    ensures forall other :: other in ordered[..i + 1] <==> other in ordered[..i] || other == ordered[i]
  {
    assert forall j | 0 <= j < i :: !StatusLess(ordered[i], ordered[j]);
  }

  lemma SameStatuses(a: seq<CommitStatus>, b: seq<CommitStatus>, byName: map<string, CheckRecord>)
    requires Elements(a) == Elements(b) && AreNamedChecks(a, [], byName)
    ensures AreNamedChecks(b, [], byName)
  {
    hide StatusRecord;
    assert forall s :: s in a <==> s in Elements(a);
    assert forall s :: s in b <==> s in Elements(b);
    assert forall s :: GreatestStatus(a, s) <==> GreatestStatus(b, s);
    forall name | name in byName
      ensures IsNamedCheck(b, [], name, byName[name])
    {
      assert IsNamedCheck(a, [], name, byName[name]);
    }
  }

  method RunChecks(statuses: seq<CommitStatus>, runs: seq<CheckRun>, ofStatuses: map<string, CheckRecord>)
    returns (byName: map<string, CheckRecord>)
    requires AreNamedChecks(statuses, [], ofStatuses)
    ensures AreNamedChecks(statuses, runs, byName)
  {
    hide *;
    var ordered := StableSort(RunLess, runs);
    RunsSorted(runs);
    byName := ofStatuses;
    assert ordered[..0] == [];
    for i := 0 to |ordered|
      invariant AreNamedChecks(statuses, ordered[..i], byName)
    {
      OneMoreRun(statuses, ordered, i, byName);
      byName := byName[ordered[i].name := RunRecord(ordered[i])];
    }
    assert ordered[..|ordered|] == ordered;
    SameRuns(statuses, ordered, runs, byName);
  }

  lemma RunsSorted(runs: seq<CheckRun>)
    ensures InOrder(RunLess, StableSort(RunLess, runs)) && Elements(StableSort(RunLess, runs)) == Elements(runs)
  {
    StableSortSorts(RunLess, runs);
  }

  lemma OneMoreRun(statuses: seq<CommitStatus>, ordered: seq<CheckRun>, i: nat, byName: map<string, CheckRecord>)
    requires i < |ordered| && InOrder(RunLess, ordered) && AreNamedChecks(statuses, ordered[..i], byName)
    ensures AreNamedChecks(statuses, ordered[..i + 1], byName[ordered[i].name := RunRecord(ordered[i])])
  {
    hide RunRecord, IsStatusCheck, StatusNamed;
    var front, run := ordered[..i], ordered[i];
    var after := byName[run.name := RunRecord(run)];
    assert forall other :: other in ordered[..i + 1] <==> other in front || other == run;
    assert forall other | other in front :: other.id <= run.id by {
      assert forall j | 0 <= j < i :: !RunLess(run, ordered[j]);
    }
    assert GreatestRun(ordered[..i + 1], run);
    forall name | name in after
      ensures IsNamedCheck(statuses, ordered[..i + 1], name, after[name])
    {
      if name != run.name {
        assert IsNamedCheck(statuses, front, name, byName[name]);
        if IsRunCheck(front, byName[name]) {
          var t :| GreatestRun(front, t) && byName[name] == RunRecord(t);
          assert GreatestRun(ordered[..i + 1], t);
        }
      }
    }
  }

  lemma SameRuns(statuses: seq<CommitStatus>, a: seq<CheckRun>, b: seq<CheckRun>, byName: map<string, CheckRecord>)
    requires Elements(a) == Elements(b) && AreNamedChecks(statuses, a, byName)
    ensures AreNamedChecks(statuses, b, byName)
  {
    hide RunRecord, IsStatusCheck, StatusNamed;
    assert forall run :: run in a <==> run in Elements(a);
    assert forall run :: run in b <==> run in Elements(b);
    assert forall run :: GreatestRun(a, run) <==> GreatestRun(b, run);
    forall name | name in byName
      ensures IsNamedCheck(statuses, b, name, byName[name])
    {
      assert IsNamedCheck(statuses, a, name, byName[name]);
    }
  }

  ghost predicate NamedByKey(byName: map<string, CheckRecord>) {
    forall name | name in byName :: byName[name].name == name
  }

  /** The values in the order of their keys. */
  ghost predicate IsListing<T(!new)>(byName: map<string, T>, names: seq<string>, values: seq<T>) {
    && Sorted(StringLess, names) && Elements(names) == byName.Keys && |values| == |names|
    && forall i | 0 <= i < |names| :: names[i] in byName && values[i] == byName[names[i]]
  }

  lemma NamesInside<T>(byName: map<string, T>, names: seq<string>)
    requires Elements(names) == byName.Keys
    ensures forall i | 0 <= i < |names| :: names[i] in byName
  {
    forall i | 0 <= i < |names|
      ensures names[i] in byName
    {
      assert names[i] in Elements(names);
    }
  }

  method ListValues<T(!new)>(byName: map<string, T>) returns (names: seq<string>, values: seq<T>)
    ensures IsListing(byName, names, values)
  {
    hide StringLess, Sorted;
    names := AscendStrings(byName.Keys);
    NamesInside(byName, names);
    values := seq(|names|, i requires 0 <= i < |names| => byName[names[i]]);
  }

  ghost predicate AreValues(byName: map<string, CheckRecord>, checks: seq<CheckRecord>) {
    (NamedByKey(byName) ==> Sorted(NameLess, checks)) && Elements(checks) == byName.Values
  }

  lemma ValuesInOrder(byName: map<string, CheckRecord>, names: seq<string>, checks: seq<CheckRecord>)
    requires IsListing(byName, names, checks)
    ensures AreValues(byName, checks)
  {
    hide StringLess;
    forall rec
      ensures rec in Elements(checks) <==> rec in byName.Values
    {
      if rec in byName.Values {
        var name :| name in byName && byName[name] == rec;
        assert name in Elements(names);
        var i :| 0 <= i < |names| && names[i] == name;
        assert checks[i] == rec;
      }
    }
  }

  lemma ValuesAreChecks(statuses: seq<CommitStatus>, runs: seq<CheckRun>, byName: map<string, CheckRecord>, checks: seq<CheckRecord>)
    requires AreNamedChecks(statuses, runs, byName) && AreValues(byName, checks)
    ensures AreChecks(statuses, runs, checks)
  {
    hide IsCheck, NameLess, StatusNamed, RunNamed;
    forall rec | rec in checks
      ensures IsCheck(statuses, runs, rec)
      ensures rec.name in byName && byName[rec.name] == rec
    {
      assert rec in Elements(checks);
      var name :| name in byName && byName[name] == rec;
      assert IsNamedCheck(statuses, runs, name, byName[name]);
    }
    forall name | name in byName
      ensures HasRecord(checks, name) && byName[name].name == name
    {
      assert IsNamedCheck(statuses, runs, name, byName[name]);
      assert byName[name] in byName.Values;
      assert byName[name] in Elements(checks);
    }
  }
}
