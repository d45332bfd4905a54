/** The merge decision on what was read, in any order. */
module MergeDecision {
  import opened Basics
  import opened Ordering
  import opened Sorting
  import opened Text
  import opened Readiness
  import opened Reconcile
  import opened Reconciliation
  import opened MergeRules

  /** Lists that hold the same things, as shuffled lists do. */
  ghost predicate SameReads(a: ReadSet, b: ReadSet) {
    && a == b.(reviews := a.reviews, issueComments := a.issueComments, reviewComments := a.reviewComments,
               checkRuns := a.checkRuns, statuses := a.statuses)
    && Elements(a.reviews) == Elements(b.reviews)
    && Elements(a.issueComments) == Elements(b.issueComments)
    && Elements(a.reviewComments) == Elements(b.reviewComments)
    && Elements(a.checkRuns) == Elements(b.checkRuns)
    && Elements(a.statuses) == Elements(b.statuses)
  }

  lemma SameMembers<T>(a: seq<T>, b: seq<T>)
    requires Elements(a) == Elements(b)
    ensures forall x :: x in a <==> x in b
  {
    assert forall x :: x in a <==> x in Elements(a);
    assert forall x :: x in b <==> x in Elements(b);
  }

  lemma ShuffledReads<T>(a: seq<T>, b: seq<T>)
    requires multiset(a) == multiset(b)
    ensures Elements(a) == Elements(b)
  {
    forall x
      ensures x in a <==> x in b
    {
      assert x in a <==> x in multiset(a);
      assert x in b <==> x in multiset(b);
    }
  }

  // One answer to each question.

  lemma OneLatest(reviews: seq<Review>, login: string, a: Review, b: Review)
    requires UniqueReviews(reviews) && IsLatestOf(reviews, login, a) && IsLatestOf(reviews, login, b)
    ensures a == b
  {
    StringLessIsTotal();
    hide StringLess, Deciding;
    assert !ReviewLess(a, b) && !ReviewLess(b, a);
  }

  lemma OneLatestMap(reviews: seq<Review>, a: map<string, Review>, b: map<string, Review>)
    requires UniqueReviews(reviews) && IsLatest(reviews, a) && IsLatest(reviews, b)
    ensures a == b
  {
    hide UniqueReviews, Deciding, ReviewLess;
    forall login | login in a
      ensures login in b && a[login] == b[login]
    {
      assert IsLatestOf(reviews, login, a[login]);
      assert IsLatestOf(reviews, login, b[login]);
      OneLatest(reviews, login, a[login], b[login]);
    }
    forall login | login in b
      ensures login in a
    {
      assert IsLatestOf(reviews, login, b[login]);
    }
  }

  lemma OneCheck(statuses: seq<CommitStatus>, runs: seq<CheckRun>, a: CheckRecord, b: CheckRecord)
    requires UniqueStatuses(statuses) && UniqueRuns(runs) && a.name == b.name
    requires IsCheck(statuses, runs, a) && IsCheck(statuses, runs, b)
    ensures a == b
  {
    hide RunRecord, StatusRecord;
    if IsRunCheck(runs, a) && IsRunCheck(runs, b) {
      var x :| GreatestRun(runs, x) && a == RunRecord(x);
      var y :| GreatestRun(runs, y) && b == RunRecord(y);
      assert x == y;
    } else if !RunNamed(runs, a.name) {
      var x :| GreatestStatus(statuses, x) && a == StatusRecord(x);
      var y :| GreatestStatus(statuses, y) && b == StatusRecord(y);
      assert x == y;
    }
  }

  lemma NameLessIsOrder()
    ensures StrictOrder(NameLess) && StrictOrder(SnapshotLess)
  {
    StringLessIsTotal();
    hide StringLess;
  }

  lemma OneCheckList(statuses: seq<CommitStatus>, runs: seq<CheckRun>, a: seq<CheckRecord>, b: seq<CheckRecord>)
    requires UniqueStatuses(statuses) && UniqueRuns(runs) && AreChecks(statuses, runs, a) && AreChecks(statuses, runs, b)
    ensures a == b
  {
    hide UniqueStatuses, UniqueRuns, IsCheck, StatusNamed, RunNamed, NameLess, StrictOrder;
    NameLessIsOrder();
    CheckAlsoIn(statuses, runs, a, b);
    CheckAlsoIn(statuses, runs, b, a);
    assert Elements(a) == Elements(b);
    SortedUnique(NameLess, a, b);
  }

  lemma CheckAlsoIn(statuses: seq<CommitStatus>, runs: seq<CheckRun>, a: seq<CheckRecord>, b: seq<CheckRecord>)
    requires UniqueStatuses(statuses) && UniqueRuns(runs) && AreChecks(statuses, runs, a) && AreChecks(statuses, runs, b)
    ensures forall rec | rec in a :: rec in b
  {
    hide UniqueStatuses, UniqueRuns, IsCheck, StatusNamed, RunNamed, NameLess;
    forall rec | rec in a
      ensures rec in b
    {
      assert HasRecord(a, rec.name);
      var other :| other in b && other.name == rec.name;
      OneCheck(statuses, runs, rec, other);
    }
  }

  lemma OneSnapshotList(data: ReadSet, policy: Policy, checks: seq<CheckRecord>, a: seq<CheckSnapshot>, b: seq<CheckSnapshot>)
    requires AreSnapshots(data, policy, checks, a) && AreSnapshots(data, policy, checks, b)
    ensures a == b
  {
    hide IsSnapshot, SnapshotLess, StrictOrder;
    NameLessIsOrder();
    assert Elements(a) == Elements(b);
    SortedUnique(SnapshotLess, a, b);
  }

  lemma PrefixesDiffer(m: int, n: int)
    ensures ReviewId(m) != CommentId("issue-comment", n) && ReviewId(m) != CommentId("review-comment", n)
    ensures CommentId("issue-comment", m) != CommentId("review-comment", n)
  {
    assert ReviewId(m)[0] == 'r' && ReviewId(m)[6] == ':';
    assert CommentId("issue-comment", n)[0] == 'i' && CommentId("issue-comment", m)[0] == 'i';
    assert CommentId("review-comment", n)[0] == 'r' && CommentId("review-comment", n)[6] == '-';
  }

  lemma CommentIdInjective(prefix: string, m: int, n: int)
    requires CommentId(prefix, m) == CommentId(prefix, n)
    ensures m == n
  {
    assert CommentId(prefix, m)[|prefix| + 1..] == IntText(m);
    assert CommentId(prefix, n)[|prefix| + 1..] == IntText(n);
    IntTextInjective(m, n);
  }

  lemma ReviewIdInjective(m: int, n: int)
    requires ReviewId(m) == ReviewId(n)
    ensures m == n
  {
    assert ReviewId(m)[7..] == IntText(m) && ReviewId(n)[7..] == IntText(n);
    IntTextInjective(m, n);
  }

  lemma OneReviewRecord(reviews: seq<Review>, latest: map<string, Review>, policy: Policy, a: FeedbackRecord, b: FeedbackRecord)
    requires UniqueReviews(reviews) && IsReviewRecord(reviews, latest, policy, a) && IsReviewRecord(reviews, latest, policy, b)
    requires a.id == b.id
    ensures a == b
  {
    hide ReviewId, NonemptyBody, IsAutomation, Settles;
    var x :| x in reviews && NonemptyBody(x.body).Some? && a == ReviewRecord(x, NonemptyBody(x.body).value, latest, policy);
    var y :| y in reviews && NonemptyBody(y.body).Some? && b == ReviewRecord(y, NonemptyBody(y.body).value, latest, policy);
    ReviewIdInjective(x.id, y.id);
  }

  lemma OneCommentRecord(prefix: string, comments: seq<Comment>, policy: Policy, a: FeedbackRecord, b: FeedbackRecord)
    requires UniqueComments(comments) && IsCommentRecord(prefix, comments, policy, a) && IsCommentRecord(prefix, comments, policy, b)
    requires a.id == b.id
    ensures a == b
  {
    hide CommentId, NonemptyBody, IsAutomation;
    var x :| x in comments && NonemptyBody(x.body).Some? && a == CommentRecord(prefix, x, NonemptyBody(x.body).value, policy);
    var y :| y in comments && NonemptyBody(y.body).Some? && b == CommentRecord(prefix, y, NonemptyBody(y.body).value, policy);
    CommentIdInjective(prefix, x.id, y.id);
  }

  lemma ReviewRecordId(reviews: seq<Review>, latest: map<string, Review>, policy: Policy, rec: FeedbackRecord) returns (id: int)
    requires IsReviewRecord(reviews, latest, policy, rec)
    ensures rec.id == ReviewId(id)
  {
    hide ReviewId, NonemptyBody;
    var x :| x in reviews && NonemptyBody(x.body).Some? && rec == ReviewRecord(x, NonemptyBody(x.body).value, latest, policy);
    id := x.id;
  }

  lemma CommentRecordId(prefix: string, comments: seq<Comment>, policy: Policy, rec: FeedbackRecord) returns (id: int)
    requires IsCommentRecord(prefix, comments, policy, rec)
    ensures rec.id == CommentId(prefix, id)
  {
    hide CommentId, NonemptyBody;
    var x :| x in comments && NonemptyBody(x.body).Some? && rec == CommentRecord(prefix, x, NonemptyBody(x.body).value, policy);
    id := x.id;
  }

  /** With unique ids two records never share theirs. */
  lemma OneRecord(data: ReadSet, latest: map<string, Review>, policy: Policy, a: FeedbackRecord, b: FeedbackRecord)
    requires UniqueIds(data) && IsFeedback(data, latest, policy, a) && IsFeedback(data, latest, policy, b) && a.id == b.id
    ensures a == b
  {
    hide ReviewId, CommentId, IsReviewRecord, IsCommentRecord, UniqueReviews, UniqueComments, UniqueRuns, UniqueStatuses;
    SameKind(data, latest, policy, a, b);
    if IsReviewRecord(data.reviews, latest, policy, a) {
      OneReviewRecord(data.reviews, latest, policy, a, b);
    } else if IsCommentRecord("issue-comment", data.issueComments, policy, a) {
      OneCommentRecord("issue-comment", data.issueComments, policy, a, b);
    } else {
      OneCommentRecord("review-comment", data.reviewComments, policy, a, b);
    }
  }

  lemma SameKind(data: ReadSet, latest: map<string, Review>, policy: Policy, a: FeedbackRecord, b: FeedbackRecord)
    requires IsFeedback(data, latest, policy, a) && IsFeedback(data, latest, policy, b) && a.id == b.id
    ensures IsReviewRecord(data.reviews, latest, policy, a) ==> IsReviewRecord(data.reviews, latest, policy, b)
    ensures IsCommentRecord("issue-comment", data.issueComments, policy, a)
            ==> IsCommentRecord("issue-comment", data.issueComments, policy, b)
    ensures IsCommentRecord("review-comment", data.reviewComments, policy, a)
            ==> IsCommentRecord("review-comment", data.reviewComments, policy, b)
  {
    hide ReviewId, CommentId, IsReviewRecord, IsCommentRecord;
    KindOfId(data, latest, policy, a);
    KindOfId(data, latest, policy, b);
  }

  ghost predicate IsReviewId(id: string) {
    exists n :: id == ReviewId(n)
  }

  ghost predicate IsCommentId(prefix: string, id: string) {
    exists n :: id == CommentId(prefix, n)
  }

  /** The id tells where a record comes from. */
  lemma KindOfId(data: ReadSet, latest: map<string, Review>, policy: Policy, a: FeedbackRecord)
    requires IsFeedback(data, latest, policy, a)
    ensures IsReviewRecord(data.reviews, latest, policy, a) <==> IsReviewId(a.id)
    ensures IsCommentRecord("issue-comment", data.issueComments, policy, a) <==> IsCommentId("issue-comment", a.id)
    ensures IsCommentRecord("review-comment", data.reviewComments, policy, a) <==> IsCommentId("review-comment", a.id)
  {
    hide ReviewId, CommentId, IsReviewRecord, IsCommentRecord;
    forall m, n
      ensures ReviewId(m) != CommentId("issue-comment", n) && ReviewId(m) != CommentId("review-comment", n)
      ensures CommentId("issue-comment", m) != CommentId("review-comment", n)
    {
      PrefixesDiffer(m, n);
    }
    if IsReviewRecord(data.reviews, latest, policy, a) {
      var n := ReviewRecordId(data.reviews, latest, policy, a);
    } else if IsCommentRecord("issue-comment", data.issueComments, policy, a) {
      var n := CommentRecordId("issue-comment", data.issueComments, policy, a);
    } else {
      var n := CommentRecordId("review-comment", data.reviewComments, policy, a);
    }
    if IsCommentRecord("issue-comment", data.issueComments, policy, a) {
      var n := CommentRecordId("issue-comment", data.issueComments, policy, a);
    }
    if IsCommentRecord("review-comment", data.reviewComments, policy, a) {
      var n := CommentRecordId("review-comment", data.reviewComments, policy, a);
    }
  }

  lemma RecordAlsoIn(data: ReadSet, latest: map<string, Review>, policy: Policy, a: seq<FeedbackRecord>, rec: FeedbackRecord)
    requires UniqueIds(data) && AreFeedback(data, latest, policy, a) && IsFeedback(data, latest, policy, rec)
    ensures rec in a
  {
    hide UniqueIds, IsFeedback, RecordLess;
    var other :| other in a && other.id == rec.id;
    OneRecord(data, latest, policy, rec, other);
  }

  lemma OneFeedbackList(data: ReadSet, latest: map<string, Review>, policy: Policy, a: seq<FeedbackRecord>, b: seq<FeedbackRecord>)
    requires UniqueIds(data) && AreFeedback(data, latest, policy, a) && AreFeedback(data, latest, policy, b)
    ensures a == b
  {
    hide UniqueIds, IsFeedback, RecordLess, StrictOrder, StrictWeak;
    RecordLessIsOrder();
    forall rec
      ensures rec in a <==> rec in b
    {
      if rec in a {
        RecordAlsoIn(data, latest, policy, b, rec);
      }
      if rec in b {
        RecordAlsoIn(data, latest, policy, a, rec);
      }
    }
    assert Elements(a) == Elements(b);
    SortedUnique(RecordLess, a, b);
  }

  // The order of reading.

  lemma SameChecks(a: ReadSet, b: ReadSet, checks: seq<CheckRecord>)
    requires SameReads(a, b) && AreChecks(a.statuses, a.checkRuns, checks)
    ensures AreChecks(b.statuses, b.checkRuns, checks)
  {
    hide StatusRecord, RunRecord, NameLess;
    SameMembers(a.statuses, b.statuses);
    SameMembers(a.checkRuns, b.checkRuns);
    assert forall s :: GreatestStatus(a.statuses, s) <==> GreatestStatus(b.statuses, s);
    assert forall run :: GreatestRun(a.checkRuns, run) <==> GreatestRun(b.checkRuns, run);
    forall rec
      ensures IsCheck(a.statuses, a.checkRuns, rec) <==> IsCheck(b.statuses, b.checkRuns, rec)
    {
    }
  }

  lemma SameRecords(a: ReadSet, b: ReadSet, latest: map<string, Review>, policy: Policy, feedback: seq<FeedbackRecord>)
    requires SameReads(a, b) && AreFeedback(a, latest, policy, feedback)
    ensures AreFeedback(b, latest, policy, feedback)
  {
    hide NonemptyBody, ReviewRecord, CommentRecord, RecordLess;
    SameMembers(a.reviews, b.reviews);
    SameMembers(a.issueComments, b.issueComments);
    SameMembers(a.reviewComments, b.reviewComments);
    assert forall rec :: IsFeedback(a, latest, policy, rec) <==> IsFeedback(b, latest, policy, rec);
  }

  lemma SameSnapshots(a: ReadSet, b: ReadSet, policy: Policy, checks: seq<CheckRecord>, snaps: seq<CheckSnapshot>)
    requires SameReads(a, b) && AreSnapshots(a, policy, checks, snaps)
    ensures AreSnapshots(b, policy, checks, snaps)
  {
    hide SnapshotLess, FirstAppId, ToStatus, ToConclusion;
    assert RequiredNames(a, policy) == RequiredNames(b, policy);
    assert forall check :: SnapshotOf(a, policy, check) == SnapshotOf(b, policy, check);
    assert forall name :: MissingSnapshot(a, name) == MissingSnapshot(b, name);
    assert forall snap :: IsSnapshot(a, policy, checks, snap) <==> IsSnapshot(b, policy, checks, snap);
  }

  lemma SameUnique(a: ReadSet, b: ReadSet)
    requires SameReads(a, b) && UniqueIds(a)
    ensures UniqueIds(b)
  {
    SameMembers(a.reviews, b.reviews);
    SameMembers(a.issueComments, b.issueComments);
    SameMembers(a.reviewComments, b.reviewComments);
    SameMembers(a.checkRuns, b.checkRuns);
    SameMembers(a.statuses, b.statuses);
  }

  /** However the reviews, comments, statuses and check runs are ordered, the result is the same. */
  lemma OrderDoesNotMatter(a: ReadSet, b: ReadSet, policy: Policy, r: Reconciled, s: Reconciled)
    requires UniqueIds(a) && SameReads(a, b) && IsReconciled(a, policy, r) && IsReconciled(b, policy, s)
    ensures r == s
  {
    hide UniqueReviews, UniqueComments, UniqueRuns, UniqueStatuses, IsLatest, AreFeedback, AreChecks, AreSnapshots;
    hide Approvers, SomeStale, Unresolved;
    var latest :| IsLatest(a.reviews, latest) && Describes(a, policy, latest, r);
    var other :| IsLatest(b.reviews, other) && Describes(b, policy, other, s);
    SameUnique(a, b);
    SameReviews(a.reviews, b.reviews, latest);
    OneLatestMap(b.reviews, latest, other);
    SameChecks(a, b, r.checks);
    OneCheckList(b.statuses, b.checkRuns, r.checks, s.checks);
    SameRecords(a, b, latest, policy, r.feedback);
    OneFeedbackList(b, latest, policy, r.feedback, s.feedback);
    SameSnapshots(a, b, policy, r.checks, r.readiness.requiredChecks);
    OneSnapshotList(b, policy, r.checks, r.readiness.requiredChecks, s.readiness.requiredChecks);
  }

  /** The same things in another order, the same number of times. */
  ghost predicate Shuffled(a: ReadSet, b: ReadSet) {
    && a == b.(reviews := a.reviews, issueComments := a.issueComments, reviewComments := a.reviewComments,
               checkRuns := a.checkRuns, statuses := a.statuses)
    && multiset(a.reviews) == multiset(b.reviews)
    && multiset(a.issueComments) == multiset(b.issueComments)
    && multiset(a.reviewComments) == multiset(b.reviewComments)
    && multiset(a.checkRuns) == multiset(b.checkRuns)
    && multiset(a.statuses) == multiset(b.statuses)
  }

  /** So shuffling what was read changes nothing in the result. */
  lemma ShufflingDoesNotMatter(a: ReadSet, b: ReadSet, policy: Policy, r: Reconciled, s: Reconciled)
    requires UniqueIds(a) && Shuffled(a, b) && IsReconciled(a, policy, r) && IsReconciled(b, policy, s)
    ensures r == s
  {
    hide UniqueIds, IsReconciled;
    ShuffledReads(a.reviews, b.reviews);
    ShuffledReads(a.issueComments, b.issueComments);
    ShuffledReads(a.reviewComments, b.reviewComments);
    ShuffledReads(a.checkRuns, b.checkRuns);
    ShuffledReads(a.statuses, b.statuses);
    OrderDoesNotMatter(a, b, policy, r, s);
  }

  // What ready means.

  lemma ApproversAreCurrent(data: ReadSet, latest: map<string, Review>)
    requires UniqueReviews(data.reviews) && IsLatest(data.reviews, latest)
    ensures Approvers(latest, data.headSha) == CurrentApprovers(data)
    ensures SomeStale(latest, data.headSha) <==> ApprovedEarlier(data)
  {
    hide UniqueReviews, IsLatestOf, LastWord, Approves, ApprovedBefore;
    forall r | r in data.reviews && LastWord(data.reviews, r.login, r)
      ensures r.login in latest && latest[r.login] == r
    {
      LatestIsLastWord(data.reviews, latest, r.login, r);
    }
    forall login | login in latest
      ensures latest[login] in data.reviews && latest[login].login == login && LastWord(data.reviews, login, latest[login])
    {
      LatestIsLastWord(data.reviews, latest, login, latest[login]);
    }
    forall r
      ensures Approves(r, data.headSha) <==> r.state == "APPROVED" && (r.commitId == None || r.commitId == Some(data.headSha))
      ensures ApprovedBefore(r, data.headSha) <==> r.state == "APPROVED" && r.commitId != None && r.commitId != Some(data.headSha)
    {
      ApprovesIs(r, data.headSha);
    }
    forall login
      ensures login in Approvers(latest, data.headSha) <==> login in CurrentApprovers(data)
    {
    }
  }

  /** The map of latest reviews holds the last words and nothing else. */
  lemma LatestIsLastWord(reviews: seq<Review>, latest: map<string, Review>, login: string, r: Review)
    requires UniqueReviews(reviews) && IsLatest(reviews, latest)
    ensures LastWord(reviews, login, r) ==> r in reviews && r.login == login
    ensures LastWord(reviews, login, r) <==> login in latest && latest[login] == r
  {
    hide UniqueReviews, ReviewLess, Deciding, LastWord;
    LastWordIs(reviews, login, r);
    if LastWord(reviews, login, r) {
      assert IsLatestOf(reviews, login, latest[login]);
      OneLatest(reviews, login, r, latest[login]);
    }
  }

  lemma SettledByLatest(data: ReadSet, latest: map<string, Review>, login: string)
    requires UniqueReviews(data.reviews) && IsLatest(data.reviews, latest)
    ensures Settled(data.reviews, login) <==> login in latest && Settles(latest[login].state)
  {
    hide UniqueReviews, IsLatest, LastWord, Settles;
    forall r
      ensures LastWord(data.reviews, login, r) <==> login in latest && latest[login] == r
      ensures Settles(r.state) <==> r.state == "APPROVED" || r.state == "DISMISSED"
    {
      LatestIsLastWord(data.reviews, latest, login, r);
      ApprovesIs(r, data.headSha);
    }
  }

  ghost predicate OpenRecord(policy: Policy, done: set<string>, rec: FeedbackRecord) {
    !rec.resolved && rec.id !in done && rec.actorLogin in policy.automationActors
  }

  ghost predicate OpenSnapshot(policy: Policy, done: set<string>, snap: FeedbackSnapshot) {
    !snap.resolved && snap.id !in done && snap.actorLogin in policy.automationActors
  }

  lemma {:induction false} UnresolvedMeaning(records: seq<FeedbackRecord>, policy: Policy, done: set<string>)
    ensures (exists i | 0 <= i < |Unresolved(records)| :: OpenSnapshot(policy, done, Unresolved(records)[i]))
            <==> exists rec :: rec in records && OpenRecord(policy, done, rec)
  {
    if records != [] {
      var front, last := records[..|records| - 1], records[|records| - 1];
      UnresolvedMeaning(front, policy, done);
      assert forall rec :: rec in records <==> rec in front || rec == last;
      var u, v := Unresolved(front), Unresolved(records);
      assert forall i | 0 <= i < |u| :: v[i] == u[i];
      if OpenRecord(policy, done, last) {
        assert OpenSnapshot(policy, done, v[|u|]);
      }
      forall i | 0 <= i < |v| && OpenSnapshot(policy, done, v[i])
        ensures exists rec :: rec in records && OpenRecord(policy, done, rec)
      {
        if i < |u| {
          assert OpenSnapshot(policy, done, u[i]);
        } else {
          assert OpenRecord(policy, done, last);
        }
      }
    }
  }

  lemma OpenRecordsAreWaiting(data: ReadSet, latest: map<string, Review>, policy: Policy, done: set<string>)
    requires UniqueReviews(data.reviews) && IsLatest(data.reviews, latest)
    ensures (exists rec :: IsFeedback(data, latest, policy, rec) && OpenRecord(policy, done, rec)) <==> AutomationWaits(data, policy, done)
  {
    hide IsFeedback, OpenRecord, UniqueReviews, IsLatest, OpenReview, OpenComment;
    assert "issue-comment" + ":" == "issue-comment:" && "review-comment" + ":" == "review-comment:";
    if AutomationWaits(data, policy, done) {
      if r :| OpenReview(data, policy, done, r) {
        OpenReviewIs(data, latest, policy, done, r);
        ReviewRecordIsFeedback(data, latest, policy, r);
      } else if c :| OpenComment("issue-comment:", data.issueComments, policy, done, c) {
        OpenCommentIs("issue-comment", data.issueComments, policy, done, c);
        CommentRecordIsFeedback(data, latest, policy, c);
      } else {
        var c :| OpenComment("review-comment:", data.reviewComments, policy, done, c);
        OpenCommentIs("review-comment", data.reviewComments, policy, done, c);
        CommentRecordIsFeedback(data, latest, policy, c);
      }
    }
    if rec :| IsFeedback(data, latest, policy, rec) && OpenRecord(policy, done, rec) {
      OpenRecordWaits(data, latest, policy, done, rec);
    }
  }

  /** A review is open exactly when its record is. */
  lemma OpenReviewIs(data: ReadSet, latest: map<string, Review>, policy: Policy, done: set<string>, r: Review)
    requires UniqueReviews(data.reviews) && IsLatest(data.reviews, latest)
    ensures OpenReview(data, policy, done, r) <==>
              && r in data.reviews && NonemptyBody(r.body).Some?
              && OpenRecord(policy, done, ReviewRecord(r, NonemptyBody(r.body).value, latest, policy))
  {
    hide UniqueReviews, IsLatest, NonemptyBody, ReviewId, Settles, Settled, IsAutomation, Said, IntText;
    SettledByLatest(data, latest, r.login);
    ApprovesIs(r, data.headSha);
    SaidIs(r.body);
    IdsAre(r.id);
  }

  lemma OpenCommentIs(prefix: string, comments: seq<Comment>, policy: Policy, done: set<string>, c: Comment)
    requires prefix == "issue-comment" || prefix == "review-comment"
    ensures OpenComment(prefix + ":", comments, policy, done, c) <==>
              && c in comments && NonemptyBody(c.body).Some?
              && OpenRecord(policy, done, CommentRecord(prefix, c, NonemptyBody(c.body).value, policy))
  {
    hide NonemptyBody, CommentId, IsAutomation, Said, IntText;
    SaidIs(c.body);
    IdsAre(c.id);
    assert "issue-comment" + ":" == "issue-comment:" && "review-comment" + ":" == "review-comment:";
  }

  lemma ReviewRecordIsFeedback(data: ReadSet, latest: map<string, Review>, policy: Policy, r: Review)
    requires r in data.reviews && NonemptyBody(r.body).Some?
    ensures IsFeedback(data, latest, policy, ReviewRecord(r, NonemptyBody(r.body).value, latest, policy))
  {
    hide ReviewRecord, NonemptyBody;
  }

  lemma CommentRecordIsFeedback(data: ReadSet, latest: map<string, Review>, policy: Policy, c: Comment)
    requires NonemptyBody(c.body).Some?
    ensures c in data.issueComments ==>
              IsFeedback(data, latest, policy, CommentRecord("issue-comment", c, NonemptyBody(c.body).value, policy))
    ensures c in data.reviewComments ==>
              IsFeedback(data, latest, policy, CommentRecord("review-comment", c, NonemptyBody(c.body).value, policy))
  {
    hide CommentRecord, NonemptyBody;
  }

  lemma OpenRecordWaits(data: ReadSet, latest: map<string, Review>, policy: Policy, done: set<string>, rec: FeedbackRecord)
    requires UniqueReviews(data.reviews) && IsLatest(data.reviews, latest)
    requires IsFeedback(data, latest, policy, rec) && OpenRecord(policy, done, rec)
    ensures AutomationWaits(data, policy, done)
  {
    hide UniqueReviews, IsLatest, OpenRecord, OpenReview, OpenComment, NonemptyBody, ReviewRecord, CommentRecord;
    assert "issue-comment" + ":" == "issue-comment:" && "review-comment" + ":" == "review-comment:";
    if IsReviewRecord(data.reviews, latest, policy, rec) {
      var r :| r in data.reviews && NonemptyBody(r.body).Some? && rec == ReviewRecord(r, NonemptyBody(r.body).value, latest, policy);
      OpenReviewIs(data, latest, policy, done, r);
    } else if IsCommentRecord("issue-comment", data.issueComments, policy, rec) {
      var c :| c in data.issueComments && NonemptyBody(c.body).Some?
                && rec == CommentRecord("issue-comment", c, NonemptyBody(c.body).value, policy);
      OpenCommentIs("issue-comment", data.issueComments, policy, done, c);
    } else {
      var c :| c in data.reviewComments && NonemptyBody(c.body).Some?
                && rec == CommentRecord("review-comment", c, NonemptyBody(c.body).value, policy);
      OpenCommentIs("review-comment", data.reviewComments, policy, done, c);
    }
  }

  lemma RequiredOfInput(data: ReadSet, policy: Policy, checks: seq<CheckRecord>, input: ReadinessInput, name: string)
    requires AreSnapshots(data, policy, checks, input.requiredChecks)
    ensures IsRequired(input, policy, name) <==> name in RequiredNames(data, policy)
  {
    hide SnapshotLess, HasRecord;
    if name in RequiredNames(data, policy) {
      var snap := RequiredSnapshot(data, policy, checks, name);
    }
  }

  /** Every required name has its snapshot. */
  lemma RequiredSnapshot(data: ReadSet, policy: Policy, checks: seq<CheckRecord>, name: string) returns (snap: CheckSnapshot)
    requires name in RequiredNames(data, policy)
    ensures snap.name == name && snap.required && IsSnapshot(data, policy, checks, snap)
  {
    hide RequiredNames, RequiredAppId;
    if HasRecord(checks, name) {
      var check :| check in checks && check.name == name;
      snap := SnapshotOf(data, policy, check);
    } else {
      snap := MissingSnapshot(data, name);
    }
  }

  lemma StatusMeaning(status: string)
    ensures ToStatus(status).Completed? <==> status == "completed"
  {
  }

  lemma ConclusionMeaning(conclusion: string)
    ensures ToConclusion(conclusion).Success? <==> conclusion == "success"
    ensures ToConclusion(conclusion).Skipped? <==> conclusion == "skipped"
  {
  }

  /** The record of a name says whether its check has ended, and how, and which application it is of. */
  lemma CheckSays(data: ReadSet, rec: CheckRecord)
    requires UniqueStatuses(data.statuses) && UniqueRuns(data.checkRuns) && IsCheck(data.statuses, data.checkRuns, rec)
    ensures HasEnded(data, rec.name) <==> rec.status == "completed"
    ensures HasEndedWell(data, rec.name) <==> rec.status == "completed" && rec.conclusion in {Some("success"), Some("skipped")}
    ensures OfItsApp(data, rec.name) <==> forall app | AsksFor(data, rec.name, app) :: rec.appId == Some(app)
  {
    hide AsksFor, IntText;
    if run :| GreatestRun(data.checkRuns, run) && rec == RunRecord(run) {
      assert LastRun(data, rec.name, run);
      forall other | LastRun(data, rec.name, other)
        ensures other == run
      {
      }
    } else {
      var s :| GreatestStatus(data.statuses, s) && rec == StatusRecord(s);
      assert LastStatus(data, rec.name, s);
      forall other | LastStatus(data, rec.name, other)
        ensures other == s
      {
      }
      assert forall run | run in data.checkRuns :: RunNamed(data.checkRuns, run.name);
    }
  }

  /** Nothing is reported of a name that has neither a status nor a run. */
  lemma NothingSaid(data: ReadSet, name: string)
    requires !StatusNamed(data.statuses, name) && !RunNamed(data.checkRuns, name)
    ensures !HasEnded(data, name)
    ensures OfItsApp(data, name) <==> forall app :: !AsksFor(data, name, app)
  {
    hide AsksFor;
    assert forall run | run in data.checkRuns :: RunNamed(data.checkRuns, run.name);
    assert forall s | s in data.statuses :: StatusNamed(data.statuses, s.context);
  }

  lemma AppAsked(data: ReadSet, name: string, app: Option<int>)
    ensures (RequiredAppId(data, name).Some? && app != RequiredAppId(data, name)) <==>
              !(forall asked | AsksFor(data, name, asked) :: app == Some(asked))
  {
    hide RequiredAppId, AsksFor;
    forall asked
      ensures RequiredAppId(data, name) == Some(asked) <==> AsksFor(data, name, asked)
    {
      RequiredAppIs(data, name, asked);
    }
    if RequiredAppId(data, name).Some? {
      assert AsksFor(data, name, RequiredAppId(data, name).value);
    }
  }

  /** What a snapshot has against merging is what stands against the check. */
  lemma SnapshotJudged(data: ReadSet, policy: Policy, checks: seq<CheckRecord>, snap: CheckSnapshot, reason: Reason)
    requires UniqueStatuses(data.statuses) && UniqueRuns(data.checkRuns)
    requires AreChecks(data.statuses, data.checkRuns, checks) && IsSnapshot(data, policy, checks, snap)
    ensures Objection(snap, reason) <==> CheckGives(data, snap.name, reason)
  {
    hide UniqueStatuses, UniqueRuns, IsCheck, RequiredNames, RequiredAppId, ToStatus, ToConclusion, NameLess, StatusNamed, RunNamed;
    hide HasEnded, HasEndedWell, OfItsApp, AsksFor;
    AppAsked(data, snap.name, snap.appId);
    if check :| check in checks && snap == SnapshotOf(data, policy, check) {
      StatusMeaning(check.status);
      if check.conclusion.Some? {
        ConclusionMeaning(check.conclusion.value);
      }
      CheckSays(data, check);
    } else {
      NothingSaid(data, snap.name);
    }
  }

  /** One required name: found, and judged by the reported check. */
  lemma RequiredNameJudged(data: ReadSet, policy: Policy, checks: seq<CheckRecord>, snaps: seq<CheckSnapshot>, name: string, reason: Reason)
    requires UniqueStatuses(data.statuses) && UniqueRuns(data.checkRuns)
    requires AreChecks(data.statuses, data.checkRuns, checks) && AreSnapshots(data, policy, checks, snaps)
    requires name in RequiredNames(data, policy)
    ensures Gives(snaps, name, reason) <==> CheckGives(data, name, reason)
  {
    hide UniqueStatuses, UniqueRuns, AreChecks, IsSnapshot, SnapshotLess, RequiredNames, CheckGives, FindCheck, Unnamed, IsFirstNamed, Objection;
    var snap := RequiredSnapshot(data, policy, checks, name);
    var found := FindCheck(snaps, name);
    FindCheckIsFirst(snaps, name);
    OneFirst(snaps, name, found.value, found.value);
    forall check | IsFirstNamed(snaps, name, check)
      ensures check == found.value
    {
      OneFirst(snaps, name, check, found.value);
    }
    SnapshotJudged(data, policy, checks, found.value, reason);
  }

  /** The reasons of required checks are those that stand against the checks. A required check is never missing: it is pending instead. */
  lemma ChecksDecide(data: ReadSet, policy: Policy, r: Reconciled, reason: Reason)
    requires UniqueStatuses(data.statuses) && UniqueRuns(data.checkRuns)
    requires AreChecks(data.statuses, data.checkRuns, r.checks) && AreSnapshots(data, policy, r.checks, r.readiness.requiredChecks)
    ensures SomeCheckGives(r.readiness, policy, reason) <==> exists name :: Needed(data, policy, name) && CheckGives(data, name, reason)
  {
    hide UniqueStatuses, UniqueRuns, AreChecks, AreSnapshots, IsRequired, Needed, RequiredNames, CheckGives, Gives;
    forall name
      ensures IsRequired(r.readiness, policy, name) <==> Needed(data, policy, name)
      ensures Needed(data, policy, name) ==> (Gives(r.readiness.requiredChecks, name, reason) <==> CheckGives(data, name, reason))
    {
      NeededIs(data, policy, name);
      RequiredOfInput(data, policy, r.checks, r.readiness, name);
      if name in RequiredNames(data, policy) {
        RequiredNameJudged(data, policy, r.checks, r.readiness.requiredChecks, name, reason);
      }
    }
  }

  lemma PushApprovalCounts(latest: map<string, Review>, head: string)
    requires PushApproved(latest, head)
    ensures |Approvers(latest, head)| > 0
  {
    var login :| login in latest && latest[login].state == "APPROVED" && latest[login].commitId == Some(head);
    assert login in Approvers(latest, head);
  }

  lemma FieldsDecide(data: ReadSet, policy: Policy, latest: map<string, Review>, feedback: seq<FeedbackRecord>, input: ReadinessInput,
                     done: set<string>, reason: Reason)
    requires UniqueReviews(data.reviews) && IsLatest(data.reviews, latest) && AreFields(data, latest, feedback, input)
    requires !OfCheck(reason) && reason != UnresolvedAutomationFeedback
    ensures Applies(input, policy, reason) <==> Stands(data, policy, done, reason)
  {
    hide UniqueReviews, IsLatest, Approvers, CurrentApprovers, ApprovedEarlier, SomeStale, PushApproved, Unresolved, Requirements;
    hide CodeOwnersSatisfied, OwnersAwaited, AfterLastPush, ApprovalsNeeded;
    ApproversAreCurrent(data, latest);
    RequirementsAre(data);
    if PushApproved(latest, data.headSha) {
      PushApprovalCounts(latest, data.headSha);
    }
  }

  lemma FeedbackDecides(data: ReadSet, policy: Policy, done: set<string>, latest: map<string, Review>, r: Reconciled)
    requires UniqueIds(data) && IsLatest(data.reviews, latest) && AreFeedback(data, latest, policy, r.feedback)
    requires r.readiness.unresolvedFeedback == Unresolved(r.feedback)
    ensures UnresolvedAutomation(WithMarks(r.readiness, done), policy) <==> AutomationWaits(data, policy, done)
  {
    hide UniqueReviews, UniqueComments, UniqueRuns, UniqueStatuses, IsLatest, IsFeedback, OpenRecord, Unresolved, AutomationWaits;
    UnresolvedMeaning(r.feedback, policy, done);
    MarkedMeaning(Unresolved(r.feedback), policy, done);
    OpenRecordsAreWaiting(data, latest, policy, done);
    forall rec
      ensures rec in r.feedback <==> IsFeedback(data, latest, policy, rec)
    {
      if IsFeedback(data, latest, policy, rec) {
        RecordAlsoIn(data, latest, policy, r.feedback, rec);
      }
    }
  }

  // What the worker knows to be resolved.

  ghost function MarkSnapshot(snap: FeedbackSnapshot, done: set<string>): FeedbackSnapshot {
    snap.(resolved := snap.resolved || snap.id in done)
  }

  ghost function MarkSnapshots(snaps: seq<FeedbackSnapshot>, done: set<string>): (r: seq<FeedbackSnapshot>)
    ensures |r| == |snaps|
  {
    seq(|snaps|, i requires 0 <= i < |snaps| => MarkSnapshot(snaps[i], done))
  }

  ghost function MarkRecord(rec: FeedbackRecord, done: set<string>): FeedbackRecord {
    rec.(resolved := rec.resolved || rec.id in done)
  }

  ghost function MarkRecords(records: seq<FeedbackRecord>, done: set<string>): (r: seq<FeedbackRecord>)
    ensures |r| == |records|
  {
    seq(|records|, i requires 0 <= i < |records| => MarkRecord(records[i], done))
  }

  ghost function WithMarks(input: ReadinessInput, done: set<string>): ReadinessInput {
    input.(unresolvedFeedback := MarkSnapshots(input.unresolvedFeedback, done))
  }

  lemma MarkedMeaning(snaps: seq<FeedbackSnapshot>, policy: Policy, done: set<string>)
    ensures (exists i | 0 <= i < |snaps| :: OpenSnapshot(policy, done, snaps[i])) <==>
              exists i | 0 <= i < |snaps| ::
                MarkSnapshots(snaps, done)[i].actorLogin in policy.automationActors && !MarkSnapshots(snaps, done)[i].resolved
  {
    var marked := MarkSnapshots(snaps, done);
    forall i | 0 <= i < |snaps|
      ensures OpenSnapshot(policy, done, snaps[i]) <==> marked[i].actorLogin in policy.automationActors && !marked[i].resolved
    {
    }
  }

  /** Marking the first snapshot of an id, if there is one. */
  method MarkFirst(snaps: seq<FeedbackSnapshot>, id: string) returns (r: seq<FeedbackSnapshot>)
    requires DistinctSnapshots(snaps)
    ensures r == MarkSnapshots(snaps, {id})
  {
    for i := 0 to |snaps|
      invariant forall k | 0 <= k < i :: snaps[k].id != id
    {
      if snaps[i].id == id {
        r := snaps[i := snaps[i].(resolved := true)];
        assert r == MarkSnapshots(snaps, {id});
        return;
      }
    }
    r := snaps;
  }

  ghost predicate DistinctSnapshots(snaps: seq<FeedbackSnapshot>) {
    forall i, j | 0 <= i < j < |snaps| :: snaps[i].id != snaps[j].id
  }

  /** The ids of the first i records that are done. */
  ghost function DoneIds(records: seq<FeedbackRecord>, i: nat, done: set<string>): set<string>
    requires i <= |records|
  {
    set k | 0 <= k < i && records[k].id in done :: records[k].id
  }

  /** Record by record: what the repository confirms as resolved is marked, in the records and in the input. */
  method MarkResolved(r: Reconciled, done: set<string>) returns (marked: Reconciled)
    requires Sorted(RecordLess, r.feedback) && r.readiness.unresolvedFeedback == Unresolved(r.feedback)
    ensures marked == Reconciled(WithMarks(r.readiness, done), MarkRecords(r.feedback, done), r.checks)
  {
    hide Unresolved, RecordLess, MarkSnapshots, DoneIds;
    var records, snaps := r.feedback, r.readiness.unresolvedFeedback;
    DistinctUnresolved(r.feedback);
    NothingMarked(snaps, records, done);
    for i := 0 to |records|
      invariant |records| == |r.feedback|
      invariant forall k | 0 <= k < |records| :: records[k] == if k < i then MarkRecord(r.feedback[k], done) else r.feedback[k]
      invariant snaps == MarkSnapshots(r.readiness.unresolvedFeedback, DoneIds(r.feedback, i, done))
    {
      MarkOneMore(r.readiness.unresolvedFeedback, r.feedback, i, done);
      if records[i].id in done {
        snaps := MarkFirst(snaps, records[i].id);
        records := records[i := records[i].(resolved := true)];
      }
    }
    AllMarked(r.feedback, done);
    marked := Reconciled(r.readiness.(unresolvedFeedback := snaps), records, r.checks);
  }

  lemma NothingMarked(snaps: seq<FeedbackSnapshot>, records: seq<FeedbackRecord>, done: set<string>)
    ensures MarkSnapshots(snaps, DoneIds(records, 0, done)) == snaps
  {
  }

  lemma MarkOneMore(snaps: seq<FeedbackSnapshot>, records: seq<FeedbackRecord>, i: nat, done: set<string>)
    requires i < |records| && DistinctSnapshots(snaps)
    ensures DistinctSnapshots(MarkSnapshots(snaps, DoneIds(records, i, done)))
    ensures MarkSnapshots(snaps, DoneIds(records, i + 1, done))
            == (if records[i].id in done then MarkSnapshots(MarkSnapshots(snaps, DoneIds(records, i, done)), {records[i].id})
                else MarkSnapshots(snaps, DoneIds(records, i, done)))
  {
    assert DoneIds(records, i + 1, done) == DoneIds(records, i, done) + if records[i].id in done then {records[i].id} else {};
  }

  /** The unresolved snapshots of distinct records are distinct, and each has its record. */
  lemma {:induction false} UnresolvedIds(records: seq<FeedbackRecord>, snap: FeedbackSnapshot)
    requires snap in Unresolved(records)
    ensures HasId(records, snap.id)
  {
    var front, last := records[..|records| - 1], records[|records| - 1];
    assert last in records;
    if snap in Unresolved(front) {
      UnresolvedIds(front, snap);
      assert forall rec | rec in front :: rec in records;
    }
  }

  lemma {:induction false} DistinctUnresolved(records: seq<FeedbackRecord>)
    requires Sorted(RecordLess, records)
    ensures DistinctSnapshots(Unresolved(records))
  {
    if records != [] {
      var front, last := records[..|records| - 1], records[|records| - 1];
      DistinctUnresolved(front);
      forall i | 0 <= i < |Unresolved(front)|
        ensures Unresolved(front)[i].id != last.id
      {
        UnresolvedIds(front, Unresolved(front)[i]);
        var rec :| rec in front && rec.id == Unresolved(front)[i].id;
        assert RecordLess(rec, last);
        StringIrreflexive(last.id);
      }
    }
  }

  lemma AllMarked(records: seq<FeedbackRecord>, done: set<string>)
    ensures MarkSnapshots(Unresolved(records), DoneIds(records, |records|, done)) == MarkSnapshots(Unresolved(records), done)
  {
    hide Unresolved;
    var snaps := Unresolved(records);
    forall i | 0 <= i < |snaps|
      ensures snaps[i].id in done <==> snaps[i].id in DoneIds(records, |records|, done)
    {
      UnresolvedIds(records, snaps[i]);
      var rec :| rec in records && rec.id == snaps[i].id;
      var k :| 0 <= k < |records| && records[k] == rec;
    }
  }

  /** The evaluation of the reconciled and marked input finds exactly what stands against merging. */
  lemma AppliesWhatStands(data: ReadSet, policy: Policy, done: set<string>, r: Reconciled, reason: Reason)
    requires UniqueIds(data) && IsReconciled(data, policy, r)
    ensures Applies(WithMarks(r.readiness, done), policy, reason) <==> Stands(data, policy, done, reason)
  {
    hide UniqueReviews, UniqueComments, UniqueRuns, UniqueStatuses, IsLatest, AreChecks, AreSnapshots, AreFeedback;
    hide SomeCheckGives, AutomationWaits, UnresolvedAutomation, Needed, CheckGives, CurrentApprovers, ApprovedEarlier, OwnersAwaited;
    hide Approvers, SomeStale, PushApproved, Unresolved, CodeOwnersSatisfied, MarkSnapshots, Requirements, AfterLastPush, ApprovalsNeeded;
    var latest :| IsLatest(data.reviews, latest) && Describes(data, policy, latest, r);
    var marked := WithMarks(r.readiness, done);
    if OfCheck(reason) {
      ChecksDecide(data, policy, Reconciled(marked, r.feedback, r.checks), reason);
      if reason == RequiredCheckMissing {
        NeverMissing(data);
      }
    } else if reason == UnresolvedAutomationFeedback {
      FeedbackDecides(data, policy, done, latest, r);
    } else {
      FieldsDecide(data, policy, latest, r.feedback, r.readiness, done, reason);
    }
  }

  lemma NeverMissing(data: ReadSet)
    ensures forall name :: !CheckGives(data, name, RequiredCheckMissing)
  {
  }

  /** The reasons for what was read, by name, once each. */
  ghost predicate IsVerdict(data: ReadSet, policy: Policy, done: set<string>, codes: seq<Reason>) {
    && (forall reason :: reason in codes <==> Stands(data, policy, done, reason))
    && forall i, j | 0 <= i < j < |codes| :: Rank(codes[i]) < Rank(codes[j])
  }

  /** Read, reconcile, mark what is known to be resolved, evaluate. */
  method Decide(data: ReadSet, policy: Policy, done: set<string>) returns (ready: bool, codes: seq<Reason>)
    ensures UniqueIds(data) ==> IsVerdict(data, policy, done, codes) && (ready <==> MergeReady(data, policy, done))
    ensures ready <==> codes == []
  {
    hide *;
    var r := ReconcileReadSet(data, policy);
    MarkingFits(data, policy, r);
    var marked := MarkResolved(r, done);
    ready, codes := Evaluate(marked.readiness, policy);
    Decided(data, policy, done, r, ready, codes);
  }

  lemma MarkingFits(data: ReadSet, policy: Policy, r: Reconciled)
    requires IsReconciled(data, policy, r)
    ensures Sorted(RecordLess, r.feedback) && r.readiness.unresolvedFeedback == Unresolved(r.feedback)
  {
    hide IsLatest, AreChecks, AreSnapshots, IsFeedback, RecordLess, Unresolved, Approvers, SomeStale;
  }

  lemma Decided(data: ReadSet, policy: Policy, done: set<string>, r: Reconciled, ready: bool, codes: seq<Reason>)
    requires IsReconciled(data, policy, r) && IsDecision(WithMarks(r.readiness, done), policy, codes)
    requires ready <==> forall reason :: !Applies(WithMarks(r.readiness, done), policy, reason)
    ensures UniqueIds(data) ==> IsVerdict(data, policy, done, codes) && (ready <==> MergeReady(data, policy, done))
    ensures ready <==> codes == []
  {
    hide IsReconciled, UniqueIds, MergeReady, Applies, Rank, WithMarks, Stands;
    if UniqueIds(data) {
      forall reason
        ensures Applies(WithMarks(r.readiness, done), policy, reason) <==> Stands(data, policy, done, reason)
      {
        AppliesWhatStands(data, policy, done, r, reason);
      }
      NothingStands(data, policy, done);
    }
    if codes != [] {
      assert codes[0] in codes;
    }
  }
}
