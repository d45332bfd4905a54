/** Merge readiness of one pull request: every reason that applies, once each (src/readiness.rs). */
module Readiness {
  import opened Basics
  import opened Ordering
  import opened Sorting
  import TextFacts

  datatype CheckStatus = Queued | InProgress | Completed | Unknown

  datatype CheckConclusion =
    | Success | Failure | Cancelled | TimedOut | Neutral | Skipped | ActionRequired | Stale | StartupFailure | Unknown

  datatype CheckSnapshot = CheckSnapshot(
    name: string, appId: Option<int>, requiredAppId: Option<int>,
    status: CheckStatus, conclusion: Option<CheckConclusion>, required: bool)

  datatype FeedbackSnapshot = FeedbackSnapshot(
    id: string, actorLogin: string, actorType: string, body: string, resolved: bool, isAutomation: bool)

  datatype ReadinessInput = ReadinessInput(
    mergeable: Option<bool>, branchIsCurrent: bool, requiredChecks: seq<CheckSnapshot>,
    approved: bool, approvalCount: nat, requiredApprovalCount: nat, staleApprovalPresent: bool,
    lastPushApprovalRequired: bool, latestPushApproval: bool,
    codeOwnerReviewRequired: bool, codeOwnerReviewSatisfied: bool,
    unresolvedFeedback: seq<FeedbackSnapshot>, isDraft: bool)

  datatype Policy = Policy(
    requireCurrentBranch: bool, requireApproval: bool, requiredChecks: seq<string>, automationActors: seq<string>)
  {
    predicate IsAutomationActor(login: string) {
      login in automationActors
    }
  }

  datatype Reason =
    | Draft | MergeabilityUnknown | MergeConflict | BranchOutOfDate
    | RequiredCheckPending | RequiredCheckFailed | RequiredCheckMissing | RequiredCheckWrongApp
    | RequiredReviewMissing | RequiredReviewCountMissing
    | StaleReview | LastPushApprovalMissing | CodeOwnerReviewMissing | UnresolvedAutomationFeedback

  // Reasons in the order of their names.

  function Name(reason: Reason): string {
    match reason
    case Draft => "Draft"
    case MergeabilityUnknown => "MergeabilityUnknown"
    case MergeConflict => "MergeConflict"
    case BranchOutOfDate => "BranchOutOfDate"
    case RequiredCheckPending => "RequiredCheckPending"
    case RequiredCheckFailed => "RequiredCheckFailed"
    case RequiredCheckMissing => "RequiredCheckMissing"
    case RequiredCheckWrongApp => "RequiredCheckWrongApp"
    case RequiredReviewMissing => "RequiredReviewMissing"
    case RequiredReviewCountMissing => "RequiredReviewCountMissing"
    case StaleReview => "StaleReview"
    case LastPushApprovalMissing => "LastPushApprovalMissing"
    case CodeOwnerReviewMissing => "CodeOwnerReviewMissing"
    case UnresolvedAutomationFeedback => "UnresolvedAutomationFeedback"
  }

  predicate ReasonLess(a: Reason, b: Reason) {
    StringLess(Name(a), Name(b))
  }

  /** The place of each reason in a list of all of them by name. */
  ghost function Rank(reason: Reason): nat {
    match reason
    case BranchOutOfDate => 0
    case CodeOwnerReviewMissing => 1
    case Draft => 2
    case LastPushApprovalMissing => 3
    case MergeConflict => 4
    case MergeabilityUnknown => 5
    case RequiredCheckFailed => 6
    case RequiredCheckMissing => 7
    case RequiredCheckPending => 8
    case RequiredCheckWrongApp => 9
    case RequiredReviewCountMissing => 10
    case RequiredReviewMissing => 11
    case StaleReview => 12
    case UnresolvedAutomationFeedback => 13
  }

  ghost predicate Earlier(a: Reason, b: Reason) {
    Rank(a) < Rank(b)
  }

  lemma NeighboursInOrder(a: Reason, b: Reason)
    requires Rank(a) + 1 == Rank(b)
    ensures ReasonLess(a, b)
  {
    hide StringLess;
    var k := match a
      case MergeConflict => 5
      case RequiredCheckFailed => 13
      case RequiredCheckMissing => 13
      case RequiredCheckPending => 13
      case RequiredCheckWrongApp => 8
      case RequiredReviewCountMissing => 14
      case _ => 0;
    ByLetter(Name(a), Name(b), k);
  }

  lemma ByLetter(a: string, b: string, k: nat)
    requires k < |a| && k < |b| && a[k] < b[k] && forall i | 0 <= i < k :: a[i] == b[i]
    ensures StringLess(a, b)
  {
    assert a == a[..k] + [a[k]] + a[k + 1..] && b == b[..k] + [b[k]] + b[k + 1..];
    assert a[..k] == b[..k];
    TextFacts.StringLessMeans(a[..k], a[k], b[k], a[k + 1..], b[k + 1..]);
  }

  ghost function Following(reason: Reason): Reason
    requires Rank(reason) < 13
    ensures Rank(Following(reason)) == Rank(reason) + 1
  {
    match reason
    case BranchOutOfDate => CodeOwnerReviewMissing
    case CodeOwnerReviewMissing => Draft
    case Draft => LastPushApprovalMissing
    case LastPushApprovalMissing => MergeConflict
    case MergeConflict => MergeabilityUnknown
    case MergeabilityUnknown => RequiredCheckFailed
    case RequiredCheckFailed => RequiredCheckMissing
    case RequiredCheckMissing => RequiredCheckPending
    case RequiredCheckPending => RequiredCheckWrongApp
    case RequiredCheckWrongApp => RequiredReviewCountMissing
    case RequiredReviewCountMissing => RequiredReviewMissing
    case RequiredReviewMissing => StaleReview
    case StaleReview => UnresolvedAutomationFeedback
  }

  lemma {:induction false} EarlierIsLess(a: Reason, b: Reason)
    requires Earlier(a, b)
    ensures ReasonLess(a, b)
    decreases Rank(b) - Rank(a)
  {
    hide Name, StringLess, Following;
    NeighboursInOrder(a, Following(a));
    if Rank(a) + 1 < Rank(b) {
      EarlierIsLess(Following(a), b);
      StringLessIsTotal();
    } else {
      OneRank(Following(a), b);
    }
  }

  lemma OneRank(a: Reason, b: Reason)
    requires Rank(a) == Rank(b)
    ensures a == b
  {
  }

  /** The order of the names is that of the ranks. */
  lemma NameOrder(a: Reason, b: Reason)
    ensures ReasonLess(a, b) <==> Earlier(a, b)
  {
    hide Name, StringLess;
    StringLessIsTotal();
    if Earlier(a, b) {
      EarlierIsLess(a, b);
    } else if Earlier(b, a) {
      EarlierIsLess(b, a);
    } else {
      OneRank(a, b);
    }
  }

  lemma EarlierIsOrder()
    ensures StrictOrder(Earlier)
  {
    hide Rank;
  }

  lemma ReasonLessIsOrder()
    ensures StrictWeak(ReasonLess) && StrictTotal(ReasonLess) && StrictOrder(ReasonLess)
  {
    hide Name, StringLess, Rank;
    forall a, b: Reason
      ensures ReasonLess(a, b) <==> Earlier(a, b)
      ensures Rank(a) == Rank(b) ==> a == b
    {
      NameOrder(a, b);
      if Rank(a) == Rank(b) {
        OneRank(a, b);
      }
    }
  }

  // Required checks.

  ghost predicate IsRequired(input: ReadinessInput, policy: Policy, name: string) {
    || name in policy.requiredChecks
    || exists check :: check in input.requiredChecks && check.required && check.name == name
  }

  function NamesOfRequired(checks: seq<CheckSnapshot>): (r: seq<string>) {
    if checks == [] then []
    else
      var last := checks[|checks| - 1];
      NamesOfRequired(checks[..|checks| - 1]) + if last.required then [last.name] else []
  }

  lemma {:induction false} NamesOfRequiredMeaning(checks: seq<CheckSnapshot>, name: string)
    ensures name in NamesOfRequired(checks) <==> exists check :: check in checks && check.required && check.name == name
  {
    if checks != [] {
      var front, last := checks[..|checks| - 1], checks[|checks| - 1];
      NamesOfRequiredMeaning(front, name);
      assert checks == front + [last];
    }
  }

  /** The first check of a name. */
  function FindCheck(checks: seq<CheckSnapshot>, name: string): (r: Option<CheckSnapshot>)
    ensures r.Some? ==> r.value in checks && r.value.name == name
    ensures r.None? ==> forall check | check in checks :: check.name != name
  {
    if checks == [] then None
    else if checks[0].name == name then Some(checks[0])
    else FindCheck(checks[1..], name)
  }

  predicate Passed(check: CheckSnapshot) {
    check.status.Completed? && check.conclusion.Some? && (check.conclusion.value.Success? || check.conclusion.value.Skipped?)
  }

  /** What one required check has against merging. */
  function CheckReason(found: Option<CheckSnapshot>): Option<Reason> {
    if found.None? then Some(RequiredCheckMissing)
    else
      var check := found.value;
      if check.requiredAppId.Some? && check.appId != check.requiredAppId then Some(RequiredCheckWrongApp)
      else if Passed(check) then None
      else if check.status.Completed? then Some(RequiredCheckFailed)
      else Some(RequiredCheckPending)
  }

  ghost predicate IsFirstNamed(checks: seq<CheckSnapshot>, name: string, check: CheckSnapshot) {
    exists i | 0 <= i < |checks| ::
      checks[i] == check && check.name == name && forall j | 0 <= j < i :: checks[j].name != name
  }

  ghost predicate Unnamed(checks: seq<CheckSnapshot>, name: string) {
    forall check | check in checks :: check.name != name
  }

  ghost predicate Objection(check: CheckSnapshot, reason: Reason) {
    var wrongApp := check.requiredAppId.Some? && check.appId != check.requiredAppId;
    match reason
    case RequiredCheckWrongApp => wrongApp
    case RequiredCheckFailed => !wrongApp && check.status == Completed && check.conclusion !in {Some(CheckConclusion.Success), Some(Skipped)}
    case RequiredCheckPending => !wrongApp && check.status != Completed
    case _ => false
  }

  /** A required name gives a reason when it has no check, or when its first check has something against merging. */
  ghost predicate Gives(checks: seq<CheckSnapshot>, name: string, reason: Reason) {
    if Unnamed(checks, name) then reason == RequiredCheckMissing
    else exists check :: IsFirstNamed(checks, name, check) && Objection(check, reason)
  }

  lemma {:induction false} FindCheckIsFirst(checks: seq<CheckSnapshot>, name: string)
    ensures FindCheck(checks, name).None? ==> Unnamed(checks, name)
    ensures FindCheck(checks, name).Some? ==> IsFirstNamed(checks, name, FindCheck(checks, name).value)
  {
    if checks != [] && checks[0].name != name {
      FindCheckIsFirst(checks[1..], name);
      if FindCheck(checks[1..], name).Some? {
        var i :| 0 <= i < |checks[1..]| && checks[1..][i] == FindCheck(checks, name).value
                  && forall j | 0 <= j < i :: checks[1..][j].name != name;
        assert checks[i + 1] == FindCheck(checks, name).value;
        assert forall j | 0 < j < i + 1 :: checks[j] == checks[1..][j - 1];
      }
    }
  }

  lemma OneFirst(checks: seq<CheckSnapshot>, name: string, a: CheckSnapshot, b: CheckSnapshot)
    requires IsFirstNamed(checks, name, a) && IsFirstNamed(checks, name, b)
    ensures a == b && !Unnamed(checks, name)
  {
  }

  lemma CheckReasonIs(checks: seq<CheckSnapshot>, name: string, reason: Reason)
    ensures CheckReason(FindCheck(checks, name)) == Some(reason) <==> Gives(checks, name, reason)
  {
    hide Unnamed, IsFirstNamed;
    var found := FindCheck(checks, name);
    FindCheckIsFirst(checks, name);
    if found.Some? {
      OneFirst(checks, name, found.value, found.value);
      forall check | IsFirstNamed(checks, name, check)
        ensures check == found.value
      {
        OneFirst(checks, name, check, found.value);
      }
    }
  }

  // The decision.

  ghost predicate SomeCheckGives(input: ReadinessInput, policy: Policy, reason: Reason) {
    exists name :: IsRequired(input, policy, name) && Gives(input.requiredChecks, name, reason)
  }

  ghost predicate UnresolvedAutomation(input: ReadinessInput, policy: Policy) {
    exists i | 0 <= i < |input.unresolvedFeedback| ::
      input.unresolvedFeedback[i].actorLogin in policy.automationActors && !input.unresolvedFeedback[i].resolved
  }

  /** When each reason applies. */
  ghost predicate Applies(input: ReadinessInput, policy: Policy, reason: Reason) {
    match reason
    case Draft => input.isDraft
    case MergeConflict => input.mergeable == Some(false)
    case MergeabilityUnknown => input.mergeable == None
    case BranchOutOfDate => policy.requireCurrentBranch && !input.branchIsCurrent
    case RequiredCheckMissing => SomeCheckGives(input, policy, reason)
    case RequiredCheckWrongApp => SomeCheckGives(input, policy, reason)
    case RequiredCheckFailed => SomeCheckGives(input, policy, reason)
    case RequiredCheckPending => SomeCheckGives(input, policy, reason)
    case RequiredReviewMissing =>
      (policy.requireApproval && !input.approved) || (input.requiredApprovalCount > 0 && input.approvalCount == 0)
    case RequiredReviewCountMissing => 0 < input.approvalCount < input.requiredApprovalCount
    case StaleReview => input.lastPushApprovalRequired && !input.latestPushApproval && input.staleApprovalPresent
    case LastPushApprovalMissing => input.lastPushApprovalRequired && !input.latestPushApproval && !input.staleApprovalPresent
    case CodeOwnerReviewMissing => input.codeOwnerReviewRequired && !input.codeOwnerReviewSatisfied
    case UnresolvedAutomationFeedback => UnresolvedAutomation(input, policy)
  }

  ghost predicate OfCheck(reason: Reason) {
    reason.RequiredCheckMissing? || reason.RequiredCheckWrongApp? || reason.RequiredCheckFailed? || reason.RequiredCheckPending?
  }

  /** Exactly the reasons that apply, once each, by name. */
  ghost predicate IsDecision(input: ReadinessInput, policy: Policy, codes: seq<Reason>) {
    Sorted(Earlier, codes) && forall reason :: reason in codes <==> Applies(input, policy, reason)
  }

  lemma OneDecision(input: ReadinessInput, policy: Policy, a: seq<Reason>, b: seq<Reason>)
    requires IsDecision(input, policy, a) && IsDecision(input, policy, b)
    ensures a == b
  {
    hide Applies, StrictOrder, Earlier;
    EarlierIsOrder();
    assert Elements(a) == Elements(b);
    SortedUnique(Earlier, a, b);
  }

  method Evaluate(input: ReadinessInput, policy: Policy) returns (ready: bool, codes: seq<Reason>)
    ensures IsDecision(input, policy, codes)
    ensures ready <==> forall reason :: !Applies(input, policy, reason)
  {
    hide Applies, StrictWeak;
    var before := BranchReasons(input, policy);
    var ofChecks := CheckReasons(input, policy);
    var after := ReviewReasons(input, policy);
    var pushed := before + ofChecks + after;
    AllReasons(input, policy, before, ofChecks, after);
    codes := Dedup(ReasonLess, StableSort(ReasonLess, pushed));
    DistinctReasons(pushed);
    ready := codes == [];
    assert ready ==> forall reason :: reason !in codes;
    assert !ready ==> codes[0] in codes;
  }

  lemma DistinctReasons(pushed: seq<Reason>)
    ensures var codes := Dedup(ReasonLess, StableSort(ReasonLess, pushed));
            Sorted(Earlier, codes) && forall reason :: reason in codes <==> reason in pushed
  {
    hide *;
    ReasonLessIsOrder();
    SortDedupMeaning(ReasonLess, pushed);
    SortedByRank(Dedup(ReasonLess, StableSort(ReasonLess, pushed)));
  }

  lemma SortedByRank(codes: seq<Reason>)
    requires Sorted(ReasonLess, codes)
    ensures Sorted(Earlier, codes)
  {
    hide ReasonLess, Earlier;
    forall i, j | 0 <= i < j < |codes|
      ensures Earlier(codes[i], codes[j])
    {
      NameOrder(codes[i], codes[j]);
    }
  }

  ghost predicate OfBranch(reason: Reason) {
    reason.Draft? || reason.MergeConflict? || reason.MergeabilityUnknown? || reason.BranchOutOfDate?
  }

  ghost predicate OfReview(reason: Reason) {
    !OfBranch(reason) && !OfCheck(reason)
  }

  lemma AllReasons(input: ReadinessInput, policy: Policy, before: seq<Reason>, ofChecks: seq<Reason>, after: seq<Reason>)
    requires forall reason :: reason in before <==> OfBranch(reason) && Applies(input, policy, reason)
    requires forall reason :: reason in ofChecks <==> OfCheck(reason) && Applies(input, policy, reason)
    requires forall reason :: reason in after <==> OfReview(reason) && Applies(input, policy, reason)
    ensures forall reason :: reason in before + ofChecks + after <==> Applies(input, policy, reason)
  {
    hide Applies, OfBranch, OfCheck;
    forall reason
      ensures reason in before + ofChecks + after <==> Applies(input, policy, reason)
    {
      assert OfBranch(reason) || OfCheck(reason) || OfReview(reason);
    }
  }

  method BranchReasons(input: ReadinessInput, policy: Policy) returns (codes: seq<Reason>)
    ensures forall reason :: reason in codes <==> OfBranch(reason) && Applies(input, policy, reason)
  {
    codes := [];
    if input.isDraft {
      codes := codes + [Draft];
    }
    match input.mergeable {
      case Some(mergeable) =>
        if !mergeable {
          codes := codes + [MergeConflict];
        }
      case None =>
        codes := codes + [MergeabilityUnknown];
    }
    if policy.requireCurrentBranch && !input.branchIsCurrent {
      codes := codes + [BranchOutOfDate];
    }
  }

  method CheckReasons(input: ReadinessInput, policy: Policy) returns (codes: seq<Reason>)
    ensures forall reason :: reason in codes <==> OfCheck(reason) && Applies(input, policy, reason)
  {
    hide *;
    var listed := NamesOfRequired(input.requiredChecks) + policy.requiredChecks;
    var names := Dedup(StringLess, StableSort(StringLess, listed));
    NamesListed(input, policy, listed);
    codes := [];
    NoNames(input, names);
    for i := 0 to |names|
      invariant AreReasonsOf(input, names, i, codes)
    {
      var reason := CheckReason(FindCheck(input.requiredChecks, names[i]));
      OneMoreName(input, names, i, codes);
      if reason.Some? {
        codes := codes + [reason.value];
      }
    }
    ReasonsOfNames(input, policy, names, codes);
  }

  /** The reasons the first i names give. */
  ghost predicate AreReasonsOf(input: ReadinessInput, names: seq<string>, i: nat, codes: seq<Reason>) {
    i <= |names| && forall reason ::
      reason in codes <==> exists j | 0 <= j < i :: CheckReason(FindCheck(input.requiredChecks, names[j])) == Some(reason)
  }

  lemma NoNames(input: ReadinessInput, names: seq<string>)
    ensures AreReasonsOf(input, names, 0, [])
  {
  }

  lemma OneMoreName(input: ReadinessInput, names: seq<string>, i: nat, codes: seq<Reason>)
    requires i < |names| && AreReasonsOf(input, names, i, codes)
    ensures var reason := CheckReason(FindCheck(input.requiredChecks, names[i]));
            AreReasonsOf(input, names, i + 1, if reason.Some? then codes + [reason.value] else codes)
  {
    hide CheckReason, FindCheck;
  }

  lemma NamesListed(input: ReadinessInput, policy: Policy, listed: seq<string>)
    requires listed == NamesOfRequired(input.requiredChecks) + policy.requiredChecks
    ensures forall name :: name in Dedup(StringLess, StableSort(StringLess, listed)) <==> IsRequired(input, policy, name)
  {
    hide StringLess, StableSort, Dedup, NamesOfRequired, StrictWeak, StrictTotal;
    StringLessIsTotal();
    SortDedupMeaning(StringLess, listed);
    forall name
      ensures name in listed <==> IsRequired(input, policy, name)
    {
      NamesOfRequiredMeaning(input.requiredChecks, name);
    }
  }

  lemma ReasonsOfNames(input: ReadinessInput, policy: Policy, names: seq<string>, codes: seq<Reason>)
    requires forall name :: name in names <==> IsRequired(input, policy, name)
    requires AreReasonsOf(input, names, |names|, codes)
    ensures forall reason :: reason in codes <==> OfCheck(reason) && Applies(input, policy, reason)
  {
    hide IsRequired, FindCheck, CheckReason, Gives;
    forall reason
      ensures reason in codes <==> OfCheck(reason) && Applies(input, policy, reason)
    {
      if reason in codes {
        var j :| 0 <= j < |names| && CheckReason(FindCheck(input.requiredChecks, names[j])) == Some(reason);
        CheckReasonIs(input.requiredChecks, names[j], reason);
        GivesOfCheck(input.requiredChecks, names[j], reason);
        assert IsRequired(input, policy, names[j]);
      }
      if SomeCheckGives(input, policy, reason) {
        var name :| IsRequired(input, policy, name) && Gives(input.requiredChecks, name, reason);
        CheckReasonIs(input.requiredChecks, name, reason);
        GivesOfCheck(input.requiredChecks, name, reason);
        var j :| 0 <= j < |names| && names[j] == name;
      }
    }
  }

  lemma GivesOfCheck(checks: seq<CheckSnapshot>, name: string, reason: Reason)
    requires Gives(checks, name, reason)
    ensures OfCheck(reason)
  {
    hide Unnamed, IsFirstNamed;
  }

  method ReviewReasons(input: ReadinessInput, policy: Policy) returns (codes: seq<Reason>)
    ensures forall reason :: reason in codes <==> OfReview(reason) && Applies(input, policy, reason)
  {
    codes := [];
    if policy.requireApproval && !input.approved {
      codes := codes + [RequiredReviewMissing];
    }
    if input.requiredApprovalCount > input.approvalCount {
      if input.approvalCount == 0 {
        codes := codes + [RequiredReviewMissing];
      } else {
        codes := codes + [RequiredReviewCountMissing];
      }
    }
    if input.lastPushApprovalRequired && !input.latestPushApproval {
      if input.staleApprovalPresent {
        codes := codes + [StaleReview];
      } else {
        codes := codes + [LastPushApprovalMissing];
      }
    }
    if input.codeOwnerReviewRequired && !input.codeOwnerReviewSatisfied {
      codes := codes + [CodeOwnerReviewMissing];
    }
    if exists i | 0 <= i < |input.unresolvedFeedback| ::
         input.unresolvedFeedback[i].actorLogin in policy.automationActors && !input.unresolvedFeedback[i].resolved {
      codes := codes + [UnresolvedAutomationFeedback];
    }
  }
}
