/** Binding an approval to the exact proposal (src/pr_controls.rs). */
module Approval {
  import opened Basics
  import opened Json
  import opened Queue
  import opened QueueRuns

  /** Fields the queue writes; the fingerprint leaves them out. */
  const CONTROL_FIELDS: set<string> := {"approved", "approved_hash", "approval_details", "skipped_items"}

  /** The digest of a serialised value. */
  type Hash = Json -> string

  ghost predicate Injective(hash: Hash) {
    forall a, b | hash(a) == hash(b) :: a == b
  }

  function WithoutFields(value: Json, keys: set<string>): Json {
    if value.Obj? then Obj(value.fields - keys) else value
  }

  function Proposal(plan: Json): Json {
    WithoutFields(plan, CONTROL_FIELDS)
  }

  function Payload(plan: Json, details: Json): Json {
    Obj(map["plan" := Proposal(plan), "details" := WithoutFields(details, {"plan_hash"})])
  }

  function Fingerprint(plan: Json, details: Json, hash: Hash): string {
    hash(Payload(plan, details))
  }

  /** The details shown to an operator, with the fingerprint. */
  function Bind(plan: Json, details: Json, hash: Hash): (r: Json)
    ensures r.Obj?
  {
    var named := if details.Obj? then details else Obj(map["details" := details]);
    Obj(named.fields["plan_hash" := Str(Fingerprint(plan, named, hash))])
  }

  predicate PlanIsApproved(plan: Json, hash: Hash) {
    && Get(plan, "approved") == Some(Bool(true))
    && Text(Get(plan, "approved_hash")).Some? && Get(plan, "approval_details").Some?
    && var approvedHash, details := Text(Get(plan, "approved_hash")).value, Get(plan, "approval_details").value;
       Text(Get(details, "plan_hash")) == Some(approvedHash) && approvedHash == Fingerprint(plan, details, hash)
  }

  // What the fingerprint sees.

  /** What is hashed: every field of the plan but the four the queue writes, and every detail but the fingerprint. */
  ghost function Hashed(plan: Json, details: Json): Json {
    Obj(map[
      "plan" := if plan.Obj? then Obj(plan.fields - {"approved", "approved_hash", "approval_details", "skipped_items"}) else plan,
      "details" := if details.Obj? then Obj(details.fields - {"plan_hash"}) else details])
  }

  lemma PayloadIs(plan: Json, details: Json)
    ensures Payload(plan, details) == Hashed(plan, details)
  {
  }

  /** A field outside the four is hashed as it is. */
  lemma FieldIsHashed(plan: Json, details: Json, key: string)
    requires key !in {"approved", "approved_hash", "approval_details", "skipped_items"}
    ensures Get(Get(Payload(plan, details), "plan").value, key) == Get(plan, key)
  {
    PayloadIs(plan, details);
  }

  /** Approved: the bit is set, and the approved hash is that of the details and of what is hashed now. */
  lemma ApprovalMeans(plan: Json, hash: Hash)
    ensures PlanIsApproved(plan, hash) <==>
              && plan.Obj? && "approved" in plan.fields && "approved_hash" in plan.fields && "approval_details" in plan.fields
              && plan.fields["approved"] == Bool(true) && plan.fields["approval_details"].Obj?
              && "plan_hash" in plan.fields["approval_details"].fields
              && plan.fields["approved_hash"] == plan.fields["approval_details"].fields["plan_hash"]
              && plan.fields["approved_hash"] == Str(hash(Hashed(plan, plan.fields["approval_details"])))
  {
    if plan.Obj? && "approval_details" in plan.fields {
      PayloadIs(plan, plan.fields["approval_details"]);
    }
  }

  /** The bound details: the fingerprint is added, and details that are no object are put into one. */
  lemma BindMeans(plan: Json, details: Json, hash: Hash)
    ensures var named := if details.Obj? then details else Obj(map["details" := details]);
            Bind(plan, details, hash) == Obj(named.fields["plan_hash" := Str(hash(Hashed(plan, named)))])
  {
    PayloadIs(plan, if details.Obj? then details else Obj(map["details" := details]));
  }

  lemma SamePayload(plan: Json, details: Json, plan': Json, details': Json)
    ensures Payload(plan, details) == Payload(plan', details') <==>
              Proposal(plan) == Proposal(plan') && WithoutFields(details, {"plan_hash"}) == WithoutFields(details', {"plan_hash"})
  {
    var a, b := Payload(plan, details), Payload(plan', details');
    if a == b {
      assert a.fields["plan"] == b.fields["plan"] && a.fields["details"] == b.fields["details"];
    }
  }

  lemma WritingControls(fields: map<string, Json>, key: string, value: Json)
    requires key in CONTROL_FIELDS
    ensures Proposal(Obj(fields[key := value])) == Proposal(Obj(fields))
  {
    assert fields[key := value] - CONTROL_FIELDS == fields - CONTROL_FIELDS;
  }

  lemma HashOutside(details: Json, value: Json)
    requires details.Obj?
    ensures WithoutFields(Obj(details.fields["plan_hash" := value]), {"plan_hash"}) == WithoutFields(details, {"plan_hash"})
  {
    assert details.fields["plan_hash" := value] - {"plan_hash"} == details.fields - {"plan_hash"};
  }

  /** The fingerprint in bound details is the fingerprint of the bound details. */
  lemma BoundHash(plan: Json, details: Json, hash: Hash)
    ensures Get(Bind(plan, details, hash), "plan_hash") == Some(Str(Fingerprint(plan, Bind(plan, details, hash), hash)))
  {
    var named := if details.Obj? then details else Obj(map["details" := details]);
    HashOutside(named, Str(Fingerprint(plan, named, hash)));
  }

  // Binding, then approving.

  /** Bound details stored where the approval update looks for them make the plan approved. */
  lemma BindThenApprove(j: Job, details: Json, hash: Hash)
    requires j.plan.Obj? && j.state == WaitingApproval && !j.cancelRequested
    ensures var bound := j.(plan := Obj(j.plan.fields["approval_details" := Bind(j.plan, details, hash)]));
            Approvable(bound) && PlanIsApproved(ApprovedRow(bound).plan, hash)
  {
    var b := Bind(j.plan, details, hash);
    var plan := Obj(j.plan.fields["approval_details" := b]);
    BoundHash(j.plan, details, hash);
    var approved := ApprovedPlan(plan);
    var h := b.fields["plan_hash"];
    WritingControls(j.plan.fields, "approval_details", b);
    WritingControls(plan.fields, "approved", Bool(true));
    WritingControls(plan.fields["approved" := Bool(true)], "approved_hash", h);
    SamePayload(approved, b, j.plan, b);
  }

  /** Skipping items neither makes nor breaks an approval. */
  lemma SkipKeepsApproval(j: Job, hash: Hash)
    requires Skippable(j)
    ensures PlanIsApproved(SkippedRow(j).plan, hash) <==> PlanIsApproved(j.plan, hash)
  {
    WritingControls(j.plan.fields, "skipped_items", SkippedItems(j.plan, j.currentItem.value));
  }

  /** Approving twice changes nothing. */
  lemma ApprovedAgain(j: Job, hash: Hash)
    requires Approvable(j) && PlanIsApproved(j.plan, hash)
    ensures ApprovedRow(j).plan == j.plan
  {
    assert ApprovedPlan(j.plan).fields == j.plan.fields;
  }

  /** With the approval fields as they were, exactly the approved proposal with exactly its details is approved. */
  lemma ExactlyTheApproved(plan: Json, other: Json, hash: Hash)
    requires Injective(hash) && PlanIsApproved(plan, hash)
    requires Get(other, "approved") == Get(plan, "approved") && Get(other, "approved_hash") == Get(plan, "approved_hash")
    ensures PlanIsApproved(other, hash) <==>
              Proposal(other) == Proposal(plan) && Get(other, "approval_details") == Get(plan, "approval_details")
  {
    var details := Get(plan, "approval_details").value;
    if Get(other, "approval_details").Some? {
      var details' := Get(other, "approval_details").value;
      SamePayload(plan, details, other, details');
      if PlanIsApproved(other, hash) {
        assert hash(Payload(plan, details)) == hash(Payload(other, details'));
        SameDetails(details, details');
      }
    }
  }

  lemma SameDetails(a: Json, b: Json)
    requires a.Obj? && b.Obj? && Get(a, "plan_hash").Some? && Get(a, "plan_hash") == Get(b, "plan_hash")
    requires WithoutFields(a, {"plan_hash"}) == WithoutFields(b, {"plan_hash"})
    ensures a == b
  {
    forall key
      ensures key in a.fields <==> key in b.fields
      ensures key in a.fields ==> a.fields[key] == b.fields[key]
    {
      if key != "plan_hash" {
        assert key in a.fields <==> key in (a.fields - {"plan_hash"});
        assert key in b.fields <==> key in (b.fields - {"plan_hash"});
        assert key in a.fields ==> (a.fields - {"plan_hash"})[key] == a.fields[key];
        assert key in b.fields ==> (b.fields - {"plan_hash"})[key] == b.fields[key];
      }
    }
    assert a.fields == b.fields;
  }

  /** Any change to a field of the proposal withdraws the approval. */
  lemma ChangedProposal(plan: Json, key: string, value: Json, hash: Hash)
    requires Injective(hash) && PlanIsApproved(plan, hash)
    requires key !in {"approved", "approved_hash", "approval_details", "skipped_items"} && Get(plan, key) != Some(value)
    ensures !PlanIsApproved(Obj(plan.fields[key := value]), hash)
  {
    var other := Obj(plan.fields[key := value]);
    ExactlyTheApproved(plan, other, hash);
    assert key in (other.fields - CONTROL_FIELDS) && (other.fields - CONTROL_FIELDS)[key] == value;
    assert key in (plan.fields - CONTROL_FIELDS) ==> (plan.fields - CONTROL_FIELDS)[key] == plan.fields[key];
  }

  /** So does a change to the details, the fingerprint in them included. */
  lemma ChangedDetails(plan: Json, details: Json, hash: Hash)
    requires Injective(hash) && PlanIsApproved(plan, hash)
    requires Get(plan, "approval_details") != Some(details)
    ensures !PlanIsApproved(Obj(plan.fields["approval_details" := details]), hash)
  {
    ExactlyTheApproved(plan, Obj(plan.fields["approval_details" := details]), hash);
  }

  // The plan a worker parks.

  /** The row left when a worker parks a job: the bound details are merged into the plan itself. */
  ghost function Parked(j: Job, details: Json, hash: Hash): Job {
    WaitingRow(j, Bind(j.plan, details, hash))
  }

  ghost predicate HoldsHash(value: Option<Json>) {
    value.Some? && value.value.Obj? && Text(Get(value.value, "plan_hash")).Some?
  }

  /**
   * The approval update acts on a parked job only when the details themselves bring a nested
   * approval_details object with a fingerprint, or the plan already had one and the details bring none.
   */
  lemma ParkedIsApprovable(j: Job, details: Json, hash: Hash)
    requires j.plan.Obj? && !j.cancelRequested
    ensures Approvable(Parked(j, details, hash)) <==>
              HoldsHash(if Get(details, "approval_details").Some? then Get(details, "approval_details")
                        else Get(j.plan, "approval_details"))
  {
    assert Parked(j, details, hash).plan == Obj(j.plan.fields + Bind(j.plan, details, hash).fields);
  }

  /** Binding adds the fingerprint and keeps every other field. */
  lemma BindKeeps(plan: Json, details: Json, hash: Hash, key: string)
    requires key != "plan_hash"
    ensures Get(Bind(plan, details, hash), key) == Get(if details.Obj? then details else Obj(map["details" := details]), key)
  {
  }

  /** The details the worker parks jobs with: a waiting notice, a CI repair proposal, or none. */
  datatype WorkerDetails = Notice(summary: string, blocker: string) | RepairProposal(result: Json) | Nothing
  {
    ghost function ToJson(): Json {
      match this
      case Notice(summary, blocker) => Obj(map["summary" := Str(summary), "blocker" := Str(blocker)])
      case RepairProposal(result) => Obj(map["pi_result" := result])
      case Nothing => Obj(map[])
    }
  }

  /** None of them brings a nested fingerprint, so parking does not make a plan approvable that was not. */
  lemma OrdinaryDetailsCannotBeApproved(j: Job, details: WorkerDetails, hash: Hash)
    requires j.plan.Obj? && !j.cancelRequested
    ensures Approvable(Parked(j, details.ToJson(), hash)) <==> HoldsHash(Get(j.plan, "approval_details"))
  {
    ParkedIsApprovable(j, details.ToJson(), hash);
  }

  // Over runs.

  ghost predicate Waits(op: Op, job: int) {
    op.Wait? && op.job == job
  }

  ghost predicate JobApproved(jobs: Jobs, job: int, hash: Hash) {
    job in jobs && PlanIsApproved(jobs[job].plan, hash)
  }

  ghost predicate NeverWaits(ops: seq<Op>, job: int) {
    forall i | 0 <= i < |ops| :: !Waits(ops[i], job)
  }

  lemma StepPlan(w: World, op: Op, job: int)
    requires Possible(w, op) && job in w.jobs && !Waits(op, job)
    ensures job in TableAfter(w, op)
    ensures var j, k := w.jobs[job], TableAfter(w, op)[job];
            || k.plan == j.plan
            || (Approvable(j) && k.plan == ApprovedRow(j).plan)
            || (Skippable(j) && k.plan == SkippedRow(j).plan)
  {
    hide Approvable, Skippable, Leaseable, Exhausted, ApprovedPlan, SkippedItems;
  }

  lemma StepKeepsApproval(w: World, op: Op, job: int, hash: Hash)
    requires Possible(w, op) && JobApproved(w.jobs, job, hash) && !Waits(op, job)
    ensures JobApproved(Next(w, op).jobs, job, hash)
  {
    hide PlanIsApproved, TableAfter, Possible, Approvable, Skippable, ApprovedRow, SkippedRow;
    StepPlan(w, op, job);
    var j := w.jobs[job];
    if Approvable(j) {
      ApprovedAgain(j, hash);
    }
    if Skippable(j) {
      SkipKeepsApproval(j, hash);
    }
  }

  /** Whatever runs, an approval lasts until a worker parks the job with new details. */
  lemma {:induction false} RunKeepsApproval(w: World, ops: seq<Op>, job: int, hash: Hash)
    requires AllPossible(w, ops) && JobApproved(w.jobs, job, hash) && NeverWaits(ops, job)
    ensures JobApproved(After(w, ops).jobs, job, hash)
    decreases |ops|
  {
    hide JobApproved, Next, Possible, Waits;
    if ops != [] {
      assert !Waits(ops[0], job);
      StepKeepsApproval(w, ops[0], job, hash);
      forall i | 0 <= i < |ops[1..]|
        ensures !Waits(ops[1..][i], job)
      {
        assert !Waits(ops[i + 1], job);
      }
      RunKeepsApproval(Next(w, ops[0]), ops[1..], job, hash);
    }
  }

  /** No step parks this job with details that hold a nested approval_details. */
  ghost predicate OrdinaryWait(op: Op, job: int) {
    Waits(op, job) ==> Get(op.details, "approval_details").None?
  }

  ghost predicate OrdinaryWaits(ops: seq<Op>, job: int) {
    forall i | 0 <= i < |ops| :: OrdinaryWait(ops[i], job)
  }

  ghost predicate NothingToApprove(jobs: Jobs, job: int) {
    job in jobs && !HoldsHash(Get(jobs[job].plan, "approval_details"))
  }

  lemma WaitKeepsNothing(j: Job, details: Json)
    requires !HoldsHash(Get(j.plan, "approval_details")) && Get(details, "approval_details").None?
    ensures !HoldsHash(Get(WaitingRow(j, details).plan, "approval_details"))
  {
  }

  lemma SkipKeepsNothing(j: Job)
    requires Skippable(j) && !HoldsHash(Get(j.plan, "approval_details"))
    ensures !HoldsHash(Get(SkippedRow(j).plan, "approval_details"))
  {
  }

  lemma StepKeepsNothing(w: World, op: Op, job: int)
    requires Possible(w, op) && NothingToApprove(w.jobs, job) && OrdinaryWait(op, job)
    ensures NothingToApprove(Next(w, op).jobs, job)
  {
    hide HoldsHash, Possible, Skippable, SkippedRow, Holds;
    var j := w.jobs[job];
    if Waits(op, job) {
      WaitKeepsNothing(j, op.details);
    } else {
      hide TableAfter, WaitingRow;
      StepPlan(w, op, job);
      NothingIsNotApprovable(j);
      if Skippable(j) {
        SkipKeepsNothing(j);
      }
    }
  }

  lemma NothingIsNotApprovable(j: Job)
    requires !HoldsHash(Get(j.plan, "approval_details"))
    ensures !Approvable(j)
  {
  }

  /** With the details the worker builds, no run ever gets a job approved that was inserted without a nested fingerprint. */
  lemma {:induction false} NeverApproved(w: World, ops: seq<Op>, job: int, hash: Hash)
    requires AllPossible(w, ops) && NothingToApprove(w.jobs, job) && OrdinaryWaits(ops, job)
    ensures NothingToApprove(After(w, ops).jobs, job)
    ensures !JobApproved(After(w, ops).jobs, job, hash) && !Approvable(After(w, ops).jobs[job])
    decreases |ops|
  {
    hide Next, Possible, OrdinaryWait;
    if ops != [] {
      assert OrdinaryWait(ops[0], job);
      StepKeepsNothing(w, ops[0], job);
      forall i | 0 <= i < |ops[1..]|
        ensures OrdinaryWait(ops[1..][i], job)
      {
        assert OrdinaryWait(ops[i + 1], job);
      }
      NeverApproved(Next(w, ops[0]), ops[1..], job, hash);
    }
  }

  /** What the worker binds and parks is of that kind, so its own runs never get such a job approved. */
  lemma WorkerWaitsAreOrdinary(plan: Json, details: WorkerDetails, hash: Hash, job: int, worker: string, token: int)
    ensures OrdinaryWait(Op.Wait(job, worker, token, Bind(plan, details.ToJson(), hash)), job)
  {
    BindKeeps(plan, details.ToJson(), hash, "approval_details");
  }
}
