/** Requested actions of check runs: checked, recorded once, then applied to the queue (src/workflow.rs). */
module ControlDelivery {
  import opened Basics
  import opened Queue
  import Controls
  import ControlRules
  import QueueRuns
  import QueueSteps

  datatype CheckRunControl = CheckRunControl(checkRunId: int, action: string, actor: string)

  datatype Delivery = Delivery(
    id: string, repository: Option<int>, pullRequest: Option<int>, control: Option<CheckRunControl>)

  /** What the service knows about a check run it created; no maintainers when the stored policy cannot be read. */
  datatype Context = Context(job: int, repository: int, pullRequest: int, author: string, maintainers: Option<seq<string>>)

  datatype Record = Record(action: string, actor: string, decision: string)

  type Records = map<(int, string), Record>

  datatype Disposition =
    | NotAControlEvent | UnknownCheckRun | RejectedContext | RejectedUnknown | RejectedUnauthorized
    | Duplicate | Applied | RunNotActive | PolicyError

  function ParseAction(action: string): Option<Controls.Action> {
    match action
    case "approve-plan" => Some(Controls.ApprovePlan)
    case "skip-current-item" => Some(Controls.SkipCurrentItem)
    case "cancel-run" => Some(Controls.CancelRun)
    case _ => None
  }

  predicate MatchesContext(d: Delivery, c: Context) {
    d.repository == Some(c.repository) && d.pullRequest == Some(c.pullRequest)
  }

  /** The job an action would change. */
  ghost predicate Acts(j: Job, action: Controls.Action) {
    match action
    case ApprovePlan => j.state == WaitingApproval && !j.cancelRequested && HasNestedHash(j.plan)
    case SkipCurrentItem =>
      j.state in {Running, WaitingApproval} && !j.cancelRequested && j.currentItem !in {None, Some("")} && j.plan.Obj?
    case CancelRun => j.state in {Queued, Running, WaitingApproval}
  }

  // What the service makes of a delivery, said of its literal contents.

  ghost predicate Known(d: Delivery, contexts: map<int, Context>) {
    d.control.Some? && d.control.value.checkRunId in contexts
  }

  ghost predicate FromItsPlace(d: Delivery, contexts: map<int, Context>) {
    && Known(d, contexts)
    && d.repository == Some(contexts[d.control.value.checkRunId].repository)
    && d.pullRequest == Some(contexts[d.control.value.checkRunId].pullRequest)
  }

  /** Its policy can be read, where it is needed: a delivery from elsewhere is put on record without it. */
  ghost predicate Recorded(d: Delivery, contexts: map<int, Context>) {
    Known(d, contexts) && (FromItsPlace(d, contexts) ==> contexts[d.control.value.checkRunId].maintainers.Some?)
  }

  ghost predicate NamesAction(d: Delivery) {
    && d.control.Some?
    && (d.control.value.action == "approve-plan" || d.control.value.action == "skip-current-item"
        || d.control.value.action == "cancel-run")
  }

  ghost function ActionOf(d: Delivery): Controls.Action
    requires NamesAction(d)
  {
    if d.control.value.action == "approve-plan" then Controls.ApprovePlan
    else if d.control.value.action == "skip-current-item" then Controls.SkipCurrentItem
    else Controls.CancelRun
  }

  ghost predicate BySomeoneWhoMay(d: Delivery, contexts: map<int, Context>) {
    && Known(d, contexts)
    && var c := contexts[d.control.value.checkRunId];
       c.maintainers.Some? && ControlRules.MayControl(d.control.value.actor, c.author, c.maintainers.value)
  }

  /** A control of a known check run, from its own repository and pull request, of a known kind, by someone who may. */
  ghost predicate Admitted(d: Delivery, contexts: map<int, Context>) {
    FromItsPlace(d, contexts) && NamesAction(d) && BySomeoneWhoMay(d, contexts)
  }

  ghost function JobOf(d: Delivery, contexts: map<int, Context>): int
    requires Known(d, contexts)
  {
    contexts[d.control.value.checkRunId].job
  }

  /** What is put on record. */
  ghost function Decision(d: Delivery, contexts: map<int, Context>): string {
    if !FromItsPlace(d, contexts) then "rejected-context"
    else if !NamesAction(d) then "rejected-unknown"
    else if !BySomeoneWhoMay(d, contexts) then "rejected-unauthorized"
    else "accepted"
  }

  lemma ParseActionIs(d: Delivery)
    requires d.control.Some?
    ensures ParseAction(d.control.value.action) == if NamesAction(d) then Some(ActionOf(d)) else None
  {
  }

  /** The first record of a delivery stays. */
  function Keep(records: Records, job: int, d: Delivery, decision: string): Records
    requires d.control.Some?
  {
    if (job, d.id) in records then records
    else records[(job, d.id) := Record(d.control.value.action, d.control.value.actor, decision)]
  }

  /** A control acts when it is admitted and its delivery is new. */
  ghost predicate Fires(records: Records, d: Delivery, contexts: map<int, Context>) {
    Admitted(d, contexts) && (JobOf(d, contexts), d.id) !in records
  }

  ghost function JobsAfter(jobs: Jobs, records: Records, d: Delivery, contexts: map<int, Context>): Jobs {
    if Fires(records, d, contexts) then QueueRuns.Controlled(jobs, JobOf(d, contexts), ActionOf(d)) else jobs
  }

  /** A delivery that is put on record is so once for its job, with its action, its actor and what was decided. */
  ghost predicate RecordsAfter(records: Records, d: Delivery, contexts: map<int, Context>, after: Records) {
    if Recorded(d, contexts) && (JobOf(d, contexts), d.id) !in records then
      after == records[(JobOf(d, contexts), d.id) :=
                 Record(d.control.value.action, d.control.value.actor, Decision(d, contexts))]
    else after == records
  }

  /** The answer to a delivery. */
  ghost function Answer(jobs: Jobs, records: Records, d: Delivery, contexts: map<int, Context>): Disposition {
    if d.control.None? then NotAControlEvent
    else if !Known(d, contexts) then UnknownCheckRun
    else if !FromItsPlace(d, contexts) then RejectedContext
    else if !Recorded(d, contexts) then PolicyError
    else if !NamesAction(d) then RejectedUnknown
    else if !BySomeoneWhoMay(d, contexts) then RejectedUnauthorized
    else if (JobOf(d, contexts), d.id) in records then Duplicate
    else if JobOf(d, contexts) in jobs && Acts(jobs[JobOf(d, contexts)], ActionOf(d)) then Applied
    else RunNotActive
  }

  /** The records and the job table behind the webhook. */
  class ControlDesk {
    const table: JobTable
    var records: Records

    constructor (table: JobTable, records: Records)
      ensures this.table == table && this.records == records
    {
      this.table, this.records := table, records;
    }

    /** One row for each job and delivery, the first one. */
    method RecordJobControl(job: int, d: Delivery, decision: string) returns (inserted: bool)
      requires d.control.Some?
      modifies this
      ensures inserted <==> (job, d.id) !in old(records)
      ensures records == if inserted
                         then old(records)[(job, d.id) := Record(d.control.value.action, d.control.value.actor, decision)]
                         else old(records)
    {
      inserted := (job, d.id) !in records;
      records := Keep(records, job, d, decision);
    }

    method ApplyAction(job: int, action: Controls.Action) returns (changed: bool)
      modifies table
      ensures changed <==> job in old(table.jobs) && Acts(old(table.jobs)[job], action)
      ensures table.jobs == QueueRuns.Controlled(old(table.jobs), job, action)
    {
      match action {
        case ApprovePlan => changed := table.ApprovePlan(job);
        case SkipCurrentItem =>
          changed := table.SkipCurrentItem(job);
          if changed {
            QueueSteps.SkipIs(old(table.jobs)[job], table.jobs[job]);
          }
        case CancelRun => changed := table.RequestCancel(job);
      }
    }

    method Process(d: Delivery, contexts: map<int, Context>) returns (r: Disposition)
      modifies this, table
      ensures table.jobs == JobsAfter(old(table.jobs), old(records), d, contexts)
      ensures RecordsAfter(old(records), d, contexts, records)
      ensures r == Answer(old(table.jobs), old(records), d, contexts)
    {
      hide Acts, Approvable, Skippable, ParseAction, ControlRules.MayControl, Controls.IsAuthorized;
      if d.control.None? {
        return NotAControlEvent;
      }
      var control := d.control.value;
      if control.checkRunId !in contexts {
        return UnknownCheckRun;
      }
      var context := contexts[control.checkRunId];
      if !MatchesContext(d, context) {
        var inserted := RecordJobControl(context.job, d, "rejected-context");
        return RejectedContext;
      }
      if context.maintainers.None? {
        return PolicyError;
      }
      var action := ParseAction(control.action);
      ParseActionIs(d);
      if action.None? {
        var inserted := RecordJobControl(context.job, d, "rejected-unknown");
        return RejectedUnknown;
      }
      ControlRules.AuthorizedIs(control.actor, context.author, context.maintainers.value);
      if !Controls.IsAuthorized(control.actor, context.author, context.maintainers.value) {
        var inserted := RecordJobControl(context.job, d, "rejected-unauthorized");
        return RejectedUnauthorized;
      }
      var inserted := RecordJobControl(context.job, d, "accepted");
      if !inserted {
        return Duplicate;
      }
      var changed := ApplyAction(context.job, action.value);
      return if changed then Applied else RunNotActive;
    }
  }

  // Redelivery.

  /** A delivery with what the service knew when it came. */
  datatype Arrival = Arrival(delivery: Delivery, contexts: map<int, Context>)
  {
    ghost predicate IsRecorded() {
      Recorded(delivery, contexts)
    }
  }

  /** The records before each arrival of a list, and after the last. */
  ghost predicate IsHistory(arrivals: seq<Arrival>, states: seq<Records>) {
    |states| == |arrivals| + 1
    && forall i | 0 <= i < |arrivals| :: RecordsAfter(states[i], arrivals[i].delivery, arrivals[i].contexts, states[i + 1])
  }

  ghost predicate Grows(before: Records, after: Records) {
    forall key | key in before :: key in after && after[key] == before[key]
  }

  lemma ProcessingGrows(records: Records, d: Delivery, contexts: map<int, Context>, after: Records)
    requires RecordsAfter(records, d, contexts, after)
    ensures Grows(records, after)
  {
  }

  /** Records only grow, over any list of arrivals. */
  lemma {:induction false} HistoryGrows(arrivals: seq<Arrival>, states: seq<Records>, i: nat, j: nat)
    requires IsHistory(arrivals, states) && i <= j <= |arrivals|
    ensures Grows(states[i], states[j])
    decreases j - i
  {
    hide RecordsAfter;
    if i < j {
      HistoryGrows(arrivals, states, i, j - 1);
      ProcessingGrows(states[j - 1], arrivals[j - 1].delivery, arrivals[j - 1].contexts, states[j]);
    }
  }

  /** The two are the same delivery, of a check run of the same job. */
  ghost predicate Redelivers(a: Arrival, b: Arrival) {
    && Known(a.delivery, a.contexts) && Known(b.delivery, b.contexts) && a.delivery.id == b.delivery.id
    && JobOf(a.delivery, a.contexts) == JobOf(b.delivery, b.contexts)
  }

  /**
   * In any list of arrivals: once a delivery is on record, the same delivery changes no job when it comes
   * again, whatever came in between and whatever the service has learned since.
   */
  lemma RedeliveryDoesNothing(arrivals: seq<Arrival>, states: seq<Records>, i: nat, j: nat, jobs: Jobs)
    requires IsHistory(arrivals, states) && i < j < |arrivals|
    requires arrivals[i].IsRecorded() && Redelivers(arrivals[i], arrivals[j])
    ensures JobsAfter(jobs, states[j], arrivals[j].delivery, arrivals[j].contexts) == jobs
  {
    HistoryGrows(arrivals, states, i + 1, j);
    assert RecordsAfter(states[i], arrivals[i].delivery, arrivals[i].contexts, states[i + 1]);
  }

  /** So no delivery acts twice. */
  lemma ActsOnce(arrivals: seq<Arrival>, states: seq<Records>, i: nat, j: nat)
    requires IsHistory(arrivals, states) && i < j < |arrivals| && Redelivers(arrivals[i], arrivals[j])
    requires Fires(states[i], arrivals[i].delivery, arrivals[i].contexts)
    ensures !Fires(states[j], arrivals[j].delivery, arrivals[j].contexts)
  {
    HistoryGrows(arrivals, states, i + 1, j);
    assert RecordsAfter(states[i], arrivals[i].delivery, arrivals[i].contexts, states[i + 1]);
  }

  ghost predicate IsActionText(text: string, action: Controls.Action) {
    match action
    case ApprovePlan => text == "approve-plan"
    case SkipCurrentItem => text == "skip-current-item"
    case CancelRun => text == "cancel-run"
  }

  /** The records of the desk are those of the runs of the queue. */
  ghost predicate Related(records: Records, w: QueueRuns.World) {
    && records.Keys == w.controls.Keys
    && forall key | key in records ::
         && (w.controls[key].1 <==> records[key].decision == "accepted")
         && (records[key].decision == "accepted" ==> IsActionText(records[key].action, w.controls[key].0))
  }

  ghost function RecordOp(d: Delivery, contexts: map<int, Context>): QueueRuns.Op
    requires Known(d, contexts)
  {
    QueueRuns.Record(JobOf(d, contexts), d.id, if NamesAction(d) then ActionOf(d) else Controls.CancelRun, Admitted(d, contexts))
  }

  /** Processing a known delivery is recording it and, when it fires, applying it. */
  ghost function OpsOf(records: Records, d: Delivery, contexts: map<int, Context>): seq<QueueRuns.Op>
    requires Known(d, contexts)
  {
    if Fires(records, d, contexts) then [RecordOp(d, contexts), QueueRuns.Apply(JobOf(d, contexts), d.id)]
    else if Recorded(d, contexts) then [RecordOp(d, contexts)]
    else []
  }

  lemma RunOfTwo(w: QueueRuns.World, a: QueueRuns.Op, b: QueueRuns.Op)
    ensures QueueRuns.After(w, []) == w && QueueRuns.AllPossible(w, [])
    ensures QueueRuns.After(w, [a]) == QueueRuns.Next(w, a)
    ensures QueueRuns.After(w, [a, b]) == QueueRuns.Next(QueueRuns.Next(w, a), b)
    ensures QueueRuns.AllPossible(w, [a]) <==> QueueRuns.Possible(w, a)
    ensures QueueRuns.AllPossible(w, [a, b]) <==> QueueRuns.Possible(w, a) && QueueRuns.Possible(QueueRuns.Next(w, a), b)
  {
    hide QueueRuns.Next, QueueRuns.Possible;
    assert [a, b][1..] == [b] && [a][1..] == [] && [b][1..] == [];
    assert QueueRuns.After(QueueRuns.Next(w, a), [b]) == QueueRuns.Next(QueueRuns.Next(w, a), b);
    assert QueueRuns.AllPossible(QueueRuns.Next(w, a), [b]) <==> QueueRuns.Possible(QueueRuns.Next(w, a), b);
  }

  lemma RecordStep(w: QueueRuns.World, records: Records, d: Delivery, contexts: map<int, Context>, after: Records)
    requires Recorded(d, contexts) && Related(records, w) && RecordsAfter(records, d, contexts, after)
    ensures QueueRuns.Possible(w, RecordOp(d, contexts))
    ensures var next := QueueRuns.Next(w, RecordOp(d, contexts));
            && Related(after, next) && next.jobs == w.jobs
            && (Fires(records, d, contexts) ==>
                  (JobOf(d, contexts), d.id) in next.pending && (JobOf(d, contexts), d.id) in next.controls
                  && next.controls[(JobOf(d, contexts), d.id)].0 == ActionOf(d))
  {
    hide BySomeoneWhoMay;
  }

  lemma ApplyStep(w: QueueRuns.World, job: int, request: string)
    requires (job, request) in w.pending && (job, request) in w.controls
    ensures QueueRuns.Possible(w, QueueRuns.Apply(job, request))
    ensures var next := QueueRuns.Next(w, QueueRuns.Apply(job, request));
            next.jobs == QueueRuns.Controlled(w.jobs, job, w.controls[(job, request)].0) && next.controls == w.controls
  {
    hide QueueRuns.Controlled;
  }

  /** So everything that holds of all runs of the queue holds with deliveries processed in them. */
  lemma ProcessIsRun(w: QueueRuns.World, records: Records, d: Delivery, contexts: map<int, Context>, after: Records)
    requires Known(d, contexts) && Related(records, w) && RecordsAfter(records, d, contexts, after)
    ensures QueueRuns.AllPossible(w, OpsOf(records, d, contexts))
    ensures QueueRuns.After(w, OpsOf(records, d, contexts)).jobs == JobsAfter(w.jobs, records, d, contexts)
    ensures Related(after, QueueRuns.After(w, OpsOf(records, d, contexts)))
  {
    hide QueueRuns.Controlled, QueueRuns.Next, QueueRuns.Possible, QueueRuns.After, QueueRuns.AllPossible;
    hide ControlRules.MayControl, NamesAction, ActionOf, RecordOp;
    RunOfTwo(w, RecordOp(d, contexts), QueueRuns.Apply(JobOf(d, contexts), d.id));
    if Recorded(d, contexts) {
      RecordStep(w, records, d, contexts, after);
      var next := QueueRuns.Next(w, RecordOp(d, contexts));
      if Fires(records, d, contexts) {
        ApplyStep(next, JobOf(d, contexts), d.id);
      }
    }
  }
}
