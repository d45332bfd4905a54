/** migrations/0007_queue_hardening.sql, on any job table. */
module QueueMigration {
  import opened Basics
  import opened Ordering
  import opened Json
  import T = Text
  import opened Queue
  import opened QueueRuns

  function Max(a: int, b: int): int {
    if a < b then b else a
  }

  /** attempt and max_attempts, both read before either is written. */
  function BoundedRow(j: Job): Job {
    j.(attempt := Max(j.attempt, 0), maxAttempts := Max(Max(j.maxAttempts, j.attempt), 1))
  }

  function StoppedRow(j: Job): Job {
    if j.cancelRequested && j.Active() then j.Released().(state := Cancelled) else j
  }

  function UnleasedRow(j: Job): Job {
    if j.state != Running then j.Released() else j
  }

  function DuplicateRow(j: Job, canonical: int): Job {
    j.Released().(
      state := Cancelled, cancelRequested := true,
      result := Some(Obj(map[
        "reason" := Str("deduplicated_by_queue_hardening_migration"), "canonical_job_id" := Str(T.IntText(canonical))])))
  }

  /** What the first three statements leave of a row: sound bounds, no cancelled job to run, no lease but of a running job. */
  ghost function Mended(j: Job): Job {
    j.(attempt := if j.attempt < 0 then 0 else j.attempt,
       maxAttempts := if j.maxAttempts < 1 && j.attempt < 1 then 1 else if j.maxAttempts < j.attempt then j.attempt else j.maxAttempts,
       state := if j.cancelRequested && j.state in {Queued, Running, WaitingApproval} then Cancelled else j.state,
       leaseOwner := if j.state == Running && !j.cancelRequested then j.leaseOwner else None,
       leaseUntil := if j.state == Running && !j.cancelRequested then j.leaseUntil else None,
       leaseToken := if j.state == Running && !j.cancelRequested then j.leaseToken else None)
  }

  ghost function Repaired(jobs: Jobs): Jobs {
    map id | id in jobs :: Mended(jobs[id])
  }

  /** The oldest active job of its identity. */
  ghost predicate IsCanonical(jobs: Jobs, id: int) {
    && id in jobs && jobs[id].state in {Queued, Running, WaitingApproval}
    && forall other | other in jobs && other != id && Rival(jobs[other], jobs[id]) :: Older(jobs[id], id, jobs[other], other)
  }

  /** Cancelled for the older job of its identity, whose id is kept as text. */
  ghost predicate IsDuplicate(before: Job, canonical: int, row: Job) {
    row == before.(
      state := Cancelled, cancelRequested := true, leaseOwner := None, leaseUntil := None, leaseToken := None,
      result := Some(Obj(map[
        "reason" := Str("deduplicated_by_queue_hardening_migration"), "canonical_job_id" := Str(T.IntText(canonical))])))
  }

  /** The row the last statement leaves: canonical and terminal rows as they are, a duplicate cancelled. */
  ghost predicate Deduplicated(before: Jobs, id: int, row: Job)
    requires id in before
  {
    if before[id].state !in {Queued, Running, WaitingApproval} || IsCanonical(before, id) then row == before[id]
    else exists canonical ::
           IsCanonical(before, canonical) && Rival(before[canonical], before[id]) && IsDuplicate(before[id], canonical, row)
  }

  method Harden(t: JobTable)
    modifies t
    ensures t.jobs.Keys == old(t.jobs).Keys
    ensures forall id | id in t.jobs :: Deduplicated(Repaired(old(t.jobs)), id, t.jobs[id])
  {
    t.jobs := map id | id in t.jobs :: BoundedRow(t.jobs[id]);
    t.jobs := map id | id in t.jobs :: StoppedRow(t.jobs[id]);
    t.jobs := map id | id in t.jobs :: UnleasedRow(t.jobs[id]);
    IsRepaired(old(t.jobs), t.jobs);
    t.jobs := Deduplicate(t.jobs);
  }

  method Deduplicate(before: Jobs) returns (after: Jobs)
    ensures after.Keys == before.Keys
    ensures forall id | id in after :: Deduplicated(before, id, after[id])
  {
    hide *;
    var ids := AscendInts(before.Keys);
    after := before;
    NothingDone(ids);
    for i := 0 to |ids|
      invariant after.Keys == before.Keys
      invariant forall id | id in Elements(ids[..i]) && id in before :: Deduplicated(before, id, after[id])
      invariant forall id | id in before && id !in Elements(ids[..i]) :: after[id] == before[id]
    {
      AscendStep(ids, i);
      var row := DeduplicatedRow(before, ids[i]);
      after := after[ids[i] := row];
    }
    assert ids[..|ids|] == ids;
  }

  lemma NothingDone(ids: seq<int>)
    ensures Elements(ids[..0]) == {}
  {
  }

  method DeduplicatedRow(before: Jobs, id: int) returns (row: Job)
    requires id in before
    ensures Deduplicated(before, id, row)
  {
    row := before[id];
    if row.Active() {
      var canonical := OldestRival(before, id);
      if canonical != id {
        row := DuplicateRow(row, canonical);
        assert !IsCanonical(before, id) by {
          assert Rival(before[canonical], before[id]) && Older(before[canonical], canonical, before[id], id);
        }
      }
    }
  }

  /** The first of the partition in (created_at, id) order. */
  method OldestRival(jobs: Jobs, id: int) returns (oldest: int)
    requires id in jobs && jobs[id].Active()
    ensures oldest in jobs && Rival(jobs[oldest], jobs[id]) && IsCanonical(jobs, oldest)
    ensures oldest != id ==> Older(jobs[oldest], oldest, jobs[id], id)
  {
    hide *;
    RivalUnfolds(jobs[id], jobs[id]);
    ActiveUnfolds(jobs[id]);
    var ids := AscendInts(jobs.Keys);
    oldest := id;
    NothingDone(ids);
    for i := 0 to |ids|
      invariant oldest in jobs && Rival(jobs[oldest], jobs[id])
      invariant oldest == id || Older(jobs[oldest], oldest, jobs[id], id)
      invariant forall other | other in Elements(ids[..i]) && other in jobs && Rival(jobs[other], jobs[id]) ::
                  other == oldest || Older(jobs[oldest], oldest, jobs[other], other)
    {
      AscendStep(ids, i);
      oldest := OlderRival(jobs, id, oldest, ids[i]);
    }
    assert ids[..|ids|] == ids;
    IsOldestRival(jobs, oldest, id);
  }

  method OlderRival(jobs: Jobs, id: int, oldest: int, other: int) returns (r: int)
    requires id in jobs && oldest in jobs && other in jobs && jobs[id].Active()
    ensures r == if Rival(jobs[other], jobs[id]) && Older(jobs[other], other, jobs[oldest], oldest) then other else oldest
    ensures Older(jobs[other], other, jobs[oldest], oldest) || other == oldest || Older(jobs[oldest], oldest, jobs[other], other)
    ensures forall x | x in jobs && Older(jobs[oldest], oldest, jobs[x], x) :: x == r || Older(jobs[r], r, jobs[x], x)
  {
    var j := jobs[other];
    r := if j.Active() && SameIdentity(j, jobs[id]) && Precedes(jobs, other, oldest) then other else oldest;
  }

  lemma RivalUnfolds(a: Job, b: Job)
    ensures Rival(a, b) <==> a.Active() && b.Active() && SameIdentity(a, b)
    ensures a == b && a.Active() ==> Rival(a, b)
  {
  }

  lemma IsOldestRival(jobs: Jobs, oldest: int, id: int)
    requires id in jobs && oldest in jobs && Rival(jobs[oldest], jobs[id])
    requires forall other | other in jobs && Rival(jobs[other], jobs[id]) ::
               other == oldest || Older(jobs[oldest], oldest, jobs[other], other)
    ensures IsCanonical(jobs, oldest)
  {
    hide Older;
    forall other | other in jobs && other != oldest && Rival(jobs[other], jobs[oldest])
      ensures Older(jobs[oldest], oldest, jobs[other], other)
    {
      assert Rival(jobs[other], jobs[id]);
    }
  }

  /** The table after the migration, whatever it was before. */
  ghost predicate Hardened(before: Jobs, after: Jobs) {
    after.Keys == before.Keys && forall id | id in after :: Deduplicated(Repaired(before), id, after[id])
  }

  lemma RepairedRow(before: Jobs, id: int)
    requires id in before
    ensures RowSound(Repaired(before)[id]) && SameIdentity(before[id], Repaired(before)[id])
    ensures Repaired(before)[id].Active() <==> before[id].Active() && !before[id].cancelRequested
    ensures Repaired(before)[id].createdAt == before[id].createdAt
    ensures Repaired(before)[id].Active() || !before[id].Active() ==> Repaired(before)[id].state == before[id].state
    ensures !Repaired(before)[id].Active() && before[id].Active() ==> Repaired(before)[id].state == Cancelled
    ensures Repaired(before)[id].plan == before[id].plan && Repaired(before)[id].result == before[id].result
  {
  }

  lemma RepairedKeys(before: Jobs)
    ensures Repaired(before).Keys == before.Keys
  {
  }

  lemma IsRepaired(before: Jobs, after: Jobs)
    requires after.Keys == before.Keys
    requires forall id | id in after :: after[id] == UnleasedRow(StoppedRow(BoundedRow(before[id])))
    ensures after == Repaired(before)
  {
    assert after.Keys == Repaired(before).Keys;
    forall id | id in after
      ensures after[id] == Repaired(before)[id]
    {
    }
  }

  lemma HardenedRow(before: Jobs, after: Jobs, id: int)
    requires Hardened(before, after) && id in before
    ensures RowSound(after[id]) && SameIdentity(before[id], after[id])
    ensures after[id].Active() <==> IsCanonical(Repaired(before), id)
    ensures after[id].Active() || !before[id].Active() ==>
              && after[id].state == before[id].state && after[id].plan == before[id].plan
              && after[id].result == before[id].result
    ensures !after[id].Active() && before[id].Active() ==> after[id].state == Cancelled
  {
    hide *;
    HardenedUnfolds(before, after, id);
    RepairedRow(before, id);
    DeduplicatedRowIs(Repaired(before), id, after[id]);
    ActiveUnfolds(before[id]);
    ActiveUnfolds(after[id]);
    ActiveUnfolds(Repaired(before)[id]);
    SameIdentityUnfolds(before[id], Repaired(before)[id]);
    SameIdentityUnfolds(Repaired(before)[id], after[id]);
    SameIdentityUnfolds(before[id], after[id]);
  }

  lemma HardenedUnfolds(before: Jobs, after: Jobs, id: int)
    requires Hardened(before, after) && id in before
    ensures id in after && id in Repaired(before) && Deduplicated(Repaired(before), id, after[id])
  {
    hide Deduplicated, Mended;
  }

  lemma ActiveUnfolds(j: Job)
    ensures j.Active() <==> j.state in {Queued, Running, WaitingApproval}
  {
  }

  lemma SameIdentityUnfolds(a: Job, b: Job)
    ensures SameIdentity(a, b) <==> a.repository == b.repository && a.pullRequest == b.pullRequest && a.kind == b.kind
  {
  }

  lemma DeduplicatedRowIs(jobs: Jobs, id: int, row: Job)
    requires id in jobs && RowSound(jobs[id]) && Deduplicated(jobs, id, row)
    ensures RowSound(row) && SameIdentity(jobs[id], row)
    ensures row.Active() <==> IsCanonical(jobs, id)
    ensures row.Active() || !jobs[id].Active() ==> row == jobs[id]
    ensures !row.Active() && jobs[id].Active() ==> row.state == Cancelled
  {
    hide Rival, Older;
  }

  lemma CanonicalUnique(jobs: Jobs, a: int, b: int)
    requires IsCanonical(jobs, a) && IsCanonical(jobs, b) && Rival(jobs[a], jobs[b])
    ensures a == b
  {
    if a != b {
      assert Rival(jobs[b], jobs[a]);
    }
  }

  /** The migration takes any table to a sound one. */
  lemma MigrationSound(before: Jobs, after: Jobs)
    requires Hardened(before, after)
    ensures QueueSound(after)
  {
    hide Hardened, Repaired, IsCanonical;
    forall id | id in after
      ensures RowSound(after[id])
    {
      SameKeys(before, after);
      HardenedRow(before, after, id);
    }
    forall a, b | a in after && b in after && Rival(after[a], after[b])
      ensures a == b
    {
      SameKeys(before, after);
      HardenedRow(before, after, a);
      HardenedRow(before, after, b);
      RepairedRow(before, a);
      RepairedRow(before, b);
      CanonicalInTable(Repaired(before), a);
      CanonicalInTable(Repaired(before), b);
      CanonicalUnique(Repaired(before), a, b);
    }
  }

  lemma SameKeys(before: Jobs, after: Jobs)
    requires Hardened(before, after)
    ensures after.Keys == before.Keys
  {
  }

  lemma CanonicalInTable(jobs: Jobs, id: int)
    requires IsCanonical(jobs, id)
    ensures id in jobs && jobs[id].Active()
  {
  }

  /** And it loses no work: every identity that had a job to run keeps its oldest one, unchanged but for its bounds. */
  lemma MigrationKeepsOldest(before: Jobs, after: Jobs, id: int)
    requires Hardened(before, after) && id in before && before[id].Active() && !before[id].cancelRequested
    ensures exists kept ::
              && kept in after && after[kept].Active() && SameIdentity(after[kept], before[id])
              && after[kept].state == before[kept].state && after[kept].plan == before[kept].plan
              && (kept == id || Older(before[kept], kept, before[id], id))
  {
    hide *;
    HardenedUnfolds(before, after, id);
    RepairedRow(before, id);
    var kept := CanonicalOf(Repaired(before), id, after[id]);
    RepairedKeys(before);
    HardenedUnfolds(before, after, kept);
    RepairedRow(before, kept);
    CanonicalInTable(Repaired(before), kept);
    HardenedRow(before, after, kept);
    SameKeys(before, after);
    SameIdentityUnfolds(Repaired(before)[kept], Repaired(before)[id]);
    SameIdentityUnfolds(before[id], Repaired(before)[id]);
    SameIdentityUnfolds(before[kept], Repaired(before)[kept]);
    SameIdentityUnfolds(before[kept], after[kept]);
    SameIdentityUnfolds(after[kept], before[id]);
    OlderUnfolds(Repaired(before)[kept], kept, Repaired(before)[id], id);
    OlderUnfolds(before[kept], kept, before[id], id);
  }

  lemma OlderUnfolds(a: Job, i: int, b: Job, j: int)
    ensures Older(a, i, b, j) <==> a.createdAt < b.createdAt || (a.createdAt == b.createdAt && i < j)
  {
  }

  /** The oldest job of the identity of an active one. */
  lemma CanonicalOf(jobs: Jobs, id: int, row: Job) returns (kept: int)
    requires id in jobs && jobs[id].Active() && Deduplicated(jobs, id, row)
    ensures IsCanonical(jobs, kept) && kept in jobs && SameIdentity(jobs[kept], jobs[id])
    ensures kept == id || Older(jobs[kept], kept, jobs[id], id)
  {
    if IsCanonical(jobs, id) {
      kept := id;
    } else {
      kept :| IsCanonical(jobs, kept) && Rival(jobs[kept], jobs[id]) && IsDuplicate(jobs[id], kept, row);
      assert Rival(jobs[id], jobs[kept]);
    }
  }

  /** From the migrated table on, every run of every writer keeps the table sound. */
  lemma MigratedRunsSound(before: Jobs, w: World, ops: seq<Op>)
    requires Hardened(before, w.jobs) && AllPossible(w, ops)
    ensures QueueSound(After(w, ops).jobs)
  {
    MigrationSound(before, w.jobs);
    RunSound(w, ops);
  }
}
