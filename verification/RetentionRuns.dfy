/** Retention on one repository over any run: every operation is the store
    reads and writes it is made of, and they interleave with each other and
    with edits of the schedules (internal/node/retention.go:85-236, 288-352). */
module RetentionRuns {
  import opened NodeStore
  import opened Retentions

  /** What an operation is on the way to writing. */
  datatype Work =
    | NotingPlan(keeps: Retention)
    | NotingApplied
    | NotingFailure
    | NotingKey                          // the recovery key was written down: no field of retention's own
    | Approving
    | ApprovingOf(keeps: Retention)      // the schedules have been read and agree with the plan
    | Withdrawing
    | Checking                           // ApplyRetention, before it may delete

  /** An operation about to read the record, or holding a copy of it to write
      back. `at` is how much had been logged when the copy was read, and `check`
      where its own check is logged. */
  datatype Task =
    | Ready(work: Work)
    | Holding(work: Work, copy: Stored, at: nat)
    | Applying(keeps: Retention, check: nat)

  datatype Event =
    | PlanTaken(keeps: Retention)
    | Approved(keeps: Retention)
    | ApprovalWithdrawn
    | Checked(keeps: Retention, policies: seq<Policy>, at: nat)
    | Deleted(keeps: Retention, check: nat)

  datatype Machine = Machine(policies: seq<Policy>, stored: Stored, tasks: map<nat, Task>, log: seq<Event>)

  datatype Step =
    | Edit(policies: seq<Policy>)
    | Start(id: nat, work: Work)
    | StartPlan(id: nat)
    | Fail(id: nat)                      // restic failed, before or after deleting
    | Read(id: nat)
    | CheckPlan(id: nat)
    | CheckApproval(id: nat)
    | Delete(id: nat)
    | Write(id: nat, kept: nat, removed: nat, now: Time)
    | GiveUp(id: nat)

  predicate Begins(work: Work) {
    work.NotingKey? || work.Approving? || work.Withdrawing? || work.Checking?
  }

  predicate Writes(work: Work) {
    !work.Approving? && !work.Checking?
  }

  predicate Enabled(m: Machine, repositoryId: string, step: Step) {
    match step
    case Edit(_) => true
    case Start(id, work) => id !in m.tasks && Begins(work)
    case StartPlan(id) => id !in m.tasks && InForce(m.policies, repositoryId).Some?
    case Fail(id) =>
      && id in m.tasks
      && (m.tasks[id].Applying? || (m.tasks[id].Ready? && (m.tasks[id].work.NotingPlan? || m.tasks[id].work.NotingApplied?)))
    case Read(id) => id in m.tasks && m.tasks[id].Ready?
    case CheckPlan(id) =>
      && id in m.tasks && m.tasks[id].Holding? && m.tasks[id].work.Approving?
      && Approvable(m.policies, repositoryId, m.tasks[id].copy).Some?
    case CheckApproval(id) =>
      && id in m.tasks && m.tasks[id].Holding? && m.tasks[id].work.Checking?
      && Authority(m.policies, repositoryId, m.tasks[id].copy).Some?
    case Delete(id) => id in m.tasks && m.tasks[id].Applying?
    case Write(id, _, _, _) => id in m.tasks && m.tasks[id].Holding? && Writes(m.tasks[id].work)
    case GiveUp(id) => id in m.tasks
  }

  /** The record as an operation writes it back. */
  function Written(work: Work, copy: Stored, kept: nat, removed: nat, now: Time): Stored {
    match work
    case NotingPlan(keeps) => RecordPlan(copy, keeps, kept, removed, now)
    case NotingApplied => RecordApplied(copy, kept, removed, now)
    case NotingFailure => RecordFailed(copy, now)
    case ApprovingOf(keeps) => copy.(approvedAt := Some(now), approvedKeeps := keeps)
    case Withdrawing => Withdrawn(copy)
    case _ => copy
  }

  function Logged(work: Work): seq<Event> {
    match work
    case NotingPlan(keeps) => [PlanTaken(keeps)]
    case ApprovingOf(keeps) => [Approved(keeps)]
    case Withdrawing => [ApprovalWithdrawn]
    case _ => []
  }

  function After(m: Machine, repositoryId: string, step: Step): Machine
    requires Enabled(m, repositoryId, step)
  {
    match step
    case Edit(policies) => m.(policies := policies)
    case Start(id, work) => m.(tasks := m.tasks[id := Ready(work)])
    case StartPlan(id) => m.(tasks := m.tasks[id := Ready(NotingPlan(InForce(m.policies, repositoryId).value))])
    case Fail(id) => m.(tasks := m.tasks[id := Ready(NotingFailure)])
    case Read(id) => m.(tasks := m.tasks[id := Holding(m.tasks[id].work, m.stored, |m.log|)])
    case CheckPlan(id) =>
      var task := m.tasks[id];
      m.(tasks := m.tasks[id := task.(work := ApprovingOf(Approvable(m.policies, repositoryId, task.copy).value))])
    case CheckApproval(id) =>
      var keeps := Authority(m.policies, repositoryId, m.tasks[id].copy).value;
      m.(tasks := m.tasks[id := Applying(keeps, |m.log|)], log := m.log + [Checked(keeps, m.policies, m.tasks[id].at)])
    case Delete(id) =>
      m.(tasks := m.tasks[id := Ready(NotingApplied)], log := m.log + [Deleted(m.tasks[id].keeps, m.tasks[id].check)])
    case Write(id, kept, removed, now) =>
      var task := m.tasks[id];
      m.(stored := Written(task.work, task.copy, kept, removed, now), tasks := m.tasks - {id},
         log := m.log + Logged(task.work))
    case GiveUp(id) => m.(tasks := m.tasks - {id})
  }

  // ---- What an approval rests on ----

  ghost predicate Stands(log: seq<Event>, j: nat) {
    forall k | j <= k < |log| :: log[k] != ApprovalWithdrawn
  }

  /** An approval for these keeps that still stands and followed a plan taken
      under them. */
  ghost predicate Authorised(log: seq<Event>, keeps: Retention) {
    exists j :: 0 <= j < |log| && log[j] == Approved(keeps) && PlanTaken(keeps) in log[..j] && Stands(log, j)
  }

  /** The approval in a record, if it is for anything, is such an approval. */
  ghost predicate Backed(log: seq<Event>, stored: Stored) {
    stored.approvedAt.Some? && stored.approvedKeeps != NO_RETENTION ==> Authorised(log, stored.approvedKeeps)
  }

  ghost predicate PlanWasTaken(log: seq<Event>, stored: Stored) {
    stored.plannedKeeps != NO_RETENTION ==> PlanTaken(stored.plannedKeeps) in log
  }

  ghost predicate WasChecked(log: seq<Event>, keeps: Retention, check: nat) {
    check < |log| && log[check].Checked? && log[check].keeps == keeps
  }

  /** An event is one the code may log after these. */
  ghost predicate Justified(log: seq<Event>, repositoryId: string, event: Event) {
    match event
    case Checked(keeps, policies, at) =>
      && keeps == Merged(policies, repositoryId) && keeps != NO_RETENTION
      && at <= |log| && Authorised(log[..at], keeps)
    case Approved(keeps) => PlanTaken(keeps) in log
    case Deleted(keeps, check) => WasChecked(log, keeps, check)
    case _ => true
  }

  ghost predicate AllJustified(log: seq<Event>, repositoryId: string) {
    forall c | 0 <= c < |log| :: Justified(log[..c], repositoryId, log[c])
  }

  ghost predicate TaskSound(log: seq<Event>, task: Task) {
    match task
    case Ready(work) => !work.ApprovingOf?
    case Holding(work, copy, at) =>
      && at <= |log| && Backed(log[..at], copy) && PlanWasTaken(log, copy)
      && (work.ApprovingOf? ==> work.keeps == copy.plannedKeeps && work.keeps != NO_RETENTION)
    case Applying(keeps, check) => WasChecked(log, keeps, check)
  }

  ghost predicate Invariant(m: Machine, repositoryId: string) {
    && Backed(m.log, m.stored) && PlanWasTaken(m.log, m.stored)
    && (forall id | id in m.tasks :: TaskSound(m.log, m.tasks[id]))
    && AllJustified(m.log, repositoryId)
  }

  // ---- Logs ----

  lemma AuthorisedGrows(log: seq<Event>, event: Event, keeps: Retention)
    requires event != ApprovalWithdrawn && event != Approved(keeps)
    ensures Authorised(log + [event], keeps) <==> Authorised(log, keeps)
  {
    var more := log + [event];
    if Authorised(log, keeps) {
      var j :| 0 <= j < |log| && log[j] == Approved(keeps) && PlanTaken(keeps) in log[..j] && Stands(log, j);
      assert more[j] == Approved(keeps) && more[..j] == log[..j] && Stands(more, j);
    }
    if Authorised(more, keeps) {
      var j :| 0 <= j < |more| && more[j] == Approved(keeps) && PlanTaken(keeps) in more[..j] && Stands(more, j);
      assert forall k | 0 <= k < |log| :: more[k] == log[k];
      assert log[j] == Approved(keeps) && more[..j] == log[..j] && Stands(log, j);
    }
  }

  lemma ApprovalAuthorises(log: seq<Event>, keeps: Retention)
    requires PlanTaken(keeps) in log
    ensures Authorised(log + [Approved(keeps)], keeps)
  {
    var more := log + [Approved(keeps)];
    assert more[|log|] == Approved(keeps) && more[..|log|] == log && Stands(more, |log|);
  }

  lemma JustifiedAppend(log: seq<Event>, event: Event, repositoryId: string)
    requires AllJustified(log, repositoryId) && Justified(log, repositoryId, event)
    ensures AllJustified(log + [event], repositoryId)
  {
    var more := log + [event];
    forall c | 0 <= c < |more| ensures Justified(more[..c], repositoryId, more[c]) {
      assert more[..c] == log[..c];
      if c == |log| { assert log[..c] == log; }
    }
  }

  lemma TaskStays(log: seq<Event>, event: Event, task: Task)
    requires TaskSound(log, task)
    ensures TaskSound(log + [event], task)
  {
    var more := log + [event];
    match task
    case Holding(_, _, at) => assert more[..at] == log[..at];
    case Applying(_, check) => assert more[check] == log[check];
    case _ =>
  }

  /** The approval a copy was read with still stands when nothing was withdrawn
      since, or the same policy was approved again after the last withdrawal. */
  ghost predicate Undisturbed(log: seq<Event>, at: nat, copy: Stored) {
    copy.approvedAt.Some? && copy.approvedKeeps != NO_RETENTION ==>
      Stands(log, at) || exists j :: at <= j < |log| && log[j] == Approved(copy.approvedKeeps) && Stands(log, j)
  }

  /** Which can be told from the log between the read and the write. */
  lemma UndisturbedIff(log: seq<Event>, at: nat, copy: Stored, repositoryId: string)
    requires at <= |log| && Backed(log[..at], copy) && AllJustified(log, repositoryId)
    ensures Undisturbed(log, at, copy) <==> Backed(log, copy)
  {
    var keeps := copy.approvedKeeps;
    if copy.approvedAt.Some? && keeps != NO_RETENTION {
      var i :| 0 <= i < at && log[..at][i] == Approved(keeps) && PlanTaken(keeps) in log[..at][..i] && Stands(log[..at], i);
      assert log[..at][..i] == log[..i];
      assert forall k | 0 <= k < at :: log[..at][k] == log[k];
      if Stands(log, at) {
        assert log[i] == Approved(keeps) && Stands(log, i);
      }
      if j :| at <= j < |log| && log[j] == Approved(keeps) && Stands(log, j) {
        assert PlanTaken(keeps) in log[..j] by { assert Justified(log[..j], repositoryId, log[j]); }
      }
      if Authorised(log, keeps) {
        var j :| 0 <= j < |log| && log[j] == Approved(keeps) && PlanTaken(keeps) in log[..j] && Stands(log, j);
        if j < at { assert Stands(log, at); }
      }
    }
  }

  // ---- Steps ----

  /** The writes that carry an approval along instead of setting it. */
  predicate Carries(m: Machine, step: Step) {
    step.Write? && step.id in m.tasks && m.tasks[step.id].Holding? &&
    !m.tasks[step.id].work.ApprovingOf? && !m.tasks[step.id].work.Withdrawing?
  }

  ghost predicate Fair(m: Machine, step: Step) {
    Carries(m, step) ==> Undisturbed(m.log, m.tasks[step.id].at, m.tasks[step.id].copy)
  }

  /** One event, and a record it leaves sound. */
  lemma LogGrows(m: Machine, repositoryId: string, event: Event, stored: Stored, tasks: map<nat, Task>)
    requires Invariant(m, repositoryId) && Justified(m.log, repositoryId, event)
    requires Backed(m.log + [event], stored) && PlanWasTaken(m.log + [event], stored)
    requires forall id | id in tasks :: (id in m.tasks && tasks[id] == m.tasks[id]) || TaskSound(m.log + [event], tasks[id])
    ensures Invariant(m.(log := m.log + [event], stored := stored, tasks := tasks), repositoryId)
  {
    JustifiedAppend(m.log, event, repositoryId);
    forall id | id in tasks ensures TaskSound(m.log + [event], tasks[id]) {
      if id in m.tasks && tasks[id] == m.tasks[id] { TaskStays(m.log, event, tasks[id]); }
    }
  }

  lemma StillBacked(log: seq<Event>, event: Event, stored: Stored)
    requires PlanWasTaken(log, stored)
    ensures PlanWasTaken(log + [event], stored)
    ensures event != ApprovalWithdrawn && !event.Approved? ==> (Backed(log + [event], stored) <==> Backed(log, stored))
  {
    if event != ApprovalWithdrawn && !event.Approved? {
      AuthorisedGrows(log, event, stored.approvedKeeps);
    }
  }

  lemma CheckStep(m: Machine, repositoryId: string, id: nat)
    requires Invariant(m, repositoryId) && Enabled(m, repositoryId, CheckApproval(id))
    ensures Invariant(After(m, repositoryId, CheckApproval(id)), repositoryId)
  {
    var after := After(m, repositoryId, CheckApproval(id));
    var event := after.log[|m.log|];
    assert TaskSound(m.log, m.tasks[id]);
    StillBacked(m.log, event, m.stored);
    assert (m.log + [event])[|m.log|] == event;
    LogGrows(m, repositoryId, event, m.stored, after.tasks);
  }

  lemma DeleteStep(m: Machine, repositoryId: string, id: nat)
    requires Invariant(m, repositoryId) && Enabled(m, repositoryId, Delete(id))
    ensures Invariant(After(m, repositoryId, Delete(id)), repositoryId)
  {
    var after := After(m, repositoryId, Delete(id));
    var event := Deleted(m.tasks[id].keeps, m.tasks[id].check);
    assert TaskSound(m.log, m.tasks[id]);
    StillBacked(m.log, event, m.stored);
    LogGrows(m, repositoryId, event, m.stored, after.tasks);
  }

  /** Approving and withdrawing set the approval, whatever was read before. */
  lemma SettingStep(m: Machine, repositoryId: string, step: Step)
    requires Invariant(m, repositoryId) && Enabled(m, repositoryId, step) && step.Write? && !Carries(m, step)
    ensures Invariant(After(m, repositoryId, step), repositoryId)
  {
    var after, task := After(m, repositoryId, step), m.tasks[step.id];
    var event := after.log[|m.log|];
    assert TaskSound(m.log, task);
    StillBacked(m.log, event, task.copy);
    if task.work.ApprovingOf? { ApprovalAuthorises(m.log, task.work.keeps); }
    LogGrows(m, repositoryId, event, after.stored, after.tasks);
  }

  /** Any other write keeps what is kept exactly when the approval it carries
      was not withdrawn behind its back. */
  lemma CarryingIff(m: Machine, repositoryId: string, step: Step)
    requires Invariant(m, repositoryId) && Enabled(m, repositoryId, step) && Carries(m, step)
    ensures Invariant(After(m, repositoryId, step), repositoryId) <==> Fair(m, step)
  {
    var after, task := After(m, repositoryId, step), m.tasks[step.id];
    assert TaskSound(m.log, task);
    UndisturbedIff(m.log, task.at, task.copy, repositoryId);
    assert after.stored.approvedAt == task.copy.approvedAt && after.stored.approvedKeeps == task.copy.approvedKeeps;
    if task.work.NotingPlan? {
      var event := PlanTaken(task.work.keeps);
      StillBacked(m.log, event, task.copy);
      if Fair(m, step) { LogGrows(m, repositoryId, event, after.stored, after.tasks); }
    } else {
      assert after.log == m.log;
    }
  }

  lemma InvariantStep(m: Machine, repositoryId: string, step: Step)
    requires Invariant(m, repositoryId) && Enabled(m, repositoryId, step) && Fair(m, step)
    ensures Invariant(After(m, repositoryId, step), repositoryId)
  {
    match step
    case CheckApproval(id) => CheckStep(m, repositoryId, id);
    case Delete(id) => DeleteStep(m, repositoryId, id);
    case Write(_, _, _, _) =>
      if Carries(m, step) { CarryingIff(m, repositoryId, step); } else { SettingStep(m, repositoryId, step); }
    case Read(id) => assert m.log[..|m.log|] == m.log;
    case CheckPlan(id) => assert TaskSound(m.log, m.tasks[id]);
    case _ =>
  }

  // ---- Whole runs ----

  ghost predicate IsRun(states: seq<Machine>, repositoryId: string, steps: seq<Step>) {
    && |states| == |steps| + 1
    && forall i | 0 <= i < |steps| ::
         Enabled(states[i], repositoryId, steps[i]) && states[i + 1] == After(states[i], repositoryId, steps[i])
  }

  ghost predicate AllFair(states: seq<Machine>, steps: seq<Step>, n: nat)
    requires |states| == |steps| + 1 && n <= |steps|
  {
    forall k | 0 <= k < n :: Fair(states[k], steps[k])
  }

  /** A new repository, or one approved before the keep policy was stored with
      the approval. */
  predicate Fresh(m: Machine) {
    m.stored.plannedKeeps == NO_RETENTION && m.stored.approvedKeeps == NO_RETENTION && m.tasks == map[] && m.log == []
  }

  lemma {:induction false} RunKeepsInvariant(states: seq<Machine>, repositoryId: string, steps: seq<Step>, i: nat)
    requires IsRun(states, repositoryId, steps) && Fresh(states[0]) && i <= |steps| && AllFair(states, steps, i)
    ensures Invariant(states[i], repositoryId)
  {
    if i > 0 {
      RunKeepsInvariant(states, repositoryId, steps, i - 1);
      InvariantStep(states[i - 1], repositoryId, steps[i - 1]);
    }
  }

  /** A deletion follows its own check, which found a non-empty policy equal to
      the merged one of that moment and to an approval that stood when the
      record was read, after a plan taken under that policy. */
  ghost predicate Licensed(log: seq<Event>, repositoryId: string, d: nat)
    requires d < |log| && log[d].Deleted?
  {
    var c := log[d].check;
    && c < d && log[c].Checked? && log[c].keeps == log[d].keeps
    && log[c].keeps == Merged(log[c].policies, repositoryId) && log[c].keeps != NO_RETENTION
    && log[c].at <= c && Authorised(log[..log[c].at], log[c].keeps)
  }

  /** Over every run in which no write carries an approval past its withdrawal,
      whatever else interleaves, every deletion is licensed. */
  lemma RunsDeleteOnlyAuthorised(states: seq<Machine>, repositoryId: string, steps: seq<Step>, i: nat, d: nat)
    requires IsRun(states, repositoryId, steps) && Fresh(states[0]) && i <= |steps| && AllFair(states, steps, i)
    requires d < |states[i].log| && states[i].log[d].Deleted?
    ensures Licensed(states[i].log, repositoryId, d)
  {
    RunKeepsInvariant(states, repositoryId, steps, i);
    var log := states[i].log;
    assert Justified(log[..d], repositoryId, log[d]);
    var c := log[d].check;
    assert log[..d][c] == log[c];
    assert Justified(log[..c], repositoryId, log[c]);
    assert log[..c][..log[c].at] == log[..log[c].at];
  }

  lemma StoodAfter(log: seq<Event>, at: nat, j: nat, withdrawn: nat)
    requires j < at <= |log| && Stands(log[..at], j) && withdrawn < |log| && log[withdrawn] == ApprovalWithdrawn
    ensures at <= withdrawn || withdrawn < j
  {
    assert forall k | j <= k < at :: log[..at][k] == log[k];
  }

  /** A withdrawal does not stop a pass that has read the record: a deletion
      follows one, with no new approval of its policy between, only when its
      check read the record before it. */
  lemma DeletesAfterWithdrawal(
    states: seq<Machine>, repositoryId: string, steps: seq<Step>, i: nat, withdrawn: nat, d: nat)
    requires IsRun(states, repositoryId, steps) && Fresh(states[0]) && i <= |steps| && AllFair(states, steps, i)
    requires withdrawn < d < |states[i].log| && states[i].log[d].Deleted?
    requires states[i].log[withdrawn] == ApprovalWithdrawn
    requires forall k | withdrawn < k < d :: states[i].log[k] != Approved(states[i].log[d].keeps)
    ensures Licensed(states[i].log, repositoryId, d)
    ensures var log := states[i].log; log[log[d].check].at <= withdrawn
  {
    RunsDeleteOnlyAuthorised(states, repositoryId, steps, i, d);
    var log, c := states[i].log, states[i].log[d].check;
    var read := log[..log[c].at];
    var j :| 0 <= j < |read| && read[j] == Approved(log[d].keeps) && PlanTaken(log[d].keeps) in read[..j] && Stands(read, j);
    assert log[j] == Approved(log[d].keeps);
    StoodAfter(log, log[c].at, j, withdrawn);
  }

  // ---- One operation at a time ----

  /** Nothing coming between, the steps of an operation leave the record as the
      operation does on its own, whether it succeeds or fails. */
  lemma PlanAlone(m: Machine, repositoryId: string, id: nat, kept: nat, removed: nat, now: Time)
    requires id !in m.tasks && InForce(m.policies, repositoryId).Some?
    ensures var m1 := After(m, repositoryId, StartPlan(id));
            var read := After(m1, repositoryId, Read(id));
            && Enabled(read, repositoryId, Write(id, kept, removed, now))
            && After(read, repositoryId, Write(id, kept, removed, now)).stored ==
               RecordPlan(m.stored, InForce(m.policies, repositoryId).value, kept, removed, now)
    ensures var m1 := After(m, repositoryId, StartPlan(id));
            var failed := After(After(m1, repositoryId, Fail(id)), repositoryId, Read(id));
            && Enabled(failed, repositoryId, Write(id, kept, removed, now))
            && After(failed, repositoryId, Write(id, kept, removed, now)).stored == RecordFailed(m.stored, now)
  {
  }

  lemma ApproveAlone(m: Machine, repositoryId: string, id: nat, now: Time)
    requires id !in m.tasks
    ensures var read := After(After(m, repositoryId, Start(id, Approving)), repositoryId, Read(id));
            && (Enabled(read, repositoryId, CheckPlan(id)) <==> Approvable(m.policies, repositoryId, m.stored).Some?)
            && !Enabled(read, repositoryId, Write(id, 0, 0, now)) && Enabled(read, repositoryId, GiveUp(id))
            && !Enabled(read, repositoryId, CheckApproval(id)) && !Enabled(read, repositoryId, Fail(id))
            && !Enabled(After(m, repositoryId, Start(id, Approving)), repositoryId, Fail(id))
            && (Enabled(read, repositoryId, CheckPlan(id)) ==>
                  After(After(read, repositoryId, CheckPlan(id)), repositoryId, Write(id, 0, 0, now)).stored ==
                  m.stored.(approvedAt := Some(now), approvedKeeps := m.stored.plannedKeeps))
    ensures var read := After(After(m, repositoryId, Start(id, Withdrawing)), repositoryId, Read(id));
            After(read, repositoryId, Write(id, 0, 0, now)).stored == Withdrawn(m.stored)
  {
  }

  lemma ApplyAlone(m: Machine, repositoryId: string, id: nat, kept: nat, removed: nat, now: Time)
    requires id !in m.tasks
    ensures var read := After(After(m, repositoryId, Start(id, Checking)), repositoryId, Read(id));
            && (Enabled(read, repositoryId, CheckApproval(id)) <==> Authority(m.policies, repositoryId, m.stored).Some?)
            && !Enabled(read, repositoryId, Write(id, kept, removed, now))
            && !Enabled(read, repositoryId, CheckPlan(id)) && !Enabled(read, repositoryId, Fail(id))
            && (Enabled(read, repositoryId, CheckApproval(id)) ==>
                  var checked := After(read, repositoryId, CheckApproval(id));
                  var deleted := After(After(checked, repositoryId, Delete(id)), repositoryId, Read(id));
                  var failed := After(After(checked, repositoryId, Fail(id)), repositoryId, Read(id));
                  && After(deleted, repositoryId, Write(id, kept, removed, now)).stored ==
                     RecordApplied(m.stored, kept, removed, now)
                  && After(failed, repositoryId, Write(id, kept, removed, now)).stored == RecordFailed(m.stored, now))
  {
  }

  // ---- When the condition fails ----

  /** A merge never asks for a negative count. */
  predicate Counts(r: Retention) {
    r.keepLast >= 0 && r.keepDaily >= 0 && r.keepWeekly >= 0 && r.keepMonthly >= 0 && r.keepYearly >= 0
  }

  lemma OnlySchedule(policy: Policy, repositoryId: string)
    requires WritesHere(policy, repositoryId) && Counts(policy.retention)
    ensures Merged([policy], repositoryId) == policy.retention
  {
    var policies := [policy];
    assert policies[..|policies| - 1] == [];
    assert Merged(policies, repositoryId) == MaxEach(NO_RETENTION, policy.retention);
  }

  /** An approval in the record deletes as soon as the schedules say what it
      does, and that deletion is authorised exactly when the record is backed:
      an unbacked one deletes what nobody agreed to. */
  lemma RecordDecides(m: Machine, repositoryId: string, policy: Policy, id: nat)
    returns (states: seq<Machine>, steps: seq<Step>)
    requires m.stored.approvedAt.Some? && m.stored.approvedKeeps != NO_RETENTION && id !in m.tasks
    requires WritesHere(policy, repositoryId) && policy.retention == m.stored.approvedKeeps && Counts(policy.retention)
    ensures IsRun(states, repositoryId, steps) && states[0] == m
    ensures var log, keeps := states[|steps|].log, m.stored.approvedKeeps;
            && log == m.log + [Checked(keeps, [policy], |m.log|), Deleted(keeps, |m.log|)]
            && (Authorised(log[..|m.log|], keeps) <==> Backed(m.log, m.stored))
  {
    OnlySchedule(policy, repositoryId);
    var m1 := After(m, repositoryId, Edit([policy]));
    var m2 := After(m1, repositoryId, Start(id, Checking));
    var m3 := After(m2, repositoryId, Read(id));
    var m4 := After(m3, repositoryId, CheckApproval(id));
    var m5 := After(m4, repositoryId, Delete(id));
    states := [m, m1, m2, m3, m4, m5];
    steps := [Edit([policy]), Start(id, Checking), Read(id), CheckApproval(id), Delete(id)];
    assert m5.log[..|m.log|] == m.log;
  }

  /** Between a check and its deletions an operator can withdraw, and the
      deletions go on: no step of this is out of order. */
  lemma WithdrawnYetDeleted(m: Machine, repositoryId: string, id: nat, other: nat, now: Time)
    returns (states: seq<Machine>, steps: seq<Step>)
    requires Invariant(m, repositoryId) && id in m.tasks && m.tasks[id].Applying? && other !in m.tasks
    ensures IsRun(states, repositoryId, steps) && states[0] == m && AllFair(states, steps, |steps|)
    ensures var keeps, check := m.tasks[id].keeps, m.tasks[id].check;
            && states[|steps|].log == m.log + [ApprovalWithdrawn, Deleted(keeps, check)]
            && states[|steps|].stored.approvedAt.None?
  {
    var m1 := After(m, repositoryId, Start(other, Withdrawing));
    var m2 := After(m1, repositoryId, Read(other));
    var m3 := After(m2, repositoryId, Write(other, 0, 0, now));
    var m4 := After(m3, repositoryId, Delete(id));
    states, steps := [m, m1, m2, m3, m4], [Start(other, Withdrawing), Read(other), Write(other, 0, 0, now), Delete(id)];
    assert m.log + [ApprovalWithdrawn] + [m4.log[|m.log| + 1]] == m.log + [ApprovalWithdrawn, m4.log[|m.log| + 1]];
  }

  // ---- A run on which it does ----

  /** Planned, approved, planned again; the approval is withdrawn while the
      second plan holds its copy. */
  ghost function LostSteps(): seq<Step> {
    [StartPlan(0), Read(0), Write(0, 0, 0, 1),
     Start(1, Approving), Read(1), CheckPlan(1), Write(1, 0, 0, 2),
     StartPlan(2), Read(2),
     Start(3, Withdrawing), Read(3), Write(3, 0, 0, 3),
     Write(2, 0, 0, 4)]
  }

  ghost function LostStates(policy: Policy): seq<Machine> {
    var keeps, none := policy.retention, Stored(None, NO_RETENTION, None, NO_RETENTION, 0, 0, None, 0, None, false);
    var planned := RecordPlan(none, keeps, 0, 0, 1);
    var approved := planned.(approvedAt := Some(2), approvedKeeps := keeps);
    var taken, agreed := [PlanTaken(keeps)], [PlanTaken(keeps), Approved(keeps)];
    var second: map<nat, Task> := map[2 := Holding(NotingPlan(keeps), approved, 2)];
    [Machine([policy], none, map[], []),
     Machine([policy], none, map[0 := Ready(NotingPlan(keeps))], []),
     Machine([policy], none, map[0 := Holding(NotingPlan(keeps), none, 0)], []),
     Machine([policy], planned, map[], taken),
     Machine([policy], planned, map[1 := Ready(Approving)], taken),
     Machine([policy], planned, map[1 := Holding(Approving, planned, 1)], taken),
     Machine([policy], planned, map[1 := Holding(ApprovingOf(keeps), planned, 1)], taken),
     Machine([policy], approved, map[], agreed),
     Machine([policy], approved, map[2 := Ready(NotingPlan(keeps))], agreed),
     Machine([policy], approved, second, agreed),
     Machine([policy], approved, second[3 := Ready(Withdrawing)], agreed),
     Machine([policy], approved, second[3 := Holding(Withdrawing, approved, 2)], agreed),
     Machine([policy], Withdrawn(approved), second, agreed + [ApprovalWithdrawn]),
     Machine([policy], RecordPlan(approved, keeps, 0, 0, 4), map[], agreed + [ApprovalWithdrawn, PlanTaken(keeps)])]
  }

  lemma LostStep(policy: Policy, repositoryId: string, i: nat)
    requires WritesHere(policy, repositoryId) && policy.retention == Retention(1, 0, 0, 0, 0) && i < 13
    ensures var states, steps := LostStates(policy), LostSteps();
            && Enabled(states[i], repositoryId, steps[i])
            && states[i + 1] == After(states[i], repositoryId, steps[i])
  {
    if i < 7 { ApprovedStep(policy, repositoryId, i); } else { WithdrawnStep(policy, repositoryId, i); }
  }

  lemma ApprovedStep(policy: Policy, repositoryId: string, i: nat)
    requires WritesHere(policy, repositoryId) && policy.retention == Retention(1, 0, 0, 0, 0) && i < 7
    ensures var states, steps := LostStates(policy), LostSteps();
            && Enabled(states[i], repositoryId, steps[i])
            && states[i + 1] == After(states[i], repositoryId, steps[i])
  {
    OnlySchedule(policy, repositoryId);
  }

  lemma WithdrawnStep(policy: Policy, repositoryId: string, i: nat)
    requires WritesHere(policy, repositoryId) && policy.retention == Retention(1, 0, 0, 0, 0) && 7 <= i < 13
    ensures var states, steps := LostStates(policy), LostSteps();
            && Enabled(states[i], repositoryId, steps[i])
            && states[i + 1] == After(states[i], repositoryId, steps[i])
  {
    OnlySchedule(policy, repositoryId);
  }

  /** A fair run reaches a record whose approval is backed. */
  lemma CanBeApproved(policy: Policy, repositoryId: string)
    requires WritesHere(policy, repositoryId) && policy.retention == Retention(1, 0, 0, 0, 0)
    ensures var states, steps := LostStates(policy)[..8], LostSteps()[..7];
            && IsRun(states, repositoryId, steps) && Fresh(states[0]) && AllFair(states, steps, 7)
            && states[7].stored.approvedKeeps == policy.retention && Authorised(states[7].log, policy.retention)
  {
    var states, steps := LostStates(policy)[..8], LostSteps()[..7];
    forall i | 0 <= i < |steps|
      ensures Enabled(states[i], repositoryId, steps[i]) && states[i + 1] == After(states[i], repositoryId, steps[i])
    {
      LostStep(policy, repositoryId, i);
    }
    ApprovalAuthorises([PlanTaken(policy.retention)], policy.retention);
    assert states[7].log == [PlanTaken(policy.retention)] + [Approved(policy.retention)];
  }

  /** A plan that read the record before an approval was withdrawn, and writes
      it back afterwards, puts the withdrawn approval back. */
  lemma WithdrawalCanBeLost(policy: Policy, repositoryId: string)
    requires WritesHere(policy, repositoryId) && policy.retention == Retention(1, 0, 0, 0, 0)
    ensures var states, steps := LostStates(policy), LostSteps();
            && IsRun(states, repositoryId, steps) && Fresh(states[0])
            && !Fair(states[12], steps[12]) && !Backed(states[13].log, states[13].stored)
  {
    var states, steps := LostStates(policy), LostSteps();
    forall i | 0 <= i < |steps|
      ensures Enabled(states[i], repositoryId, steps[i]) && states[i + 1] == After(states[i], repositoryId, steps[i])
    {
      LostStep(policy, repositoryId, i);
    }
    var log, keeps := states[13].log, policy.retention;
    assert log[2] == ApprovalWithdrawn && log[1] == Approved(keeps);
    assert states[12].log[2] == ApprovalWithdrawn;
  }
}
