/** Planning, approving, withdrawing and applying retention on one repository,
    each operation on its own (internal/node/retention.go:40-315). */
module Retentions {
  import opened NodeStore

  // ---- The merged keep policy ----

  predicate WritesHere(policy: Policy, repositoryId: string) {
    policy.enabled && repositoryId in policy.repositoryIds
  }

  function Max(a: int, b: int): int {
    if a >= b then a else b
  }

  function MaxEach(a: Retention, b: Retention): Retention {
    Retention(Max(a.keepLast, b.keepLast), Max(a.keepDaily, b.keepDaily), Max(a.keepWeekly, b.keepWeekly),
              Max(a.keepMonthly, b.keepMonthly), Max(a.keepYearly, b.keepYearly))
  }

  function Merged(policies: seq<Policy>, repositoryId: string): Retention {
    if policies == [] then NO_RETENTION
    else
      var before, last := Merged(policies[..|policies| - 1], repositoryId), policies[|policies| - 1];
      if WritesHere(last, repositoryId) then MaxEach(before, last.retention) else before
  }

  /** The greatest of what the enabled schedules writing here ask for by one of
      the five counts, or zero. */
  ghost predicate IsGreatest(policies: seq<Policy>, repositoryId: string, count: Retention -> int, value: int) {
    && 0 <= value
    && (forall p | p in policies && p.enabled && repositoryId in p.repositoryIds :: count(p.retention) <= value)
    && (value == 0 ||
        exists p | p in policies :: p.enabled && repositoryId in p.repositoryIds && count(p.retention) == value)
  }

  const LAST: Retention -> int := (r: Retention) => r.keepLast
  const DAILY: Retention -> int := (r: Retention) => r.keepDaily
  const WEEKLY: Retention -> int := (r: Retention) => r.keepWeekly
  const MONTHLY: Retention -> int := (r: Retention) => r.keepMonthly
  const YEARLY: Retention -> int := (r: Retention) => r.keepYearly

  ghost predicate EachGreatest(policies: seq<Policy>, repositoryId: string, merged: Retention) {
    && IsGreatest(policies, repositoryId, LAST, merged.keepLast)
    && IsGreatest(policies, repositoryId, DAILY, merged.keepDaily)
    && IsGreatest(policies, repositoryId, WEEKLY, merged.keepWeekly)
    && IsGreatest(policies, repositoryId, MONTHLY, merged.keepMonthly)
    && IsGreatest(policies, repositoryId, YEARLY, merged.keepYearly)
  }

  lemma OneMore(front: seq<Policy>, last: Policy, repositoryId: string, count: Retention -> int, before: int)
    requires IsGreatest(front, repositoryId, count, before)
    ensures IsGreatest(front + [last], repositoryId, count,
                       if last.enabled && repositoryId in last.repositoryIds && count(last.retention) > before
                       then count(last.retention) else before)
  {
    var policies := front + [last];
    assert last in policies && forall p :: p in policies <==> p in front || p == last;
  }

  /** The merged policy is the pointwise maximum over the enabled schedules
      that write to the repository. */
  lemma {:induction false} MergedIsGreatest(policies: seq<Policy>, repositoryId: string)
    ensures EachGreatest(policies, repositoryId, Merged(policies, repositoryId))
  {
    if policies != [] {
      var front, last := policies[..|policies| - 1], policies[|policies| - 1];
      MergedIsGreatest(front, repositoryId);
      assert policies == front + [last];
      var before := Merged(front, repositoryId);
      OneMore(front, last, repositoryId, LAST, before.keepLast);
      OneMore(front, last, repositoryId, DAILY, before.keepDaily);
      OneMore(front, last, repositoryId, WEEKLY, before.keepWeekly);
      OneMore(front, last, repositoryId, MONTHLY, before.keepMonthly);
      OneMore(front, last, repositoryId, YEARLY, before.keepYearly);
    }
  }

  /** There is one such policy only. */
  lemma GreatestIsOne(policies: seq<Policy>, repositoryId: string)
    ensures forall merged :: EachGreatest(policies, repositoryId, merged) <==> merged == Merged(policies, repositoryId)
  {
    MergedIsGreatest(policies, repositoryId);
    forall count, a: int, b: int | IsGreatest(policies, repositoryId, count, a) && IsGreatest(policies, repositoryId, count, b)
      ensures a == b
    {
    }
  }

  method MergedRetention(policies: seq<Policy>, repositoryId: string) returns (merged: Retention)
    ensures merged == Merged(policies, repositoryId)
    ensures EachGreatest(policies, repositoryId, merged)
  {
    merged := NO_RETENTION;
    for i := 0 to |policies|
      invariant merged == Merged(policies[..i], repositoryId)
    {
      var policy := policies[i];
      assert policies[..i + 1][..i] == policies[..i];
      if !policy.enabled {
        continue;
      }
      var writesHere := false;
      for k := 0 to |policy.repositoryIds|
        invariant writesHere <==> repositoryId in policy.repositoryIds[..k]
      {
        if policy.repositoryIds[k] == repositoryId {
          writesHere := true;
          break;
        }
      }
      if !writesHere {
        continue;
      }
      merged := MaxEach(merged, policy.retention);
    }
    assert policies[..|policies|] == policies;
    MergedIsGreatest(policies, repositoryId);
  }

  /** The keep policy in force, refused when it would keep nothing. */
  function InForce(policies: seq<Policy>, repositoryId: string): Option<Retention> {
    var keeps := Merged(policies, repositoryId);
    if keeps == NO_RETENTION then None else Some(keeps)
  }

  // ---- The stored record and what each operation makes of it ----

  datatype Stored = Stored(
    approvedAt: Option<Time>,
    approvedKeeps: Retention,
    plannedAt: Option<Time>,
    plannedKeeps: Retention,
    wouldKeep: nat,
    wouldDrop: nat,
    appliedAt: Option<Time>,
    dropped: nat,
    attemptedAt: Option<Time>,
    failed: bool)

  function RecordPlan(stored: Stored, keeps: Retention, kept: nat, removed: nat, now: Time): Stored {
    stored.(plannedAt := Some(now), plannedKeeps := keeps, wouldKeep := kept, wouldDrop := removed, failed := false)
  }

  /** The plan is rewritten, the policy it was taken under is not. */
  function RecordApplied(stored: Stored, kept: nat, removed: nat, now: Time): Stored {
    stored.(appliedAt := Some(now), dropped := removed, plannedAt := Some(now), wouldKeep := kept, wouldDrop := 0,
            failed := false)
  }

  /** An attempt that did not finish leaves its time and the plan as it was. */
  function RecordFailed(stored: Stored, now: Time): Stored {
    stored.(attemptedAt := Some(now), failed := true)
  }

  /** What an approval needs, and the policy it would be for. */
  function Approvable(policies: seq<Policy>, repositoryId: string, stored: Stored): Option<Retention> {
    if stored.plannedAt.None? then None
    else match InForce(policies, repositoryId)
         case None => None
         case Some(keeps) => if keeps == stored.plannedKeeps then Some(keeps) else None
  }

  /** The policy ApplyRetention may delete under, if there is one. */
  function Authority(policies: seq<Policy>, repositoryId: string, stored: Stored): Option<Retention> {
    if stored.approvedAt.None? then None
    else match InForce(policies, repositoryId)
         case None => None
         case Some(keeps) => if keeps == stored.approvedKeeps then Some(keeps) else None
  }

  function Withdrawn(stored: Stored): Stored {
    stored.(approvedAt := None, approvedKeeps := NO_RETENTION)
  }

  /** What a pass came to: the repository could not be opened, restic failed,
      or so many were kept and removed, with their space reclaimed or not. */
  datatype Forgot = Unopened | Failed | Forgot(kept: nat, removed: nat, pruned: bool)

  class Engine {
    var policies: seq<Policy>
    var stored: Stored
    const repositoryId: string

    method RetentionFor() returns (keeps: Option<Retention>)
      ensures keeps == InForce(policies, repositoryId)
      ensures exists merged :: EachGreatest(policies, repositoryId, merged) &&
                keeps == if merged == Retention(0, 0, 0, 0, 0) then None else Some(merged)
    {
      var merged := MergedRetention(policies, repositoryId);
      if merged == NO_RETENTION {
        return None;
      }
      return Some(merged);
    }

    method PlanRetention(forgot: Forgot, now: Time) returns (planned: bool)
      modifies this`stored
      ensures planned <==> InForce(policies, repositoryId).Some? && forgot.Forgot?
      ensures stored == if planned
                        then RecordPlan(old(stored), InForce(policies, repositoryId).value, forgot.kept, forgot.removed, now)
                        else if InForce(policies, repositoryId).Some? && forgot.Failed? then RecordFailed(old(stored), now)
                        else old(stored)
      ensures planned ==>
                stored == old(stored).(plannedAt := Some(now), plannedKeeps := stored.plannedKeeps,
                                       wouldKeep := forgot.kept, wouldDrop := forgot.removed, failed := false)
      ensures planned ==> EachGreatest(policies, repositoryId, stored.plannedKeeps) && stored.plannedKeeps != NO_RETENTION
      ensures !planned ==> stored == old(stored) || stored == old(stored).(attemptedAt := Some(now), failed := true)
    {
      var keeps := RetentionFor();
      if keeps.None? || forgot.Unopened? {
        return false;
      }
      if forgot.Failed? {
        stored := RecordFailed(stored, now);
        return false;
      }
      stored := RecordPlan(stored, keeps.value, forgot.kept, forgot.removed, now);
      return true;
    }

    method ApproveRetention(now: Time) returns (approved: bool)
      modifies this`stored
      ensures approved <==> Approvable(policies, repositoryId, old(stored)).Some?
      ensures stored == if approved
                        then old(stored).(approvedAt := Some(now), approvedKeeps := old(stored).plannedKeeps)
                        else old(stored)
      ensures approved <==>
                && old(stored).plannedAt.Some? && old(stored).plannedKeeps != NO_RETENTION
                && EachGreatest(policies, repositoryId, old(stored).plannedKeeps)
    {
      GreatestIsOne(policies, repositoryId);
      if stored.plannedAt.None? {
        return false;
      }
      var keeps := RetentionFor();
      if keeps.None? || keeps.value != stored.plannedKeeps {
        return false;
      }
      stored := stored.(approvedAt := Some(now), approvedKeeps := keeps.value);
      return true;
    }

    method WithdrawRetention()
      modifies this`stored
      ensures stored == Withdrawn(old(stored))
      ensures stored == old(stored).(approvedAt := None, approvedKeeps := Retention(0, 0, 0, 0, 0))
    {
      stored := stored.(approvedAt := None, approvedKeeps := NO_RETENTION);
    }

    /** Deletes under `under`, or not at all. */
    method ApplyRetention(forgot: Forgot, now: Time) returns (under: Option<Retention>)
      modifies this`stored
      ensures under == Authority(policies, repositoryId, old(stored))
      ensures stored == if under.None? || forgot.Unopened? then old(stored)
                        else if forgot.Failed? || (forgot.removed > 0 && !forgot.pruned) then RecordFailed(old(stored), now)
                        else RecordApplied(old(stored), forgot.kept, forgot.removed, now)
      ensures under.Some? <==>
                && old(stored).approvedAt.Some? && old(stored).approvedKeeps != NO_RETENTION
                && EachGreatest(policies, repositoryId, old(stored).approvedKeeps)
      ensures under.Some? ==> under.value == old(stored).approvedKeeps
      ensures under.Some? && forgot.Forgot? && (forgot.removed == 0 || forgot.pruned) ==>
                stored == old(stored).(appliedAt := Some(now), dropped := forgot.removed, plannedAt := Some(now),
                                       wouldKeep := forgot.kept, wouldDrop := 0, failed := false)
      ensures under.Some? && (forgot.Failed? || (forgot.Forgot? && forgot.removed > 0 && !forgot.pruned)) ==>
                stored == old(stored).(attemptedAt := Some(now), failed := true)
    {
      GreatestIsOne(policies, repositoryId);
      if stored.approvedAt.None? {
        return None;
      }
      var keeps := RetentionFor();
      if keeps.None? || keeps.value != stored.approvedKeeps {
        return None;
      }
      if forgot.Unopened? {
        return keeps;
      }
      if forgot.Failed? || (forgot.removed > 0 && !forgot.pruned) {
        stored := RecordFailed(stored, now);
      } else {
        stored := RecordApplied(stored, forgot.kept, forgot.removed, now);
      }
      return keeps;
    }
  }

  /** An approval recorded before policies were stored authorises nothing. */
  lemma LegacyApprovalAuthorisesNothing(policies: seq<Policy>, repositoryId: string, stored: Stored)
    requires stored.approvedKeeps == NO_RETENTION
    ensures Authority(policies, repositoryId, stored) == None
  {
  }
}
