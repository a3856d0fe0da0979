/** What one backup run reports about its destinations
    (internal/agent/agent.go:325-450, 555-657; internal/node/run.go:237-331). */
module BackupRun {
  import opened NodeStore

  /** What one upload came to: the destination could not be made out, restic
      failed, or it made a snapshot; `incomplete` when files could not be read. */
  datatype Attempt = Unbuildable | Broken(incomplete: bool) | Uploaded(incomplete: bool)

  /** One job as the agent gets it, and what its uploads come to: each
      destination's first attempt, and the one made if it is tried again. */
  datatype Assignment = Assignment(
    targets: seq<string>, retryFailed: bool, staged: bool, first: nat -> Attempt, again: nat -> Attempt)

  datatype Report = Report(stagingError: bool, targets: seq<Target>)

  /** backupTarget. An incomplete snapshot is a failed target. */
  function BackupTarget(repositoryId: string, attempt: Attempt): Target {
    match attempt
    case Unbuildable => Target(repositoryId, TargetFailed, false)
    case Broken(incomplete) => Target(repositoryId, TargetFailed, incomplete)
    case Uploaded(incomplete) => Target(repositoryId, if incomplete then TargetFailed else TargetSuccess, incomplete)
  }

  /** targetFor. */
  method TargetFor(targets: seq<string>, repositoryId: string) returns (found: bool)
    ensures found <==> repositoryId in targets
  {
    for i := 0 to |targets|
      invariant repositoryId !in targets[..i]
    {
      assert targets[..i + 1] == targets[..i] + [targets[i]];
      if targets[i] == repositoryId {
        return true;
      }
    }
    assert targets[..|targets|] == targets;
    return false;
  }

  predicate Whole(attempt: Attempt) {
    attempt == Uploaded(false)
  }

  /** Whole copies and failures, and nothing between. */
  predicate Settled(target: Target) {
    (target.status == TargetSuccess && !target.incomplete) || target.status == TargetFailed
  }

  /** What the report says of the i-th destination: it succeeded exactly when
      its first upload landed whole, or a second was made and did. */
  ghost predicate Told(a: Assignment, target: Target, i: nat)
    requires i < |a.targets|
  {
    && target.repositoryId == a.targets[i] && Settled(target)
    && (target.status == TargetSuccess <==> Whole(a.first(i)) || (a.retryFailed && Whole(a.again(i))))
    && (target.status == TargetFailed ==> target.incomplete == (a.first(i) == Uploaded(true) || a.first(i) == Broken(true)))
  }

  /** RunJob. One line for every destination, in order; a job that could not be
      staged has none. */
  method RunJob(a: Assignment) returns (report: Report)
    ensures report.stagingError == !a.staged
    ensures !a.staged ==> report.targets == []
    ensures a.staged ==> |report.targets| == |a.targets|
    ensures a.staged ==> forall i | 0 <= i < |a.targets| :: Told(a, report.targets[i], i)
    ensures a.staged ==> forall i | 0 <= i < |a.targets| ::
              var line, again := report.targets[i], a.retryFailed && a.again(i) == Uploaded(false);
              && line.repositoryId == a.targets[i]
              && line.status == (if a.first(i) == Uploaded(false) || again then TargetSuccess else TargetFailed)
              && (line.incomplete <==> !again && (a.first(i) == Uploaded(true) || a.first(i) == Broken(true)))
  {
    if !a.staged {
      return Report(true, []);
    }
    var targets := [];
    for i := 0 to |a.targets|
      invariant |targets| == i
      invariant forall k | 0 <= k < i :: targets[k] == BackupTarget(a.targets[k], a.first(k))
    {
      targets := targets + [BackupTarget(a.targets[i], a.first(i))];
    }
    if a.retryFailed {
      for i := 0 to |targets|
        invariant |targets| == |a.targets|
        invariant forall k | 0 <= k < i :: Told(a, targets[k], k)
        invariant forall k | i <= k < |targets| :: targets[k] == BackupTarget(a.targets[k], a.first(k))
      {
        if targets[i].status != TargetFailed {
          continue;
        }
        var found := TargetFor(a.targets, targets[i].repositoryId);
        if !found {
          continue;
        }
        var retried := BackupTarget(a.targets[i], a.again(i));
        if retried.status == TargetSuccess {
          targets := targets[i := retried];
        }
      }
    }
    return Report(false, targets);
  }

  /** Trying again only ever adds copies. */
  lemma RetryOnlyAdds(a: Assignment, once: Target, twice: Target, i: nat)
    requires i < |a.targets| && Told(a.(retryFailed := false), once, i) && Told(a.(retryFailed := true), twice, i)
    ensures once.status == TargetSuccess ==> twice.status == TargetSuccess
    ensures twice.status == TargetSuccess && once.status != TargetSuccess <==> !Whole(a.first(i)) && Whole(a.again(i))
  {
  }

  // ---- The job's own account of it ----

  /** The engine's part of a run: it can end before a job is assigned, and a
      job that could not be staged failed everywhere the policy writes. */
  datatype Run = Run(early: bool, repositoryIds: seq<string>, assignment: Assignment)

  /** runBackup up to the rollup; None when the job failed before starting. */
  method RunBackup(run: Run) returns (results: Option<seq<Target>>)
    ensures results.None? <==> run.early
    ensures results.Some? ==> Results(run, results.value)
  {
    if run.early {
      return None;
    }
    var report := RunJob(run.assignment);
    var targets := report.targets;
    if report.stagingError {
      targets := [];
      for i := 0 to |run.repositoryIds|
        invariant |targets| == i
        invariant forall k | 0 <= k < i :: targets[k] == Target(run.repositoryIds[k], TargetFailed, false)
      {
        targets := targets + [Target(run.repositoryIds[i], TargetFailed, false)];
      }
    }
    return Some(targets);
  }

  ghost predicate Results(run: Run, results: seq<Target>) {
    var a := run.assignment;
    if a.staged then |results| == |a.targets| && forall i | 0 <= i < |results| :: Told(a, results[i], i)
    else
      |results| == |run.repositoryIds| &&
      forall i | 0 <= i < |results| :: results[i] == Target(run.repositoryIds[i], TargetFailed, false)
  }
}
