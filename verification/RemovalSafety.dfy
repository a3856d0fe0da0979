/** Whether cPanel may terminate an account, and the backups that would make
    the answer yes (internal/node/removal.go:16-212, 352-383). */
module RemovalSafety {
  import opened NodeStore
  import opened PolicyCover

  // ---- How old a copy may be ----

  const MAX_DURATION := 0x7FFF_FFFF_FFFF_FFFF
  const NANOSECONDS_PER_DAY := 24 * 60 * 60 * 1_000_000_000

  /** Go's wrap-around of a signed 64-bit result. */
  function Int64(x: int): int {
    (x + 0x8000_0000_0000_0000) % 0x1_0000_0000_0000_0000 - 0x8000_0000_0000_0000
  }

  /** time.Time.Sub, which saturates instead of wrapping. */
  function Sub(t: Time, u: Time): int {
    if t - u > MAX_DURATION then MAX_DURATION
    else if t - u < -MAX_DURATION - 1 then -MAX_DURATION - 1
    else t - u
  }

  /** The cron library, uninterpreted: the gap between the two firings of a
      schedule that follow an instant, or None when it does not parse. */
  type Cron = (string, Time) -> Option<int>

  predicate FullAccountPolicy(policy: Policy, account: string) {
    && policy.enabled && policy.repositoryIds != []
    && !policy.skipHomedir && !policy.skipDatabases && !policy.skipEmail
    && policy.Covers(account)
  }

  function PolicyFreshness(cron: Cron, policy: Policy, now: Time): (due: Option<int>)
    ensures due.Some? ==> due.value > 0
  {
    match cron(policy.scheduleCron, now)
    case None => None
    case Some(interval) =>
      if interval <= 0 then None
      else
        var due := if policy.alertNoBackupDays > 0 then Int64(policy.alertNoBackupDays * NANOSECONDS_PER_DAY)
                   else Int64(2 * interval);
        if due > 0 then Some(due) else None
  }

  // ---- What the answer means ----

  /** What one applying policy promises: whole copies at these repositories,
      none of them older than this. */
  datatype Promise = Promise(policyId: string, repositoryIds: seq<string>, due: int)

  /** What the policies promise one account, in the order of the list. */
  function Promises(cron: Cron, policies: seq<Policy>, account: string, now: Time): (promises: seq<Promise>)
    ensures forall p | p in promises :: p.due > 0 && p.repositoryIds != []
  {
    if policies == [] then []
    else
      var last := policies[|policies| - 1];
      var before := Promises(cron, policies[..|policies| - 1], account, now);
      if !FullAccountPolicy(last, account) then before
      else
        match PolicyFreshness(cron, last, now)
        case None => before
        case Some(due) => before + [Promise(last.id, last.repositoryIds, due)]
  }

  /** The enabled full-account policies with a usable freshness. */
  function Applying(cron: Cron, policies: seq<Policy>, account: string, now: Time): (applying: seq<Policy>) {
    if policies == [] then []
    else
      var last := policies[|policies| - 1];
      var before := Applying(cron, policies[..|policies| - 1], account, now);
      if FullAccountPolicy(last, account) && PolicyFreshness(cron, last, now).Some? then before + [last] else before
  }

  /** Policy by policy, what applies is what promises. */
  lemma {:induction false} ApplyingPromises(cron: Cron, policies: seq<Policy>, account: string, now: Time)
    ensures var applying, promises := Applying(cron, policies, account, now), Promises(cron, policies, account, now);
            && |applying| == |promises|
            && forall k | 0 <= k < |applying| ::
                 && promises[k].policyId == applying[k].id
                 && promises[k].repositoryIds == applying[k].repositoryIds
  {
    if policies != [] {
      ApplyingPromises(cron, policies[..|policies| - 1], account, now);
    }
  }

  /** Exactly the listed policies that qualify are the ones that apply. */
  lemma {:induction false} ApplyingIff(cron: Cron, policies: seq<Policy>, account: string, now: Time, p: Policy)
    ensures p in Applying(cron, policies, account, now)
       <==> p in policies && FullAccountPolicy(p, account) && PolicyFreshness(cron, p, now).Some?
  {
    if policies != [] {
      var front, last := policies[..|policies| - 1], policies[|policies| - 1];
      ApplyingIff(cron, front, account, now, p);
      assert policies == front + [last];
    }
  }

  function At(job: Job): Time {
    match job.finishedAt case None => job.queuedAt case Some(at) => at
  }

  predicate Landed(target: Target, repository: string) {
    target.repositoryId == repository && target.status == TargetSuccess && !target.incomplete
  }

  ghost predicate Reached(targets: seq<Target>, repository: string) {
    exists t | t in targets :: Landed(t, repository)
  }

  ghost predicate Promised(promises: seq<Promise>, repository: string) {
    exists p | p in promises :: repository in p.repositoryIds
  }

  /** A whole, successful copy at a repository, made under a policy that
      applies to the account now. */
  ghost predicate IsCopy(promises: seq<Promise>, job: Job, repository: string) {
    && job.status == Success && job.completeAccount
    && (exists p | p in promises :: p.policyId == job.policyId)
    && Reached(job.targets, repository)
    && At(job) > 0
  }

  /** Young enough for every policy that promises the repository. */
  ghost predicate Young(promises: seq<Promise>, repository: string, now: Time, at: Time) {
    forall p | p in promises && repository in p.repositoryIds :: Sub(now, at) <= p.due
  }

  ghost predicate Kept(promises: seq<Promise>, now: Time, jobs: seq<Job>, repository: string) {
    exists j | j in jobs :: IsCopy(promises, j, repository) && Young(promises, repository, now, At(j))
  }

  /** Something is promised, and every promised repository holds a whole copy
      within the smallest promised age. */
  ghost predicate Safe(promises: seq<Promise>, now: Time, jobs: seq<Job>) {
    && promises != []
    && (forall r | Promised(promises, r) :: Kept(promises, now, jobs, r))
  }

  /** More history never turns yes into no. */
  lemma MoreJobsKeepSafe(promises: seq<Promise>, now: Time, jobs: seq<Job>, more: seq<Job>)
    requires Safe(promises, now, jobs)
    requires forall j | j in jobs :: j in more
    ensures Safe(promises, now, more)
  {
    forall r | Promised(promises, r) ensures Kept(promises, now, more, r) {
      assert Kept(promises, now, jobs, r);
    }
  }

  /** One job per selected policy, each of which landed whole everywhere the
      policy writes and finished at the given instant. */
  ghost predicate Completed(selected: seq<Policy>, finished: seq<Job>, at: Time) {
    forall p | p in selected :: exists j | j in finished :: Fulfils(j, p, at)
  }

  ghost predicate Fulfils(job: Job, policy: Policy, at: Time) {
    && job.policyId == policy.id && job.status == Success && job.completeAccount && At(job) == at
    && forall r | r in policy.repositoryIds :: Reached(job.targets, r)
  }

  /** Refreshing what is missing makes the answer yes at the same instant. */
  lemma CompletionSuffices(promises: seq<Promise>, now: Time, jobs: seq<Job>, missing: seq<string>,
                           selected: seq<Policy>, finished: seq<Job>)
    requires now > 0 && promises != [] && forall p | p in promises :: p.due > 0
    requires forall r | Promised(promises, r) && r !in missing :: Kept(promises, now, jobs, r)
    requires forall s | s in selected :: exists p | p in promises :: p.policyId == s.id
    requires forall r | r in missing :: exists s | s in selected :: r in s.repositoryIds
    requires Completed(selected, finished, now)
    ensures Safe(promises, now, jobs + finished)
  {
    forall r | Promised(promises, r) ensures Kept(promises, now, jobs + finished, r) {
      if r in missing {
        var s :| s in selected && r in s.repositoryIds;
        var j :| j in finished && Fulfils(j, s, now);
        assert j in jobs + finished && IsCopy(promises, j, r);
      } else {
        var j :| j in jobs && IsCopy(promises, j, r) && Young(promises, r, now, At(j));
        assert j in jobs + finished;
      }
    }
  }

  // ---- accountRemovalSafety ----

  datatype Reason = Disabled | NoAccount | NoPolicy | MissingCopies | RecentCopies

  datatype Decision = Decision(enforced: bool, allowed: bool, reason: Reason, missingRepositoryIds: seq<string>)

  /** The smallest age promised for each repository. */
  ghost predicate SmallestDue(promises: seq<Promise>, expected: map<string, int>) {
    && (forall r :: r in expected <==> Promised(promises, r))
    && (forall r | r in expected :: exists p | p in promises :: r in p.repositoryIds && p.due == expected[r])
    && (forall p, r | p in promises && r in p.repositoryIds :: r in expected && expected[r] <= p.due)
  }

  /** The most recent copy at each promised repository. */
  ghost predicate LatestCopies(promises: seq<Promise>, jobs: seq<Job>, expected: set<string>, latest: map<string, Time>) {
    && (forall r | r in latest :: r in expected && exists j | j in jobs :: IsCopy(promises, j, r) && At(j) == latest[r])
    && (forall r, j | r in expected && j in jobs && IsCopy(promises, j, r) :: r in latest && At(j) <= latest[r])
  }

  /** Lowers what is expected of each repository one policy writes to. */
  method Lower(expected: map<string, int>, repositoryIds: seq<string>, due: int) returns (lowered: map<string, int>)
    ensures lowered.Keys == expected.Keys + Elements(repositoryIds)
    ensures forall r | r in lowered ::
              lowered[r] == if r !in repositoryIds then expected[r]
                            else if r in expected && expected[r] <= due then expected[r] else due
  {
    lowered := expected;
    for k := 0 to |repositoryIds|
      invariant lowered.Keys == expected.Keys + Elements(repositoryIds[..k])
      invariant forall r | r in lowered ::
                  lowered[r] == if r !in repositoryIds[..k] then expected[r]
                                else if r in expected && expected[r] <= due then expected[r] else due
    {
      var r := repositoryIds[k];
      assert repositoryIds[..k + 1] == repositoryIds[..k] + [r];
      ElementsAppend(repositoryIds[..k], r);
      if r !in lowered || due < lowered[r] {
        lowered := lowered[r := due];
      }
    }
    assert repositoryIds[..|repositoryIds|] == repositoryIds;
  }

  function Latest(latest: map<string, Time>, r: string): Time {
    if r in latest then latest[r] else 0
  }

  /** Moves the latest copy forward at each promised repository one job reached. */
  method Note(latest: map<string, Time>, expected: set<string>, targets: seq<Target>, at: Time)
    returns (noted: map<string, Time>)
    ensures forall r :: r in noted <==>
              r in latest || (r in expected && Reached(targets, r) && at > 0)
    ensures forall r :: Latest(noted, r) ==
              if r in expected && Reached(targets, r) && at > Latest(latest, r) then at else Latest(latest, r)
  {
    noted := latest;
    for k := 0 to |targets|
      invariant forall r :: r in noted <==>
                  r in latest || (r in expected && Reached(targets[..k], r) && at > 0)
      invariant forall r :: Latest(noted, r) ==
                  if r in expected && Reached(targets[..k], r) && at > Latest(latest, r) then at else Latest(latest, r)
    {
      var target := targets[k];
      ReachedAppend(targets, k);
      if target.status != TargetSuccess || target.incomplete {
        continue;
      }
      if target.repositoryId in expected && at > Latest(noted, target.repositoryId) {
        noted := noted[target.repositoryId := at];
      }
    }
    assert targets[..|targets|] == targets;
  }

  lemma ReachedAppend(targets: seq<Target>, k: nat)
    requires k < |targets|
    ensures forall r :: Reached(targets[..k + 1], r) <==> Reached(targets[..k], r) || Landed(targets[k], r)
  {
    assert targets[..k + 1] == targets[..k] + [targets[k]];
  }

  lemma SmallestDueAppend(promises: seq<Promise>, promise: Promise, expected: map<string, int>, lowered: map<string, int>)
    requires SmallestDue(promises, expected)
    requires lowered.Keys == expected.Keys + Elements(promise.repositoryIds)
    requires forall r | r in lowered ::
               lowered[r] == if r !in promise.repositoryIds then expected[r]
                             else if r in expected && expected[r] <= promise.due then expected[r] else promise.due
    ensures SmallestDue(promises + [promise], lowered)
  {
    var more := promises + [promise];
    PromisedAppend(promises, promise);
    forall p, r | p in more && r in p.repositoryIds ensures r in lowered && lowered[r] <= p.due {
      assert p in promises || p == promise;
    }
    forall r | r in lowered ensures exists p | p in more :: r in p.repositoryIds && p.due == lowered[r] {
      LoweredIsPromised(promises, promise, expected, lowered, r);
    }
  }

  lemma LoweredIsPromised(
    promises: seq<Promise>, promise: Promise, expected: map<string, int>, lowered: map<string, int>, r: string)
    requires SmallestDue(promises, expected) && r in lowered && (r in expected || r in promise.repositoryIds)
    requires lowered[r] == if r !in promise.repositoryIds then expected[r]
                           else if r in expected && expected[r] <= promise.due then expected[r] else promise.due
    ensures exists p | p in promises + [promise] :: r in p.repositoryIds && p.due == lowered[r]
  {
    if r in expected && lowered[r] == expected[r] {
      var p :| p in promises && r in p.repositoryIds && p.due == expected[r];
      assert p in promises + [promise];
    } else {
      assert promise in promises + [promise];
    }
  }

  lemma PromisedAppend(promises: seq<Promise>, promise: Promise)
    ensures forall r :: Promised(promises + [promise], r) <==> Promised(promises, r) || r in promise.repositoryIds
  {
    var more := promises + [promise];
    forall r ensures Promised(more, r) <==> Promised(promises, r) || r in promise.repositoryIds {
      if r in promise.repositoryIds {
        assert promise in more;
      } else if Promised(promises, r) {
        var p :| p in promises && r in p.repositoryIds;
        assert p in more;
      }
    }
  }

  /** The freshness promised for each repository, and the ids of the policies
      that promise it. */
  method Expected(cron: Cron, policies: seq<Policy>, account: string, now: Time)
    returns (expected: map<string, int>, fullPolicies: set<string>)
    ensures SmallestDue(Promises(cron, policies, account, now), expected)
    ensures forall id :: id in fullPolicies <==>
              exists p | p in Promises(cron, policies, account, now) :: p.policyId == id
  {
    expected, fullPolicies := map[], {};
    for i := 0 to |policies|
      invariant SmallestDue(Promises(cron, policies[..i], account, now), expected)
      invariant forall id :: id in fullPolicies <==>
                  exists p | p in Promises(cron, policies[..i], account, now) :: p.policyId == id
    {
      var policy := policies[i];
      assert policies[..i + 1][..i] == policies[..i];
      if !FullAccountPolicy(policy, account) {
        continue;
      }
      var due := PolicyFreshness(cron, policy, now);
      if due.None? {
        continue;
      }
      ghost var before, promise := Promises(cron, policies[..i], account, now), Promise(policy.id, policy.repositoryIds, due.value);
      assert Promises(cron, policies[..i + 1], account, now) == before + [promise];
      fullPolicies := fullPolicies + {policy.id};
      var lowered := Lower(expected, policy.repositoryIds, due.value);
      SmallestDueAppend(before, promise, expected, lowered);
      expected := lowered;
    }
    assert policies[..|policies|] == policies;
  }

  /** The most recent whole copy at each promised repository. */
  method LatestOf(ghost promises: seq<Promise>, jobs: seq<Job>, expected: set<string>, fullPolicies: set<string>)
    returns (latest: map<string, Time>)
    requires forall id :: id in fullPolicies <==> exists p | p in promises :: p.policyId == id
    ensures LatestCopies(promises, jobs, expected, latest)
  {
    latest := map[];
    for i := 0 to |jobs|
      invariant LatestCopies(promises, jobs[..i], expected, latest)
    {
      var stored := jobs[i];
      assert jobs[..i + 1] == jobs[..i] + [stored];
      if stored.status != Success || !stored.completeAccount || stored.policyId !in fullPolicies {
        assert forall r :: !IsCopy(promises, stored, r);
        continue;
      }
      var noted := Note(latest, expected, stored.targets, At(stored));
      NoteKeepsLatest(promises, jobs[..i], stored, expected, latest, noted);
      latest := noted;
    }
    assert jobs[..|jobs|] == jobs;
  }

  lemma NoteKeepsLatest(promises: seq<Promise>, jobs: seq<Job>, job: Job, expected: set<string>,
                        latest: map<string, Time>, noted: map<string, Time>)
    requires LatestCopies(promises, jobs, expected, latest)
    requires job.status == Success && job.completeAccount && exists p | p in promises :: p.policyId == job.policyId
    requires forall r :: r in noted <==> r in latest || (r in expected && Reached(job.targets, r) && At(job) > 0)
    requires forall r :: Latest(noted, r) ==
               if r in expected && Reached(job.targets, r) && At(job) > Latest(latest, r) then At(job) else Latest(latest, r)
    ensures LatestCopies(promises, jobs + [job], expected, noted)
  {
    var more := jobs + [job];
    assert job in more && forall j | j in jobs :: j in more;
    forall r ensures IsCopy(promises, job, r) <==> Reached(job.targets, r) && At(job) > 0 {
    }
    forall r | r in noted
      ensures r in expected && exists j | j in more :: IsCopy(promises, j, r) && At(j) == noted[r]
    {
      if r !in latest || noted[r] != latest[r] {
        assert IsCopy(promises, job, r) && At(job) == Latest(noted, r);
      } else {
        var j :| j in jobs && IsCopy(promises, j, r) && At(j) == latest[r];
      }
    }
    forall r, j | r in expected && j in more && IsCopy(promises, j, r) ensures r in noted && At(j) <= noted[r] {
      assert j in jobs || j == job;
      assert noted[r] == Latest(noted, r);
    }
  }

  /** The repositories whose promised copy is absent or too old. */
  method Missing(expected: map<string, int>, latest: map<string, Time>, now: Time) returns (missing: seq<string>)
    ensures Distinct(missing)
    ensures forall r :: r in missing <==> r in expected && (r !in latest || Sub(now, latest[r]) > expected[r])
  {
    missing := [];
    var todo := expected.Keys;
    while todo != {}
      invariant todo <= expected.Keys
      invariant Distinct(missing) && forall r | r in missing :: r !in todo
      invariant forall r :: r in missing <==>
                  r in expected.Keys - todo && (r !in latest || Sub(now, latest[r]) > expected[r])
    {
      var r :| r in todo;
      todo := todo - {r};
      if r !in latest || Sub(now, latest[r]) > expected[r] {
        missing := missing + [r];
      }
    }
  }

  lemma KeptIff(promises: seq<Promise>, now: Time, jobs: seq<Job>, expected: map<string, int>,
                latest: map<string, Time>, r: string)
    requires SmallestDue(promises, expected) && r in expected
    requires LatestCopies(promises, jobs, expected.Keys, latest)
    ensures Kept(promises, now, jobs, r) <==> r in latest && Sub(now, latest[r]) <= expected[r]
  {
    if r in latest && Sub(now, latest[r]) <= expected[r] {
      var j :| j in jobs && IsCopy(promises, j, r) && At(j) == latest[r];
      assert Young(promises, r, now, At(j));
    }
    if Kept(promises, now, jobs, r) {
      var j :| j in jobs && IsCopy(promises, j, r) && Young(promises, r, now, At(j));
      var p :| p in promises && r in p.repositoryIds && p.due == expected[r];
      assert r in latest && At(j) <= latest[r];
    }
  }

  /** Allowed exactly when a full policy applies and every promised repository
      holds a whole copy within the smallest promised age. */
  method AccountRemovalSafety(account: string, now: Time, policies: seq<Policy>, jobs: seq<Job>, cron: Cron)
    returns (decision: Decision)
    ensures var promises := Promises(cron, policies, account, now);
            && (decision.allowed <==> account != "" && Safe(promises, now, jobs))
            && (forall r :: r in decision.missingRepositoryIds <==>
                  account != "" && Promised(promises, r) && !Kept(promises, now, jobs, r))
            && (decision.reason == NoPolicy <==> account != "" && promises == [])
    ensures Distinct(decision.missingRepositoryIds)
    ensures decision.reason == NoAccount <==> account == ""
    ensures decision.reason == MissingCopies <==> decision.missingRepositoryIds != []
    ensures decision.reason != Disabled && !decision.enforced
  {
    if account == "" {
      return Decision(false, false, NoAccount, []);
    }
    ghost var promises := Promises(cron, policies, account, now);
    var expected, fullPolicies := Expected(cron, policies, account, now);
    ExpectedEmpty(promises, expected);
    if |expected| == 0 {
      return Decision(false, false, NoPolicy, []);
    }
    var latest := LatestOf(promises, jobs, expected.Keys, fullPolicies);
    var missing := Missing(expected, latest, now);
    forall r | r in expected ensures r in missing <==> !Kept(promises, now, jobs, r) {
      KeptIff(promises, now, jobs, expected, latest, r);
    }
    if |missing| > 0 {
      assert missing[0] in missing;
      return Decision(false, false, MissingCopies, missing);
    }
    return Decision(false, true, RecentCopies, []);
  }

  lemma ExpectedEmpty(promises: seq<Promise>, expected: map<string, int>)
    requires SmallestDue(promises, expected)
    requires forall p | p in promises :: p.repositoryIds != []
    ensures |expected| == 0 <==> promises == []
  {
    if promises != [] {
      assert promises[0] in promises && promises[0].repositoryIds[0] in expected;
    }
  }

  // ---- QueueRemovalPreparation ----

  datatype Preparation =
    | NotEnforced
    | AlreadySafe
    | CannotPrepare(reason: Reason)
    | NoCover
    | Busy
    | Queued(policies: seq<Policy>)

  /** The copies that block the removal of an account. */
  ghost predicate IsMissing(promises: seq<Promise>, now: Time, jobs: seq<Job>, missing: seq<string>) {
    forall r :: r in missing <==> Promised(promises, r) && !Kept(promises, now, jobs, r)
  }

  /** The smallest set of the candidates that reaches every missing copy, and
      enough once its jobs have landed whole. */
  ghost predicate Prepares(promises: seq<Promise>, candidates: seq<Policy>, now: Time, jobs: seq<Job>, selected: seq<Policy>) {
    && (exists missing :: IsMissing(promises, now, jobs, missing) && IsMinimumCover(missing, candidates, selected))
    && (forall finished | now > 0 && Completed(selected, finished, now) :: Safe(promises, now, jobs + finished))
  }

  /** Queues the smallest set of applying policies that refreshes every missing
      copy. With one snapshot of the state there always is one, and once the
      jobs it queues have landed whole the account may be removed. */
  method QueueRemovalPreparation(protect: bool, account: string, now: Time, policies: seq<Policy>, jobs: seq<Job>,
                                 cron: Cron, busy: bool) returns (prepared: Preparation)
    ensures prepared != NoCover
    ensures prepared == NotEnforced <==> !protect
    ensures var promises := Promises(cron, policies, account, now);
            && (prepared == AlreadySafe <==> protect && account != "" && Safe(promises, now, jobs))
            && (prepared.CannotPrepare? <==> protect && (account == "" || promises == []))
            && (prepared.Queued? ==>
                  Prepares(promises, Applying(cron, policies, account, now), now, jobs, prepared.policies))
    ensures prepared.Queued? ==> !busy
    ensures prepared == Busy ==> busy
  {
    if !protect {
      return NotEnforced;
    }
    ghost var promises := Promises(cron, policies, account, now);
    var decision := AccountRemovalSafety(account, now, policies, jobs, cron);
    if decision.allowed {
      return AlreadySafe;
    }
    var missing := decision.missingRepositoryIds;
    if |missing| == 0 {
      return CannotPrepare(decision.reason);
    }
    assert missing[0] in missing;
    var candidates := Candidates(cron, policies, account, now);
    var selected := MinimumPolicyCover(missing, candidates);
    ApplyingPromises(cron, policies, account, now);
    CoverFound(promises, missing, candidates, selected);
    if |selected| == 0 {
      return NoCover;
    }
    if busy {
      return Busy;
    }
    assert IsMissing(promises, now, jobs, missing);
    forall finished | now > 0 && Completed(selected, finished, now) ensures Safe(promises, now, jobs + finished) {
      CompletionSuffices(promises, now, jobs, missing, selected, finished);
    }
    return Queued(selected);
  }

  method Candidates(cron: Cron, policies: seq<Policy>, account: string, now: Time) returns (candidates: seq<Policy>)
    ensures candidates == Applying(cron, policies, account, now)
  {
    candidates := [];
    for i := 0 to |policies|
      invariant candidates == Applying(cron, policies[..i], account, now)
    {
      assert policies[..i + 1][..i] == policies[..i];
      if !FullAccountPolicy(policies[i], account) {
        continue;
      }
      if PolicyFreshness(cron, policies[i], now).None? {
        continue;
      }
      candidates := candidates + [policies[i]];
    }
    assert policies[..|policies|] == policies;
  }

  lemma CoverFound(promises: seq<Promise>, missing: seq<string>, candidates: seq<Policy>, selected: seq<Policy>)
    requires |candidates| == |promises|
    requires forall k | 0 <= k < |candidates| ::
               promises[k].policyId == candidates[k].id && promises[k].repositoryIds == candidates[k].repositoryIds
    requires missing != [] && forall r | r in missing :: Promised(promises, r)
    requires IsMinimumCover(missing, candidates, selected)
    ensures selected != []
    ensures forall s | s in selected :: exists p | p in promises :: p.policyId == s.id
    ensures forall r | r in missing :: exists s | s in selected :: r in s.repositoryIds
  {
    forall r | r in missing ensures exists c | c in candidates :: r in c.repositoryIds {
      var p :| p in promises && r in p.repositoryIds;
      var k :| 0 <= k < |promises| && promises[k] == p;
      assert candidates[k] in candidates;
    }
    CoverExists(missing, candidates);
    var picks: seq<nat> :| Selects(candidates, picks, selected) && CoversAll(candidates, Elements(picks), missing);
    forall s | s in selected ensures exists p | p in promises :: p.policyId == s.id {
      var k :| 0 <= k < |selected| && selected[k] == s;
      assert promises[picks[k]] in promises;
    }
    forall r | r in missing ensures exists s | s in selected :: r in s.repositoryIds {
      var i: nat :| i in Elements(picks) && r in candidates[i].repositoryIds;
      var k :| 0 <= k < |picks| && picks[k] == i;
      assert selected[k] in selected;
    }
  }

  // ---- The promise of one policy, spelled out ----

  /** Wrapping keeps 64 bits of a number, the highest as its sign. */
  lemma Int64Is(x: int)
    ensures -0x8000_0000_0000_0000 <= Int64(x) <= 0x7FFF_FFFF_FFFF_FFFF
    ensures exists k: int :: Int64(x) == x + k * 0x1_0000_0000_0000_0000
    ensures -0x8000_0000_0000_0000 <= x <= 0x7FFF_FFFF_FFFF_FFFF ==> Int64(x) == x
  {
    var y := x + 0x8000_0000_0000_0000;
    var k := y / 0x1_0000_0000_0000_0000;
    assert y == k * 0x1_0000_0000_0000_0000 + y % 0x1_0000_0000_0000_0000;
    assert Int64(x) == x + (-k) * 0x1_0000_0000_0000_0000;
  }

  /** A difference is exact where it fits, and the nearest that fits elsewhere. */
  lemma SubIs(t: Time, u: Time)
    ensures -0x8000_0000_0000_0000 <= Sub(t, u) <= 0x7FFF_FFFF_FFFF_FFFF
    ensures -0x8000_0000_0000_0000 <= t - u <= 0x7FFF_FFFF_FFFF_FFFF ==> Sub(t, u) == t - u
    ensures t - u > 0x7FFF_FFFF_FFFF_FFFF ==> Sub(t, u) == 0x7FFF_FFFF_FFFF_FFFF
    ensures t - u < -0x8000_0000_0000_0000 ==> Sub(t, u) == -0x8000_0000_0000_0000
  {
  }

  /** An enabled policy of everything an account has, that covers it and writes
      somewhere. */
  predicate IsFull(policy: Policy, account: string) {
    && policy.enabled && |policy.repositoryIds| > 0 && (|policy.accounts| == 0 || account in policy.accounts)
    && !(policy.skipHomedir || policy.skipDatabases || policy.skipEmail)
  }

  /** How old its copies may get, in nanoseconds: the days an alert waits when
      it has one, and two gaps of its schedule otherwise. */
  function Allowance(policy: Policy, gap: int): int {
    if policy.alertNoBackupDays > 0 then policy.alertNoBackupDays * 86_400_000_000_000 else gap + gap
  }

  /** What is promised is that allowance in a 64-bit duration, and nothing when
      the schedule does not parse, does not repeat, or the duration wraps. */
  lemma FreshnessIs(cron: Cron, policy: Policy, now: Time)
    ensures var gap := cron(policy.scheduleCron, now);
            PolicyFreshness(cron, policy, now) ==
            if gap == None || gap.value < 1 || Int64(Allowance(policy, gap.value)) < 1 then None
            else Some(Int64(Allowance(policy, gap.value)))
  {
  }

  /** A whole copy at this repository, made by this policy and young enough. */
  ghost predicate HasCopy(jobs: seq<Job>, policyId: string, repository: string, now: Time, allowance: int) {
    exists j | j in jobs ::
      && j.policyId == policyId && j.completeAccount && j.status == Success
      && Target(repository, TargetSuccess, false) in j.targets
      && (var at := if j.finishedAt.Some? then j.finishedAt.value else j.queuedAt;
          at > 0 && now - at <= allowance)
  }

  /** With one policy, removal is safe exactly when it is a full one with a gap
      between its firings, and each repository it writes to holds such a copy. */
  lemma OnePolicyIff(cron: Cron, policy: Policy, account: string, now: Time, jobs: seq<Job>)
    requires 0 <= now <= 0x7FFF_FFFF_FFFF_FFFF
    requires cron(policy.scheduleCron, now).Some? ==>
               Allowance(policy, cron(policy.scheduleCron, now).value) <= 0x7FFF_FFFF_FFFF_FFFF
    ensures Safe(Promises(cron, [policy], account, now), now, jobs) <==>
            && IsFull(policy, account)
            && cron(policy.scheduleCron, now).Some? && cron(policy.scheduleCron, now).value > 0
            && forall r | r in policy.repositoryIds ::
                 HasCopy(jobs, policy.id, r, now, Allowance(policy, cron(policy.scheduleCron, now).value))
  {
    var gap := cron(policy.scheduleCron, now);
    assert [policy][..0] == [];
    if IsFull(policy, account) && gap.Some? && gap.value > 0 {
      var due := Allowance(policy, gap.value);
      var promise := Promise(policy.id, policy.repositoryIds, due);
      Int64Is(due);
      assert Promises(cron, [policy], account, now) == [promise];
      forall r ensures Promised([promise], r) <==> r in policy.repositoryIds { assert promise in [promise]; }
      forall r | r in policy.repositoryIds ensures Kept([promise], now, jobs, r) <==> HasCopy(jobs, policy.id, r, now, due) {
        OneCopyIff(promise, now, jobs, r);
      }
      if Safe([promise], now, jobs) {
        forall r | r in policy.repositoryIds ensures HasCopy(jobs, policy.id, r, now, due) {
          assert Promised([promise], r) && Kept([promise], now, jobs, r);
        }
      }
      if forall q | q in policy.repositoryIds :: HasCopy(jobs, policy.id, q, now, due) {
        forall r | Promised([promise], r) ensures Kept([promise], now, jobs, r) {
          assert r in policy.repositoryIds;
          OneCopyIff(promise, now, jobs, r);
        }
      }
    } else {
      assert Promises(cron, [policy], account, now) == [];
    }
  }

  lemma OneCopyIff(promise: Promise, now: Time, jobs: seq<Job>, r: string)
    requires r in promise.repositoryIds && 0 <= now <= 0x7FFF_FFFF_FFFF_FFFF && 0 < promise.due <= 0x7FFF_FFFF_FFFF_FFFF
    ensures Kept([promise], now, jobs, r) <==> HasCopy(jobs, promise.policyId, r, now, promise.due)
  {
    forall j | j in jobs
      ensures IsCopy([promise], j, r) && Young([promise], r, now, At(j)) <==>
              && j.policyId == promise.policyId && j.completeAccount && j.status == Success
              && Target(r, TargetSuccess, false) in j.targets && At(j) > 0 && now - At(j) <= promise.due
    {
      SubIs(now, At(j));
      OnlyPromise(promise, j, r, now);
      ReachedIff(j.targets, r);
    }
  }

  lemma ReachedIff(targets: seq<Target>, r: string)
    ensures Reached(targets, r) <==> Target(r, TargetSuccess, false) in targets
  {
    if t :| t in targets && Landed(t, r) { assert t == Target(r, TargetSuccess, false); }
    if Target(r, TargetSuccess, false) in targets { assert Landed(Target(r, TargetSuccess, false), r); }
  }

  lemma OnlyPromise(promise: Promise, j: Job, r: string, now: Time)
    requires r in promise.repositoryIds
    ensures (exists p | p in [promise] :: p.policyId == j.policyId) <==> promise.policyId == j.policyId
    ensures Young([promise], r, now, At(j)) <==> Sub(now, At(j)) <= promise.due
  {
    assert promise in [promise];
  }

  /** Several policies promise what each of them does. */
  lemma {:induction false} PromisesAreEachOnes(cron: Cron, policies: seq<Policy>, account: string, now: Time, p: Promise)
    ensures p in Promises(cron, policies, account, now) <==>
            exists policy | policy in policies :: p in Promises(cron, [policy], account, now)
  {
    if policies != [] {
      var front, last := policies[..|policies| - 1], policies[|policies| - 1];
      PromisesAreEachOnes(cron, front, account, now, p);
      assert policies == front + [last] && [last][..0] == [];
    }
  }
}
