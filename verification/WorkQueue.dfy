/** The queue of backups and restores: exclusive enqueueing, the order work is
    taken in, how it ends, and what a restart does to it
    (internal/node/run.go:100-356, 971-994, internal/nodestore/queries.go:409-626,
    internal/node/node.go:206-252, internal/job/job.go), over whatever the worker
    reports. */
module WorkQueue {
  import opened NodeStore
  import opened Text
  import opened BackupRun

  // ---- Rollup ----

  predicate Good(t: Target) {
    t.status == TargetSuccess && !t.incomplete
  }

  predicate Bad(t: Target) {
    t.status == TargetFailed || (t.status == TargetSuccess && t.incomplete)
  }

  predicate Unfinished(t: Target) {
    t.status == TargetPending || t.status == TargetRunning
  }

  ghost predicate AnyGood(targets: seq<Target>) {
    exists k :: 0 <= k < |targets| && Good(targets[k])
  }

  ghost predicate AnyBad(targets: seq<Target>) {
    exists k :: 0 <= k < |targets| && Bad(targets[k])
  }

  ghost predicate AnyUnfinished(targets: seq<Target>) {
    exists k :: 0 <= k < |targets| && Unfinished(targets[k])
  }

  /** The status of a whole job: it succeeded only if something landed whole
      and nothing failed, and it ends exactly when every target has. */
  method Rollup(targets: seq<Target>) returns (status: Status)
    ensures status == Running <==> AnyUnfinished(targets)
    ensures status == Success <==> !AnyUnfinished(targets) && AnyGood(targets) && !AnyBad(targets)
    ensures status == PartialSuccess <==> !AnyUnfinished(targets) && AnyGood(targets) && AnyBad(targets)
    ensures status == Failed <==> !AnyUnfinished(targets) && !AnyGood(targets)
    ensures status.Terminal() <==> !AnyUnfinished(targets)
    ensures status == Running <==> exists t | t in targets :: t.status == TargetPending || t.status == TargetRunning
    ensures status in {Success, PartialSuccess} ==> exists t | t in targets :: t.status == TargetSuccess && !t.incomplete
    ensures status == Success ==>
              forall t | t in targets :: t.status == TargetSkipped || (t.status == TargetSuccess && !t.incomplete)
    ensures status == PartialSuccess ==>
              exists t | t in targets :: t.status == TargetFailed || (t.status == TargetSuccess && t.incomplete)
    ensures status == Failed ==> forall t | t in targets :: t.status == TargetSuccess ==> t.incomplete
    ensures status in {Running, Success, PartialSuccess, Failed}
  {
    if |targets| == 0 {
      return Failed;
    }
    var succeeded, failed, unfinished := 0, 0, 0;
    for i := 0 to |targets|
      invariant succeeded >= 0 && failed >= 0 && unfinished >= 0
      invariant succeeded > 0 <==> exists k :: 0 <= k < i && Good(targets[k])
      invariant failed > 0 <==> exists k :: 0 <= k < i && Bad(targets[k])
      invariant unfinished > 0 <==> exists k :: 0 <= k < i && Unfinished(targets[k])
    {
      var target := targets[i];
      match target.status {
        case TargetSuccess =>
          if target.incomplete {
            failed := failed + 1;
          } else {
            succeeded := succeeded + 1;
          }
        case TargetFailed => failed := failed + 1;
        case TargetPending => unfinished := unfinished + 1;
        case TargetRunning => unfinished := unfinished + 1;
        case TargetSkipped =>
      }
    }
    if unfinished > 0 {
      return Running;
    } else if succeeded > 0 && failed > 0 {
      return PartialSuccess;
    } else if succeeded > 0 {
      return Success;
    }
    return Failed;
  }

  // ---- The stored work ----

  datatype Kind = Restore | Backup

  /** One queued backup or restore. `batch` is the enqueue it came with. */
  datatype Work = Work(kind: Kind, account: string, queuedAt: Time, status: Status, batch: nat)

  type Queue = map<string, Work>

  /** a is listed after b, newest first, so it is the older of the two; work of
      the same instant is told apart by account, then by id. */
  predicate Older(a: Work, aid: string, b: Work, bid: string) {
    a.queuedAt < b.queuedAt
    || (a.queuedAt == b.queuedAt
        && (LexLess(b.account, a.account) || (a.account == b.account && LexLess(bid, aid))))
  }

  /** a is taken before b: restores first, then the oldest. */
  predicate Before(a: Work, aid: string, b: Work, bid: string) {
    if a.kind == b.kind then Older(a, aid, b, bid) else a.kind == Restore
  }

  predicate Sooner(queue: Queue, a: string, b: string) {
    a in queue && b in queue && Before(queue[a], a, queue[b], b)
  }

  lemma BeforeTransitive(a: Work, aid: string, b: Work, bid: string, c: Work, cid: string)
    requires Before(a, aid, b, bid) && Before(b, bid, c, cid)
    ensures Before(a, aid, c, cid)
  {
    if a.queuedAt == b.queuedAt == c.queuedAt && a.kind == c.kind {
      if LexLess(b.account, a.account) && LexLess(c.account, b.account) {
        LexTransitive(c.account, b.account, a.account);
      } else if a.account == b.account == c.account {
        LexTransitive(cid, bid, aid);
      }
    }
  }

  predicate Busy(queue: Queue, account: string) {
    exists id | id in queue :: queue[id].account == account && !queue[id].status.Terminal()
  }

  predicate IsPending(queue: Queue, id: string) {
    id in queue && queue[id].status == Pending
  }

  /** The next work to do: pending, and nothing pending comes before it. */
  ghost predicate IsNextWork(queue: Queue, id: string) {
    IsPending(queue, id) && forall other | IsPending(queue, other) :: !Sooner(queue, other, id)
  }

  /** A restore if any is waiting, and of its kind none waiting was queued
      before it. */
  ghost predicate IsFirst(queue: Queue, id: string) {
    && id in queue && queue[id].status == Pending
    && (forall other | other in queue && queue[other].status == Pending && queue[other].kind == Restore ::
          queue[id].kind == Restore)
    && (forall other | other in queue && queue[other].status == Pending && queue[other].kind == queue[id].kind ::
          queue[id].queuedAt <= queue[other].queuedAt)
  }

  lemma NextIsFirst(queue: Queue, id: string)
    requires IsNextWork(queue, id)
    ensures IsFirst(queue, id)
  {
    forall other | IsPending(queue, other)
      ensures queue[other].kind == Restore ==> queue[id].kind == Restore
      ensures queue[other].kind == queue[id].kind ==> queue[id].queuedAt <= queue[other].queuedAt
    {
      assert !Sooner(queue, other, id);
    }
  }

  /** Restores before backups, and each kind in the order it was queued. */
  ghost predicate InTurn(queue: Queue, done: seq<string>) {
    forall i, j | 0 <= i < j < |done| && done[i] in queue && done[j] in queue ::
      && (queue[done[j]].kind == Restore ==> queue[done[i]].kind == Restore)
      && (queue[done[i]].kind == queue[done[j]].kind ==> queue[done[i]].queuedAt <= queue[done[j]].queuedAt)
  }

  lemma DrainedInTurn(start: Queue, queue: Queue, done: seq<string>, outcomes: string -> Outcome)
    requires Drained(start, queue, done, outcomes)
    ensures InTurn(start, done)
  {
    var sooner := (a, b) => Sooner(start, a, b);
    forall i, j | 0 <= i < j < |done| && done[i] in start && done[j] in start
      ensures queue.Keys == start.Keys && !Sooner(start, done[j], done[i])
    {
      assert !sooner(done[j], done[i]);
    }
  }

  function PendingIds(queue: Queue): set<string> {
    set id | id in queue && queue[id].status == Pending
  }

  /** What the worker comes to on one piece of work, of either kind. */
  datatype Outcome = Outcome(restored: bool, run: Run)

  /** A destination of a staged job got a whole copy, at once or when it was
      tried again. */
  predicate Landed(a: Assignment, i: nat) {
    Whole(a.first(i)) || (a.retryFailed && Whole(a.again(i)))
  }

  ghost predicate AllLanded(a: Assignment) {
    forall i | 0 <= i < |a.targets| :: Landed(a, i)
  }

  ghost predicate NoneLanded(a: Assignment) {
    forall i | 0 <= i < |a.targets| :: !Landed(a, i)
  }

  /** The status work ends with: a restore as it went, a backup by the copies
      that landed. A backup that never started, could not be staged or had
      nowhere to go failed. */
  ghost predicate Ends(kind: Kind, outcome: Outcome, status: Status) {
    var run, a := outcome.run, outcome.run.assignment;
    if kind == Restore then status == if outcome.restored then Success else Failed
    else if run.early || !a.staged || a.targets == [] then status == Failed
    else status == if AllLanded(a) then Success else if NoneLanded(a) then Failed else PartialSuccess
  }

  lemma EndsAreTerminal(kind: Kind, outcome: Outcome, status: Status)
    requires Ends(kind, outcome, status)
    ensures status.Terminal()
  {
  }

  /** What the rollup makes of a run's results is that status. */
  lemma ResultsEnd(outcome: Outcome, results: seq<Target>, status: Status)
    requires !outcome.run.early && Results(outcome.run, results)
    requires status == Running <==> AnyUnfinished(results)
    requires status == Success <==> !AnyUnfinished(results) && AnyGood(results) && !AnyBad(results)
    requires status == PartialSuccess <==> !AnyUnfinished(results) && AnyGood(results) && AnyBad(results)
    requires status == Failed <==> !AnyUnfinished(results) && !AnyGood(results)
    ensures Ends(Backup, outcome, status)
  {
    var a := outcome.run.assignment;
    if a.staged {
      forall i | 0 <= i < |results|
        ensures !Unfinished(results[i]) && (Good(results[i]) <==> Landed(a, i)) && (Bad(results[i]) <==> !Landed(a, i))
      {
        assert Told(a, results[i], i);
      }
      if i :| 0 <= i < |a.targets| && Landed(a, i) { assert Good(results[i]); }
      if i :| 0 <= i < |a.targets| && !Landed(a, i) { assert Bad(results[i]); }
      if a.targets != [] { assert Landed(a, 0) || !Landed(a, 0); }
    }
  }

  /** Done once each, nothing before anything sooner, and nothing left that is
      sooner than what was done. */
  ghost predicate InOrder<I(!new)>(sooner: (I, I) -> bool, done: seq<I>, pending: set<I>) {
    && Distinct(done) && Elements(done) !! pending
    && (forall i, j | 0 <= i < j < |done| :: !sooner(done[j], done[i]))
    && (forall i, p | 0 <= i < |done| && p in pending :: !sooner(p, done[i]))
  }

  lemma InOrderStep<I(!new)>(sooner: (I, I) -> bool, done: seq<I>, pending: set<I>, id: I)
    requires InOrder(sooner, done, pending)
    requires id in pending && forall p | p in pending :: !sooner(p, id)
    ensures InOrder(sooner, done + [id], pending - {id})
    ensures Elements(done + [id]) == Elements(done) + {id}
  {
    ElementsAppend(done, id);
    assert forall k | 0 <= k < |done| :: done[k] in Elements(done);
  }

  /** What was pending and is not any more has ended as its targets say, and
      nothing else has changed. */
  ghost predicate Worked(start: Queue, queue: Queue, outcomes: string -> Outcome) {
    && queue.Keys == start.Keys && PendingIds(queue) <= PendingIds(start)
    && (forall id | id in queue :: queue[id] == start[id].(status := queue[id].status))
    && (forall id | id in queue && id !in PendingIds(start) - PendingIds(queue) :: queue[id] == start[id])
    && (forall id | id in PendingIds(start) - PendingIds(queue) :: Ends(queue[id].kind, outcomes(id), queue[id].status))
  }

  /** Some of the work that was pending at the start has been done: each piece
      once, in the order of the queue, and ended as its targets say. */
  ghost predicate Drained(start: Queue, queue: Queue, done: seq<string>, outcomes: string -> Outcome) {
    && Worked(start, queue, outcomes)
    && Elements(done) == PendingIds(start) - PendingIds(queue)
    && InOrder((a, b) => Sooner(start, a, b), done, PendingIds(queue))
  }

  lemma WorkedStep(start: Queue, before: Queue, queue: Queue, id: string, outcomes: string -> Outcome)
    requires Worked(start, before, outcomes) && IsNextWork(before, id)
    requires id in queue && Ends(queue[id].kind, outcomes(id), queue[id].status)
    requires queue == before[id := before[id].(status := queue[id].status)]
    ensures Worked(start, queue, outcomes)
    ensures PendingIds(queue) == PendingIds(before) - {id} && id in PendingIds(before)
    ensures forall p | p in PendingIds(before) :: !Sooner(start, p, id)
  {
    assert PendingIds(queue) == PendingIds(before) - {id};
    forall p | p in PendingIds(before) ensures !Sooner(start, p, id) {
      assert !Sooner(before, p, id);
    }
  }

  lemma DrainStep(start: Queue, before: Queue, queue: Queue, done: seq<string>, id: string, outcomes: string -> Outcome)
    requires Drained(start, before, done, outcomes) && IsNextWork(before, id)
    requires id in queue && Ends(queue[id].kind, outcomes(id), queue[id].status)
    requires queue == before[id := before[id].(status := queue[id].status)]
    ensures Drained(start, queue, done + [id], outcomes)
    ensures |PendingIds(queue)| < |PendingIds(before)|
  {
    WorkedStep(start, before, queue, id, outcomes);
    InOrderStep((a, b) => Sooner(start, a, b), done, PendingIds(before), id);
  }

  /** One enqueue put this work in the queue, all of it pending. */
  ghost predicate Enqueued(before: Queue, after: Queue, account: string, ids: set<string>, batch: nat) {
    && after.Keys == before.Keys + ids && ids !! before.Keys
    && (forall id | id in before :: after[id] == before[id])
    && (forall id | id in ids :: IsPending(after, id) && after[id].account == account && after[id].batch == batch)
  }

  /** What a restart makes of the queue. */
  ghost predicate Recovered(before: Queue, after: Queue) {
    && after.Keys == before.Keys
    && forall id | id in after ::
         after[id] == if before[id].status == Running then before[id].(status := Failed) else before[id]
  }

  class Engine {
    var queue: Queue

    method RunningJobFor(account: string) returns (busy: bool)
      ensures busy <==> Busy(queue, account)
      ensures busy <==> exists id | id in queue :: queue[id].account == account && queue[id].status in {Pending, Running}
    {
      var todo := queue.Keys;
      while todo != {}
        invariant todo <= queue.Keys
        invariant forall id | id in queue.Keys - todo :: queue[id].account == account ==> queue[id].status.Terminal()
      {
        var id :| id in todo;
        if queue[id].account == account && !queue[id].status.Terminal() {
          return true;
        }
        todo := todo - {id};
      }
      return false;
    }

    /** Stores pending work for an account that has none in flight, all of it or
        nothing. The work of one call keeps the order it was given in. */
    method Enqueue(kind: Kind, account: string, ids: seq<string>, now: Time, batch: nat) returns (queued: bool)
      requires Distinct(ids) && forall id | id in ids :: id !in queue
      modifies this
      ensures queued <==> !Busy(old(queue), account)
      ensures !queued ==> queue == old(queue)
      ensures queued ==> Enqueued(old(queue), queue, account, Elements(ids), batch)
      ensures queued ==> forall k | 0 <= k < |ids| :: queue[ids[k]] == Work(kind, account, now + k, Pending, batch)
    {
      var busy := RunningJobFor(account);
      if busy {
        return false;
      }
      for k := 0 to |ids|
        invariant queue.Keys == old(queue).Keys + Elements(ids[..k])
        invariant forall id | id in old(queue) :: queue[id] == old(queue)[id]
        invariant forall j | 0 <= j < k :: queue[ids[j]] == Work(kind, account, now + j, Pending, batch)
      {
        assert ids[..k + 1] == ids[..k] + [ids[k]];
        assert ids[k] in ids;
        queue := queue[ids[k] := Work(kind, account, now + k, Pending, batch)];
      }
      assert ids[..|ids|] == ids;
      forall id | id in Elements(ids) ensures IsPending(queue, id) && queue[id].account == account && queue[id].batch == batch {
        var k :| 0 <= k < |ids| && ids[k] == id;
      }
      return true;
    }

    method PendingWork() returns (next: Option<string>)
      ensures next.None? <==> PendingIds(queue) == {}
      ensures next.Some? ==> IsNextWork(queue, next.value) && IsFirst(queue, next.value)
    {
      next := None;
      var todo := PendingIds(queue);
      while todo != {}
        invariant todo <= PendingIds(queue)
        invariant next.None? <==> todo == PendingIds(queue)
        invariant next.Some? ==> IsPending(queue, next.value)
        invariant next.Some? ==> forall id | id in PendingIds(queue) - todo :: !Sooner(queue, id, next.value)
      {
        var id :| id in todo;
        ghost var before := next;
        if next.None? || Sooner(queue, id, next.value) {
          next := Some(id);
          NewFirst(queue, PendingIds(queue) - todo, before, id);
        }
        todo := todo - {id};
      }
      if next.Some? { NextIsFirst(queue, next.value); }
    }

    /** Does the next piece of work, if there is any, and closes it. */
    method RunOnce(outcomes: string -> Outcome) returns (did: Option<string>)
      modifies this
      ensures did.None? <==> PendingIds(old(queue)) == {}
      ensures did.None? ==> queue == old(queue)
      ensures did.Some? ==>
                && IsNextWork(old(queue), did.value) && IsFirst(old(queue), did.value)
                && did.value in queue && Ends(queue[did.value].kind, outcomes(did.value), queue[did.value].status)
                && queue == old(queue)[did.value := old(queue)[did.value].(status := queue[did.value].status)]
                && queue[did.value].status.Terminal()
    {
      did := PendingWork();
      if did.None? {
        return;
      }
      var id := did.value;
      if queue[id].kind == Restore {
        queue := queue[id := queue[id].(status := if outcomes(id).restored then Success else Failed)];
        return;
      }
      var results := RunBackup(outcomes(id).run);
      var status := Failed;
      if results.Some? {
        queue := queue[id := queue[id].(status := Running)];
        status := Rollup(results.value);
        ResultsEnd(outcomes(id), results.value, status);
      }
      queue := queue[id := queue[id].(status := status)];
      EndsAreTerminal(Backup, outcomes(id), status);
    }

    /** Works until nothing is pending: everything that was pending ends as its
        targets say, each once, restores first and then the oldest, and nothing
        else changes. */
    method Drain(outcomes: string -> Outcome) returns (done: seq<string>)
      modifies this
      ensures PendingIds(queue) == {}
      ensures Drained(old(queue), queue, done, outcomes)
      ensures InTurn(old(queue), done)
    {
      done := [];
      while true
        invariant Drained(old(queue), queue, done, outcomes)
        decreases |PendingIds(queue)|
      {
        ghost var before := queue;
        var did := RunOnce(outcomes);
        if did.None? {
          DrainedInTurn(old(queue), queue, done, outcomes);
          return;
        }
        DrainStep(old(queue), before, queue, done, did.value, outcomes);
        done := done + [did.value];
      }
    }

    /** Whatever was running when the process died failed; what was waiting
        still waits. */
    method RecoverFromRestart()
      modifies this
      ensures Recovered(old(queue), queue) && PendingIds(queue) == PendingIds(old(queue))
    {
      var todo := queue.Keys;
      while todo != {}
        invariant todo <= queue.Keys == old(queue).Keys
        invariant forall id | id in todo :: queue[id] == old(queue)[id]
        invariant forall id | id in queue.Keys - todo ::
                    queue[id] == if old(queue)[id].status == Running then old(queue)[id].(status := Failed) else old(queue)[id]
      {
        var id :| id in todo;
        if queue[id].status == Running {
          queue := queue[id := queue[id].(status := Failed)];
        }
        todo := todo - {id};
      }
    }
  }

  lemma NewFirst(queue: Queue, seen: set<string>, before: Option<string>, id: string)
    requires IsPending(queue, id) && forall s | s in seen :: IsPending(queue, s)
    requires before.None? ==> seen == {}
    requires before.Some? ==>
               && Sooner(queue, id, before.value)
               && forall s | s in seen :: !Sooner(queue, s, before.value)
    ensures forall s | s in seen :: !Sooner(queue, s, id)
    ensures !Sooner(queue, id, id)
  {
    forall s | s in seen ensures !Sooner(queue, s, id) {
      if Sooner(queue, s, id) {
        BeforeTransitive(queue[s], s, queue[id], id, queue[before.value], before.value);
      }
    }
    if LexLess(id, id) {
      LexAsymmetric(id, id);
    }
    if LexLess(queue[id].account, queue[id].account) {
      LexAsymmetric(queue[id].account, queue[id].account);
    }
  }

  // ---- Every run of the engine ----

  /** `active` is what the one worker is on, and `batches` counts enqueues. */
  datatype Machine = Machine(queue: Queue, active: Option<string>, batches: nat)

  datatype Step =
    | Add(account: string, ids: set<string>)
    | Begin(id: string)
    | End(id: string, status: Status)
    | Restart
    | Forget(account: string)            // a deleted account's history goes

  ghost predicate Next(m: Machine, step: Step, n: Machine) {
    match step
    case Add(account, ids) =>
      && !Busy(m.queue, account) && Enqueued(m.queue, n.queue, account, ids, m.batches)
      && n.active == m.active && n.batches == m.batches + 1
    case Begin(id) =>
      && m.active.None? && IsNextWork(m.queue, id)
      && n == m.(queue := m.queue[id := m.queue[id].(status := Running)], active := Some(id))
    case End(id, status) =>
      && m.active == Some(id) && status.Terminal() && id in m.queue
      && n == m.(queue := m.queue[id := m.queue[id].(status := status)], active := None)
    case Restart => Recovered(m.queue, n.queue) && n.active.None? && n.batches == m.batches
    case Forget(account) =>
      && (forall id :: id in n.queue <==> id in m.queue && m.queue[id].account != account)
      && (forall id | id in n.queue :: n.queue[id] == m.queue[id])
      && (m.active.Some? && m.active.value in m.queue ==> m.queue[m.active.value].account != account)
      && n.active == m.active && n.batches == m.batches
  }

  /** What Enqueue, RunOnce and RecoverFromRestart promise are such steps. */
  lemma MethodsAreSteps(m: Machine, account: string, ids: set<string>, id: string, status: Status, after: Queue)
    ensures !Busy(m.queue, account) && Enqueued(m.queue, after, account, ids, m.batches) ==>
              Next(m, Add(account, ids), Machine(after, m.active, m.batches + 1))
    ensures m.active.None? && IsNextWork(m.queue, id) && status.Terminal() &&
            after == m.queue[id := m.queue[id].(status := status)] ==>
              var busy := m.(queue := m.queue[id := m.queue[id].(status := Running)], active := Some(id));
              Next(m, Begin(id), busy) && Next(busy, End(id, status), Machine(after, None, m.batches))
    ensures Recovered(m.queue, after) ==> Next(m, Restart, Machine(after, None, m.batches))
  {
    if m.active.None? && IsNextWork(m.queue, id) && status.Terminal() {
      var busy := m.queue[id := m.queue[id].(status := Running)];
      assert busy[id := busy[id].(status := status)] == m.queue[id := m.queue[id].(status := status)];
    }
  }

  predicate Live(queue: Queue, id: string) {
    id in queue && !queue[id].status.Terminal()
  }

  /** All unfinished work of an account came with one enqueue, and only what the
      worker is on is running. */
  ghost predicate Exclusive(m: Machine) {
    && (forall id | id in m.queue :: m.queue[id].batch < m.batches)
    && (forall a, b | Live(m.queue, a) && Live(m.queue, b) && m.queue[a].account == m.queue[b].account ::
          m.queue[a].batch == m.queue[b].batch)
    && (forall id | id in m.queue && m.queue[id].status == Running :: m.active == Some(id))
  }

  lemma OneBatchStep(m: Machine, step: Step, n: Machine, a: string, b: string)
    requires Exclusive(m) && Next(m, step, n)
    requires Live(n.queue, a) && Live(n.queue, b) && n.queue[a].account == n.queue[b].account
    ensures n.queue[a].batch == n.queue[b].batch
  {
    if a in m.queue && b in m.queue {
      assert Live(m.queue, a) && Live(m.queue, b);
    } else {
      assert step.Add? && (a in m.queue ==> Live(m.queue, a)) && (b in m.queue ==> Live(m.queue, b));
    }
  }

  /** No step lets a second batch or a second running piece in. */
  lemma ExclusiveStep(m: Machine, step: Step, n: Machine)
    requires Exclusive(m) && Next(m, step, n)
    ensures Exclusive(n)
  {
    forall a, b | Live(n.queue, a) && Live(n.queue, b) && n.queue[a].account == n.queue[b].account
      ensures n.queue[a].batch == n.queue[b].batch
    {
      OneBatchStep(m, step, n, a, b);
    }
    forall id | id in n.queue
      ensures n.queue[id].batch < n.batches
      ensures n.queue[id].status == Running ==> n.active == Some(id)
    {
    }
  }

  /** So it is in every state a run reaches. */
  lemma {:induction false} RunsAreExclusive(states: seq<Machine>, steps: seq<Step>, i: nat)
    requires |states| == |steps| + 1 && i <= |steps|
    requires states[0] == Machine(map[], None, 0)
    requires forall k | 0 <= k < |steps| :: Next(states[k], steps[k], states[k + 1])
    ensures Exclusive(states[i])
  {
    if i > 0 {
      RunsAreExclusive(states, steps, i - 1);
      ExclusiveStep(states[i - 1], steps[i - 1], states[i]);
    }
  }
}
