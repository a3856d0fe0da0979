/** When a policy fires (internal/node/run.go:660-756; the same rule in fleet
    mode, internal/controller/scheduler.go:80-107): the catch-up window over
    any increasing sequence of ticks, with cron as a set of instants. */
module Scheduler {
  import opened NodeStore

  const CATCH_UP_WINDOW := 2 * 60 * 60 * 1_000_000_000

  /** What the cron library answers: the first instant after a time, or the
      zero time when there is none within its horizon. */
  ghost predicate IsNext(instants: iset<Time>, horizon: nat, next: Time -> Time) {
    forall t ::
      if exists i :: i in instants && t < i <= t + horizon
      then next(t) in instants && t < next(t) && forall i | i in instants && t < i :: next(t) <= i
      else next(t) == 0
  }

  ghost predicate NoneAhead(instants: iset<Time>, horizon: nat, t: Time) {
    forall i | i in instants :: !(t < i <= t + horizon)
  }

  /** Where looking for missed instants starts. Zero is a policy that never ran. */
  function From(last: Time, now: Time): Time {
    if last == 0 || last < now - CATCH_UP_WINDOW then now - CATCH_UP_WINDOW else last
  }

  predicate Due(next: Time -> Time, last: Time, now: Time) {
    next(From(last, now)) <= now
  }

  /** A policy fires when an instant has passed since it last did, at most a
      window ago, and also whenever its schedule has no instant ahead at all. */
  lemma DueIff(instants: iset<Time>, horizon: nat, next: Time -> Time, last: Time, now: Time)
    requires IsNext(instants, horizon, next) && now > 0 && horizon >= CATCH_UP_WINDOW
    ensures Due(next, last, now) <==>
            (exists i :: i in instants && From(last, now) < i <= now) || NoneAhead(instants, horizon, From(last, now))
  {
    var from := From(last, now);
    if exists i :: i in instants && from < i <= from + horizon {
      if exists i :: i in instants && from < i <= now {
        var i :| i in instants && from < i <= now;
        assert next(from) <= i;
      }
    }
  }

  // ---- The tick ----

  /** A schedule text as the library parses it. */
  type Parser = string -> Option<Time -> Time>

  predicate Fires(policy: Policy, parse: Parser, resolved: bool, last: Time, now: Time) {
    && policy.enabled && policy.repositoryIds != [] && resolved
    && parse(policy.scheduleCron).Some? && Due(parse(policy.scheduleCron).value, last, now)
  }

  function LastRun(lastRun: map<string, Time>, id: string): Time {
    if id in lastRun then lastRun[id] else 0
  }

  class Engine {
    var lastRun: map<string, Time>

    /** One scheduling pass. `unresolved` are the policies whose accounts could
        not be listed; they are left for the next tick. */
    method Schedule(policies: seq<Policy>, parse: Parser, unresolved: set<string>, now: Time) returns (fired: seq<string>)
      requires forall i, j | 0 <= i < j < |policies| :: policies[i].id != policies[j].id
      modifies this
      ensures forall p | p in policies :: Passed(p, parse, unresolved, old(lastRun), lastRun, fired, now)
      ensures forall id | (forall p | p in policies :: p.id != id) ::
                id !in fired && LastRun(lastRun, id) == LastRun(old(lastRun), id)
      ensures Distinct(fired) && InPolicyOrder(policies, fired)
      ensures forall p | p in policies :: p.id in fired <==> Ought(p, parse, unresolved, old(lastRun), now)
      ensures forall p | p in policies && p.id in fired :: LastRun(lastRun, p.id) == now
    {
      fired := [];
      ghost var from: seq<nat> := [];
      for k := 0 to |policies|
        invariant forall i | 0 <= i < k :: Passed(policies[i], parse, unresolved, old(lastRun), lastRun, fired, now)
        invariant forall id | (forall i | 0 <= i < k :: policies[i].id != id) ::
                    id !in fired && LastRun(lastRun, id) == LastRun(old(lastRun), id)
        invariant FiredFrom(policies, fired, from) && InRange(from, k)
      {
        var policy := policies[k];
        if !policy.enabled || policy.repositoryIds == [] {
          continue;
        }
        var schedule := parse(policy.scheduleCron);
        if schedule.None? {
          continue;
        }
        var last := LastRun(lastRun, policy.id);
        var earliest := now - CATCH_UP_WINDOW;
        if last == 0 || last < earliest {
          last := earliest;
        }
        if schedule.value(last) > now {
          continue;
        }
        if policy.id in unresolved {
          continue;
        }
        FiredNext(policies, fired, from, k);
        lastRun := lastRun[policy.id := now];
        fired := fired + [policy.id];
        from := from + [k];
      }
      FiredOnce(policies, fired, from);
      forall p | p in policies
        ensures p.id in fired <==> Ought(p, parse, unresolved, old(lastRun), now)
        ensures p.id in fired ==> LastRun(lastRun, p.id) == now
      {
        FiresIff(p, parse, unresolved, old(lastRun), now);
        assert Passed(p, parse, unresolved, old(lastRun), lastRun, fired, now);
      }
    }
  }

  /** A policy fires exactly when it is due and can be, and then its last firing
      is this tick. */
  predicate Passed(
    p: Policy, parse: Parser, unresolved: set<string>, before: map<string, Time>, after: map<string, Time>,
    fired: seq<string>, now: Time) {
    && (p.id in fired <==> Fires(p, parse, p.id !in unresolved, LastRun(before, p.id), now))
    && LastRun(after, p.id) == if p.id in fired then now else LastRun(before, p.id)
  }

  /** Switched on, writing somewhere, resolved and readable, and the first
      instant after it last fired, or after two hours ago when that is later or
      it never did, has come. */
  predicate Ought(p: Policy, parse: Parser, unresolved: set<string>, lastRun: map<string, Time>, now: Time) {
    var earliest := now - 7_200_000_000_000;
    var since := if p.id in lastRun && lastRun[p.id] != 0 && lastRun[p.id] > earliest then lastRun[p.id] else earliest;
    && p.enabled && |p.repositoryIds| > 0 && p.id !in unresolved
    && match parse(p.scheduleCron)
       case None => false
       case Some(next) => next(since) <= now
  }

  lemma FiresIff(p: Policy, parse: Parser, unresolved: set<string>, lastRun: map<string, Time>, now: Time)
    ensures Fires(p, parse, p.id !in unresolved, LastRun(lastRun, p.id), now) <==> Ought(p, parse, unresolved, lastRun, now)
  {
  }

  lemma FiredNext(policies: seq<Policy>, fired: seq<string>, from: seq<nat>, k: nat)
    requires k < |policies| && FiredFrom(policies, fired, from) && InRange(from, k)
    ensures FiredFrom(policies, fired + [policies[k].id], from + [k]) && InRange(from + [k], k + 1)
  {
  }

  lemma FiredOnce(policies: seq<Policy>, fired: seq<string>, from: seq<nat>)
    requires forall i, j | 0 <= i < j < |policies| :: policies[i].id != policies[j].id
    requires FiredFrom(policies, fired, from)
    ensures Distinct(fired) && InPolicyOrder(policies, fired)
  {
  }

  /** Who fired, by their places in the list. */
  ghost predicate FiredFrom(policies: seq<Policy>, fired: seq<string>, from: seq<nat>) {
    && |from| == |fired| && InRange(from, |policies|)
    && (forall i, j | 0 <= i < j < |from| :: from[i] < from[j])
    && (forall i | 0 <= i < |fired| :: fired[i] == policies[from[i]].id)
  }

  ghost predicate InPolicyOrder(policies: seq<Policy>, fired: seq<string>) {
    exists from :: FiredFrom(policies, fired, from)
  }

  // ---- Runs of one policy over time ----

  /** One pass of the scheduler, and whether it got as far as the policy. */
  datatype Tick = Tick(at: Time, succeeds: bool)

  ghost predicate Increasing(ticks: seq<Tick>) {
    && (forall k | 0 <= k < |ticks| :: ticks[k].at > 0)
    && forall j, k | 0 <= j < k < |ticks| :: ticks[j].at < ticks[k].at
  }

  /** The last firing on record when tick k comes. */
  ghost function Last(next: Time -> Time, start: Time, ticks: seq<Tick>, k: nat): Time
    requires k <= |ticks|
    decreases k, 0
  {
    if k == 0 then start
    else if Fired(next, start, ticks, k - 1) then ticks[k - 1].at
    else Last(next, start, ticks, k - 1)
  }

  ghost predicate Fired(next: Time -> Time, start: Time, ticks: seq<Tick>, k: nat)
    requires k < |ticks|
    decreases k, 1
  {
    ticks[k].succeeds && Due(next, Last(next, start, ticks, k), ticks[k].at)
  }

  /** The instants one firing stands for. */
  ghost predicate Consumes(next: Time -> Time, start: Time, ticks: seq<Tick>, k: nat, instant: Time)
    requires k < |ticks|
  {
    && Fired(next, start, ticks, k)
    && From(Last(next, start, ticks, k), ticks[k].at) < instant <= ticks[k].at
  }

  lemma {:induction false} LastIsLatest(next: Time -> Time, start: Time, ticks: seq<Tick>, j: nat, k: nat)
    requires Increasing(ticks) && j < k <= |ticks| && Fired(next, start, ticks, j)
    ensures ticks[j].at <= Last(next, start, ticks, k)
  {
    if j < k - 1 {
      LastIsLatest(next, start, ticks, j, k - 1);
    }
  }

  /** Every instant is consumed by at most one firing: a firing after another
      stands only for what came after it, however long nothing ticked. */
  lemma ConsumedOnce(next: Time -> Time, start: Time, ticks: seq<Tick>, j: nat, k: nat, instant: Time)
    requires Increasing(ticks) && j < k < |ticks|
    requires Fired(next, start, ticks, j) && Consumes(next, start, ticks, k, instant)
    ensures ticks[j].at < instant && !Consumes(next, start, ticks, j, instant)
  {
    LastIsLatest(next, start, ticks, j, k);
  }

  /** The first firing at or after an instant, among those before tick k. */
  lemma {:induction false} FirstFiring(next: Time -> Time, start: Time, ticks: seq<Tick>, k: nat, instant: Time) returns (m: nat)
    requires Increasing(ticks) && k <= |ticks| && start < instant <= Last(next, start, ticks, k)
    ensures m < k && Fired(next, start, ticks, m) && instant <= ticks[m].at && Last(next, start, ticks, m) < instant
  {
    if Fired(next, start, ticks, k - 1) && Last(next, start, ticks, k - 1) < instant {
      m := k - 1;
    } else {
      m := FirstFiring(next, start, ticks, k - 1, instant);
    }
  }

  /** An instant is honoured by a firing at or before any successful tick that
      comes less than the window after it. */
  lemma Honoured(instants: iset<Time>, horizon: nat, next: Time -> Time, start: Time, ticks: seq<Tick>, k: nat, instant: Time)
    requires IsNext(instants, horizon, next) && horizon >= CATCH_UP_WINDOW
    requires Increasing(ticks) && k < |ticks| && ticks[k].succeeds
    requires instant in instants && start < instant
    requires instant <= ticks[k].at < instant + 7_200_000_000_000
    ensures exists m | 0 <= m <= k :: Consumes(next, start, ticks, m, instant)
  {
    if instant <= Last(next, start, ticks, k) {
      var m := FirstFiring(next, start, ticks, k, instant);
      assert Consumes(next, start, ticks, m, instant);
    } else {
      DueIff(instants, horizon, next, Last(next, start, ticks, k), ticks[k].at);
      assert Consumes(next, start, ticks, k, instant);
    }
  }

  /** Two firings in a row have an instant between them, unless the schedule
      has none ahead. */
  lemma FiringsAreEarned(instants: iset<Time>, horizon: nat, next: Time -> Time, start: Time, ticks: seq<Tick>, k: nat)
    requires IsNext(instants, horizon, next) && horizon >= CATCH_UP_WINDOW
    requires Increasing(ticks) && k < |ticks| && Fired(next, start, ticks, k)
    ensures (exists i | i in instants :: Consumes(next, start, ticks, k, i))
         || NoneAhead(instants, horizon, From(Last(next, start, ticks, k), ticks[k].at))
  {
    DueIff(instants, horizon, next, Last(next, start, ticks, k), ticks[k].at);
  }

  /** A schedule that parses but never comes, such as the thirtieth of February,
      fires at every tick. */
  lemma EmptyScheduleAlwaysFires(horizon: nat, next: Time -> Time, start: Time, ticks: seq<Tick>, k: nat)
    requires IsNext(iset{}, horizon, next)
    requires Increasing(ticks) && k < |ticks| && ticks[k].succeeds
    ensures Fired(next, start, ticks, k)
  {
    assert next(From(Last(next, start, ticks, k), ticks[k].at)) == 0;
  }
}
