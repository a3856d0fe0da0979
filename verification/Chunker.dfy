/** Which repository's chunker parameters a new one copies
    (internal/nodestore/queries.go:183-274, 286-309;
    internal/node/run.go:31-88). Two repositories cut by different polynomials
    never share a block, and the polynomial is fixed at "restic init". */
module Chunker {
  import opened NodeStore

  /** Ids are compared and never read, so numbers stand for them. */
  type Id = nat

  const NO_ID: Id := 0

  /** A repository on record. Its polynomial is the one restic gave it, once
      it has been initialised. */
  datatype Repository = Repository(
    id: Id, destination: Id, source: Id, createdAt: Time, polynomial: Option<int>)

  type Records = map<Id, Repository>

  ghost predicate Keyed(records: Records) {
    NO_ID !in records && forall id | id in records :: records[id].id == id
  }

  ghost predicate DistinctIds(existing: seq<Repository>) {
    forall i, j | 0 <= i < j < |existing| :: existing[i].id != existing[j].id
  }

  /** Every record once, in some order. */
  ghost predicate Listing(existing: seq<Repository>, records: Records) {
    && (forall i | 0 <= i < |existing| :: existing[i].id in records && records[existing[i].id] == existing[i])
    && (forall id | id in records :: exists i :: 0 <= i < |existing| && existing[i].id == id)
    && DistinctIds(existing)
  }

  // ---- The source a new repository copies from ----

  function Climb(records: Records, id: Id, steps: nat): (root: Id)
    requires id in records
    ensures root in records
    decreases steps
  {
    if steps == 0 || records[id].source == NO_ID || records[id].source !in records then id
    else Climb(records, records[id].source, steps - 1)
  }

  /** No source on record has a source on record itself. */
  ghost predicate Shallow(records: Records) {
    forall id :: ShallowAt(records, id)
  }

  ghost predicate ShallowAt(records: Records, id: Id) {
    id in records && records[id].source in records ==> records[records[id].source].source !in records
  }

  /** A record that copies from nothing still on record. */
  predicate IsRoot(records: Records, id: Id) {
    id in records && records[id].source !in records
  }

  predicate IsOldest(existing: seq<Repository>, k: nat)
    requires k < |existing|
  {
    forall i | 0 <= i < |existing| :: existing[k].createdAt <= existing[i].createdAt
  }

  /** The server's first repository (internal/nodestore/queries.go:254-259). */
  method Oldest(existing: seq<Repository>) returns (oldest: Repository, ghost k: nat)
    requires existing != []
    ensures k < |existing| && oldest == existing[k] && IsOldest(existing, k)
    ensures oldest in existing && forall r | r in existing :: oldest.createdAt <= r.createdAt
  {
    oldest, k := existing[0], 0;
    for i := 1 to |existing|
      invariant 0 <= k < i && oldest == existing[k]
      invariant forall j | 0 <= j < i :: oldest.createdAt <= existing[j].createdAt
    {
      if existing[i].createdAt < oldest.createdAt {
        oldest, k := existing[i], i;
      }
    }
  }

  method ById(existing: seq<Repository>, ghost records: Records) returns (byId: Records)
    requires Listing(existing, records)
    ensures byId == records
  {
    byId := map[];
    for i := 0 to |existing|
      invariant forall k | 0 <= k < i :: existing[k].id in byId
      invariant forall id | id in byId :: id in records && byId[id] == records[id]
    {
      byId := byId[existing[i].id := existing[i]];
    }
  }

  /** chunkerSource. It ends on any chain, a cyclic one too, and answers with
      the id of a stored repository: on a shallow record, with a root. */
  method ChunkerSource(existing: seq<Repository>, ghost records: Records) returns (id: Id)
    requires Keyed(records) && Listing(existing, records) && existing != []
    ensures exists k :: 0 <= k < |existing| && IsOldest(existing, k) && id == Climb(records, existing[k].id, |existing|)
    ensures id in records
    ensures Shallow(records) ==> IsRoot(records, id)
  {
    var oldest, first := Oldest(existing);
    var byId := ById(existing, records);
    var seen := 0;
    while oldest.source != NO_ID && seen < |existing|
      invariant 0 <= seen <= |existing|
      invariant oldest.id in records && records[oldest.id] == oldest
      invariant Climb(records, existing[first].id, |existing|) == Climb(records, oldest.id, |existing| - seen)
      invariant Shallow(records) ==> seen == 0 || IsRoot(records, oldest.id)
      decreases |existing| - seen
    {
      if oldest.source !in byId {
        break;
      }
      assert ShallowAt(records, oldest.id) || !Shallow(records);
      oldest := byId[oldest.source];
      seen := seen + 1;
    }
    return oldest.id;
  }

  // ---- Steps ----

  function Added(records: Records, repository: Repository): Records {
    records[repository.id := repository]
  }

  /** What a new repository is recorded with. */
  ghost predicate IsNew(records: Records, repository: Repository) {
    && repository.id != NO_ID && repository.id !in records && repository.polynomial.None?
    && (forall id | id in records :: records[id].source != repository.id)
    && (if records == map[] then repository.source == NO_ID else IsRoot(records, repository.source))
  }

  /** What "restic init" can do: give a polynomial of its own, or copy the one
      of a source that has one. */
  function Initialised(records: Records, id: Id, own: Option<int>): Option<Records> {
    if id !in records || own.None? then None
    else
      var repository := records[id];
      if repository.source == NO_ID then Some(Added(records, repository.(polynomial := own)))
      else if repository.source !in records || records[repository.source].polynomial.None? then None
      else Some(Added(records, repository.(polynomial := records[repository.source].polynomial)))
  }

  function Forgotten(records: Records, destination: Id): Records {
    map id | id in records && records[id].destination != destination :: records[id]
  }

  ghost predicate Step(before: Records, after: Records) {
    || after == before
    || (exists repository :: IsNew(before, repository) && after == Added(before, repository))
    || (exists id, own :: id in before && before[id].polynomial.None? && Initialised(before, id, own) == Some(after))
    || (exists destination :: after == Forgotten(before, destination))
  }

  class Store {
    var records: Records

    constructor ()
      ensures records == map[]
    {
      records := map[];
    }

    /** PutRepository of a repository without an id, with the fresh id it is
        given. */
    method PutRepository(id: Id, destination: Id, now: Time, existing: seq<Repository>)
      requires Keyed(records) && Shallow(records) && Listing(existing, records)
      requires id != NO_ID && id !in records && forall r | r in records :: records[r].source != id
      modifies this
      ensures exists repository ::
                IsNew(old(records), repository) && records == Added(old(records), repository) &&
                repository.id == id && repository.destination == destination && repository.createdAt == now
      ensures Step(old(records), records)
    {
      var source := NO_ID;
      if |existing| > 0 {
        source := ChunkerSource(existing, records);
      }
      var repository := Repository(id, destination, source, now, None);
      assert records == map[] <==> existing == [] by {
        if existing != [] { assert existing[0].id in records; }
        if records != map[] { var r :| r in records; }
      }
      assert IsNew(records, repository);
      records := Added(records, repository);
    }

    /** DeleteDestination. It is refused while a schedule still sends backups
        to a repository there. */
    method DeleteDestination(destination: Id, existing: seq<Repository>, schedules: seq<seq<Id>>) returns (ok: bool)
      requires Keyed(records) && Listing(existing, records)
      modifies this
      ensures ok <==> forall id | id in old(records) && old(records)[id].destination == destination :: !Promised(schedules, id)
      ensures ok <==>
                forall id, schedule | id in old(records) && schedule in schedules && id in schedule ::
                  old(records)[id].destination != destination
      ensures records == if ok then Forgotten(old(records), destination) else old(records)
    {
      var owned := OwnedBy(destination, existing, records);
      for i := 0 to |owned|
        invariant forall k | 0 <= k < i :: !Promised(schedules, owned[k])
      {
        if Promised(schedules, owned[i]) {
          return false;
        }
      }
      ghost var before := records;
      for i := 0 to |owned|
        invariant forall id :: id in records <==> id in before && id !in owned[..i]
        invariant forall id | id in records :: records[id] == before[id]
      {
        assert owned[..i + 1] == owned[..i] + [owned[i]];
        records := records - {owned[i]};
      }
      assert owned[..|owned|] == owned;
      return true;
    }

    /** EnsureProvisioned, over the repositories as they were listed. What
        restic answers to each attempt is given. */
    method EnsureProvisioned(existing: seq<Repository>, answers: seq<Option<int>>) returns (created: nat, ok: bool)
      requires Keyed(records) && Listing(existing, records) && |answers| == |existing|
      modifies this
      ensures Pass(records, created, ok) == Provision(old(records), existing, answers, |existing|)
      ensures created == |Made(old(records), records)|
    {
      ProvisionCounts(records, existing, answers, |existing|);
      created := 0;
      for i := 0 to |existing|
        invariant Pass(records, created, true) == Provision(old(records), existing, answers, i)
      {
        if existing[i].polynomial.Some? {
          continue;
        }
        var initialised := Initialised(records, existing[i].id, answers[i]);
        if initialised.None? {
          StoppedStays(old(records), existing, answers, i + 1, |existing|);
          return created, false;
        }
        records := initialised.value;
        created := created + 1;
      }
      return created, true;
    }
  }

  /** The repositories at a destination (internal/nodestore/queries.go:200-205). */
  method OwnedBy(destination: Id, existing: seq<Repository>, ghost records: Records) returns (owned: seq<Id>)
    requires Listing(existing, records)
    ensures forall id :: id in owned <==> id in records && records[id].destination == destination
  {
    owned := [];
    for i := 0 to |existing|
      invariant forall id | id in owned :: id in records && records[id].destination == destination
      invariant forall k | 0 <= k < i && existing[k].destination == destination :: existing[k].id in owned
    {
      if existing[i].destination == destination {
        owned := owned + [existing[i].id];
      }
    }
  }

  predicate Promised(schedules: seq<seq<Id>>, id: Id) {
    exists i | 0 <= i < |schedules| :: id in schedules[i]
  }

  // ---- One provisioning pass ----

  datatype Pass = Pass(records: Records, created: nat, ok: bool)

  function Attempt(before: Pass, repository: Repository, answer: Option<int>): Pass {
    if !before.ok || repository.polynomial.Some? then before
    else
      match Initialised(before.records, repository.id, answer)
      case None => before.(ok := false)
      case Some(records) => Pass(records, before.created + 1, true)
  }

  function Provision(records: Records, existing: seq<Repository>, answers: seq<Option<int>>, n: nat): Pass
    requires n <= |existing| == |answers|
  {
    if n == 0 then Pass(records, 0, true)
    else Attempt(Provision(records, existing, answers, n - 1), existing[n - 1], answers[n - 1])
  }

  /** What has a polynomial now and had none. */
  ghost function Made(before: Records, after: Records): set<Id> {
    set id | id in before && id in after && before[id].polynomial.None? && after[id].polynomial.Some?
  }

  lemma {:induction false} ProvisionCounts(
    records: Records, existing: seq<Repository>, answers: seq<Option<int>>, n: nat)
    requires Keyed(records) && Listing(existing, records) && n <= |existing| == |answers|
    ensures var pass := Provision(records, existing, answers, n);
            && pass.created == |Made(records, pass.records)| && pass.records.Keys == records.Keys
            && (forall i | n <= i < |existing| :: pass.records[existing[i].id] == existing[i])
            && (forall id | id in records :: pass.records[id].id == id)
  {
    if n == 0 {
      assert Made(records, records) == {};
    } else {
      ProvisionCounts(records, existing, answers, n - 1);
      AttemptCounts(records, Provision(records, existing, answers, n - 1), existing[n - 1], answers[n - 1]);
      var before, after := Provision(records, existing, answers, n - 1), Provision(records, existing, answers, n);
      forall i | n <= i < |existing| ensures after.records[existing[i].id] == existing[i] {
        assert existing[i].id != existing[n - 1].id;
      }
    }
  }

  lemma AttemptCounts(records: Records, before: Pass, repository: Repository, answer: Option<int>)
    requires before.records.Keys == records.Keys && repository.id in records
    requires records[repository.id] == repository && before.records[repository.id] == repository
    requires before.created == |Made(records, before.records)| && forall id | id in records :: before.records[id].id == id
    ensures var after := Attempt(before, repository, answer);
            && after.created == |Made(records, after.records)| && after.records.Keys == records.Keys
            && (forall id | id in records && id != repository.id :: after.records[id] == before.records[id])
            && (forall id | id in records :: after.records[id].id == id)
  {
    var after := Attempt(before, repository, answer);
    if after.created != before.created {
      assert Made(records, after.records) == Made(records, before.records) + {repository.id};
    } else {
      assert after.records == before.records;
    }
  }

  lemma {:induction false} StoppedStays(
    records: Records, existing: seq<Repository>, answers: seq<Option<int>>, k: nat, n: nat)
    requires k <= n <= |existing| == |answers| && !Provision(records, existing, answers, k).ok
    ensures Provision(records, existing, answers, n) == Provision(records, existing, answers, k)
  {
    if k < n { StoppedStays(records, existing, answers, k, n - 1); }
  }

  // ---- What every step keeps ----

  ghost predicate Shared(records: Records, polynomial: int) {
    forall id | id in records && records[id].polynomial.Some? :: records[id].polynomial.value == polynomial
  }

  /** Either nothing is initialised and at most one record may take a
      polynomial of its own, or all that are initialised share one and no
      record may take another. */
  ghost predicate Settled(records: Records, polynomial: int) {
    Shared(records, polynomial) &&
    forall id | id in records && records[id].polynomial.None? :: records[id].source != NO_ID
  }

  ghost predicate Untouched(records: Records) {
    && (forall id | id in records :: records[id].polynomial.None?)
    && (forall a, b | a in records && b in records && records[a].source == NO_ID && records[b].source == NO_ID :: a == b)
  }

  ghost predicate Inv(records: Records) {
    Keyed(records) && Shallow(records) && (Untouched(records) || exists p :: Settled(records, p))
  }

  lemma AddedKeeps(records: Records, repository: Repository)
    requires Keyed(records) && Shallow(records) && IsNew(records, repository)
    ensures Keyed(Added(records, repository)) && Shallow(Added(records, repository))
    ensures Untouched(records) && (records == map[] || repository.source != NO_ID) ==> Untouched(Added(records, repository))
    ensures forall p :: Settled(records, p) && records != map[] ==> Settled(Added(records, repository), p)
  {
    var after := Added(records, repository);
    forall id ensures ShallowAt(after, id) {
      assert ShallowAt(records, id);
    }
  }

  lemma SameSources(records: Records, after: Records)
    requires Keyed(records) && Shallow(records)
    requires forall id | id in after :: id in records && after[id].id == id && after[id].source == records[id].source
    ensures Keyed(after) && Shallow(after)
  {
    forall id ensures ShallowAt(after, id) {
      assert ShallowAt(records, id);
    }
  }

  lemma InitialisedKeeps(records: Records, id: Id, own: Option<int>)
    requires Keyed(records) && Shallow(records) && Initialised(records, id, own).Some?
    requires id in records && records[id].polynomial.None?
    ensures var after := Initialised(records, id, own).value;
            && Keyed(after) && Shallow(after)
            && (Untouched(records) ==> Settled(after, own.value))
            && (forall p :: Settled(records, p) ==> Settled(after, p))
  {
    SameSources(records, Initialised(records, id, own).value);
  }

  lemma ForgottenKeeps(records: Records, destination: Id)
    requires Keyed(records) && Shallow(records)
    ensures var after := Forgotten(records, destination);
            && Keyed(after) && Shallow(after)
            && (Untouched(records) ==> Untouched(after))
            && (forall p :: Settled(records, p) ==> Settled(after, p))
  {
    SameSources(records, Forgotten(records, destination));
  }

  lemma StepKeepsInv(before: Records, after: Records)
    requires Inv(before) && Step(before, after)
    ensures Inv(after)
    ensures forall p :: Settled(before, p) && before != map[] ==> Settled(after, p)
  {
    if repository :| IsNew(before, repository) && after == Added(before, repository) {
      AddedKeeps(before, repository);
      assert before == map[] ==> Untouched(before);
    } else if id, own :| id in before && before[id].polynomial.None? && Initialised(before, id, own) == Some(after) {
      InitialisedKeeps(before, id, own);
    } else if destination :| after == Forgotten(before, destination) {
      ForgottenKeeps(before, destination);
    }
  }

  // ---- Every run ----

  ghost predicate IsRun(trace: seq<Records>) {
    trace != [] && trace[0] == map[] && forall i | 0 <= i < |trace| - 1 :: Step(trace[i], trace[i + 1])
  }

  lemma {:induction false} RunsKeepInv(trace: seq<Records>, n: nat)
    requires IsRun(trace) && n < |trace|
    ensures Inv(trace[n])
  {
    if n == 0 {
      assert Untouched(trace[0]);
    } else {
      RunsKeepInv(trace, n - 1);
      StepKeepsInv(trace[n - 1], trace[n]);
    }
  }

  ghost predicate NeverEmpty(trace: seq<Records>, m: nat, n: nat)
    requires m <= n < |trace|
  {
    forall k | m <= k < n :: trace[k] != map[]
  }

  /** One polynomial is shared, and it stays that one, through any replacement of
      the repositories, until none is left on record. */
  lemma {:induction false} PolynomialOutlivesItsRepository(trace: seq<Records>, m: nat, n: nat, a: Id, b: Id)
    requires IsRun(trace) && m <= n < |trace| && NeverEmpty(trace, m, n)
    requires a in trace[m] && trace[m][a].polynomial.Some?
    ensures Settled(trace[n], trace[m][a].polynomial.value)
    ensures b in trace[n] && trace[n][b].polynomial.Some? ==> trace[n][b].polynomial == trace[m][a].polynomial
  {
    if n == m {
      RunsKeepInv(trace, m);
    } else {
      assert NeverEmpty(trace, m, n - 1) && trace[n - 1] != map[];
      PolynomialOutlivesItsRepository(trace, m, n - 1, a, b);
      RunsKeepInv(trace, n - 1);
      StepKeepsInv(trace[n - 1], trace[n]);
    }
  }

  // ---- What can be left that nothing can initialise ----

  /** Nothing is initialised, and nothing may be without copying. */
  ghost predicate Stranded(records: Records) {
    records != map[] && forall id | id in records :: records[id].polynomial.None? && records[id].source != NO_ID
  }

  /** Then no repository is ever initialised again, new ones included, until
      every one is forgotten. */
  lemma StrandedStays(before: Records, after: Records)
    requires Inv(before) && Stranded(before) && Step(before, after)
    ensures after == map[] || Stranded(after)
  {
    if repository :| IsNew(before, repository) && after == Added(before, repository) {
      assert repository.source in before;
    }
  }

  /** Forgetting a destination strands a server exactly when it leaves
      something behind, and everything that is initialised, or might be without
      copying, was there. */
  lemma ForgettingStrandsIff(records: Records, destination: Id)
    ensures Stranded(Forgotten(records, destination)) <==>
            && (exists id :: id in records && records[id].destination != destination)
            && (forall id | id in records && (records[id].polynomial.Some? || records[id].source == NO_ID) ::
                  records[id].destination == destination)
  {
    var after := Forgotten(records, destination);
    assert forall id :: id in after <==> id in records && records[id].destination != destination;
    assert forall id | id in after :: after[id] == records[id];
    if id :| id in after {
      assert records[id].destination != destination;
    } else {
      assert after == map[];
    }
  }

  lemma AddingStrandsNothing(records: Records, repository: Repository)
    requires IsNew(records, repository) && !Stranded(records)
    ensures !Stranded(Added(records, repository))
  {
    var after := Added(records, repository);
    assert repository.id in after;
    forall id | id in records ensures after[id] == records[id] {}
  }

  lemma InitialisingStrandsNothing(records: Records, after: Records, id: Id, own: Option<int>)
    requires Initialised(records, id, own) == Some(after)
    ensures !Stranded(after)
  {
    var made := records[id].id;
    assert made in after && after[made].polynomial.Some?;
  }

  /** And nothing else does. */
  lemma OnlyForgettingStrands(before: Records, after: Records)
    requires Step(before, after) && !Stranded(before) && Stranded(after)
    ensures exists destination :: after == Forgotten(before, destination)
  {
    if repository :| IsNew(before, repository) && after == Added(before, repository) {
      AddingStrandsNothing(before, repository);
    } else if id, own :| id in before && before[id].polynomial.None? && Initialised(before, id, own) == Some(after) {
      InitialisingStrandsNothing(before, after, id, own);
    }
  }

  /** Two runs that do: the first repository is forgotten before it was
      initialised, or after, while the second is not. */
  lemma StrandedIsReachable(a: Repository, b: Repository, own: int)
    requires a.id != NO_ID && b.id != NO_ID && a.id != b.id && a.destination != b.destination
    requires a.source == NO_ID && b.source == a.id && a.polynomial.None? && b.polynomial.None?
    ensures var early := [map[], map[a.id := a], map[a.id := a, b.id := b], map[b.id := b]];
            IsRun(early) && Stranded(early[3])
    ensures var made := a.(polynomial := Some(own));
            var late := [map[], map[a.id := a], map[a.id := made], map[a.id := made, b.id := b], map[b.id := b]];
            IsRun(late) && Stranded(late[4])
  {
    FirstSteps(a, own);
    AddedThenForgotten(a, b);
    AddedThenForgotten(a.(polynomial := Some(own)), b);
    var left: Records := map[b.id := b];
    assert b.id in left && Stranded(left);
  }

  lemma FirstSteps(a: Repository, own: int)
    requires a.id != NO_ID && a.source == NO_ID && a.polynomial.None?
    ensures Step(map[], map[a.id := a]) && Step(map[a.id := a], map[a.id := a.(polynomial := Some(own))])
  {
    var none: Records, one: Records, made: Records := map[], map[a.id := a], map[a.id := a.(polynomial := Some(own))];
    assert IsNew(none, a) && one == Added(none, a);
    assert Initialised(one, a.id, Some(own)) == Some(made) by {
      assert Added(one, a.(polynomial := Some(own))) == made;
    }
  }

  lemma AddedThenForgotten(a: Repository, b: Repository)
    requires a.id != NO_ID && b.id != NO_ID && a.id != b.id && a.destination != b.destination
    requires a.source == NO_ID && b.source == a.id && b.polynomial.None?
    ensures Step(map[a.id := a], map[a.id := a, b.id := b]) && Step(map[a.id := a, b.id := b], map[b.id := b])
  {
    var one, two, left: Records := map[a.id := a], map[a.id := a, b.id := b], map[b.id := b];
    assert a.id in one && forall id | id in one :: id == a.id && one[id] == a;
    assert IsRoot(one, b.source);
    assert IsNew(one, b) && two == Added(one, b);
    assert left == Forgotten(two, a.destination);
  }

  // ---- What one provisioning pass reaches ----

  /** Every record is as it was, or only newly initialised. */
  ghost predicate Progressed(records: Records, now: Records) {
    && (forall id :: id in now <==> id in records)
    && (forall id | id in records :: OnlyInitialised(records[id], now[id]))
  }

  predicate OnlyInitialised(before: Repository, after: Repository) {
    after == if before.polynomial.Some? then before else before.(polynomial := after.polynomial)
  }

  ghost predicate Waiting(existing: seq<Repository>, n: nat, now: Records) {
    forall i | n <= i < |existing| :: existing[i].id in now && now[existing[i].id] == existing[i]
  }

  ghost predicate Reached(existing: seq<Repository>, n: nat, now: Records)
    requires n <= |existing|
  {
    forall i | 0 <= i < n :: existing[i].id in now && now[existing[i].id].polynomial.Some?
  }

  ghost predicate Sound(records: Records, existing: seq<Repository>, n: nat, pass: Pass)
    requires n <= |existing|
  {
    && Inv(pass.records) && Progressed(records, pass.records)
    && (pass.ok ==> Waiting(existing, n, pass.records) && Reached(existing, n, pass.records))
  }

  lemma InitialisedIs(records: Records, repository: Repository, answer: Option<int>)
    requires repository.id in records && records[repository.id] == repository && repository.polynomial.None?
    requires Initialised(records, repository.id, answer).Some?
    ensures var after := Initialised(records, repository.id, answer).value;
            && Step(records, after) && Progressed(records, after)
            && after[repository.id].polynomial.Some?
            && forall id | id in records && id != repository.id :: after[id] == records[id]
  {
    var after := Initialised(records, repository.id, answer).value;
    assert Step(records, after);
  }

  lemma ProgressedOn(a: Records, b: Records, c: Records)
    requires Progressed(a, b) && Progressed(b, c)
    ensures Progressed(a, c)
  {
    forall id | id in a ensures OnlyInitialised(a[id], c[id]) {
      assert OnlyInitialised(a[id], b[id]) && OnlyInitialised(b[id], c[id]);
    }
  }

  lemma AttemptIsSound(records: Records, existing: seq<Repository>, i: nat, before: Pass, answer: Option<int>)
    requires DistinctIds(existing) && i < |existing| && Sound(records, existing, i, before)
    ensures Sound(records, existing, i + 1, Attempt(before, existing[i], answer))
  {
    var repository := existing[i];
    if before.ok && repository.polynomial.None? && Initialised(before.records, repository.id, answer).Some? {
      var after := Initialised(before.records, repository.id, answer).value;
      InitialisedIs(before.records, repository, answer);
      StepKeepsInv(before.records, after);
      ProgressedOn(records, before.records, after);
      StillWaiting(existing, i, before.records, after);
    }
  }

  lemma StillWaiting(existing: seq<Repository>, i: nat, before: Records, after: Records)
    requires i < |existing| && Waiting(existing, i, before) && Reached(existing, i, before)
    requires DistinctIds(existing)
    requires (forall id :: id in after <==> id in before) && after[existing[i].id].polynomial.Some?
    requires forall id | id in before && id != existing[i].id :: after[id] == before[id]
    ensures Waiting(existing, i + 1, after) && Reached(existing, i + 1, after)
  {
  }

  lemma StartIsSound(records: Records, existing: seq<Repository>)
    requires Inv(records) && Listing(existing, records)
    ensures Sound(records, existing, 0, Pass(records, 0, true))
  {
  }

  lemma AttemptsAreSound(records: Records, existing: seq<Repository>, answers: seq<Option<int>>, n: nat)
    requires DistinctIds(existing) && n <= |existing| == |answers|
    requires Sound(records, existing, 0, Pass(records, 0, true))
    ensures Sound(records, existing, n, Provision(records, existing, answers, n))
  {
    for i := 0 to n
      invariant Sound(records, existing, i, Provision(records, existing, answers, i))
    {
      AttemptIsSound(records, existing, i, Provision(records, existing, answers, i), answers[i]);
    }
  }

  /** A pass only initialises, and keeps what every step keeps. */
  lemma ProvisionIsSound(records: Records, existing: seq<Repository>, answers: seq<Option<int>>, n: nat)
    requires Inv(records) && Listing(existing, records) && n <= |existing| == |answers|
    ensures Sound(records, existing, n, Provision(records, existing, answers, n))
  {
    StartIsSound(records, existing);
    AttemptsAreSound(records, existing, answers, n);
  }

  /** Its source, if any, is initialised or comes earlier in the listing. */
  ghost predicate Ready(records: Records, existing: seq<Repository>, i: nat)
    requires i < |existing|
  {
    var source := existing[i].source;
    || existing[i].polynomial.Some? || source == NO_ID
    || (source in records && records[source].polynomial.Some?)
    || exists j :: 0 <= j < i && existing[j].id == source
  }

  ghost predicate AllReady(records: Records, existing: seq<Repository>, n: nat)
    requires n <= |existing|
  {
    forall i | 0 <= i < n :: Ready(records, existing, i)
  }

  lemma AllReadyNext(records: Records, existing: seq<Repository>, i: nat)
    requires i < |existing|
    ensures AllReady(records, existing, i + 1) <==> AllReady(records, existing, i) && Ready(records, existing, i)
  {
  }

  ghost predicate Answered(answers: seq<Option<int>>) {
    forall i | 0 <= i < |answers| :: answers[i].Some?
  }

  /** With restic answering, a pass initialises everything exactly when each
      repository is ready when its turn comes. */
  lemma {:induction false} ProvisionIff(records: Records, existing: seq<Repository>, answers: seq<Option<int>>, n: nat)
    requires Inv(records) && Listing(existing, records) && n <= |existing| == |answers| && Answered(answers)
    ensures Provision(records, existing, answers, n).ok <==> AllReady(records, existing, n)
  {
    if n > 0 {
      var i := n - 1;
      ProvisionIff(records, existing, answers, i);
      ProvisionIsSound(records, existing, answers, i);
      AttemptIff(records, existing, i, Provision(records, existing, answers, i), answers[i]);
      AllReadyNext(records, existing, i);
    }
  }

  lemma AttemptIff(records: Records, existing: seq<Repository>, i: nat, before: Pass, answer: Option<int>)
    requires Keyed(records) && Listing(existing, records) && i < |existing| && answer.Some?
    requires Sound(records, existing, i, before)
    ensures Attempt(before, existing[i], answer).ok <==> before.ok && Ready(records, existing, i)
  {
    if before.ok && existing[i].polynomial.None? { ReadyWhenReached(records, existing, i, before.records); }
  }

  lemma ReadyWhenReached(records: Records, existing: seq<Repository>, i: nat, now: Records)
    requires Keyed(records) && Listing(existing, records) && i < |existing| && existing[i].polynomial.None?
    requires Progressed(records, now) && Waiting(existing, i, now) && Reached(existing, i, now)
    ensures now[existing[i].id] == existing[i]
    ensures Ready(records, existing, i) <==>
            existing[i].source == NO_ID || (existing[i].source in now && now[existing[i].source].polynomial.Some?)
  {
    var source := existing[i].source;
    if source in records {
      assert OnlyInitialised(records[source], now[source]);
      var j :| 0 <= j < |existing| && existing[j].id == source;
      assert records[source] == existing[j];
    }
  }
}
