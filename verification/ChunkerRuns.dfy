/** Repositories added while other work goes on. PutRepository lists what there
    is and stores what it makes of that in two transactions, so a repository may
    land among others than those it was made from
    (internal/nodestore/queries.go:234-248). */
module ChunkerRuns {
  import opened NodeStore
  import opened Chunker

  /** An add that has listed the repositories, and every id there had been. */
  datatype Add = Add(listed: Records, used: set<Id>)

  datatype State = State(records: Records, used: set<Id>, adds: map<nat, Add>)

  datatype Step =
    | List(add: nat)
    | Put(add: nat, repository: Repository)
    | Initialise(id: Id, own: Option<int>)
    | Forget(destination: Id)
    | GiveUp(add: nat)

  /** A repository as PutRepository makes it of what it listed: Chunker.IsNew
      but for its id, which no repository ever had. */
  predicate MadeFrom(listed: Records, repository: Repository) {
    && repository.polynomial.None?
    && (if listed == map[] then repository.source == NO_ID else IsRoot(listed, repository.source))
  }

  predicate Enabled(s: State, step: Step) {
    match step
    case List(add) => add !in s.adds
    case Put(add, repository) =>
      && add in s.adds && MadeFrom(s.adds[add].listed, repository)
      && repository.id != NO_ID && repository.id !in s.used
    case Initialise(id, own) =>
      id in s.records && s.records[id].polynomial.None? && Initialised(s.records, id, own).Some?
    case Forget(_) => true
    case GiveUp(add) => add in s.adds
  }

  function After(s: State, step: Step): State
    requires Enabled(s, step)
  {
    match step
    case List(add) => s.(adds := s.adds[add := Add(s.records, s.used)])
    case Put(add, repository) =>
      State(Added(s.records, repository), s.used + {repository.id}, s.adds - {add})
    case Initialise(id, own) => s.(records := Initialised(s.records, id, own).value)
    case Forget(destination) => s.(records := Forgotten(s.records, destination))
    case GiveUp(add) => s.(adds := s.adds - {add})
  }

  /** No repository has a polynomial, or may take one of its own. */
  predicate NothingOfItsOwn(records: Records) {
    forall id | id in records :: records[id].polynomial.None? && records[id].source != NO_ID
  }

  /** What was listed as empty may since have been added to, but only with
      what copies from others and is not initialised. */
  predicate Fair(s: State, step: Step) {
    step.Put? && step.add in s.adds && s.adds[step.add].listed == map[] ==> NothingOfItsOwn(s.records)
  }

  // ---- What every step keeps ----

  ghost predicate SourcesUsed(records: Records, used: set<Id>) {
    forall id | id in records :: id in used && (records[id].source == NO_ID || records[id].source in used)
  }

  /** What is still there of what was listed copies from what it did, and of
      the ids there had been none has come back. */
  ghost predicate AddSound(s: State, add: Add) {
    && Shallow(add.listed) && add.used <= s.used && SourcesUsed(add.listed, add.used)
    && forall id | id in s.records && id in add.used :: id in add.listed && s.records[id].source == add.listed[id].source
  }

  ghost predicate Invariant(s: State) {
    && Inv(s.records) && NO_ID !in s.used && SourcesUsed(s.records, s.used)
    && forall a | a in s.adds :: AddSound(s, s.adds[a])
  }

  /** A root of what was listed is a root, or gone. */
  lemma LandsShallow(s: State, step: Step)
    requires Invariant(s) && Enabled(s, step) && step.Put?
    ensures Keyed(After(s, step).records) && Shallow(After(s, step).records)
  {
    var add, repository, after := s.adds[step.add], step.repository, After(s, step).records;
    assert AddSound(s, add);
    forall id ensures ShallowAt(after, id) {
      assert ShallowAt(s.records, id);
    }
  }

  /** Storing what an add made keeps the polynomials together exactly when the
      store it listed was not empty, or nothing has one of its own since. */
  lemma PutIff(s: State, step: Step)
    requires Invariant(s) && Enabled(s, step) && step.Put?
    ensures Inv(After(s, step).records) <==> Fair(s, step)
  {
    var repository, after := step.repository, After(s, step).records;
    assert AddSound(s, s.adds[step.add]);
    LandsShallow(s, step);
    if repository.source != NO_ID {
      if p :| Settled(s.records, p) { assert Settled(after, p); } else { assert Untouched(after); }
    } else if NothingOfItsOwn(s.records) {
      assert Untouched(after);
    } else {
      var own :| own in s.records && (s.records[own].polynomial.Some? || s.records[own].source == NO_ID);
      assert after[own] == s.records[own] && after[repository.id] == repository;
      assert !Untouched(after);
    }
  }

  lemma AddStays(s: State, step: Step, a: nat)
    requires Invariant(s) && Enabled(s, step) && a in After(s, step).adds
    ensures AddSound(After(s, step), After(s, step).adds[a])
  {
    if a in s.adds { assert AddSound(s, s.adds[a]); }
  }

  lemma InvariantStep(s: State, step: Step)
    requires Invariant(s) && Enabled(s, step) && Fair(s, step)
    ensures Invariant(After(s, step))
  {
    forall a | a in After(s, step).adds ensures AddSound(After(s, step), After(s, step).adds[a]) {
      AddStays(s, step, a);
    }
    match step
    case Put(add, _) =>
      assert AddSound(s, s.adds[add]);
      PutIff(s, step);
    case Initialise(id, own) =>
      assert Chunker.Step(s.records, After(s, step).records);
      StepKeepsInv(s.records, After(s, step).records);
    case Forget(_) =>
      assert Chunker.Step(s.records, After(s, step).records);
      StepKeepsInv(s.records, After(s, step).records);
    case _ =>
  }

  // ---- Every run ----

  ghost predicate IsRun(states: seq<State>, steps: seq<Step>) {
    && |states| == |steps| + 1 && states[0] == State(map[], {}, map[])
    && forall i | 0 <= i < |steps| :: Enabled(states[i], steps[i]) && states[i + 1] == After(states[i], steps[i])
  }

  lemma {:induction false} RunKeepsInvariant(states: seq<State>, steps: seq<Step>, n: nat)
    requires IsRun(states, steps) && n <= |steps| && forall k | 0 <= k < n :: Fair(states[k], steps[k])
    ensures Invariant(states[n])
  {
    if n == 0 {
      assert Untouched(states[0].records);
    } else {
      RunKeepsInvariant(states, steps, n - 1);
      InvariantStep(states[n - 1], steps[n - 1]);
    }
  }

  /** Whatever was added, initialised and forgotten, in whatever order and
      however the adds overlap: as long as none that listed an empty store lands
      beside one with a polynomial of its own, present or to come, all
      repositories on record are cut by one polynomial. */
  lemma RunsShareOnePolynomial(states: seq<State>, steps: seq<Step>, n: nat, a: Id, b: Id)
    requires IsRun(states, steps) && n <= |steps| && forall k | 0 <= k < n :: Fair(states[k], steps[k])
    requires a in states[n].records && b in states[n].records
    requires states[n].records[a].polynomial.Some? && states[n].records[b].polynomial.Some?
    ensures states[n].records[a].polynomial == states[n].records[b].polynomial
  {
    RunKeepsInvariant(states, steps, n);
  }

  /** Nothing coming between, an add is PutRepository's step, and the other
      steps are Chunker's own. */
  lemma AloneIsStep(s: State, task: nat, repository: Repository, id: Id, own: Option<int>, destination: Id)
    requires Invariant(s) && task !in s.adds
    ensures IsNew(s.records, repository) && repository.id !in s.used ==>
              && Enabled(s, List(task)) && Enabled(After(s, List(task)), Put(task, repository))
              && After(After(s, List(task)), Put(task, repository)).records == Added(s.records, repository)
              && After(After(s, List(task)), Put(task, repository)).adds == s.adds
    ensures id in s.records && s.records[id].polynomial.None? && Initialised(s.records, id, own).Some? ==>
              Enabled(s, Initialise(id, own)) && Some(After(s, Initialise(id, own)).records) == Initialised(s.records, id, own)
    ensures Enabled(s, Forget(destination)) && After(s, Forget(destination)).records == Forgotten(s.records, destination)
    ensures Enabled(After(s, List(task)), GiveUp(task)) && After(After(s, List(task)), GiveUp(task)) == s
  {
    assert (s.adds[task := Add(s.records, s.used)]) - {task} == s.adds;
  }

  // ---- Two adds at once ----

  /** Once an unfair add has landed, what it landed beside and it can be given
      two polynomials. */
  lemma UnfairSplits(s: State, step: Step, p: int, q: int)
    returns (a: Id, b: Id, once: Records, twice: Records)
    requires Invariant(s) && Enabled(s, step) && !Fair(s, step) && p != q
    requires forall id | id in s.records && s.records[id].polynomial.Some? :: s.records[id].polynomial == Some(p)
    ensures var after := After(s, step).records;
            && a in after
            && (if after[a].polynomial == Some(p) then once == after else Initialised(after, a, Some(p)) == Some(once))
            && b in once && once[b].polynomial.None? && Initialised(once, b, Some(q)) == Some(twice)
            && a in twice && b in twice && twice[a].polynomial == Some(p) && twice[b].polynomial == Some(q)
  {
    var after := After(s, step).records;
    b := step.repository.id;
    a :| a in s.records && (s.records[a].polynomial.Some? || s.records[a].source == NO_ID);
    once := if after[a].polynomial.Some? then after else Initialised(after, a, Some(p)).value;
    twice := Initialised(once, b, Some(q)).value;
  }

  /** Both list the empty store, and both are stored with nothing to copy from. */
  lemma OverlappingAddsSplit(a: Repository, b: Repository, p: int, q: int)
    requires a.id != NO_ID && b.id != NO_ID && a.id != b.id && p != q
    requires a.source == NO_ID && b.source == NO_ID && a.polynomial.None? && b.polynomial.None?
    ensures exists states: seq<State>, steps: seq<Step> ::
              && IsRun(states, steps)
              && states[|steps|].records == map[a.id := a.(polynomial := Some(p)), b.id := b.(polynomial := Some(q))]
              && forall k | 0 <= k < |steps| :: Fair(states[k], steps[k]) <==> k != 3
  {
    var states, steps := SplitStates(a, b, p, q), SplitSteps(a, b, p, q);
    forall i | 0 <= i < |steps|
      ensures Enabled(states[i], steps[i]) && states[i + 1] == After(states[i], steps[i])
      ensures Fair(states[i], steps[i]) <==> i != 3
    {
      SplitStep(a, b, p, q, i);
    }
    assert IsRun(states, steps);
  }

  ghost function SplitSteps(a: Repository, b: Repository, p: int, q: int): seq<Step> {
    [List(0), List(1), Put(0, a), Put(1, b), Initialise(a.id, Some(p)), Initialise(b.id, Some(q))]
  }

  ghost function SplitStates(a: Repository, b: Repository, p: int, q: int): seq<State> {
    var none, both := Add(map[], {}), map[a.id := a, b.id := b];
    var made := a.(polynomial := Some(p));
    [State(map[], {}, map[]),
     State(map[], {}, map[0 := none]),
     State(map[], {}, map[0 := none, 1 := none]),
     State(map[a.id := a], {a.id}, map[1 := none]),
     State(both, {a.id, b.id}, map[]),
     State(map[a.id := made, b.id := b], {a.id, b.id}, map[]),
     State(map[a.id := made, b.id := b.(polynomial := Some(q))], {a.id, b.id}, map[])]
  }

  lemma SplitStep(a: Repository, b: Repository, p: int, q: int, i: nat)
    requires a.id != NO_ID && b.id != NO_ID && a.id != b.id && i < 6
    requires a.source == NO_ID && b.source == NO_ID && a.polynomial.None? && b.polynomial.None?
    ensures var states, steps := SplitStates(a, b, p, q), SplitSteps(a, b, p, q);
            && Enabled(states[i], steps[i]) && states[i + 1] == After(states[i], steps[i])
            && (Fair(states[i], steps[i]) <==> i != 3)
  {
    assert i == 3 ==> a.id in SplitStates(a, b, p, q)[3].records;
  }
}
