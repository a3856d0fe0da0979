/** Runs on which a listing shows somebody else's backup. In each of them every
    step but one is in order (IdentityRuns.InOrder), or the turnover was never
    reported. */
module IdentityExposures {
  import opened NodeStore
  import opened Identity
  import opened IdentityRuns

  /** The last step answers the present holder, with a stranger's backup. */
  ghost predicate Exposes(states: seq<World>, steps: seq<Timed>, told: bool) {
    && IsRun(states, steps) && Fresh(states[0]) && steps != []
    && var last := |steps| - 1;
       StepAt(states, steps, last) && steps[last].step.Show? &&
       var w, listing := states[last], states[last].tasks[steps[last].step.task];
       && w.holder == Some(listing.who) && listing.told == told
       && exists s | s in ShownOf(w.record, listing.found) :: s.owner != listing.who.id
  }

  ghost predicate AllOrdered(states: seq<World>, steps: seq<Timed>) {
    |steps| < |states| && forall k | 0 <= k < |steps| :: OrderedAt(states, steps, k)
  }

  /** Step n is the only one out of order. */
  ghost predicate Breaks(states: seq<World>, steps: seq<Timed>, n: nat) {
    n < |steps| < |states| && forall k | 0 <= k < |steps| :: OrderedAt(states, steps, k) <==> k != n
  }

  predicate Writing(w: World, step: Step, kind: Work -> bool) {
    step.Write? && step.task in w.tasks && w.tasks[step.task].Holding? && kind(w.tasks[step.task].work)
  }

  // ---- What they end in ----

  /** A listing by whoever holds the name, from time t on. */
  function Listing5(who: Holder, t: Time): seq<Timed> {
    [Timed(Start(9, Note(who, t, true)), t), Timed(Read(9), t + 1), Timed(Write(9), t + 2), Timed(Fetch(9), t + 3),
     Timed(Show(9), t + 4)]
  }

  ghost function Listed(w: World, who: Holder, t: Time): seq<World> {
    var note, noted := Note(who, t, true), w.(record := Some(Noted(w.record, who.uid, w.backfilled, t)));
    [w.(now := t, tasks := w.tasks[9 := Ready(note)]),
     w.(now := t + 1, tasks := w.tasks[9 := Holding(note, w.record)]),
     noted.(now := t + 2, tasks := w.tasks[9 := Fetching(who, !w.open)]),
     noted.(now := t + 3, tasks := w.tasks[9 := Showing(who, !w.open, w.snaps)]),
     noted.(now := t + 4, tasks := w.tasks - {9})]
  }

  ghost predicate Goes(before: World, step: Timed, after: World) {
    && Enabled(before, step.step, step.at) && InOrder(before, step.step, step.at)
    && after == After(before, step.step, step.at)
  }

  lemma ListedStep(w: World, who: Holder, t: Time, i: nat)
    requires Timely(w) || (Active(w.record) && w.record.value.uid == who.uid && w.record.value.sinceAt != 0)
    requires w.holder == Some(who) && 9 !in w.tasks && w.now < t && i < 5
    ensures Goes(([w] + Listed(w, who, t))[i], Listing5(who, t)[i], Listed(w, who, t)[i])
  {
    if i == 2 {
      NoteInOrder(w, who, t);
      NoteWritten(w, who, t);
    } else if i < 2 {
      NoteStarted(w, who, t, i);
    } else {
      NoteAnswered(w, who, t, i);
    }
  }

  lemma NoteStarted(w: World, who: Holder, t: Time, i: nat)
    requires w.holder == Some(who) && 9 !in w.tasks && w.now < t && i < 2
    ensures Goes(([w] + Listed(w, who, t))[i], Listing5(who, t)[i], Listed(w, who, t)[i])
  {
  }

  lemma NoteWritten(w: World, who: Holder, t: Time)
    requires w.holder == Some(who) && 9 !in w.tasks && w.now < t
    ensures var held := Listed(w, who, t)[1];
            Enabled(held, Write(9), t + 2) && After(held, Write(9), t + 2) == Listed(w, who, t)[2]
  {
    var held := Listed(w, who, t)[1];
    assert After(held, Write(9), t + 2).tasks == w.tasks[9 := Fetching(who, !w.open)];
  }

  lemma NoteAnswered(w: World, who: Holder, t: Time, i: nat)
    requires w.holder == Some(who) && 9 !in w.tasks && w.now < t && 3 <= i < 5
    ensures Goes(([w] + Listed(w, who, t))[i], Listing5(who, t)[i], Listed(w, who, t)[i])
  {
    if i == 3 {
      assert After(Listed(w, who, t)[2], Fetch(9), t + 3).tasks == w.tasks[9 := Showing(who, !w.open, w.snaps)];
    } else {
      assert After(Listed(w, who, t)[3], Show(9), t + 4).tasks == w.tasks - {9};
    }
  }

  lemma NoteInOrder(w: World, who: Holder, t: Time)
    requires Timely(w) || (Active(w.record) && w.record.value.uid == who.uid && w.record.value.sinceAt != 0)
    requires w.holder == Some(who) && 9 !in w.tasks && w.now < t
    ensures Enabled(Listed(w, who, t)[1], Write(9), t + 2) && InOrder(Listed(w, who, t)[1], Write(9), t + 2)
  {
    if Timely(w) {
      var held := Listed(w, who, t)[1];
      forall k | k in held.tasks ensures TaskTimely(held, held.tasks[k]) {
        if k in w.tasks { assert TaskTimely(w, w.tasks[k]); }
      }
      forall s ensures Foreign(held, s) <==> Foreign(w, s) {}
      UndisturbedIsInOrder(held, 9, t + 2);
    }
  }

  /** A run that has got to a world whose next listing is not safe. */
  lemma ThenListed(states: seq<World>, steps: seq<Timed>, w: World, who: Holder, t: Time, s: Snap)
    requires IsRun(states, steps) && Fresh(states[0]) && states[|steps|] == w
    requires Timely(w) || (Active(w.record) && w.record.value.uid == who.uid && w.record.value.sinceAt != 0)
    requires w.holder == Some(who) && 9 !in w.tasks && w.now < t && s in Shown(w, t) && s.owner != who.id
    ensures var more, all := states + Listed(w, who, t), steps + Listing5(who, t);
            && Exposes(more, all, !w.open)
            && (forall k | 0 <= k < |steps| :: OrderedAt(more, all, k) <==> OrderedAt(states, steps, k))
            && (forall k | |steps| <= k < |all| :: OrderedAt(more, all, k))
  {
    var more, all, n := states + Listed(w, who, t), steps + Listing5(who, t), |steps|;
    var tail, five := [w] + Listed(w, who, t), Listing5(who, t);
    forall k | 0 <= k < |all| ensures StepAt(more, all, k) {
      if k < n {
        assert StepAt(states, steps, k);
      } else {
        ListedStep(w, who, t, k - n);
        assert more[k] == tail[k - n] && more[k + 1] == Listed(w, who, t)[k - n] && all[k] == five[k - n];
      }
    }
    forall k | n <= k < |all| ensures OrderedAt(more, all, k) {
      ListedStep(w, who, t, k - n);
      assert more[k] == tail[k - n] && all[k] == five[k - n];
    }
    assert more[n + 4] == tail[4] && s in ShownOf(more[n + 4].record, more[n + 4].tasks[9].found);
    assert StepAt(more, all, n + 4);
  }

  // ---- The runs ----

  /** The first customer, what it left behind, and the record the backfill
      makes of it. */
  const FIRST := Holder(1, 500, 1)
  const OLD := Snap(1, 2)
  const KEPT := Identity(500, 4, false, None)

  /** The second, of the same uid. */
  const SECOND := Holder(2, 500, 20)

  ghost function SilentStates(): seq<World> {
    [World(3, Some(FIRST), None, false, {OLD}, false, map[]),
     World(4, Some(FIRST), Some(KEPT), true, {OLD}, false, map[]),
     World(5, None, Some(KEPT), true, {OLD}, false, map[]),
     World(20, Some(SECOND), Some(KEPT), true, {OLD}, true, map[])]
  }

  ghost function SilentSteps(): seq<Timed> {
    [Timed(Backfill(true), 4), Timed(Leave, 5), Timed(Arrive(2, 500), 20)]
  }

  lemma SilentStep(i: nat)
    requires i < 3
    ensures StepAt(SilentStates(), SilentSteps(), i) && OrderedAt(SilentStates(), SilentSteps(), i)
  {
    assert Foreign(World(20, Some(SECOND), Some(KEPT), true, {OLD}, false, map[]), OLD);
  }

  /** Nothing hides the last customer from one who silently got the same name
      and the same uid, however well ordered everything is. */
  lemma SilentTurnoverExposes()
    ensures exists states: seq<World>, steps: seq<Timed> :: Exposes(states, steps, false) && AllOrdered(states, steps)
  {
    var states, steps := SilentStates(), SilentSteps();
    forall i | 0 <= i < |steps| ensures StepAt(states, steps, i) && OrderedAt(states, steps, i) {
      SilentStep(i);
    }
    ThenListed(states, steps, states[3], SECOND, 30, OLD);
    assert AllOrdered(states + Listed(states[3], SECOND, 30), steps + Listing5(SECOND, 30));
  }

  /** The first is removed, which is recorded; the second arrives; and then the
      first's own create event, which could not be recorded before, is. */
  ghost function RetriedStates(): seq<World> {
    var retired := Some(KEPT.(retiredAt := Some(8)));
    var w := World(20, Some(SECOND), retired, true, {OLD}, false, map[]);
    [World(3, Some(FIRST), None, false, {OLD}, false, map[]),
     World(4, Some(FIRST), Some(KEPT), true, {OLD}, false, map[]),
     World(5, None, Some(KEPT), true, {OLD}, false, map[]),
     World(6, None, Some(KEPT), true, {OLD}, false, map[0 := Ready(Remove)]),
     World(7, None, Some(KEPT), true, {OLD}, false, map[0 := Holding(Remove, Some(KEPT))]),
     World(8, None, retired, true, {OLD}, false, map[]),
     w,
     w.(now := 21, tasks := map[1 := Ready(Create(SECOND, 1))]),
     w.(now := 22, tasks := map[1 := Holding(Create(SECOND, 1), retired)]),
     w.(now := 23, record := Some(Identity(500, 1, true, None)))]
  }

  ghost function RetriedSteps(): seq<Timed> {
    [Timed(Backfill(true), 4), Timed(Leave, 5), Timed(Start(0, Remove), 6), Timed(Read(0), 7), Timed(Write(0), 8),
     Timed(Arrive(2, 500), 20), Timed(Start(1, Create(SECOND, 1)), 21), Timed(Read(1), 22), Timed(Write(1), 23)]
  }

  lemma RetriedStep(i: nat)
    requires i < 9
    ensures StepAt(RetriedStates(), RetriedSteps(), i) && (OrderedAt(RetriedStates(), RetriedSteps(), i) <==> i != 8)
  {
    if i == 8 { assert Stranger(RetriedStates()[8], OLD); }
  }

  /** That brings the departed holder's record back to life. */
  lemma RetriedCreateReopens()
    ensures exists states: seq<World>, steps: seq<Timed> ::
              Exposes(states, steps, true) && Breaks(states, steps, 8) &&
              Writing(states[8], steps[8].step, (work: Work) => work.Create?)
  {
    var states, steps := RetriedStates(), RetriedSteps();
    forall i | 0 <= i < |steps| ensures StepAt(states, steps, i) && (OrderedAt(states, steps, i) <==> i != 8) {
      RetriedStep(i);
    }
    ThenListed(states, steps, states[9], SECOND, 30, OLD);
    assert Breaks(states + Listed(states[9], SECOND, 30), steps + Listing5(SECOND, 30), 8);
  }

  /** A name not in use at the backfill, with a departed customer's backups, and
      a rename into it. */
  ghost function RenameStates(): seq<World> {
    var asked := Inherit(KEPT, false);
    var w := World(20, Some(SECOND), None, true, {OLD}, false, map[]);
    [World(3, None, None, false, {OLD}, false, map[]),
     World(4, None, None, true, {OLD}, false, map[]),
     w,
     w.(now := 21, tasks := map[0 := Ready(asked)]),
     w.(now := 22, tasks := map[0 := Holding(asked, None)]),
     w.(now := 23, tasks := map[0 := Holding(Inherit(KEPT, true), None)]),
     w.(now := 24, record := Some(KEPT))]
  }

  ghost function RenameSteps(): seq<Timed> {
    [Timed(Backfill(true), 4), Timed(Arrive(2, 500), 20), Timed(Start(0, Inherit(KEPT, false)), 21), Timed(Read(0), 22),
     Timed(Look(0), 23), Timed(Write(0), 24)]
  }

  lemma RenameStep(i: nat)
    requires i < 6
    ensures StepAt(RenameStates(), RenameSteps(), i) && (OrderedAt(RenameStates(), RenameSteps(), i) <==> i != 5)
  {
    if i == 5 { assert Stranger(RenameStates()[5], OLD); }
  }

  /** They are shown to whoever is renamed into it. */
  lemma RenameExposes()
    ensures exists states: seq<World>, steps: seq<Timed> ::
              Exposes(states, steps, true) && Breaks(states, steps, 5) &&
              Writing(states[5], steps[5].step, (work: Work) => work.Inherit?)
  {
    var states, steps := RenameStates(), RenameSteps();
    forall i | 0 <= i < |steps| ensures StepAt(states, steps, i) && (OrderedAt(states, steps, i) <==> i != 5) {
      RenameStep(i);
    }
    ThenListed(states, steps, states[6], SECOND, 30, OLD);
    assert Breaks(states + Listed(states[6], SECOND, 30), steps + Listing5(SECOND, 30), 5);
  }

  /** A pass over the account list has read the record when the second's create
      event is delivered, live and at once, and writes back what it read. */
  ghost function LostStates(): seq<World> {
    var held, seen := Holding(PutBack(false), Some(KEPT)), Holding(PutBack(true), Some(KEPT));
    var w := World(20, Some(SECOND), Some(KEPT), true, {OLD}, true, map[]);
    var created := w.(record := Some(Identity(500, 23, true, None)), open := false);
    [World(3, Some(FIRST), None, false, {OLD}, false, map[]),
     World(4, Some(FIRST), Some(KEPT), true, {OLD}, false, map[]),
     World(5, None, Some(KEPT), true, {OLD}, false, map[]),
     w,
     w.(now := 21, tasks := map[0 := Ready(PutBack(false))]),
     w.(now := 22, tasks := map[0 := held]),
     w.(now := 23, tasks := map[0 := held, 1 := Ready(Create(SECOND, 23))]),
     w.(now := 24, tasks := map[0 := held, 1 := Holding(Create(SECOND, 23), Some(KEPT))]),
     created.(now := 25, tasks := map[0 := held]),
     created.(now := 26, tasks := map[0 := seen]),
     created.(now := 27, record := Some(KEPT))]
  }

  ghost function LostSteps(): seq<Timed> {
    [Timed(Backfill(true), 4), Timed(Leave, 5), Timed(Arrive(2, 500), 20), Timed(Start(0, PutBack(false)), 21),
     Timed(Read(0), 22), Timed(Start(1, Create(SECOND, 23)), 23), Timed(Read(1), 24), Timed(Write(1), 25),
     Timed(Look(0), 26), Timed(Write(0), 27)]
  }

  lemma LostStep(i: nat)
    requires i < 10
    ensures StepAt(LostStates(), LostSteps(), i) && (OrderedAt(LostStates(), LostSteps(), i) <==> i != 9)
  {
    if i == 2 { assert Foreign(World(20, Some(SECOND), Some(KEPT), true, {OLD}, false, map[]), OLD); }
    if i == 9 { assert Stranger(LostStates()[9], OLD); }
  }

  /** The boundary is gone, and the second is shown what the first left. */
  lemma LostBoundaryExposes()
    ensures exists states: seq<World>, steps: seq<Timed> ::
              && Exposes(states, steps, true) && Breaks(states, steps, 9)
              && Writing(states[9], steps[9].step, (work: Work) => work.PutBack?) && !UnpassedAt(states, steps, 9)
              && !Later(states[9].record, states[10].record)
  {
    var states, steps := LostStates(), LostSteps();
    forall i | 0 <= i < |steps| ensures StepAt(states, steps, i) && (OrderedAt(states, steps, i) <==> i != 9) {
      LostStep(i);
    }
    ThenListed(states, steps, states[10], SECOND, 30, OLD);
    assert Breaks(states + Listed(states[10], SECOND, 30), steps + Listing5(SECOND, 30), 9);
  }

  /** A backup of the first that reaches a destination only after the name has
      passed to the second. */
  ghost function LateStates(): seq<World> {
    var backing: map<nat, Task> := map[0 := Backing(FIRST)];
    var w := World(20, Some(SECOND), Some(KEPT), true, {}, false, backing);
    [World(3, Some(FIRST), None, false, {}, false, map[]),
     World(4, Some(FIRST), Some(KEPT), true, {}, false, map[]),
     World(5, Some(FIRST), Some(KEPT), true, {}, false, backing),
     World(6, None, Some(KEPT), true, {}, false, backing),
     w,
     w.(now := 21, snaps := {Snap(1, 21)})]
  }

  ghost function LateSteps(): seq<Timed> {
    [Timed(Backfill(true), 4), Timed(StartBackup(0), 5), Timed(Leave, 6), Timed(Arrive(2, 500), 20), Timed(Store(0), 21)]
  }

  lemma LateStep(i: nat)
    requires i < 5
    ensures StepAt(LateStates(), LateSteps(), i) && (OrderedAt(LateStates(), LateSteps(), i) <==> i != 4)
  {
  }

  lemma LateBackupExposes()
    ensures exists states: seq<World>, steps: seq<Timed> ::
              Exposes(states, steps, true) && Breaks(states, steps, 4) && steps[4].step.Store?
  {
    var states, steps := LateStates(), LateSteps();
    forall i | 0 <= i < |steps| ensures StepAt(states, steps, i) && (OrderedAt(states, steps, i) <==> i != 4) {
      LateStep(i);
    }
    ThenListed(states, steps, states[5], SECOND, 30, Snap(1, 21));
    assert Breaks(states + Listed(states[5], SECOND, 30), steps + Listing5(SECOND, 30), 4);
  }
}
