/** The life of one cPanel name over any run of the world and the engine: who
    holds it, what the engine recorded about it, and whose backups its holder
    is shown. Every engine call is the reads and writes of the record it is made
    of, and they interleave with each other and with what happens to the account
    (internal/node/identity.go, internal/node/forget_account.go:32-82). A record
    is touched by no call that concerns another name, except by a rename, which
    arrives here as Inherit and TakeAway. */
module IdentityRuns {
  import opened NodeStore
  import opened Identity

  /** An incarnation: the customer behind the name, and from when. */
  datatype Holder = Holder(id: nat, uid: int, start: Time)

  /** A backup stored under the name, and who it was taken of. */
  datatype Snap = Snap(owner: nat, at: Time)

  /** What an engine call is on the way to writing. Note and Create have looked
      up who is behind the name, and Note has read the clock. */
  datatype Work =
    | Note(who: Holder, now: Time, looking: bool)  // noteIdentity, for a listing or not
    | Create(who: Holder, at: Time)                // AccountCreated, live or replayed
    | Remove                                       // AccountRemoved, live or replayed
    | PutBack(seen: bool)                          // the pass over the account list, for a name on it
    | TakeAway                                     // the same, moving the record to another name
    | Inherit(from: Identity, seen: bool)          // the same, moving a record here

  /** A call about to read the record, or holding the copy it read; a listing
      between its note and its answer; a backup between reading the account and
      storing it; and a forgetting that is deleting. `told` is whether the last
      turnover had been witnessed when the listing's note was written. */
  datatype Task =
    | Ready(work: Work)
    | Holding(work: Work, copy: Option<Identity>)
    | Fetching(who: Holder, told: bool)
    | Showing(who: Holder, told: bool, found: set<Snap>)
    | Backing(who: Holder)
    | Forgetting(listed: set<Snap>)

  /** `open` says the present holder took the name over from somebody and
      nothing has told the engine so yet. */
  datatype World = World(
    now: Time,
    holder: Option<Holder>,
    record: Option<Identity>,
    backfilled: bool,
    snaps: set<Snap>,
    open: bool,
    tasks: map<nat, Task>)

  datatype Step =
    | Arrive(id: nat, uid: int)          // somebody is given the name
    | Leave                              // the account is removed
    | Backfill(readable: bool)           // the one-time recording, before anything else is served
    | Prune(kept: set<Snap>)             // retention, or part of a forgetting
    | Start(task: nat, work: Work)
    | StartBackup(task: nat)
    | StartForget(task: nat)
    | Read(task: nat)
    | Look(task: nat)                    // the pass looks up who is behind the name
    | Write(task: nat)
    | Fetch(task: nat)                   // the listing reads the repository
    | Show(task: nat)                    // and then the record, and answers
    | Store(task: nat)                   // one destination of a backup
    | Drop(task: nat)                    // the forgetting ends
    | GiveUp(task: nat)                  // an error, or the service stops

  ghost predicate Foreign(w: World, s: Snap) {
    s in w.snaps && w.holder.Some? && s.owner != w.holder.value.id
  }

  /** What the records say at once about a newcomer: the last holder's removal
      was delivered, the uid changed, or the name was absent at the backfill. */
  predicate Evidence(record: Option<Identity>, uid: int, backfilled: bool) {
    match record
    case None => backfilled
    case Some(r) => r.retiredAt.Some? || r.uid != uid
  }

  /** Looking at the name now would hide a backup of this age. */
  predicate Shut(record: Option<Identity>, uid: int, backfilled: bool, at: Time) {
    Evidence(record, uid, backfilled) || (record.Some? && record.value.recycled && at < record.value.sinceAt)
  }

  // ---- Steps ----

  predicate Starts(w: World, work: Work, t: Time) {
    match work
    case Note(who, now, _) => w.holder == Some(who) && now == t
    case Create(who, at) => w.holder == Some(who) && at != 0 && at <= t
    case Remove => true
    case PutBack(seen) => w.holder.Some? && !seen
    case TakeAway => w.holder.None?
    case Inherit(from, seen) => w.holder.Some? && !seen && from.retiredAt.None? && from.sinceAt <= t
  }

  /** A create event that is on record already is not recorded again. */
  predicate Known(copy: Option<Identity>, at: Time) {
    copy.Some? && copy.value.recycled && copy.value.sinceAt >= at
  }

  predicate Active(copy: Option<Identity>) {
    copy.Some? && copy.value.retiredAt.None?
  }

  predicate Writes(work: Work, copy: Option<Identity>) {
    match work
    case Note(_, _, _) => true
    case Create(_, at) => !Known(copy, at)
    case Remove => Active(copy)
    case PutBack(seen) => seen && Active(copy)
    case TakeAway => Active(copy)
    case Inherit(_, seen) => seen && copy.None?
  }

  /** The record as a call writes it, from the copy it read. */
  function Written(work: Work, copy: Option<Identity>, backfilled: bool, t: Time): Identity
    requires Writes(work, copy)
  {
    match work
    case Note(who, now, _) => Noted(copy, who.uid, backfilled, now)
    case Create(who, at) => Created(copy, who.uid, at)
    case Remove => copy.value.(retiredAt := Some(t))
    case PutBack(_) => copy.value
    case TakeAway => copy.value.(retiredAt := Some(t))
    case Inherit(from, _) => Inherited(from)
  }

  /** The uid behind the name is the one the pass acts on. */
  predicate Matches(task: Task, uid: int) {
    task.Holding? &&
    match task.work
    case PutBack(_) => Active(task.copy) && task.copy.value.uid == uid
    case Inherit(from, _) => from.uid == uid
    case _ => false
  }

  /** What the code and the world allow at time t. */
  ghost predicate Enabled(w: World, step: Step, t: Time) {
    && w.now < t
    && match step
       case Arrive(_, _) => w.holder.None?
       case Leave => w.holder.Some?
       case Backfill(_) => !w.backfilled && w.tasks == map[]
       case Prune(kept) => kept <= w.snaps
       case Start(task, work) => task !in w.tasks && Starts(w, work, t)
       case StartBackup(task) => task !in w.tasks && w.holder.Some?
       case StartForget(task) => task !in w.tasks && w.record.Some? && w.record.value.retiredAt.Some?
       case Read(task) => task in w.tasks && w.tasks[task].Ready?
       case Look(task) => task in w.tasks && w.holder.Some? && Matches(w.tasks[task], w.holder.value.uid)
       case Write(task) => task in w.tasks && w.tasks[task].Holding? && Writes(w.tasks[task].work, w.tasks[task].copy)
       case Fetch(task) => task in w.tasks && w.tasks[task].Fetching?
       case Show(task) => task in w.tasks && w.tasks[task].Showing?
       case Store(task) => task in w.tasks && w.tasks[task].Backing?
       case Drop(task) => task in w.tasks && w.tasks[task].Forgetting? && w.tasks[task].listed !! w.snaps
       case GiveUp(task) => task in w.tasks
  }

  /** An event that is read and found to be on record needs no write. */
  predicate Answered(work: Work, record: Option<Identity>) {
    match work
    case Create(_, at) => Known(record, at)
    case Remove => !Active(record)
    case _ => false
  }

  /** Whether the turnover is still unreported once this event is on record. */
  predicate StillOpen(w: World, work: Work) {
    match work
    case Create(_, at) => w.open && (w.holder.None? || at < w.holder.value.start)
    case Remove => w.open && w.record.None?
    case _ => w.open
  }

  function Next(work: Work, open: bool, task: nat, tasks: map<nat, Task>): map<nat, Task> {
    if work.Note? && work.looking then tasks[task := Fetching(work.who, !open)] else tasks - {task}
  }

  ghost function After(w: World, step: Step, t: Time): World
    requires Enabled(w, step, t)
  {
    var w := w.(now := t);
    match step
    case Arrive(id, uid) =>
      var arrived := w.(holder := Some(Holder(id, uid, t)));
      arrived.(open := (exists s :: Foreign(arrived, s)) && !Evidence(w.record, uid, w.backfilled))
    case Leave => w.(holder := None)
    case Backfill(readable) =>
      var uid := if w.holder.Some? && readable then Uid(w.holder.value.uid) else NoSuchAccount;
      w.(record := Backfilled(w.record, w.holder.Some?, uid, t), backfilled := true)
    case Prune(kept) => w.(snaps := kept)
    case Start(task, work) => w.(tasks := w.tasks[task := Ready(work)])
    case StartBackup(task) => w.(tasks := w.tasks[task := Backing(w.holder.value)])
    case StartForget(task) => w.(tasks := w.tasks[task := Forgetting(w.snaps)])
    case Read(task) =>
      var work := w.tasks[task].work;
      if Answered(work, w.record) then w.(open := StillOpen(w, work), tasks := w.tasks - {task})
      else w.(tasks := w.tasks[task := Holding(work, w.record)])
    case Look(task) =>
      var held := w.tasks[task];
      w.(tasks := w.tasks[task := held.(work := held.work.(seen := true))])
    case Write(task) =>
      var held := w.tasks[task];
      var record := Some(Written(held.work, held.copy, w.backfilled, t));
      var written := w.(record := record);
      written.(open := StillOpen(written, held.work), tasks := Next(held.work, w.open, task, w.tasks))
    case Fetch(task) => w.(tasks := w.tasks[task := Showing(w.tasks[task].who, w.tasks[task].told, w.snaps)])
    case Show(task) => w.(tasks := w.tasks - {task})
    case Store(task) => w.(snaps := w.snaps + {Snap(w.tasks[task].who.id, t)})
    case Drop(task) => w.(record := None, tasks := w.tasks - {task})
    case GiveUp(task) => w.(tasks := w.tasks - {task})
  }

  /** What a listing that found these backups shows of them. */
  function ShownOf(record: Option<Identity>, found: set<Snap>): set<Snap> {
    var since := VisibleSince(record);
    set s | s in found && (since == 0 || s.at >= since)
  }

  // ---- One write ----

  /** Whoever holds the name, or comes to: what was shut stays shut. */
  ghost predicate NoLess(before: Option<Identity>, after: Option<Identity>, backfilled: bool) {
    forall uid, at :: Shut(before, uid, backfilled, at) ==> Shut(after, uid, backfilled, at)
  }

  /** What the engine could compare before it puts a record over the one there
      is: the boundary is not an earlier one, and a record that is not retired
      replaces neither a retired one nor that of another uid. */
  predicate Covers(current: Option<Identity>, written: Identity, backfilled: bool) {
    match current
    case None => written.retiredAt.Some? || !backfilled
    case Some(c) =>
      && (c.recycled ==> written.recycled && c.sinceAt <= written.sinceAt)
      && (written.retiredAt.Some? || (c.retiredAt.None? && c.uid == written.uid))
  }

  lemma CoversIff(current: Option<Identity>, written: Identity, backfilled: bool)
    ensures Covers(current, written, backfilled) <==>
            Later(current, Some(written)) && NoLess(current, Some(written), backfilled)
  {
    if Later(current, Some(written)) && NoLess(current, Some(written), backfilled) && written.retiredAt.None? {
      assert !Shut(Some(written), written.uid, backfilled, written.sinceAt);
      assert !Shut(current, written.uid, backfilled, written.sinceAt);
    }
  }

  /** A listing of this customer's has found it and is about to answer. */
  predicate FoundBy(task: Task, who: Holder, s: Snap) {
    task.Showing? && task.who == who && s in task.found
  }

  /** A backup the holder could be shown that is somebody else's; while nobody
      holds the name, any that whoever comes next could. */
  ghost predicate Stranger(w: World, s: Snap) {
    if w.holder.None? then s in w.snaps
    else
      && s.owner != w.holder.value.id
      && (s in w.snaps || exists k | k in w.tasks :: FoundBy(w.tasks[k], w.holder.value, s))
  }

  /** The boundary written hides every one of those. */
  ghost predicate Hides(w: World, written: Identity) {
    forall s | Stranger(w, s) :: written.recycled && s.at < written.sinceAt
  }

  ghost predicate Listing(task: Task) {
    task.Fetching? || task.Showing?
  }

  /** What runs must respect. No write carries a record past a boundary, a
      retirement or another uid recorded since its read, unless what it writes
      hides every stranger's backup anyway, or nothing is promised; a backup is
      stored while whom it was taken of, or nobody, holds the name; and a record
      is dropped while nobody is looking, and not before strangers' backups are
      gone or the name's absence will speak for itself. */
  ghost predicate InOrder(w: World, step: Step, t: Time)
    requires Enabled(w, step, t)
  {
    match step
    case Write(task) =>
      var written := Written(w.tasks[task].work, w.tasks[task].copy, w.backfilled, t);
      (w.holder.Some? && w.open) || Covers(w.record, written, w.backfilled) || Hides(w, written)
    case Store(task) => w.holder.None? || w.holder == Some(w.tasks[task].who)
    case Drop(_) =>
      && (forall k | k in w.tasks :: !Listing(w.tasks[k]))
      && (w.holder.Some? && !w.open ==> w.backfilled || forall s :: !Foreign(w, s))
    case _ => true
  }

  /** Nothing came between the read and the write, nor between looking up who
      is behind the name and the write. */
  ghost predicate Undisturbed(w: World, task: nat)
    requires task in w.tasks && w.tasks[task].Holding?
  {
    && w.record == w.tasks[task].copy
    && match w.tasks[task].work
       case Note(who, _, _) => w.holder == Some(who)
       case Create(who, at) => w.holder == Some(who) && who.start <= at
       case Inherit(from, _) => Hides(w, Inherited(from))
       case _ => true
  }

  /** Then the write is in order, whatever call it belongs to. */
  lemma UndisturbedIsInOrder(w: World, task: nat, t: Time)
    requires Timely(w) && Enabled(w, Write(task), t) && Undisturbed(w, task)
    ensures InOrder(w, Write(task), t)
  {
    assert TaskTimely(w, w.tasks[task]);
    forall s | w.holder.Some? && Stranger(w, s) ensures s.at < w.holder.value.start {
      if s in w.snaps {
        assert Foreign(w, s);
      } else {
        var k :| k in w.tasks && FoundBy(w.tasks[k], w.holder.value, s);
        assert TaskTimely(w, w.tasks[k]);
      }
    }
  }

  // ---- What every run keeps ----

  predicate WorkTimely(work: Work, now: Time) {
    match work
    case Note(who, read, _) => who.start <= read <= now
    case Create(who, at) => who.start <= now && at <= now
    case Inherit(from, _) => from.sinceAt <= now
    case _ => true
  }

  ghost predicate TaskTimely(w: World, task: Task) {
    match task
    case Ready(work) => WorkTimely(work, w.now)
    case Holding(work, copy) => WorkTimely(work, w.now) && (copy.Some? ==> copy.value.sinceAt <= w.now)
    case Fetching(who, _) => who.start <= w.now
    case Showing(who, _, found) =>
      && who.start <= w.now
      && forall s | s in found :: 0 <= s.at && (w.holder == Some(who) && s.owner != who.id ==> s.at < who.start)
    case _ => true
  }

  ghost predicate Timely(w: World) {
    && 0 <= w.now
    && (forall s | s in w.snaps :: 0 <= s.at <= w.now)
    && (w.holder.Some? ==> w.holder.value.start <= w.now && forall s | Foreign(w, s) :: s.at < w.holder.value.start)
    && (w.record.Some? ==> w.record.value.sinceAt <= w.now)
    && (forall k | k in w.tasks :: TaskTimely(w, w.tasks[k]))
  }

  /** Everything here that is somebody else's is older than the boundary. */
  ghost predicate Sealed(record: Option<Identity>, found: set<Snap>, who: Holder) {
    forall s | s in found && s.owner != who.id :: record.Some? && record.value.recycled && s.at < record.value.sinceAt
  }

  /** A listing whose note was written after the turnover was witnessed. */
  ghost predicate TaskSealed(w: World, task: Task) {
    match task
    case Fetching(who, told) => told && w.holder == Some(who) ==> !w.open && Sealed(w.record, w.snaps, who)
    case Showing(who, told, found) => told && w.holder == Some(who) ==> !w.open && Sealed(w.record, found, who)
    case _ => true
  }

  ghost predicate AllShut(w: World) {
    w.holder.Some? && !w.open ==> forall s | Foreign(w, s) :: Shut(w.record, w.holder.value.uid, w.backfilled, s.at)
  }

  ghost predicate Invariant(w: World) {
    Timely(w) && AllShut(w) && forall k | k in w.tasks :: TaskSealed(w, w.tasks[k])
  }

  lemma TimelyStep(w: World, step: Step, t: Time)
    requires Timely(w) && Enabled(w, step, t) && InOrder(w, step, t)
    ensures Timely(After(w, step, t))
  {
    var after := After(w, step, t);
    forall s | Foreign(after, s) ensures s.at < after.holder.value.start {
      if !step.Arrive? && !step.Store? { assert Foreign(w, s); }
    }
    forall k | k in after.tasks ensures TaskTimely(after, after.tasks[k]) {
      TaskTimelyStep(w, step, t, k);
    }
    RecordTimelyStep(w, step, t);
  }

  lemma TaskTimelyStep(w: World, step: Step, t: Time, k: nat)
    requires Timely(w) && Enabled(w, step, t) && k in After(w, step, t).tasks
    ensures TaskTimely(After(w, step, t), After(w, step, t).tasks[k])
  {
    var after := After(w, step, t);
    if k in w.tasks { assert TaskTimely(w, w.tasks[k]); }
    if step == Fetch(k) {
      FoundTimely(w, w.tasks[k].who, t);
    } else if k in w.tasks && after.tasks[k] == w.tasks[k] {
      TaskStaysTimely(w, after, w.tasks[k]);
    } else {
      TaskMovesTimely(w, step, t, k);
    }
  }

  /** A call's own step, but for the one that finds backups. */
  lemma TaskMovesTimely(w: World, step: Step, t: Time, k: nat)
    requires Timely(w) && Enabled(w, step, t) && k in After(w, step, t).tasks && !step.Fetch?
    requires k in w.tasks ==> After(w, step, t).tasks[k] != w.tasks[k] && TaskTimely(w, w.tasks[k])
    ensures TaskTimely(After(w, step, t), After(w, step, t).tasks[k])
  {
    if step.Write? {
      assert After(w, step, t).tasks[k] == Fetching(w.tasks[k].work.who, !w.open);
    } else if step.Read? || step.Look? {
      HeldTimely(w, step, t, k);
    }
  }

  lemma HeldTimely(w: World, step: Step, t: Time, k: nat)
    requires Timely(w) && Enabled(w, step, t) && (step == Read(k) || step == Look(k)) && k in After(w, step, t).tasks
    requires TaskTimely(w, w.tasks[k])
    ensures TaskTimely(After(w, step, t), After(w, step, t).tasks[k])
  {
  }

  lemma TaskStaysTimely(w: World, after: World, task: Task)
    requires TaskTimely(w, task) && w.now <= after.now
    requires after.holder.None? || after.holder == w.holder || w.now < after.holder.value.start
    ensures TaskTimely(after, task)
  {
  }

  lemma FoundTimely(w: World, who: Holder, t: Time)
    requires Timely(w) && w.now < t && who.start <= w.now
    ensures forall s | s in w.snaps :: 0 <= s.at && (w.holder == Some(who) && s.owner != who.id ==> s.at < who.start)
  {
    assert forall s | s in w.snaps && w.holder == Some(who) && s.owner != who.id :: Foreign(w, s);
  }

  lemma RecordTimelyStep(w: World, step: Step, t: Time)
    requires Timely(w) && Enabled(w, step, t)
    ensures var record := After(w, step, t).record; record.Some? ==> record.value.sinceAt <= t
  {
    if step.Write? { assert TaskTimely(w, w.tasks[step.task]); }
  }

  lemma ShutStep(w: World, step: Step, t: Time)
    requires Invariant(w) && Enabled(w, step, t) && InOrder(w, step, t)
    ensures AllShut(After(w, step, t))
  {
    var after := After(w, step, t);
    if after.holder.Some? && !after.open {
      forall s | Foreign(after, s) ensures Shut(after.record, after.holder.value.uid, after.backfilled, s.at) {
        if step.Arrive? {
          assert Foreign(after.(open := w.open), s);
        } else {
          assert Foreign(w, s) && Stranger(w, s);
        }
      }
    }
  }

  /** A write in order hides what a listing of the holder's is about to show. */
  lemma WriteKeepsSealed(w: World, task: nat, t: Time, k: nat)
    requires Invariant(w) && Enabled(w, Write(task), t) && InOrder(w, Write(task), t)
    requires k in w.tasks && k != task
    ensures TaskSealed(After(w, Write(task), t), w.tasks[k])
  {
    var written, listing := Written(w.tasks[task].work, w.tasks[task].copy, w.backfilled, t), w.tasks[k];
    assert TaskSealed(w, listing);
    if Listing(listing) && listing.told && w.holder == Some(listing.who) && !Covers(w.record, written, w.backfilled) {
      var who := listing.who;
      assert forall s | s in w.snaps && s.owner != who.id :: Stranger(w, s);
      assert forall s | FoundBy(listing, who, s) && s.owner != who.id :: Stranger(w, s);
    }
  }

  /** A listing's note, written when the last turnover is on record, shuts out
      every stranger's backup by its boundary. */
  lemma NoteSeals(w: World, task: nat, t: Time)
    requires Invariant(w) && Enabled(w, Write(task), t) && AllShut(After(w, Write(task), t))
    requires task in After(w, Write(task), t).tasks
    ensures TaskSealed(After(w, Write(task), t), After(w, Write(task), t).tasks[task])
  {
    var after := After(w, Write(task), t);
    assert forall s | s in after.snaps && after.holder.Some? && s.owner != after.holder.value.id :: Foreign(after, s);
  }

  lemma SealedStep(w: World, step: Step, t: Time, k: nat)
    requires Invariant(w) && Enabled(w, step, t) && InOrder(w, step, t) && AllShut(After(w, step, t))
    requires k in After(w, step, t).tasks
    ensures TaskSealed(After(w, step, t), After(w, step, t).tasks[k])
  {
    var after := After(w, step, t);
    if step == Write(k) {
      NoteSeals(w, k, t);
    } else if step.Write? {
      WriteKeepsSealed(w, step.task, t, k);
    } else if k in w.tasks {
      assert TaskTimely(w, w.tasks[k]) && TaskSealed(w, w.tasks[k]);
      if step.Fetch? || step.Show? || step.Store? || step.Drop? { ListingStaysSealed(w, step, t, k); }
    }
  }

  lemma ListingStaysSealed(w: World, step: Step, t: Time, k: nat)
    requires k in w.tasks && TaskSealed(w, w.tasks[k]) && Enabled(w, step, t) && InOrder(w, step, t)
    requires k in After(w, step, t).tasks && (step.Fetch? || step.Show? || step.Store? || step.Drop?)
    ensures TaskSealed(After(w, step, t), After(w, step, t).tasks[k])
  {
  }

  lemma InvariantStep(w: World, step: Step, t: Time)
    requires Invariant(w) && Enabled(w, step, t) && InOrder(w, step, t)
    ensures Invariant(After(w, step, t))
  {
    TimelyStep(w, step, t);
    ShutStep(w, step, t);
    var after := After(w, step, t);
    forall k | k in after.tasks ensures TaskSealed(after, after.tasks[k]) {
      SealedStep(w, step, t, k);
    }
  }

  // ---- Whole runs ----

  datatype Timed = Timed(step: Step, at: Time)

  ghost predicate IsRun(states: seq<World>, steps: seq<Timed>) {
    |states| == |steps| + 1 && forall i | 0 <= i < |steps| :: StepAt(states, steps, i)
  }

  ghost predicate StepAt(states: seq<World>, steps: seq<Timed>, i: nat)
    requires i < |steps| < |states|
  {
    Enabled(states[i], steps[i].step, steps[i].at) && states[i + 1] == After(states[i], steps[i].step, steps[i].at)
  }

  ghost predicate OrderedAt(states: seq<World>, steps: seq<Timed>, i: nat)
    requires i < |steps| < |states|
  {
    Enabled(states[i], steps[i].step, steps[i].at) && InOrder(states[i], steps[i].step, steps[i].at)
  }

  /** The state an installation starts from: nothing recorded, and what is
      stored under a name in use belongs to whoever uses it. */
  ghost predicate Fresh(w: World) {
    && Timely(w) && w.record.None? && !w.backfilled && !w.open && w.tasks == map[]
    && forall s | s in w.snaps :: !Foreign(w, s)
  }

  lemma {:induction false} RunKeepsInvariant(states: seq<World>, steps: seq<Timed>, i: nat)
    requires IsRun(states, steps) && Fresh(states[0]) && i <= |steps|
    requires forall k | 0 <= k < i :: OrderedAt(states, steps, k)
    ensures Invariant(states[i])
  {
    if i > 0 {
      RunKeepsInvariant(states, steps, i - 1);
      assert StepAt(states, steps, i - 1) && OrderedAt(states, steps, i - 1);
      InvariantStep(states[i - 1], steps[i - 1].step, steps[i - 1].at);
    }
  }

  /** Over every run in order, however its calls interleave, a listing that was
      noted after the last turnover had been witnessed, and is answered while
      the same customer holds the name, shows that customer's backups only. */
  lemma RunsShowOnlyOwn(states: seq<World>, steps: seq<Timed>, i: nat)
    requires IsRun(states, steps) && Fresh(states[0]) && i < |steps|
    requires forall k | 0 <= k < i :: OrderedAt(states, steps, k)
    requires StepAt(states, steps, i) && steps[i].step.Show?
    ensures var w, listing := states[i], states[i].tasks[steps[i].step.task];
            listing.told && w.holder == Some(listing.who) ==>
              forall s | s in ShownOf(w.record, listing.found) :: s.owner == listing.who.id
  {
    RunKeepsInvariant(states, steps, i);
    var w := states[i];
    var listing := w.tasks[steps[i].step.task];
    assert TaskSealed(w, listing) && TaskTimely(w, listing);
  }

  // ---- Boundaries over runs ----

  /** No boundary has been recorded since the read that the write would go
      back behind: what is there is what was read, or not later than what the
      call itself sets. */
  predicate Unpassed(current: Option<Identity>, work: Work, copy: Option<Identity>, backfilled: bool) {
    current.Some? && current.value.recycled ==>
      var since := current.value.sinceAt;
      match work
      case Note(who, now, _) =>
        if Active(copy) && copy.value.uid == who.uid && copy.value.sinceAt != 0 then SameBoundary(copy, since)
        else Noted(copy, who.uid, backfilled, now).recycled && since <= now
      case Create(_, at) => since <= at
      case Inherit(from, _) => from.recycled && since <= from.sinceAt
      case _ => SameBoundary(copy, since)
  }

  predicate SameBoundary(copy: Option<Identity>, since: Time) {
    copy.Some? && copy.value.recycled && copy.value.sinceAt == since
  }

  /** For one write that is exactly when the boundary is kept or moved later. */
  lemma LaterIff(current: Option<Identity>, work: Work, copy: Option<Identity>, backfilled: bool, t: Time)
    requires Writes(work, copy) && Later(copy, current)
    ensures Later(current, Some(Written(work, copy, backfilled, t))) <==> Unpassed(current, work, copy, backfilled)
  {
  }

  ghost predicate UnpassedAt(states: seq<World>, steps: seq<Timed>, k: nat)
    requires k < |steps| < |states|
  {
    var w, step := states[k], steps[k].step;
    step.Write? && step.task in w.tasks && w.tasks[step.task].Holding? ==>
      Unpassed(w.record, w.tasks[step.task].work, w.tasks[step.task].copy, w.backfilled)
  }

  ghost predicate Forward(states: seq<World>, i: nat, j: nat)
    requires i <= j < |states|
  {
    Later(states[i].record, states[j].record)
  }

  /** No call holds a boundary later than the one on record. */
  ghost predicate CopiesBehind(w: World) {
    forall k | k in w.tasks && w.tasks[k].Holding? :: Later(w.tasks[k].copy, w.record)
  }

  lemma BoundaryStep(w: World, step: Step, t: Time)
    requires Enabled(w, step, t) && CopiesBehind(w) && !step.Drop?
    ensures Later(w.record, After(w, step, t).record) <==>
            (step.Write? ==> Unpassed(w.record, w.tasks[step.task].work, w.tasks[step.task].copy, w.backfilled))
    ensures Later(w.record, After(w, step, t).record) ==> CopiesBehind(After(w, step, t))
  {
    if step.Write? {
      LaterIff(w.record, w.tasks[step.task].work, w.tasks[step.task].copy, w.backfilled, t);
    }
  }

  /** Over every run without a forgetting a name's boundary is never cleared or
      moved earlier, if and only if no write goes back behind a boundary
      recorded since its read. */
  lemma {:induction false} BoundaryOverRuns(states: seq<World>, steps: seq<Timed>, n: nat)
    requires IsRun(states, steps) && states[0].tasks == map[] && n <= |steps|
    requires forall k | 0 <= k < n :: !steps[k].step.Drop?
    ensures (forall k | 0 <= k < n :: UnpassedAt(states, steps, k)) <==>
            (forall i, j | 0 <= i <= j <= n :: Forward(states, i, j))
    ensures (forall k | 0 <= k < n :: UnpassedAt(states, steps, k)) ==> CopiesBehind(states[n])
  {
    if n > 0 {
      BoundaryOverRuns(states, steps, n - 1);
      assert StepAt(states, steps, n - 1);
      if forall k | 0 <= k < n - 1 :: UnpassedAt(states, steps, k) {
        BoundaryStep(states[n - 1], steps[n - 1].step, steps[n - 1].at);
        assert UnpassedAt(states, steps, n - 1) <==> Forward(states, n - 1, n);
        if UnpassedAt(states, steps, n - 1) {
          forall i, j | 0 <= i <= j <= n ensures Forward(states, i, j) {
            if j == n && i < n { assert Forward(states, i, n - 1); }
          }
        }
      } else {
        assert exists i, j :: 0 <= i <= j <= n - 1 && !Forward(states, i, j);
      }
    }
  }

  // ---- One call at a time ----

  /** Read and written with nothing between. */
  ghost function ReadThen(w: World, k: nat, work: Work, t: Time): World
    requires k !in w.tasks && w.now < t && Starts(w, work, t)
  {
    After(After(w, Start(k, work), t), Read(k), t + 1)
  }

  /** Then a note, a create event and a remove event leave the record they leave
      on their own, and an event that is on record already is done at its read. */
  lemma NoteAlone(w: World, k: nat, t: Time)
    requires k !in w.tasks && w.now < t && w.holder.Some?
    ensures var who := w.holder.value;
            var noted := ReadThen(w, k, Note(who, t, false), t);
            && Enabled(noted, Write(k), t + 2) && After(noted, Write(k), t + 2).tasks == w.tasks
            && After(noted, Write(k), t + 2).record == Some(Noted(w.record, who.uid, w.backfilled, t))
  {
    var noted := ReadThen(w, k, Note(w.holder.value, t, false), t);
    assert After(noted, Write(k), t + 2).tasks == w.tasks;
  }

  lemma CreateAlone(w: World, k: nat, at: Time, t: Time)
    requires k !in w.tasks && w.now < t && w.holder.Some? && at != 0 && at <= t
    ensures var who := w.holder.value;
            var created := ReadThen(w, k, Create(who, at), t);
            if Known(w.record, at) then created.record == w.record && created.tasks == w.tasks
            else
              && Enabled(created, Write(k), t + 2) && After(created, Write(k), t + 2).tasks == w.tasks
              && After(created, Write(k), t + 2).record == Some(Created(w.record, who.uid, at))
              && (who.start <= at ==> !After(created, Write(k), t + 2).open)
    ensures Known(w.record, at) && w.holder.value.start <= at ==>
              !ReadThen(w, k, Create(w.holder.value, at), t).open
  {
    var created := ReadThen(w, k, Create(w.holder.value, at), t);
    if Known(w.record, at) {
      assert created.tasks == w.tasks;
    } else {
      assert After(created, Write(k), t + 2).tasks == w.tasks;
    }
  }

  lemma RemoveAlone(w: World, k: nat, t: Time)
    requires k !in w.tasks && w.now < t
    ensures var removed := ReadThen(w, k, Remove, t);
            if !Active(w.record) then removed.record == w.record && removed.tasks == w.tasks
            else
              && Enabled(removed, Write(k), t + 2) && After(removed, Write(k), t + 2).tasks == w.tasks
              && After(removed, Write(k), t + 2).record == Removed(w.record, t + 2)
              && !After(removed, Write(k), t + 2).open
    ensures w.record.Some? && w.record.value.retiredAt.Some? ==> !ReadThen(w, k, Remove, t).open
  {
    var removed := ReadThen(w, k, Remove, t);
    if Active(w.record) {
      assert After(removed, Write(k), t + 2).tasks == w.tasks;
    } else {
      assert removed.tasks == w.tasks;
    }
  }

  /** A pass puts back a record in force of the uid it finds, and no other; a
      record goes to a name that has none and the same uid, and no other; and
      what is taken away is retired. */
  lemma PassAlone(w: World, k: nat, t: Time)
    requires k !in w.tasks && w.now < t && w.holder.Some?
    ensures var listed := ReadThen(w, k, PutBack(false), t);
            && !Enabled(listed, Write(k), t + 2)
            && (Enabled(listed, Look(k), t + 2) <==> Active(w.record) && w.record.value.uid == w.holder.value.uid)
            && (Enabled(listed, Look(k), t + 2) ==>
                  var seen := After(listed, Look(k), t + 2);
                  Enabled(seen, Write(k), t + 3) && After(seen, Write(k), t + 3).record == w.record)
  {
  }

  lemma RenameAlone(w: World, k: nat, from: Identity, t: Time)
    requires k !in w.tasks && w.now < t && w.holder.Some? && from.retiredAt.None? && from.sinceAt <= t
    ensures var listed := ReadThen(w, k, Inherit(from, false), t);
            && !Enabled(listed, Write(k), t + 2)
            && (Enabled(listed, Look(k), t + 2) <==> from.uid == w.holder.value.uid)
            && (Enabled(listed, Look(k), t + 2) ==>
                  var seen := After(listed, Look(k), t + 2);
                  && (Enabled(seen, Write(k), t + 3) <==> w.record.None?)
                  && (w.record.None? ==>
                        After(seen, Write(k), t + 3).record == Some(Identity(from.uid, from.sinceAt, from.recycled, None))))
  {
  }

  lemma AbsentAlone(w: World, k: nat, t: Time)
    requires k !in w.tasks && w.now < t && w.holder.None?
    ensures var listed := ReadThen(w, k, TakeAway, t);
            && (Enabled(listed, Write(k), t + 2) <==> Active(w.record))
            && (Active(w.record) ==> After(listed, Write(k), t + 2).record == Removed(w.record, t + 2))
  {
  }

  lemma ForgetAlone(w: World, k: nat, t: Time)
    requires k !in w.tasks && w.now < t && w.record.Some? && w.record.value.retiredAt.Some?
    ensures var forgetting := After(w, StartForget(k), t);
            && Enabled(forgetting, Prune({}), t + 1) && Enabled(After(forgetting, Prune({}), t + 1), Drop(k), t + 2)
            && (Enabled(forgetting, Drop(k), t + 1) <==> w.snaps == {})
            && After(After(forgetting, Prune({}), t + 1), Drop(k), t + 2).record == None
            && After(After(forgetting, Prune({}), t + 1), Drop(k), t + 2).tasks == w.tasks
  {
    assert After(After(After(w, StartForget(k), t), Prune({}), t + 1), Drop(k), t + 2).tasks == w.tasks;
    if w.snaps != {} {
      var s :| s in w.snaps;
      assert !(w.snaps !! w.snaps);
    }
  }

  /** The backfill records whoever holds a name without a record, if that can be
      read, and changes no other record. */
  lemma BackfillAlone(w: World, t: Time)
    requires w.now < t && !w.backfilled && w.tasks == map[] && w.holder.Some?
    ensures After(w, Backfill(true), t).record ==
            if w.record.Some? then w.record else Some(Identity(w.holder.value.uid, t, false, None))
    ensures After(w, Backfill(false), t).record == w.record
    ensures After(w, Backfill(true), t).backfilled && After(w, Backfill(false), t).backfilled
  {
  }

  /** Backups are the holder's, dated when they are stored, and none goes by
      itself. */
  lemma BackupAlone(w: World, k: nat, t: Time)
    requires k !in w.tasks && w.now < t && w.holder.Some?
    ensures var backing := After(w, StartBackup(k), t);
            && Enabled(backing, Store(k), t + 1) && After(backing, Store(k), t + 1).record == w.record
            && After(backing, Store(k), t + 1).snaps == w.snaps + {Snap(w.holder.value.id, t + 1)}
            && After(After(backing, Store(k), t + 1), GiveUp(k), t + 2).tasks == w.tasks
  {
  }

  // ---- One listing ----

  /** What the holder is shown when it looks at time t and nothing interrupts. */
  ghost function Shown(w: World, t: Time): set<Snap>
    requires w.holder.Some?
  {
    ShownOf(Some(Noted(w.record, w.holder.value.uid, w.backfilled, t)), w.snaps)
  }

  ghost predicate ShowsOnlyOwn(w: World, t: Time)
    requires w.holder.Some?
  {
    forall s | s in Shown(w, t) :: s.owner == w.holder.value.id
  }

  /** It is what the five steps of a listing come to. */
  lemma ListingSteps(w: World, k: nat, t: seq<Time>)
    requires w.holder.Some? && k !in w.tasks && |t| == 4 && w.now < t[0] < t[1] < t[2] < t[3]
    ensures var w1 := After(w, Start(k, Note(w.holder.value, t[0], true)), t[0]);
            var w2 := After(w1, Read(k), t[1]);
            var w3 := After(w2, Write(k), t[2]);
            var w4 := After(w3, Fetch(k), t[3]);
            w4.tasks[k].Showing? && ShownOf(w4.record, w4.tasks[k].found) == Shown(w, t[0])
  {
  }

  /** A listing is safe exactly when every stranger's backup is shut out by
      the record as it stands before the call. */
  lemma ListingIff(w: World, t: Time)
    requires Timely(w) && w.now < t && w.holder.Some?
    requires w.record.Some? ==> w.record.value.sinceAt != 0
    ensures ShowsOnlyOwn(w, t) <==>
            forall s | Foreign(w, s) :: Shut(w.record, w.holder.value.uid, w.backfilled, s.at)
  {
    forall s | Foreign(w, s)
      ensures s in Shown(w, t) <==> !Shut(w.record, w.holder.value.uid, w.backfilled, s.at)
    {
    }
  }

  /** A write leaves the next listing safe exactly when what it writes shuts
      out every stranger's backup. */
  lemma WriteSafeIff(w: World, task: nat, t: Time, u: Time)
    requires Timely(w) && w.holder.Some? && Enabled(w, Write(task), t) && t < u
    requires Written(w.tasks[task].work, w.tasks[task].copy, w.backfilled, t).sinceAt != 0
    ensures var written := Written(w.tasks[task].work, w.tasks[task].copy, w.backfilled, t);
            ShowsOnlyOwn(After(w, Write(task), t), u) <==>
            forall s | Foreign(w, s) :: Shut(Some(written), w.holder.value.uid, w.backfilled, s.at)
  {
    var after := After(w, Write(task), t);
    var again := w.(record := after.record, now := t, tasks := map[]);
    assert TaskTimely(w, w.tasks[task]);
    forall s ensures Foreign(again, s) <==> Foreign(w, s) {}
    ListingIff(again, u);
  }

  /** For the present holder's create event, or one replayed late, when every
      stranger's backup is older than what the event says. */
  lemma CreateSafeIff(w: World, task: nat, t: Time, u: Time)
    requires Timely(w) && Enabled(w, Write(task), t) && t < u
    requires w.tasks[task].work.Create? && w.tasks[task].work.at != 0 && w.holder == Some(w.tasks[task].work.who)
    ensures ShowsOnlyOwn(After(w, Write(task), t), u) <==>
            forall s | Foreign(w, s) :: s.at < w.tasks[task].work.at
  {
    WriteSafeIff(w, task, t, u);
  }

  /** For a rename, when the moved boundary hides every stranger's backup under
      the new name. */
  lemma RenameSafeIff(w: World, task: nat, t: Time, u: Time)
    requires Timely(w) && Enabled(w, Write(task), t) && t < u && w.holder.Some?
    requires w.tasks[task].work.Inherit? && w.tasks[task].work.from.sinceAt != 0
    requires w.tasks[task].work.from.uid == w.holder.value.uid
    ensures ShowsOnlyOwn(After(w, Write(task), t), u) <==>
            forall s | Foreign(w, s) :: w.tasks[task].work.from.recycled && s.at < w.tasks[task].work.from.sinceAt
  {
    WriteSafeIff(w, task, t, u);
  }

  /** Which the engine can see to without knowing whose they are: it is enough
      that everything stored under the new name is hidden by the boundary. */
  lemma RenameSafeWhenAllHidden(w: World, task: nat, t: Time, u: Time)
    requires Timely(w) && Enabled(w, Write(task), t) && t < u && w.holder.Some?
    requires w.tasks[task].work.Inherit? && w.tasks[task].work.from.sinceAt != 0
    requires w.tasks[task].work.from.uid == w.holder.value.uid
    requires forall s | s in w.snaps || Stranger(w, s) ::
               w.tasks[task].work.from.recycled && s.at < w.tasks[task].work.from.sinceAt
    ensures InOrder(w, Write(task), t) && ShowsOnlyOwn(After(w, Write(task), t), u)
  {
    RenameSafeIff(w, task, t, u);
  }

  /** A backup stored after the name changed hands leaves the next listing safe
      exactly when it was safe before and the record hides this one too. */
  lemma LateBackupIff(w: World, task: nat, t: Time, u: Time)
    requires Timely(w) && w.holder.Some? && Enabled(w, Store(task), t) && t < u
    requires w.tasks[task].who.id != w.holder.value.id && (w.record.Some? ==> w.record.value.sinceAt != 0)
    ensures ShowsOnlyOwn(After(w, Store(task), t), u) <==>
            ShowsOnlyOwn(w, u) && Evidence(w.record, w.holder.value.uid, w.backfilled)
  {
    var after, late := After(w, Store(task), t), Snap(w.tasks[task].who.id, t);
    assert forall s :: s in after.snaps <==> s in w.snaps || s == late;
    assert late in Shown(after, u) <==> !Evidence(w.record, w.holder.value.uid, w.backfilled);
    forall s | s != late ensures s in Shown(after, u) <==> s in Shown(w, u) {}
    assert late.owner != w.holder.value.id;
  }
}
