/** The single-flight cache of what a snapshot's containers hold
    (internal/inventory/cache.go), as the steps its callers take under and
    outside the mutex, in any interleaving. */
module InventoryCache {
  import opened NodeStore

  // ---- Keys ----

  /** What the entries map is indexed by. */
  function CacheKey(sourceKey: string, snapshotId: string): string {
    sourceKey + "\0" + snapshotId
  }

  /** Two sources share an entry only when they are the same snapshot of the
      same repository, as long as no repository key holds a zero byte. */
  lemma KeyIsUnambiguous(a: string, x: string, b: string, y: string)
    requires '\0' !in a && '\0' !in b && CacheKey(a, x) == CacheKey(b, y)
    ensures a == b && x == y
  {
    var k, m := CacheKey(a, x), CacheKey(b, y);
    assert k[|a|] == '\0' && m[|b|] == '\0';
    assert forall i | 0 <= i < |a| :: k[i] == a[i] && a[i] in a;
    assert forall i | 0 <= i < |b| :: m[i] == b[i] && b[i] in b;
    assert |a| == |b|;
    assert k[..|a|] == a && m[..|b|] == b && k[|a| + 1..] == x && m[|b| + 1..] == y;
  }

  // ---- The cache and its callers ----

  datatype Answer<V> = Held(value: V) | Failure

  /** One reading, done or in progress, and the call that makes it. What it
      answers means nothing before it is done. */
  datatype Entry<K, V> = Entry(key: K, reader: nat, done: bool, answer: Answer<V>, readAt: Time)

  /** Where one call of contents has got to. */
  datatype Caller<K, V> =
    | Called(key: K)
    | Reading(key: K, entry: nat)                     // holds no lock, the repository is being read
    | HasRead(key: K, entry: nat, answer: Answer<V>)  // the read came back, nothing is published yet
    | Waiting(key: K, entry: nat)                     // on the done channel of somebody else's reading
    | Returned(key: K, answer: Answer<V>)
    | GaveUp(key: K)

  /** `readings` is every read of the repository that came back, and `forgets`
      counts the Forget calls for each key. */
  datatype Cache<K, V> = Cache(
    ttl: int,
    now: Time,
    entries: map<K, nat>,
    heap: seq<Entry<K, V>>,
    callers: map<nat, Caller<K, V>>,
    readings: seq<(K, Answer<V>)>,
    forgets: map<K, nat>)

  datatype Step<K, V> =
    | Call(id: nat, key: K)
    | Enter(id: nat)                     // first critical section
    | Wake(id: nat)                      // the done channel was closed
    | Cancel(id: nat)                    // the caller's context ended first
    | ReadBack(id: nat, answer: Answer<V>)
    | Publish(id: nat)                   // second critical section
    | Forget(key: K)
    | Tick(now: Time)

  predicate Enabled<K(==), V(==)>(c: Cache<K, V>, step: Step<K, V>) {
    match step
    case Call(id, _) => id !in c.callers
    case Enter(id) => id in c.callers && c.callers[id].Called? && InHeap(c, c.callers[id].key)
    case Wake(id) =>
      && id in c.callers && c.callers[id].Waiting?
      && c.callers[id].entry < |c.heap| && c.heap[c.callers[id].entry].done
    case Cancel(id) => id in c.callers && c.callers[id].Waiting?
    case ReadBack(id, _) => id in c.callers && c.callers[id].Reading?
    case Publish(id) => id in c.callers && c.callers[id].HasRead? && c.callers[id].entry < |c.heap|
    case Forget(_) => true
    case Tick(now) => c.now <= now
  }

  predicate InHeap<K(==), V>(c: Cache<K, V>, key: K) {
    key in c.entries ==> c.entries[key] < |c.heap|
  }

  function Begin<K(==), V>(c: Cache<K, V>, id: nat, key: K): Cache<K, V> {
    c.(heap := c.heap + [Entry(key, id, false, Failure, 0)],
       entries := c.entries[key := |c.heap|],
       callers := c.callers[id := Reading(key, |c.heap|)])
  }

  function After<K(==), V(==)>(c: Cache<K, V>, step: Step<K, V>): Cache<K, V>
    requires Enabled(c, step)
  {
    match step
    case Call(id, key) => c.(callers := c.callers[id := Called(key)])
    case Enter(id) =>
      var key := c.callers[id].key;
      if key !in c.entries then Begin(c, id, key)
      else
        var found := c.heap[c.entries[key]];
        if !found.done then c.(callers := c.callers[id := Waiting(key, c.entries[key])])
        else if c.now - found.readAt < c.ttl then c.(callers := c.callers[id := Returned(key, found.answer)])
        else Begin(c, id, key)
    case Wake(id) =>
      var found := c.heap[c.callers[id].entry];
      c.(callers := c.callers[id := Returned(c.callers[id].key, found.answer)])
    case Cancel(id) => c.(callers := c.callers[id := GaveUp(c.callers[id].key)])
    case ReadBack(id, answer) =>
      var caller := c.callers[id];
      c.(callers := c.callers[id := HasRead(caller.key, caller.entry, answer)], readings := c.readings + [(caller.key, answer)])
    case Publish(id) =>
      var caller := c.callers[id];
      var key, pending := caller.key, caller.entry;
      var kept := if caller.answer.Failure? && key in c.entries && c.entries[key] == pending
                  then c.entries - {key} else c.entries;
      c.(heap := c.heap[pending := Entry(key, id, true, caller.answer, c.now)], entries := kept,
         callers := c.callers[id := Returned(key, caller.answer)])
    case Forget(key) =>
      c.(entries := c.entries - {key}, forgets := c.forgets[key := Forgets(c, key) + 1])
    case Tick(now) => c.(now := now)
  }

  function Forgets<K(==), V>(c: Cache<K, V>, key: K): nat {
    if key in c.forgets then c.forgets[key] else 0
  }

  // ---- What every interleaving keeps ----

  predicate IsReading<K(==), V>(c: Cache<K, V>, id: nat) {
    id in c.callers && (c.callers[id].Reading? || c.callers[id].HasRead?)
  }

  /** A reading of this key that is in progress. */
  predicate InProgress<K(==), V>(c: Cache<K, V>, key: K, e: nat) {
    e < |c.heap| && !c.heap[e].done && c.heap[e].key == key
  }

  ghost predicate Linked<K(!new), V(!new)>(c: Cache<K, V>) {
    EntriesLinked(c) && (forall id :: ReadingLinked(c, id)) && WaitersLinked(c)
  }

  ghost predicate EntriesLinked<K(!new), V(!new)>(c: Cache<K, V>) {
    forall k | k in c.entries :: c.entries[k] < |c.heap| && c.heap[c.entries[k]].key == k
  }

  ghost predicate WaitersLinked<K(!new), V(!new)>(c: Cache<K, V>) {
    forall id | id in c.callers && c.callers[id].Waiting? ::
      c.callers[id].entry < |c.heap| && c.heap[c.callers[id].entry].key == c.callers[id].key
  }

  ghost predicate ReadingLinked<K(!new), V(!new)>(c: Cache<K, V>, id: nat) {
    IsReading(c, id) ==>
      InProgress(c, c.callers[id].key, c.callers[id].entry) && c.heap[c.callers[id].entry].reader == id
  }

  /** What is done, or about to be, or was returned, some read came back with. */
  ghost predicate Truthful<K(!new), V(!new)>(c: Cache<K, V>) {
    && (forall e | 0 <= e < |c.heap| && c.heap[e].done :: (c.heap[e].key, c.heap[e].answer) in c.readings)
    && (forall id | id in c.callers && c.callers[id].HasRead? :: (c.callers[id].key, c.callers[id].answer) in c.readings)
    && (forall id | id in c.callers && c.callers[id].Returned? :: (c.callers[id].key, c.callers[id].answer) in c.readings)
  }

  /** The readings in progress that the entries map has lost sight of. */
  ghost function Orphans<K, V>(c: Cache<K, V>, key: K): set<nat> {
    set e: nat | e < |c.heap| && InProgress(c, key, e) && !(key in c.entries && c.entries[key] == e)
  }

  ghost predicate FewOrphans<K(!new), V(!new)>(c: Cache<K, V>) {
    forall key :: |Orphans(c, key)| <= Forgets(c, key)
  }

  ghost predicate Invariant<K(!new), V(!new)>(c: Cache<K, V>) {
    Linked(c) && Truthful(c) && FewOrphans(c)
  }

  lemma EntriesStep<K(!new), V(!new)>(c: Cache<K, V>, step: Step<K, V>)
    requires Linked(c) && Enabled(c, step)
    ensures EntriesLinked(After(c, step)) && WaitersLinked(After(c, step))
  {
    if step.Publish? {
      PublishKeepsEntries(c, step.id);
    } else if step.Enter? {
      EnterKeepsEntries(c, step.id);
    }
  }

  lemma PublishKeepsEntries<K(!new), V(!new)>(c: Cache<K, V>, id: nat)
    requires Linked(c) && Enabled(c, Publish(id))
    ensures EntriesLinked(After(c, Publish(id))) && WaitersLinked(After(c, Publish(id)))
  {
    assert ReadingLinked(c, id);
  }

  lemma EnterKeepsEntries<K(!new), V(!new)>(c: Cache<K, V>, id: nat)
    requires Linked(c) && Enabled(c, Enter(id))
    ensures EntriesLinked(After(c, Enter(id))) && WaitersLinked(After(c, Enter(id)))
  {
  }

  lemma ReadingStep<K(!new), V(!new)>(c: Cache<K, V>, step: Step<K, V>, id: nat)
    requires Linked(c) && Enabled(c, step)
    ensures ReadingLinked(After(c, step), id)
  {
    assert ReadingLinked(c, id);
    if step.Publish? { assert ReadingLinked(c, step.id); }
  }

  lemma LinkedStep<K(!new), V(!new)>(c: Cache<K, V>, step: Step<K, V>)
    requires Linked(c) && Enabled(c, step)
    ensures Linked(After(c, step))
  {
    var after := After(c, step);
    EntriesStep(c, step);
    forall id ensures ReadingLinked(after, id) {
      ReadingStep(c, step, id);
    }
  }

  /** Only Forget loses sight of a reading, and of one at a time. */
  lemma OrphansStep<K(!new), V(!new)>(c: Cache<K, V>, step: Step<K, V>, key: K)
    requires Linked(c) && FewOrphans(c) && Enabled(c, step)
    ensures |Orphans(After(c, step), key)| <= Forgets(After(c, step), key)
  {
    var after := After(c, step);
    var before, now := Orphans(c, key), Orphans(after, key);
    if step == Forget(key) && key in c.entries {
      assert now <= before + {c.entries[key]};
      SubsetCardinality(now, before + {c.entries[key]});
    } else {
      assert step.Enter? && |after.heap| > |c.heap| && c.callers[step.id].key == key ==> after.entries[key] == |c.heap|;
      assert now <= before;
      SubsetCardinality(now, before);
    }
  }

  lemma InvariantStep<K(!new), V(!new)>(c: Cache<K, V>, step: Step<K, V>)
    requires Invariant(c) && Enabled(c, step)
    ensures Invariant(After(c, step))
  {
    LinkedStep(c, step);
    forall key ensures |Orphans(After(c, step), key)| <= Forgets(After(c, step), key) {
      OrphansStep(c, step, key);
    }
  }

  // ---- Runs ----

  ghost predicate Start<K(!new), V(!new)>(c: Cache<K, V>) {
    c.entries == map[] && c.heap == [] && c.callers == map[] && c.readings == [] && c.forgets == map[]
  }

  ghost predicate IsRun<K(!new), V(!new)>(states: seq<Cache<K, V>>, steps: seq<Step<K, V>>) {
    && |states| == |steps| + 1 && Start(states[0])
    && forall i | 0 <= i < |steps| :: StepAt(states, steps, i)
  }

  ghost predicate StepAt<K(!new), V(!new)>(states: seq<Cache<K, V>>, steps: seq<Step<K, V>>, i: nat)
    requires i < |steps| < |states|
  {
    Enabled(states[i], steps[i]) && states[i + 1] == After(states[i], steps[i])
  }

  lemma {:induction false} RunKeepsInvariant<K(!new), V(!new)>(states: seq<Cache<K, V>>, steps: seq<Step<K, V>>, i: nat)
    requires IsRun(states, steps) && i <= |steps|
    ensures Invariant(states[i])
  {
    if i == 0 {
      forall key ensures Orphans(states[0], key) == {} {
      }
    } else {
      RunKeepsInvariant(states, steps, i - 1);
      assert StepAt(states, steps, i - 1);
      InvariantStep(states[i - 1], steps[i - 1]);
    }
  }

  /** When the containers of a snapshot always read the same, every result that
      is not an error is what a direct read of that snapshot gives. */
  lemma ResultsAreReads<K(!new), V(!new)>(states: seq<Cache<K, V>>, steps: seq<Step<K, V>>, i: nat, id: nat, truth: K -> V)
    requires IsRun(states, steps) && i <= |steps|
    requires forall r | r in states[i].readings && r.1.Held? :: r.1.value == truth(r.0)
    requires id in states[i].callers && states[i].callers[id].Returned? && states[i].callers[id].answer.Held?
    ensures states[i].callers[id].answer.value == truth(states[i].callers[id].key)
  {
    RunKeepsInvariant(states, steps, i);
    var caller := states[i].callers[id];
    assert (caller.key, caller.answer) in states[i].readings;
  }

  /** The readings of a key that are in progress. */
  ghost function Readers<K(!new), V(!new)>(c: Cache<K, V>, key: K): set<nat> {
    set id | id in c.callers && IsReading(c, id) && c.callers[id].key == key
  }

  /** Each Forget of a key lets at most one more read of it run beside the
      others; without one there is never more than a single read. */
  lemma ReadsAtOnce<K(!new), V(!new)>(states: seq<Cache<K, V>>, steps: seq<Step<K, V>>, i: nat, key: K)
    requires IsRun(states, steps) && i <= |steps|
    ensures |Readers(states[i], key)| <= 1 + ForgetsOf(steps[..i], key)
  {
    ForgetsCounted(states, steps, i, key);
    RunKeepsInvariant(states, steps, i);
    var c := states[i];
    var shown := if key in c.entries then {c.entries[key]} else {};
    forall id | id in Readers(c, key) ensures c.callers[id].entry in Orphans(c, key) + shown {
      assert ReadingLinked(c, id) && InProgress(c, key, c.callers[id].entry);
    }
    ReadersAreFewer(c, Readers(c, key), Orphans(c, key) + shown);
  }

  lemma {:induction false} ReadersAreFewer<K(!new), V(!new)>(c: Cache<K, V>, readers: set<nat>, entries: set<nat>)
    requires Linked(c)
    requires forall id | id in readers ::
               IsReading(c, id) && c.callers[id].entry in entries
    ensures |readers| <= |entries|
  {
    if readers != {} {
      var id :| id in readers;
      var e := c.callers[id].entry;
      assert ReadingLinked(c, id) && c.heap[e].reader == id;
      forall other | other in readers && other != id ensures c.callers[other].entry != e {
        assert ReadingLinked(c, other);
      }
      ReadersAreFewer(c, readers - {id}, entries - {e});
    }
  }

  /** What a reading answers never changes once it is done, and no step returns
      an answer to a caller that is not the answer of a done reading or of its
      own read. */
  lemma AnswersAreFinal<K(!new), V(!new)>(c: Cache<K, V>, step: Step<K, V>)
    requires Invariant(c) && Enabled(c, step)
    ensures forall e | 0 <= e < |c.heap| && c.heap[e].done :: After(c, step).heap[e] == c.heap[e]
    ensures forall id | id in c.callers && !c.callers[id].Returned? && After(c, step).callers[id].Returned? ::
              || (c.callers[id].HasRead? && After(c, step).callers[id].answer == c.callers[id].answer)
              || exists e | 0 <= e < |c.heap| && c.heap[e].done && c.heap[e].key == c.callers[id].key ::
                   After(c, step).callers[id].answer == c.heap[e].answer
  {
    if step.Publish? {
      assert ReadingLinked(c, step.id);
    }
  }

  /** A failed read takes away nothing but its own entry, and no read takes
      away an entry made after it. */
  lemma FailureEvictsOnlyItself<K(!new), V(!new)>(c: Cache<K, V>, id: nat, key: K)
    requires Invariant(c) && Enabled(c, Publish(id))
    ensures var after := After(c, Publish(id));
            && (key in after.entries <==>
                  key in c.entries && !(c.callers[id].answer.Failure? && c.entries[key] == c.callers[id].entry))
            && (key in after.entries ==> after.entries[key] == c.entries[key])
  {
    assert ReadingLinked(c, id);
  }

  /** Forgetting takes away what is remembered of one key, whatever is being
      done with it, and is counted once. */
  lemma ForgetForgets<K(!new), V(!new)>(c: Cache<K, V>, key: K)
    ensures var after := After(c, Forget(key));
            && Enabled(c, Forget(key)) && after.entries == c.entries - {key}
            && after.heap == c.heap && after.callers == c.callers && after.readings == c.readings
  {
  }

  ghost function ForgetsOf<K(!new), V(!new)>(steps: seq<Step<K, V>>, key: K): nat {
    if steps == [] then 0
    else ForgetsOf(steps[..|steps| - 1], key) + if steps[|steps| - 1] == Forget(key) then 1 else 0
  }

  lemma {:induction false} ForgetsCounted<K(!new), V(!new)>(
    states: seq<Cache<K, V>>, steps: seq<Step<K, V>>, i: nat, key: K)
    requires IsRun(states, steps) && i <= |steps|
    ensures Forgets(states[i], key) == ForgetsOf(steps[..i], key)
  {
    if i > 0 {
      ForgetsCounted(states, steps, i - 1, key);
      assert StepAt(states, steps, i - 1);
      assert steps[..i][..i - 1] == steps[..i - 1];
    }
  }

  // ---- What is remembered, and for how long ----

  /** Step j publishes this answer for this key. */
  ghost predicate Publishes<K(!new), V(!new)>(
    states: seq<Cache<K, V>>, steps: seq<Step<K, V>>, j: nat, key: K, answer: Answer<V>)
    requires |states| == |steps| + 1
  {
    && j < |steps| && steps[j].Publish? && steps[j].id in states[j].callers
    && states[j].callers[steps[j].id].HasRead?
    && states[j].callers[steps[j].id].key == key && states[j].callers[steps[j].id].answer == answer
  }

  ghost predicate NoForget<K(!new), V(!new)>(steps: seq<Step<K, V>>, j: nat, i: nat, key: K)
    requires i <= |steps|
  {
    forall k | j < k < i :: steps[k] != Forget(key)
  }

  /** What a key is mapped to, once done, was published successfully at the
      time it carries and has not been forgotten since. */
  ghost predicate Remembers<K(!new), V(!new)>(
    states: seq<Cache<K, V>>, steps: seq<Step<K, V>>, i: nat, key: K, j: nat)
    requires |states| == |steps| + 1 && j < i <= |steps|
    requires key in states[i].entries && states[i].entries[key] < |states[i].heap|
  {
    var found := states[i].heap[states[i].entries[key]];
    && Publishes(states, steps, j, key, found.answer) && found.answer.Held?
    && found.readAt == states[j].now && NoForget(steps, j, i, key)
  }

  lemma {:induction false} MappedWasPublished<K(!new), V(!new)>(
    states: seq<Cache<K, V>>, steps: seq<Step<K, V>>, i: nat, key: K) returns (j: nat)
    requires IsRun(states, steps) && i <= |steps|
    requires key in states[i].entries && states[i].entries[key] < |states[i].heap|
    requires states[i].heap[states[i].entries[key]].done
    ensures j < i && Remembers(states, steps, i, key, j)
  {
    assert i > 0;
    var before, step, e := states[i - 1], steps[i - 1], states[i].entries[key];
    RunKeepsInvariant(states, steps, i - 1);
    assert StepAt(states, steps, i - 1);
    if step.Publish? { assert ReadingLinked(before, step.id); }
    if step.Publish? && before.callers[step.id].entry == e {
      j := i - 1;
    } else {
      j := MappedWasPublished(states, steps, i - 1, key);
    }
  }

  /** An answer that is handed out of memory is never an error, was published
      for that key less than the time to live ago, and was not forgotten. */
  lemma StaleAnswersAreReadAgain<K(!new), V(!new)>(
    states: seq<Cache<K, V>>, steps: seq<Step<K, V>>, i: nat, id: nat) returns (j: nat)
    requires IsRun(states, steps) && i < |steps| && steps[i] == Enter(id) && StepAt(states, steps, i)
    requires states[i + 1].callers[id].Returned?
    ensures var key, answer := states[i].callers[id].key, states[i + 1].callers[id].answer;
            && j < i && answer.Held? && Publishes(states, steps, j, key, answer)
            && states[i].now - states[j].now < states[i].ttl && NoForget(steps, j, i, key)
  {
    j := MappedWasPublished(states, steps, i, states[i].callers[id].key);
  }

  lemma {:induction false} TimePasses<K(!new), V(!new)>(states: seq<Cache<K, V>>, steps: seq<Step<K, V>>, j: nat, i: nat)
    requires IsRun(states, steps) && j <= i <= |steps|
    ensures states[j].now <= states[i].now && states[j].ttl == states[i].ttl
  {
    if j < i {
      TimePasses(states, steps, j, i - 1);
      assert StepAt(states, steps, i - 1);
    }
  }

  /** A reading that is done and fresh stays mapped, unless it is forgotten. */
  lemma MappedStep<K(!new), V(!new)>(c: Cache<K, V>, step: Step<K, V>, key: K)
    requires Invariant(c) && Enabled(c, step) && step != Forget(key)
    requires key in c.entries && c.entries[key] < |c.heap| && c.heap[c.entries[key]].done
    requires c.now - c.heap[c.entries[key]].readAt < c.ttl
    ensures var after, e := After(c, step), c.entries[key];
            key in after.entries && after.entries[key] == e && e < |after.heap| && after.heap[e] == c.heap[e]
  {
    if step.Publish? { assert ReadingLinked(c, step.id); }
  }

  lemma {:induction false} StaysMapped<K(!new), V(!new)>(
    states: seq<Cache<K, V>>, steps: seq<Step<K, V>>, j: nat, i: nat, key: K, answer: Answer<V>)
    requires IsRun(states, steps) && j < i <= |steps| && NoForget(steps, j, i, key)
    requires Publishes(states, steps, j, key, answer) && answer.Held?
    requires key in states[j].entries && states[j].entries[key] == states[j].callers[steps[j].id].entry
    requires states[i].now - states[j].now < states[j].ttl
    ensures key in states[i].entries && states[i].entries[key] == states[j].entries[key]
    ensures states[i].entries[key] < |states[i].heap|
    ensures var found := states[i].heap[states[i].entries[key]];
            found.done && found.answer == answer && found.readAt == states[j].now
  {
    RunKeepsInvariant(states, steps, i - 1);
    assert StepAt(states, steps, i - 1);
    if i == j + 1 {
      assert ReadingLinked(states[j], steps[j].id);
    } else {
      var before, step := states[i - 1], steps[i - 1];
      TimePasses(states, steps, j, i - 1);
      TimePasses(states, steps, i - 1, i);
      StaysMapped(states, steps, j, i - 1, key, answer);
      MappedStep(before, step, key);
    }
  }

  /** And one that was, by the reading the key was mapped to, is handed out:
      within the time to live nothing is read again unless it was forgotten. */
  lemma FreshAnswersAreReused<K(!new), V(!new)>(
    states: seq<Cache<K, V>>, steps: seq<Step<K, V>>, j: nat, i: nat, id: nat, answer: Answer<V>)
    requires IsRun(states, steps) && j < i < |steps| && steps[i] == Enter(id) && StepAt(states, steps, i)
    requires NoForget(steps, j, i, states[i].callers[id].key)
    requires Publishes(states, steps, j, states[i].callers[id].key, answer) && answer.Held?
    requires states[i].callers[id].key in states[j].entries
    requires states[j].entries[states[i].callers[id].key] == states[j].callers[steps[j].id].entry
    requires states[i].now - states[j].now < states[j].ttl
    ensures states[i + 1].callers[id] == Returned(states[i].callers[id].key, answer)
  {
    StaysMapped(states, steps, j, i, states[i].callers[id].key, answer);
    TimePasses(states, steps, j, i);
  }

  // ---- Every call is answered ----

  /** A caller is only ever without an answer because its context ended while it
      waited for somebody else's reading. */
  lemma {:induction false} OnlyWaitersGiveUp<K(!new), V(!new)>(
    states: seq<Cache<K, V>>, steps: seq<Step<K, V>>, i: nat, id: nat) returns (j: nat)
    requires IsRun(states, steps) && i <= |steps|
    requires id in states[i].callers && states[i].callers[id].GaveUp?
    ensures j < i && steps[j] == Cancel(id) && id in states[j].callers && states[j].callers[id].Waiting?
  {
    assert i > 0;
    assert StepAt(states, steps, i - 1);
    if id in states[i - 1].callers && states[i - 1].callers[id].GaveUp? {
      j := OnlyWaitersGiveUp(states, steps, i - 1, id);
    } else {
      j := i - 1;
    }
  }

  /** Whoever is making a reading in progress is still at it. */
  ghost predicate Live<K(!new), V(!new)>(c: Cache<K, V>) {
    forall e | 0 <= e < |c.heap| && !c.heap[e].done :: LiveAt(c, e)
  }

  ghost predicate LiveAt<K(!new), V(!new)>(c: Cache<K, V>, e: nat)
    requires e < |c.heap|
  {
    IsReading(c, c.heap[e].reader) && c.callers[c.heap[e].reader].entry == e
  }

  lemma LiveStep<K(!new), V(!new)>(c: Cache<K, V>, step: Step<K, V>)
    requires Invariant(c) && Live(c) && Enabled(c, step)
    ensures Live(After(c, step))
  {
    var after := After(c, step);
    if step.Publish? { assert ReadingLinked(c, step.id); }
    forall e | 0 <= e < |after.heap| && !after.heap[e].done ensures LiveAt(after, e) {
      if e < |c.heap| { assert LiveAt(c, e); }
    }
  }

  lemma {:induction false} RunStaysLive<K(!new), V(!new)>(states: seq<Cache<K, V>>, steps: seq<Step<K, V>>, i: nat)
    requires IsRun(states, steps) && i <= |steps|
    ensures Live(states[i])
  {
    if i > 0 {
      RunStaysLive(states, steps, i - 1);
      RunKeepsInvariant(states, steps, i - 1);
      assert StepAt(states, steps, i - 1);
      LiveStep(states[i - 1], steps[i - 1]);
    }
  }

  ghost predicate Leads<K(!new), V(!new)>(
    from: Cache<K, V>, steps: seq<Step<K, V>>, states: seq<Cache<K, V>>) {
    && |states| == |steps| + 1 && states[0] == from
    && forall i | 0 <= i < |steps| :: StepAt(states, steps, i)
  }

  /** No reading of the key is remembered, or the one that is has expired. */
  predicate MustRead<K(==), V(==)>(c: Cache<K, V>, key: K)
    requires InHeap(c, key)
  {
    key !in c.entries ||
    (c.heap[c.entries[key]].done && c.now - c.heap[c.entries[key]].readAt >= c.ttl)
  }

  /** Then a call reads the repository itself, once, and is answered with what
      that read comes back with, whatever it is. */
  lemma CallReads<K(!new), V(!new)>(c: Cache<K, V>, id: nat, answer: Answer<V>) returns (states: seq<Cache<K, V>>)
    requires Invariant(c) && id in c.callers && c.callers[id].Called?
    requires InHeap(c, c.callers[id].key) && MustRead(c, c.callers[id].key)
    ensures Leads(c, [Enter(id), ReadBack(id, answer), Publish(id)], states)
    ensures id in states[1].callers && states[1].callers[id].Reading? && states[1].readings == c.readings
    ensures var key, last := c.callers[id].key, states[3];
            && id in last.callers && last.callers[id] == Returned(key, answer)
            && last.readings == c.readings + [(key, answer)]
            && (answer.Held? ==> key in last.entries && last.entries[key] == |c.heap|)
            && (answer.Failure? ==> key !in last.entries)
  {
    var c1 := After(c, Enter(id));
    var c2 := After(c1, ReadBack(id, answer));
    var c3 := After(c2, Publish(id));
    states := [c, c1, c2, c3];
  }

  /** A remembered reading that has not expired answers at once, and nothing is
      read. */
  lemma CallRemembers<K(!new), V(!new)>(c: Cache<K, V>, id: nat)
    requires Invariant(c) && id in c.callers && c.callers[id].Called?
    requires c.callers[id].key in c.entries && InHeap(c, c.callers[id].key)
    requires var found := c.heap[c.entries[c.callers[id].key]]; found.done && c.now - found.readAt < c.ttl
    ensures var key, after := c.callers[id].key, After(c, Enter(id));
            && id in after.callers && after.callers[id] == Returned(key, c.heap[c.entries[key]].answer)
            && after.readings == c.readings && after.entries == c.entries
  {
  }

  /** And while somebody else reads, a call waits for that and is given what it
      comes back with, reading nothing itself. */
  lemma CallWaits<K(!new), V(!new)>(c: Cache<K, V>, id: nat, answer: Answer<V>)
    returns (reader: nat, steps: seq<Step<K, V>>, states: seq<Cache<K, V>>)
    requires Invariant(c) && Live(c) && id in c.callers && c.callers[id].Called?
    requires c.callers[id].key in c.entries && InHeap(c, c.callers[id].key)
    requires !c.heap[c.entries[c.callers[id].key]].done
    ensures IsReading(c, reader) && c.callers[reader].entry == c.entries[c.callers[id].key]
    ensures Leads(c, steps, states)
    ensures var key, last := c.callers[id].key, states[|steps|];
            var given := if c.callers[reader].HasRead? then c.callers[reader].answer else answer;
            && id in last.callers && last.callers[id] == Returned(key, given)
            && reader in last.callers && last.callers[reader] == Returned(key, given)
            && last.readings == c.readings + if c.callers[reader].HasRead? then [] else [(key, answer)]
  {
    var key := c.callers[id].key;
    var e := c.entries[key];
    reader := c.heap[e].reader;
    assert LiveAt(c, e) && ReadingLinked(c, reader);
    var c1 := After(c, Enter(id));
    if c.callers[reader].HasRead? {
      var c2 := After(c1, Publish(reader));
      var c3 := After(c2, Wake(id));
      steps, states := [Enter(id), Publish(reader), Wake(id)], [c, c1, c2, c3];
    } else {
      var c2 := After(c1, ReadBack(reader, answer));
      var c3 := After(c2, Publish(reader));
      var c4 := After(c3, Wake(id));
      steps, states := [Enter(id), ReadBack(reader, answer), Publish(reader), Wake(id)], [c, c1, c2, c3, c4];
    }
  }

  /** In every reachable state those are all the calls there are: each can be
      answered from where it stands. */
  lemma EveryCallIsAnswered<K(!new), V(!new)>(
    states: seq<Cache<K, V>>, steps: seq<Step<K, V>>, i: nat, id: nat, answer: Answer<V>)
    returns (more: seq<Step<K, V>>, onward: seq<Cache<K, V>>)
    requires IsRun(states, steps) && i <= |steps| && id in states[i].callers && states[i].callers[id].Called?
    ensures Leads(states[i], more, onward)
    ensures var key, last := states[i].callers[id].key, onward[|more|];
            && id in last.callers && last.callers[id].Returned? && last.callers[id].key == key
            && (InHeap(states[i], key) && MustRead(states[i], key) ==>
                  last.callers[id].answer == answer && last.readings == states[i].readings + [(key, answer)])
  {
    RunKeepsInvariant(states, steps, i);
    RunStaysLive(states, steps, i);
    var c, key := states[i], states[i].callers[id].key;
    if MustRead(c, key) {
      onward := CallReads(c, id, answer);
      more := [Enter(id), ReadBack(id, answer), Publish(id)];
    } else if c.heap[c.entries[key]].done {
      CallRemembers(c, id);
      more, onward := [Enter(id)], [c, After(c, Enter(id))];
      assert StepAt(onward, more, 0);
    } else {
      var reader;
      reader, more, onward := CallWaits(c, id, answer);
    }
  }
}
