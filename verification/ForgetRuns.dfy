/** What retention keeps over any run: backups with and without receipts,
    crashes before the receipt, and passes that preview, read receipts and
    delete with other work landing in between. */
module ForgetRuns {
  import opened NodeStore
  import opened Forget

  /** What keep counts count: one account on one server. */
  datatype Key = Key(host: string, tags: seq<string>)

  function KeyOf(s: Snapshot): Key {
    Key(s.host, s.tags)
  }

  /** How far a retention pass has got: it has its preview, or it has decided
      what to delete and may be deleting it. */
  datatype Pass = Previewed(preview: seq<Group>) | Decided(ids: set<string>)

  /** The snapshots there are, every one there ever was, and the passes under
      way: the scheduler's and any an operator has started. */
  datatype Repo = Repo(snaps: set<Snapshot>, seen: set<Snapshot>, passes: map<nat, Pass>)

  datatype Step =
    | Store(payload: Snapshot)                       // a backup, read whole or not
    | Certify(receipt: Snapshot, id: string)         // the receipt after a complete read
    | Preview(pass: nat, groups: seq<Group>)         // restic forget --dry-run
    | Decide(pass: nat, protectedIds: set<string>, ids: set<string>)
    | Delete(pass: nat, gone: set<string>)           // all of the decided ids, or some before it is cut off
    | End(pass: nat)                                 // done, failed, or only a plan was wanted

  /** What restic's preview of a repository can be: disjoint groups by host and
      tags of snapshots that are there, each keeping at least one. */
  ghost predicate IsPreview(snaps: set<Snapshot>, groups: seq<Group>) {
    && (forall g, s | g in groups && Member(g, s) :: s in snaps && KeyOf(s) == Key(g.host, g.tags))
    && (forall g | g in groups :: !g.protected && g.keep != [] && forall s | s in g.keep :: s !in g.remove)
    && (forall g, h | g in groups && h in groups && g.host == h.host && g.tags == h.tags :: g == h)
  }

  /** As every positive keep count has it: whatever a preview removes, it keeps
      something newer of the same group. */
  ghost predicate KeepsNewest(groups: seq<Group>) {
    forall g, s | g in groups && s in g.remove :: exists k | k in g.keep :: s.time < k.time
  }

  ghost predicate AreReceipts(snaps: set<Snapshot>, completed: set<string>) {
    forall c :: c in completed <==> exists t | t in snaps :: Certifies(t, c)
  }

  ghost predicate AreRemovals(preview: seq<Group>, completed: set<string>, protectedIds: set<string>, ids: set<string>) {
    forall d :: d in ids <==> exists g | g in preview :: Lists(g, completed, protectedIds, d)
  }

  /** The ids a preview leaves to be deleted, by the receipts there are now. */
  ghost predicate IsDecision(snaps: set<Snapshot>, preview: seq<Group>, protectedIds: set<string>, ids: set<string>) {
    exists completed: set<string> :: AreReceipts(snaps, completed) && AreRemovals(preview, completed, protectedIds, ids)
  }

  /** What ForgetPlanned deletes after reading a listing of the receipts is
      such a decision. */
  lemma ForgetPlannedDecides(snaps: set<Snapshot>, preview: seq<Group>, receipts: seq<Snapshot>, protectedIds: set<string>)
    requires forall s | IsReceipt(s) :: s in receipts <==> s in snaps
    ensures IsDecision(snaps, preview, protectedIds,
                       Elements(Removals(SafeGroups(preview, Completed(receipts), protectedIds))))
  {
    var completed := Completed(receipts);
    forall id ensures id in completed <==> exists t | t in snaps :: Certifies(t, id) {
      CompletedIff(receipts, id);
      if id in completed {
        var t :| t in receipts && Certifies(t, id);
        assert t in snaps;
      }
      if exists t | t in snaps :: Certifies(t, id) {
        var t :| t in snaps && Certifies(t, id);
        assert t in receipts;
      }
    }
    assert AreReceipts(snaps, completed);
    var ids := Elements(Removals(SafeGroups(preview, completed, protectedIds)));
    forall d ensures d in ids <==> exists g | g in preview :: Lists(g, completed, protectedIds, d) {
      RemovedIff(preview, completed, protectedIds, d);
    }
    assert AreRemovals(preview, completed, protectedIds, ids);
  }

  // ---- The machine ----

  ghost predicate Enabled(r: Repo, step: Step) {
    match step
    case Store(s) => !IsReceipt(s) && forall t | t in r.seen :: t.id != s.id
    case Certify(s, id) => s.tags == ReceiptTags(id) && ExactId(id) && forall t | t in r.seen :: t.id != s.id
    case Preview(pass, groups) => pass !in r.passes && IsPreview(r.snaps, groups)
    case Decide(pass, protectedIds, ids) =>
      pass in r.passes && r.passes[pass].Previewed? && IsDecision(r.snaps, r.passes[pass].preview, protectedIds, ids)
    case Delete(pass, gone) => pass in r.passes && r.passes[pass].Decided? && gone <= r.passes[pass].ids
    case End(_) => true
  }

  ghost function Without(snaps: set<Snapshot>, ids: set<string>): set<Snapshot> {
    set s | s in snaps && s.id !in ids
  }

  ghost function After(r: Repo, step: Step): Repo {
    match step
    case Store(s) => r.(snaps := r.snaps + {s}, seen := r.seen + {s})
    case Certify(s, _) => r.(snaps := r.snaps + {s}, seen := r.seen + {s})
    case Preview(pass, groups) => r.(passes := r.passes[pass := Previewed(groups)])
    case Decide(pass, _, ids) => r.(passes := r.passes[pass := Decided(ids)])
    case Delete(_, gone) => r.(snaps := Without(r.snaps, gone))
    case End(pass) => r.(passes := r.passes - {pass})
  }

  /** An account backup whose complete read is on record, or of a kind that
      was never recorded. */
  ghost predicate Certified(snaps: set<Snapshot>, s: Snapshot) {
    !IsReceipt(s) && (NeedsCompletion(s) ==> exists t | t in snaps :: Certifies(t, s.id))
  }

  ghost predicate Verified(snaps: set<Snapshot>, s: Snapshot) {
    s in snaps && Certified(snaps, s)
  }

  ghost predicate HoldsVerified(snaps: set<Snapshot>, key: Key) {
    exists s | s in snaps :: Verified(snaps, s) && KeyOf(s) == key
  }

  /** Another backup of the same account, newer and read whole. */
  ghost predicate Newer(r: Repo, s: Snapshot, k: Snapshot) {
    k in r.seen && KeyOf(k) == KeyOf(s) && s.time < k.time && Certified(r.snaps, k)
  }

  // ---- What every interleaving of passes keeps ----

  /** Ids are never used twice, and nothing is there that never arrived. */
  ghost predicate Named(r: Repo) {
    && r.snaps <= r.seen
    && (forall s, t | s in r.seen && t in r.seen && s.id == t.id :: s == t)
    && (forall t | t in r.seen && IsReceipt(t) :: t in r.snaps)
  }

  /** A preview was one of snapshots that have been there. */
  ghost predicate WasPreview(r: Repo, groups: seq<Group>) {
    IsPreview(r.seen, groups) && KeepsNewest(groups)
  }

  /** What is decided on was read whole, and something newer was too. */
  ghost predicate Replaced(r: Repo, s: Snapshot) {
    Certified(r.snaps, s) && exists k :: Newer(r, s, k)
  }

  ghost predicate PassSound(r: Repo, pass: Pass) {
    match pass
    case Previewed(groups) => WasPreview(r, groups)
    case Decided(ids) => forall d | d in ids :: exists s :: s in r.seen && s.id == d && Replaced(r, s)
  }

  ghost predicate Invariant(r: Repo) {
    && Named(r)
    && (forall p | p in r.passes :: PassSound(r, r.passes[p]))
    && (forall s | s in r.seen && s !in r.snaps :: Replaced(r, s))
  }

  /** Receipts stay, so what was read whole stays so on record. */
  lemma CertifiedStays(r: Repo, after: Repo, s: Snapshot)
    requires Certified(r.snaps, s) && forall t | t in r.snaps && IsReceipt(t) :: t in after.snaps
    ensures Certified(after.snaps, s)
  {
    if NeedsCompletion(s) {
      var t :| t in r.snaps && Certifies(t, s.id);
      assert t in after.snaps;
    }
  }

  lemma ReplacedStays(r: Repo, after: Repo, s: Snapshot)
    requires Replaced(r, s) && r.seen <= after.seen && forall t | t in r.snaps && IsReceipt(t) :: t in after.snaps
    ensures Replaced(after, s)
  {
    var k :| Newer(r, s, k);
    CertifiedStays(r, after, s);
    CertifiedStays(r, after, k);
    assert Newer(after, s, k);
  }

  /** Everything a pass decides to delete was read whole, and so was something
      newer, which the pass keeps. */
  lemma DecisionIsReplaced(r: Repo, groups: seq<Group>, protectedIds: set<string>, ids: set<string>, d: string)
    requires WasPreview(r, groups) && IsDecision(r.snaps, groups, protectedIds, ids) && d in ids
    ensures d !in protectedIds && exists s :: s in r.seen && s.id == d && Replaced(r, s)
  {
    var completed :| AreReceipts(r.snaps, completed) && AreRemovals(groups, completed, protectedIds, ids);
    var g :| g in groups && Lists(g, completed, protectedIds, d);
    var s :| s in g.remove && s.id == d;
    ListedIsReplaced(r, groups, g, completed, protectedIds, s);
  }

  lemma ListedIsReplaced(
    r: Repo, groups: seq<Group>, g: Group, completed: set<string>, protectedIds: set<string>, s: Snapshot)
    requires WasPreview(r, groups) && g in groups && s in g.remove && AreReceipts(r.snaps, completed)
    requires COMPLETION_RECEIPT_TAG !in g.tags && !Blocked(g, completed, protectedIds)
    ensures s in r.seen && s.id !in protectedIds && Replaced(r, s)
  {
    var k :| k in g.keep && s.time < k.time;
    assert Member(g, s) && Member(g, k);
    UnblockedIsCertified(r, g, completed, protectedIds, s);
    UnblockedIsCertified(r, g, completed, protectedIds, k);
    assert Newer(r, s, k);
  }

  lemma UnblockedIsCertified(r: Repo, g: Group, completed: set<string>, protectedIds: set<string>, m: Snapshot)
    requires AreReceipts(r.snaps, completed) && !Blocked(g, completed, protectedIds) && Member(g, m)
    requires COMPLETION_RECEIPT_TAG !in g.tags && KeyOf(m) == Key(g.host, g.tags)
    ensures Certified(r.snaps, m) && m.id !in protectedIds
  {
    assert !Suspect(m, completed, protectedIds);
  }

  lemma DeletedIsReplaced(r: Repo, step: Step, s: Snapshot)
    requires Invariant(r) && Enabled(r, step) && s in r.snaps && s !in After(r, step).snaps
    ensures step.Delete? && Replaced(r, s)
  {
    assert s.id in step.gone;
    assert PassSound(r, r.passes[step.pass]);
    var same :| same in r.seen && same.id == s.id && Replaced(r, same);
    assert same == s;
  }

  lemma ReceiptsStay(r: Repo, step: Step, t: Snapshot)
    requires Invariant(r) && Enabled(r, step) && t in r.snaps && IsReceipt(t)
    ensures t in After(r, step).snaps
  {
    if t !in After(r, step).snaps { DeletedIsReplaced(r, step, t); }
  }

  ghost predicate Sane(step: Step) {
    step.Preview? ==> KeepsNewest(step.groups)
  }

  lemma InvariantStep(r: Repo, step: Step)
    requires Invariant(r) && Enabled(r, step) && Sane(step)
    ensures Invariant(After(r, step))
  {
    var after := After(r, step);
    forall t | t in r.snaps && IsReceipt(t) ensures t in after.snaps {
      ReceiptsStay(r, step, t);
    }
    forall p | p in after.passes ensures PassSound(after, after.passes[p]) {
      PassStep(r, step, p);
    }
    forall s | s in after.seen && s !in after.snaps ensures Replaced(after, s) {
      if s in r.snaps { DeletedIsReplaced(r, step, s); }
      ReplacedStays(r, after, s);
    }
  }

  lemma PassStep(r: Repo, step: Step, p: nat)
    requires Invariant(r) && Enabled(r, step) && Sane(step) && p in After(r, step).passes
    requires forall t | t in r.snaps && IsReceipt(t) :: t in After(r, step).snaps
    ensures PassSound(After(r, step), After(r, step).passes[p])
  {
    var after := After(r, step);
    if after.passes[p].Decided? {
      forall d | d in after.passes[p].ids ensures exists s :: s in after.seen && s.id == d && Replaced(after, s) {
        if step.Decide? && step.pass == p {
          DecisionIsReplaced(r, r.passes[p].preview, step.protectedIds, step.ids, d);
        } else {
          assert PassSound(r, r.passes[p]);
        }
        var s :| s in r.seen && s.id == d && Replaced(r, s);
        ReplacedStays(r, after, s);
      }
    }
  }

  /** From any backup that was ever read whole, newer ones lead to one that is
      still there. */
  lemma NewestIsThere(r: Repo, s: Snapshot)
    requires Invariant(r) && s in r.seen && Certified(r.snaps, s)
    ensures HoldsVerified(r.snaps, KeyOf(s))
    decreases NewerThan(r, s)
  {
    if s in r.snaps {
      assert Verified(r.snaps, s);
    } else {
      assert Replaced(r, s);
      var k :| Newer(r, s, k);
      assert NewerThan(r, k) <= NewerThan(r, s) && k in NewerThan(r, s) && k !in NewerThan(r, k);
      NewestIsThere(r, k);
    }
  }

  ghost function NewerThan(r: Repo, s: Snapshot): set<Snapshot> {
    set k | k in r.seen && s.time < k.time
  }

  // ---- Whole runs ----

  ghost predicate IsRun(states: seq<Repo>, steps: seq<Step>) {
    && |states| == |steps| + 1
    && forall i | 0 <= i < |steps| :: Enabled(states[i], steps[i]) && states[i + 1] == After(states[i], steps[i])
  }

  ghost predicate AllSane(steps: seq<Step>) {
    forall i | 0 <= i < |steps| :: Sane(steps[i])
  }

  /** A repository as it is found, with no pass under way. */
  ghost predicate Fresh(r: Repo) {
    && r.seen == r.snaps && r.passes == map[]
    && forall s, t | s in r.snaps && t in r.snaps && s.id == t.id :: s == t
  }

  lemma {:induction false} RunKeepsInvariant(states: seq<Repo>, steps: seq<Step>, i: nat)
    requires IsRun(states, steps) && AllSane(steps) && Fresh(states[0]) && i <= |steps|
    ensures Invariant(states[i])
  {
    if i > 0 {
      RunKeepsInvariant(states, steps, i - 1);
      InvariantStep(states[i - 1], steps[i - 1]);
    }
  }

  /** Nothing ever seen is forgotten by the record, and receipts stay. */
  lemma {:induction false} RunsKeepReceipts(states: seq<Repo>, steps: seq<Step>, i: nat, j: nat)
    requires IsRun(states, steps) && AllSane(steps) && Fresh(states[0]) && i <= j <= |steps|
    ensures states[i].seen <= states[j].seen
    ensures forall t | t in states[i].snaps && IsReceipt(t) :: t in states[j].snaps
  {
    if i < j {
      RunsKeepReceipts(states, steps, i, j - 1);
      RunKeepsInvariant(states, steps, j - 1);
      forall t | t in states[j - 1].snaps && IsReceipt(t) ensures t in states[j].snaps {
        ReceiptsStay(states[j - 1], steps[j - 1], t);
      }
    }
  }

  /** Over every run, with any number of passes under way at once, each cut off
      anywhere and with backups landing in between, a group that once held a
      verified backup always does, and no receipt is ever lost. */
  lemma RunsKeepVerified(states: seq<Repo>, steps: seq<Step>, i: nat, j: nat, key: Key)
    requires IsRun(states, steps) && AllSane(steps) && Fresh(states[0]) && i <= j <= |steps|
    ensures HoldsVerified(states[i].snaps, key) ==> HoldsVerified(states[j].snaps, key)
    ensures forall t | t in states[i].snaps && IsReceipt(t) :: t in states[j].snaps
  {
    RunsKeepReceipts(states, steps, i, j);
    RunKeepsInvariant(states, steps, i);
    RunKeepsInvariant(states, steps, j);
    if HoldsVerified(states[i].snaps, key) {
      var s :| s in states[i].snaps && Verified(states[i].snaps, s) && KeyOf(s) == key;
      assert Certified(states[i].snaps, s);
      CertifiedStays(states[i], states[j], s);
      NewestIsThere(states[j], s);
    }
  }

  /** Nothing that was not read whole is ever deleted, and nothing without a
      newer backup of its group that was: one cut off before its receipt
      outlives every pass, and holds its group back. */
  lemma RunsDeleteOnlyReplaced(states: seq<Repo>, steps: seq<Step>, i: nat, s: Snapshot)
    requires IsRun(states, steps) && AllSane(steps) && Fresh(states[0]) && i < |steps|
    requires s in states[i].snaps && s !in states[i + 1].snaps
    ensures steps[i].Delete? && Verified(states[i].snaps, s) && exists k :: Newer(states[i], s, k)
  {
    RunKeepsInvariant(states, steps, i);
    DeletedIsReplaced(states[i], steps[i], s);
  }

  // ---- One thing at a time ----

  /** A backup and its receipt can always be stored under ids of their own, and
      the receipt makes it a verified one. */
  lemma StoredAndCertified(r: Repo, s: Snapshot, t: Snapshot)
    requires COMPLETION_RECEIPT_TAG !in s.tags && HexId(s.id) && t.id != s.id
    requires t.tags == ["cprest:completion-v1", "completed:" + s.id]
    requires forall x | x in r.seen :: x.id != s.id && x.id != t.id
    ensures Enabled(r, Store(s)) && Enabled(After(r, Store(s)), Certify(t, s.id))
    ensures Verified(After(After(r, Store(s)), Certify(t, s.id)).snaps, s)
    ensures NEEDS_COMPLETION_TAG in s.tags && (forall x | x in r.snaps :: !Certifies(x, s.id)) ==>
              !Verified(After(r, Store(s)).snaps, s)
  {
    ReceiptCertifies(t, s.id, s.id);
    assert t in After(After(r, Store(s)), Certify(t, s.id)).snaps;
  }

  /** A pass by itself deletes all it decided on and is over. */
  lemma PassAlone(r: Repo, pass: nat, groups: seq<Group>, protectedIds: set<string>, ids: set<string>)
    requires pass !in r.passes && IsPreview(r.snaps, groups) && IsDecision(r.snaps, groups, protectedIds, ids)
    ensures var previewed := After(r, Preview(pass, groups));
            var decided := After(previewed, Decide(pass, protectedIds, ids));
            var deleted := After(decided, Delete(pass, ids));
            && Enabled(r, Preview(pass, groups)) && Enabled(previewed, Decide(pass, protectedIds, ids))
            && Enabled(decided, Delete(pass, ids)) && Enabled(deleted, End(pass))
            && (forall s :: s in After(deleted, End(pass)).snaps <==> s in r.snaps && s.id !in ids)
            && After(deleted, End(pass)).passes == r.passes && After(deleted, End(pass)).seen == r.seen
  {
    var previewed := After(r, Preview(pass, groups));
    var deleted := After(After(previewed, Decide(pass, protectedIds, ids)), Delete(pass, ids));
    assert After(deleted, End(pass)).passes == r.passes;
  }

  // ---- One pass at a time ----

  /** A pass starts only when no other is under way. */
  ghost predicate Alone(r: Repo, step: Step) {
    step.Preview? ==> r.passes == map[]
  }

  ghost predicate AllAlone(states: seq<Repo>, steps: seq<Step>)
    requires |states| == |steps| + 1
  {
    forall i | 0 <= i < |steps| :: Alone(states[i], steps[i])
  }

  /** Whatever is decided on, something verified of its group is not. */
  ghost predicate Spares(r: Repo, ids: set<string>, s: Snapshot) {
    Verified(r.snaps, s) && exists k | k in r.snaps :: k.id !in ids && Verified(r.snaps, k) && KeyOf(k) == KeyOf(s)
  }

  ghost predicate LonePass(r: Repo, pass: Pass) {
    match pass
    case Previewed(groups) => IsPreview(r.snaps, groups)
    case Decided(ids) =>
      && (forall d | d in ids :: exists s :: s in r.seen && s.id == d)
      && (forall s | s in r.snaps && s.id in ids :: Spares(r, ids, s))
  }

  ghost predicate LoneInvariant(r: Repo) {
    && Named(r)
    && (forall p, q | p in r.passes && q in r.passes :: p == q)
    && (forall p | p in r.passes :: LonePass(r, r.passes[p]))
  }

  /** A preview may keep anything, as long as it keeps something. */
  lemma LoneDecisionSpares(
    r: Repo, groups: seq<Group>, protectedIds: set<string>, ids: set<string>, s: Snapshot)
    requires Named(r) && IsPreview(r.snaps, groups) && IsDecision(r.snaps, groups, protectedIds, ids)
    requires s in r.snaps && s.id in ids
    ensures Spares(r, ids, s)
  {
    var completed :| AreReceipts(r.snaps, completed) && AreRemovals(groups, completed, protectedIds, ids);
    var g :| g in groups && Lists(g, completed, protectedIds, s.id);
    var same :| same in g.remove && same.id == s.id;
    assert Member(g, same) && same == s;
    var k := g.keep[0];
    assert Member(g, k) && k in g.keep;
    UnblockedIsCertified(r, g, completed, protectedIds, s);
    UnblockedIsCertified(r, g, completed, protectedIds, k);
    forall h | h in groups ensures !Lists(h, completed, protectedIds, k.id) {
      KeptIsNotListed(r, groups, g, h, k, completed, protectedIds);
    }
  }

  lemma KeptIsNotListed(
    r: Repo, groups: seq<Group>, g: Group, h: Group, k: Snapshot, completed: set<string>, protectedIds: set<string>)
    requires Named(r) && IsPreview(r.snaps, groups) && g in groups && h in groups && k in g.keep
    ensures !Lists(h, completed, protectedIds, k.id)
  {
    assert Member(g, k);
    forall twin | twin in h.remove ensures twin.id != k.id {
      assert Member(h, twin);
    }
  }

  lemma SparesStays(r: Repo, step: Step, ids: set<string>, s: Snapshot)
    requires LoneInvariant(r) && Enabled(r, step) && Spares(r, ids, s) && s in After(r, step).snaps
    requires step.Delete? ==> step.gone <= ids
    requires forall t | t in r.snaps && IsReceipt(t) :: t in After(r, step).snaps
    ensures Spares(After(r, step), ids, s)
  {
    var after := After(r, step);
    var k :| k in r.snaps && k.id !in ids && Verified(r.snaps, k) && KeyOf(k) == KeyOf(s);
    CertifiedStays(r, after, s);
    CertifiedStays(r, after, k);
    assert k in after.snaps;
  }

  lemma LoneDeleted(r: Repo, step: Step, s: Snapshot)
    requires LoneInvariant(r) && Enabled(r, step) && s in r.snaps && s !in After(r, step).snaps
    ensures step.Delete? && Spares(r, r.passes[step.pass].ids, s)
  {
    assert s.id in step.gone && LonePass(r, r.passes[step.pass]);
  }

  lemma LoneReceiptsStay(r: Repo, step: Step, t: Snapshot)
    requires LoneInvariant(r) && Enabled(r, step) && t in r.snaps && IsReceipt(t)
    ensures t in After(r, step).snaps
  {
    if t !in After(r, step).snaps { LoneDeleted(r, step, t); }
  }

  lemma LoneStep(r: Repo, step: Step)
    requires LoneInvariant(r) && Enabled(r, step) && Alone(r, step)
    ensures LoneInvariant(After(r, step))
  {
    var after := After(r, step);
    forall t | t in r.snaps && IsReceipt(t) ensures t in after.snaps {
      LoneReceiptsStay(r, step, t);
    }
    forall p | p in after.passes ensures LonePass(after, after.passes[p]) {
      LonePassStep(r, step, p);
    }
  }

  lemma LonePassStep(r: Repo, step: Step, p: nat)
    requires LoneInvariant(r) && Enabled(r, step) && Alone(r, step) && p in After(r, step).passes
    requires forall t | t in r.snaps && IsReceipt(t) :: t in After(r, step).snaps
    ensures LonePass(After(r, step), After(r, step).passes[p])
  {
    var after := After(r, step);
    if step.Decide? && step.pass == p {
      LoneDecided(r, step.protectedIds, step.ids, p);
    } else if after.passes[p].Decided? {
      var ids := after.passes[p].ids;
      assert p in r.passes && LonePass(r, r.passes[p]);
      forall s | s in after.snaps && s.id in ids ensures Spares(after, ids, s) {
        var same :| same in r.seen && same.id == s.id;
        assert s in r.snaps;
        SparesStays(r, step, ids, s);
      }
    }
  }

  lemma LoneDecided(r: Repo, protectedIds: set<string>, ids: set<string>, p: nat)
    requires LoneInvariant(r) && Enabled(r, Decide(p, protectedIds, ids))
    ensures LonePass(After(r, Decide(p, protectedIds, ids)), Decided(ids))
  {
    var groups, after := r.passes[p].preview, After(r, Decide(p, protectedIds, ids));
    assert LonePass(r, r.passes[p]);
    forall s | s in r.snaps && s.id in ids ensures Spares(after, ids, s) {
      LoneDecisionSpares(r, groups, protectedIds, ids, s);
    }
    forall d | d in ids ensures exists s :: s in r.seen && s.id == d {
      var completed :| AreReceipts(r.snaps, completed) && AreRemovals(groups, completed, protectedIds, ids);
      var g :| g in groups && Lists(g, completed, protectedIds, d);
      var s :| s in g.remove && s.id == d;
      assert Member(g, s);
    }
  }

  /** With one pass at a time a preview may keep any of a group's members, as
      long as it keeps one. */
  lemma {:induction false} LonePassesKeepVerified(states: seq<Repo>, steps: seq<Step>, i: nat, j: nat, key: Key)
    requires IsRun(states, steps) && AllAlone(states, steps) && Fresh(states[0]) && i <= j <= |steps|
    ensures LoneInvariant(states[j])
    ensures HoldsVerified(states[i].snaps, key) ==> HoldsVerified(states[j].snaps, key)
  {
    if i < j {
      LonePassesKeepVerified(states, steps, i, j - 1, key);
      LoneStep(states[j - 1], steps[j - 1]);
      if HoldsVerified(states[j - 1].snaps, key) { LoneStepHolds(states[j - 1], steps[j - 1], key); }
    } else if j > 0 {
      LonePassesKeepVerified(states, steps, j - 1, j - 1, key);
      LoneStep(states[j - 1], steps[j - 1]);
    }
  }

  lemma LoneStepHolds(r: Repo, step: Step, key: Key)
    requires LoneInvariant(r) && Enabled(r, step) && HoldsVerified(r.snaps, key)
    ensures HoldsVerified(After(r, step).snaps, key)
  {
    var after := After(r, step);
    var s :| s in r.snaps && Verified(r.snaps, s) && KeyOf(s) == key;
    assert Certified(r.snaps, s);
    forall t | t in r.snaps && IsReceipt(t) ensures t in after.snaps {
      LoneReceiptsStay(r, step, t);
    }
    CertifiedStays(r, after, s);
    if s in after.snaps {
      assert Verified(after.snaps, s);
    } else {
      LoneDeleted(r, step, s);
      var k :| k in r.snaps && k.id !in r.passes[step.pass].ids && Verified(r.snaps, k) && KeyOf(k) == key;
      CertifiedStays(r, after, k);
      assert k in after.snaps && Verified(after.snaps, k);
    }
  }

  /** Neither condition can be dropped from an arbitrary partition: two passes
      whose previews each keep what the other removes leave a group empty. No
      two previews by restic are like that, since both keep the newest. */
  lemma OverlappingPartitionsLoseAGroup(a: Snapshot, b: Snapshot)
    requires a.id != b.id && KeyOf(a) == KeyOf(b) && !IsReceipt(a) && !NeedsCompletion(a)
    ensures exists states: seq<Repo>, steps: seq<Step> ::
              && IsRun(states, steps) && Fresh(states[0]) && HoldsVerified(states[0].snaps, KeyOf(a))
              && states[|steps|].snaps == {}
  {
    var states, steps := OverlapStates(a, b), OverlapSteps(a, b);
    forall i | 0 <= i < |steps| ensures Enabled(states[i], steps[i]) && states[i + 1] == After(states[i], steps[i]) {
      OverlapStep(a, b, i);
    }
    assert Verified(states[0].snaps, a);
    assert IsRun(states, steps);
  }

  ghost function Pair(kept: Snapshot, gone: Snapshot): seq<Group> {
    [Group(kept.host, kept.tags, [kept], [gone], false)]
  }

  ghost function OverlapSteps(a: Snapshot, b: Snapshot): seq<Step> {
    [Preview(0, Pair(a, b)), Preview(1, Pair(b, a)), Decide(0, {}, {b.id}), Decide(1, {}, {a.id}),
     Delete(0, {b.id}), Delete(1, {a.id})]
  }

  ghost function OverlapStates(a: Snapshot, b: Snapshot): seq<Repo> {
    var both := {a, b};
    var one: map<nat, Pass> := map[0 := Previewed(Pair(a, b))];
    var decided := one[1 := Previewed(Pair(b, a))][0 := Decided({b.id})][1 := Decided({a.id})];
    [Repo(both, both, map[]),
     Repo(both, both, one),
     Repo(both, both, one[1 := Previewed(Pair(b, a))]),
     Repo(both, both, one[1 := Previewed(Pair(b, a))][0 := Decided({b.id})]),
     Repo(both, both, decided),
     Repo({a}, both, decided),
     Repo({}, both, decided)]
  }

  lemma OverlapStep(a: Snapshot, b: Snapshot, i: nat)
    requires a.id != b.id && KeyOf(a) == KeyOf(b) && !IsReceipt(a) && !NeedsCompletion(a) && i < 6
    ensures var states, steps := OverlapStates(a, b), OverlapSteps(a, b);
            Enabled(states[i], steps[i]) && states[i + 1] == After(states[i], steps[i])
  {
    if i == 0 || i == 2 {
      PairPreview(a, b);
    } else if i == 1 || i == 3 {
      PairPreview(b, a);
      assert {a, b} == {b, a};
    } else {
      assert Without({a, b}, {b.id}) == {a} && Without({a}, {a.id}) == {};
    }
  }

  lemma PairPreview(kept: Snapshot, gone: Snapshot)
    requires kept.id != gone.id && KeyOf(kept) == KeyOf(gone)
    requires !IsReceipt(kept) && !NeedsCompletion(kept)
    ensures IsPreview({kept, gone}, Pair(kept, gone)) && IsDecision({kept, gone}, Pair(kept, gone), {}, {gone.id})
  {
    var group := Pair(kept, gone)[0];
    assert forall s :: Member(group, s) <==> s == kept || s == gone;
    assert !IsReceipt(gone) && !NeedsCompletion(gone);
    assert forall s :: !Suspect(s, {}, {}) || NeedsCompletion(s);
    assert gone in group.remove;
    assert forall d :: Lists(group, {}, {}, d) <==> d == gone.id;
    assert group in [group] && AreRemovals([group], {}, {}, {gone.id});
    assert AreReceipts({kept, gone}, {});
  }
}
