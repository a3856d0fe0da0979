/** Retention over one repository: preview, then delete exactly the safe ids
    (internal/resticrun/forget.go), with completion receipts deciding which
    snapshots are verified (internal/resticrun/completion.go), and the listing
    that hides the receipts (internal/resticrun/restore.go:66-129). */
module Forget {
  import opened NodeStore

  const NEEDS_COMPLETION_TAG := "cprest:read-status-v1"
  const COMPLETION_RECEIPT_TAG := "cprest:completion-v1"
  const COMPLETED_ID_PREFIX := "completed:"

  datatype Snapshot = Snapshot(id: string, host: string, tags: seq<string>, time: Time)

  predicate NeedsCompletion(s: Snapshot) {
    NEEDS_COMPLETION_TAG in s.tags
  }

  predicate IsReceipt(s: Snapshot) {
    COMPLETION_RECEIPT_TAG in s.tags
  }

  // ---- Receipts ----

  /** An exact snapshot id: "latest" is a lookup and is not one. */
  predicate ExactId(id: string) {
    8 <= |id| <= 64 && forall c | c in id :: '0' <= c <= '9' || 'a' <= c <= 'f'
  }

  function CompletedTag(id: string): string {
    COMPLETED_ID_PREFIX + id
  }

  /** The id a tag says was read completely. */
  function CompletedId(tag: string): Option<string> {
    var n := |COMPLETED_ID_PREFIX|;
    if n <= |tag| && tag[..n] == COMPLETED_ID_PREFIX && ExactId(tag[n..]) then Some(tag[n..]) else None
  }

  /** What recordCompletion tags its tiny snapshot with. */
  function ReceiptTags(id: string): seq<string> {
    [COMPLETION_RECEIPT_TAG, CompletedTag(id)]
  }

  ghost predicate Certifies(s: Snapshot, id: string) {
    IsReceipt(s) && exists tag | tag in s.tags :: CompletedId(tag) == Some(id)
  }

  /** A receipt certifies the snapshot it was written for and no other. */
  lemma ReceiptCertifies(s: Snapshot, id: string, other: string)
    requires s.tags == ReceiptTags(id) && ExactId(id)
    ensures Certifies(s, other) <==> other == id
  {
    var n := |COMPLETED_ID_PREFIX|;
    assert CompletedTag(id)[..n] == COMPLETED_ID_PREFIX && CompletedTag(id)[n..] == id;
    assert CompletedTag(id) in s.tags && s.tags[0] in s.tags;
    assert CompletedId(COMPLETION_RECEIPT_TAG) == None by {
      assert COMPLETION_RECEIPT_TAG[..n][1] == 'p' && COMPLETED_ID_PREFIX[1] == 'o';
    }
  }

  /** The ids the receipts in a listing certify. */
  ghost function Completed(snapshots: seq<Snapshot>): set<string> {
    if snapshots == [] then {}
    else
      var last := snapshots[|snapshots| - 1];
      Completed(snapshots[..|snapshots| - 1]) + if IsReceipt(last) then CompletedIds(last.tags) else {}
  }

  ghost function CompletedIds(tags: seq<string>): set<string> {
    if tags == [] then {}
    else
      CompletedIds(tags[..|tags| - 1]) +
      match CompletedId(tags[|tags| - 1]) case None => {} case Some(id) => {id}
  }

  lemma {:induction false} CompletedIdsIff(tags: seq<string>, id: string)
    ensures id in CompletedIds(tags) <==> exists tag | tag in tags :: CompletedId(tag) == Some(id)
  {
    if tags != [] {
      var front, last := tags[..|tags| - 1], tags[|tags| - 1];
      CompletedIdsIff(front, id);
      assert tags == front + [last];
    }
  }

  /** An id is completed exactly when some receipt certifies it. */
  lemma {:induction false} CompletedIff(snapshots: seq<Snapshot>, id: string)
    ensures id in Completed(snapshots) <==> exists s | s in snapshots :: Certifies(s, id)
  {
    if snapshots != [] {
      var front, last := snapshots[..|snapshots| - 1], snapshots[|snapshots| - 1];
      CompletedIff(front, id);
      CompletedIdsIff(last.tags, id);
      assert Certifies(last, id) <==> IsReceipt(last) && id in CompletedIds(last.tags);
      assert snapshots == front + [last];
      if s :| s in snapshots && Certifies(s, id) {
        assert s in front || s == last;
      }
    }
  }

  method CompletionReceipts(snapshots: seq<Snapshot>) returns (completed: set<string>)
    ensures completed == Completed(snapshots)
  {
    completed := {};
    for i := 0 to |snapshots|
      invariant completed == Completed(snapshots[..i])
    {
      var snapshot := snapshots[i];
      assert snapshots[..i + 1][..i] == snapshots[..i];
      if !IsReceipt(snapshot) {
        continue;
      }
      for k := 0 to |snapshot.tags|
        invariant completed == Completed(snapshots[..i]) + CompletedIds(snapshot.tags[..k])
      {
        assert snapshot.tags[..k + 1][..k] == snapshot.tags[..k];
        var id := CompletedId(snapshot.tags[k]);
        if id.Some? {
          completed := completed + {id.value};
        }
      }
      assert snapshot.tags[..|snapshot.tags|] == snapshot.tags;
    }
    assert snapshots[..|snapshots|] == snapshots;
  }

  // ---- The same, spelled out ----

  /** Eight to 64 lower-case hexadecimal digits. */
  predicate HexId(id: string) {
    8 <= |id| <= 64 && forall c | c in id :: 48 <= c as int <= 57 || 97 <= c as int <= 102
  }

  lemma TagIff(tag: string, id: string)
    ensures CompletedId(tag) == Some(id) <==> HexId(id) && tag == "completed:" + id
  {
    assert |"completed:"| == 10;
    if tag == "completed:" + id { assert tag[..10] == "completed:" && tag[10..] == id; }
    if CompletedId(tag) == Some(id) { assert tag == tag[..10] + tag[10..]; }
  }

  /** Some receipt on record is for this id. */
  ghost predicate Receipted(receipts: seq<Snapshot>, id: string) {
    HexId(id) && exists t | t in receipts :: "cprest:completion-v1" in t.tags && "completed:" + id in t.tags
  }

  lemma ReceiptedIff(receipts: seq<Snapshot>, id: string)
    ensures Receipted(receipts, id) <==> exists t | t in receipts :: Certifies(t, id)
  {
    forall t | t in receipts
      ensures Certifies(t, id) <==> HexId(id) && "cprest:completion-v1" in t.tags && "completed:" + id in t.tags
    {
      forall tag | tag in t.tags ensures CompletedId(tag) == Some(id) <==> HexId(id) && tag == "completed:" + id {
        TagIff(tag, id);
      }
      TagIff("completed:" + id, id);
    }
  }

  // ---- What may be removed ----

  datatype Group = Group(host: string, tags: seq<string>, keep: seq<Snapshot>, remove: seq<Snapshot>, protected: bool)

  predicate Member(group: Group, s: Snapshot) {
    s in group.keep || s in group.remove
  }

  /** Known to be incomplete, or not known to be complete. */
  predicate Suspect(s: Snapshot, completed: set<string>, protectedIds: set<string>) {
    s.id in protectedIds || (NeedsCompletion(s) && s.id !in completed)
  }

  /** A group holding something suspect keeps everything it has. */
  ghost predicate Blocked(group: Group, completed: set<string>, protectedIds: set<string>) {
    group.protected || exists s :: Member(group, s) && Suspect(s, completed, protectedIds)
  }

  /** An unblocked group of account backups lists an id for removal. */
  ghost predicate Lists(group: Group, completed: set<string>, protectedIds: set<string>, id: string) {
    && COMPLETION_RECEIPT_TAG !in group.tags && !Blocked(group, completed, protectedIds)
    && exists s | s in group.remove :: s.id == id
  }

  /** No receipts' group, not protected, and every member of it both known and
      not known otherwise: not reported incomplete, and read whole by a receipt
      where it has to be. */
  ghost predicate Deletable(group: Group, receipts: seq<Snapshot>, protectedIds: set<string>) {
    && "cprest:completion-v1" !in group.tags && !group.protected
    && forall m | m in group.keep || m in group.remove ::
         m.id !in protectedIds && ("cprest:read-status-v1" in m.tags ==> Receipted(receipts, m.id))
  }

  lemma DeletableIff(group: Group, receipts: seq<Snapshot>, protectedIds: set<string>, id: string)
    ensures Lists(group, Completed(receipts), protectedIds, id) <==>
            Deletable(group, receipts, protectedIds) && exists s | s in group.remove :: s.id == id
  {
    var completed := Completed(receipts);
    forall m | Member(group, m)
      ensures Suspect(m, completed, protectedIds) <==>
              m.id in protectedIds || ("cprest:read-status-v1" in m.tags && !Receipted(receipts, m.id))
    {
      CompletedIff(receipts, m.id);
      ReceiptedIff(receipts, m.id);
    }
  }

  /** What is left to be removed, snapshot by snapshot. */
  ghost predicate GoesFrom(preview: seq<Group>, receipts: seq<Snapshot>, protectedIds: set<string>, id: string) {
    exists g | g in preview :: Deletable(g, receipts, protectedIds) && exists s | s in g.remove :: s.id == id
  }

  lemma GoesIff(preview: seq<Group>, receipts: seq<Snapshot>, protectedIds: set<string>, id: string)
    ensures id in Removals(SafeGroups(preview, Completed(receipts), protectedIds)) <==>
            GoesFrom(preview, receipts, protectedIds, id)
  {
    RemovedIff(preview, Completed(receipts), protectedIds, id);
    forall g | g in preview
      ensures Lists(g, Completed(receipts), protectedIds, id) <==>
              Deletable(g, receipts, protectedIds) && exists s | s in g.remove :: s.id == id
    {
      DeletableIff(g, receipts, protectedIds, id);
    }
  }

  /** A group as it may be applied. */
  ghost function Guarded(group: Group, completed: set<string>, protectedIds: set<string>): Group {
    if Blocked(group, completed, protectedIds)
    then group.(keep := group.keep + group.remove, remove := [], protected := true) else group
  }

  /** The groups a preview may be applied to: receipts are in none of them. */
  ghost function SafeGroups(preview: seq<Group>, completed: set<string>, protectedIds: set<string>): seq<Group> {
    if preview == [] then []
    else
      var front, last := SafeGroups(preview[..|preview| - 1], completed, protectedIds), preview[|preview| - 1];
      if COMPLETION_RECEIPT_TAG in last.tags then front else front + [Guarded(last, completed, protectedIds)]
  }

  function Ids(snapshots: seq<Snapshot>): (ids: seq<string>)
    ensures |ids| == |snapshots|
    ensures forall id :: id in ids <==> exists s | s in snapshots :: s.id == id
  {
    if snapshots == [] then []
    else
      var front, last := snapshots[..|snapshots| - 1], snapshots[|snapshots| - 1];
      assert snapshots == front + [last];
      Ids(front) + [last.id]
  }

  function Removals(groups: seq<Group>): seq<string> {
    if groups == [] then [] else Removals(groups[..|groups| - 1]) + Ids(groups[|groups| - 1].remove)
  }

  function Kept(groups: seq<Group>): nat {
    if groups == [] then 0 else Kept(groups[..|groups| - 1]) + |groups[|groups| - 1].keep|
  }

  /** The snapshots in the groups that hold account backups. */
  function Payloads(preview: seq<Group>): nat {
    if preview == [] then 0
    else
      var last := preview[|preview| - 1];
      Payloads(preview[..|preview| - 1])
        + (if COMPLETION_RECEIPT_TAG in last.tags then 0 else |last.keep| + |last.remove|)
  }

  /** Nothing previewed is lost from the totals, whatever was protected. */
  lemma {:induction false} TotalsConserved(preview: seq<Group>, completed: set<string>, protectedIds: set<string>)
    ensures var safe := SafeGroups(preview, completed, protectedIds);
            Kept(safe) + |Removals(safe)| == Payloads(preview)
  {
    if preview != [] {
      var front, last := preview[..|preview| - 1], preview[|preview| - 1];
      TotalsConserved(front, completed, protectedIds);
      var before, safe := SafeGroups(front, completed, protectedIds), SafeGroups(preview, completed, protectedIds);
      if COMPLETION_RECEIPT_TAG !in last.tags {
        assert safe[..|safe| - 1] == before;
      }
    }
  }

  /** An id is removed exactly when an unblocked group of account backups lists
      it for removal. */
  lemma {:induction false} RemovedIff(preview: seq<Group>, completed: set<string>, protectedIds: set<string>, id: string)
    ensures id in Removals(SafeGroups(preview, completed, protectedIds)) <==>
            exists g | g in preview :: Lists(g, completed, protectedIds, id)
  {
    if preview != [] {
      var front, last := preview[..|preview| - 1], preview[|preview| - 1];
      RemovedIff(front, completed, protectedIds, id);
      assert preview == front + [last];
      var before, safe := SafeGroups(front, completed, protectedIds), SafeGroups(preview, completed, protectedIds);
      if COMPLETION_RECEIPT_TAG !in last.tags {
        assert safe[..|safe| - 1] == before;
        var guarded := Guarded(last, completed, protectedIds);
        assert Removals(safe) == Removals(before) + Ids(guarded.remove);
        assert id in Ids(guarded.remove) <==> Lists(last, completed, protectedIds, id);
      }
    }
  }

  // ---- ForgetPlanned ----

  /** ForgetArgs refuses a negative count, and a policy that keeps nothing. */
  predicate UsableKeeps(keeps: Retention) {
    && keeps.keepLast >= 0 && keeps.keepDaily >= 0 && keeps.keepWeekly >= 0
    && keeps.keepMonthly >= 0 && keeps.keepYearly >= 0
    && keeps != NO_RETENTION
  }

  datatype Forgotten =
    | Refused                                        // no usable policy, or an id that is not one
    | Planned(kept: nat, removed: nat, deleted: seq<string>)

  /** Deletes, when it is not a rehearsal, exactly the removals of the preview
      that are safe by the receipts on record. */
  method ForgetPlanned(preview: seq<Group>, receipts: seq<Snapshot>, protectedIds: set<string>, keeps: Retention, dryRun: bool)
    returns (result: Forgotten)
    ensures var safe := SafeGroups(preview, Completed(receipts), protectedIds);
            && (result == Refused <==>
                  !UsableKeeps(keeps) || (!dryRun && exists id | id in Removals(safe) :: !ExactId(id)))
            && (result.Planned? ==>
                  && result.kept == Kept(safe) && result.removed == |Removals(safe)|
                  && result.kept + result.removed == Payloads(preview)
                  && result.deleted == if dryRun then [] else Removals(safe))
    ensures AsPromised(preview, receipts, protectedIds, keeps, dryRun, result)
  {
    if !UsableKeeps(keeps) {
      result := Refused;
      ResultSpelled(preview, receipts, protectedIds, keeps, dryRun, result);
      return;
    }
    var needsReceipts := NeedsReceipts(preview);
    var completed: set<string> := {};
    if needsReceipts {
      completed := CompletionReceipts(receipts);
    }
    var kept, remove := SafeRemovals(preview, completed, Completed(receipts), protectedIds);
    TotalsConserved(preview, Completed(receipts), protectedIds);
    var exact := dryRun;
    if !dryRun {
      exact := AllExact(remove);
    }
    result := if exact then Planned(kept, |remove|, if dryRun then [] else remove) else Refused;
    ResultSpelled(preview, receipts, protectedIds, keeps, dryRun, result);
  }

  /** Refused for a negative count or five zeroes, or an id that is no id among
      what would go; otherwise what goes is exactly what may, and nothing on a
      rehearsal. */
  ghost predicate AsPromised(
    preview: seq<Group>, receipts: seq<Snapshot>, protectedIds: set<string>, keeps: Retention, dryRun: bool,
    result: Forgotten) {
    && (result == Refused <==>
          || keeps.keepLast < 0 || keeps.keepDaily < 0 || keeps.keepWeekly < 0 || keeps.keepMonthly < 0 || keeps.keepYearly < 0
          || keeps.keepLast + keeps.keepDaily + keeps.keepWeekly + keeps.keepMonthly + keeps.keepYearly == 0
          || (!dryRun && exists id :: GoesFrom(preview, receipts, protectedIds, id) && !HexId(id)))
    && (result.Planned? ==>
          forall id :: id in result.deleted <==> !dryRun && GoesFrom(preview, receipts, protectedIds, id))
  }

  lemma ResultSpelled(
    preview: seq<Group>, receipts: seq<Snapshot>, protectedIds: set<string>, keeps: Retention, dryRun: bool,
    result: Forgotten)
    requires var remove := Removals(SafeGroups(preview, Completed(receipts), protectedIds));
             && (result == Refused <==> !UsableKeeps(keeps) || (!dryRun && exists id | id in remove :: !ExactId(id)))
             && (result.Planned? ==> result.deleted == if dryRun then [] else remove)
    ensures AsPromised(preview, receipts, protectedIds, keeps, dryRun, result)
  {
    var remove := Removals(SafeGroups(preview, Completed(receipts), protectedIds));
    forall id ensures id in remove <==> GoesFrom(preview, receipts, protectedIds, id) {
      GoesIff(preview, receipts, protectedIds, id);
    }
    forall id: string ensures ExactId(id) <==> HexId(id) {}
    if id :| GoesFrom(preview, receipts, protectedIds, id) && !HexId(id) { assert id in remove && !ExactId(id); }
  }

  method SafeRemovals(preview: seq<Group>, completed: set<string>, ghost certified: set<string>, protectedIds: set<string>)
    returns (kept: nat, remove: seq<string>)
    requires completed == certified || !exists g | g in preview :: DependsOnReceipts(g)
    ensures kept == Kept(SafeGroups(preview, certified, protectedIds))
    ensures remove == Removals(SafeGroups(preview, certified, protectedIds))
  {
    kept, remove := 0, [];
    for i := 0 to |preview|
      invariant kept == Kept(SafeGroups(preview[..i], certified, protectedIds))
      invariant remove == Removals(SafeGroups(preview[..i], certified, protectedIds))
    {
      var group := preview[i];
      ghost var before := SafeGroups(preview[..i], certified, protectedIds);
      ghost var safe := SafeGroups(preview[..i + 1], certified, protectedIds);
      assert preview[..i + 1][..i] == preview[..i];
      if COMPLETION_RECEIPT_TAG in group.tags {
        continue;
      }
      assert safe[..|safe| - 1] == before;
      var protected := IsBlocked(group, completed, protectedIds);
      SameBlocked(preview, group, completed, certified, protectedIds);
      if protected {
        assert Ids([]) == [];
        kept := kept + |group.keep| + |group.remove|;
      } else {
        kept := kept + |group.keep|;
        remove := remove + Ids(group.remove);
      }
    }
    assert preview[..|preview|] == preview;
  }

  method AllExact(ids: seq<string>) returns (exact: bool)
    ensures exact <==> forall id | id in ids :: ExactId(id)
  {
    for i := 0 to |ids|
      invariant forall k | 0 <= k < i :: ExactId(ids[k])
    {
      if !ExactId(ids[i]) {
        assert ids[i] in ids;
        return false;
      }
    }
    return true;
  }

  ghost predicate DependsOnReceipts(group: Group) {
    exists s :: Member(group, s) && NeedsCompletion(s)
  }

  /** Whether any previewed snapshot depends on a receipt. */
  method NeedsReceipts(preview: seq<Group>) returns (needs: bool)
    ensures needs <==> exists g | g in preview :: DependsOnReceipts(g)
  {
    for i := 0 to |preview|
      invariant forall g | g in preview[..i] :: !DependsOnReceipts(g)
    {
      assert preview[i] in preview;
      assert preview[..i + 1] == preview[..i] + [preview[i]];
      if (exists s | s in preview[i].keep :: NeedsCompletion(s)) || (exists s | s in preview[i].remove :: NeedsCompletion(s)) {
        return true;
      }
    }
    assert preview[..|preview|] == preview;
    return false;
  }

  method IsBlocked(group: Group, completed: set<string>, protectedIds: set<string>) returns (blocked: bool)
    ensures blocked <==> Blocked(group, completed, protectedIds)
  {
    blocked := group.protected;
    var all := group.keep + group.remove;
    for i := 0 to |all|
      invariant blocked <==> group.protected || exists s | s in all[..i] :: Suspect(s, completed, protectedIds)
    {
      assert all[..i + 1] == all[..i] + [all[i]];
      if Suspect(all[i], completed, protectedIds) {
        blocked := true;
      }
    }
    assert all[..|all|] == all && forall s :: s in all <==> Member(group, s);
  }

  /** When nothing depends on a receipt, not reading them changes nothing. */
  lemma SameBlocked(preview: seq<Group>, group: Group, found: set<string>, completed: set<string>, protectedIds: set<string>)
    requires group in preview
    requires found == completed || !exists g | g in preview :: DependsOnReceipts(g)
    ensures Blocked(group, found, protectedIds) <==> Blocked(group, completed, protectedIds)
  {
  }

  // ---- Listing ----

  /** A backup as it is shown, and whether a receipt says it was read whole. */
  datatype Listed = Listed(snapshot: Snapshot, readComplete: bool)

  /** The account backups of a listing, in its own order. */
  function Backups(raw: seq<Snapshot>, completed: set<string>): seq<Listed> {
    if raw == [] then []
    else
      var front, last := Backups(raw[..|raw| - 1], completed), raw[|raw| - 1];
      if IsReceipt(last) then front else front + [Listed(last, last.id in completed)]
  }

  predicate Ascending(listed: seq<Listed>) {
    forall i, j | 0 <= i < j < |listed| :: listed[i].snapshot.time <= listed[j].snapshot.time
  }

  method SortByTime(listed: seq<Listed>) returns (sorted: seq<Listed>)
    ensures Ascending(sorted) && multiset(sorted) == multiset(listed)
  {
    sorted := [];
    for i := 0 to |listed|
      invariant Ascending(sorted) && multiset(sorted) == multiset(listed[..i])
    {
      assert listed[..i + 1] == listed[..i] + [listed[i]];
      sorted := InsertByTime(sorted, listed[i]);
    }
    assert listed[..|listed|] == listed;
  }

  method InsertByTime(sorted: seq<Listed>, one: Listed) returns (more: seq<Listed>)
    requires Ascending(sorted)
    ensures Ascending(more) && multiset(more) == multiset(sorted) + multiset{one}
  {
    var at := |sorted|;
    while at > 0 && one.snapshot.time < sorted[at - 1].snapshot.time
      invariant 0 <= at <= |sorted|
      invariant forall k | at <= k < |sorted| :: one.snapshot.time < sorted[k].snapshot.time
    {
      at := at - 1;
    }
    InsertCounts(sorted, one, at);
    InsertAscending(sorted, one, at);
    more := sorted[..at] + [one] + sorted[at..];
  }

  lemma InsertAscending(sorted: seq<Listed>, one: Listed, at: nat)
    requires Ascending(sorted) && at <= |sorted|
    requires forall k | at <= k < |sorted| :: one.snapshot.time < sorted[k].snapshot.time
    requires at > 0 ==> sorted[at - 1].snapshot.time <= one.snapshot.time
    ensures Ascending(sorted[..at] + [one] + sorted[at..])
  {
  }

  /** The n most recent account backups, or all of them. A receipt is never
      among them and never takes the place of one. */
  ghost predicate IsLatest(all: seq<Listed>, latest: int, visible: seq<Listed>) {
    if latest <= 0 || |all| <= latest then visible == all
    else
      && |visible| == latest && Ascending(visible)
      && exists older: seq<Listed> ::
           && multiset(older) + multiset(visible) == multiset(all)
           && forall o, v | o in older && v in visible :: o.snapshot.time <= v.snapshot.time
  }

  method Snapshots(raw: seq<Snapshot>, receipts: seq<Snapshot>, latest: int) returns (visible: seq<Listed>)
    ensures var completed := if exists s | s in raw :: NeedsCompletion(s) then Completed(receipts) else {};
            IsLatest(Backups(raw, completed), latest, visible)
    ensures MarkedRight(raw, receipts, visible)
    ensures latest <= 0 ==> ListsAll(raw, visible)
  {
    var completed: set<string> := {};
    if exists s | s in raw :: NeedsCompletion(s) {
      completed := CompletionReceipts(receipts);
    }
    visible := [];
    for i := 0 to |raw|
      invariant visible == Backups(raw[..i], completed)
    {
      assert raw[..i + 1][..i] == raw[..i];
      if IsReceipt(raw[i]) {
        continue;
      }
      visible := visible + [Listed(raw[i], raw[i].id in completed)];
    }
    assert raw[..|raw|] == raw;
    if latest > 0 && |visible| > latest {
      var sorted := SortByTime(visible);
      assert |sorted| == |multiset(sorted)|;
      LastAreLatest(visible, sorted, latest);
      visible := sorted[|sorted| - latest..];
      LatestAreThere(Backups(raw, completed), sorted, visible);
    }
    ListedRight(raw, receipts, completed, visible);
  }

  /** Every backup shown is one that was listed and no receipt, and it is marked
      as read whole exactly when something listed needs a receipt and a receipt
      certifies it. */
  ghost predicate MarkedRight(raw: seq<Snapshot>, receipts: seq<Snapshot>, visible: seq<Listed>) {
    forall l | l in visible ::
      && l.snapshot in raw && "cprest:completion-v1" !in l.snapshot.tags
      && (l.readComplete <==> (exists s | s in raw :: "cprest:read-status-v1" in s.tags) && Receipted(receipts, l.snapshot.id))
  }

  /** All that is no receipt, as often as it was listed and in that order. */
  ghost predicate ListsAll(raw: seq<Snapshot>, visible: seq<Listed>) {
    exists from :: ArePayloads(raw, from) && AreFrom(raw, from, visible)
  }

  ghost predicate AreFrom(raw: seq<Snapshot>, from: seq<nat>, visible: seq<Listed>) {
    |visible| == |from| && forall i | 0 <= i < |from| :: from[i] < |raw| && visible[i].snapshot == raw[from[i]]
  }

  lemma ListedRight(raw: seq<Snapshot>, receipts: seq<Snapshot>, completed: set<string>, visible: seq<Listed>)
    requires completed == if exists s | s in raw :: NeedsCompletion(s) then Completed(receipts) else {}
    requires forall l | l in visible :: l in Backups(raw, completed)
    ensures MarkedRight(raw, receipts, visible)
    ensures visible == Backups(raw, completed) ==> ListsAll(raw, visible)
  {
    var from := BackupsAre(raw, completed);
    forall l | l in visible
      ensures l.snapshot in raw && !IsReceipt(l.snapshot) && (l.readComplete <==> l.snapshot.id in completed)
    {
      var i :| 0 <= i < |from| && Backups(raw, completed)[i] == l;
      assert from[i] in from;
    }
    forall id ensures id in Completed(receipts) <==> Receipted(receipts, id) {
      CompletedIff(receipts, id);
      ReceiptedIff(receipts, id);
    }
    assert AreFrom(raw, from, Backups(raw, completed));
  }

  lemma LatestAreThere(all: seq<Listed>, sorted: seq<Listed>, visible: seq<Listed>)
    requires multiset(sorted) == multiset(all) && forall l | l in visible :: l in sorted
    ensures forall l | l in visible :: l in all
  {
    forall l | l in visible ensures l in all {
      assert l in multiset(sorted);
    }
  }

  /** The places of everything that is no receipt, in order. */
  ghost predicate ArePayloads(raw: seq<Snapshot>, from: seq<nat>) {
    && (forall i, j | 0 <= i < j < |from| :: from[i] < from[j])
    && (forall k: nat :: k in from <==> k < |raw| && "cprest:completion-v1" !in raw[k].tags)
  }

  /** What is listed is exactly those, each marked by whether it is completed. */
  lemma {:induction false} BackupsAre(raw: seq<Snapshot>, completed: set<string>) returns (from: seq<nat>)
    ensures ArePayloads(raw, from) && |Backups(raw, completed)| == |from|
    ensures forall i | 0 <= i < |from| ::
              from[i] < |raw| && Backups(raw, completed)[i] == Listed(raw[from[i]], raw[from[i]].id in completed)
  {
    if raw == [] {
      from := [];
    } else {
      var n := |raw| - 1;
      from := BackupsAre(raw[..n], completed);
      forall i | 0 <= i < |from| ensures from[i] < n { assert from[i] in from; }
      if !IsReceipt(raw[n]) { from := from + [n]; }
    }
  }

  lemma LastAreLatest(all: seq<Listed>, sorted: seq<Listed>, latest: int)
    requires Ascending(sorted) && multiset(sorted) == multiset(all) && 0 < latest < |sorted| == |all|
    ensures IsLatest(all, latest, sorted[|sorted| - latest..])
  {
    var older, visible := sorted[..|sorted| - latest], sorted[|sorted| - latest..];
    assert sorted == older + visible;
    forall o, v | o in older && v in visible ensures o.snapshot.time <= v.snapshot.time {
      var i :| 0 <= i < |older| && older[i] == o;
      var j :| 0 <= j < |visible| && visible[j] == v;
      assert sorted[i] == o && sorted[|older| + j] == v;
    }
  }
}
