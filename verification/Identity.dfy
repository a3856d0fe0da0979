/** Which unix account a cPanel name means, and from when its backups belong
    to whoever holds it (internal/node/identity.go). */
module Identity {
  import opened NodeStore

  datatype Identity = Identity(uid: int, sinceAt: Time, recycled: bool, retiredAt: Option<Time>)

  function Lookup<A>(identities: map<A, Identity>, account: A): Option<Identity> {
    if account in identities then Some(identities[account]) else None
  }

  // ---- One record ----

  /** What noteIdentity stores when it finds `uid` behind a name. */
  function Noted(stored: Option<Identity>, uid: int, backfilled: bool, now: Time): Identity {
    match stored
    case None => Identity(uid, now, backfilled, None)
    case Some(s) =>
      if s.retiredAt.Some? then Identity(uid, now, true, None)
      else if s.uid == uid then s.(sinceAt := if s.sinceAt == 0 then now else s.sinceAt)
      else Identity(uid, now, true, None)
  }

  /** What a delivered create event stores. */
  function Created(stored: Option<Identity>, uid: int, at: Time): Identity {
    match stored
    case None => Identity(uid, at, true, None)
    case Some(s) => if s.recycled && s.sinceAt >= at then s else Identity(uid, at, true, None)
  }

  /** What a delivered remove event stores. */
  function Removed(stored: Option<Identity>, now: Time): Option<Identity> {
    match stored
    case None => None
    case Some(s) => if s.retiredAt.None? then Some(s.(retiredAt := Some(now))) else stored
  }

  /** What polling stores for a name that is on the server. */
  function Polled(stored: Option<Identity>, uid: int, backfilled: bool, now: Time): Identity {
    match stored
    case None => Noted(stored, uid, backfilled, now)
    case Some(s) => if s.uid == uid && s.retiredAt.None? then s else Noted(stored, uid, backfilled, now)
  }

  /** What the new name stores when a rename is carried across. */
  function Inherited(from: Identity): Identity {
    Identity(from.uid, from.sinceAt, from.recycled, None)
  }

  /** The earliest backup the holder of a name may see. Zero means all of them. */
  function VisibleSince(stored: Option<Identity>): Time {
    match stored
    case None => 0
    case Some(s) => if s.recycled then s.sinceAt else 0
  }

  /** A boundary, once there, is kept or moved later. */
  predicate Later(before: Option<Identity>, after: Option<Identity>) {
    before.Some? && before.value.recycled ==>
      after.Some? && after.value.recycled && before.value.sinceAt <= after.value.sinceAt
  }

  /** No way of recording what a name means ever clears its boundary or moves
      it earlier. */
  lemma BoundaryNeverRetreats(stored: Option<Identity>, uid: int, backfilled: bool, at: Time, now: Time)
    requires stored.Some? ==> stored.value.sinceAt <= now
    ensures Later(stored, Some(Noted(stored, uid, backfilled, now)))
    ensures Later(stored, Some(Created(stored, uid, at)))
    ensures Later(stored, Removed(stored, now))
    ensures Later(stored, Some(Polled(stored, uid, backfilled, now)))
  {
  }

  /** What each call makes of a record, case by case: a name seen for the first
      time, one whose record was retired or is another uid's, and one that is
      as it was. */
  lemma NotedCases(stored: Option<Identity>, uid: int, backfilled: bool, now: Time)
    ensures stored.None? ==> Noted(stored, uid, backfilled, now) == Identity(uid, now, backfilled, None)
    ensures stored.Some? && (stored.value.retiredAt.Some? || stored.value.uid != uid) ==>
              Noted(stored, uid, backfilled, now) == Identity(uid, now, true, None)
    ensures stored.Some? && stored.value.retiredAt.None? && stored.value.uid == uid && stored.value.sinceAt != 0 ==>
              Noted(stored, uid, backfilled, now) == stored.value
    ensures stored.Some? && stored.value.retiredAt.None? && stored.value.uid == uid && stored.value.sinceAt == 0 ==>
              Noted(stored, uid, backfilled, now) == Identity(uid, now, stored.value.recycled, None)
  {
  }

  /** A pass over the account list leaves alone what a note would, and notes
      the rest. */
  lemma PolledCases(stored: Option<Identity>, uid: int, backfilled: bool, now: Time)
    ensures stored.Some? && stored.value.retiredAt.None? && stored.value.uid == uid ==>
              Polled(stored, uid, backfilled, now) == stored.value
    ensures stored.None? || stored.value.retiredAt.Some? || stored.value.uid != uid ==>
              Polled(stored, uid, backfilled, now) == Identity(uid, now, stored.Some? || backfilled, None)
  {
  }

  lemma EventCases(stored: Option<Identity>, uid: int, at: Time, now: Time)
    ensures stored.Some? && stored.value.recycled && at <= stored.value.sinceAt ==> Created(stored, uid, at) == stored.value
    ensures stored.None? || !stored.value.recycled || stored.value.sinceAt < at ==>
              Created(stored, uid, at) == Identity(uid, at, true, None)
    ensures Removed(stored, now).Some? <==> stored.Some?
    ensures stored.Some? ==>
              var removed := Removed(stored, now).value;
              && removed == stored.value.(retiredAt := removed.retiredAt)
              && removed.retiredAt == if stored.value.retiredAt.Some? then stored.value.retiredAt else Some(now)
  {
  }

  /** Only a record with a boundary hides anything, and what is before it. */
  lemma VisibleCases(snapshots: seq<Snapshot>, stored: Option<Identity>, s: Snapshot)
    ensures s in Visible(snapshots, VisibleSince(stored)) <==>
            s in snapshots &&
            !(stored.Some? && stored.value.recycled && stored.value.sinceAt != 0 && s.at < stored.value.sinceAt)
  {
  }

  /** The backfill gives a record without a boundary to a listed name that has
      none and can be read, and changes nothing else. */
  lemma BackfilledCases(stored: Option<Identity>, listed: bool, uid: Uid, now: Time)
    ensures stored.Some? || !listed || uid == NoSuchAccount || uid == Unreadable ==>
              Backfilled(stored, listed, uid, now) == stored
    ensures stored.None? && listed && uid != NoSuchAccount && uid != Unreadable ==>
              Backfilled(stored, listed, uid, now) == Some(Identity(uid.uid, now, false, None))
  {
  }

  // ---- Policy membership ----

  function Without(accounts: seq<string>, account: string): (kept: seq<string>)
    ensures forall a :: a in kept <==> a in accounts && a != account
    ensures |kept| <= |accounts|
    ensures |kept| == |accounts| <==> account !in accounts
    ensures account !in accounts ==> kept == accounts
  {
    if accounts == [] then []
    else
      var front, last := accounts[..|accounts| - 1], accounts[|accounts| - 1];
      assert accounts == front + [last];
      if last == account then Without(front, account) else Without(front, account) + [last]
  }

  /** The accounts a policy keeps (internal/node/identity.go:574-579). */
  method Others(accounts: seq<string>, account: string) returns (kept: seq<string>)
    ensures kept == Without(accounts, account)
  {
    kept := [];
    for k := 0 to |accounts|
      invariant kept == Without(accounts[..k], account)
    {
      assert accounts[..k + 1][..k] == accounts[..k];
      if accounts[k] != account {
        kept := kept + [accounts[k]];
      }
    }
    assert accounts[..|accounts|] == accounts;
  }

  /** A named policy loses the account; one that loses its only account is
      disabled, because an empty list means everybody. */
  function RemoveFrom(policy: Policy, account: string): Policy {
    if policy.AllAccounts() then policy
    else
      var kept := Without(policy.accounts, account);
      if |kept| == |policy.accounts| then policy
      else policy.(accounts := kept, enabled := policy.enabled && kept != [])
  }

  /** A removal never makes an enabled policy cover more, and costs nobody but
      the removed account its cover. */
  lemma RemovalNeverWidens(policy: Policy, account: string, other: string)
    ensures var after := RemoveFrom(policy, account);
            && (after.enabled && after.Covers(other) ==> policy.enabled && policy.Covers(other))
            && (after.enabled && !policy.AllAccounts() ==> !after.Covers(account))
            && (other != account && policy.enabled && policy.Covers(other) ==> after.enabled && after.Covers(other))
            && RemoveFrom(after, account) == after
  {
  }

  function RemoveFromAll(policies: seq<Policy>, account: string): (after: seq<Policy>)
    ensures |after| == |policies|
    ensures forall i | 0 <= i < |policies| :: after[i] == RemoveFrom(policies[i], account)
  {
    seq(|policies|, i requires 0 <= i < |policies| => RemoveFrom(policies[i], account))
  }

  function Renamed(accounts: seq<string>, oldName: string, newName: string): (renamed: seq<string>)
    ensures |renamed| == |accounts|
    ensures forall i | 0 <= i < |accounts| :: renamed[i] == if accounts[i] == oldName then newName else accounts[i]
  {
    seq(|accounts|, i requires 0 <= i < |accounts| => if accounts[i] == oldName then newName else accounts[i])
  }

  function RenameIn(policies: seq<Policy>, oldName: string, newName: string): (after: seq<Policy>)
    ensures |after| == |policies|
    ensures forall i | 0 <= i < |policies| ::
              after[i] == policies[i].(accounts := Renamed(policies[i].accounts, oldName, newName))
  {
    seq(|policies|, i requires 0 <= i < |policies| =>
      policies[i].(accounts := Renamed(policies[i].accounts, oldName, newName)))
  }

  /** A rename carries the cover across: nobody else's changes. */
  lemma RenameCarriesCover(policy: Policy, oldName: string, newName: string, other: string)
    requires oldName != newName
    ensures var after := RenameIn([policy], oldName, newName)[0];
            && after.enabled == policy.enabled
            && (after.Covers(newName) <==> policy.Covers(oldName) || policy.Covers(newName))
            && (other != oldName && other != newName ==> (after.Covers(other) <==> policy.Covers(other)))
            && (!policy.AllAccounts() ==> !after.Covers(oldName))
  {
    var before, after := policy.accounts, Renamed(policy.accounts, oldName, newName);
    assert RenameIn([policy], oldName, newName)[0].accounts == after;
    forall name | name in before ensures (if name == oldName then newName else name) in after {
      var i :| 0 <= i < |before| && before[i] == name;
      assert after[i] in after;
    }
    forall name | name in after ensures name != oldName && (name == newName || name in before) {
      var i :| 0 <= i < |after| && after[i] == name;
      assert before[i] in before;
    }
    assert newName in after <==> oldName in before || newName in before by {
      if newName in after {
        var i :| 0 <= i < |after| && after[i] == newName;
        assert before[i] in before;
      }
    }
  }

  // ---- The engine ----

  /** What asking the system for the unix account behind a name came to. */
  datatype Uid = Uid(uid: int) | NoSuchAccount | Unreadable

  datatype Snapshot = Snapshot(id: string, at: Time)

  datatype Outcome = Recorded | Gone | NotRecorded

  function UidOf(uids: map<string, Uid>, account: string): Uid {
    if account in uids then uids[account] else NoSuchAccount
  }

  /** What the one-time backfill stores for a name. */
  function Backfilled(stored: Option<Identity>, listed: bool, uid: Uid, now: Time): Option<Identity> {
    if listed && stored.None? && uid.Uid? then Some(Identity(uid.uid, now, false, None)) else stored
  }

  function Visible(snapshots: seq<Snapshot>, since: Time): (theirs: seq<Snapshot>)
    ensures forall s :: s in theirs <==> s in snapshots && (since == 0 || s.at >= since)
  {
    if since == 0 then snapshots
    else if snapshots == [] then []
    else
      var front, last := snapshots[..|snapshots| - 1], snapshots[|snapshots| - 1];
      assert snapshots == front + [last];
      if last.at < since then Visible(front, since) else Visible(front, since) + [last]
  }

  /** A name nobody has recorded, with the uid of a recorded name that is gone
      and was not removed. */
  ghost predicate Renameable<A>(known: map<A, Identity>, current: map<A, int>, oldName: A, newName: A) {
    && newName in current && newName !in known
    && oldName in known && oldName !in current
    && known[oldName].retiredAt.None? && known[oldName].uid == current[newName]
  }

  /** Old names to new names: each rename is a possible one, and no name takes
      part in two. */
  ghost predicate IsRenaming<A>(known: map<A, Identity>, current: map<A, int>, renames: map<A, A>) {
    && (forall o | o in renames :: Renameable(known, current, o, renames[o]))
    && (forall o, p | o in renames && p in renames && o != p :: renames[o] != renames[p])
  }

  ghost predicate TakenOver<A>(renames: map<A, A>, newName: A) {
    exists o | o in renames :: renames[o] == newName
  }

  /** The records after a pass over some of the names on the server. */
  ghost predicate Reconciled<A(!new)>(known: map<A, Identity>, current: map<A, int>, done: set<A>,
                             renames: map<A, A>, backfilled: bool, now: Time, identities: map<A, Identity>)
  {
    && IsRenaming(known, current, renames)
    && (forall o | o in renames ::
          && renames[o] in done
          && Lookup(identities, renames[o]) == Some(Inherited(known[o]))
          && Lookup(identities, o) == Some(known[o].(retiredAt := Some(now))))
    && (forall a | a !in renames && !TakenOver(renames, a) ::
          Lookup(identities, a) ==
            if a in done && a in current then Some(Polled(Lookup(known, a), current[a], backfilled, now))
            else Lookup(known, a))
  }

  /** Nobody who could have taken over an absent record was left without one. */
  ghost predicate RenamesComplete<A(!new)>(known: map<A, Identity>, current: map<A, int>, done: set<A>,
                                  renames: map<A, A>) {
    forall o, n | n in done && Renameable(known, current, o, n) && !TakenOver(renames, n) :: o in renames
  }

  function NewName<A>(renames: map<A, A>, account: A): A {
    if account in renames then renames[account] else account
  }

  /** Every policy names the same people as before, by their new names. */
  ghost predicate RenamedTo(before: seq<Policy>, renames: map<string, string>, after: seq<Policy>) {
    && |after| == |before|
    && forall i | 0 <= i < |before| ::
         && after[i] == before[i].(accounts := after[i].accounts)
         && |after[i].accounts| == |before[i].accounts|
         && forall k | 0 <= k < |before[i].accounts| ::
              after[i].accounts[k] == NewName(renames, before[i].accounts[k])
  }

  class Engine {
    var identities: map<string, Identity>
    var policies: seq<Policy>
    var backfilledAt: Option<Time>

    /** Records, once, every account that is on the server now. A name that has
        a record, or no readable unix account, is left alone. */
    method BackfillIdentities(accounts: seq<string>, uids: map<string, Uid>, now: Time)
      modifies this
      ensures policies == old(policies)
      ensures old(backfilledAt).Some? ==> identities == old(identities) && backfilledAt == old(backfilledAt)
      ensures old(backfilledAt).None? ==> backfilledAt == Some(now)
      ensures old(backfilledAt).None? ==>
                forall a :: Lookup(identities, a) == Backfilled(Lookup(old(identities), a), a in accounts, UidOf(uids, a), now)
    {
      if backfilledAt.Some? {
        return;
      }
      for k := 0 to |accounts|
        invariant policies == old(policies) && backfilledAt == old(backfilledAt)
        invariant forall a :: Lookup(identities, a) ==
                    Backfilled(Lookup(old(identities), a), a in accounts[..k], UidOf(uids, a), now)
      {
        var account := accounts[k];
        assert accounts[..k + 1] == accounts[..k] + [account];
        assert account in identities <==> Lookup(identities, account).Some?;
        if account in identities {
          continue;
        }
        var uid := UidOf(uids, account);
        if !uid.Uid? {
          continue;
        }
        identities := identities[account := Identity(uid.uid, now, false, None)];
      }
      assert accounts[..|accounts|] == accounts;
      backfilledAt := Some(now);
    }

    method NoteIdentity(account: string, uid: int, now: Time)
      modifies this`identities
      ensures identities == old(identities)[account := Noted(Lookup(old(identities), account), uid, backfilledAt.Some?, now)]
    {
      if account !in identities {
        identities := identities[account := Identity(uid, now, backfilledAt.Some?, None)];
        return;
      }
      var stored := identities[account];
      if stored.retiredAt.Some? {
        identities := identities[account := Identity(uid, now, true, None)];
      } else if stored.uid == uid {
        identities := identities[account := stored.(sinceAt := if stored.sinceAt == 0 then now else stored.sinceAt)];
      } else {
        identities := identities[account := Identity(uid, now, true, None)];
      }
    }

    /** A create event, with the time cPanel made the account. */
    method AccountCreated(account: string, at: Time, uid: Uid, now: Time) returns (outcome: Outcome)
      modifies this`identities
      ensures outcome == match uid case Uid(_) => Recorded case NoSuchAccount => Gone case Unreadable => NotRecorded
      ensures outcome != Recorded ==> identities == old(identities)
      ensures outcome == Recorded ==> identities == old(identities)[account :=
                Created(Lookup(old(identities), account), uid.uid, if at == 0 then now else at)]
    {
      var boundary := if at == 0 then now else at;
      match uid {
        case NoSuchAccount => return Gone;
        case Unreadable => return NotRecorded;
        case Uid(found) =>
          if account in identities {
            var previous := identities[account];
            if previous.recycled && previous.sinceAt >= boundary {
              return Recorded;
            }
          }
          identities := identities[account := Identity(found, boundary, true, None)];
          return Recorded;
      }
    }

    /** A remove event: the identity is kept and retired, and no named policy
        goes on naming the account. */
    method AccountRemoved(account: string, now: Time)
      modifies this`identities, this`policies
      ensures forall a :: Lookup(identities, a) ==
                if a == account then Removed(Lookup(old(identities), a), now) else Lookup(old(identities), a)
      ensures policies == RemoveFromAll(old(policies), account)
    {
      if account in identities && identities[account].retiredAt.None? {
        identities := identities[account := identities[account].(retiredAt := Some(now))];
      }
      LeavePolicies(account);
    }

    /** The second half: no named policy goes on naming the account, and one
        left without a name is disabled. */
    method LeavePolicies(account: string)
      modifies this`policies
      ensures policies == RemoveFromAll(old(policies), account)
    {
      var i := 0;
      while i < |policies|
        invariant i <= |policies| == |old(policies)|
        invariant forall j | 0 <= j < i :: policies[j] == RemoveFrom(old(policies)[j], account)
        invariant forall j | i <= j < |policies| :: policies[j] == old(policies)[j]
      {
        var policy := policies[i];
        if !policy.AllAccounts() {
          var kept := Others(policy.accounts, account);
          if |kept| != |policy.accounts| {
            policies := policies[i := policy.(accounts := kept, enabled := policy.enabled && kept != [])];
          }
        }
        i := i + 1;
      }
    }

    /** Carries a rename into every policy that names the account. */
    method RenamePolicyAccount(oldName: string, newName: string)
      modifies this`policies
      ensures policies == RenameIn(old(policies), oldName, newName)
    {
      var i := 0;
      while i < |policies|
        invariant i <= |policies| == |old(policies)|
        invariant forall j | 0 <= j < i ::
                    policies[j] == old(policies)[j].(accounts := Renamed(old(policies)[j].accounts, oldName, newName))
        invariant forall j | i <= j < |policies| :: policies[j] == old(policies)[j]
      {
        policies := policies[i := policies[i].(accounts := Renamed(policies[i].accounts, oldName, newName))];
        i := i + 1;
      }
    }

    /** What the person holding a name today may see of it. */
    method UserSnapshots(account: string, uid: int, now: Time, snapshots: seq<Snapshot>) returns (theirs: seq<Snapshot>)
      modifies this`identities
      ensures identities == old(identities)[account := Noted(Lookup(old(identities), account), uid, backfilledAt.Some?, now)]
      ensures theirs == Visible(snapshots, VisibleSince(Some(identities[account])))
    {
      NoteIdentity(account, uid, now);
      var since := if identities[account].recycled then identities[account].sinceAt else 0;
      if since == 0 {
        return snapshots;
      }
      theirs := [];
      for k := 0 to |snapshots|
        invariant identities == old(identities)[account := Noted(Lookup(old(identities), account), uid, backfilledAt.Some?, now)]
        invariant theirs == Visible(snapshots[..k], since)
      {
        assert snapshots[..k + 1][..k] == snapshots[..k];
        if snapshots[k].at < since {
          continue;
        }
        theirs := theirs + [snapshots[k]];
      }
      assert snapshots[..|snapshots|] == snapshots;
    }

    /** Applies the account list to the records. A name without a record takes
        over the record of an absent name with the same uid only after cPanel
        reported a modification; `renames` says which records were taken over. */
    method ReconcileAccounts(current: map<string, int>, allowRenames: bool, now: Time)
      returns (ghost renames: map<string, string>)
      modifies this`identities, this`policies
      ensures !allowRenames ==> renames == map[] && policies == old(policies)
      ensures Reconciled(old(identities), current, current.Keys, renames, backfilledAt.Some?, now, identities)
      ensures RenamedTo(old(policies), renames, policies)
      ensures allowRenames ==> RenamesComplete(old(identities), current, current.Keys, renames)
    {
      renames := map[];
      var known := identities;
      var retired: set<string> := {};
      var todo := current.Keys;
      ghost var done: set<string> := {};
      NothingReconciled(known, current, backfilledAt.Some?, now);
      while todo != {}
        invariant done !! todo && done + todo == current.Keys && retired == renames.Keys
        invariant !allowRenames ==> renames == map[] && policies == old(policies)
        invariant Reconciled(known, current, done, renames, backfilledAt.Some?, now, identities)
        invariant RenamedTo(old(policies), renames, policies)
        invariant allowRenames ==> RenamesComplete(known, current, done, renames)
      {
        var name :| name in todo;
        ghost var before := done;
        todo, done := todo - {name}, done + {name};
        assert done - {name} == before;
        var renamedFrom;
        renamedFrom, renames := ReconcileOne(name, allowRenames, now, known, current, retired, done, renames, old(policies));
        if renamedFrom.Some? {
          retired := retired + {renamedFrom.value};
        }
      }
      assert done == current.Keys;
    }

    /** One name of the account list. */
    method ReconcileOne(name: string, allowRenames: bool, now: Time, known: map<string, Identity>, current: map<string, int>,
                        retired: set<string>, ghost done: set<string>, ghost renames: map<string, string>,
                        ghost before: seq<Policy>) returns (renamedFrom: Option<string>, ghost more: map<string, string>)
      requires name in current && name in done && retired == renames.Keys
      requires Reconciled(known, current, done - {name}, renames, backfilledAt.Some?, now, identities)
      requires RenamedTo(before, renames, policies)
      requires allowRenames ==> RenamesComplete(known, current, done - {name}, renames)
      modifies this`identities, this`policies
      ensures renamedFrom.None? ==> more == renames && policies == old(policies)
      ensures renamedFrom.Some? ==> allowRenames && more == renames[renamedFrom.value := name]
      ensures Reconciled(known, current, done, more, backfilledAt.Some?, now, identities)
      ensures RenamedTo(before, more, policies)
      ensures allowRenames ==> RenamesComplete(known, current, done, more)
    {
      renamedFrom, more := None, renames;
      if name !in known && allowRenames {
        renamedFrom := FindRenamed(known, current, retired, current[name]);
      }
      if renamedFrom.None? {
        PollOne(name, current[name], now, known, current, done, renames);
        if allowRenames {
          CompleteStep(known, current, done, renames, name);
        }
      } else {
        CarryRename(renamedFrom.value, name, now, known, current, done, renames, before);
        more := renames[renamedFrom.value := name];
        CompleteRename(known, current, done, renames, renamedFrom.value, name);
      }
    }

    /** Writes a known, unchanged name back as it was listed; otherwise notes
        which unix account it means. */
    method PollOne(name: string, uid: int, now: Time, known: map<string, Identity>, ghost current: map<string, int>,
                   ghost done: set<string>, ghost renames: map<string, string>)
      requires name in current && current[name] == uid && name in done
      requires Reconciled(known, current, done - {name}, renames, backfilledAt.Some?, now, identities)
      modifies this`identities
      ensures Reconciled(known, current, done, renames, backfilledAt.Some?, now, identities)
    {
      PolledStep(known, current, done, renames, backfilledAt.Some?, now, identities, name);
      if name in known && known[name].uid == uid && known[name].retiredAt.None? {
        identities := identities[name := known[name]];
      } else {
        NoteIdentity(name, uid, now);
      }
    }

    /** Moves a record and its policy memberships to the account's new name. */
    method CarryRename(oldName: string, name: string, now: Time, known: map<string, Identity>,
                       ghost current: map<string, int>, ghost done: set<string>, ghost renames: map<string, string>,
                       ghost before: seq<Policy>)
      requires Renameable(known, current, oldName, name) && oldName !in renames && name in done
      requires Reconciled(known, current, done - {name}, renames, backfilledAt.Some?, now, identities)
      requires RenamedTo(before, renames, policies)
      modifies this`identities, this`policies
      ensures Reconciled(known, current, done, renames[oldName := name], backfilledAt.Some?, now, identities)
      ensures RenamedTo(before, renames[oldName := name], policies)
    {
      RenamePolicyAccount(oldName, name);
      identities := identities[name := Inherited(known[oldName])];
      identities := identities[oldName := known[oldName].(retiredAt := Some(now))];
      ReconciledStep(known, current, done, renames, backfilledAt.Some?, now, old(identities), oldName, name);
      RenamedToStep(before, known, current, renames, old(policies), oldName, name);
    }
  }

  lemma NothingReconciled<A(!new)>(known: map<A, Identity>, current: map<A, int>, backfilled: bool, now: Time)
    ensures Reconciled(known, current, {}, map[], backfilled, now, known)
    ensures RenamesComplete(known, current, {}, map[])
  {
  }

  lemma PolledStep<A(!new)>(known: map<A, Identity>, current: map<A, int>, done: set<A>, renames: map<A, A>,
                            backfilled: bool, now: Time, identities: map<A, Identity>, name: A)
    requires name in current && name in done
    requires Reconciled(known, current, done - {name}, renames, backfilled, now, identities)
    ensures Lookup(identities, name) == Lookup(known, name)
    ensures Reconciled(known, current, done, renames, backfilled, now,
                       identities[name := Polled(Lookup(known, name), current[name], backfilled, now)])
  {
    assert name !in renames && !TakenOver(renames, name);
    assert forall o | o in renames :: o != name && renames[o] != name;
  }

  lemma CompleteStep<A(!new)>(known: map<A, Identity>, current: map<A, int>, done: set<A>, renames: map<A, A>, name: A)
    requires RenamesComplete(known, current, done - {name}, renames)
    requires forall o | Renameable(known, current, o, name) :: o in renames
    ensures RenamesComplete(known, current, done, renames)
  {
    forall o, n | n in done && Renameable(known, current, o, n) && !TakenOver(renames, n) ensures o in renames {
      assert n == name || n in done - {name};
    }
  }

  lemma CompleteRename<A(!new)>(known: map<A, Identity>, current: map<A, int>, done: set<A>, renames: map<A, A>,
                                oldName: A, newName: A)
    requires RenamesComplete(known, current, done - {newName}, renames) && oldName !in renames
    ensures RenamesComplete(known, current, done, renames[oldName := newName])
  {
    var more := renames[oldName := newName];
    assert more[oldName] == newName && forall p | p in renames :: more[p] == renames[p];
    forall o, n | n in done && Renameable(known, current, o, n) && !TakenOver(more, n) ensures o in more {
      assert n != newName && n in done - {newName};
    }
  }

  lemma ReconciledStep<A(!new)>(known: map<A, Identity>, current: map<A, int>, done: set<A>, renames: map<A, A>,
                                backfilled: bool, now: Time, identities: map<A, Identity>, oldName: A, newName: A)
    requires Renameable(known, current, oldName, newName)
    requires oldName !in renames && newName in done
    requires Reconciled(known, current, done - {newName}, renames, backfilled, now, identities)
    ensures Reconciled(known, current, done, renames[oldName := newName], backfilled, now,
                       identities[newName := Inherited(known[oldName])][oldName := known[oldName].(retiredAt := Some(now))])
  {
    var more := renames[oldName := newName];
    var after := identities[newName := Inherited(known[oldName])][oldName := known[oldName].(retiredAt := Some(now))];
    assert forall o | o in renames :: Renameable(known, current, o, renames[o]) && renames[o] != newName;
    assert more[oldName] == newName;
    forall n | TakenOver(renames, n) ensures TakenOver(more, n) {
      var o :| o in renames && renames[o] == n;
      assert more[o] == n;
    }
    forall o | o in more
      ensures o in known && more[o] in done
      ensures Lookup(after, more[o]) == Some(Inherited(known[o]))
      ensures Lookup(after, o) == Some(known[o].(retiredAt := Some(now)))
    {
    }
  }

  lemma RenamedToStep(before: seq<Policy>, known: map<string, Identity>, current: map<string, int>,
                      renames: map<string, string>, middle: seq<Policy>, oldName: string, newName: string)
    requires IsRenaming(known, current, renames) && Renameable(known, current, oldName, newName)
    requires oldName !in renames
    requires RenamedTo(before, renames, middle)
    ensures RenamedTo(before, renames[oldName := newName], RenameIn(middle, oldName, newName))
  {
    forall a
      ensures NewName(renames[oldName := newName], a) == (if NewName(renames, a) == oldName then newName else NewName(renames, a))
    {
      if a in renames {
        assert Renameable(known, current, a, renames[a]);
      }
    }
  }

  /** An absent, unretired name with this uid that no rename has used yet. */
  method FindRenamed(known: map<string, Identity>, current: map<string, int>, retired: set<string>, uid: int)
    returns (found: Option<string>)
    ensures found.Some? ==>
              && found.value in known && found.value !in retired && found.value !in current
              && known[found.value].uid == uid && known[found.value].retiredAt.None?
    ensures found.None? ==>
              forall o | o in known && known[o].uid == uid && known[o].retiredAt.None? && o !in current :: o in retired
  {
    var todo := known.Keys;
    while todo != {}
      invariant todo <= known.Keys
      invariant forall o | o in known.Keys - todo && known[o].uid == uid && known[o].retiredAt.None? && o !in current :: o in retired
    {
      var o :| o in todo;
      todo := todo - {o};
      if known[o].uid != uid || known[o].retiredAt.Some? || o in retired {
        continue;
      }
      if o !in current {
        return Some(o);
      }
    }
    return None;
  }
}
