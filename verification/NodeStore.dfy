/** The records the engine keeps, as far as the decisions modelled here read
    them (internal/nodestore/types.go, internal/job/job.go). */
module NodeStore {

  datatype Option<+T> = None | Some(value: T)

  /** An instant in nanoseconds. Zero is Go's zero time. */
  type Time = int

  /** The keep policy handed to "restic forget". */
  datatype Retention = Retention(
    keepLast: int,
    keepDaily: int,
    keepWeekly: int,
    keepMonthly: int,
    keepYearly: int)

  const NO_RETENTION := Retention(0, 0, 0, 0, 0)

  datatype Policy = Policy(
    id: string,
    scheduleCron: string,
    retention: Retention,
    repositoryIds: seq<string>,
    accounts: seq<string>,
    skipHomedir: bool,
    skipDatabases: bool,
    skipEmail: bool,
    alertNoBackupDays: int,
    enabled: bool)
  {
    /** An empty list means every account, resolved when the policy runs. */
    predicate AllAccounts() {
      accounts == []
    }

    predicate Covers(account: string) {
      AllAccounts() || account in accounts
    }
  }

  datatype Status = Pending | Running | Success | PartialSuccess | Failed | Cancelled
  {
    predicate Terminal() {
      Success? || PartialSuccess? || Failed? || Cancelled?
    }
  }

  datatype TargetStatus = TargetPending | TargetRunning | TargetSuccess | TargetFailed | TargetSkipped

  /** What one repository came to within a job. */
  datatype Target = Target(repositoryId: string, status: TargetStatus, incomplete: bool)

  datatype Job = Job(
    id: string,
    policyId: string,
    account: string,
    completeAccount: bool,
    status: Status,
    targets: seq<Target>,
    queuedAt: Time,
    finishedAt: Option<Time>)

  ghost predicate Distinct<T>(s: seq<T>) {
    forall i, j | 0 <= i < j < |s| :: s[i] != s[j]
  }

  ghost function Elements<T>(s: seq<T>): set<T> {
    set x | x in s
  }

  /** Every number listed is a position below n. */
  ghost predicate InRange(s: seq<nat>, n: nat) {
    forall k | 0 <= k < |s| :: s[k] < n
  }

  /** A sequence without repetitions has as many elements as positions. */
  lemma {:induction false} DistinctCardinality<T>(s: seq<T>)
    requires Distinct(s)
    ensures |Elements(s)| == |s|
  {
    if s != [] {
      var front, last := s[..|s| - 1], s[|s| - 1];
      DistinctCardinality(front);
      ElementsAppend(front, last);
      assert s == front + [last];
      assert last !in front;
    }
  }

  lemma ElementsEmpty<T>(s: seq<T>)
    ensures Elements(s) == {} <==> s == []
  {
    if s != [] {
      assert s[0] in Elements(s);
    }
  }

  lemma ElementsAppend<T>(s: seq<T>, x: T)
    ensures Elements(s + [x]) == Elements(s) + {x}
  {
    forall y ensures y in Elements(s + [x]) <==> y in Elements(s) + {x} {
      assert y in s + [x] <==> y in s || y == x;
    }
  }

  lemma {:induction false} SubsetCardinality<T>(a: set<T>, b: set<T>)
    requires a <= b
    ensures |a| <= |b|
    ensures |a| == |b| ==> a == b
  {
    if a != {} {
      var x :| x in a;
      SubsetCardinality(a - {x}, b - {x});
    }
  }

  lemma InsertCounts<T>(s: seq<T>, x: T, at: nat)
    requires at <= |s|
    ensures multiset(s[..at] + [x] + s[at..]) == multiset(s) + multiset{x}
  {
    assert s == s[..at] + s[at..];
  }
}
