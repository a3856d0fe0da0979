/** Writing parts of a backup into a live account
    (internal/agent/items.go:326-503, 563-668): everything is checked, then
    written in an order the account can take, then reported. */
module WriteBack {
  import opened NodeStore

  /** Database and user names are compared and never read. */
  type Name = nat

  datatype Kind = Files | Website | Mailbox | Database | DatabaseUsers | Cron | Unapplicable

  datatype Selection = Selection(kind: Kind, names: seq<Name>)

  /** One login on one host, with the databases it was granted. */
  datatype User = User(name: Name, host: Name, grants: seq<Name>)

  /** What the restore put on disk. */
  datatype Staged = Staged(dumps: set<Name>, users: Option<seq<User>>, homedir: bool, crontab: bool)

  /** A change to the account. */
  datatype Effect =
    | Created(database: Name)
    | Loaded(database: Name)
    | Recreated(users: seq<User>)
    | HomeWritten
    | CronWritten

  // ---- What was asked for ----

  datatype Wanted = Wanted(
    databases: seq<Name>, users: seq<Name>, dumps: bool, logins: bool, homedir: bool, cron: bool)

  const NOTHING := Wanted([], [], false, false, false, false)

  function With(wanted: Wanted, selection: Selection): Wanted {
    match selection.kind
    case Database => wanted.(dumps := true, databases := wanted.databases + selection.names)
    case DatabaseUsers => wanted.(logins := true, users := wanted.users + selection.names)
    case Cron => wanted.(cron := true)
    case _ => wanted.(homedir := true)
  }

  function Merged(selections: seq<Selection>): Wanted {
    if selections == [] then NOTHING
    else With(Merged(selections[..|selections| - 1]), selections[|selections| - 1])
  }

  predicate Applicable(selections: seq<Selection>) {
    selections != [] && forall i | 0 <= i < |selections| :: !selections[i].kind.Unapplicable?
  }

  // ---- The checks ----

  /** The names that are not on the account, once for every time they were
      asked for. */
  function Absent(names: seq<Name>, present: set<Name>): seq<Name> {
    if names == [] then []
    else
      var rest, last := Absent(names[..|names| - 1], present), names[|names| - 1];
      if last in present then rest else rest + [last]
  }

  function Named(users: seq<User>, wanted: seq<Name>): seq<User> {
    if users == [] then []
    else
      var rest, last := Named(users[..|users| - 1], wanted), users[|users| - 1];
      if last.name in wanted then rest + [last] else rest
  }

  function Chosen(users: seq<User>, wanted: seq<Name>): seq<User> {
    if wanted == [] then users else Named(users, wanted)
  }

  predicate HasLogin(users: seq<User>, name: Name) {
    exists i | 0 <= i < |users| :: users[i].name == name
  }

  ghost predicate GrantsOn(users: seq<User>, databases: set<Name>) {
    forall i, j | 0 <= i < |users| && 0 <= j < |users[i].grants| :: users[i].grants[j] in databases
  }

  ghost predicate DumpsFit(wanted: Wanted, staged: Staged) {
    wanted.dumps ==> wanted.databases != [] && forall i | 0 <= i < |wanted.databases| :: wanted.databases[i] in staged.dumps
  }

  /** The databases that will be there by the time grants are given. */
  ghost function Prepared(wanted: Wanted, databases: set<Name>): set<Name> {
    databases + if wanted.dumps then set i | 0 <= i < |wanted.databases| :: wanted.databases[i] else {}
  }

  ghost predicate LoginsFit(wanted: Wanted, staged: Staged, databases: set<Name>) {
    wanted.logins ==>
      && staged.users.Some? && staged.users.value != []
      && (forall i | 0 <= i < |wanted.users| :: HasLogin(staged.users.value, wanted.users[i]))
      && GrantsOn(Chosen(staged.users.value, wanted.users), Prepared(wanted, databases))
  }

  /** Everything a write-back needs, before the first change. */
  ghost predicate Checked(selections: seq<Selection>, staged: Staged, readable: bool, databases: set<Name>) {
    Applicable(selections) && Fits(Merged(selections), staged, readable, databases)
  }

  ghost predicate Fits(wanted: Wanted, staged: Staged, readable: bool, databases: set<Name>) {
    && (wanted.dumps || wanted.logins ==> readable)
    && DumpsFit(wanted, staged)
    && LoginsFit(wanted, staged, databases)
    && (wanted.homedir ==> staged.homedir)
    && (wanted.cron ==> staged.crontab)
  }

  // ---- The changes, in order ----

  function CreateAll(names: seq<Name>): seq<Effect> {
    seq(|names|, i requires 0 <= i < |names| => Created(names[i]))
  }

  function LoadAll(names: seq<Name>): seq<Effect> {
    seq(|names|, i requires 0 <= i < |names| => Loaded(names[i]))
  }

  function DatabaseSteps(create: seq<Name>, load: seq<Name>): seq<Effect> {
    CreateAll(create) + LoadAll(load)
  }

  function OtherSteps(wanted: Wanted, staged: Staged): seq<Effect> {
    (if wanted.logins && staged.users.Some? then [Recreated(Chosen(staged.users.value, wanted.users))] else [])
    + (if wanted.homedir then [HomeWritten] else [])
    + (if wanted.cron then [CronWritten] else [])
  }

  function Steps(wanted: Wanted, staged: Staged, databases: set<Name>): seq<Effect> {
    (if wanted.dumps then DatabaseSteps(Absent(wanted.databases, databases), wanted.databases) else [])
    + OtherSteps(wanted, staged)
  }

  function After(databases: set<Name>, effects: seq<Effect>): set<Name> {
    if effects == [] then databases
    else
      var before, last := After(databases, effects[..|effects| - 1]), effects[|effects| - 1];
      if last.Created? then before + {last.database} else before
  }

  /** cPanel makes no database that is there. */
  predicate Possible(databases: set<Name>, effect: Effect) {
    effect.Created? ==> effect.database !in databases
  }

  /** How many of the steps come about: up to the first the panel refuses. */
  function Came(databases: set<Name>, steps: seq<Effect>, answers: seq<bool>, n: nat): (k: nat)
    requires n <= |steps| <= |answers|
    ensures k <= n
  {
    if n == 0 then 0
    else
      var k := Came(databases, steps, answers, n - 1);
      if k == n - 1 && answers[n - 1] && Possible(After(databases, steps[..n - 1]), steps[n - 1]) then n else k
  }

  lemma StepsSplit(wanted: Wanted, staged: Staged, databases: set<Name>)
    ensures Steps(wanted, staged, databases) ==
            DatabaseSteps(
              if wanted.dumps then Absent(wanted.databases, databases) else [],
              if wanted.dumps then wanted.databases else []) +
            OtherSteps(wanted, staged)
  {
    assert CreateAll([]) == [] && LoadAll([]) == [];
  }

  datatype Report = Refused | Partly(wrote: seq<Effect>) | Done(wrote: seq<Effect>)

  lemma {:induction false} CameStays(databases: set<Name>, steps: seq<Effect>, answers: seq<bool>, k: nat, n: nat)
    requires k < n <= |steps| <= |answers| && Came(databases, steps, answers, k + 1) == k
    ensures Came(databases, steps, answers, n) == k
  {
    if k + 1 < n { CameStays(databases, steps, answers, k, n - 1); }
  }

  /** checkDatabaseDumps. */
  method CheckDatabaseDumps(names: seq<Name>, present: set<Name>, dumps: set<Name>)
    returns (ok: bool, create: seq<Name>)
    ensures ok <==> names != [] && forall i | 0 <= i < |names| :: names[i] in dumps
    ensures ok ==> create == Absent(names, present)
  {
    create := [];
    if |names| == 0 {
      return false, [];
    }
    for i := 0 to |names|
      invariant forall k | 0 <= k < i :: names[k] in dumps
      invariant create == Absent(names[..i], present)
    {
      if names[i] !in dumps {
        return false, [];
      }
      assert names[..i + 1][..i] == names[..i];
      if names[i] !in present {
        create := create + [names[i]];
      }
    }
    assert names[..|names|] == names;
    return true, create;
  }

  /** checkDatabaseUsers. Every host of a chosen name comes back. */
  method CheckDatabaseUsers(staged: Option<seq<User>>, wanted: seq<Name>, present: set<Name>)
    returns (ok: bool, users: seq<User>)
    ensures ok <==>
              && staged.Some? && staged.value != []
              && (forall i | 0 <= i < |wanted| :: HasLogin(staged.value, wanted[i]))
              && GrantsOn(Chosen(staged.value, wanted), present)
    ensures ok ==> users == Chosen(staged.value, wanted)
  {
    users := [];
    if staged.None? || |staged.value| == 0 {
      return false, [];
    }
    users := staged.value;
    if |wanted| > 0 {
      var chosen := [];
      for i := 0 to |users|
        invariant chosen == Named(users[..i], wanted)
      {
        assert users[..i + 1][..i] == users[..i];
        if users[i].name in wanted {
          chosen := chosen + [users[i]];
        }
      }
      assert users[..|users|] == users;
      for i := 0 to |wanted|
        invariant forall k | 0 <= k < i :: HasLogin(users, wanted[k])
      {
        NamedHasLogin(users, wanted, wanted[i]);
        if !HasLogin(chosen, wanted[i]) {
          return false, [];
        }
      }
      users := chosen;
    }
    for i := 0 to |users|
      invariant forall a, b | 0 <= a < i && 0 <= b < |users[a].grants| :: users[a].grants[b] in present
    {
      for j := 0 to |users[i].grants|
        invariant forall b | 0 <= b < j :: users[i].grants[b] in present
      {
        if users[i].grants[j] !in present {
          return false, [];
        }
      }
    }
    return true, users;
  }

  /** The first half of applyItems (internal/agent/items.go:381-430). */
  method CheckAll(wanted: Wanted, staged: Staged, readable: bool, databases: set<Name>)
    returns (fit: bool, create: seq<Name>, users: seq<User>)
    ensures fit <==> Fits(wanted, staged, readable, databases)
    ensures fit ==> create == if wanted.dumps then Absent(wanted.databases, databases) else []
    ensures fit && wanted.logins ==> staged.users.Some? && users == Chosen(staged.users.value, wanted.users)
  {
    create, users := [], [];
    if (wanted.dumps || wanted.logins) && !readable {
      return false, create, users;
    }
    var present := databases;
    if wanted.dumps {
      fit, create := CheckDatabaseDumps(wanted.databases, present, staged.dumps);
      if !fit {
        return;
      }
      AbsentIs(wanted.databases, databases);
      present := present + set name | name in create;
    }
    assert present == Prepared(wanted, databases);
    if wanted.logins {
      fit, users := CheckDatabaseUsers(staged.users, wanted.users, present);
      if !fit {
        return;
      }
    }
    fit := (wanted.homedir ==> staged.homedir) && (wanted.cron ==> staged.crontab);
  }

  lemma {:induction false} NamedHasLogin(users: seq<User>, wanted: seq<Name>, name: Name)
    requires name in wanted
    ensures HasLogin(Named(users, wanted), name) <==> HasLogin(users, name)
  {
    if users != [] {
      var rest, last := users[..|users| - 1], users[|users| - 1];
      NamedHasLogin(rest, wanted, name);
      HasLoginAppend(rest, last, name);
      HasLoginAppend(Named(rest, wanted), last, name);
      assert users == rest + [last];
    }
  }

  lemma HasLoginAppend(users: seq<User>, user: User, name: Name)
    ensures HasLogin(users + [user], name) <==> HasLogin(users, name) || user.name == name
  {
    if HasLogin(users, name) {
      var i :| 0 <= i < |users| && users[i].name == name;
      assert (users + [user])[i].name == name;
    }
    assert (users + [user])[|users|] == user;
  }

  /** The live account, and what was done to it. */
  class Account {
    var databases: set<Name>
    var effects: seq<Effect>

    constructor (databases: set<Name>)
      ensures this.databases == databases && effects == []
    {
      this.databases := databases;
      effects := [];
    }

    /** One call of the provider. A call that reports an error has changed
        nothing. */
    method Change(effect: Effect, answer: bool) returns (ok: bool)
      modifies this
      ensures ok == (answer && Possible(old(databases), effect))
      ensures databases == if ok && effect.Created? then old(databases) + {effect.database} else old(databases)
      ensures effects == if ok then old(effects) + [effect] else old(effects)
    {
      ok := answer && Possible(databases, effect);
      if ok {
        effects := effects + [effect];
        if effect.Created? {
          databases := databases + {effect.database};
        }
      }
    }

    /** Where a write-back that has come as far as `wrote` stands. */
    ghost predicate Reached(
      before: set<Name>, log: seq<Effect>, steps: seq<Effect>, answers: seq<bool>, wrote: seq<Effect>)
      reads this
    {
      && |steps| <= |answers| && wrote <= steps
      && Came(before, steps, answers, |wrote|) == |wrote|
      && databases == After(before, wrote) && effects == log + wrote
    }

    ghost predicate StoppedAt(
      before: set<Name>, log: seq<Effect>, steps: seq<Effect>, answers: seq<bool>, wrote: seq<Effect>)
      reads this
    {
      && |steps| <= |answers| && wrote < steps
      && Came(before, steps, answers, |steps|) == |wrote|
      && databases == After(before, wrote) && effects == log + wrote
    }

    /** The next change, and what has been written with it. */
    method Next(
      effect: Effect, answers: seq<bool>, wrote: seq<Effect>,
      ghost before: set<Name>, ghost log: seq<Effect>, ghost steps: seq<Effect>)
      returns (ok: bool, now: seq<Effect>)
      requires Reached(before, log, steps, answers, wrote) && |wrote| < |steps| && steps[|wrote|] == effect
      modifies this
      ensures ok ==> now == wrote + [effect] && Reached(before, log, steps, answers, now)
      ensures !ok ==> now == wrote && StoppedAt(before, log, steps, answers, wrote)
    {
      assert steps[..|wrote|] == wrote;
      ok := Change(effect, answers[|wrote|]);
      if !ok {
        CameStays(before, steps, answers, |wrote|, |steps|);
        return false, wrote;
      }
      now := wrote + [effect];
      assert now[..|wrote|] == wrote && effects == log + now;
    }

    /** applyItems. */
    method ApplyItems(selections: seq<Selection>, staged: Staged, readable: bool, answers: seq<bool>)
      returns (report: Report)
      requires |Steps(Merged(selections), staged, databases)| <= |answers|
      modifies this
      ensures report.Refused? <==> !Checked(selections, staged, readable, old(databases))
      ensures report.Refused? ==> databases == old(databases) && effects == old(effects)
      ensures !report.Refused? ==>
                CameTo(old(databases), old(effects), Steps(Merged(selections), staged, old(databases)), answers, report)
    {
      if |selections| == 0 {
        return Refused;
      }
      var wanted := NOTHING;
      for i := 0 to |selections|
        invariant wanted == Merged(selections[..i])
        invariant forall k | 0 <= k < i :: !selections[k].kind.Unapplicable?
      {
        if selections[i].kind.Unapplicable? {
          return Refused;
        }
        assert selections[..i + 1][..i] == selections[..i];
        wanted := With(wanted, selections[i]);
      }
      assert selections[..|selections|] == selections;
      var fit, create, users := CheckAll(wanted, staged, readable, databases);
      if !fit {
        return Refused;
      }
      report := Write(wanted, staged, create, users, answers);
    }

    /** Databases first: each is made before anything is loaded. */
    method WriteDatabases(
      create: seq<Name>, load: seq<Name>, answers: seq<bool>,
      ghost before: set<Name>, ghost log: seq<Effect>, ghost steps: seq<Effect>)
      returns (ok: bool, wrote: seq<Effect>)
      requires Reached(before, log, steps, answers, []) && DatabaseSteps(create, load) <= steps
      modifies this
      ensures ok ==> |wrote| == |create| + |load| && Reached(before, log, steps, answers, wrote)
      ensures !ok ==> StoppedAt(before, log, steps, answers, wrote)
    {
      ok, wrote := true, [];
      for i := 0 to |create|
        invariant ok && |wrote| == i && Reached(before, log, steps, answers, wrote)
      {
        assert steps[i] == DatabaseSteps(create, load)[i];
        ok, wrote := Next(Created(create[i]), answers, wrote, before, log, steps);
        if !ok {
          return;
        }
      }
      for i := 0 to |load|
        invariant ok && |wrote| == |create| + i && Reached(before, log, steps, answers, wrote)
      {
        assert steps[|create| + i] == DatabaseSteps(create, load)[|create| + i];
        ok, wrote := Next(Loaded(load[i]), answers, wrote, before, log, steps);
        if !ok {
          return;
        }
      }
    }

    /** Then whatever else was asked for. */
    method WriteOthers(
      wanted: Wanted, staged: Staged, users: seq<User>, answers: seq<bool>, sofar: seq<Effect>,
      ghost before: set<Name>, ghost log: seq<Effect>, ghost steps: seq<Effect>)
      returns (ok: bool, wrote: seq<Effect>)
      requires wanted.logins ==> staged.users.Some? && users == Chosen(staged.users.value, wanted.users)
      requires Reached(before, log, steps, answers, sofar) && steps == sofar + OtherSteps(wanted, staged)
      modifies this
      ensures ok ==> wrote == steps && Reached(before, log, steps, answers, wrote)
      ensures !ok ==> StoppedAt(before, log, steps, answers, wrote)
    {
      ok, wrote := true, sofar;
      if wanted.logins {
        ok, wrote := Next(Recreated(users), answers, wrote, before, log, steps);
        if !ok {
          return;
        }
      }
      if wanted.homedir {
        ok, wrote := Next(HomeWritten, answers, wrote, before, log, steps);
        if !ok {
          return;
        }
      }
      if wanted.cron {
        ok, wrote := Next(CronWritten, answers, wrote, before, log, steps);
      }
    }

    /** The second half of applyItems, once everything is checked
        (internal/agent/items.go:447-502). */
    method Write(wanted: Wanted, staged: Staged, create: seq<Name>, users: seq<User>, answers: seq<bool>)
      returns (report: Report)
      requires create == if wanted.dumps then Absent(wanted.databases, databases) else []
      requires wanted.logins ==> staged.users.Some? && users == Chosen(staged.users.value, wanted.users)
      requires |Steps(wanted, staged, databases)| <= |answers|
      modifies this
      ensures !report.Refused?
      ensures CameTo(old(databases), old(effects), Steps(wanted, staged, old(databases)), answers, report)
    {
      ghost var before, log, steps := databases, effects, Steps(wanted, staged, databases);
      var load := if wanted.dumps then wanted.databases else [];
      StepsSplit(wanted, staged, databases);
      assert effects == log + [];
      var ok, wrote := WriteDatabases(create, load, answers, before, log, steps);
      if ok {
        SamePrefix(wrote, DatabaseSteps(create, load), steps);
        ok, wrote := WriteOthers(wanted, staged, users, answers, wrote, before, log, steps);
      }
      report := if ok then Done(wrote) else Partly(wrote);
      Reports(before, log, steps, answers, ok, wrote);
    }

    lemma Reports(
      before: set<Name>, log: seq<Effect>, steps: seq<Effect>, answers: seq<bool>, ok: bool, wrote: seq<Effect>)
      requires if ok then wrote == steps && Reached(before, log, steps, answers, wrote)
               else StoppedAt(before, log, steps, answers, wrote)
      ensures CameTo(before, log, steps, answers, if ok then Done(wrote) else Partly(wrote))
    {
      assert steps[..|wrote|] == wrote;
    }

    /** The account has had exactly the steps before the first refusal, and
        exactly those are reported. */
    ghost predicate CameTo(
      before: set<Name>, log: seq<Effect>, steps: seq<Effect>, answers: seq<bool>, report: Report)
      requires |steps| <= |answers|
      reads this
    {
      var done := steps[..Came(before, steps, answers, |steps|)];
      && effects == log + done
      && databases == After(before, done)
      && report == if done == steps then Done(done) else Partly(done)
    }
  }

  lemma SamePrefix<A>(a: seq<A>, b: seq<A>, whole: seq<A>)
    requires |a| == |b| && a <= whole && b <= whole
    ensures a == b
  {
  }

  // ---- What the order guarantees ----

  lemma {:induction false} AbsentIs(names: seq<Name>, present: set<Name>)
    ensures present + (set name | name in Absent(names, present)) ==
            present + (set i | 0 <= i < |names| :: names[i])
    ensures forall k | 0 <= k < |Absent(names, present)| :: Absent(names, present)[k] !in present
  {
    if names != [] {
      var rest, last := names[..|names| - 1], names[|names| - 1];
      AbsentIs(rest, present);
      assert (set i | 0 <= i < |names| :: names[i]) == (set i | 0 <= i < |rest| :: rest[i]) + {last};
    }
  }

  lemma {:induction false} AfterCreates(databases: set<Name>, names: seq<Name>)
    ensures After(databases, CreateAll(names)) == databases + set name | name in names
  {
    if names != [] {
      var n := |names| - 1;
      assert CreateAll(names)[..n] == CreateAll(names[..n]);
      AfterCreates(databases, names[..n]);
      assert names == names[..n] + [names[n]];
    }
  }

  lemma {:induction false} AfterGrows(databases: set<Name>, effects: seq<Effect>, n: nat)
    requires n <= |effects|
    ensures After(databases, effects[..n]) <= After(databases, effects)
  {
    if n == |effects| {
      assert effects[..n] == effects;
    } else {
      assert effects[..|effects| - 1][..n] == effects[..n];
      AfterGrows(databases, effects[..|effects| - 1], n);
    }
  }

  ghost predicate TargetsThere(effect: Effect, databases: set<Name>) {
    match effect
    case Loaded(name) => name in databases
    case Recreated(users) => GrantsOn(users, databases)
    case _ => true
  }

  /** When its turn comes, every load and every grant finds its databases on
      the account: there from the start, or created by an earlier step. */
  lemma EveryTargetIsThere(selections: seq<Selection>, staged: Staged, readable: bool, databases: set<Name>, i: nat)
    requires Checked(selections, staged, readable, databases)
    requires i < |Steps(Merged(selections), staged, databases)|
    ensures var steps := Steps(Merged(selections), staged, databases);
            TargetsThere(steps[i], After(databases, steps[..i]))
  {
    var wanted := Merged(selections);
    var steps := Steps(wanted, staged, databases);
    var create := if wanted.dumps then Absent(wanted.databases, databases) else [];
    if i >= |create| {
      CreatedFirst(wanted, staged, databases, i);
      TargetsPrepared(wanted, staged, databases, i);
    }
  }

  /** Once every missing database has been created, all that will be needed are
      there. */
  lemma CreatedFirst(wanted: Wanted, staged: Staged, databases: set<Name>, i: nat)
    requires i <= |Steps(wanted, staged, databases)|
    requires i >= if wanted.dumps then |Absent(wanted.databases, databases)| else 0
    ensures Prepared(wanted, databases) <= After(databases, Steps(wanted, staged, databases)[..i])
  {
    var steps := Steps(wanted, staged, databases);
    var create := if wanted.dumps then Absent(wanted.databases, databases) else [];
    assert steps[..i][..|create|] == CreateAll(create);
    AfterGrows(databases, steps[..i], |create|);
    AfterCreates(databases, create);
    AbsentIs(wanted.databases, databases);
  }

  lemma TargetsPrepared(wanted: Wanted, staged: Staged, databases: set<Name>, i: nat)
    requires i < |Steps(wanted, staged, databases)| && LoginsFit(wanted, staged, databases)
    ensures TargetsThere(Steps(wanted, staged, databases)[i], Prepared(wanted, databases))
  {
  }

  // ---- What is written is what was asked for ----

  ghost predicate Asks(selections: seq<Selection>, kind: Kind) {
    exists i :: 0 <= i < |selections| && selections[i].kind == kind
  }

  ghost predicate AsksFor(selections: seq<Selection>, kind: Kind, name: Name) {
    exists i :: 0 <= i < |selections| && selections[i].kind == kind && name in selections[i].names
  }

  lemma AsksNext(selections: seq<Selection>, kind: Kind)
    requires selections != []
    ensures Asks(selections, kind) <==>
            Asks(selections[..|selections| - 1], kind) || selections[|selections| - 1].kind == kind
  {
    var rest := selections[..|selections| - 1];
    if Asks(rest, kind) {
      var i :| 0 <= i < |rest| && rest[i].kind == kind;
      assert selections[i].kind == kind;
    }
    if i :| 0 <= i < |selections| && selections[i].kind == kind {
      if i < |rest| { assert rest[i].kind == kind; }
    }
  }

  lemma AsksForNext(selections: seq<Selection>, kind: Kind, name: Name)
    requires selections != []
    ensures var last := selections[|selections| - 1];
            AsksFor(selections, kind, name) <==>
            AsksFor(selections[..|selections| - 1], kind, name) || (last.kind == kind && name in last.names)
  {
    var rest := selections[..|selections| - 1];
    if AsksFor(rest, kind, name) {
      var i :| 0 <= i < |rest| && rest[i].kind == kind && name in rest[i].names;
      assert selections[i].kind == kind && name in selections[i].names;
    }
    if i :| 0 <= i < |selections| && selections[i].kind == kind && name in selections[i].names {
      if i < |rest| { assert rest[i].kind == kind && name in rest[i].names; }
    }
  }

  lemma {:induction false} MergedKinds(selections: seq<Selection>)
    requires forall i | 0 <= i < |selections| :: !selections[i].kind.Unapplicable?
    ensures var wanted := Merged(selections);
            && (wanted.dumps <==> Asks(selections, Database))
            && (wanted.logins <==> Asks(selections, DatabaseUsers))
            && (wanted.cron <==> Asks(selections, Cron))
            && (wanted.homedir <==> Asks(selections, Files) || Asks(selections, Website) || Asks(selections, Mailbox))
  {
    if selections != [] {
      MergedKinds(selections[..|selections| - 1]);
      AsksNext(selections, Database);
      AsksNext(selections, DatabaseUsers);
      AsksNext(selections, Cron);
      AsksNext(selections, Files);
      AsksNext(selections, Website);
      AsksNext(selections, Mailbox);
    }
  }

  lemma {:induction false} MergedNames(selections: seq<Selection>, name: Name)
    ensures name in Merged(selections).databases <==> AsksFor(selections, Database, name)
    ensures name in Merged(selections).users <==> AsksFor(selections, DatabaseUsers, name)
  {
    if selections != [] {
      MergedNames(selections[..|selections| - 1], name);
      AsksForNext(selections, Database, name);
      AsksForNext(selections, DatabaseUsers, name);
    }
  }

  lemma {:induction false} ChosenIs(users: seq<User>, wanted: seq<Name>, user: User)
    ensures user in Chosen(users, wanted) <==> user in users && (wanted == [] || user.name in wanted)
  {
    if wanted != [] && users != [] {
      ChosenIs(users[..|users| - 1], wanted, user);
      assert users == users[..|users| - 1] + [users[|users| - 1]];
    }
  }

  lemma {:induction false} AbsentHas(names: seq<Name>, present: set<Name>, name: Name)
    ensures name in Absent(names, present) <==> name in names && name !in present
  {
    if names != [] {
      AbsentHas(names[..|names| - 1], present, name);
      assert names == names[..|names| - 1] + [names[|names| - 1]];
    }
  }

  lemma StepsHave(wanted: Wanted, staged: Staged, databases: set<Name>, name: Name, users: seq<User>)
    ensures var steps := Steps(wanted, staged, databases);
            && (Created(name) in steps <==> wanted.dumps && name in Absent(wanted.databases, databases))
            && (Loaded(name) in steps <==> wanted.dumps && name in wanted.databases)
            && (Recreated(users) in steps <==>
                wanted.logins && staged.users.Some? && users == Chosen(staged.users.value, wanted.users))
            && (HomeWritten in steps <==> wanted.homedir)
            && (CronWritten in steps <==> wanted.cron)
  {
    var create := Absent(wanted.databases, databases);
    CreateAllHas(create, name);
    LoadAllHas(wanted.databases, name);
    DatabaseStepsOnly(create, wanted.databases, users);
    OtherStepsHave(wanted, staged, name, users);
  }

  lemma OtherStepsHave(wanted: Wanted, staged: Staged, name: Name, users: seq<User>)
    ensures var steps := OtherSteps(wanted, staged);
            && Created(name) !in steps && Loaded(name) !in steps
            && (Recreated(users) in steps <==>
                wanted.logins && staged.users.Some? && users == Chosen(staged.users.value, wanted.users))
            && (HomeWritten in steps <==> wanted.homedir)
            && (CronWritten in steps <==> wanted.cron)
  {
  }

  lemma CreateAllHas(names: seq<Name>, name: Name)
    ensures Created(name) in CreateAll(names) <==> name in names
    ensures Loaded(name) !in CreateAll(names)
  {
    if name in names {
      var i :| 0 <= i < |names| && names[i] == name;
      assert CreateAll(names)[i] == Created(name);
    }
  }

  lemma LoadAllHas(names: seq<Name>, name: Name)
    ensures Loaded(name) in LoadAll(names) <==> name in names
    ensures Created(name) !in LoadAll(names)
  {
    if name in names {
      var i :| 0 <= i < |names| && names[i] == name;
      assert LoadAll(names)[i] == Loaded(name);
    }
  }

  lemma DatabaseStepsOnly(create: seq<Name>, load: seq<Name>, users: seq<User>)
    ensures var steps := DatabaseSteps(create, load);
            Recreated(users) !in steps && HomeWritten !in steps && CronWritten !in steps
  {
  }

  /** The planned changes are exactly what the selections name: a database is
      loaded when it was asked for, created when it is also missing, and the
      home directory, the cron jobs and the chosen users are written when some
      selection asks for them. */
  lemma StepsAreWhatWasAsked(
    selections: seq<Selection>, staged: Staged, readable: bool, databases: set<Name>, name: Name, users: seq<User>)
    requires Checked(selections, staged, readable, databases)
    ensures var steps := Steps(Merged(selections), staged, databases);
            && (Loaded(name) in steps <==> AsksFor(selections, Database, name))
            && (Created(name) in steps <==> AsksFor(selections, Database, name) && name !in databases)
            && (HomeWritten in steps <==> Asks(selections, Files) || Asks(selections, Website) || Asks(selections, Mailbox))
            && (CronWritten in steps <==> Asks(selections, Cron))
            && (Recreated(users) in steps ==>
                Asks(selections, DatabaseUsers) &&
                forall u: User :: u in users <==> u in StagedUsers(staged) && Picks(selections, u.name))
  {
    var wanted := Merged(selections);
    MergedKinds(selections);
    MergedNames(selections, name);
    StepsHave(wanted, staged, databases, name, users);
    AbsentHas(wanted.databases, databases, name);
    NamedAsks(selections, name);
    if Recreated(users) in Steps(wanted, staged, databases) {
      forall u: User ensures u in users <==> u in StagedUsers(staged) && Picks(selections, u.name) {
        ChosenIs(staged.users.value, wanted.users, u);
        PicksIff(selections, u.name);
      }
    }
  }

  function StagedUsers(staged: Staged): seq<User> {
    if staged.users.Some? then staged.users.value else []
  }

  /** The selections name this login, or none at all. */
  ghost predicate Picks(selections: seq<Selection>, name: Name) {
    AsksFor(selections, DatabaseUsers, name) || forall n :: !AsksFor(selections, DatabaseUsers, n)
  }

  lemma PicksIff(selections: seq<Selection>, name: Name)
    ensures Picks(selections, name) <==> Merged(selections).users == [] || name in Merged(selections).users
  {
    MergedNames(selections, name);
    if Merged(selections).users == [] {
      forall n ensures !AsksFor(selections, DatabaseUsers, n) { MergedNames(selections, n); }
    } else {
      MergedNames(selections, Merged(selections).users[0]);
    }
  }

  lemma NamedAsks(selections: seq<Selection>, name: Name)
    ensures AsksFor(selections, Database, name) ==> Asks(selections, Database)
  {
  }

  // ---- Names asked for twice ----

  ghost predicate AllYes(answers: seq<bool>) {
    forall i | 0 <= i < |answers| :: answers[i]
  }

  lemma {:induction false} CreatesCome(databases: set<Name>, steps: seq<Effect>, create: seq<Name>, answers: seq<bool>, n: nat)
    requires n <= |steps| <= |answers| && AllYes(answers) && CreateAll(create) <= steps
    requires forall k | |create| <= k < |steps| :: !steps[k].Created?
    requires forall k | 0 <= k < |create| :: create[k] !in databases
    ensures Came(databases, steps, answers, n) == n <==> Distinct(create[..Least(n, |create|)])
  {
    if n > 0 {
      CreatesCome(databases, steps, create, answers, n - 1);
      if n <= |create| { NextCreate(databases, steps, create, n - 1); }
    }
  }

  lemma NextCreate(databases: set<Name>, steps: seq<Effect>, create: seq<Name>, i: nat)
    requires i < |create| && CreateAll(create) <= steps && create[i] !in databases
    ensures steps[i].Created?
    ensures Possible(After(databases, steps[..i]), steps[i]) <==> create[i] !in create[..i]
    ensures Distinct(create[..i + 1]) <==> Distinct(create[..i]) && create[i] !in create[..i]
  {
    assert steps[..i] == CreateAll(create[..i]);
    AfterCreates(databases, create[..i]);
    assert steps[i] == CreateAll(create)[i] == Created(create[i]);
    assert create[..i + 1] == create[..i] + [create[i]];
  }

  function Least(a: nat, b: nat): nat {
    if a < b then a else b
  }

  /** With the panel agreeing to everything it can, a checked write-back comes
      to its end exactly when no database that has to be created was asked for
      twice. */
  lemma CompletesIff(selections: seq<Selection>, staged: Staged, readable: bool, databases: set<Name>, answers: seq<bool>)
    requires Checked(selections, staged, readable, databases)
    requires |Steps(Merged(selections), staged, databases)| <= |answers| && AllYes(answers)
    ensures var wanted := Merged(selections);
            var steps := Steps(wanted, staged, databases);
            Came(databases, steps, answers, |steps|) == |steps| <==>
            (wanted.dumps ==> Distinct(Absent(wanted.databases, databases)))
  {
    var wanted := Merged(selections);
    var steps := Steps(wanted, staged, databases);
    var create := if wanted.dumps then Absent(wanted.databases, databases) else [];
    AbsentIs(wanted.databases, databases);
    CreatesCome(databases, steps, create, answers, |steps|);
    assert create[..|create|] == create;
  }

  /** Asked for twice, it is created once and loaded not at all: the account
      is left with an empty database. */
  lemma AskedTwiceLeavesItEmpty(name: Name, selections: seq<Selection>, staged: Staged)
    requires selections == [Selection(Database, [name]), Selection(Database, [name])]
    requires staged == Staged({name}, None, false, false)
    ensures Checked(selections, staged, true, {})
    ensures var steps := Steps(Merged(selections), staged, {});
            |steps| == 4 && steps[..Came({}, steps, [true, true, true, true], 4)] == [Created(name)]
  {
    TwiceMerged(name, selections);
    TwiceChecked(name, selections, staged);
    TwiceAbsent(name);
    var steps := Steps(Merged(selections), staged, {});
    assert steps == [Created(name), Created(name), Loaded(name), Loaded(name)];
    TwiceCame(name, steps);
  }

  lemma TwiceChecked(name: Name, selections: seq<Selection>, staged: Staged)
    requires selections == [Selection(Database, [name]), Selection(Database, [name])]
    requires staged == Staged({name}, None, false, false)
    requires Merged(selections) == Wanted([name, name], [], true, false, false, false)
    ensures Checked(selections, staged, true, {})
  {
  }

  lemma TwiceAbsent(name: Name)
    ensures Absent([name], {}) == [name] && Absent([name, name], {}) == [name, name]
  {
    assert [name, name][..1] == [name] && [name][..0] == [];
  }

  lemma TwiceMerged(name: Name, selections: seq<Selection>)
    requires selections == [Selection(Database, [name]), Selection(Database, [name])]
    ensures Merged(selections) == Wanted([name, name], [], true, false, false, false)
  {
    var one := [Selection(Database, [name])];
    assert selections[..1] == one && one[..0] == [];
    assert Merged(one) == Wanted([name], [], true, false, false, false);
    assert [name] + [name] == [name, name];
  }

  lemma TwiceCame(name: Name, steps: seq<Effect>)
    requires steps == [Created(name), Created(name), Loaded(name), Loaded(name)]
    ensures steps[..Came({}, steps, [true, true, true, true], 4)] == [Created(name)]
  {
    var answers := [true, true, true, true];
    assert steps[..0] == [] && steps[..1] == [Created(name)] && steps[..1][..0] == [];
    assert After({}, steps[..1]) == {name};
    assert Came({}, steps, answers, 1) == 1;
    assert Came({}, steps, answers, 2) == 1;
    assert Came({}, steps, answers, 3) == 1;
  }
}
