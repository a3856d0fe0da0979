/** Lifecycle events left as files while the service was down: how they are
    named, in which order they come back (internal/hookspool/hookspool.go), and
    what replaying them does (internal/node/identity.go:241-321). */
module HookSpool {
  import opened NodeStore
  import opened Text
  import opened Identity

  datatype Kind = Create | Remove | OtherKind

  datatype Event = Event(at: Time, kind: Kind, account: string)

  // ---- Order of names ----

  function Digit(d: nat): char
    requires d < 10
  {
    '0' + d as char
  }

  /** A number in decimal, padded with zeros to a width. */
  function Digits(n: nat, width: nat): (s: string)
    ensures |s| == width
    ensures forall c | c in s :: '0' <= c <= '9'
  {
    if width == 0 then "" else Digits(n / 10, width - 1) + [Digit(n % 10)]
  }

  function Pow10(n: nat): nat {
    if n == 0 then 1 else 10 * Pow10(n - 1)
  }

  lemma {:induction false} PaddedOrder(a: nat, b: nat, width: nat, x: string, y: string)
    requires a < b < Pow10(width)
    ensures LexLess(Digits(a, width) + x, Digits(b, width) + y)
  {
    var p, q := Digits(a / 10, width - 1), Digits(b / 10, width - 1);
    var s, t := [Digit(a % 10)] + x, [Digit(b % 10)] + y;
    assert Digits(a, width) + x == p + s && Digits(b, width) + y == q + t;
    if a / 10 < b / 10 {
      PaddedOrder(a / 10, b / 10, width - 1, s, t);
    } else {
      assert a % 10 < b % 10;
      LexCommonPrefix(p, s, t);
    }
  }

  /** "%020d" of the time: the sign, when there is one, takes a place. */
  function Stem(at: Time): string {
    if at >= 0 then Digits(at, 20) else "-" + Digits(-at, 19)
  }

  lemma SignSortsFirst(a: Time, b: Time, x: string, y: string)
    requires a < 0 <= b
    ensures LexLess(Stem(a) + x, Stem(b) + y)
  {
    var digits := Digits(b, 20);
    assert digits[0] in digits;
    assert (Stem(a) + x)[0] == '-' && (Stem(b) + y)[0] == digits[0];
  }

  lemma NegativesReverse(a: Time, b: Time, x: string, y: string)
    requires a < b < 0 && -a < Pow10(19)
    ensures LexLess(Stem(b) + y, Stem(a) + x)
  {
    var s, t := Digits(-b, 19) + y, Digits(-a, 19) + x;
    PaddedOrder(-b, -a, 19, y, x);
    LexCommonPrefix("-", s, t);
    Signed(Digits(-b, 19), y);
    Signed(Digits(-a, 19), x);
  }

  lemma Signed(digits: string, rest: string)
    ensures ("-" + digits) + rest == "-" + (digits + rest)
  {
  }

  /** Earlier events have smaller names exactly when the later of the two is
      not before 1970. */
  lemma StemOrder(a: Time, b: Time, x: string, y: string)
    requires a < b < Pow10(20) && -a < Pow10(19)
    ensures LexLess(Stem(a) + x, Stem(b) + y) <==> b >= 0
  {
    if a >= 0 {
      PaddedOrder(a, b, 20, x, y);
    } else if b >= 0 {
      SignSortsFirst(a, b, x, y);
    } else {
      NegativesReverse(a, b, x, y);
      LexAsymmetric(Stem(b) + y, Stem(a) + x);
    }
  }

  // ---- Writing and listing ----

  function EventName(kind: Kind): string {
    match kind case Create => "create" case Remove => "remove" case OtherKind => ""
  }

  predicate Spooled(kind: Kind) {
    kind.Create? || kind.Remove?
  }

  function Itoa(n: nat): string {
    if n < 10 then [Digit(n)] else Itoa(n / 10) + [Digit(n % 10)]
  }

  /** The name a hook tries at each attempt. */
  function FileName(event: Event, attempt: nat): string {
    Stem(event.at) + ("-" + EventName(event.kind) + "-" + event.account +
      (if attempt == 0 then "" else "-" + Itoa(attempt)) + ".json")
  }

  const ATTEMPTS := 100

  datatype Body = Garbled | Readable(event: Event)

  /** Creates the first free name with the event in it, and fails only when none
      of a hundred is free or the event is not one to keep. A time that was not
      given is the hook's own. */
  method Write(files: map<string, Body>, given: Event, oversize: bool, now: Time)
    returns (name: Option<string>, more: map<string, Body>)
    ensures var event := if given.at == 0 then given.(at := now) else given;
            && (name.Some? <==>
                given.kind in {Create, Remove} && !oversize && exists k: nat | k < 100 :: FileName(event, k) !in files)
            && (name.Some? ==> name.value !in files && more == files[name.value := Readable(event)])
            && (name.Some? ==> exists k: nat | k < 100 ::
                  name.value == FileName(event, k) && forall j | 0 <= j < k :: FileName(event, j) in files)
    ensures name.None? ==> more == files
    ensures name.Some? ==>
              var event := if given.at == 0 then given.(at := now) else given;
              Waiting(more) == if event.account == "" then Waiting(files) else Waiting(files) + {Entry(event, name.value)}
    ensures NamedByTime(files) ==> NamedByTime(more)
  {
    if !Spooled(given.kind) || oversize {
      return None, files;
    }
    var event := if given.at == 0 then given.(at := now) else given;
    for attempt := 0 to ATTEMPTS
      invariant forall k: nat | k < attempt :: FileName(event, k) in files
    {
      var free := FileName(event, attempt);
      if free !in files {
        NamedNext(files, event, attempt);
        WaitsNext(files, event, attempt);
        return Some(free), files[free := Readable(event)];
      }
    }
    return None, files;
  }

  /** What is written is what comes back, next to what was waiting. */
  lemma WaitsNext(files: map<string, Body>, event: Event, attempt: nat)
    requires FileName(event, attempt) !in files && Spooled(event.kind)
    ensures var name := FileName(event, attempt);
            Waiting(files[name := Readable(event)]) ==
            if event.account == "" then Waiting(files) else Waiting(files) + {Entry(event, name)}
  {
    var name := FileName(event, attempt);
    var more := files[name := Readable(event)];
    NameEnds(event, attempt);
    forall path ensures Usable(more, path) <==> Usable(files, path) || (path == name && event.account != "") {}
    assert forall path | Usable(files, path) :: path != name && more[path] == files[path];
    assert Usable(more, name) ==> Entry(more[name].event, name) in Waiting(more);
    forall e ensures e in Waiting(more) <==> e in Waiting(files) || (e == Entry(event, name) && event.account != "") {
      if e in Waiting(files) { assert Usable(more, e.path); }
    }
    assert Waiting(more) == if event.account == "" then Waiting(files) else Waiting(files) + {Entry(event, name)};
  }

  /** What a file of each kind is called, at the first attempt and after. */
  lemma NamesAre(at: Time, account: string, attempt: nat)
    ensures FileName(Event(at, Create, account), 0) == Stem(at) + ("-create-" + account + ".json")
    ensures FileName(Event(at, Remove, account), 0) == Stem(at) + ("-remove-" + account + ".json")
    ensures attempt > 0 ==>
              FileName(Event(at, Create, account), attempt) == Stem(at) + ("-create-" + account + "-" + Itoa(attempt) + ".json")
    ensures attempt > 0 ==>
              FileName(Event(at, Remove, account), attempt) == Stem(at) + ("-remove-" + account + "-" + Itoa(attempt) + ".json")
  {
    assert "-" + "create" + "-" == "-create-" && "-" + "remove" + "-" == "-remove-";
    assert "-create-" + account + "" == "-create-" + account && "-remove-" + account + "" == "-remove-" + account;
    Longer("-create-" + account, Itoa(attempt));
    Longer("-remove-" + account, Itoa(attempt));
  }

  lemma Longer(base: string, number: string)
    ensures base + ("-" + number) == base + "-" + number
  {
  }

  lemma NameEnds(event: Event, attempt: nat)
    ensures HasSuffix(FileName(event, attempt), ".json")
  {
    var front := "-" + EventName(event.kind) + "-" + event.account + if attempt == 0 then "" else "-" + Itoa(attempt);
    EndsWith(Stem(event.at), front, ".json");
  }

  lemma EndsWith(a: string, b: string, suffix: string)
    ensures HasSuffix(a + (b + suffix), suffix)
  {
    var s := a + (b + suffix);
    assert s[|a| + |b|..] == suffix;
  }

  lemma {:induction false} ItoaIs(n: nat)
    ensures Itoa(n) != "" && Value(Itoa(n)) == n
  {
    if n >= 10 { ItoaIs(n / 10); }
    assert Itoa(n)[|Itoa(n)| - 1] == Digit(n % 10);
    assert n < 10 ==> Itoa(n)[..0] == "";
    assert n >= 10 ==> Itoa(n)[..|Itoa(n)| - 1] == Itoa(n / 10);
  }

  /** The number a string of digits spells. */
  function Value(s: string): int {
    if s == "" then 0 else 10 * Value(s[..|s| - 1]) + (s[|s| - 1] as int - '0' as int)
  }

  /** So no two of the hundred attempts are at the same name. */
  lemma AttemptsDiffer(event: Event, j: nat, k: nat)
    requires j != k
    ensures FileName(event, j) != FileName(event, k)
  {
    var stem, base := Stem(event.at), "-" + EventName(event.kind) + "-" + event.account;
    var a, b := if j == 0 then "" else "-" + Itoa(j), if k == 0 then "" else "-" + Itoa(k);
    ItoaIs(j);
    ItoaIs(k);
    assert a != b by {
      if j != 0 && k != 0 { assert a[1..] == Itoa(j) && b[1..] == Itoa(k); }
    }
    SameMiddle(stem, base, a, b, ".json");
  }

  lemma SameMiddle(stem: string, base: string, a: string, b: string, back: string)
    ensures stem + (base + a + back) == stem + (base + b + back) ==> a == b
  {
    var s, t, n := stem + (base + a + back), stem + (base + b + back), |stem| + |base|;
    assert a == s[n..|s| - |back|] && b == t[n..|t| - |back|];
  }

  /** What is waiting to be replayed. */
  ghost function Waiting(files: map<string, Body>): set<Entry> {
    set path | path in files && Usable(files, path) :: Entry(files[path].event, path)
  }

  lemma NamedNext(files: map<string, Body>, event: Event, attempt: nat)
    ensures NamedByTime(files) ==> NamedByTime(files[FileName(event, attempt) := Readable(event)])
  {
    var more := files[FileName(event, attempt) := Readable(event)];
    if NamedByTime(files) {
      forall name | Usable(more, name) ensures exists rest :: name == Stem(more[name].event.at) + rest {
        if name != FileName(event, attempt) { assert Usable(files, name); }
      }
    }
  }

  predicate Ordered(names: seq<string>) {
    forall i, j | 0 <= i < j < |names| :: !LexLess(names[j], names[i])
  }

  /** Inserts a name where it belongs. */
  method Insert(names: seq<string>, name: string) returns (more: seq<string>)
    requires Ordered(names)
    ensures Ordered(more) && multiset(more) == multiset(names) + multiset{name}
  {
    var at := |names|;
    while at > 0 && LexLess(name, names[at - 1])
      invariant 0 <= at <= |names|
      invariant forall k | at <= k < |names| :: LexLess(name, names[k])
    {
      at := at - 1;
    }
    InsertOrdered(names, name, at);
    InsertCounts(names, name, at);
    return names[..at] + [name] + names[at..];
  }

  lemma InsertOrdered(names: seq<string>, name: string, at: nat)
    requires Ordered(names) && at <= |names|
    requires forall k | at <= k < |names| :: LexLess(name, names[k])
    requires at > 0 ==> !LexLess(name, names[at - 1])
    ensures Ordered(names[..at] + [name] + names[at..])
  {
    forall k | 0 <= k < at ensures !LexLess(name, names[k]) {
      if k < at - 1 {
        NotLessTransitive(names[k], names[at - 1], name);
      }
    }
    forall k | at <= k < |names| ensures !LexLess(names[k], name) {
      LexAsymmetric(name, names[k]);
    }
  }

  method Sort(names: set<string>) returns (sorted: seq<string>)
    ensures Ordered(sorted) && multiset(sorted) == multiset(names)
  {
    sorted := [];
    var todo := names;
    while todo != {}
      invariant Ordered(sorted) && multiset(sorted) + multiset(todo) == multiset(names)
    {
      var name :| name in todo;
      sorted := Insert(sorted, name);
      todo := todo - {name};
    }
  }

  datatype Entry = Entry(event: Event, path: string)

  predicate Usable(files: map<string, Body>, name: string) {
    name in files && HasSuffix(name, ".json")
    && files[name].Readable? && Spooled(files[name].event.kind) && files[name].event.account != ""
  }

  /** Each name starts with the time of the event it holds. */
  ghost predicate NamedByTime(files: map<string, Body>) {
    forall name | Usable(files, name) ::
      exists rest :: name == Stem(files[name].event.at) + rest
  }

  /** Everything waiting to be replayed, oldest first. What cannot be read is
      left where it is. */
  method Pending(files: map<string, Body>) returns (pending: seq<Entry>, problems: nat)
    ensures AreWaiting(files, pending)
    ensures forall e :: e in pending <==> Usable(files, e.path) && e.event == files[e.path].event
    ensures Distinct(pending)
    ensures problems == |set name | name in files && HasSuffix(name, ".json") && !Usable(files, name)|
    ensures NamedByTime(files) && (forall e | e in pending :: 0 <= e.event.at < Pow10(20)) ==>
              forall i, j | 0 <= i < j < |pending| :: pending[i].event.at <= pending[j].event.at
  {
    var listed := set name | name in files && HasSuffix(name, ".json");
    var names := Sort(listed);
    ListedOnce(names, listed);
    pending, problems := [], 0;
    ghost var from: seq<nat> := [];
    for k := 0 to |names|
      invariant Selected(files, names, pending, from) && InRange(from, k)
      invariant problems + |pending| == k
      invariant forall j | 0 <= j < k && Usable(files, names[j]) :: Entry(files[names[j]].event, names[j]) in pending
    {
      if !Usable(files, names[k]) {
        problems := problems + 1;
        continue;
      }
      pending := pending + [Entry(files[names[k]].event, names[k])];
      from := from + [k];
    }
    forall e: Entry | Usable(files, e.path) && e.event == files[e.path].event ensures e in pending {
      assert e.path in listed && e.path in names;
    }
    ProblemsCounted(files, names, listed, pending, from);
    UsableAreWaiting(files, pending);
    if NamedByTime(files) && forall e | e in pending :: 0 <= e.event.at < Pow10(20) {
      TimesAscend(files, names, pending, from);
    }
  }

  /** Files with the spool's ending that hold a create or remove event for some
      account, each with what it holds; which is what is waiting. */
  ghost predicate AreWaiting(files: map<string, Body>, pending: seq<Entry>) {
    && Elements(pending) == Waiting(files)
    && forall e :: e in pending <==>
         && e.path in files && files[e.path] == Readable(e.event) && e.event.kind in {Create, Remove}
         && |e.event.account| > 0 && |e.path| >= 5 && e.path[|e.path| - 5..] == ".json"
  }

  lemma UsableAreWaiting(files: map<string, Body>, pending: seq<Entry>)
    requires forall e :: e in pending <==> Usable(files, e.path) && e.event == files[e.path].event
    ensures AreWaiting(files, pending)
  {
    forall e ensures e in Elements(pending) <==> e in Waiting(files) {
      if e in Waiting(files) { assert Usable(files, e.path) && e.event == files[e.path].event; }
    }
  }

  ghost predicate Selected(files: map<string, Body>, names: seq<string>, pending: seq<Entry>, from: seq<nat>) {
    && |from| == |pending| && InRange(from, |names|)
    && (forall i, j | 0 <= i < j < |from| :: from[i] < from[j])
    && (forall i | 0 <= i < |pending| ::
          && names[from[i]] == pending[i].path && Usable(files, pending[i].path)
          && pending[i].event == files[pending[i].path].event)
  }

  /** What is listed and not to be replayed is what was counted. */
  lemma ProblemsCounted(
    files: map<string, Body>, names: seq<string>, listed: set<string>, pending: seq<Entry>, from: seq<nat>)
    requires listed == set name | name in files && HasSuffix(name, ".json")
    requires Distinct(names) && (forall name :: name in listed <==> name in names) && Selected(files, names, pending, from)
    requires forall name | name in listed && Usable(files, name) :: Entry(files[name].event, name) in pending
    ensures |set name | name in files && HasSuffix(name, ".json") && !Usable(files, name)| == |names| - |pending|
  {
    var paths := seq(|pending|, i requires 0 <= i < |pending| => pending[i].path);
    var good := set name | name in listed && Usable(files, name);
    forall i, j | 0 <= i < j < |paths| ensures paths[i] != paths[j] {
      assert names[from[i]] == paths[i] && names[from[j]] == paths[j];
    }
    forall name ensures name in good <==> name in paths {
      if name in good {
        var i :| 0 <= i < |pending| && pending[i] == Entry(files[name].event, name);
        assert paths[i] == name;
      }
      if name in paths {
        var i :| 0 <= i < |paths| && paths[i] == name;
        assert names[from[i]] == pending[i].path == name;
      }
    }
    DistinctCardinality(paths);
    DistinctCardinality(names);
    assert good == Elements(paths) && listed == Elements(names);
    assert listed - good == set name | name in files && HasSuffix(name, ".json") && !Usable(files, name);
  }

  lemma ListedOnce(names: seq<string>, listed: set<string>)
    requires multiset(names) == multiset(listed)
    ensures Distinct(names) && forall name :: name in names <==> name in listed
  {
    forall i, j | 0 <= i < j < |names| ensures names[i] != names[j] {
      assert names == names[..j] + names[j..];
      assert multiset(names) == multiset(names[..j]) + multiset(names[j..]);
      assert names[i] == names[..j][i] && names[..j][i] in multiset(names[..j]);
      assert names[j] == names[j..][0] && names[j..][0] in multiset(names[j..]);
      assert multiset(names)[names[j]] <= 1;
    }
    forall name ensures name in names <==> name in listed {
      assert name in names <==> name in multiset(names);
      assert name in listed <==> name in multiset(listed);
    }
  }

  lemma TimesAscend(files: map<string, Body>, names: seq<string>, pending: seq<Entry>, from: seq<nat>)
    requires Selected(files, names, pending, from) && Ordered(names)
    requires NamedByTime(files) && forall e | e in pending :: 0 <= e.event.at < Pow10(20)
    ensures forall i, j | 0 <= i < j < |pending| :: pending[i].event.at <= pending[j].event.at
  {
    forall i, j | 0 <= i < j < |pending| ensures pending[i].event.at <= pending[j].event.at {
      var a, b := pending[i].event.at, pending[j].event.at;
      assert pending[i] in pending && pending[j] in pending;
      var x :| pending[i].path == Stem(a) + x;
      var y :| pending[j].path == Stem(b) + y;
      if b < a {
        StemOrder(b, a, y, x);
      }
    }
  }

  // ---- Replaying ----

  /** The records a replay writes. */
  datatype Books = Books(identities: map<string, Identity>, policies: seq<Policy>)

  /** A hook stores no event without a time. */
  predicate Dated(spool: seq<Event>) {
    forall e | e in spool :: e.at != 0 && Spooled(e.kind)
  }

  /** What recording one event does to the books. */
  function Apply(event: Event, books: Books, uid: Uid, now: Time): Books {
    match event.kind
    case OtherKind => books
    case Create =>
      if uid.Uid? then
        books.(identities := books.identities[event.account := Created(Lookup(books.identities, event.account), uid.uid, event.at)])
      else books
    case Remove =>
      Books(Retire(books.identities, event.account, now), RemoveFromAll(books.policies, event.account))
  }

  function Retire(identities: map<string, Identity>, account: string, now: Time): map<string, Identity> {
    if account in identities && identities[account].retiredAt.None?
    then identities[account := identities[account].(retiredAt := Some(now))] else identities
  }

  /** An event that could not be recorded keeps its file. */
  predicate Stays(event: Event, uid: Uid) {
    event.kind.Create? && uid.Unreadable?
  }

  /** What an uninterrupted replay makes of the books. */
  function Replay(spool: seq<Event>, books: Books, uids: map<string, Uid>, now: Time): Books {
    if spool == [] then books
    else Replay(spool[1..], Apply(spool[0], books, UidOf(uids, spool[0].account), now), uids, now)
  }

  /** The files an uninterrupted replay leaves behind. */
  function Left(spool: seq<Event>, uids: map<string, Uid>): seq<Event> {
    if spool == [] then []
    else (if Stays(spool[0], UidOf(uids, spool[0].account)) then [spool[0]] else []) + Left(spool[1..], uids)
  }

  /** The files that stay are those of creates whose account cannot be read. */
  ghost predicate LeftUnread(spool: seq<Event>, uids: map<string, Uid>, left: seq<Event>) {
    forall e :: e in left <==> e in spool && e.kind == Create && UidOf(uids, e.account) == Unreadable
  }

  lemma AllLeft(spool: seq<Event>, uids: map<string, Uid>)
    ensures LeftUnread(spool, uids, Left(spool, uids))
  {
    forall e ensures e in Left(spool, uids) <==> e in spool && e.kind == Create && UidOf(uids, e.account) == Unreadable {
      LeftIff(spool, uids, e);
    }
  }

  lemma {:induction false} LeftIff(spool: seq<Event>, uids: map<string, Uid>, e: Event)
    ensures e in Left(spool, uids) <==> e in spool && e.kind == Create && UidOf(uids, e.account) == Unreadable
  {
    if spool != [] {
      LeftIff(spool[1..], uids, e);
      assert spool == [spool[0]] + spool[1..];
    }
  }

  /** Who an account's record and the policies say it is after a replay: a
      removal that nothing of the account follows leaves no policy naming it and
      no record of it in force, and a readable create a boundary no earlier than
      the event. */
  ghost predicate Decided(event: Event, uid: Uid, books: Books) {
    match event.kind
    case Remove =>
      && (event.account in books.identities ==> books.identities[event.account].retiredAt.Some?)
      && forall p | p in books.policies :: event.account !in p.accounts
    case Create =>
      uid.Uid? ==>
        && event.account in books.identities && books.identities[event.account].recycled
        && event.at <= books.identities[event.account].sinceAt
    case OtherKind => true
  }

  lemma DecidedStays(event: Event, uid: Uid, books: Books, next: Event, other: Uid, now: Time)
    requires Decided(event, uid, books) && next.account != event.account
    ensures Decided(event, uid, Apply(next, books, other, now))
  {
    var after := Apply(next, books, other, now);
    forall p | p in after.policies ensures event.kind.Remove? ==> event.account !in p.accounts {
      if next.kind.Remove? {
        var i :| 0 <= i < |after.policies| && after.policies[i] == p;
        assert p == RemoveFrom(books.policies[i], next.account) && books.policies[i] in books.policies;
      }
    }
  }

  lemma DecidedAtOnce(event: Event, uid: Uid, books: Books, now: Time)
    ensures Decided(event, uid, Apply(event, books, uid, now))
  {
    var after := Apply(event, books, uid, now);
    forall p | p in after.policies ensures event.kind.Remove? ==> event.account !in p.accounts {
      if event.kind.Remove? {
        var i :| 0 <= i < |after.policies| && after.policies[i] == p;
        assert p == RemoveFrom(books.policies[i], event.account);
      }
    }
  }

  /** The last event of an account decides. */
  lemma {:induction false} LastEventDecides(spool: seq<Event>, k: nat, books: Books, uids: map<string, Uid>, now: Time)
    requires k < |spool| && forall j | k < j < |spool| :: spool[j].account != spool[k].account
    ensures Decided(spool[k], UidOf(uids, spool[k].account), Replay(spool, books, uids, now))
  {
    var after := Apply(spool[0], books, UidOf(uids, spool[0].account), now);
    if k > 0 {
      assert spool[1..][k - 1] == spool[k];
      assert forall j | k - 1 < j < |spool[1..]| :: spool[1..][j] == spool[j + 1];
      LastEventDecides(spool[1..], k - 1, after, uids, now);
    } else {
      DecidedAtOnce(spool[0], UidOf(uids, spool[0].account), books, now);
      assert forall j | 0 <= j < |spool[1..]| :: spool[1..][j] == spool[j + 1];
      OthersLeaveIt(spool[0], spool[1..], after, uids, now);
    }
  }

  lemma {:induction false} OthersLeaveIt(event: Event, spool: seq<Event>, books: Books, uids: map<string, Uid>, now: Time)
    requires Decided(event, UidOf(uids, event.account), books)
    requires forall j | 0 <= j < |spool| :: spool[j].account != event.account
    ensures Decided(event, UidOf(uids, event.account), Replay(spool, books, uids, now))
  {
    if spool != [] {
      DecidedStays(event, UidOf(uids, event.account), books, spool[0], UidOf(uids, spool[0].account), now);
      OthersLeaveIt(event, spool[1..], Apply(spool[0], books, UidOf(uids, spool[0].account), now), uids, now);
    }
  }

  /** The engine's own loop does exactly that. */
  method ReplayHookSpool(engine: Engine, pending: seq<Event>, uids: map<string, Uid>, now: Time) returns (left: seq<Event>)
    requires Dated(pending)
    modifies engine
    ensures engine.backfilledAt == old(engine.backfilledAt)
    ensures Books(engine.identities, engine.policies)
         == Replay(pending, Books(old(engine.identities), old(engine.policies)), uids, now)
    ensures left == Left(pending, uids)
    ensures LeftUnread(pending, uids, left)
  {
    AllLeft(pending, uids);
    left := [];
    for k := 0 to |pending|
      invariant engine.backfilledAt == old(engine.backfilledAt)
      invariant Halfway(pending, k, Books(old(engine.identities), old(engine.policies)),
                        Books(engine.identities, engine.policies), left, uids, now)
    {
      var event := pending[k];
      var uid := UidOf(uids, event.account);
      HalfwayNext(pending, k, Books(old(engine.identities), old(engine.policies)),
                  Books(engine.identities, engine.policies), left, uids, now);
      var stays := RecordEvent(engine, event, uid, now);
      if stays {
        left := left + [event];
      }
    }
  }

  /** Replaying the rest comes to what replaying all of it does. */
  ghost predicate Halfway(
    pending: seq<Event>, k: nat, start: Books, books: Books, left: seq<Event>, uids: map<string, Uid>, now: Time)
    requires k <= |pending|
  {
    && Replay(pending[k..], books, uids, now) == Replay(pending, start, uids, now)
    && left + Left(pending[k..], uids) == Left(pending, uids)
  }

  lemma HalfwayNext(
    pending: seq<Event>, k: nat, start: Books, books: Books, left: seq<Event>, uids: map<string, Uid>, now: Time)
    requires k < |pending| && Halfway(pending, k, start, books, left, uids, now)
    ensures var event, uid := pending[k], UidOf(uids, pending[k].account);
            && event in pending
            && Halfway(pending, k + 1, start, Apply(event, books, uid, now),
                       if Stays(event, uid) then left + [event] else left, uids, now)
  {
    assert pending[k..][1..] == pending[k + 1..];
  }

  /** One file of the spool (internal/node/identity.go:256-289). */
  method RecordEvent(engine: Engine, event: Event, uid: Uid, now: Time) returns (stays: bool)
    requires event.at != 0
    modifies engine
    ensures engine.backfilledAt == old(engine.backfilledAt)
    ensures Books(engine.identities, engine.policies) == Apply(event, Books(old(engine.identities), old(engine.policies)), uid, now)
    ensures stays == Stays(event, uid)
  {
    var outcome := Recorded;
    ghost var before := engine.identities;
    match event.kind {
      case Create => outcome := engine.AccountCreated(event.account, event.at, uid, now);
      case Remove =>
        engine.AccountRemoved(event.account, now);
        SameRecords(engine.identities, Retire(before, event.account, now));
      case OtherKind =>
    }
    stays := outcome == NotRecorded;
  }

  lemma SameRecords(a: map<string, Identity>, b: map<string, Identity>)
    requires forall name :: Lookup(a, name) == Lookup(b, name)
    ensures a == b
  {
    forall name ensures name in a <==> name in b {
      assert Lookup(a, name) == Lookup(b, name);
    }
    forall name | name in a ensures a[name] == b[name] {
      assert Lookup(a, name) == Lookup(b, name);
    }
  }

  // ---- Crashes ----

  /** The same owner, boundary and retirement for every name, and the same
      policies; only when a name was retired may differ. */
  ghost predicate Agree(a: Books, b: Books) {
    && a.policies == b.policies
    && a.identities.Keys == b.identities.Keys
    && forall name | name in a.identities ::
         && a.identities[name].uid == b.identities[name].uid
         && a.identities[name].sinceAt == b.identities[name].sinceAt
         && a.identities[name].recycled == b.identities[name].recycled
         && (a.identities[name].retiredAt.Some? <==> b.identities[name].retiredAt.Some?)
  }

  /** Recording cut off after some of its writes: the identity first, then one
      policy at a time. */
  function PartlyApply(event: Event, books: Books, uid: Uid, now: Time, writes: nat): Books {
    if writes == 0 then books
    else if event.kind.Remove? then
      var cleaned := if writes - 1 <= |books.policies| then writes - 1 else |books.policies|;
      Books(Retire(books.identities, event.account, now),
            RemoveFromAll(books.policies[..cleaned], event.account) + books.policies[cleaned..])
    else Apply(event, books, uid, now)
  }

  /** One attempt that did not finish: `done` entries were recorded and their
      files removed, and the next got some of its writes in. */
  datatype Cut = Cut(done: nat, writes: nat, now: Time)

  /** What is left of the books and the spool after such attempts. */
  function Interrupted(spool: seq<Event>, books: Books, uids: map<string, Uid>, cuts: seq<Cut>): (seq<Event>, Books)
    decreases |cuts|
  {
    if cuts == [] then (spool, books)
    else
      var cut := cuts[0];
      var done := if cut.done <= |spool| then cut.done else |spool|;
      var recorded := Replay(spool[..done], books, uids, cut.now);
      var partly := if done < |spool|
                    then PartlyApply(spool[done], recorded, UidOf(uids, spool[done].account), cut.now, cut.writes)
                    else recorded;
      Interrupted(Left(spool[..done], uids) + spool[done..], partly, uids, cuts[1..])
  }

  lemma {:induction false} ReplayAgrees(spool: seq<Event>, a: Books, b: Books, uids: map<string, Uid>, now: Time, later: Time)
    requires Agree(a, b)
    ensures Agree(Replay(spool, a, uids, now), Replay(spool, b, uids, later))
  {
    if spool != [] {
      var uid := UidOf(uids, spool[0].account);
      ReplayAgrees(spool[1..], Apply(spool[0], a, uid, now), Apply(spool[0], b, uid, later), uids, now, later);
    }
  }

  /** Recording an event again, after all or part of it was recorded, adds
      nothing. */
  lemma ApplyAgain(event: Event, books: Books, uid: Uid, now: Time, later: Time, writes: nat)
    requires event.at != 0
    ensures Agree(Apply(event, PartlyApply(event, books, uid, now, writes), uid, later), Apply(event, books, uid, now))
  {
    if writes > 0 && event.kind.Remove? {
      var partly := PartlyApply(event, books, uid, now, writes);
      forall i | 0 <= i < |books.policies|
        ensures RemoveFromAll(partly.policies, event.account)[i] == RemoveFrom(books.policies[i], event.account)
      {
        RemovalNeverWidens(books.policies[i], event.account, "");
      }
      assert RemoveFromAll(partly.policies, event.account) == RemoveFromAll(books.policies, event.account);
    }
  }

  lemma {:induction false} ReplaySplit(first: seq<Event>, second: seq<Event>, books: Books, uids: map<string, Uid>, now: Time)
    ensures Replay(first + second, books, uids, now) == Replay(second, Replay(first, books, uids, now), uids, now)
  {
    if first == [] {
      assert first + second == second;
    } else {
      assert (first + second)[1..] == first[1..] + second;
      ReplaySplit(first[1..], second, Apply(first[0], books, UidOf(uids, first[0].account), now), uids, now);
    }
  }

  /** What stays in the spool was not recorded, so replaying it changes nothing
      while the account stays unreadable. */
  lemma {:induction false} LeftIsInert(spool: seq<Event>, books: Books, uids: map<string, Uid>, now: Time)
    ensures Replay(Left(spool, uids), books, uids, now) == books
    ensures Left(Left(spool, uids), uids) == Left(spool, uids)
    ensures forall e | e in Left(spool, uids) :: e in spool
  {
    if spool != [] {
      LeftIsInert(spool[1..], books, uids, now);
      var rest := Left(spool[1..], uids);
      if Stays(spool[0], UidOf(uids, spool[0].account)) {
        assert ([spool[0]] + rest)[1..] == rest;
      } else {
        assert Left(spool, uids) == rest;
      }
    }
  }

  /** However often replaying is cut off, and wherever, the attempt that
      finishes ends where one uninterrupted replay would have. */
  lemma {:induction false} ReplaySurvivesCuts(spool: seq<Event>, books: Books, uids: map<string, Uid>, cuts: seq<Cut>,
                                              now: Time, later: Time)
    requires Dated(spool)
    ensures var (rest, left) := Interrupted(spool, books, uids, cuts);
            Agree(Replay(rest, left, uids, later), Replay(spool, books, uids, now))
    decreases |cuts|
  {
    if cuts == [] {
      ReplayAgrees(spool, books, books, uids, later, now);
    } else {
      var cut := cuts[0];
      var done := if cut.done <= |spool| then cut.done else |spool|;
      var recorded := Replay(spool[..done], books, uids, cut.now);
      var stays := Left(spool[..done], uids);
      assert spool == spool[..done] + spool[done..];
      var partly := if done < |spool|
                    then PartlyApply(spool[done], recorded, UidOf(uids, spool[done].account), cut.now, cut.writes)
                    else recorded;
      LeftIsInert(spool[..done], partly, uids, now);
      ReplaySurvivesCuts(stays + spool[done..], partly, uids, cuts[1..], now, later);
      ReplaySplit(stays, spool[done..], partly, uids, now);
      ReplayFromCut(spool[done..], recorded, partly, uids, cut, now);
      ReplaySplit(spool[..done], spool[done..], books, uids, now);
      ReplayAgrees(spool[..done], books, books, uids, cut.now, now);
      ReplayAgrees(spool[done..], recorded, Replay(spool[..done], books, uids, now), uids, now, now);
    }
  }

  lemma ReplayFromCut(rest: seq<Event>, recorded: Books, partly: Books, uids: map<string, Uid>, cut: Cut, now: Time)
    requires Dated(rest)
    requires partly == if rest != [] then PartlyApply(rest[0], recorded, UidOf(uids, rest[0].account), cut.now, cut.writes)
                       else recorded
    ensures Agree(Replay(rest, partly, uids, now), Replay(rest, recorded, uids, now))
  {
    if rest != [] {
      var uid := UidOf(uids, rest[0].account);
      assert rest[0] in rest;
      ApplyAgain(rest[0], recorded, uid, cut.now, now, cut.writes);
      ReplayAgrees(rest[1..], Apply(rest[0], partly, uid, now), Apply(rest[0], recorded, uid, now), uids, now, now);
    }
  }
}
