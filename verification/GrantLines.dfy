/** The grants a backup carries as text (internal/inventory/dbusers.go:34-83).
    What is read back is what was printed, and a line that is not a grant on
    one database is refused rather than guessed at. */
module GrantLines {
  import opened NodeStore
  import opened GrantPatterns
  import opened Text

  // ---- The line's shape ----

  /** What the four groups of the expression capture. */
  datatype Parts = Parts(privileges: string, pattern: string, user: string, host: string)

  function Object(privileges: string, pattern: string): string {
    "GRANT " + privileges + " ON `" + pattern + "`.* TO "
  }

  function Written(p: Parts): string {
    Object(p.privileges, p.pattern) + "'" + p.user + "'@'" + p.host + "'"
  }

  /** One way the expression matches a line, from its start to its end. */
  predicate Matches(line: string, p: Parts) {
    && p.privileges != "" && p.pattern != ""
    && p.user != "" && '\'' !in p.user
    && p.host != "" && '\'' !in p.host
    && line == Written(p)
  }

  datatype Granted = Granted(head: string, user: string, host: string)

  /** The grantee, from the line's last four quotes. */
  function Grantee(line: string): Option<Granted> {
    if line == "" || line[|line| - 1] != '\'' then None else FromHost(line[..|line| - 1])
  }

  function FromHost(body: string): Option<Granted> {
    var open := LastIndex(body, '\'');
    if open < 0 || !HasSuffix(body[..open], "'@") then None else FromUser(body[..open - 2], body[open + 1..])
  }

  function FromUser(named: string, host: string): Option<Granted> {
    var start := LastIndex(named, '\'');
    if start < 0 then None else Some(Granted(named[..start], named[start + 1..], host))
  }

  predicate Grants(line: string, g: Granted) {
    '\'' !in g.user && '\'' !in g.host && line == g.head + "'" + g.user + "'@'" + g.host + "'"
  }

  lemma LastQuote(before: string, after: string)
    requires '\'' !in after
    ensures var s := before + "'" + after;
            LastIndex(s, '\'') == |before| && s[..|before|] == before && s[|before| + 1..] == after
  {
    LastIndexIs(before, '\'', after);
  }

  lemma Cut(a: string, b: string)
    ensures (a + b)[..|a|] == a && (a + b)[|a|..] == b
  {
  }

  lemma FromUserIff(named: string, host: string, g: Granted)
    ensures FromUser(named, host) == Some(g) <==> named == g.head + "'" + g.user && '\'' !in g.user && g.host == host
  {
    if named == g.head + "'" + g.user && '\'' !in g.user { LastQuote(g.head, g.user); }
    var start := LastIndex(named, '\'');
    if start >= 0 { Unquote(named, start); }
  }

  lemma Unquote(s: string, i: nat)
    requires i < |s| && s[i] == '\''
    ensures s == s[..i] + "'" + s[i + 1..]
  {
  }

  lemma HostRead(named: string, host: string)
    requires '\'' !in host
    ensures FromHost(named + "'@" + "'" + host) == FromUser(named, host)
  {
    var body := named + "'@" + "'" + host;
    LastQuote(named + "'@", host);
    Cut(named, "'@");
    assert body[..|named|] == (named + "'@")[..|named|];
  }

  lemma HostFound(body: string)
    requires FromHost(body).Some?
    ensures var g := FromHost(body).value;
            body == g.head + "'" + g.user + "'@" + "'" + g.host && '\'' !in g.user && '\'' !in g.host
  {
    var open := LastIndex(body, '\'');
    Unquote(body, open);
    assert body[..open] == body[..open - 2] + "'@";
    FromUserIff(body[..open - 2], body[open + 1..], FromHost(body).value);
  }

  lemma FromHostIff(body: string, g: Granted)
    ensures FromHost(body) == Some(g) <==>
            body == g.head + "'" + g.user + "'@" + "'" + g.host && '\'' !in g.user && '\'' !in g.host
  {
    if body == g.head + "'" + g.user + "'@" + "'" + g.host && '\'' !in g.user && '\'' !in g.host {
      HostRead(g.head + "'" + g.user, g.host);
      FromUserIff(g.head + "'" + g.user, g.host, g);
    }
    if FromHost(body) == Some(g) { HostFound(body); }
  }

  lemma GranteeIff(line: string, g: Granted)
    ensures Grantee(line) == Some(g) <==> Grants(line, g)
  {
    if Grants(line, g) {
      var body := g.head + "'" + g.user + "'@" + "'" + g.host;
      assert line == body + "'";
      Cut(body, "'");
    }
    if line != "" && line[|line| - 1] == '\'' {
      assert line == line[..|line| - 1] + "'";
      FromHostIff(line[..|line| - 1], g);
      Regrouped(g);
    }
  }

  lemma Regrouped(g: Granted)
    ensures g.head + "'" + g.user + "'@" + "'" + g.host + "'" == g.head + "'" + g.user + "'@'" + g.host + "'"
  {
  }

  /** The greatest place below `i` where the pattern's opening quote can be
      with something on both sides of it; zero when there is none. */
  function LastOn(middle: string, i: nat): (at: nat)
    requires i <= |middle|
    ensures at > 0 ==> at < i && HasPrefix(middle[at..], " ON `") && at + 5 < |middle|
    ensures forall k | 0 < k < i && HasPrefix(middle[k..], " ON `") && k + 5 < |middle| :: k <= at
  {
    if i <= 1 then 0
    else if HasPrefix(middle[i - 1..], " ON `") && i + 4 < |middle| then i - 1
    else LastOn(middle, i - 1)
  }

  /** The leftmost-first match of the expression: its first group as long as
      it can be. */
  function Staged(line: string): Option<Parts> {
    match Grantee(line)
    case None => None
    case Some(g) =>
      if g.user == "" || g.host == "" || |g.head| < 13 ||
         !HasPrefix(g.head, "GRANT ") || !HasSuffix(g.head, "`.* TO ")
      then None
      else
        var middle := g.head[6..|g.head| - 7];
        var on := LastOn(middle, |middle|);
        if on == 0 then None
        else Some(Parts(middle[..on], middle[on + 5..], g.user, g.host))
  }

  lemma ObjectMiddle(privileges: string, pattern: string)
    ensures var head := Object(privileges, pattern);
            |head| >= 18 && HasPrefix(head, "GRANT ") && HasSuffix(head, "`.* TO ") &&
            head[6..|head| - 7] == privileges + " ON `" + pattern
  {
  }

  lemma MiddleAt(privileges: string, pattern: string)
    ensures HasPrefix((privileges + " ON `" + pattern)[|privileges|..], " ON `")
    ensures (privileges + " ON `" + pattern)[..|privileges|] == privileges
    ensures (privileges + " ON `" + pattern)[|privileges| + 5..] == pattern
  {
    var middle := privileges + " ON `" + pattern;
    assert middle[|privileges|..] == " ON `" + pattern;
  }

  lemma Ends(s: string, prefix: string, suffix: string)
    requires HasPrefix(s, prefix) && HasSuffix(s, suffix) && |prefix| + |suffix| <= |s|
    ensures s == prefix + s[|prefix|..|s| - |suffix|] + suffix
  {
  }

  lemma StagedMatches(line: string)
    requires Staged(line).Some?
    ensures Matches(line, Staged(line).value)
  {
    var g, p := Grantee(line).value, Staged(line).value;
    GranteeIff(line, g);
    ObjectFrom(g.head);
  }

  lemma ObjectFrom(head: string)
    requires |head| >= 13 && HasPrefix(head, "GRANT ") && HasSuffix(head, "`.* TO ")
    ensures var middle := head[6..|head| - 7];
            var on := LastOn(middle, |middle|);
            on > 0 ==> head == Object(middle[..on], middle[on + 5..])
  {
    var middle := head[6..|head| - 7];
    var on := LastOn(middle, |middle|);
    Ends(head, "GRANT ", "`.* TO ");
    if on > 0 {
      Around(middle, on, " ON `");
      Joined3(middle[..on], middle[on + 5..]);
    }
  }

  lemma Around(s: string, at: nat, word: string)
    requires at <= |s| && HasPrefix(s[at..], word)
    ensures s == s[..at] + word + s[at + |word|..]
  {
    assert s[at..][..|word|] == word;
  }

  lemma Joined3(privileges: string, pattern: string)
    ensures "GRANT " + (privileges + " ON `" + pattern) + "`.* TO " == Object(privileges, pattern)
  {
  }

  lemma MatchIsNoLonger(line: string, p: Parts)
    requires Matches(line, p)
    ensures Staged(line).Some?
    ensures |p.privileges| <= |Staged(line).value.privileges|
    ensures |p.privileges| == |Staged(line).value.privileges| ==> p == Staged(line).value
  {
    GranteeIff(line, Granted(Object(p.privileges, p.pattern), p.user, p.host));
    ObjectMiddle(p.privileges, p.pattern);
    MiddleAt(p.privileges, p.pattern);
  }

  /** The expression can match a line in several ways; what is read is the
      one with the longest privileges, and there is one whenever any is. */
  lemma StagedIff(line: string, p: Parts)
    ensures Staged(line) == Some(p) <==>
            Matches(line, p) && forall o | Matches(line, o) :: |o.privileges| <= |p.privileges|
  {
    if Staged(line).Some? {
      StagedMatches(line);
      forall o | Matches(line, o) ensures |o.privileges| <= |Staged(line).value.privileges| {
        MatchIsNoLonger(line, o);
      }
    }
    if Matches(line, p) { MatchIsNoLonger(line, p); }
  }

  /** A pattern without a backtick cannot be cut anywhere else. */
  lemma PlainPatternIsRead(p: Parts)
    requires Matches(Written(p), p) && '`' !in p.pattern
    ensures Staged(Written(p)) == Some(p)
  {
    var line := Written(p);
    MatchIsNoLonger(line, p);
    StagedMatches(line);
    var read := Staged(line).value;
    var head, other := Object(p.privileges, p.pattern), Object(read.privileges, read.pattern);
    GranteeIff(line, Granted(head, p.user, p.host));
    GranteeIff(line, Granted(other, read.user, read.host));
    assert head == other;
    ObjectMiddle(p.privileges, p.pattern);
    ObjectMiddle(read.privileges, read.pattern);
    LastTick(p.privileges, p.pattern, read.privileges, read.pattern);
  }

  lemma LastTick(a: string, b: string, a': string, b': string)
    requires a + " ON `" + b == a' + " ON `" + b' && '`' !in b
    ensures |a'| <= |a|
  {
    var middle := a + " ON `" + b;
    assert middle[|a'| + 4] == (a' + " ON `" + b')[|a'| + 4] == '`';
    assert forall k | |a| + 5 <= k < |middle| :: middle[k] == b[k - |a| - 5];
  }

  // ---- Reading the file ----

  datatype Grant = Grant(database: string, privileges: seq<string>)
  datatype Entry = Entry(who: string, grant: Grant)

  datatype Reason = Unreadable | NotOneDatabase | Wildcard

  datatype Reading = Skip | Read(entry: Entry) | Bad(reason: Reason)

  function Trimmed(line: string): string {
    var t := TrimSpace(line);
    TrimSpace(if HasSuffix(t, ";") then t[..|t| - 1] else t)
  }

  function Privileges(pieces: seq<string>): seq<string> {
    if pieces == [] then []
    else
      var rest := Privileges(pieces[..|pieces| - 1]);
      var privilege := TrimSpace(pieces[|pieces| - 1]);
      if privilege == "" then rest else rest + [privilege]
  }

  function Skipped(line: string): bool {
    line == "" || HasPrefix(line, "--") || HasPrefix(line, "CREATE USER ")
  }

  /** A line is skipped when it is blank, a comment, or makes a user. */
  lemma SkippedIff(raw: string)
    ensures ReadLine(raw) == Skip <==>
            var line := Trimmed(raw);
            || |line| == 0 || (|line| >= 2 && line[0] == '-' && line[1] == '-')
            || (|line| >= 12 && line[..12] == "CREATE USER ")
    ensures ReadLine(raw) == Bad(Unreadable) <==>
            ReadLine(raw) != Skip && !(|Trimmed(raw)| >= 6 && Trimmed(raw)[..6] == "GRANT ")
  {
    var line := Trimmed(raw);
    if |line| >= 2 { assert line[..2] == [line[0], line[1]]; }
  }

  function ReadLine(raw: string): Reading {
    var line := Trimmed(raw);
    if Skipped(line) then Skip
    else if !HasPrefix(line, "GRANT ") then Bad(Unreadable)
    else match Staged(line)
      case None => Bad(NotOneDatabase)
      case Some(p) => match Spelled(p.pattern)
        case None => Bad(Wildcard)
        case Some(database) =>
          Read(Entry(p.user + "@" + p.host, Grant(database, Privileges(SplitOn(p.privileges, ',')))))
  }

  datatype Readings = Entries(entries: seq<Entry>) | Refused(reason: Reason)

  /** Every entry in order, or the reason the first bad line was refused for. */
  function ReadLines(lines: seq<string>): Readings {
    if lines == [] then Entries([])
    else After(ReadLines(lines[..|lines| - 1]), ReadLine(lines[|lines| - 1]))
  }

  function After(before: Readings, reading: Reading): Readings {
    match before
    case Refused(reason) => Refused(reason)
    case Entries(entries) =>
      match reading
      case Skip => Entries(entries)
      case Bad(reason) => Refused(reason)
      case Read(entry) => Entries(entries + [entry])
  }

  type Users = map<string, seq<Grant>>

  function Of(users: Users, who: string): seq<Grant> {
    if who in users then users[who] else []
  }

  function Grouped(entries: seq<Entry>): Users {
    if entries == [] then map[]
    else
      Appended(Grouped(entries[..|entries| - 1]), entries[|entries| - 1])
  }

  lemma {:induction false} RefusedStays(lines: seq<string>, n: nat)
    requires n <= |lines| && ReadLines(lines[..n]).Refused?
    ensures ReadLines(lines) == ReadLines(lines[..n])
  {
    if n == |lines| {
      assert lines[..n] == lines;
    } else {
      assert lines[..|lines| - 1][..n] == lines[..n];
      RefusedStays(lines[..|lines| - 1], n);
    }
  }

  /** The privileges a line grants (internal/inventory/dbusers.go:71-76). */
  method SplitPrivileges(text: string) returns (privileges: seq<string>)
    ensures privileges == Privileges(SplitOn(text, ','))
  {
    privileges := [];
    var pieces := SplitOn(text, ',');
    for j := 0 to |pieces|
      invariant privileges == Privileges(pieces[..j])
    {
      assert pieces[..j + 1][..j] == pieces[..j];
      var privilege := TrimSpace(pieces[j]);
      if privilege != "" {
        privileges := privileges + [privilege];
      }
    }
    assert pieces[..|pieces|] == pieces;
  }

  /** One line of the file (internal/inventory/dbusers.go:49-81). */
  method ReadOne(raw: string) returns (reading: Reading)
    ensures reading == ReadLine(raw)
  {
    var line := TrimSpace(raw);
    line := TrimSpace(if HasSuffix(line, ";") then line[..|line| - 1] else line);
    if Skipped(line) {
      return Skip;
    }
    if !HasPrefix(line, "GRANT ") {
      return Bad(Unreadable);
    }
    var parts := Staged(line);
    if parts.None? {
      return Bad(NotOneDatabase);
    }
    var database, literal := UnescapeGrantDatabase(parts.value.pattern);
    if !literal {
      return Bad(Wildcard);
    }
    var privileges := SplitPrivileges(parts.value.privileges);
    return Read(Entry(parts.value.user + "@" + parts.value.host, Grant(database, privileges)));
  }

  datatype Parsed = Users(users: Users) | Unparsed(reason: Reason)

  /** ParseGrants. */
  method ParseGrants(raw: string) returns (parsed: Parsed)
    ensures parsed ==
            match ReadLines(SplitOn(raw, '\n'))
            case Refused(reason) => Unparsed(reason)
            case Entries(entries) => Users(Grouped(entries))
  {
    var users: Users := map[];
    var lines := SplitOn(raw, '\n');
    for i := 0 to |lines|
      invariant ReadLines(lines[..i]).Entries?
      invariant users == Grouped(ReadLines(lines[..i]).entries)
    {
      assert lines[..i + 1][..i] == lines[..i];
      var reading := ReadOne(lines[i]);
      match reading
      case Skip =>
      case Bad(reason) =>
        RefusedStays(lines, i + 1);
        return Unparsed(reason);
      case Read(entry) =>
        GroupedAppend(ReadLines(lines[..i]).entries, entry);
        users := Appended(users, entry);
    }
    assert lines[..|lines|] == lines;
    return Users(users);
  }

  function Appended(users: Users, entry: Entry): Users {
    users[entry.who := Of(users, entry.who) + [entry.grant]]
  }

  lemma GroupedAppend(entries: seq<Entry>, entry: Entry)
    ensures Grouped(entries + [entry]) == Appended(Grouped(entries), entry)
  {
    assert (entries + [entry])[..|entries|] == entries;
  }

  // ---- What is read ----

  /** One user's grants, in the order the file lists them. */
  function GrantsOf(entries: seq<Entry>, who: string): seq<Grant> {
    if entries == [] then []
    else GrantsOf(entries[..|entries| - 1], who) +
         if entries[|entries| - 1].who == who then [entries[|entries| - 1].grant] else []
  }

  lemma {:induction false} GroupedAt(entries: seq<Entry>, who: string)
    ensures Of(Grouped(entries), who) == GrantsOf(entries, who)
    ensures who in Grouped(entries) <==> GrantsOf(entries, who) != []
  {
    if entries != [] { GroupedAt(entries[..|entries| - 1], who); }
  }

  /** A line from which an entry may be taken: a grant on a pattern that
      matches one database, and that database is what the entry names. */
  ghost predicate Stands(raw: string, entry: Entry) {
    exists p :: Matches(Trimmed(raw), p) && Earns(p, entry)
  }

  ghost predicate Earns(p: Parts, entry: Entry) {
    MatchesOnly(p.pattern, entry.grant.database) && entry.who == p.user + "@" + p.host
  }

  lemma ReadStands(raw: string)
    requires ReadLine(raw).Read?
    ensures Stands(raw, ReadLine(raw).entry)
  {
    var line := Trimmed(raw);
    StagedMatches(line);
    var p := Staged(line).value;
    if Dangling(p.pattern) { DanglingSpellsNothing(p.pattern); }
    LiteralIff(p.pattern);
    assert Earns(p, ReadLine(raw).entry);
  }

  /** Nothing is widened: every grant that will be given back was on one
      database, which is the one it names, and was that user's. */
  lemma {:induction false} NothingIsWidened(lines: seq<string>, k: nat)
    requires ReadLines(lines).Entries? && k < |ReadLines(lines).entries|
    ensures exists i :: 0 <= i < |lines| && Stands(lines[i], ReadLines(lines).entries[k])
  {
    var last := |lines| - 1;
    var before := ReadLines(lines[..last]).entries;
    if k < |before| {
      NothingIsWidened(lines[..last], k);
      var i :| 0 <= i < last && Stands(lines[..last][i], before[k]);
      assert Stands(lines[i], ReadLines(lines).entries[k]);
    } else {
      ReadStands(lines[last]);
    }
  }

  // ---- Printing, and reading back ----

  datatype Statement = Statement(privileges: seq<string>, pattern: string, user: string, host: string)

  function Listed(privileges: seq<string>): string {
    if privileges == [] then ""
    else if |privileges| == 1 then privileges[0]
    else privileges[0] + ", " + Listed(privileges[1..])
  }

  function PartsOf(s: Statement): Parts {
    Parts(Listed(s.privileges), s.pattern, s.user, s.host)
  }

  function Printed(s: Statement): string {
    Written(PartsOf(s)) + ";"
  }

  function PrintedAll(statements: seq<Statement>): string {
    if statements == [] then "" else Printed(statements[0]) + "\n" + PrintedAll(statements[1..])
  }

  /** A privilege as MySQL names it: "SELECT", "LOCK TABLES". */
  predicate Privilege(p: string) {
    p != "" && !Space(p[0]) && !Space(p[|p| - 1]) && ',' !in p && '\n' !in p
  }

  predicate Quotable(name: string) {
    name != "" && '\'' !in name && '\n' !in name
  }

  predicate Printable(s: Statement) {
    && s.privileges != [] && (forall i | 0 <= i < |s.privileges| :: Privilege(s.privileges[i]))
    && s.pattern != "" && '`' !in s.pattern && '\n' !in s.pattern && Spelled(s.pattern).Some?
    && Quotable(s.user) && Quotable(s.host)
  }

  function Meant(s: Statement): Entry
    requires Printable(s)
  {
    Entry(s.user + "@" + s.host, Grant(Spelled(s.pattern).value, s.privileges))
  }

  lemma TrimmedStays(s: string)
    requires s != "" ==> !Space(s[0]) && !Space(s[|s| - 1])
    ensures TrimSpace(s) == s && TrimSpace(" " + s) == s
  {
    assert (" " + s)[1..] == s;
  }

  lemma {:induction false} ListedIsOneLine(privileges: seq<string>)
    requires privileges != [] && forall i | 0 <= i < |privileges| :: Privilege(privileges[i])
    ensures Listed(privileges) != "" && '\n' !in Listed(privileges)
  {
    if |privileges| > 1 { ListedIsOneLine(privileges[1..]); }
  }

  lemma {:induction false} ListedReadsBack(privileges: seq<string>, lead: string)
    requires lead == "" || lead == " "
    requires privileges != [] && forall i | 0 <= i < |privileges| :: Privilege(privileges[i])
    ensures PrivilegesFrom(SplitOn(lead + Listed(privileges), ',')) == privileges
  {
    var first, rest := privileges[0], privileges[1..];
    if rest == [] {
      SplitPiece(lead + first, ',', "");
      FirstPiece(lead, first, []);
      assert privileges == [first] && [lead + first] + [] == [lead + first];
    } else {
      ListedReadsBack(rest, " ");
      SplitPiece(lead + first, ',', " " + Listed(rest));
      ListedTail(lead, first, rest);
      assert privileges == [first] + rest;
      FirstPiece(lead, first, SplitOn(" " + Listed(rest), ','));
    }
  }

  lemma FirstPiece(lead: string, first: string, pieces: seq<string>)
    requires lead == "" || lead == " "
    requires Privilege(first)
    ensures PrivilegesFrom([lead + first] + pieces) == [first] + PrivilegesFrom(pieces)
  {
    TrimmedStays(first);
    assert "" + first == first;
    assert ([lead + first] + pieces)[1..] == pieces;
  }

  lemma ListedTail(lead: string, first: string, rest: seq<string>)
    requires rest != []
    ensures lead + Listed([first] + rest) == lead + first + [','] + (" " + Listed(rest))
  {
    assert ([first] + rest)[1..] == rest;
  }

  /** Privileges, taken from the other end. */
  function PrivilegesFrom(pieces: seq<string>): seq<string> {
    if pieces == [] then []
    else
      var privilege := TrimSpace(pieces[0]);
      (if privilege == "" then [] else [privilege]) + PrivilegesFrom(pieces[1..])
  }

  lemma {:induction false} PrivilegesEitherWay(pieces: seq<string>)
    ensures Privileges(pieces) == PrivilegesFrom(pieces)
  {
    if |pieces| > 1 {
      var n := |pieces| - 1;
      PrivilegesEitherWay(pieces[..n]);
      PrivilegesEitherWay(pieces[1..]);
      PrivilegesEitherWay(pieces[1..n]);
      assert pieces[..n][1..] == pieces[1..n] && pieces[1..][..n - 1] == pieces[1..n];
    }
  }

  lemma PrintedReadsBack(s: Statement)
    requires Printable(s)
    ensures ReadLine(Printed(s)) == Read(Meant(s))
  {
    var p := PartsOf(s);
    ListedReadsBack(s.privileges, "");
    ListedIsOneLine(s.privileges);
    assert "" + p.privileges == p.privileges;
    PrivilegesEitherWay(SplitOn(p.privileges, ','));
    PrintedIsTrimmed(p);
    PlainPatternIsRead(p);
  }

  lemma PrintedIsTrimmed(p: Parts)
    ensures Trimmed(Written(p) + ";") == Written(p)
    ensures HasPrefix(Written(p), "GRANT ") && !Skipped(Written(p))
  {
    var line := Written(p);
    assert line[|line| - 1] == '\'';
    assert HasPrefix(line, "GRANT ");
    assert line[0] == line[..6][0] == 'G';
    TrimmedStays(line + ";");
    TrimmedStays(line);
    assert (line + ";")[..|line|] == line;
    assert HasSuffix(line + ";", ";");
  }

  lemma PrintedIsOneLine(s: Statement)
    requires Printable(s)
    ensures '\n' !in Printed(s)
  {
    ListedIsOneLine(s.privileges);
    assert '\n' !in Object(Listed(s.privileges), s.pattern);
  }

  lemma {:induction false} ReadLinesAppend(first: string, rest: seq<string>)
    requires ReadLine(first).Read? && ReadLines(rest).Entries?
    ensures ReadLines([first] + rest) == Entries([ReadLine(first).entry] + ReadLines(rest).entries)
  {
    if rest == [] {
      assert [first] + rest == [first] && [first][..0] == [];
      assert ReadLines([first]) == After(Entries([]), ReadLine(first));
    } else {
      var n := |rest| - 1;
      LastOfTwo(first, rest);
      ReadLinesAppend(first, rest[..n]);
      AfterAppend(ReadLine(first).entry, ReadLines(rest[..n]).entries, ReadLine(rest[n]));
    }
  }

  lemma LastOfTwo<A>(first: A, rest: seq<A>)
    requires rest != []
    ensures var s := [first] + rest;
            s[..|s| - 1] == [first] + rest[..|rest| - 1] && s[|s| - 1] == rest[|rest| - 1]
  {
  }

  lemma AfterAppend(entry: Entry, entries: seq<Entry>, reading: Reading)
    requires After(Entries(entries), reading).Entries?
    ensures After(Entries([entry] + entries), reading) ==
            Entries([entry] + After(Entries(entries), reading).entries)
  {
    if reading.Read? { assert [entry] + entries + [reading.entry] == [entry] + (entries + [reading.entry]); }
  }

  function MeantAll(statements: seq<Statement>): seq<Entry>
    requires forall i | 0 <= i < |statements| :: Printable(statements[i])
  {
    if statements == [] then [] else [Meant(statements[0])] + MeantAll(statements[1..])
  }

  /** Every list of single-database grants is read back as it was printed. */
  lemma {:induction false} PrintedGrantsReadBack(statements: seq<Statement>)
    requires forall i | 0 <= i < |statements| :: Printable(statements[i])
    ensures ReadLines(SplitOn(PrintedAll(statements), '\n')) == Entries(MeantAll(statements))
  {
    if statements == [] {
      assert SplitOn("", '\n') == [""];
      assert [""][..0] == [];
    } else {
      var first, rest := statements[0], statements[1..];
      PrintedReadsBack(first);
      PrintedIsOneLine(first);
      PrintedGrantsReadBack(rest);
      SplitPiece(Printed(first), '\n', PrintedAll(rest));
      assert PrintedAll(statements) == Printed(first) + ['\n'] + PrintedAll(rest);
      ReadLinesAppend(Printed(first), SplitOn(PrintedAll(rest), '\n'));
    }
  }

  /** The key tells accounts apart as long as no host carries an '@'. */
  lemma KeyIsUnambiguous(user: string, host: string, user2: string, host2: string)
    requires '@' !in host && '@' !in host2
    requires user + "@" + host == user2 + "@" + host2
    ensures user == user2 && host == host2
  {
    LastIndexIs(user, '@', host);
    LastIndexIs(user2, '@', host2);
    var who := user + "@" + host;
    assert user == who[..|user|] && host == who[|user| + 1..];
  }
}
