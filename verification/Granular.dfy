/** What has to come out of a snapshot for part of an account to be restored
    (internal/granular/granular.go:122-546): whatever is asked for, only the
    snapshot's own parts and what lies beneath them. */
module Granular {
  import opened NodeStore
  import opened Text
  import opened Paths
  import opened Layout
  import opened Merging

  datatype Kind =
    | Files | Website | Mailbox | Database | DatabaseUsers | Dns | Ssl | Settings | Cron | Domains | Ftp | Server
    | Unknown
  {
    predicate NeedsNames() {
      Files? || Mailbox? || Database?
    }
  }

  datatype Ask = Ask(kind: Kind, account: string, names: seq<string>)

  const SETTINGS_MEMBERS :=
    ["cp/", "meta/", "quota", "shell", "shadow", "digestshadow", "userconfig/", "version", "packaged_in_version"]
  const CRON_MEMBERS := ["cron/"]
  const FTP_MEMBERS := ["proftpdpasswd"]
  const MAIL_MEMBERS := ["va/", "vad/", "vf/", "meta/mailserver"]
  const SSL_ALWAYS := ["ssl/", "sslcerts/", "sslkeys/", "has_sslstorage", "autossl.json"]
  const DOMAIN_ALWAYS := ["userdata/main", "userdata/cache.json", "ips/", "addons"]

  // ---- Names ----

  /** underHome: a name inside the account's home directory, or nothing. */
  function UnderHome(home: string, asked: string): Option<string> {
    var name := TrimSpace(asked);
    if name == "" then None
    else
      var full := Clean(if Rooted(name) then name else PathJoin(home, name));
      if full != home && !HasPrefix(full, home + ['/']) then None else Some(full)
  }

  predicate Contains(s: string, a: char, b: char) {
    exists i | 0 <= i < |s| - 1 :: s[i] == a && s[i + 1] == b
  }

  predicate PlainName(name: string) {
    name != "" && '/' !in name && '\\' !in name && !Contains(name, '.', '.')
  }

  predicate NameCharacter(c: char) {
    'a' <= c <= 'z' || 'A' <= c <= 'Z' || '0' <= c <= '9' || c == '_'
  }

  predicate UsableUserName(user: string) {
    user != "" && |user| <= 32 && user[0] != '-' &&
    forall i | 0 <= i < |user| :: NameCharacter(user[i]) || user[i] == '$'
  }

  predicate UsableLabel(s: string) {
    s != "" && |s| <= 63 && s[0] != '-' && s[|s| - 1] != '-' &&
    forall i | 0 <= i < |s| :: NameCharacter(s[i]) || s[i] == '-'
  }

  predicate UsableDomainName(domain: string) {
    var labels := SplitOn(domain, '.');
    domain != "" && |domain| <= 253 && |labels| >= 2 && forall i | 0 <= i < |labels| :: UsableLabel(labels[i])
  }

  // ---- One request ----

  /** Each name turned into what it stands for, or nothing when one of them
      cannot be. */
  function Each(names: seq<string>, resolve: string -> Option<seq<string>>): Option<seq<string>> {
    if names == [] then Some([])
    else
      match Each(names[..|names| - 1], resolve)
      case None => None
      case Some(before) =>
        match resolve(names[|names| - 1])
        case None => None
        case Some(more) => Some(before + more)
  }

  function One(path: Option<string>): Option<seq<string>> {
    if path.Some? then Some([path.value]) else None
  }

  function ForDomain(domain: string, members: seq<string>): Option<seq<string>> {
    if UsableDomainName(domain) then Some(members) else None
  }

  function HomePaths(parts: Parts, names: seq<string>): Option<seq<string>> {
    if parts.homedir == "" then None else Each(names, (name: string) => One(UnderHome(parts.homedir, name)))
  }

  function Mails(names: seq<string>): seq<string> {
    seq(|names|, i requires 0 <= i < |names| => PathJoin("mail", names[i]))
  }

  function Dumps(parts: Parts, names: seq<string>): Option<seq<string>> {
    if parts.databases == "" then None
    else Each(names, (name: string) => One(if PlainName(name) then Some(PathJoin(parts.databases, name + ".sql")) else None))
  }

  function DnsMembers(names: seq<string>): Option<seq<string>> {
    if names == [] then Some(["dnszones/"])
    else Each(names, (name: string) => ForDomain(name, ["dnszones/" + name + ".db"]))
  }

  function SslMembers(names: seq<string>): Option<seq<string>> {
    if names == [] then Some(["apache_tls/"] + SSL_ALWAYS)
    else Plus(Each(names, (name: string) => ForDomain(name, ["apache_tls/" + name])), SSL_ALWAYS)
  }

  function DomainMembers(names: seq<string>): Option<seq<string>> {
    if names == [] then Some(["userdata/", "dnszones/", "ips/", "addons"])
    else
      Plus(
        Each(
          names,
          (name: string) =>
            ForDomain(
              name,
              ["userdata/" + name, "userdata/" + name + "_SSL", "userdata/" + name + ".php-fpm.yaml",
               "dnszones/" + name + ".db"])),
        DOMAIN_ALWAYS)
  }

  function Plus(members: Option<seq<string>>, always: seq<string>): Option<seq<string>> {
    if members.Some? then Some(members.value + always) else None
  }

  function OnlyPaths(paths: Option<seq<string>>): Option<Needs> {
    if paths.Some? then Some(Needs(paths.value, [], "")) else None
  }

  function FromMetadata(parts: Parts, members: Option<seq<string>>): Option<Needs> {
    if members.None? || parts.metadata == "" then None
    else Some(Needs([parts.metadata], members.value, parts.metadata))
  }

  /** Mail is files, and with the metadata at hand its settings too. */
  function MailNeeds(parts: Parts, names: seq<string>): Option<Needs> {
    match HomePaths(parts, Mails(names))
    case None => None
    case Some(paths) =>
      if parts.metadata == "" then Some(Needs(paths, [], ""))
      else Some(Needs(paths + [parts.metadata], MAIL_MEMBERS, parts.metadata))
  }

  function UserNeeds(parts: Parts, names: seq<string>): Option<Needs> {
    if parts.databases == "" || exists i | 0 <= i < |names| :: !UsableUserName(names[i]) then None
    else
      Some(Needs(
        [PathJoin(parts.databases, "_users.sql"), PathJoin(parts.databases, "_users-runnable.sql"),
         PathJoin(parts.databases, "_users.sql-auth.json")], [], ""))
  }

  /** Build. */
  function Build(parts: Parts, ask: Ask): Option<Needs> {
    if ask.account == "" || (ask.kind.NeedsNames() && ask.names == []) then None
    else
      match ask.kind
      case Files => OnlyPaths(HomePaths(parts, ask.names))
      case Website => OnlyPaths(HomePaths(parts, ["public_html"]))
      case Mailbox => MailNeeds(parts, ask.names)
      case Database => OnlyPaths(Dumps(parts, ask.names))
      case DatabaseUsers => UserNeeds(parts, ask.names)
      case Dns => FromMetadata(parts, DnsMembers(ask.names))
      case Ssl => FromMetadata(parts, SslMembers(ask.names))
      case Domains => FromMetadata(parts, DomainMembers(ask.names))
      case Settings => FromMetadata(parts, Some(SETTINGS_MEMBERS))
      case Cron => FromMetadata(parts, Some(CRON_MEMBERS))
      case Ftp => FromMetadata(parts, Some(FTP_MEMBERS))
      case Server => if parts.system == "" then None else Some(Needs([parts.system], [], ""))
      case Unknown => None
  }

  // ---- Nothing outside the snapshot's parts ----

  /** The part itself, or a path with the part's segments in front. */
  predicate Beneath(part: string, path: string) {
    part != "" && (path == part || (Rooted(path) == Rooted(part) && Segments(part) <= Segments(path)))
  }

  predicate FromAPart(parts: Parts, path: string) {
    Beneath(parts.homedir, path) || Beneath(parts.databases, path) ||
    path == parts.metadata || path == parts.system
  }

  lemma {:induction false} NormalPrefix(rooted: bool, a: Path, b: Path)
    requires Normal(rooted, a + b)
    ensures Normal(rooted, a)
  {
    if b == [] {
      assert a + b == a;
    } else {
      assert (a + b)[..|a + b| - 1] == a + b[..|b| - 1];
      NormalPrefix(rooted, a, b[..|b| - 1]);
    }
  }

  /** The pieces of a clean path are its segments. */
  lemma CleanPieces(s: string)
    ensures var clean, rooted, segments := Clean(s), Rooted(s), Segments(s);
            SplitOn(clean, '/') ==
            if rooted then [""] + (if segments == [] then [""] else segments)
            else if segments == [] then ["."] else segments
  {
    SegmentsAreNormal(s);
    NormalIsSlashFree(Rooted(s), Segments(s));
    SplitOne(".", '/');
    if Segments(s) != [] { SplitJoin(Segments(s)); }
    assert ['/'] + Join(Segments(s)) == "" + ['/'] + Join(Segments(s));
    SplitPiece("", '/', Join(Segments(s)));
  }

  lemma FoldAfterEmpty(segments: Path)
    requires Normal(true, segments)
    ensures Fold(true, [], [""] + segments) == segments
  {
    FoldConcat(true, [], [""], segments);
    FoldEmptyPiece(true);
    assert [] + segments == segments;
    FoldKeepsNormal(true, [], segments);
  }

  lemma SplitsApart(s: string, clean: string, home: string)
    requires clean == Clean(s) && HasPrefix(clean, home + ['/'])
    ensures SplitOn(clean, '/') == SplitOn(home, '/') + SplitOn(clean[|home| + 1..], '/')
  {
    SplitConcat(home, '/', clean[|home| + 1..]);
    assert clean == home + ['/'] + clean[|home| + 1..];
  }

  lemma Unhead<A>(front: seq<A>, rest: seq<A>, head: A, tail: seq<A>)
    requires front != [] && front + rest == [head] + tail
    ensures front == [head] + front[1..] && front[1..] + rest == tail
  {
    assert (front + rest)[0] == front[0];
    assert (front + rest)[1..] == front[1..] + rest && ([head] + tail)[1..] == tail;
  }

  lemma RootedFront(front: Path, rest: Path, segments: Path)
    requires |front| >= 2 && rest != [] && Normal(true, segments)
    requires front + rest == [""] + if segments == [] then [""] else segments
    ensures Fold(true, [], front) <= segments
  {
    var below := front[1..];
    Unhead(front, rest, "", if segments == [] then [""] else segments);
    assert |below + rest| >= 2;
    NormalPrefix(true, below, rest);
    FoldAfterEmpty(below);
  }

  lemma RelativeFront(front: Path, rest: Path, segments: Path)
    requires front != [] && rest != [] && Normal(false, segments)
    requires front + rest == if segments == [] then ["."] else segments
    ensures Fold(false, [], front) <= segments
  {
    assert segments != [] && front + rest == segments;
    NormalPrefix(false, front, rest);
    assert [] + front == front;
    FoldKeepsNormal(false, [], front);
  }

  /** A clean path that begins with the text of a directory and a slash is
      beneath that directory. */
  lemma PrefixIsBeneath(s: string, home: string)
    requires home != "" && HasPrefix(Clean(s), home + ['/'])
    ensures Beneath(home, Clean(s))
  {
    var clean := Clean(s);
    var front, rest := SplitOn(home, '/'), SplitOn(clean[|home| + 1..], '/');
    CleanIsIdempotent(s);
    CleanPieces(s);
    SplitsApart(s, clean, home);
    SegmentsAreNormal(s);
    if Rooted(s) {
      RootedFront(front, rest, Segments(s));
    } else {
      RelativeFront(front, rest, Segments(s));
    }
  }

  lemma UnderHomeIsBeneath(home: string, name: string)
    requires home != "" && UnderHome(home, name).Some?
    ensures Beneath(home, UnderHome(home, name).value)
  {
    var asked := TrimSpace(name);
    var s := if Rooted(asked) then asked else PathJoin(home, asked);
    if Clean(s) != home { PrefixIsBeneath(s, home); }
  }

  /** Where a name asked for leads, whether or not it may be asked for. */
  function LeadsTo(home: string, asked: string): string {
    var name := TrimSpace(asked);
    if Rooted(name) then name else PathJoin(home, name)
  }

  /** A name is accepted exactly when where it leads is the home directory or
      beneath it, segment by segment, and then that is what is restored. */
  lemma UnderHomeIff(home: string, asked: string)
    requires Rooted(home) && Clean(home) == home && Segments(home) != []
    ensures UnderHome(home, asked).Some? <==> TrimSpace(asked) != "" && Segments(home) <= Segments(LeadsTo(home, asked))
    ensures UnderHome(home, asked).Some? ==> Segments(UnderHome(home, asked).value) == Segments(LeadsTo(home, asked))
  {
    var target := LeadsTo(home, asked);
    CleanIsIdempotent(target);
    if TrimSpace(asked) != "" {
      LeadsToRooted(home, asked);
      if UnderHome(home, asked).Some? {
        UnderHomeIsBeneath(home, asked);
      } else if Segments(home) <= Segments(target) {
        BeneathHasPrefix(home, target);
      }
    }
  }

  lemma LeadsToRooted(home: string, asked: string)
    requires Rooted(home) && TrimSpace(asked) != ""
    ensures Rooted(LeadsTo(home, asked)) && Rooted(Clean(LeadsTo(home, asked)))
  {
    if !Rooted(TrimSpace(asked)) {
      CleanIsIdempotent(home + ['/'] + TrimSpace(asked));
    }
    CleanIsIdempotent(LeadsTo(home, asked));
  }

  lemma BeneathHasPrefix(home: string, target: string)
    requires Rooted(home) && Clean(home) == home && Segments(home) != []
    requires Rooted(target) && Segments(home) <= Segments(target)
    ensures Clean(target) == home || HasPrefix(Clean(target), home + ['/'])
  {
    var inside := Segments(target)[|Segments(home)|..];
    assert Segments(target) == Segments(home) + inside;
    if inside == [] {
      assert Segments(target) == Segments(home);
    } else {
      JoinLonger(Segments(home), inside);
      Regroup(Join(Segments(home)), Join(inside));
      LongerHasPrefix(home, Join(inside));
    }
  }

  lemma LongerHasPrefix(home: string, inside: string)
    ensures HasPrefix(home + (['/'] + inside), home + ['/'])
  {
    assert home + (['/'] + inside) == (home + ['/']) + inside;
  }

  lemma DumpIsBeneath(databases: string, name: string)
    requires databases != "" && PlainName(name)
    ensures Beneath(databases, PathJoin(databases, name + ".sql"))
  {
    FileIsBeneath(databases, name + ".sql");
  }

  lemma FileSegments(databases: string, file: string)
    requires databases != "" && '/' !in file && |file| > 2
    ensures Segments(PathJoin(databases, file)) == Segments(databases) + [file]
  {
    assert PlainSegment(file);
    PlainStaysBeneath(databases, [file]);
    CleanIsIdempotent(databases + ['/'] + file);
  }

  lemma FileIsBeneath(databases: string, file: string)
    requires databases != "" && '/' !in file && |file| > 2
    ensures Beneath(databases, PathJoin(databases, file))
  {
    var s := databases + ['/'] + file;
    assert PlainSegment(file);
    PlainStaysBeneath(databases, [file]);
    CleanIsIdempotent(s);
    assert Rooted(s) == Rooted(databases);
  }

  lemma {:induction false} EachOne(names: seq<string>, resolve: string -> Option<seq<string>>, i: nat)
    requires forall n | resolve(n).Some? :: |resolve(n).value| == 1
    ensures Each(names, resolve).Some? <==> forall k | 0 <= k < |names| :: resolve(names[k]).Some?
    ensures Each(names, resolve).Some? ==> |Each(names, resolve).value| == |names|
    ensures Each(names, resolve).Some? && i < |names| ==> resolve(names[i]) == Some([Each(names, resolve).value[i]])
  {
    if names != [] {
      var n := |names| - 1;
      EachOne(names[..n], resolve, i);
      assert forall k | 0 <= k < n :: names[..n][k] == names[k];
      if Each(names, resolve).Some? && i < |names| {
        var before, more := Each(names[..n], resolve).value, resolve(names[n]).value;
        assert Each(names, resolve).value == before + more && |before| == n && more == [more[0]];
        assert i < n ==> (before + more)[i] == before[i];
      }
    }
  }

  /** A request for files is granted exactly when each name is inside the home
      directory, and then restores exactly what was named, in order. */
  lemma FilesAreNamed(parts: Parts, ask: Ask, i: nat)
    requires ask.kind.Files? && ask.account != "" && ask.names != [] && i < |ask.names|
    ensures Build(parts, ask).Some? <==>
            parts.homedir != "" && forall k | 0 <= k < |ask.names| :: UnderHome(parts.homedir, ask.names[k]).Some?
    ensures Build(parts, ask).Some? ==>
              var needs := Build(parts, ask).value;
              |needs.paths| == |ask.names| && Some(needs.paths[i]) == UnderHome(parts.homedir, ask.names[i])
  {
    var resolve := (name: string) => One(UnderHome(parts.homedir, name));
    EachOne(ask.names, resolve, i);
    assert forall k | 0 <= k < |ask.names| :: resolve(ask.names[k]).Some? == UnderHome(parts.homedir, ask.names[k]).Some?;
  }

  /** A request for databases is granted exactly when each is simply a name, and
      then restores the dump of that name right beneath the databases. */
  lemma DumpsAreNamed(parts: Parts, ask: Ask, i: nat)
    requires ask.kind.Database? && ask.account != "" && ask.names != [] && i < |ask.names|
    ensures Build(parts, ask).Some? <==>
            parts.databases != "" && forall k | 0 <= k < |ask.names| :: PlainName(ask.names[k])
    ensures Build(parts, ask).Some? ==>
              var needs := Build(parts, ask).value;
              && |needs.paths| == |ask.names|
              && Segments(needs.paths[i]) == Segments(parts.databases) + [ask.names[i] + ".sql"]
  {
    if parts.databases != "" { DumpsEach(parts, ask.names, i); }
  }

  lemma DumpsEach(parts: Parts, names: seq<string>, i: nat)
    requires parts.databases != "" && i < |names|
    ensures Dumps(parts, names).Some? <==> forall k | 0 <= k < |names| :: PlainName(names[k])
    ensures Dumps(parts, names).Some? ==>
              var paths := Dumps(parts, names).value;
              |paths| == |names| && Segments(paths[i]) == Segments(parts.databases) + [names[i] + ".sql"]
  {
    var resolve := (name: string) =>
      One(if PlainName(name) then Some(PathJoin(parts.databases, name + ".sql")) else None);
    EachOne(names, resolve, i);
    assert forall k | 0 <= k < |names| :: resolve(names[k]).Some? == PlainName(names[k]);
    if PlainName(names[i]) { FileSegments(parts.databases, names[i] + ".sql"); }
  }

  /** Whatever holds of all each name stands for holds of all they stand for. */
  lemma {:induction false} EachKeeps(names: seq<string>, resolve: string -> Option<seq<string>>, ok: string -> bool)
    requires Each(names, resolve).Some?
    requires forall n, p | resolve(n).Some? && p in resolve(n).value :: ok(p)
    ensures forall p | p in Each(names, resolve).value :: ok(p)
  {
    if names != [] { EachKeeps(names[..|names| - 1], resolve, ok); }
  }

  lemma HomesBeneath(parts: Parts, names: seq<string>)
    requires HomePaths(parts, names).Some?
    ensures forall p | p in HomePaths(parts, names).value :: Beneath(parts.homedir, p)
  {
    var resolve := (name: string) => One(UnderHome(parts.homedir, name));
    forall n, p | resolve(n).Some? && p in resolve(n).value ensures Beneath(parts.homedir, p) {
      UnderHomeIsBeneath(parts.homedir, n);
    }
    EachKeeps(names, resolve, p => Beneath(parts.homedir, p));
  }

  lemma DumpsBeneath(parts: Parts, names: seq<string>)
    requires Dumps(parts, names).Some?
    ensures forall p | p in Dumps(parts, names).value :: Beneath(parts.databases, p)
  {
    var resolve := (name: string) =>
      One(if PlainName(name) then Some(PathJoin(parts.databases, name + ".sql")) else None);
    forall n, p | resolve(n).Some? && p in resolve(n).value ensures Beneath(parts.databases, p) {
      DumpIsBeneath(parts.databases, n);
    }
    EachKeeps(names, resolve, p => Beneath(parts.databases, p));
  }

  /** Members of the metadata archive are asked for only together with it. */
  lemma MembersComeWithMetadata(parts: Parts, ask: Ask)
    ensures Build(parts, ask).Some? ==>
              var needs := Build(parts, ask).value;
              && (needs.metadata == "" || (needs.metadata == parts.metadata && parts.metadata in needs.paths))
              && (needs.members != [] ==> needs.metadata != "")
  {
  }

  /** Whatever names are given, every path to be restored is a part of the
      snapshot or lies beneath one. */
  lemma BuiltFromParts(parts: Parts, ask: Ask)
    requires Build(parts, ask).Some?
    ensures forall p | p in Build(parts, ask).value.paths :: FromAPart(parts, p)
  {
    match ask.kind
    case Files => HomesBeneath(parts, ask.names);
    case Website => HomesBeneath(parts, ["public_html"]);
    case Mailbox => HomesBeneath(parts, Mails(ask.names));
    case Database => DumpsBeneath(parts, ask.names);
    case DatabaseUsers =>
      FileIsBeneath(parts.databases, "_users.sql");
      FileIsBeneath(parts.databases, "_users-runnable.sql");
      FileIsBeneath(parts.databases, "_users.sql-auth.json");
    case _ =>
  }

  // ---- Several requests ----

  function Building(parts: Parts): Builder<Ask> {
    (ask: Ask) => Build(parts, ask)
  }

  function Built(parts: Parts, asks: seq<Ask>): Option<Needs> {
    if asks == [] then None
    else if |asks| == 1 then Build(parts, asks[0])
    else Gathered(asks, Building(parts))
  }

  /** All of the requests or none; each path and member that one of them needs,
      once, and the metadata archive when one of them does. */
  ghost predicate Combined(parts: Parts, asks: seq<Ask>, needs: Option<Needs>) {
    && (needs.Some? <==> forall i | 0 <= i < |asks| :: Build(parts, asks[i]).Some?)
    && (needs.Some? ==>
          && Distinct(needs.value.paths) && Distinct(needs.value.members)
          && (forall p :: p in needs.value.paths <==>
                exists i :: 0 <= i < |asks| && Build(parts, asks[i]).Some? && p in Build(parts, asks[i]).value.paths)
          && (forall m :: m in needs.value.members <==>
                exists i :: 0 <= i < |asks| && Build(parts, asks[i]).Some? && m in Build(parts, asks[i]).value.members)
          && (|needs.value.metadata| > 0 <==>
                exists i :: 0 <= i < |asks| && Build(parts, asks[i]).Some? && |Build(parts, asks[i]).value.metadata| > 0))
  }

  lemma GatheredIsCombined(parts: Parts, asks: seq<Ask>)
    ensures Combined(parts, asks, Gathered(asks, Building(parts)))
  {
    var build := Building(parts);
    AllOrNothing(asks, build);
    assert AllBuild(asks, build) <==> forall i | 0 <= i < |asks| :: Build(parts, asks[i]).Some?;
    if Gathered(asks, build).Some? {
      var needs := Gathered(asks, build).value;
      GatheredIsUnion(asks, build, "");
      forall p
        ensures p in needs.paths <==>
                exists i :: 0 <= i < |asks| && Build(parts, asks[i]).Some? && p in Build(parts, asks[i]).value.paths
      {
        GatheredIsUnion(asks, build, p);
        assert forall i | 0 <= i < |asks| ::
            NeedsPath(build, asks[i], p) <==> Build(parts, asks[i]).Some? && p in Build(parts, asks[i]).value.paths;
      }
      forall m
        ensures m in needs.members <==>
                exists i :: 0 <= i < |asks| && Build(parts, asks[i]).Some? && m in Build(parts, asks[i]).value.members
      {
        GatheredIsUnion(asks, build, m);
        assert forall i | 0 <= i < |asks| ::
            NeedsMember(build, asks[i], m) <==> Build(parts, asks[i]).Some? && m in Build(parts, asks[i]).value.members;
      }
      GatheredMetadata(asks, build);
      assert forall i | 0 <= i < |asks| ::
          NamesMetadata(build, asks[i]) <==> Build(parts, asks[i]).Some? && |Build(parts, asks[i]).value.metadata| > 0;
    }
  }

  /** BuildAll. One request is not merged with anything. */
  method BuildAll(parts: Parts, asks: seq<Ask>) returns (needs: Option<Needs>)
    ensures needs == Built(parts, asks)
    ensures |asks| == 0 ==> needs == None
    ensures |asks| == 1 ==> needs == Build(parts, asks[0])
    ensures |asks| > 1 ==> Combined(parts, asks, needs)
  {
    if |asks| > 1 { GatheredIsCombined(parts, asks); }
    if |asks| == 0 {
      return None;
    }
    if |asks| == 1 {
      return Build(parts, asks[0]);
    }
    needs := Gather(asks, Building(parts));
  }

  /** What several requests need together stays within the parts too. */
  lemma GatheredFromParts(parts: Parts, asks: seq<Ask>, p: string)
    ensures Gathered(asks, Building(parts)).Some? && p in Gathered(asks, Building(parts)).value.paths ==>
              FromAPart(parts, p)
  {
    GatheredIsUnion(asks, Building(parts), p);
    if i :| 0 <= i < |asks| && NeedsPath(Building(parts), asks[i], p) {
      BuiltFromParts(parts, asks[i]);
    }
  }
}
