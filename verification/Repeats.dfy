/** When a granular plan names something twice
    (internal/granular/granular.go:176-223, 230-330, 345-488): several requests are
    merged, a single one is passed on as it was built. */
module Repeats {
  import opened NodeStore
  import opened Text
  import opened Paths
  import opened Layout
  import opened Merging
  import opened Granular

  predicate Disjoint<A(==)>(a: seq<A>, b: seq<A>) {
    forall x | x in a :: x !in b
  }

  lemma DistinctConcat<A>(a: seq<A>, b: seq<A>)
    ensures Distinct(a + b) <==> Distinct(a) && Distinct(b) && Disjoint(a, b)
  {
    var s := a + b;
    if Distinct(a) && Distinct(b) && Disjoint(a, b) {
      assert forall i | 0 <= i < |s| :: if i < |a| then s[i] == a[i] && s[i] in a else s[i] == b[i - |a|] && s[i] in b;
      assert Distinct(s);
    }
    if Distinct(s) {
      forall i, j | 0 <= i < j < |b| ensures b[i] != b[j] { assert s[|a| + i] == b[i] && s[|a| + j] == b[j]; }
      forall i, j | 0 <= i < j < |a| ensures a[i] != a[j] { assert s[i] == a[i] && s[j] == a[j]; }
      forall i, j | 0 <= i < |a| && 0 <= j < |b| ensures a[i] != b[j] { assert s[i] == a[i] && s[|a| + j] == b[j]; }
    }
  }

  // ---- Names that stand for several things each ----

  ghost predicate Resolves(names: seq<string>, resolve: string -> Option<seq<string>>) {
    forall i | 0 <= i < |names| :: resolve(names[i]).Some? && Distinct(resolve(names[i]).value)
  }

  ghost predicate Apart(names: seq<string>, resolve: string -> Option<seq<string>>)
    requires Resolves(names, resolve)
  {
    forall i, j | 0 <= i < j < |names| :: Disjoint(resolve(names[i]).value, resolve(names[j]).value)
  }

  lemma {:induction false} EachHas(names: seq<string>, resolve: string -> Option<seq<string>>, v: string)
    requires Resolves(names, resolve)
    ensures Each(names, resolve).Some?
    ensures v in Each(names, resolve).value <==> exists i :: 0 <= i < |names| && v in resolve(names[i]).value
  {
    if names != [] {
      var front, n := names[..|names| - 1], |names| - 1;
      assert forall i | 0 <= i < n :: front[i] == names[i];
      EachHas(front, resolve, v);
    }
  }

  lemma {:induction false} EachDistinct(names: seq<string>, resolve: string -> Option<seq<string>>)
    requires Resolves(names, resolve)
    ensures Each(names, resolve).Some?
    ensures Distinct(Each(names, resolve).value) <==> Apart(names, resolve)
  {
    if names != [] {
      var front, n := names[..|names| - 1], |names| - 1;
      assert forall i | 0 <= i < n :: front[i] == names[i];
      EachDistinct(front, resolve);
      var before, more := Each(front, resolve).value, resolve(names[n]).value;
      DistinctConcat(before, more);
      FrontApart(names, resolve, before, more);
    }
  }

  lemma FrontApart(
    names: seq<string>, resolve: string -> Option<seq<string>>, before: seq<string>, more: seq<string>)
    requires names != [] && Resolves(names, resolve) && Resolves(names[..|names| - 1], resolve)
    requires Each(names[..|names| - 1], resolve) == Some(before) && more == resolve(names[|names| - 1]).value
    ensures Apart(names, resolve) <==> Apart(names[..|names| - 1], resolve) && Disjoint(before, more)
  {
    var front, n := names[..|names| - 1], |names| - 1;
    assert forall i | 0 <= i < n :: front[i] == names[i];
    if Disjoint(before, more) {
      forall i | 0 <= i < n ensures Disjoint(resolve(names[i]).value, more) {
        forall x | x in resolve(front[i]).value ensures x in before { EachHas(front, resolve, x); }
      }
    }
    if Apart(names, resolve) {
      forall x | x in before ensures x !in more {
        EachHas(front, resolve, x);
        var i :| 0 <= i < n && x in resolve(front[i]).value;
        assert Disjoint(resolve(names[i]).value, resolve(names[n]).value);
      }
    }
  }

  // ---- Text ----

  lemma SameStart(prefix: string, a: string, b: string)
    ensures prefix + a == prefix + b <==> a == b
  {
    if prefix + a == prefix + b {
      assert a == (prefix + a)[|prefix|..] && b == (prefix + b)[|prefix|..];
    }
  }

  lemma SameEnd(a: string, b: string, suffix: string)
    ensures a + suffix == b + suffix <==> a == b
  {
    if a + suffix == b + suffix {
      assert a == (a + suffix)[..|a|] && b == (b + suffix)[..|b|];
    }
  }

  lemma EndsApart(a: string, b: string, x: string, y: string)
    requires x != "" && y != "" && x[|x| - 1] != y[|y| - 1]
    ensures a + x != b + y
  {
    assert (a + x)[|a + x| - 1] == x[|x| - 1] && (b + y)[|b + y| - 1] == y[|y| - 1];
  }

  // ---- Kind by kind ----

  /** Where a name for a file or a mailbox leads, spelled out. */
  function Place(parts: Parts, name: string): string {
    Clean(LeadsTo(parts.homedir, name))
  }

  function MailPlace(parts: Parts, name: string): string {
    Place(parts, PathJoin("mail", name))
  }

  ghost predicate DistinctPlaces(names: seq<string>, place: string -> string) {
    forall i, j | 0 <= i < j < |names| :: place(names[i]) != place(names[j])
  }

  /** The web server's files of one domain are named like another domain. */
  predicate Shadows(a: string, b: string) {
    a + "_SSL" == b || a + ".php-fpm.yaml" == b
  }

  /** What a single request may name for nothing to be named twice. */
  ghost predicate NamesApart(parts: Parts, ask: Ask) {
    match ask.kind
    case Files => DistinctPlaces(ask.names, (name: string) => Place(parts, name))
    case Mailbox =>
      && DistinctPlaces(ask.names, (name: string) => MailPlace(parts, name))
      && (parts.metadata != "" ==> forall i | 0 <= i < |ask.names| :: MailPlace(parts, ask.names[i]) != parts.metadata)
    case Database => Distinct(ask.names)
    case Dns => Distinct(ask.names)
    case Ssl => Distinct(ask.names)
    case Domains =>
      && Distinct(ask.names) && "cache.json" !in ask.names
      && forall i, j | 0 <= i < |ask.names| && 0 <= j < |ask.names| :: !Shadows(ask.names[i], ask.names[j])
    case _ => true
  }

  ghost predicate RepeatFree(needs: Needs) {
    Distinct(needs.paths) && Distinct(needs.members)
  }

  lemma OneEach(names: seq<string>, resolve: string -> Option<seq<string>>, place: string -> string)
    requires forall i | 0 <= i < |names| :: resolve(names[i]) == Some([place(names[i])])
    ensures Each(names, resolve).Some? && (Distinct(Each(names, resolve).value) <==> DistinctPlaces(names, place))
  {
    forall i | 0 <= i < |names| ensures resolve(names[i]).Some? && Distinct(resolve(names[i]).value) {}
    EachDistinct(names, resolve);
    assert Apart(names, resolve) <==> DistinctPlaces(names, place) by {
      forall i, j | 0 <= i < j < |names|
        ensures Disjoint(resolve(names[i]).value, resolve(names[j]).value) <==> place(names[i]) != place(names[j])
      {
        var a, b := [place(names[i])], [place(names[j])];
        assert place(names[i]) in a;
      }
    }
  }

  lemma HomesIff(parts: Parts, names: seq<string>)
    requires HomePaths(parts, names).Some?
    ensures Distinct(HomePaths(parts, names).value) <==> DistinctPlaces(names, (name: string) => Place(parts, name))
    ensures forall p :: p in HomePaths(parts, names).value <==> exists i :: 0 <= i < |names| && Place(parts, names[i]) == p
  {
    var resolve, place := (name: string) => One(UnderHome(parts.homedir, name)), (name: string) => Place(parts, name);
    forall i | 0 <= i < |names| ensures resolve(names[i]) == Some([place(names[i])]) {
      EachResolves(names, resolve, i);
    }
    OneEach(names, resolve, place);
    forall p ensures p in HomePaths(parts, names).value <==> exists i :: 0 <= i < |names| && Place(parts, names[i]) == p {
      EachHas(names, resolve, p);
    }
  }

  lemma {:induction false} EachResolves(names: seq<string>, resolve: string -> Option<seq<string>>, i: nat)
    requires Each(names, resolve).Some? && i < |names|
    ensures resolve(names[i]).Some?
  {
    if i < |names| - 1 { EachResolves(names[..|names| - 1], resolve, i); }
  }

  lemma MailsIff(parts: Parts, names: seq<string>)
    requires MailNeeds(parts, names).Some?
    ensures RepeatFree(MailNeeds(parts, names).value) <==>
            && DistinctPlaces(names, (name: string) => MailPlace(parts, name))
            && (parts.metadata != "" ==> forall i | 0 <= i < |names| :: MailPlace(parts, names[i]) != parts.metadata)
  {
    MailPathsIff(parts, names);
    MailMembersDistinct();
    var paths := HomePaths(parts, Mails(names)).value;
    DistinctConcat(paths, [parts.metadata]);
    assert Disjoint(paths, [parts.metadata]) <==> parts.metadata !in paths;
  }

  lemma MailPathsIff(parts: Parts, names: seq<string>)
    requires HomePaths(parts, Mails(names)).Some?
    ensures Distinct(HomePaths(parts, Mails(names)).value) <==>
            DistinctPlaces(names, (name: string) => MailPlace(parts, name))
    ensures parts.metadata in HomePaths(parts, Mails(names)).value <==>
            exists i :: 0 <= i < |names| && MailPlace(parts, names[i]) == parts.metadata
  {
    var mails, metadata := Mails(names), parts.metadata;
    HomesIff(parts, mails);
    forall i | 0 <= i < |names| ensures Place(parts, mails[i]) == MailPlace(parts, names[i]) {}
    SamePlaces(mails, names, (name: string) => Place(parts, name), (name: string) => MailPlace(parts, name), metadata);
  }

  lemma SamePlaces(a: seq<string>, b: seq<string>, f: string -> string, g: string -> string, p: string)
    requires |a| == |b| && forall i | 0 <= i < |a| :: f(a[i]) == g(b[i])
    ensures DistinctPlaces(a, f) <==> DistinctPlaces(b, g)
    ensures (exists i :: 0 <= i < |a| && f(a[i]) == p) <==> (exists i :: 0 <= i < |b| && g(b[i]) == p)
  {
    if i :| 0 <= i < |a| && f(a[i]) == p { assert g(b[i]) == p; }
    if i :| 0 <= i < |b| && g(b[i]) == p { assert f(a[i]) == p; }
  }

  lemma MailMembersDistinct()
    ensures Distinct(MAIL_MEMBERS)
  {
  }

  lemma DumpsIff(parts: Parts, names: seq<string>)
    requires Dumps(parts, names).Some?
    ensures Distinct(Dumps(parts, names).value) <==> Distinct(names)
  {
    var resolve := (name: string) =>
      One(if PlainName(name) then Some(PathJoin(parts.databases, name + ".sql")) else None);
    var place := (name: string) => PathJoin(parts.databases, name + ".sql");
    forall i | 0 <= i < |names| ensures resolve(names[i]) == Some([place(names[i])]) && PlainName(names[i]) {
      EachResolves(names, resolve, i);
    }
    OneEach(names, resolve, place);
    forall i, j | 0 <= i < j < |names| ensures place(names[i]) != place(names[j]) <==> names[i] != names[j] {
      FilesApart(parts.databases, names[i] + ".sql", names[j] + ".sql");
      SameEnd(names[i], names[j], ".sql");
    }
  }

  lemma FilesApart(databases: string, a: string, b: string)
    requires databases != "" && '/' !in a && '/' !in b && |a| > 2 && |b| > 2
    ensures PathJoin(databases, a) == PathJoin(databases, b) <==> a == b
  {
    FileSegments(databases, a);
    FileSegments(databases, b);
    if PathJoin(databases, a) == PathJoin(databases, b) {
      assert (Segments(databases) + [a])[|Segments(databases)|] == (Segments(databases) + [b])[|Segments(databases)|];
    }
  }

  lemma UserFilesDistinct(parts: Parts)
    requires parts.databases != ""
    ensures Distinct([PathJoin(parts.databases, "_users.sql"), PathJoin(parts.databases, "_users-runnable.sql"),
                      PathJoin(parts.databases, "_users.sql-auth.json")])
  {
    var a, b, c := "_users.sql", "_users-runnable.sql", "_users.sql-auth.json";
    assert |a| == 10 && |b| == 19 && |c| == 20;
    FilesApart(parts.databases, a, b);
    FilesApart(parts.databases, a, c);
    FilesApart(parts.databases, b, c);
  }

  // ---- Members chosen by domain ----

  /** One member for each domain, named after it. */
  lemma NamedMembers(names: seq<string>, prefix: string, suffix: string, resolve: string -> Option<seq<string>>)
    requires forall n :: resolve(n) == ForDomain(n, [prefix + n + suffix])
    requires Each(names, resolve).Some?
    ensures Distinct(Each(names, resolve).value) <==> Distinct(names)
    ensures forall v | v in Each(names, resolve).value :: |v| >= |prefix| && v[..|prefix|] == prefix
  {
    var place := (n: string) => prefix + n + suffix;
    forall i | 0 <= i < |names| ensures resolve(names[i]) == Some([place(names[i])]) {
      EachResolves(names, resolve, i);
    }
    OneEach(names, resolve, place);
    forall i, j | 0 <= i < j < |names| ensures place(names[i]) != place(names[j]) <==> names[i] != names[j] {
      SameEnd(prefix + names[i], prefix + names[j], suffix);
      SameStart(prefix, names[i], names[j]);
    }
    forall v | v in Each(names, resolve).value ensures |v| >= |prefix| && v[..|prefix|] == prefix {
      EachHas(names, resolve, v);
      var i :| 0 <= i < |names| && v in resolve(names[i]).value;
      assert v == place(names[i]);
    }
  }

  lemma DnsIff(names: seq<string>)
    requires DnsMembers(names).Some?
    ensures Distinct(DnsMembers(names).value) <==> Distinct(names)
  {
    if names != [] {
      NamedMembers(names, "dnszones/", ".db", (name: string) => ForDomain(name, ["dnszones/" + name + ".db"]));
    }
  }

  lemma SslAlwaysApart(v: string)
    requires |v| >= 11 && v[..11] == "apache_tls/"
    ensures v !in SSL_ALWAYS && Distinct(SSL_ALWAYS)
  {
    assert v[1] == v[..11][1] == 'p';
    assert v[2] == v[..11][2] == 'a';
    assert v[0] == v[..11][0] == 'a';
  }

  lemma SslIff(names: seq<string>)
    requires SslMembers(names).Some?
    ensures Distinct(SslMembers(names).value) <==> Distinct(names)
  {
    SslAlwaysApart("apache_tls/");
    if names == [] {
      DistinctConcat(["apache_tls/"], SSL_ALWAYS);
    } else {
      var resolve := (name: string) => ForDomain(name, ["apache_tls/" + name]);
      forall n ensures resolve(n) == ForDomain(n, ["apache_tls/" + n + ""]) {
        assert "apache_tls/" + n + "" == "apache_tls/" + n;
      }
      NamedMembers(names, "apache_tls/", "", resolve);
      var chosen := Each(names, resolve).value;
      DistinctConcat(chosen, SSL_ALWAYS);
      forall v | v in chosen ensures v !in SSL_ALWAYS { SslAlwaysApart(v); }
    }
  }

  /** What the web server and the name server hold of one domain. */
  function DomainBlock(n: string): seq<string> {
    ["userdata/" + n, "userdata/" + n + "_SSL", "userdata/" + n + ".php-fpm.yaml", "dnszones/" + n + ".db"]
  }

  lemma UserdataApart(a: string, b: string)
    ensures "userdata/" + a == "userdata/" + b <==> a == b
    ensures "userdata/" + a + "_SSL" == "userdata/" + b <==> a + "_SSL" == b
    ensures "userdata/" + a + ".php-fpm.yaml" == "userdata/" + b <==> a + ".php-fpm.yaml" == b
    ensures "userdata/" + a != "dnszones/" + b
  {
    SameStart("userdata/", a, b);
    SameStart("userdata/", a + "_SSL", b);
    SameStart("userdata/", a + ".php-fpm.yaml", b);
    assert "userdata/" + a + "_SSL" == "userdata/" + (a + "_SSL");
    assert "userdata/" + a + ".php-fpm.yaml" == "userdata/" + (a + ".php-fpm.yaml");
    assert ("userdata/" + a)[0] == 'u' && ("dnszones/" + b)[0] == 'd';
  }

  /** Two domains share a member exactly when they are one, or one is named like
      a file of the other. */
  lemma BlocksApart(a: string, b: string)
    ensures Disjoint(DomainBlock(a), DomainBlock(b)) <==> a != b && !Shadows(a, b) && !Shadows(b, a)
  {
    UserdataApart(a, b);
    UserdataApart(b, a);
    LongNames(a, b);
    LongNames(b, a);
    ZoneNames(a, b);
    ZoneNames(b, a);
    BlockMembers(a);
    BlockMembers(b);
    assert ("userdata/" + a) in DomainBlock(a) && ("userdata/" + b) in DomainBlock(b);
    assert ("userdata/" + b) in DomainBlock(a) <==> a == b || Shadows(a, b);
    assert ("userdata/" + a) in DomainBlock(b) <==> a == b || Shadows(b, a);
  }

  /** The members that are not a domain's plain name collide only with their
      own kind. */
  lemma LongNames(a: string, b: string)
    ensures "userdata/" + a + "_SSL" == "userdata/" + b + "_SSL" <==> a == b
    ensures "userdata/" + a + ".php-fpm.yaml" == "userdata/" + b + ".php-fpm.yaml" <==> a == b
    ensures "userdata/" + a + "_SSL" != "userdata/" + b + ".php-fpm.yaml"
  {
    SameEnd("userdata/" + a, "userdata/" + b, "_SSL");
    SameEnd("userdata/" + a, "userdata/" + b, ".php-fpm.yaml");
    SameStart("userdata/", a, b);
    assert "_SSL"[3] == 'L' && ".php-fpm.yaml"[12] == 'l';
    EndsApart("userdata/" + a, "userdata/" + b, "_SSL", ".php-fpm.yaml");
  }

  predicate Starts(s: string, c: char) {
    s != "" && s[0] == c
  }

  lemma ZoneNames(a: string, b: string)
    ensures "dnszones/" + a + ".db" == "dnszones/" + b + ".db" <==> a == b
    ensures Starts("dnszones/" + a + ".db", 'd')
    ensures Starts("userdata/" + b, 'u') && Starts("userdata/" + b + "_SSL", 'u')
    ensures Starts("userdata/" + b + ".php-fpm.yaml", 'u')
  {
    SameEnd("dnszones/" + a, "dnszones/" + b, ".db");
    SameStart("dnszones/", a, b);
  }

  lemma BlockMembers(n: string)
    ensures forall v :: v in DomainBlock(n) <==>
              v == "userdata/" + n || v == "userdata/" + n + "_SSL" || v == "userdata/" + n + ".php-fpm.yaml" ||
              v == "dnszones/" + n + ".db"
  {
  }

  lemma BlockDistinct(n: string)
    ensures Distinct(DomainBlock(n))
  {
    LongNames(n, n);
    ZoneNames(n, n);
    assert |"userdata/" + n| < |"userdata/" + n + "_SSL"| < |"userdata/" + n + ".php-fpm.yaml"|;
  }

  /** Of the files every such request carries, only one can be a domain's. */
  lemma BlockAlways(n: string)
    requires UsableDomainName(n)
    ensures Disjoint(DomainBlock(n), DOMAIN_ALWAYS) <==> n != "cache.json"
  {
    BlockMembers(n);
    ZoneNames(n, n);
    AlwaysMember("userdata/" + n);
    AlwaysMember("userdata/" + n + "_SSL");
    AlwaysMember("userdata/" + n + ".php-fpm.yaml");
    AlwaysMember("dnszones/" + n + ".db");
    PlainAlways(n);
    LongAlways(n);
    assert ("userdata/" + n) in DomainBlock(n);
  }

  lemma AlwaysMember(v: string)
    ensures v in DOMAIN_ALWAYS ==> v == "userdata/main" || v == "userdata/cache.json" || !Starts(v, 'u')
    ensures v in DOMAIN_ALWAYS ==> !Starts(v, 'd')
    ensures "userdata/cache.json" in DOMAIN_ALWAYS
  {
    assert DOMAIN_ALWAYS[1] == "userdata/cache.json";
  }

  lemma PlainAlways(n: string)
    requires UsableDomainName(n)
    ensures "userdata/" + n != "userdata/main"
    ensures "userdata/" + n == "userdata/cache.json" <==> n == "cache.json"
  {
    if n == "main" { SplitOne("main", '.'); }
    SameStart("userdata/", n, "main");
    SameStart("userdata/", n, "cache.json");
    assert "userdata/" + "main" == "userdata/main" && "userdata/" + "cache.json" == "userdata/cache.json";
  }

  lemma LongAlways(n: string)
    ensures "userdata/" + n + "_SSL" != "userdata/main" && "userdata/" + n + "_SSL" != "userdata/cache.json"
    ensures "userdata/" + n + ".php-fpm.yaml" != "userdata/main"
    ensures "userdata/" + n + ".php-fpm.yaml" != "userdata/cache.json"
  {
    var s := "userdata/" + n + "_SSL";
    assert s[|s| - 1] == "_SSL"[3] == 'L';
    assert "userdata/main"[12] == 'n' && "userdata/cache.json"[18] == 'n';
    assert |"userdata/" + n + ".php-fpm.yaml"| >= 22;
  }

  lemma DomainAlwaysDistinct()
    ensures Distinct(DOMAIN_ALWAYS) && Distinct(["userdata/", "dnszones/", "ips/", "addons"])
  {
  }

  lemma DomainsIff(names: seq<string>)
    requires DomainMembers(names).Some?
    ensures Distinct(DomainMembers(names).value) <==>
            && Distinct(names) && "cache.json" !in names
            && forall i, j | 0 <= i < |names| && 0 <= j < |names| :: !Shadows(names[i], names[j])
  {
    DomainAlwaysDistinct();
    if names != [] {
      var resolve := (name: string) =>
        ForDomain(
          name,
          ["userdata/" + name, "userdata/" + name + "_SSL", "userdata/" + name + ".php-fpm.yaml",
           "dnszones/" + name + ".db"]);
      forall i | 0 <= i < |names| ensures resolve(names[i]) == Some(DomainBlock(names[i])) && UsableDomainName(names[i]) {
        EachResolves(names, resolve, i);
      }
      forall i | 0 <= i < |names| ensures Distinct(DomainBlock(names[i])) { BlockDistinct(names[i]); }
      EachDistinct(names, resolve);
      DistinctConcat(Each(names, resolve).value, DOMAIN_ALWAYS);
      BlocksIff(names, resolve);
      AlwaysIff(names, resolve);
    }
  }

  ghost predicate AreBlocks(names: seq<string>, resolve: string -> Option<seq<string>>) {
    forall i | 0 <= i < |names| :: resolve(names[i]) == Some(DomainBlock(names[i])) && UsableDomainName(names[i])
  }

  lemma BlocksIff(names: seq<string>, resolve: string -> Option<seq<string>>)
    requires Resolves(names, resolve) && AreBlocks(names, resolve)
    ensures Apart(names, resolve) <==>
            Distinct(names) && forall i, j | 0 <= i < |names| && 0 <= j < |names| :: !Shadows(names[i], names[j])
  {
    forall i, j | 0 <= i < j < |names|
      ensures Disjoint(resolve(names[i]).value, resolve(names[j]).value) <==>
              names[i] != names[j] && !Shadows(names[i], names[j]) && !Shadows(names[j], names[i])
    {
      BlocksApart(names[i], names[j]);
    }
    forall i | 0 <= i < |names| ensures !Shadows(names[i], names[i]) {
      assert |names[i] + "_SSL"| > |names[i]| && |names[i] + ".php-fpm.yaml"| > |names[i]|;
    }
  }

  lemma AlwaysIff(names: seq<string>, resolve: string -> Option<seq<string>>)
    requires Resolves(names, resolve) && AreBlocks(names, resolve) && Each(names, resolve).Some?
    ensures Disjoint(Each(names, resolve).value, DOMAIN_ALWAYS) <==> "cache.json" !in names
  {
    forall i | 0 <= i < |names| ensures Disjoint(DomainBlock(names[i]), DOMAIN_ALWAYS) <==> names[i] != "cache.json" {
      BlockAlways(names[i]);
    }
    if "cache.json" in names {
      var i :| 0 <= i < |names| && names[i] == "cache.json";
      var v :| v in DomainBlock(names[i]) && v in DOMAIN_ALWAYS;
      EachHas(names, resolve, v);
    } else {
      forall v | v in Each(names, resolve).value ensures v !in DOMAIN_ALWAYS {
        EachHas(names, resolve, v);
        var i :| 0 <= i < |names| && v in resolve(names[i]).value;
        assert Disjoint(DomainBlock(names[i]), DOMAIN_ALWAYS);
      }
    }
  }

  // ---- All of them ----

  lemma FixedMembersDistinct()
    ensures Distinct(SETTINGS_MEMBERS) && Distinct(CRON_MEMBERS) && Distinct(FTP_MEMBERS)
  {
  }

  /** One request, kind by kind. */
  lemma OneRequestIff(parts: Parts, ask: Ask)
    requires Build(parts, ask).Some?
    ensures RepeatFree(Build(parts, ask).value) <==> NamesApart(parts, ask)
  {
    match ask.kind
    case Files => HomesIff(parts, ask.names);
    case Mailbox => MailsIff(parts, ask.names);
    case Database => DumpsIff(parts, ask.names);
    case DatabaseUsers => UserFilesDistinct(parts);
    case Dns => DnsIff(ask.names);
    case Ssl => SslIff(ask.names);
    case Domains => DomainsIff(ask.names);
    case Website => HomesIff(parts, ["public_html"]);
    case _ => FixedMembersDistinct();
  }

  /** What BuildAll returns names nothing twice exactly when it merged several
      requests, or the one there was has its names apart. */
  lemma RepeatFreeIff(parts: Parts, asks: seq<Ask>)
    requires Built(parts, asks).Some?
    ensures RepeatFree(Built(parts, asks).value) <==> |asks| > 1 || NamesApart(parts, asks[0])
  {
    if |asks| == 1 {
      OneRequestIff(parts, asks[0]);
    } else {
      GatheredIsUnion(asks, Building(parts), "");
    }
  }

  // ---- Requests that do ----

  /** A file named twice is listed twice. */
  lemma OneRequestRepeats(parts: Parts, account: string, name: string)
    requires account != "" && UnderHome(parts.homedir, name).Some? && parts.homedir != ""
    ensures var full := UnderHome(parts.homedir, name).value;
            Build(parts, Ask(Files, account, [name, name])) == Some(Needs([full, full], [], ""))
  {
    EachTwice(name, (n: string) => One(UnderHome(parts.homedir, n)), UnderHome(parts.homedir, name).value);
  }

  lemma EachTwice(name: string, resolve: string -> Option<seq<string>>, full: string)
    requires resolve(name) == Some([full])
    ensures Each([name, name], resolve) == Some([full, full])
  {
    var none: seq<string> := [];
    assert [name][..0] == none && [name, name][..1] == [name];
    assert none + [full] == [full];
    assert Each([name], resolve) == Some(none + [full]);
    assert [full] + [full] == [full, full];
  }

  /** A domain called cache.json is asked for once, and the file of the account
      that has that name is asked for twice. */
  lemma CacheDomainRepeats(parts: Parts, account: string)
    requires account != "" && parts.metadata != ""
    ensures var ask := Ask(Domains, account, ["cache.json"]);
            Build(parts, ask).Some? && !RepeatFree(Build(parts, ask).value)
  {
    var names := ["cache.json"];
    CacheIsUsable();
    OneDomain("cache.json");
    CacheTwice(names);
    DomainsBuilt(parts, account, names);
  }

  lemma DomainsBuilt(parts: Parts, account: string, names: seq<string>)
    requires account != "" && parts.metadata != "" && names != [] && DomainMembers(names).Some?
    ensures Build(parts, Ask(Domains, account, names)) ==
            Some(Needs([parts.metadata], DomainMembers(names).value, parts.metadata))
  {
  }

  lemma CacheTwice(names: seq<string>)
    requires DomainMembers(names).Some? && |names| == 1 && names[0] == "cache.json"
    ensures !Distinct(DomainMembers(names).value)
  {
    DomainsIff(names);
    assert names[0] in names;
  }

  lemma OneDomain(name: string)
    requires UsableDomainName(name)
    ensures DomainMembers([name]).Some?
  {
    var names := [name];
    var resolve := (name: string) =>
      ForDomain(
        name,
        ["userdata/" + name, "userdata/" + name + "_SSL", "userdata/" + name + ".php-fpm.yaml",
         "dnszones/" + name + ".db"]);
    assert names[..0] == [] && Each(names[..0], resolve) == Some([]);
    assert resolve(names[0]).Some? && Each(names, resolve).Some?;
  }

  lemma CacheIsUsable()
    ensures UsableDomainName("cache.json")
  {
    assert "cache" + ['.'] + "json" == "cache.json";
    SplitPiece("cache", '.', "json");
    SplitOne("json", '.');
    CacheLabels();
    TwoLabels("cache.json", "cache", "json");
  }

  lemma TwoLabels(domain: string, a: string, b: string)
    requires SplitOn(domain, '.') == [a] + [b] && UsableLabel(a) && UsableLabel(b) && 0 < |domain| <= 253
    ensures UsableDomainName(domain)
  {
  }

  lemma CacheLabels()
    ensures UsableLabel("cache") && UsableLabel("json")
  {
    var a, b := "cache", "json";
    assert a[0] == 'c' && a[1] == 'a' && a[2] == 'c' && a[3] == 'h' && a[4] == 'e' && |a| == 5;
    assert b[0] == 'j' && b[1] == 's' && b[2] == 'o' && b[3] == 'n' && |b| == 4;
  }
}
