/** What each kind of granular request comes to, name by name: which names it
    accepts, and exactly which paths and archive members it asks for
    (internal/granular/granular.go:122-273, 345-596). Everything is spelled out
    here in characters and member names. */
module Kinds {
  import opened NodeStore
  import opened Text
  import opened Paths
  import opened Layout
  import opened Merging
  import opened Granular
  import opened Repeats
  import opened GrantPatterns

  // ---- Which names are accepted ----

  /** A letter, a digit or an underscore, in ASCII. */
  predicate WordCode(c: char) {
    var n := c as int;
    97 <= n <= 122 || 65 <= n <= 90 || 48 <= n <= 57 || n == 95
  }

  /** A database is named by anything that cannot be read as a path. */
  lemma PlainNameIff(name: string)
    ensures PlainName(name) <==>
            && |name| > 0 && (forall c | c in name :: c as int != 47 && c as int != 92)
            && forall before: string, after: string :: name != before + ".." + after
  {
    if i :| 0 <= i < |name| - 1 && name[i] == '.' && name[i + 1] == '.' {
      assert name == name[..i] + ".." + name[i + 2..];
    }
    forall before: string, after: string | name == before + ".." + after
      ensures Contains(name, '.', '.')
    {
      assert name[|before|] == '.' && name[|before| + 1] == '.';
    }
    assert forall i | 0 <= i < |name| :: name[i] in name;
  }

  /** At most 32 word characters and dollar signs. */
  lemma UserNameIff(user: string)
    ensures UsableUserName(user) <==> 1 <= |user| <= 32 && forall c | c in user :: WordCode(c) || c as int == 36
  {
    assert forall i | 0 <= i < |user| :: user[i] in user;
  }

  /** A database that is to be created, at most 64 of those. */
  lemma DatabaseNameIff(database: string)
    ensures UsableDatabaseName(database) <==> 1 <= |database| <= 64 && forall c | c in database :: WordCode(c) || c as int == 36
  {
    assert forall i | 0 <= i < |database| :: database[i] in database;
  }

  /** At most 63 word characters and hyphens, no hyphen at either end. */
  predicate Label(s: string) {
    && 1 <= |s| <= 63 && (forall c | c in s :: WordCode(c) || c as int == 45)
    && s[0] as int != 45 && s[|s| - 1] as int != 45
  }

  lemma LabelIff(s: string)
    ensures UsableLabel(s) <==> Label(s)
  {
    assert forall i | 0 <= i < |s| :: s[i] in s;
  }

  /** A domain is labels with dots between, two at least and 253 characters in
      all: taken apart at its first dot. */
  lemma DomainByLabels(a: string, b: string)
    requires '.' !in a
    ensures !UsableDomainName(a)
    ensures UsableDomainName(a + "." + b) <==>
            Label(a) && |a| + 1 + |b| <= 253 && if '.' in b then UsableDomainName(b) else Label(b)
  {
    var domain := a + "." + b;
    SplitPiece(a, '.', b);
    assert domain == a + ['.'] + b;
    LabelIff(a);
    AllLabelsFirst(a, SplitOn(b, '.'));
    assert UsableDomainName(domain) <==> |domain| <= 253 && AllLabels([a] + SplitOn(b, '.'));
    if '.' in b {
      DotSplits(b);
      assert b != "";
    } else {
      SplitOne(b, '.');
      LabelIff(b);
      assert AllLabels([b]) <==> UsableLabel([b][0]);
    }
  }

  predicate AllLabels(labels: seq<string>) {
    forall i | 0 <= i < |labels| :: UsableLabel(labels[i])
  }

  lemma AllLabelsFirst(a: string, rest: seq<string>)
    ensures AllLabels([a] + rest) <==> UsableLabel(a) && AllLabels(rest)
  {
    var labels := [a] + rest;
    assert labels[0] == a && forall i | 0 <= i < |rest| :: labels[i + 1] == rest[i];
  }

  lemma {:induction false} DotSplits(s: string)
    requires '.' in s
    ensures |SplitOn(s, '.')| >= 2
  {
    if s[0] != '.' { DotSplits(s[1..]); }
  }

  // ---- What is asked for ----

  /** Of the metadata archive, these members; nothing without it. */
  function Metadata(parts: Parts, account: string, members: seq<string>): Option<Needs> {
    if account == "" || parts.metadata == "" then None else Some(Needs([parts.metadata], members, parts.metadata))
  }

  /** The kinds that take no names. */
  lemma FixedKinds(parts: Parts, account: string, names: seq<string>)
    ensures Build(parts, Ask(Settings, account, names)) ==
            Metadata(parts, account, ["cp/", "meta/", "quota", "shell", "shadow", "digestshadow", "userconfig/",
                                      "version", "packaged_in_version"])
    ensures Build(parts, Ask(Cron, account, names)) == Metadata(parts, account, ["cron/"])
    ensures Build(parts, Ask(Ftp, account, names)) == Metadata(parts, account, ["proftpdpasswd"])
    ensures Build(parts, Ask(Server, account, names)) ==
            if account == "" || parts.system == "" then None else Some(Needs([parts.system], [], ""))
    ensures Build(parts, Ask(Unknown, account, names)) == None
  {
  }

  /** The website is public_html, wherever in the home directory that leads. */
  lemma WebsiteKind(parts: Parts, account: string, names: seq<string>)
    ensures Build(parts, Ask(Website, account, names)) ==
            if account == "" || parts.homedir == "" || UnderHome(parts.homedir, "public_html").None? then None
            else Some(Needs([UnderHome(parts.homedir, "public_html").value], [], ""))
  {
    OneHome(parts, ["public_html"], "public_html");
  }

  lemma OneHome(parts: Parts, names: seq<string>, name: string)
    requires names == [name]
    ensures HomePaths(parts, names) == if parts.homedir == "" then None else One(UnderHome(parts.homedir, name))
  {
    EachSingle(names, (n: string) => One(UnderHome(parts.homedir, n)), name);
  }

  lemma EachSingle(names: seq<string>, resolve: string -> Option<seq<string>>, name: string)
    requires names == [name]
    ensures Each(names, resolve) == resolve(name)
  {
    var none: seq<string> := [];
    assert names[..0] == [] && Each(names[..0], resolve) == Some(none);
    if resolve(name).Some? { assert none + resolve(name).value == resolve(name).value; }
  }

  /** Without a name there is nothing to ask for of these, and without an
      account nothing at all. */
  lemma NamesAreNeeded(parts: Parts, kind: Kind, account: string)
    ensures account == "" ==> forall names :: Build(parts, Ask(kind, account, names)) == None
    ensures kind.Files? || kind.Mailbox? || kind.Database? ==> Build(parts, Ask(kind, account, [])) == None
  {
  }

  /** The users of all databases come as the three files they were staged in,
      right beneath the databases. */
  lemma UsersKind(parts: Parts, account: string, names: seq<string>)
    ensures Build(parts, Ask(DatabaseUsers, account, names)) ==
            if account == "" || parts.databases == "" || exists i :: 0 <= i < |names| && !UsableUserName(names[i]) then None
            else Some(Needs([PathJoin(parts.databases, "_users.sql"), PathJoin(parts.databases, "_users-runnable.sql"),
                             PathJoin(parts.databases, "_users.sql-auth.json")], [], ""))
  {
  }

  /** Mailboxes come in order from the mail directory, and with the metadata at
      hand the mail settings come too. */
  lemma MailKind(parts: Parts, account: string, names: seq<string>, i: nat)
    requires account != "" && i < |names|
    ensures Build(parts, Ask(Mailbox, account, names)).Some? <==>
            parts.homedir != "" &&
            forall k | 0 <= k < |names| :: UnderHome(parts.homedir, PathJoin("mail", names[k])).Some?
    ensures Build(parts, Ask(Mailbox, account, names)).Some? ==>
              var needs := Build(parts, Ask(Mailbox, account, names)).value;
              && |needs.paths| == |names| + (if parts.metadata == "" then 0 else 1)
              && Some(needs.paths[i]) == UnderHome(parts.homedir, PathJoin("mail", names[i]))
              && (parts.metadata != "" ==> needs.paths[|names|] == parts.metadata)
              && needs.members == (if parts.metadata == "" then [] else ["va/", "vad/", "vf/", "meta/mailserver"])
              && needs.metadata == parts.metadata
  {
    var mails := Mails(names);
    assert forall k | 0 <= k < |names| :: mails[k] == PathJoin("mail", names[k]);
    HomesEach(parts, mails, i);
  }

  lemma HomesEach(parts: Parts, names: seq<string>, i: nat)
    requires i < |names|
    ensures HomePaths(parts, names).Some? <==>
            parts.homedir != "" && forall k | 0 <= k < |names| :: UnderHome(parts.homedir, names[k]).Some?
    ensures HomePaths(parts, names).Some? ==>
              var paths := HomePaths(parts, names).value;
              |paths| == |names| && Some(paths[i]) == UnderHome(parts.homedir, names[i])
  {
    var resolve := (name: string) => One(UnderHome(parts.homedir, name));
    EachOne(names, resolve, i);
    assert forall k | 0 <= k < |names| :: resolve(names[k]).Some? == UnderHome(parts.homedir, names[k]).Some?;
  }

  predicate AllDomains(names: seq<string>) {
    forall k | 0 <= k < |names| :: UsableDomainName(names[k])
  }

  lemma DomainsEach(names: seq<string>, prefix: string, suffix: string, resolve: string -> Option<seq<string>>, i: nat)
    requires forall n :: resolve(n) == ForDomain(n, [prefix + n + suffix])
    ensures Each(names, resolve).Some? <==> AllDomains(names)
    ensures AllDomains(names) ==> |Each(names, resolve).value| == |names|
    ensures AllDomains(names) && i < |names| ==> Each(names, resolve).value[i] == prefix + names[i] + suffix
  {
    EachOne(names, resolve, i);
    assert forall k | 0 <= k < |names| :: resolve(names[k]).Some? == UsableDomainName(names[k]);
  }

  /** The zones of the domains named, in order, or all of them. */
  lemma DnsKind(parts: Parts, account: string, names: seq<string>, i: nat)
    ensures Build(parts, Ask(Dns, account, [])) == Metadata(parts, account, ["dnszones/"])
    ensures names != [] ==>
              (Build(parts, Ask(Dns, account, names)).Some? <==> account != "" && parts.metadata != "" && AllDomains(names))
    ensures Build(parts, Ask(Dns, account, names)).Some? && i < |names| ==>
              var needs := Build(parts, Ask(Dns, account, names)).value;
              && needs.paths == [parts.metadata] && needs.metadata == parts.metadata
              && |needs.members| == |names| && needs.members[i] == "dnszones/" + names[i] + ".db"
  {
    DomainsEach(names, "dnszones/", ".db", (name: string) => ForDomain(name, ["dnszones/" + name + ".db"]), i);
  }

  /** The certificates of the domains named, in order, or all of them, and what
      older panels kept them in. */
  lemma SslKind(parts: Parts, account: string, names: seq<string>, i: nat)
    ensures Build(parts, Ask(Ssl, account, [])) ==
            Metadata(parts, account,
                     ["apache_tls/", "ssl/", "sslcerts/", "sslkeys/", "has_sslstorage", "autossl.json"])
    ensures names != [] ==>
              (Build(parts, Ask(Ssl, account, names)).Some? <==> account != "" && parts.metadata != "" && AllDomains(names))
    ensures Build(parts, Ask(Ssl, account, names)).Some? && i < |names| ==>
              var needs := Build(parts, Ask(Ssl, account, names)).value;
              && needs.paths == [parts.metadata] && needs.metadata == parts.metadata
              && |needs.members| == |names| + 5 && needs.members[i] == "apache_tls/" + names[i]
              && needs.members[|names|..] == ["ssl/", "sslcerts/", "sslkeys/", "has_sslstorage", "autossl.json"]
  {
    assert ["apache_tls/"] + SSL_ALWAYS ==
           ["apache_tls/", "ssl/", "sslcerts/", "sslkeys/", "has_sslstorage", "autossl.json"];
    var resolve := (name: string) => ForDomain(name, ["apache_tls/" + name]);
    forall n ensures resolve(n) == ForDomain(n, ["apache_tls/" + n + ""]) {
      assert "apache_tls/" + n + "" == "apache_tls/" + n;
    }
    DomainsEach(names, "apache_tls/", "", resolve, i);
    if i < |names| { assert "apache_tls/" + names[i] + "" == "apache_tls/" + names[i]; }
  }

  /** What the web server and the name server hold of one domain. */
  predicate OfDomain(member: string, n: string) {
    || member == "userdata/" + n || member == "userdata/" + n + "_SSL" || member == "userdata/" + n + ".php-fpm.yaml"
    || member == "dnszones/" + n + ".db"
  }

  /** What the domains named need, and what tells them apart; or all of it. */
  lemma DomainsKind(parts: Parts, account: string, names: seq<string>, member: string)
    ensures Build(parts, Ask(Domains, account, [])) ==
            Metadata(parts, account, ["userdata/", "dnszones/", "ips/", "addons"])
    ensures names != [] ==>
              (Build(parts, Ask(Domains, account, names)).Some? <==>
                 account != "" && parts.metadata != "" && AllDomains(names))
    ensures Build(parts, Ask(Domains, account, names)).Some? && names != [] ==>
              var needs := Build(parts, Ask(Domains, account, names)).value;
              && needs.paths == [parts.metadata] && needs.metadata == parts.metadata
              && (member in needs.members <==>
                    || (exists i :: 0 <= i < |names| && OfDomain(member, names[i]))
                    || member in ["userdata/main", "userdata/cache.json", "ips/", "addons"])
  {
    if names != [] {
      var resolve := (name: string) =>
        ForDomain(
          name,
          ["userdata/" + name, "userdata/" + name + "_SSL", "userdata/" + name + ".php-fpm.yaml",
           "dnszones/" + name + ".db"]);
      EachGranted(names, resolve);
      assert forall k | 0 <= k < |names| :: resolve(names[k]).Some? == UsableDomainName(names[k]);
      if AllDomains(names) {
        forall i | 0 <= i < |names| ensures resolve(names[i]) == Some(DomainBlock(names[i])) && Distinct(DomainBlock(names[i])) {
          BlockDistinct(names[i]);
        }
        EachHas(names, resolve, member);
        forall i | 0 <= i < |names| ensures member in resolve(names[i]).value <==> OfDomain(member, names[i]) {
          BlockMembers(names[i]);
        }
      }
    }
  }

  lemma {:induction false} EachGranted(names: seq<string>, resolve: string -> Option<seq<string>>)
    ensures Each(names, resolve).Some? <==> forall k | 0 <= k < |names| :: resolve(names[k]).Some?
  {
    if names != [] {
      var n := |names| - 1;
      EachGranted(names[..n], resolve);
      assert forall k | 0 <= k < n :: names[..n][k] == names[k];
    }
  }
}
