/** What a payload's paths are called and how their roles are told apart again
    (internal/pkgacct/pkgacct.go:196-276, internal/reassemble/reassemble.go:165-243). */
module Layout {
  import opened NodeStore
  import opened Text
  import opened Paths

  datatype Mode = Split | Monolithic

  datatype Request = Request(
    account: string, homedir: string, databases: bool, staging: string, mode: Mode,
    compressed: bool, skipHomedir: bool, skipDatabases: bool)

  datatype Payload = Payload(mode: Mode, paths: seq<string>)

  /** filepath.Join of two names that are not empty. */
  function PathJoin(a: string, b: string): string {
    Clean(a + ['/'] + b)
  }

  /** Plan. `databases` says whether the account has any, and `compressed` that
      pkgacct cannot be told not to compress. */
  function Plan(r: Request): Option<Payload> {
    if r.account == "" || r.staging == "" then None
    else if r.mode.Split? then
      if r.homedir == "" then None
      else
        Some(Payload(
          Split,
          [PathJoin(r.staging, "metadata")]
          + (if r.skipHomedir then [] else [r.homedir])
          + (if r.databases && !r.skipDatabases then [PathJoin(r.staging, "databases")] else [])))
    else
      Some(Payload(
        Monolithic,
        [PathJoin(r.staging, "cpmove-" + r.account + ".tar") + if r.compressed then ".gz" else ""]))
  }

  // ---- Roles ----

  datatype Parts = Parts(metadata: string, homedir: string, databases: string, archive: string, system: string)

  const NO_PARTS := Parts("", "", "", "", "")

  datatype Role = Metadata | Databases | System | Archive | Homedir

  function RoleOf(path: string): Role {
    if HasSuffix(path, "/metadata") then Metadata
    else if HasSuffix(path, "/databases") then Databases
    else if HasSuffix(path, "/system") then System
    else if HasSuffix(path, ".tar") || HasSuffix(path, ".tar.gz") then Archive
    else Homedir
  }

  function Field(parts: Parts, role: Role): string {
    match role
    case Metadata => parts.metadata
    case Databases => parts.databases
    case System => parts.system
    case Archive => parts.archive
    case Homedir => parts.homedir
  }

  function Placed(parts: Parts, path: string): Parts {
    match RoleOf(path)
    case Metadata => parts.(metadata := path)
    case Databases => parts.(databases := path)
    case System => parts.(system := path)
    case Archive => parts.(archive := path)
    case Homedir => parts.(homedir := path)
  }

  /** The last path of each role, unless there are two home directories. */
  function Collected(paths: seq<string>): Option<Parts> {
    if paths == [] then Some(NO_PARTS)
    else
      match Collected(paths[..|paths| - 1])
      case None => None
      case Some(parts) =>
        var path := paths[|paths| - 1];
        if RoleOf(path).Homedir? && parts.homedir != "" then None else Some(Placed(parts, path))
  }

  predicate Consistent(parts: Parts) {
    if parts.system != "" then parts.metadata == "" && parts.homedir == "" && parts.archive == ""
    else if parts.archive != "" then parts.metadata == "" && parts.homedir == ""
    else parts.metadata != "" && parts.homedir != ""
  }

  function Classified(paths: seq<string>): Option<Parts> {
    match Collected(paths)
    case None => None
    case Some(parts) => if Consistent(parts) then Some(parts) else None
  }

  function ModeOf(parts: Parts): Mode {
    if parts.archive != "" then Monolithic else Split
  }

  /** classifyPaths. */
  method ClassifyPaths(paths: seq<string>) returns (found: Option<Parts>)
    ensures found == Classified(paths)
  {
    var parts := NO_PARTS;
    for i := 0 to |paths|
      invariant Collected(paths[..i]) == Some(parts)
    {
      assert paths[..i + 1][..i] == paths[..i];
      var path := paths[i];
      if HasSuffix(path, "/metadata") {
        parts := parts.(metadata := path);
      } else if HasSuffix(path, "/databases") {
        parts := parts.(databases := path);
      } else if HasSuffix(path, "/system") {
        parts := parts.(system := path);
      } else if HasSuffix(path, ".tar") || HasSuffix(path, ".tar.gz") {
        parts := parts.(archive := path);
      } else {
        if parts.homedir != "" {
          TwoHomes(paths, i + 1);
          return None;
        }
        parts := parts.(homedir := path);
      }
    }
    assert paths[..|paths|] == paths;
    return if Consistent(parts) then Some(parts) else None;
  }

  lemma {:induction false} TwoHomes(paths: seq<string>, n: nat)
    requires n <= |paths| && Collected(paths[..n]).None?
    ensures Collected(paths).None?
  {
    if n == |paths| {
      assert paths[..n] == paths;
    } else {
      assert paths[..|paths| - 1][..n] == paths[..n];
      TwoHomes(paths[..|paths| - 1], n);
    }
  }

  // ---- The same, by how the paths end ----

  /** Which role a path has, in the order the endings are tried. */
  lemma RoleEndings(path: string)
    ensures RoleOf(path) == Metadata <==> HasSuffix(path, "/metadata")
    ensures RoleOf(path) == Databases <==> HasSuffix(path, "/databases")
    ensures RoleOf(path) == System <==> HasSuffix(path, "/system")
    ensures RoleOf(path) == Archive <==> HasSuffix(path, ".tar") || HasSuffix(path, ".tar.gz")
  {
    if path != "" {
      var last := path[|path| - 1];
      assert HasSuffix(path, "/metadata") ==> path[|path| - 9..][8] == last && path[|path| - 9..][7] == path[|path| - 2];
      assert HasSuffix(path, "/databases") ==> path[|path| - 10..][9] == last;
      assert HasSuffix(path, "/system") ==> path[|path| - 7..][6] == last;
      assert HasSuffix(path, ".tar") ==> path[|path| - 4..][3] == last;
      assert HasSuffix(path, ".tar.gz") ==> path[|path| - 7..][6] == last;
    }
  }

  ghost predicate Has(paths: seq<string>, role: Role) {
    exists p | p in paths :: RoleOf(p) == role
  }

  /** One payload: the server's settings with no part of an account, an archive
      with no parts beside it, or the metadata with a home directory; never two
      home directories. */
  lemma ClassifiedIff(paths: seq<string>)
    requires "" !in paths
    ensures Classified(paths).Some? <==>
            && Homes(paths) <= 1
            && (if Has(paths, System) then !Has(paths, Metadata) && !Has(paths, Homedir) && !Has(paths, Archive)
                else if Has(paths, Archive) then !Has(paths, Metadata) && !Has(paths, Homedir)
                else Has(paths, Metadata) && Has(paths, Homedir))
  {
    CollectedIff(paths);
    if Collected(paths).Some? {
      HasIff(paths, System);
      HasIff(paths, Metadata);
      HasIff(paths, Homedir);
      HasIff(paths, Archive);
    }
  }

  lemma HasIff(paths: seq<string>, role: Role)
    requires "" !in paths && Collected(paths).Some?
    ensures Has(paths, role) <==> |Field(Collected(paths).value, role)| > 0
  {
    CollectedHas(paths, role);
  }

  /** What a payload is planned as, or refused. */
  lemma PlanIs(r: Request)
    ensures Plan(r).None? <==> |r.account| == 0 || |r.staging| == 0 || (r.mode == Split && |r.homedir| == 0)
    ensures Plan(r).Some? ==> Plan(r).value.mode == r.mode
    ensures Plan(r).Some? && r.mode == Monolithic ==>
              Plan(r).value.paths ==
              [Clean(r.staging + "/" + ("cpmove-" + r.account + ".tar")) + if r.compressed then ".gz" else ""]
    ensures Plan(r).Some? && r.mode == Split ==>
              forall p :: p in Plan(r).value.paths <==>
                || p == Clean(r.staging + "/" + "metadata")
                || (!r.skipHomedir && p == r.homedir)
                || (r.databases && !r.skipDatabases && p == Clean(r.staging + "/" + "databases"))
  {
  }

  // ---- Order does not matter ----

  function Count<A>(s: seq<A>, f: A -> bool): nat {
    if s == [] then 0 else Count(s[..|s| - 1], f) + if f(s[|s| - 1]) then 1 else 0
  }

  function Homes(paths: seq<string>): nat {
    Count(paths, IsHome)
  }

  predicate IsHome(path: string) {
    RoleOf(path).Homedir?
  }

  /** Each role is filled exactly when some path has it, by such a path. */
  lemma {:induction false} CollectedHas(paths: seq<string>, role: Role)
    requires "" !in paths && Collected(paths).Some?
    ensures var field := Field(Collected(paths).value, role);
            && (field != "" ==> field in paths && RoleOf(field) == role)
            && (field == "" ==> forall p | p in paths :: RoleOf(p) != role)
  {
    if paths != [] {
      var rest, last := paths[..|paths| - 1], paths[|paths| - 1];
      CollectedHas(rest, role);
      PlacedField(Collected(rest).value, last, role);
      assert paths == rest + [last];
    }
  }

  lemma PlacedField(parts: Parts, path: string, role: Role)
    ensures Field(Placed(parts, path), role) == if RoleOf(path) == role then path else Field(parts, role)
  {
  }

  lemma {:induction false} CollectedIff(paths: seq<string>)
    requires "" !in paths
    ensures Collected(paths).Some? <==> Homes(paths) <= 1
    ensures Collected(paths).Some? ==> (Homes(paths) == 0 <==> Collected(paths).value.homedir == "")
  {
    if paths != [] {
      assert paths == paths[..|paths| - 1] + [paths[|paths| - 1]];
      CollectedIff(paths[..|paths| - 1]);
    }
  }

  lemma {:induction false} CountSplit<A>(a: seq<A>, b: seq<A>, f: A -> bool)
    ensures Count(a + b, f) == Count(a, f) + Count(b, f)
  {
    if b == [] {
      assert a + b == a;
    } else {
      assert (a + b)[..|a + b| - 1] == a + b[..|b| - 1];
      CountSplit(a, b[..|b| - 1], f);
    }
  }

  lemma CountAround<A>(a: seq<A>, x: A, b: seq<A>, f: A -> bool)
    ensures Count(a + [x] + b, f) == Count(a + b, f) + if f(x) then 1 else 0
  {
    CountSplit(a + [x], b, f);
    CountSplit(a, b, f);
    assert (a + [x])[..|a|] == a;
  }

  lemma WithoutOne<A>(s: seq<A>, j: nat)
    requires j < |s|
    ensures s == s[..j] + [s[j]] + s[j + 1..]
    ensures multiset(s[..j] + s[j + 1..]) == multiset(s) - multiset{s[j]}
  {
    assert s == s[..j] + [s[j]] + s[j + 1..];
  }

  lemma CountWithoutOne<A>(s: seq<A>, j: nat, f: A -> bool)
    requires j < |s|
    ensures Count(s, f) == Count(s[..j] + s[j + 1..], f) + if f(s[j]) then 1 else 0
  {
    CountAround(s[..j], s[j], s[j + 1..], f);
    WithoutOne(s, j);
  }

  lemma {:induction false} CountPermuted<A>(a: seq<A>, b: seq<A>, f: A -> bool)
    requires multiset(a) == multiset(b)
    ensures Count(a, f) == Count(b, f)
    decreases |a|
  {
    if a == [] {
      assert |multiset(b)| == |multiset(a)| == 0;
    } else {
      assert a[0] in multiset(b);
      var j :| 0 <= j < |b| && b[j] == a[0];
      CountWithoutOne(a, 0, f);
      WithoutOne(a, 0);
      CountWithoutOne(b, j, f);
      WithoutOne(b, j);
      CountPermuted(a[..0] + a[1..], b[..j] + b[j + 1..], f);
    }
  }

  ghost predicate OneOfEach(paths: seq<string>) {
    forall p, q | p in paths && q in paths && RoleOf(p) == RoleOf(q) :: p == q
  }

  lemma SameField(a: seq<string>, b: seq<string>, role: Role)
    requires multiset(a) == multiset(b) && "" !in a && OneOfEach(a)
    requires Collected(a).Some? && Collected(b).Some?
    ensures Field(Collected(a).value, role) == Field(Collected(b).value, role)
  {
    SameMembers(a, b);
    CollectedHas(a, role);
    CollectedHas(b, role);
  }

  lemma SameMembers(a: seq<string>, b: seq<string>)
    requires multiset(a) == multiset(b)
    ensures forall p :: p in a <==> p in b
  {
    forall p ensures p in a <==> p in b {
      assert p in a <==> p in multiset(a);
      assert p in b <==> p in multiset(b);
    }
  }

  /** However a snapshot orders its paths, the roles come out the same. */
  lemma OrderIsImmaterial(a: seq<string>, b: seq<string>)
    requires multiset(a) == multiset(b) && "" !in a && OneOfEach(a)
    ensures Classified(a) == Classified(b)
  {
    SameMembers(a, b);
    CollectedIff(a);
    CollectedIff(b);
    CountPermuted(a, b, IsHome);
    if Collected(a).Some? {
      var pa, pb := Collected(a).value, Collected(b).value;
      SameField(a, b, Metadata);
      SameField(a, b, Databases);
      SameField(a, b, System);
      SameField(a, b, Archive);
      SameField(a, b, Homedir);
      assert Field(pa, Metadata) == pa.metadata && Field(pb, Metadata) == pb.metadata;
      assert pa == pb;
    }
  }

  // ---- The names of the parts ----

  lemma {:induction false} LastPiece(a: string, tail: string)
    requires '/' !in tail
    ensures var pieces := SplitOn(a + tail, '/'); HasSuffix(pieces[|pieces| - 1], tail)
  {
    if a == "" {
      assert a + tail == tail;
      SplitOne(tail, '/');
    } else {
      assert (a + tail)[1..] == a[1..] + tail;
      LastPiece(a[1..], tail);
    }
  }

  lemma {:induction false} JoinLast(segments: Path)
    requires segments != []
    ensures HasSuffix(['/'] + Join(segments), ['/'] + segments[|segments| - 1])
  {
    if |segments| > 1 {
      var rest, suffix := ['/'] + Join(segments[1..]), ['/'] + segments[|segments| - 1];
      JoinLast(segments[1..]);
      SuffixOfLonger(rest, suffix, ['/'] + segments[0]);
      Regroup(segments[0], Join(segments[1..]));
    }
  }

  lemma Regroup(a: string, b: string)
    ensures ['/'] + (a + ['/'] + b) == (['/'] + a) + (['/'] + b)
  {
  }

  lemma SuffixOfLonger(s: string, suffix: string, before: string)
    requires HasSuffix(s, suffix)
    ensures HasSuffix(before + s, suffix)
  {
    assert (before + s)[|before + s| - |suffix|..] == s[|s| - |suffix|..];
  }

  /** A last piece that is a name stays the last segment. */
  lemma CleanEndsIn(s: string, last: string)
    requires Rooted(s) && SplitOn(s, '/')[|SplitOn(s, '/')| - 1] == last && |last| > 2
    ensures HasSuffix(Clean(s), ['/'] + last)
  {
    var pieces := SplitOn(s, '/');
    var before := Fold(true, [], pieces[..|pieces| - 1]);
    assert Segments(s) == before + [last];
    JoinLast(before + [last]);
  }

  lemma JoinEndsIn(staging: string, name: string, tail: string)
    requires Rooted(staging) && HasSuffix(name, tail) && |tail| > 2 && '/' !in tail
    ensures HasSuffix(PathJoin(staging, name), tail)
  {
    var before := staging + ['/'] + name[..|name| - |tail|];
    var s := staging + ['/'] + name;
    assert s == before + tail;
    LastPiece(before, tail);
    var pieces := SplitOn(s, '/');
    var last := pieces[|pieces| - 1];
    CleanEndsIn(s, last);
    SuffixOfLonger(last, tail, ['/']);
    SuffixChain(Clean(s), ['/'] + last, tail);
  }

  lemma JoinEndsWith(staging: string, name: string)
    requires Rooted(staging) && |name| > 2 && '/' !in name
    ensures HasSuffix(PathJoin(staging, name), ['/'] + name)
  {
    SplitConcat(staging, '/', name);
    SplitOne(name, '/');
    CleanEndsIn(staging + ['/'] + name, name);
  }

  lemma SuffixChain(s: string, mid: string, tail: string)
    requires HasSuffix(s, mid) && HasSuffix(mid, tail)
    ensures HasSuffix(s, tail)
  {
    assert s[|s| - |mid|..][|mid| - |tail|..] == s[|s| - |tail|..];
  }

  lemma LastChar(s: string, suffix: string)
    requires HasSuffix(s, suffix) && suffix != ""
    ensures s != "" && s[|s| - 1] == suffix[|suffix| - 1]
  {
    assert s[|s| - |suffix|..][|suffix| - 1] == s[|s| - 1];
  }

  // ---- Every plan is read back ----

  /** A home directory no part could be mistaken for. */
  predicate PlainHome(home: string) {
    RoleOf(home).Homedir?
  }

  lemma StagedRoles(staging: string)
    requires Rooted(staging)
    ensures RoleOf(PathJoin(staging, "metadata")) == Metadata
    ensures RoleOf(PathJoin(staging, "databases")) == Databases
  {
    JoinEndsWith(staging, "metadata");
    assert ['/'] + "metadata" == "/metadata";
    DatabasesRole(staging);
  }

  lemma DatabasesRole(staging: string)
    requires Rooted(staging)
    ensures RoleOf(PathJoin(staging, "databases")) == Databases
  {
    JoinEndsWith(staging, "databases");
    assert ['/'] + "databases" == "/databases";
    LastChar(PathJoin(staging, "databases"), "/databases");
    NotBoth(PathJoin(staging, "databases"), "/metadata");
  }

  lemma NotBoth(s: string, other: string)
    requires other != "" && s != "" && s[|s| - 1] != other[|other| - 1]
    ensures !HasSuffix(s, other)
  {
    if HasSuffix(s, other) { LastChar(s, other); }
  }

  lemma ArchiveRole(staging: string, account: string, compressed: bool)
    requires Rooted(staging)
    ensures var path := PathJoin(staging, "cpmove-" + account + ".tar") + if compressed then ".gz" else "";
            path != "" && RoleOf(path) == Archive
  {
    var name := "cpmove-" + account + ".tar";
    assert name[|name| - 4..] == ".tar";
    JoinEndsIn(staging, name, ".tar");
    var joined := PathJoin(staging, name);
    var path := joined + if compressed then ".gz" else "";
    if compressed {
      assert path[|path| - 7..] == joined[|joined| - 4..] + ".gz" == ".tar.gz";
      LastChar(path, ".tar.gz");
    } else {
      LastChar(path, ".tar");
    }
    NotBoth(path, "/metadata");
    NotBoth(path, "/databases");
    NotBoth(path, "/system");
  }

  /** The roles a plan meant its paths to have. */
  function Meant(r: Request): Parts {
    if r.mode.Split? then
      Parts(
        PathJoin(r.staging, "metadata"), r.homedir,
        if r.databases && !r.skipDatabases then PathJoin(r.staging, "databases") else "", "", "")
    else
      NO_PARTS.(archive := PathJoin(r.staging, "cpmove-" + r.account + ".tar") + if r.compressed then ".gz" else "")
  }

  lemma SplitInOrder(metadata: string, home: string, databases: string)
    requires RoleOf(metadata) == Metadata && RoleOf(databases) == Databases && home != ""
    ensures PlainHome(home) ==>
              Classified([metadata, home]) == Some(NO_PARTS.(metadata := metadata, homedir := home)) &&
              Classified([metadata, home, databases]) ==
              Some(NO_PARTS.(metadata := metadata, homedir := home, databases := databases))
    ensures Classified([metadata]).None? && Classified([metadata, databases]).None?
    ensures !PlainHome(home) ==>
              Classified([metadata, home]).None? && Classified([metadata, home, databases]).None?
  {
    var none: seq<string> := [];
    assert [metadata][..0] == none;
    assert [metadata, home][..1] == [metadata] && [metadata, databases][..1] == [metadata];
    assert [metadata, home, databases][..2] == [metadata, home];
    assert Collected([metadata]) == Some(NO_PARTS.(metadata := metadata));
    assert Collected([metadata, home]) == Some(Placed(NO_PARTS.(metadata := metadata), home));
  }

  lemma PlainSplit(r: Request, paths: seq<string>)
    requires Plan(r).Some? && r.mode.Split? && Rooted(r.staging) && multiset(paths) == multiset(Plan(r).value.paths)
    requires r.skipHomedir || PlainHome(r.homedir)
    ensures Classified(paths) == if r.skipHomedir then None else Some(Meant(r))
  {
    PlannedRoles(r);
    PlannedInOrder(r);
    OrderIsImmaterial(Plan(r).value.paths, paths);
  }

  /** Paths of different roles, each once. */
  lemma RolesApart(paths: seq<string>)
    requires forall i | 0 <= i < |paths| :: paths[i] != ""
    requires forall i, j | 0 <= i < j < |paths| :: RoleOf(paths[i]) != RoleOf(paths[j])
    ensures "" !in paths && OneOfEach(paths)
  {
    forall p, q | p in paths && q in paths && RoleOf(p) == RoleOf(q) ensures p == q {
      var i :| 0 <= i < |paths| && paths[i] == p;
      var j :| 0 <= j < |paths| && paths[j] == q;
    }
  }

  lemma TwoRoles(a: string, b: string)
    requires a != "" && b != "" && RoleOf(a) != RoleOf(b)
    ensures "" !in [a] && OneOfEach([a]) && "" !in [a, b] && OneOfEach([a, b])
  {
    RolesApart([a]);
    RolesApart([a, b]);
  }

  lemma ThreeRoles(a: string, b: string, c: string)
    requires a != "" && b != "" && c != "" && RoleOf(a) != RoleOf(b) && RoleOf(b) != RoleOf(c) && RoleOf(a) != RoleOf(c)
    ensures "" !in [a, b, c] && OneOfEach([a, b, c])
  {
    TwoRoles(a, b);
    OneMore([a, b], c);
    assert [a, b] + [c] == [a, b, c];
  }

  lemma OneMore(paths: seq<string>, p: string)
    requires "" !in paths && OneOfEach(paths) && p != "" && forall q | q in paths :: RoleOf(q) != RoleOf(p)
    ensures "" !in paths + [p] && OneOfEach(paths + [p])
  {
  }

  lemma PlannedRoles(r: Request)
    requires Plan(r).Some? && r.mode.Split? && Rooted(r.staging) && (r.skipHomedir || PlainHome(r.homedir))
    ensures "" !in Plan(r).value.paths && OneOfEach(Plan(r).value.paths)
  {
    StagedRoles(r.staging);
    SplitPaths(r);
    var metadata, databases := PathJoin(r.staging, "metadata"), PathJoin(r.staging, "databases");
    TwoRoles(metadata, databases);
    if !r.skipHomedir {
      TwoRoles(metadata, r.homedir);
      ThreeRoles(metadata, r.homedir, databases);
    }
  }

  lemma PlannedInOrder(r: Request)
    requires Plan(r).Some? && r.mode.Split? && Rooted(r.staging) && (r.skipHomedir || PlainHome(r.homedir))
    ensures Classified(Plan(r).value.paths) == if r.skipHomedir then None else Some(Meant(r))
  {
    StagedRoles(r.staging);
    SplitPaths(r);
    SplitInOrder(PathJoin(r.staging, "metadata"), r.homedir, PathJoin(r.staging, "databases"));
  }

  lemma MistakenSplit(r: Request, paths: seq<string>)
    requires Plan(r).Some? && r.mode.Split? && Rooted(r.staging) && multiset(paths) == multiset(Plan(r).value.paths)
    requires !r.skipHomedir && !PlainHome(r.homedir)
    ensures Classified(paths).None?
  {
    MistakenRoles(r);
    SameMembers(Plan(r).value.paths, paths);
    forall p | p in paths ensures IsPart(p) {
      assert p in Plan(r).value.paths;
    }
    NoHome(paths, PathJoin(r.staging, "metadata"));
  }

  lemma MistakenRoles(r: Request)
    requires Plan(r).Some? && r.mode.Split? && Rooted(r.staging) && !r.skipHomedir && !PlainHome(r.homedir)
    ensures var planned, metadata := Plan(r).value.paths, PathJoin(r.staging, "metadata");
            && metadata in planned && RoleOf(metadata) == Metadata
            && forall i | 0 <= i < |planned| :: IsPart(planned[i])
  {
    StagedRoles(r.staging);
    SplitPaths(r);
    var metadata, databases := PathJoin(r.staging, "metadata"), PathJoin(r.staging, "databases");
    ThreeParts(metadata, r.homedir, databases);
  }

  /** Named, and not taken for a home directory. */
  predicate IsPart(path: string) {
    path != "" && !RoleOf(path).Homedir?
  }

  lemma ThreeParts(a: string, b: string, c: string)
    requires IsPart(a) && IsPart(b) && IsPart(c)
    ensures forall i | 0 <= i < 2 :: IsPart([a, b][i])
    ensures forall i | 0 <= i < 3 :: IsPart([a, b, c][i])
  {
  }

  lemma OneArchive(r: Request, paths: seq<string>)
    requires Plan(r).Some? && r.mode.Monolithic? && Rooted(r.staging) && multiset(paths) == multiset(Plan(r).value.paths)
    ensures Classified(paths) == Some(Meant(r)) && Meant(r).archive != ""
  {
    var planned := Plan(r).value.paths;
    ArchiveRole(r.staging, r.account, r.compressed);
    ArchiveAlone(planned[0]);
    assert planned == [planned[0]];
    OrderIsImmaterial(planned, paths);
  }

  /** Whatever order a snapshot lists a plan's paths in, each is given back its
      role, and the payload its mode, exactly when the payload includes a home
      directory no part could be mistaken for. A payload without one is refused,
      and so is every other. */
  lemma RolesRecoveredIff(r: Request, paths: seq<string>)
    requires Plan(r).Some? && Rooted(r.staging) && multiset(paths) == multiset(Plan(r).value.paths)
    ensures Classified(paths) ==
            if r.mode.Split? && (r.skipHomedir || !PlainHome(r.homedir)) then None else Some(Meant(r))
    ensures Classified(paths).Some? ==> ModeOf(Classified(paths).value) == r.mode
  {
    if r.mode.Monolithic? {
      OneArchive(r, paths);
    } else if r.skipHomedir || PlainHome(r.homedir) {
      PlainSplit(r, paths);
    } else {
      MistakenSplit(r, paths);
    }
  }

  lemma ArchiveAlone(path: string)
    requires path != "" && RoleOf(path) == Archive
    ensures Classified([path]) == Some(NO_PARTS.(archive := path))
  {
    var none: seq<string> := [];
    assert [path][..0] == none;
    assert Collected([path]) == Some(Placed(NO_PARTS, path));
  }

  lemma SplitPaths(r: Request)
    requires Plan(r).Some? && r.mode.Split? && Rooted(r.staging)
    ensures var planned := Plan(r).value.paths;
            var metadata, databases := PathJoin(r.staging, "metadata"), PathJoin(r.staging, "databases");
            var dumped := r.databases && !r.skipDatabases;
            && metadata != "" && databases != "" && metadata in planned
            && planned == (
                 if r.skipHomedir then (if dumped then [metadata, databases] else [metadata])
                 else if dumped then [metadata, r.homedir, databases] else [metadata, r.homedir])
  {
    StagedRoles(r.staging);
  }

  /** A home directory taken for a part leaves no home directory. */
  lemma NoHome(paths: seq<string>, metadata: string)
    requires metadata in paths && RoleOf(metadata) == Metadata
    requires forall p | p in paths :: IsPart(p)
    ensures Classified(paths).None?
  {
    if Collected(paths).Some? {
      var parts := Collected(paths).value;
      CollectedHas(paths, Metadata);
      CollectedHas(paths, Homedir);
      assert Field(parts, Metadata) == parts.metadata && Field(parts, Homedir) == parts.homedir;
    }
  }
}
