/** Packing a directory and unpacking it again
    (internal/reassemble/tar.go:26-271). A tree is what is on disk, by path;
    an archive is its headers and contents in the order they were written. */
module Archive {
  import opened NodeStore
  import opened Text
  import opened Paths
  import opened Disk

  datatype Entry = Entry(name: string, node: Node)

  // ---- Names ----

  /** safeName: where an entry goes, as segments. None escapes. */
  function SafeName(name: string): Option<Path> {
    var clean := Clean(if HasPrefix(name, "./") then name[2..] else name);
    if clean == "." || clean == "/" then Some([])
    else if Rooted(clean) || clean == ".." || HasPrefix(clean, "../") then None
    else Some(SplitOn(clean, '/'))
  }

  /** No entry is ever put anywhere but under the extraction directory. */
  lemma SafeNameStaysInside(name: string)
    requires SafeName(name).Some?
    ensures Plain(SafeName(name).value)
  {
    var rest := if HasPrefix(name, "./") then name[2..] else name;
    SegmentsAreNormal(rest);
    CleanIsIdempotent(rest);
    var segments := Segments(rest);
    NormalIsSlashFree(Rooted(rest), segments);
    if segments != [] && !Rooted(rest) {
      SplitJoin(segments);
      JoinLeaves(segments);
      if segments[0] != ".." { NormalIsPlain(segments); }
    }
  }

  /** It is where the name's own segments lead, once a leading "./" is gone, and
      nowhere for one that leads out or starts at the root. */
  lemma SafeNameIs(name: string)
    ensures var rest := if |name| >= 2 && name[0] == '.' && name[1] == '/' then name[2..] else name;
            SafeName(name) ==
            if Rooted(rest) && Segments(rest) == [] then Some([])
            else if Rooted(rest) || !Inside(Segments(rest)) then None
            else Some(Segments(rest))
  {
    var rest := if HasPrefix(name, "./") then name[2..] else name;
    assert HasPrefix(name, "./") <==> |name| >= 2 && name[0] == '.' && name[1] == '/';
    SegmentsAreNormal(rest);
    CleanIsIdempotent(rest);
    var segments := Segments(rest);
    NormalIsSlashFree(Rooted(rest), segments);
    if segments != [] && !Rooted(rest) {
      SplitJoin(segments);
      JoinLeaves(segments);
    }
    if segments != [] && Rooted(rest) { JoinIsSomething(segments); }
  }

  lemma JoinIsSomething(segments: Path)
    requires segments != [] && segments[0] != ""
    ensures Join(segments) != "" && ['/'] + Join(segments) != "/"
  {
    assert |['/'] + Join(segments)| > 1;
  }

  function HeaderName(path: Path, dir: bool): string {
    if dir then Join(path) + ['/'] else Join(path)
  }

  lemma NoDotSlash(path: Path, dir: bool)
    requires path != [] && Plain(path)
    ensures !HasPrefix(HeaderName(path, dir), "./")
  {
    var s := HeaderName(path, dir);
    assert PlainSegment(path[0]);
    if |path| > 1 || dir {
      assert s[..|path[0]|] == path[0] && s[|path[0]|] == '/';
      if HasPrefix(s, "./") { FirstSlash(s, path[0], "."); }
    } else {
      assert s == path[0];
      assert forall k | 0 <= k < |s| :: s[k] in s;
      assert |s| >= 2 ==> s[..2][1] == s[1];
    }
  }

  lemma DirSegments(path: Path)
    requires path != [] && Plain(path)
    ensures Segments(Join(path) + ['/']) == path
  {
    PlainIsNormal(false, path);
    NormalIsSlashFree(false, path);
    SplitJoin(path);
    FoldPlain(false, [], path);
    assert [] + path == path;
    assert Join(path) + ['/'] == Join(path) + ['/'] + "";
    SplitConcat(Join(path), '/', "");
    FoldConcat(false, [], path, [""]);
    assert [""][..0] == [];
    JoinEnds(path);
  }

  /** A packed name is unpacked where it came from. */
  lemma HeaderNameReadsBack(path: Path, dir: bool)
    requires path != [] && Plain(path)
    ensures SafeName(HeaderName(path, dir)) == Some(path)
  {
    var s := HeaderName(path, dir);
    NoDotSlash(path, dir);
    PlainIsNormal(false, path);
    NormalIsSlashFree(false, path);
    SplitJoin(path);
    JoinLeaves(path);
    FoldPlain(false, [], path);
    assert [] + path == path;
    if dir { DirSegments(path); }
    assert Segments(s) == path;
  }

  /** A relative target that cleaning does not lead out of the tree. */
  predicate Contained(path: Path, target: string) {
    !Rooted(target) && SafeName(Clean((if |path| <= 1 then "." else Join(Parent(path))) + ['/'] + target)).Some?
  }

  /** Where following a link's target from its directory leads, step by step. */
  function Followed(path: Path, target: string): Path {
    Fold(false, [], Parent(path) + SplitOn(target, '/'))
  }

  /** Never above the directory, and not to a place counted from the root. */
  predicate LeadsInside(path: Path, target: string) {
    !Rooted(target) && Inside(Followed(path, target))
  }

  lemma ParentIsPlain(path: Path)
    requires Plain(path)
    ensures Plain(Parent(path)) && SlashFree(Parent(path))
  {
    forall i | 0 <= i < |Parent(path)| ensures PlainSegment(Parent(path)[i]) {
      assert PlainSegment(path[i]);
    }
  }

  /** The check that cleaning makes comes to that, step for step. */
  lemma ContainedIff(path: Path, target: string)
    requires path != [] && Plain(path)
    ensures Contained(path, target) <==> LeadsInside(path, target)
  {
    var up := Parent(path);
    var dir := if |path| <= 1 then "." else Join(up);
    ParentIsPlain(path);
    SplitConcat(dir, '/', target);
    FoldConcat(false, [], SplitOn(dir, '/'), SplitOn(target, '/'));
    FoldConcat(false, [], up, SplitOn(target, '/'));
    if |path| <= 1 {
      SplitOne(".", '/');
      FoldOne(false, [], ".");
      assert Fold(false, [], up) == [];
    } else {
      SplitJoin(up);
      JoinEnds(up);
    }
    SafeNameIff(dir + ['/'] + target);
  }

  /** What SafeName makes of a cleaned relative path. */
  lemma SafeNameIff(name: string)
    requires !Rooted(name)
    ensures SafeName(Clean(name)).Some? <==> Inside(Segments(name))
  {
    var clean, segments := Clean(name), Segments(name);
    CleanIsIdempotent(name);
    SegmentsAreNormal(name);
    NormalIsSlashFree(false, segments);
    if segments != [] {
      JoinLeaves(segments);
      NoDotPrefix(segments);
    }
  }

  lemma NoDotPrefix(segments: Path)
    requires segments != [] && SlashFree(segments) && segments[0] != "" && segments[0] != "."
    ensures !HasPrefix(Join(segments), "./")
  {
    var s := Join(segments);
    if |segments| > 1 {
      assert s[..|segments[0]|] == segments[0] && s[|segments[0]|] == '/';
      if HasPrefix(s, "./") { FirstSlash(s, segments[0], "."); }
    } else {
      assert forall k | 0 <= k < |s| :: s[k] in s;
      assert |s| >= 2 ==> s[..2][1] == s[1];
    }
  }

  // ---- Packing ----

  /** What can be on disk under a directory. */
  ghost predicate WellFormed(tree: Tree<string>) {
    Closed(tree) && forall p | p in tree :: Plain(p)
  }

  function Header(path: Path, node: Node): Entry {
    Entry(HeaderName(path, node.Dir?), node)
  }

  /** createTar. A socket has no header and stops it. */
  method CreateTar(tree: Tree<string>, walk: seq<Path>) returns (archive: Option<seq<Entry>>)
    requires forall i | 0 <= i < |walk| :: walk[i] in tree
    ensures archive.None? <==> exists i :: 0 <= i < |walk| && IsSocket(tree, walk[i])
    ensures archive.None? <==> exists p | p in walk :: tree[p] == Socket
    ensures archive.Some? ==> Packs(archive.value, tree, walk)
    ensures archive.Some? ==>
              && |archive.value| == |walk|
              && forall i | 0 <= i < |walk| ::
                   archive.value[i] == Entry(Join(walk[i]) + (if tree[walk[i]].Dir? then "/" else ""), tree[walk[i]])
  {
    var entries := [];
    for i := 0 to |walk|
      invariant Packs(entries, tree, walk[..i])
      invariant forall k | 0 <= k < i :: !IsSocket(tree, walk[k])
    {
      var node := tree[walk[i]];
      if node.Socket? {
        assert IsSocket(tree, walk[i]);
        return None;
      }
      PacksNext(entries, tree, walk, i);
      entries := entries + [Header(walk[i], node)];
    }
    assert walk[..|walk|] == walk;
    return Some(entries);
  }

  lemma PacksNext(entries: seq<Entry>, tree: Tree<string>, walk: seq<Path>, i: nat)
    requires i < |walk| && Packs(entries, tree, walk[..i]) && walk[i] in tree && !tree[walk[i]].Socket?
    ensures Packs(entries + [Header(walk[i], tree[walk[i]])], tree, walk[..i + 1])
  {
    var more := entries + [Header(walk[i], tree[walk[i]])];
    forall k | 0 <= k <= i ensures PackedAs(tree, walk[..i + 1][k], more[k]) {
      if k < i { assert PackedAs(tree, walk[..i][k], entries[k]); }
    }
  }

  predicate IsSocket(tree: Tree<string>, path: Path) {
    path in tree && tree[path].Socket?
  }

  predicate PackedAs(tree: Tree<string>, path: Path, entry: Entry) {
    path in tree && !tree[path].Socket? && entry == Header(path, tree[path])
  }

  ghost predicate Packs(entries: seq<Entry>, tree: Tree<string>, walk: seq<Path>) {
    |entries| == |walk| && forall k | 0 <= k < |walk| :: PackedAs(tree, walk[k], entries[k])
  }

  // ---- Unpacking ----

  predicate Allowed(path: Path, node: Node) {
    (node.File? ==> |node.content| <= MAX_ENTRY_SIZE) && (node.Link? ==> Contained(path, node.target))
  }

  datatype Outcome = Outcome(nodes: Tree<string>, written: nat, ok: bool)

  function After(umask: Mode, keep: string -> bool, before: Outcome, entry: Entry): Outcome {
    if !before.ok || !keep(entry.name) then before
    else
      match SafeName(entry.name)
      case None => before.(ok := false)
      case Some(path) =>
        match Put(umask, before.nodes, path, entry.node, Allowed(path, entry.node))
        case None => before.(ok := false)
        case Some(nodes) =>
          Outcome(nodes, if path != [] && entry.node.File? then before.written + 1 else before.written, true)
  }

  function Extract(umask: Mode, keep: string -> bool, nodes: Tree<string>, entries: seq<Entry>): Outcome {
    if entries == [] then Outcome(nodes, 0, true)
    else After(umask, keep, Extract(umask, keep, nodes, entries[..|entries| - 1]), entries[|entries| - 1])
  }

  lemma {:induction false} StoppedStays(umask: Mode, keep: string -> bool, nodes: Tree<string>, entries: seq<Entry>, n: nat)
    requires n <= |entries| && !Extract(umask, keep, nodes, entries[..n]).ok
    ensures Extract(umask, keep, nodes, entries) == Extract(umask, keep, nodes, entries[..n])
  {
    if n == |entries| {
      assert entries[..n] == entries;
    } else {
      assert entries[..|entries| - 1][..n] == entries[..n];
      StoppedStays(umask, keep, nodes, entries[..|entries| - 1], n);
    }
  }

  /** Every link on disk leads inside, and stands where it was put. */
  ghost predicate LinksInside(nodes: Tree<string>) {
    forall p | p in nodes && nodes[p].Link? :: p != [] && Plain(p) && LeadsInside(p, nodes[p].target)
  }

  /** Whatever an archive holds, one entry adds no link that does not. */
  lemma EntryKeepsLinksInside(umask: Mode, keep: string -> bool, before: Outcome, entry: Entry)
    requires LinksInside(before.nodes)
    ensures LinksInside(After(umask, keep, before, entry).nodes)
  {
    if before.ok && keep(entry.name) && SafeName(entry.name).Some? {
      var path, node := SafeName(entry.name).value, entry.node;
      SafeNameStaysInside(entry.name);
      PutLinks(umask, before.nodes, path, node, Allowed(path, node));
      if path != [] && node.Link? && Allowed(path, node) { ContainedIff(path, node.target); }
    }
  }

  lemma {:induction false} ExtractKeepsLinksInside(
    umask: Mode, keep: string -> bool, nodes: Tree<string>, entries: seq<Entry>)
    requires LinksInside(nodes)
    ensures LinksInside(Extract(umask, keep, nodes, entries).nodes)
  {
    if entries != [] {
      var n := |entries| - 1;
      ExtractKeepsLinksInside(umask, keep, nodes, entries[..n]);
      EntryKeepsLinksInside(umask, keep, Extract(umask, keep, nodes, entries[..n]), entries[n]);
    }
  }

  /** Then wherever the directory is, every link in it leads beneath it. */
  lemma LinksStayBeneath(nodes: Tree<string>, root: string, p: Path)
    requires LinksInside(nodes) && root != "" && p in nodes && nodes[p].Link?
    ensures var dir := if |p| == 1 then root else root + ['/'] + Join(Parent(p));
            && Segments(dir + ['/'] + nodes[p].target) == Segments(root) + Followed(p, nodes[p].target)
            && Plain(Followed(p, nodes[p].target))
  {
    var up, target, rooted := Parent(p), nodes[p].target, Rooted(root);
    var dir := if |p| == 1 then root else root + ['/'] + Join(up);
    ParentIsPlain(p);
    if |p| > 1 { PlainStaysBeneath(root, up); } else { assert Segments(root) + up == Segments(root); }
    SplitConcat(dir, '/', target);
    FoldConcat(rooted, [], SplitOn(dir, '/'), SplitOn(target, '/'));
    FoldPlain(rooted, Segments(root), up);
    FoldConcat(rooted, Segments(root), up, SplitOn(target, '/'));
    SplitIsSlashFree(target);
    StaysBeneath(rooted, Segments(root), up + SplitOn(target, '/'));
  }

  /** An entry no extraction gets past: one that leads out, a link that does, or
      a file past a tebibyte. */
  predicate Acceptable(entry: Entry) {
    match SafeName(entry.name)
    case None => false
    case Some(path) =>
      path == [] ||
      ((entry.node.File? ==> |entry.node.content| <= 0x100_0000_0000) &&
       (entry.node.Link? ==> LeadsInside(path, entry.node.target)))
  }

  lemma EntryIsAcceptable(umask: Mode, keep: string -> bool, before: Outcome, entry: Entry)
    requires After(umask, keep, before, entry).ok
    ensures before.ok && (keep(entry.name) ==> Acceptable(entry))
  {
    if keep(entry.name) && SafeName(entry.name).Some? {
      var path := SafeName(entry.name).value;
      SafeNameStaysInside(entry.name);
      if path != [] && entry.node.Link? { ContainedIff(path, entry.node.target); }
    }
  }

  /** The files among the first n entries that are asked for, by place. */
  ghost function FilesAsked(keep: string -> bool, entries: seq<Entry>): set<nat> {
    Places(entries, (entry: Entry) => Counts(keep, entry))
  }

  /** An archive of any kind that is unpacked to its end held nothing else among
      what was asked for, and as many files as were counted. */
  lemma {:induction false} UnpackedWasAcceptable(umask: Mode, keep: string -> bool, nodes: Tree<string>, entries: seq<Entry>)
    requires Extract(umask, keep, nodes, entries).ok
    ensures forall i | 0 <= i < |entries| && keep(entries[i].name) :: Acceptable(entries[i])
    ensures Extract(umask, keep, nodes, entries).written == |FilesAsked(keep, entries)|
  {
    if entries != [] {
      var n := |entries| - 1;
      EntryIsAcceptable(umask, keep, Extract(umask, keep, nodes, entries[..n]), entries[n]);
      UnpackedWasAcceptable(umask, keep, nodes, entries[..n]);
      EntryCounts(umask, keep, Extract(umask, keep, nodes, entries[..n]), entries[n]);
      PlacesNext(entries, (entry: Entry) => Counts(keep, entry));
      forall i | 0 <= i < |entries| && keep(entries[i].name) ensures Acceptable(entries[i]) {
        if i < n { assert entries[..n][i] == entries[i]; }
      }
    } else {
      assert FilesAsked(keep, entries) == {};
    }
  }

  predicate Counts(keep: string -> bool, entry: Entry) {
    keep(entry.name) && entry.node.File? && SafeName(entry.name) != Some([])
  }

  lemma EntryCounts(umask: Mode, keep: string -> bool, before: Outcome, entry: Entry)
    requires After(umask, keep, before, entry).ok
    ensures After(umask, keep, before, entry).written == before.written + if Counts(keep, entry) then 1 else 0
  {
  }

  ghost function Places<A>(s: seq<A>, f: A -> bool): set<nat> {
    set i: nat | i < |s| && f(s[i])
  }

  lemma PlacesNext<A>(s: seq<A>, f: A -> bool)
    requires s != []
    ensures var n := |s| - 1; |Places(s, f)| == |Places(s[..n], f)| + if f(s[n]) then 1 else 0
  {
    var n := |s| - 1;
    var before, last := Places(s[..n], f), if f(s[n]) then {n} else {};
    forall i: nat ensures i in Places(s, f) <==> i in before + last {
      if i < n { assert s[..n][i] == s[i]; }
    }
    assert Places(s, f) == before + last;
  }

  /** And touched nothing but what was asked for and the way to it. */
  lemma {:induction false} TouchesOnlyTheAsked(
    umask: Mode, keep: string -> bool, nodes: Tree<string>, entries: seq<Entry>, q: Path)
    requires forall i, p | 0 <= i < |entries| && keep(entries[i].name) && SafeName(entries[i].name) == Some(p) :: !Under(q, p)
    ensures var after := Extract(umask, keep, nodes, entries).nodes;
            (q in after <==> q in nodes) && (q in nodes ==> after[q] == nodes[q])
  {
    if entries != [] {
      var n := |entries| - 1;
      assert forall i | 0 <= i < n :: entries[..n][i] == entries[i];
      TouchesOnlyTheAsked(umask, keep, nodes, entries[..n], q);
      var before := Extract(umask, keep, nodes, entries[..n]);
      if before.ok && keep(entries[n].name) && SafeName(entries[n].name).Some? {
        var path, node := SafeName(entries[n].name).value, entries[n].node;
        PutTouches(umask, before.nodes, path, node, Allowed(path, node), q);
      }
    }
  }

  /** A link where nothing is in its way is put exactly when it leads inside,
      and as it is. */
  lemma LinkIff(umask: Mode, nodes: Tree<string>, path: Path, target: string)
    requires path != [] && Plain(path) && Open(nodes, path) && path !in nodes
    ensures var out := Extract(umask, _ => true, nodes, [Entry(Join(path), Link(target))]);
            && (out.ok <==> LeadsInside(path, target))
            && (out.ok ==> path in out.nodes && out.nodes[path] == Link(target))
            && (!out.ok ==> out.nodes == nodes)
  {
    var entry := Entry(HeaderName(path, false), Link(target));
    assert [entry][..0] == [] && [entry][0] == entry;
    HeaderNameReadsBack(path, false);
    ContainedIff(path, target);
    PutAdds(umask, nodes, path, entry.node, Allowed(path, entry.node));
    if Allowed(path, entry.node) {
      var after := Put(umask, nodes, path, entry.node, true).value;
      assert Under(path, path) && AddsAt(umask, nodes, after, path, entry.node, path);
    }
  }

  /** The directory extracted into. */
  class Directory {
    var nodes: Tree<string>
    const umask: Mode

    constructor (umask: Mode)
      ensures nodes == map[] && this.umask == umask
    {
      this.umask := umask;
      nodes := map[];
    }

    /** extractTarFiltered. */
    method ExtractTarFiltered(entries: seq<Entry>, keep: string -> bool) returns (written: nat, ok: bool)
      modifies this
      ensures Outcome(nodes, written, ok) == Extract(umask, keep, old(nodes), entries)
      ensures LinksInside(old(nodes)) ==> LinksInside(nodes)
    {
      ghost var was := nodes;
      if LinksInside(was) { ExtractKeepsLinksInside(umask, keep, was, entries); }
      written := 0;
      for i := 0 to |entries|
        invariant Outcome(nodes, written, true) == Extract(umask, keep, old(nodes), entries[..i])
      {
        assert entries[..i + 1][..i] == entries[..i];
        var entry := entries[i];
        if !keep(entry.name) {
          continue;
        }
        var name := SafeName(entry.name);
        if name.None? {
          StoppedStays(umask, keep, old(nodes), entries, i + 1);
          return written, false;
        }
        if name.value == [] {
          continue;
        }
        var put := Put(umask, nodes, name.value, entry.node, Allowed(name.value, entry.node));
        if put.None? {
          StoppedStays(umask, keep, old(nodes), entries, i + 1);
          return written, false;
        }
        nodes := put.value;
        if entry.node.File? {
          written := written + 1;
        }
      }
      assert entries[..|entries|] == entries;
      return written, true;
    }

    /** ExtractMembers. Asked for nothing, it refuses. */
    method ExtractMembers(entries: seq<Entry>, prefixes: seq<string>) returns (written: nat, ok: bool)
      modifies this
      ensures prefixes == [] ==> !ok && written == 0 && nodes == old(nodes)
      ensures prefixes != [] ==>
                Outcome(nodes, written, ok) == Extract(umask, (name: string) => AskedFor(prefixes, name), old(nodes), entries)
      ensures LinksInside(old(nodes)) ==> LinksInside(nodes)
    {
      if |prefixes| == 0 {
        return 0, false;
      }
      written, ok := ExtractTarFiltered(entries, (name: string) => AskedFor(prefixes, name));
    }
  }

  function WithoutTop(name: string): string {
    var slash := IndexSlash(name);
    if slash < |name| then name[slash + 1..] else name
  }

  function IndexSlash(s: string): (i: nat)
    ensures i <= |s| && (forall k | 0 <= k < i :: s[k] != '/') && (i < |s| ==> s[i] == '/')
  {
    if s == "" || s[0] == '/' then 0 else IndexSlash(s[1..]) + 1
  }

  predicate Member(prefix: string, rel: string) {
    if HasSuffix(prefix, "/") then HasPrefix(rel, prefix) else rel == prefix
  }

  predicate AskedFor(prefixes: seq<string>, name: string) {
    exists k | 0 <= k < |prefixes| :: Member(prefixes[k], WithoutTop(name))
  }
}
