/** What comes out of an archive that createTar wrote, in full and by member
    (internal/reassemble/tar.go:41-64, 72-175, 181-240). */
module ArchiveRoundTrip {
  import opened Text
  import opened Paths
  import opened Disk
  import opened Archive

  /** A filter on header names, as a choice of paths in the tree. */
  ghost function ChoiceOf(tree: Tree<string>, keep: string -> bool): Choice<string> {
    Choice(
      p => p in tree && keep(Header(p, tree[p]).name),
      p => p in tree && Allowed(p, tree[p]))
  }

  ghost predicate Chosen(tree: Tree<string>, keep: string -> bool, p: Path) {
    p in tree && keep(Header(p, tree[p]).name)
  }

  ghost predicate AllAllowed(tree: Tree<string>, walk: seq<Path>, keep: string -> bool, k: nat)
    requires k <= |walk|
  {
    forall i | 0 <= i < k :: AllowedAt(tree, keep, walk[i])
  }

  ghost predicate AllowedAt(tree: Tree<string>, keep: string -> bool, p: Path) {
    Chosen(tree, keep, p) ==> Allowed(p, tree[p])
  }

  /** One of what is asked for that may come back: any but a file past a
      tebibyte, or a link that leads out. */
  ghost predicate Welcome(tree: Tree<string>, keep: string -> bool, p: Path) {
    Chosen(tree, keep, p) ==>
      && (tree[p].File? ==> |tree[p].content| <= 0x100_0000_0000)
      && (tree[p].Link? ==> LeadsInside(p, tree[p].target))
  }

  lemma WelcomeIff(tree: Tree<string>, keep: string -> bool, p: Path)
    requires WellFormed(tree) && p in tree
    ensures Welcome(tree, keep, p) <==> AllowedAt(tree, keep, p)
  {
    if tree[p].Link? { ContainedIff(p, tree[p].target); }
  }

  /** After `k` entries: stopped exactly when a kept entry was not allowed, and
      otherwise holding what it should. */
  ghost predicate Sound(umask: Mode, tree: Tree<string>, walk: seq<Path>, keep: string -> bool, k: nat, out: Outcome)
    requires k <= |walk|
  {
    && (out.ok <==> AllAllowed(tree, walk, keep, k))
    && (out.ok ==> Holds(umask, tree, walk, ChoiceOf(tree, keep), k, out.nodes))
    && (out.ok ==> out.written == |Regular(tree, walk, ChoiceOf(tree, keep), k)|)
  }

  lemma {:induction false} ExtractIsSound(
    umask: Mode, tree: Tree<string>, walk: seq<Path>, entries: seq<Entry>, keep: string -> bool, k: nat)
    requires WellFormed(tree) && WalkOf(tree, walk) && Packs(entries, tree, walk) && k <= |walk|
    ensures Sound(umask, tree, walk, keep, k, Extract(umask, keep, map[], entries[..k]))
  {
    if k == 0 {
      assert Regular(tree, walk, ChoiceOf(tree, keep), 0) == {};
    } else {
      var i := k - 1;
      ExtractIsSound(umask, tree, walk, entries, keep, i);
      ExtractNext(umask, keep, entries, i);
      OneEntry(umask, tree, walk, keep, i, Extract(umask, keep, map[], entries[..i]), entries[i]);
    }
  }

  lemma ExtractNext(umask: Mode, keep: string -> bool, entries: seq<Entry>, i: nat)
    requires i < |entries|
    ensures Extract(umask, keep, map[], entries[..i + 1]) ==
            After(umask, keep, Extract(umask, keep, map[], entries[..i]), entries[i])
  {
    assert entries[..i + 1][..i] == entries[..i] && entries[..i + 1][i] == entries[i];
  }

  lemma OneEntry(
    umask: Mode, tree: Tree<string>, walk: seq<Path>, keep: string -> bool, k: nat, before: Outcome, entry: Entry)
    requires WellFormed(tree) && WalkOf(tree, walk) && k < |walk|
    requires walk[k] in tree && !tree[walk[k]].Socket? && entry == Header(walk[k], tree[walk[k]])
    requires Sound(umask, tree, walk, keep, k, before)
    ensures Sound(umask, tree, walk, keep, k + 1, After(umask, keep, before, entry))
  {
    var path, choice := walk[k], ChoiceOf(tree, keep);
    AllAllowedNext(tree, walk, keep, k);
    if before.ok {
      RegularNext(tree, walk, choice, k);
      AfterIs(umask, keep, before, path, tree[path]);
      assert choice.keep(path) == keep(entry.name) && choice.allowed(path) == Allowed(path, tree[path]);
      if keep(entry.name) && Returns(tree[path]) {
        KeptStep(umask, tree, walk, choice, k, before.nodes);
      } else {
        OtherStep(umask, tree, walk, choice, k, before.nodes);
      }
    }
  }

  lemma AllAllowedNext(tree: Tree<string>, walk: seq<Path>, keep: string -> bool, k: nat)
    requires k < |walk|
    ensures AllAllowed(tree, walk, keep, k + 1) <==> AllAllowed(tree, walk, keep, k) && AllowedAt(tree, keep, walk[k])
  {
  }

  /** What an entry does, by the path it was packed from. */
  lemma AfterIs(umask: Mode, keep: string -> bool, before: Outcome, path: Path, node: Node)
    requires before.ok && path != [] && Plain(path)
    ensures var put := Put(umask, before.nodes, path, node, Allowed(path, node));
            After(umask, keep, before, Header(path, node)) ==
            if !keep(Header(path, node).name) then before
            else if put.None? then before.(ok := false)
            else Outcome(put.value, before.written + if node.File? then 1 else 0, true)
  {
    HeaderNameReadsBack(path, node.Dir?);
  }

  lemma AllAllowedAtTheEnd(tree: Tree<string>, walk: seq<Path>, keep: string -> bool)
    requires WalkOf(tree, walk)
    ensures AllAllowed(tree, walk, keep, |walk|) <==> forall p | p in tree :: AllowedAt(tree, keep, p)
  {
    forall p | p in tree && AllAllowed(tree, walk, keep, |walk|) ensures AllowedAt(tree, keep, p) {
      var i :| 0 <= i < |walk| && walk[i] == p;
      assert AllowedAt(tree, keep, walk[i]);
    }
    forall i | 0 <= i < |walk| ensures walk[i] in tree {}
  }

  /** Unpacking some members gives what was packed, cut down to them and to the
      directories leading to them, and counts their files. It stops exactly
      when one of them is a link leading outside or too large. */
  lemma MembersAreTheRestriction(
    umask: Mode, tree: Tree<string>, walk: seq<Path>, entries: seq<Entry>, keep: string -> bool)
    requires WellFormed(tree) && WalkOf(tree, walk) && Packs(entries, tree, walk)
    ensures var out := Extract(umask, keep, map[], entries);
            && (out.ok <==> forall p | p in tree :: Welcome(tree, keep, p))
            && (out.ok ==> out.written == |Files(tree, ChoiceOf(tree, keep))|)
            && (out.ok ==> forall p :: IsRestriction(umask, tree, ChoiceOf(tree, keep), out.nodes, p))
  {
    assert entries[..|walk|] == entries;
    ExtractIsSound(umask, tree, walk, entries, keep, |walk|);
    AllAllowedAtTheEnd(tree, walk, keep);
    forall p | p in tree ensures Welcome(tree, keep, p) <==> AllowedAt(tree, keep, p) {
      WelcomeIff(tree, keep, p);
    }
    RegularAll(tree, walk, ChoiceOf(tree, keep));
    var out := Extract(umask, keep, map[], entries);
    if out.ok {
      forall p ensures IsRestriction(umask, tree, ChoiceOf(tree, keep), out.nodes, p) {
        RestrictedAt(umask, tree, walk, ChoiceOf(tree, keep), out.nodes, p);
      }
    }
  }

  const ALL: string -> bool := _ => true

  /** What was packed is unpacked, exactly when every link stays inside and no
      file is past the size limit: every directory, file and link where it
      was, with its content, and nothing besides. */
  lemma RoundTripIff(umask: Mode, tree: Tree<string>, walk: seq<Path>, entries: seq<Entry>)
    requires WellFormed(tree) && WalkOf(tree, walk) && Packs(entries, tree, walk)
    ensures var out := Extract(umask, ALL, map[], entries);
            && (out.ok <==> forall p | p in tree :: Welcome(tree, ALL, p))
            && (out.ok ==> out.nodes == RestoredTree(umask, tree))
            && (out.ok ==> out.written == |Files(tree, ChoiceOf(tree, ALL))|)
  {
    MembersAreTheRestriction(umask, tree, walk, entries, ALL);
    var out := Extract(umask, ALL, map[], entries);
    if out.ok { WholeTree(umask, tree, ChoiceOf(tree, ALL), out.nodes); }
  }

  // ---- Which members a request names ----

  /** A request ending in a slash names a directory and all beneath it; any
      other names one file. The archive's own top directory does not count. */
  lemma MemberIff(top: string, rest: Path, dir: bool, asked: Path, under: bool)
    requires PlainSegment(top) && rest != [] && Plain(rest) && asked != [] && Plain(asked)
    ensures Member(HeaderName(asked, under), WithoutTop(HeaderName([top] + rest, dir))) <==>
            if under then asked <= rest && (asked == rest ==> dir) else asked == rest && !dir
  {
    var name := HeaderName([top] + rest, dir);
    JoinLonger([top], rest);
    assert name == top + ['/'] + HeaderName(rest, dir);
    TopCut(top, HeaderName(rest, dir));
    NamesApart(rest, dir, asked, under);
  }

  /** A request: the directory or file it names, and which of the two. */
  datatype Request = Request(path: Path, under: bool)

  function Prefixes(requests: seq<Request>): (prefixes: seq<string>)
    ensures |prefixes| == |requests|
    ensures forall k | 0 <= k < |requests| :: prefixes[k] == HeaderName(requests[k].path, requests[k].under)
  {
    seq(|requests|, k requires 0 <= k < |requests| => HeaderName(requests[k].path, requests[k].under))
  }

  /** So of several requests a member is unpacked exactly when one names it. */
  lemma AskedIff(requests: seq<Request>, top: string, rest: Path, dir: bool)
    requires PlainSegment(top) && rest != [] && Plain(rest)
    requires forall k | 0 <= k < |requests| :: requests[k].path != [] && Plain(requests[k].path)
    ensures AskedFor(Prefixes(requests), HeaderName([top] + rest, dir)) <==>
            exists r | r in requests ::
              if r.under then r.path <= rest && (r.path == rest ==> dir) else r.path == rest && !dir
  {
    var name := HeaderName([top] + rest, dir);
    forall k | 0 <= k < |requests|
      ensures Member(Prefixes(requests)[k], WithoutTop(name)) <==>
              var r := requests[k];
              if r.under then r.path <= rest && (r.path == rest ==> dir) else r.path == rest && !dir
    {
      MemberIff(top, rest, dir, requests[k].path, requests[k].under);
    }
    if AskedFor(Prefixes(requests), name) {
      var k :| 0 <= k < |requests| && Member(Prefixes(requests)[k], WithoutTop(name));
      assert requests[k] in requests;
    }
    if r :| r in requests && if r.under then r.path <= rest && (r.path == rest ==> dir) else r.path == rest && !dir {
      var k :| 0 <= k < |requests| && requests[k] == r;
      assert Member(Prefixes(requests)[k], WithoutTop(name));
    }
  }

  lemma HeaderSplit(path: Path, dir: bool)
    requires path != [] && Plain(path)
    ensures SplitOn(HeaderName(path, dir), '/') == path + if dir then [""] else []
  {
    PlainIsNormal(false, path);
    NormalIsSlashFree(false, path);
    SplitJoin(path);
    if dir {
      assert HeaderName(path, dir) == Join(path) + ['/'] + "";
      SplitConcat(Join(path), '/', "");
    }
  }

  lemma PrefixIsUnder(rest: Path, dir: bool, asked: Path)
    requires rest != [] && Plain(rest) && asked != [] && Plain(asked)
    requires HasPrefix(HeaderName(rest, dir), Join(asked) + ['/'])
    ensures asked <= rest && (asked == rest ==> dir)
  {
    var x := AfterPrefix(HeaderName(rest, dir), Join(asked));
    HeaderSplit(rest, dir);
    HeaderSplit(asked, false);
    SplitConcat(Join(asked), '/', x);
    assert asked + [] == asked;
    SplitPrefix(rest, if dir then [""] else [], asked, SplitOn(x, '/'));
  }

  lemma AfterPrefix(s: string, prefix: string) returns (x: string)
    requires HasPrefix(s, prefix + ['/'])
    ensures s == prefix + ['/'] + x
  {
    x := s[|prefix| + 1..];
  }

  lemma UnderHasPrefix(rest: Path, dir: bool, asked: Path)
    requires asked != [] && asked <= rest && (asked == rest ==> dir)
    ensures HasPrefix(HeaderName(rest, dir), Join(asked) + ['/'])
  {
    if asked != rest {
      JoinLonger(asked, rest[|asked|..]);
      assert rest == asked + rest[|asked|..];
    }
  }

  lemma SplitPrefix<A>(a: seq<A>, last: seq<A>, b: seq<A>, rest: seq<A>)
    requires a + last == b + rest && rest != [] && |last| <= 1
    ensures b <= a && (a == b ==> last != [])
  {
    assert |b| <= |a|;
    assert b == (b + rest)[..|b|] == (a + last)[..|b|] == a[..|b|];
  }

  lemma NamesApart(rest: Path, dir: bool, asked: Path, under: bool)
    requires rest != [] && Plain(rest) && asked != [] && Plain(asked)
    ensures Member(HeaderName(asked, under), HeaderName(rest, dir)) <==>
            if under then asked <= rest && (asked == rest ==> dir) else asked == rest && !dir
  {
    var prefix := HeaderName(asked, under);
    JoinEnds(asked);
    assert prefix[|prefix| - 1..] == [prefix[|prefix| - 1]];
    assert HasSuffix(prefix, "/") <==> under;
    if under {
      if HasPrefix(HeaderName(rest, dir), prefix) { PrefixIsUnder(rest, dir, asked); }
      if asked <= rest && (asked == rest ==> dir) { UnderHasPrefix(rest, dir, asked); }
    } else {
      HeaderSplit(asked, false);
      HeaderSplit(rest, dir);
      var rel := HeaderName(rest, dir);
      assert dir ==> rel[|rel| - 1] == '/';
      assert asked + [] == asked && rest + [] == rest;
    }
  }

  lemma TopCut(top: string, rest: string)
    requires '/' !in top
    ensures WithoutTop(top + ['/'] + rest) == rest
  {
    var s := top + ['/'] + rest;
    assert s[|top|] == '/';
    forall k | 0 <= k < |top| ensures s[k] != '/' { assert s[k] == top[k] && top[k] in top; }
  }

  // ---- Modes ----

  /** Without a umask a node comes back unchanged exactly when it carries none
      of the bits above permission and all of the owner's. */
  lemma UnchangedIff(node: Node)
    ensures Restored(0, node) == node <==>
            (node.Dir? ==> node.mode & 0xE00 == 0 && node.mode & 0x1C0 == 0x1C0) &&
            (node.File? ==> node.mode & 0xE00 == 0 && node.mode & 0x180 == 0x180)
  {
  }

  /** Packing what was unpacked loses nothing further. */
  lemma RestoredIsStable(umask: Mode, node: Node)
    ensures Restored(umask, Restored(umask, node)) == Restored(umask, node)
  {
  }
}
