/** What unpacking does to a directory on disk, for segments of any kind
    (internal/reassemble/tar.go:109-170): the part of the extraction that does
    not read names. */
module Disk {
  import opened NodeStore

  /** Permission bits with setuid, setgid and sticky above them. */
  type Mode = bv12
  type Content = seq<bv8>

  const MAX_ENTRY_SIZE := 1024 * 1024 * 1024 * 1024

  /** Special is a device or a fifo; neither they nor sockets come back. */
  datatype Node = Dir(mode: Mode) | File(mode: Mode, content: Content) | Link(target: string) | Special | Socket

  type Tree<S(==)> = map<seq<S>, Node>

  function Parent<S(==)>(path: seq<S>): seq<S> {
    if path == [] then [] else path[..|path| - 1]
  }

  /** What can be on disk under a directory. */
  ghost predicate Closed<S>(tree: Tree<S>) {
    forall p | p in tree :: p != [] && (|p| > 1 ==> Parent(p) in tree && tree[Parent(p)].Dir?)
  }

  /** filepath.Walk's order: every path once, each after its directory. */
  ghost predicate WalkOf<S(!new)>(tree: Tree<S>, walk: seq<seq<S>>) {
    && (forall p :: p in tree <==> exists i :: 0 <= i < |walk| && walk[i] == p)
    && (forall i, j | 0 <= i < j < |walk| :: walk[i] != walk[j])
    && (forall i | 0 <= i < |walk| && |walk[i]| > 1 :: exists j :: 0 <= j < i && walk[j] == Parent(walk[i]))
  }

  // ---- One entry ----

  /** Created with the process's umask. */
  function Created(umask: Mode, mode: Mode): Mode {
    mode & !umask
  }

  /** entryMode: permission bits only, and the owner's own always. */
  function EntryMode(mode: Mode, ownerBits: Mode): Mode {
    (mode & 0x1FF) | ownerBits
  }

  const OWNER_ALL: Mode := 0x1C0
  const OWNER_FILE: Mode := 0x180

  /** os.Root.MkdirAll. What is not a directory is in the way. */
  function MkdirAll<S(==)>(nodes: Tree<S>, path: seq<S>, mode: Mode): Option<Tree<S>> {
    if path == [] then Some(nodes)
    else
      match MkdirAll(nodes, path[..|path| - 1], mode)
      case None => None
      case Some(made) =>
        if path !in made then Some(made[path := Dir(mode)])
        else if made[path].Dir? then Some(made)
        else None
  }

  /** One kept entry, or None where extraction stops. What the entry may be is
      judged by the caller, by name and size. */
  function Put<S(==)>(umask: Mode, nodes: Tree<S>, path: seq<S>, node: Node, allowed: bool): Option<Tree<S>> {
    if path == [] then Some(nodes)
    else if node.Special? || node.Socket? then Some(nodes)
    else if node.Dir? then MkdirAll(nodes, path, Created(umask, EntryMode(node.mode, OWNER_ALL)))
    else if !allowed then None
    else
      match MkdirAll(nodes, Parent(path), Created(umask, OWNER_ALL))
      case None => None
      case Some(made) =>
        if path !in made then Some(made[path := Restored(umask, node)])
        else if node.Link? then Some(made)
        else if made[path].File? then Some(made[path := File(made[path].mode, node.content)])
        else None
  }

  /** What a node looks like once it has been packed and unpacked. */
  function Restored(umask: Mode, node: Node): Node {
    match node
    case Dir(mode) => Dir(Created(umask, EntryMode(mode, OWNER_ALL)))
    case File(mode, content) => File(Created(umask, EntryMode(mode, OWNER_FILE)), content)
    case _ => node
  }

  predicate Returns(node: Node) {
    node.Dir? || node.File? || node.Link?
  }

  // ---- Directories ----

  predicate Under<S(==)>(prefix: seq<S>, path: seq<S>) {
    prefix != [] && prefix <= path
  }

  lemma UnderSplit<S>(path: seq<S>)
    requires path != []
    ensures forall q :: Under(q, path) <==> Under(q, Parent(path)) || q == path
  {
    var up := Parent(path);
    forall q | Under(q, path) ensures Under(q, up) || q == path {
      if |q| < |path| { assert q == path[..|q|] == up[..|q|]; }
    }
  }

  /** Nothing but directories on the way to `path`. */
  ghost predicate Open<S(!new)>(nodes: Tree<S>, path: seq<S>) {
    forall q | Under(q, path) && q in nodes :: nodes[q].Dir?
  }

  /** Where nothing is in the way, MkdirAll adds what is missing and touches
      nothing else. */
  lemma {:induction false} MkdirAllAdds<S(!new)>(nodes: Tree<S>, path: seq<S>, mode: Mode)
    requires Open(nodes, path)
    ensures MkdirAll(nodes, path, mode).Some?
    ensures var made := MkdirAll(nodes, path, mode).value;
            && (forall q :: q in made <==> q in nodes || Under(q, path))
            && (forall q | q in nodes :: made[q] == nodes[q])
            && (forall q | q in made && q !in nodes :: made[q] == Dir(mode))
  {
    if path != [] {
      UnderSplit(path);
      MkdirAllAdds(nodes, Parent(path), mode);
    }
  }

  /** At `q`: the node added, or a directory on the way, or as before. */
  ghost predicate AddsAt<S>(umask: Mode, nodes: Tree<S>, after: Tree<S>, path: seq<S>, node: Node, q: seq<S>) {
    && (q in after <==> q in nodes || Under(q, path))
    && (q in nodes ==> after[q] == nodes[q])
    && (q == path && q in after ==> after[q] == Restored(umask, node))
    && (q in after && q !in nodes && q != path ==> after[q].Dir?)
  }

  /** One entry, where its path is free and the way to it open. */
  lemma PutAdds<S(!new)>(umask: Mode, nodes: Tree<S>, path: seq<S>, node: Node, allowed: bool)
    requires path != [] && Open(nodes, path) && path !in nodes && Returns(node)
    ensures Put(umask, nodes, path, node, allowed).Some? <==> allowed || node.Dir?
    ensures allowed || node.Dir? ==>
              var after := Put(umask, nodes, path, node, allowed).value;
              forall q :: AddsAt(umask, nodes, after, path, node, q)
  {
    UnderSplit(path);
    if node.Dir? {
      MkdirAllAdds(nodes, path, Created(umask, EntryMode(node.mode, OWNER_ALL)));
    } else {
      MkdirAllAdds(nodes, Parent(path), Created(umask, OWNER_ALL));
    }
  }

  /** Only an allowed link becomes one, and only where nothing was. */
  lemma PutLinks<S(!new)>(umask: Mode, nodes: Tree<S>, path: seq<S>, node: Node, allowed: bool)
    ensures var put := Put(umask, nodes, path, node, allowed);
            put.Some? ==> forall q | q in put.value && put.value[q].Link? ::
              (q in nodes && put.value[q] == nodes[q]) || (q == path && q != [] && allowed && put.value[q] == node)
  {
    MkdirAllLinks(nodes, path, Created(umask, EntryMode(if node.Dir? then node.mode else 0, OWNER_ALL)));
    MkdirAllLinks(nodes, Parent(path), Created(umask, OWNER_ALL));
  }

  lemma {:induction false} MkdirAllLinks<S(!new)>(nodes: Tree<S>, path: seq<S>, mode: Mode)
    ensures var made := MkdirAll(nodes, path, mode);
            made.Some? ==> forall q | q in made.value && !made.value[q].Dir? :: q in nodes && made.value[q] == nodes[q]
  {
    if path != [] { MkdirAllLinks(nodes, path[..|path| - 1], mode); }
  }

  lemma {:induction false} MkdirAllTouches<S(!new)>(nodes: Tree<S>, path: seq<S>, mode: Mode, q: seq<S>)
    requires !Under(q, path)
    ensures var made := MkdirAll(nodes, path, mode);
            made.Some? ==> (q in made.value <==> q in nodes) && (q in nodes ==> made.value[q] == nodes[q])
  {
    if path != [] {
      UnderSplit(path);
      MkdirAllTouches(nodes, path[..|path| - 1], mode, q);
      assert Under(path, path);
    }
  }

  /** Nothing off the way to the entry is touched. */
  lemma PutTouches<S(!new)>(umask: Mode, nodes: Tree<S>, path: seq<S>, node: Node, allowed: bool, q: seq<S>)
    requires !Under(q, path)
    ensures var put := Put(umask, nodes, path, node, allowed);
            put.Some? ==> (q in put.value <==> q in nodes) && (q in nodes ==> put.value[q] == nodes[q])
  {
    if path != [] {
      UnderSplit(path);
      MkdirAllTouches(nodes, path, Created(umask, EntryMode(if node.Dir? then node.mode else 0, OWNER_ALL)), q);
      MkdirAllTouches(nodes, Parent(path), Created(umask, OWNER_ALL), q);
      assert Under(path, path);
    }
  }

  // ---- The order ----

  ghost predicate Visited<S>(walk: seq<seq<S>>, k: nat, path: seq<S>)
    requires k <= |walk|
  {
    exists i :: 0 <= i < k && walk[i] == path
  }

  /** Every directory on the way to a path was visited before it. */
  lemma {:induction false} AncestorsFirst<S(!new)>(tree: Tree<S>, walk: seq<seq<S>>, i: nat, q: seq<S>)
    requires Closed(tree) && WalkOf(tree, walk) && i < |walk| && Under(q, walk[i]) && q != walk[i]
    ensures Visited(walk, i, q) && q in tree && tree[q].Dir?
    decreases |walk[i]|
  {
    var path := walk[i];
    assert path in tree;
    UnderSplit(path);
    var j :| 0 <= j < i && walk[j] == Parent(path);
    if q != Parent(path) {
      AncestorsFirst(tree, walk, j, q);
    }
  }

  // ---- Entry by entry ----

  /** What is asked for and what may come, by path. */
  datatype Choice<!S> = Choice(keep: seq<S> -> bool, allowed: seq<S> -> bool)

  ghost predicate Done<S>(tree: Tree<S>, walk: seq<seq<S>>, choice: Choice<S>, k: nat, path: seq<S>)
    requires k <= |walk|
  {
    Visited(walk, k, path) && path in tree && choice.keep(path) && Returns(tree[path])
  }

  ghost predicate OnTheWay<S>(tree: Tree<S>, walk: seq<seq<S>>, choice: Choice<S>, k: nat, path: seq<S>)
    requires k <= |walk|
  {
    exists i :: 0 <= i < k && Under(path, walk[i]) && Done(tree, walk, choice, k, walk[i])
  }

  /** The directory after `k` entries: every kept node as it was but for its
      mode, and the bare directories leading to them. */
  ghost predicate Holds<S(!new)>(umask: Mode, tree: Tree<S>, walk: seq<seq<S>>, choice: Choice<S>, k: nat, nodes: Tree<S>)
    requires k <= |walk|
  {
    forall p :: HoldsAt(umask, tree, walk, choice, k, nodes, p)
  }

  ghost predicate HoldsAt<S>(
    umask: Mode, tree: Tree<S>, walk: seq<seq<S>>, choice: Choice<S>, k: nat, nodes: Tree<S>, p: seq<S>)
    requires k <= |walk|
  {
    && (p in nodes <==> OnTheWay(tree, walk, choice, k, p))
    && (Done(tree, walk, choice, k, p) ==> p in nodes && nodes[p] == Restored(umask, tree[p]))
    && (p in nodes && !Done(tree, walk, choice, k, p) ==> nodes[p].Dir?)
  }

  lemma FreeAndOpen<S(!new)>(umask: Mode, tree: Tree<S>, walk: seq<seq<S>>, choice: Choice<S>, k: nat, nodes: Tree<S>)
    requires Closed(tree) && WalkOf(tree, walk) && k < |walk| && Holds(umask, tree, walk, choice, k, nodes)
    ensures walk[k] !in nodes && Open(nodes, walk[k])
  {
    var path := walk[k];
    assert HoldsAt(umask, tree, walk, choice, k, nodes, path);
    if OnTheWay(tree, walk, choice, k, path) {
      var i :| 0 <= i < k && Under(path, walk[i]) && Done(tree, walk, choice, k, walk[i]);
      AncestorsFirst(tree, walk, i, path);
      assert false;
    }
    forall q | Under(q, path) && q in nodes ensures nodes[q].Dir? {
      AncestorsFirst(tree, walk, k, q);
      assert HoldsAt(umask, tree, walk, choice, k, nodes, q);
    }
  }

  lemma DoneNext<S(!new)>(tree: Tree<S>, walk: seq<seq<S>>, choice: Choice<S>, k: nat, p: seq<S>)
    requires k < |walk| && walk[k] in tree
    ensures Done(tree, walk, choice, k + 1, p) <==>
            Done(tree, walk, choice, k, p) || (p == walk[k] && choice.keep(p) && Returns(tree[p]))
  {
    if Visited(walk, k, p) {
      var i :| 0 <= i < k && walk[i] == p;
      assert Visited(walk, k + 1, p);
    }
    if p == walk[k] { assert Visited(walk, k + 1, p); }
  }

  lemma OnTheWayNext<S(!new)>(tree: Tree<S>, walk: seq<seq<S>>, choice: Choice<S>, k: nat, p: seq<S>)
    requires k < |walk| && walk[k] in tree
    ensures OnTheWay(tree, walk, choice, k + 1, p) <==>
            OnTheWay(tree, walk, choice, k, p) ||
            (Under(p, walk[k]) && choice.keep(walk[k]) && Returns(tree[walk[k]]))
  {
    if OnTheWay(tree, walk, choice, k, p) {
      var i :| 0 <= i < k && Under(p, walk[i]) && Done(tree, walk, choice, k, walk[i]);
      DoneNext(tree, walk, choice, k, walk[i]);
    }
    DoneNext(tree, walk, choice, k, walk[k]);
    if OnTheWay(tree, walk, choice, k + 1, p) {
      var i :| 0 <= i < k + 1 && Under(p, walk[i]) && Done(tree, walk, choice, k + 1, walk[i]);
      DoneNext(tree, walk, choice, k, walk[i]);
      if i < k { assert Visited(walk, k, walk[i]); }
    }
  }

  /** A kept entry is put exactly when it is allowed, and leaves the directory
      as it should be one entry later. */
  lemma KeptStep<S(!new)>(umask: Mode, tree: Tree<S>, walk: seq<seq<S>>, choice: Choice<S>, k: nat, nodes: Tree<S>)
    requires Closed(tree) && WalkOf(tree, walk) && k < |walk| && Holds(umask, tree, walk, choice, k, nodes)
    requires walk[k] in tree && choice.keep(walk[k]) && Returns(tree[walk[k]])
    ensures var put := Put(umask, nodes, walk[k], tree[walk[k]], choice.allowed(walk[k]));
            && (put.Some? <==> choice.allowed(walk[k]) || tree[walk[k]].Dir?)
            && (put.Some? ==> Holds(umask, tree, walk, choice, k + 1, put.value))
  {
    var path := walk[k];
    FreeAndOpen(umask, tree, walk, choice, k, nodes);
    PutAdds(umask, nodes, path, tree[path], choice.allowed(path));
    if choice.allowed(path) || tree[path].Dir? {
      var after := Put(umask, nodes, path, tree[path], choice.allowed(path)).value;
      var next := k + 1;
      forall p ensures HoldsAt(umask, tree, walk, choice, next, after, p) {
        assert HoldsAt(umask, tree, walk, choice, k, nodes, p);
        assert AddsAt(umask, nodes, after, path, tree[path], p);
        KeptStepAt(umask, tree, walk, choice, k, nodes, after, p);
      }
    }
  }

  lemma KeptStepAt<S(!new)>(
    umask: Mode, tree: Tree<S>, walk: seq<seq<S>>, choice: Choice<S>, k: nat,
    nodes: Tree<S>, after: Tree<S>, p: seq<S>)
    requires k < |walk| && HoldsAt(umask, tree, walk, choice, k, nodes, p)
    requires walk[k] in tree && choice.keep(walk[k]) && Returns(tree[walk[k]]) && walk[k] !in nodes
    requires walk[k] != [] && AddsAt(umask, nodes, after, walk[k], tree[walk[k]], p)
    ensures HoldsAt(umask, tree, walk, choice, k + 1, after, p)
  {
    OnTheWayNext(tree, walk, choice, k, p);
    DoneNext(tree, walk, choice, k, p);
  }

  lemma OtherStep<S(!new)>(umask: Mode, tree: Tree<S>, walk: seq<seq<S>>, choice: Choice<S>, k: nat, nodes: Tree<S>)
    requires k < |walk| && walk[k] in tree && Holds(umask, tree, walk, choice, k, nodes)
    requires !choice.keep(walk[k]) || !Returns(tree[walk[k]])
    ensures Holds(umask, tree, walk, choice, k + 1, nodes)
  {
    var next := k + 1;
    forall p ensures HoldsAt(umask, tree, walk, choice, next, nodes, p) {
      assert HoldsAt(umask, tree, walk, choice, k, nodes, p);
      OnTheWayNext(tree, walk, choice, k, p);
      DoneNext(tree, walk, choice, k, p);
    }
  }

  /** The regular files put so far. */
  ghost function Regular<S(!new)>(tree: Tree<S>, walk: seq<seq<S>>, choice: Choice<S>, k: nat): set<seq<S>>
    requires k <= |walk|
  {
    set p | p in tree && choice.keep(p) && tree[p].File? && Visited(walk, k, p)
  }

  lemma VisitedNext<S>(walk: seq<seq<S>>, k: nat, p: seq<S>)
    requires k < |walk|
    ensures Visited(walk, k + 1, p) <==> Visited(walk, k, p) || p == walk[k]
  {
    if Visited(walk, k, p) {
      var i :| 0 <= i < k && walk[i] == p;
      assert Visited(walk, k + 1, p);
    }
    if p == walk[k] { assert Visited(walk, k + 1, p); }
  }

  lemma RegularNext<S(!new)>(tree: Tree<S>, walk: seq<seq<S>>, choice: Choice<S>, k: nat)
    requires k < |walk| && walk[k] in tree && !Visited(walk, k, walk[k])
    ensures |Regular(tree, walk, choice, k + 1)| == |Regular(tree, walk, choice, k)| +
            if choice.keep(walk[k]) && tree[walk[k]].File? then 1 else 0
  {
    var path := walk[k];
    var added := if choice.keep(path) && tree[path].File? then {path} else {};
    var before, after := Regular(tree, walk, choice, k), Regular(tree, walk, choice, k + 1);
    forall p ensures p in after <==> p in before || p in added {
      VisitedNext(walk, k, p);
    }
    assert after == before + added;
  }

  ghost function Files<S(!new)>(tree: Tree<S>, choice: Choice<S>): set<seq<S>> {
    set p | p in tree && choice.keep(p) && tree[p].File?
  }

  // ---- At the end ----

  lemma VisitedAll<S(!new)>(tree: Tree<S>, walk: seq<seq<S>>)
    requires WalkOf(tree, walk)
    ensures forall p :: Visited(walk, |walk|, p) <==> p in tree
  {
    forall p | p in tree ensures Visited(walk, |walk|, p) {
      var i :| 0 <= i < |walk| && walk[i] == p;
    }
  }

  lemma RegularAll<S(!new)>(tree: Tree<S>, walk: seq<seq<S>>, choice: Choice<S>)
    requires WalkOf(tree, walk)
    ensures Regular(tree, walk, choice, |walk|) == Files(tree, choice)
  {
    VisitedAll(tree, walk);
  }

  ghost predicate Wanted<S>(tree: Tree<S>, choice: Choice<S>, p: seq<S>) {
    p in tree && choice.keep(p) && Returns(tree[p])
  }

  /** At `p`: the tree cut down to what was wanted and to the directories
      leading there. */
  ghost predicate IsRestriction<S(!new)>(umask: Mode, tree: Tree<S>, choice: Choice<S>, nodes: Tree<S>, p: seq<S>) {
    && (p in nodes <==> exists q :: Wanted(tree, choice, q) && Under(p, q))
    && (Wanted(tree, choice, p) ==> p in nodes && nodes[p] == Restored(umask, tree[p]))
    && (p in nodes && !Wanted(tree, choice, p) ==> nodes[p].Dir? && p in tree && tree[p].Dir?)
  }

  lemma RestrictedAt<S(!new)>(
    umask: Mode, tree: Tree<S>, walk: seq<seq<S>>, choice: Choice<S>, nodes: Tree<S>, p: seq<S>)
    requires Closed(tree) && WalkOf(tree, walk) && Holds(umask, tree, walk, choice, |walk|, nodes)
    ensures IsRestriction(umask, tree, choice, nodes, p)
  {
    var n := |walk|;
    VisitedAll(tree, walk);
    assert HoldsAt(umask, tree, walk, choice, n, nodes, p);
    if OnTheWay(tree, walk, choice, n, p) {
      var i :| 0 <= i < n && Under(p, walk[i]) && Done(tree, walk, choice, n, walk[i]);
      assert Wanted(tree, choice, walk[i]);
      if p != walk[i] { AncestorsFirst(tree, walk, i, p); }
    }
    if q :| Wanted(tree, choice, q) && Under(p, q) {
      var i :| 0 <= i < n && walk[i] == q;
      assert Done(tree, walk, choice, n, walk[i]);
    }
  }

  ghost function RestoredTree<S(!new)>(umask: Mode, tree: Tree<S>): Tree<S> {
    map p | p in tree && Returns(tree[p]) :: Restored(umask, tree[p])
  }

  /** Asked for everything, the restriction is the tree. */
  lemma WholeTree<S(!new)>(umask: Mode, tree: Tree<S>, choice: Choice<S>, nodes: Tree<S>)
    requires Closed(tree) && forall p :: IsRestriction(umask, tree, choice, nodes, p)
    requires forall p | p in tree :: choice.keep(p)
    ensures nodes == RestoredTree(umask, tree)
  {
    var whole := RestoredTree(umask, tree);
    forall p
      ensures p in nodes <==> p in whole
      ensures p in nodes ==> nodes[p] == whole[p]
    {
      assert IsRestriction(umask, tree, choice, nodes, p);
      if p in whole { assert Under(p, p); }
    }
  }
}
