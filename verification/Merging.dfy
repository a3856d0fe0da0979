/** Several granular requests made into one
    (internal/granular/granular.go:284-330), whatever a single one needs. */
module Merging {
  import opened NodeStore

  /** Snapshot paths, members of the metadata archive, and that archive. */
  datatype Needs = Needs(paths: seq<string>, members: seq<string>, metadata: string)

  /** addNew: what was there, then each new value once. */
  method AddNew(have: seq<string>, more: seq<string>) returns (all: seq<string>)
    ensures all == Merge(have, more)
  {
    all := have;
    for i := 0 to |more|
      invariant all == Merge(have, more[..i])
    {
      assert more[..i + 1][..i] == more[..i];
      var found := false;
      for j := 0 to |all|
        invariant found <==> more[i] in all[..j]
      {
        assert all[..j + 1] == all[..j] + [all[j]];
        if all[j] == more[i] {
          found := true;
        }
      }
      assert all[..|all|] == all;
      if !found {
        all := all + [more[i]];
      }
    }
    assert more[..|more|] == more;
  }

  function Merge(have: seq<string>, more: seq<string>): seq<string> {
    if more == [] then have
    else
      var before, last := Merge(have, more[..|more| - 1]), more[|more| - 1];
      if last in before then before else before + [last]
  }

  lemma {:induction false} MergeIsUnion(have: seq<string>, more: seq<string>)
    requires Distinct(have)
    ensures Distinct(Merge(have, more)) && have <= Merge(have, more)
    ensures forall v :: v in Merge(have, more) <==> v in have || v in more
  {
    if more != [] {
      MergeIsUnion(have, more[..|more| - 1]);
      assert more == more[..|more| - 1] + [more[|more| - 1]];
    }
  }

  const NO_NEEDS := Needs([], [], "")

  function Together(merged: Needs, needs: Needs): Needs {
    Needs(
      Merge(merged.paths, needs.paths), Merge(merged.members, needs.members),
      if needs.metadata != "" then needs.metadata else merged.metadata)
  }

  /** A request turned into what it needs, if it can be. */
  type Builder<!A> = A -> Option<Needs>

  function Gathered<A>(asks: seq<A>, build: Builder<A>): Option<Needs> {
    if asks == [] then Some(NO_NEEDS)
    else
      match Gathered(asks[..|asks| - 1], build)
      case None => None
      case Some(merged) =>
        match build(asks[|asks| - 1])
        case None => None
        case Some(needs) => Some(Together(merged, needs))
  }

  lemma {:induction false} RefusedStays<A>(asks: seq<A>, build: Builder<A>, n: nat)
    requires n <= |asks| && Gathered(asks[..n], build).None?
    ensures Gathered(asks, build).None?
  {
    if n == |asks| {
      assert asks[..n] == asks;
    } else {
      assert asks[..|asks| - 1][..n] == asks[..n];
      RefusedStays(asks[..|asks| - 1], build, n);
    }
  }

  /** The loop of BuildAll (internal/granular/granular.go:292-308). */
  method Gather<A>(asks: seq<A>, build: Builder<A>) returns (needs: Option<Needs>)
    ensures needs == Gathered(asks, build)
  {
    var merged := NO_NEEDS;
    for i := 0 to |asks|
      invariant Gathered(asks[..i], build) == Some(merged)
    {
      assert asks[..i + 1][..i] == asks[..i];
      var plan := build(asks[i]);
      if plan.None? {
        RefusedStays(asks, build, i + 1);
        return None;
      }
      var paths := AddNew(merged.paths, plan.value.paths);
      var members := AddNew(merged.members, plan.value.members);
      merged := Needs(paths, members, if plan.value.metadata != "" then plan.value.metadata else merged.metadata);
    }
    assert asks[..|asks|] == asks;
    return Some(merged);
  }

  ghost predicate NeedsPath<A>(build: Builder<A>, ask: A, p: string) {
    build(ask).Some? && p in build(ask).value.paths
  }

  ghost predicate NeedsMember<A>(build: Builder<A>, ask: A, m: string) {
    build(ask).Some? && m in build(ask).value.members
  }

  ghost predicate Any<A>(s: seq<A>, f: A -> bool) {
    exists i :: 0 <= i < |s| && f(s[i])
  }

  ghost predicate AllBuild<A>(asks: seq<A>, build: Builder<A>) {
    forall i | 0 <= i < |asks| :: build(asks[i]).Some?
  }

  /** All of the requests or none. */
  lemma {:induction false} AllOrNothing<A>(asks: seq<A>, build: Builder<A>)
    ensures Gathered(asks, build).Some? <==> AllBuild(asks, build)
  {
    if asks != [] {
      var rest := asks[..|asks| - 1];
      AllOrNothing(rest, build);
      assert forall i | 0 <= i < |rest| :: rest[i] == asks[i];
    }
  }

  /** The metadata archive is named exactly when some request needs it, and is
      the one such a request names. */
  lemma {:induction false} GatheredMetadata<A>(asks: seq<A>, build: Builder<A>)
    ensures Gathered(asks, build).Some? ==>
              var metadata := Gathered(asks, build).value.metadata;
              && (|metadata| > 0 <==> Any(asks, (ask: A) => NamesMetadata(build, ask)))
              && (|metadata| > 0 ==> Any(asks, (ask: A) => build(ask).Some? && build(ask).value.metadata == metadata))
  {
    if asks != [] && Gathered(asks, build).Some? {
      var rest, last := asks[..|asks| - 1], asks[|asks| - 1];
      GatheredMetadata(rest, build);
      AnyLast(asks, (ask: A) => NamesMetadata(build, ask));
      var metadata := Gathered(asks, build).value.metadata;
      AnyLast(asks, (ask: A) => build(ask).Some? && build(ask).value.metadata == metadata);
    }
  }

  lemma AnyLast<A>(s: seq<A>, f: A -> bool)
    requires s != []
    ensures Any(s, f) <==> Any(s[..|s| - 1], f) || f(s[|s| - 1])
  {
    var rest := s[..|s| - 1];
    if i :| 0 <= i < |rest| && f(rest[i]) { assert f(s[i]); }
    if i :| 0 <= i < |s| && f(s[i]) {
      if i < |rest| { assert f(rest[i]); }
    }
  }

  ghost predicate NamesMetadata<A>(build: Builder<A>, ask: A) {
    build(ask).Some? && |build(ask).value.metadata| > 0
  }

  /** Each path and member once, and exactly those some request needs. */
  lemma {:induction false} GatheredIsUnion<A>(asks: seq<A>, build: Builder<A>, v: string)
    ensures Gathered(asks, build).Some? ==>
            var needs := Gathered(asks, build).value;
            && Distinct(needs.paths) && Distinct(needs.members)
            && (v in needs.paths <==> Any(asks, (ask: A) => NeedsPath(build, ask, v)))
            && (v in needs.members <==> Any(asks, (ask: A) => NeedsMember(build, ask, v)))
  {
    if asks != [] && Gathered(asks, build).Some? {
      var rest, last := asks[..|asks| - 1], asks[|asks| - 1];
      GatheredIsUnion(rest, build, v);
      var before, needs := Gathered(rest, build).value, build(last).value;
      MergeIsUnion(before.paths, needs.paths);
      MergeIsUnion(before.members, needs.members);
    }
  }
}
