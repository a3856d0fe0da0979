/** The exact policy set cover (internal/node/removal.go:214-350): a
    branch-and-bound search over mutable state, seeded by a greedy cover. */
module PolicyCover {
  import opened NodeStore

  // ---- What the caller is promised, in terms of its own list of policies ----

  /** Every missing repository is written by one of the picked policies. */
  ghost predicate CoversAll(policies: seq<Policy>, picks: set<nat>, missing: seq<string>) {
    && (forall i | i in picks :: i < |policies|)
    && (forall r | r in missing :: exists i | i in picks :: r in policies[i].repositoryIds)
  }

  /** `chosen` lists the policies at some distinct positions. */
  ghost predicate Selects(policies: seq<Policy>, picks: seq<nat>, chosen: seq<Policy>) {
    && |picks| == |chosen|
    && Distinct(picks)
    && (forall k | 0 <= k < |picks| :: picks[k] < |policies| && chosen[k] == policies[picks[k]])
  }

  /** Nothing when nothing is missing or no subset of the policies covers it;
      otherwise a cover with no more policies than any other covering subset. */
  ghost predicate IsMinimumCover(missing: seq<string>, policies: seq<Policy>, chosen: seq<Policy>) {
    && (chosen == [] <==> missing == [] || forall s: set<nat> :: !CoversAll(policies, s, missing))
    && (chosen != [] ==>
          && (exists picks: seq<nat> ::
                Selects(policies, picks, chosen) && CoversAll(policies, Elements(picks), missing))
          && (forall s: set<nat> | CoversAll(policies, s, missing) :: |chosen| <= |s|))
  }

  ghost function Positions(n: nat): (s: set<nat>)
    ensures forall i: nat :: i in s <==> i < n
    ensures |s| == n
  {
    if n == 0 then {} else Positions(n - 1) + {n - 1}
  }

  /** A cover exists exactly when every missing repository is on some policy,
      so an empty answer names a destination nobody writes to. */
  lemma CoverExists(missing: seq<string>, policies: seq<Policy>)
    ensures (exists s: set<nat> :: CoversAll(policies, s, missing))
       <==> (forall r | r in missing :: exists p | p in policies :: r in p.repositoryIds)
  {
    if forall r | r in missing :: exists p | p in policies :: r in p.repositoryIds {
      var all := Positions(|policies|);
      assert CoversAll(policies, all, missing) by {
        forall r | r in missing ensures exists i | i in all :: r in policies[i].repositoryIds {
          var p :| p in policies && r in p.repositoryIds;
          var i: nat :| i < |policies| && policies[i] == p;
          assert i in all;
        }
      }
    }
  }

  // ---- The search ----

  /** A policy and the wanted repositories it writes, each once. */
  datatype Candidate = Candidate(policy: Policy, repositories: seq<string>)

  ghost predicate ValidCandidates(wanted: set<string>, candidates: seq<Candidate>) {
    forall i | 0 <= i < |candidates| ::
      Distinct(candidates[i].repositories) && Elements(candidates[i].repositories) <= wanted
  }

  ghost predicate Reached(candidates: seq<Candidate>, picks: set<nat>, r: string) {
    exists i | i in picks :: i < |candidates| && r in candidates[i].repositories
  }

  ghost predicate Covers(wanted: set<string>, candidates: seq<Candidate>, picks: set<nat>) {
    && (forall i | i in picks :: i < |candidates|)
    && (forall r | r in wanted :: Reached(candidates, picks, r))
  }

  /** `policies` are the candidates at distinct positions `picks`. */
  ghost predicate Taken(candidates: seq<Candidate>, picks: seq<nat>, policies: seq<Policy>) {
    && |picks| == |policies|
    && Distinct(picks)
    && (forall k | 0 <= k < |picks| :: picks[k] < |candidates| && policies[k] == candidates[picks[k]].policy)
  }

  /** How many of the selected candidates write to a repository. */
  ghost function Count(candidates: seq<Candidate>, selected: seq<nat>, r: string): nat
    requires InRange(selected, |candidates|)
  {
    if selected == [] then 0
    else
      var last := selected[|selected| - 1];
      Count(candidates, selected[..|selected| - 1], r) + (if r in candidates[last].repositories then 1 else 0)
  }

  lemma {:induction false} CountIsZero(candidates: seq<Candidate>, selected: seq<nat>, r: string)
    requires InRange(selected, |candidates|)
    ensures Count(candidates, selected, r) == 0 <==> !Reached(candidates, Elements(selected), r)
  {
    if selected != [] {
      var front, last := selected[..|selected| - 1], selected[|selected| - 1];
      CountIsZero(candidates, front, r);
      assert selected == front + [last];
      ElementsAppend(front, last);
    }
  }

  /** Go reads an absent key as zero. */
  function Get(m: map<string, int>, r: string): int {
    if r in m then m[r] else 0
  }

  method Contains(values: seq<string>, wanted: string) returns (found: bool)
    ensures found <==> wanted in values
  {
    for i := 0 to |values|
      invariant wanted !in values[..i]
    {
      if values[i] == wanted {
        return true;
      }
    }
    return false;
  }

  /** The state minimumPolicyCover's recursive closure captures and mutates. */
  class CoverSearch {
    const wanted: set<string>
    const candidates: seq<Candidate>
    var covered: map<string, int>
    const chosen: array<bool>
    var selected: seq<nat>
    var best: seq<Policy>
    ghost var bestPicks: seq<nat>

    constructor (wanted: set<string>, candidates: seq<Candidate>, best: seq<Policy>, ghost bestPicks: seq<nat>)
      requires ValidCandidates(wanted, candidates)
      requires Taken(candidates, bestPicks, best) && Covers(wanted, candidates, Elements(bestPicks))
      ensures Valid() && fresh(chosen)
      ensures this.wanted == wanted && this.candidates == candidates
      ensures this.best == best && selected == []
    {
      this.wanted, this.candidates := wanted, candidates;
      covered, selected := map[], [];
      chosen := new bool[|candidates|](_ => false);
      this.best, this.bestPicks := best, bestPicks;
    }

    ghost predicate Valid()
      reads this, chosen
    {
      && ValidCandidates(wanted, candidates)
      && chosen.Length == |candidates|
      && Distinct(selected)
      && InRange(selected, |candidates|)
      && (forall i | 0 <= i < |candidates| :: chosen[i] <==> i in selected)
      && (forall r :: Get(covered, r) == Count(candidates, selected, r))
      && Taken(candidates, bestPicks, best)
      && Covers(wanted, candidates, Elements(bestPicks))
    }

    /** Marks one candidate as taken and counts its repositories. */
    method Take(index: nat)
      requires Valid() && index < |candidates| && !chosen[index]
      modifies this`covered, this`selected, chosen
      ensures Valid() && selected == old(selected) + [index]
    {
      chosen[index] := true;
      selected := selected + [index];
      var repositories := candidates[index].repositories;
      for k := 0 to |repositories|
        invariant selected == old(selected) + [index]
        invariant forall i | 0 <= i < chosen.Length :: chosen[i] == (old(chosen[i]) || i == index)
        invariant forall r :: Get(covered, r) == Get(old(covered), r) + (if r in repositories[..k] then 1 else 0)
      {
        covered := covered[repositories[k] := Get(covered, repositories[k]) + 1];
      }
      assert repositories[..|repositories|] == repositories;
      assert selected[..|selected| - 1] == old(selected);
      assert forall i: nat :: i in selected <==> i in old(selected) || i == index;
    }

    /** Undoes the last Take. */
    method Release()
      requires Valid() && selected != []
      modifies this`covered, this`selected, chosen
      ensures Valid() && selected == old(selected)[..|old(selected)| - 1]
    {
      var index := selected[|selected| - 1];
      var repositories := candidates[index].repositories;
      for k := 0 to |repositories|
        invariant selected == old(selected)
        invariant forall i | 0 <= i < chosen.Length :: chosen[i] == old(chosen[i])
        invariant forall r :: Get(covered, r) == Get(old(covered), r) - (if r in repositories[..k] then 1 else 0)
      {
        covered := covered[repositories[k] := Get(covered, repositories[k]) - 1];
      }
      assert repositories[..|repositories|] == repositories;
      selected := selected[..|selected| - 1];
      chosen[index] := false;
      assert old(selected) == selected + [index];
      assert forall i: nat :: i in old(selected) <==> i in selected || i == index;
    }

    /** Whether every wanted repository is covered already. */
    method AllCovered() returns (all: bool)
      requires Valid()
      ensures all <==> Covers(wanted, candidates, Elements(selected))
    {
      var todo := wanted;
      while todo != {}
        invariant todo <= wanted
        invariant forall r | r in wanted - todo :: Reached(candidates, Elements(selected), r)
      {
        var r :| r in todo;
        CountIsZero(candidates, selected, r);
        if Get(covered, r) == 0 {
          return false;
        }
        todo := todo - {r};
      }
      return true;
    }

    /** The candidates not yet chosen that write to a repository. */
    method Available(r: string) returns (available: seq<nat>)
      requires Valid()
      ensures forall i: nat :: i in available <==> i < |candidates| && i !in selected && r in candidates[i].repositories
    {
      available := [];
      for index := 0 to |candidates|
        invariant forall i: nat :: i in available <==> i < index && i !in selected && r in candidates[i].repositories
      {
        var here := Contains(candidates[index].repositories, r);
        if chosen[index] || !here {
          continue;
        }
        available := available + [index];
      }
    }

    /** The uncovered repository with the fewest policies left, and those
        policies. `dead` says some uncovered repository has none. */
    method Branch() returns (dead: bool, pick: string, options: seq<nat>)
      requires Valid() && !Covers(wanted, candidates, Elements(selected))
      ensures dead ==> forall t | Elements(selected) <= t :: !Covers(wanted, candidates, t)
      ensures !dead ==> pick in wanted && !Reached(candidates, Elements(selected), pick)
      ensures !dead ==> forall i: nat :: i in options <==>
                          i < |candidates| && i !in selected && pick in candidates[i].repositories
    {
      pick, options := "", [];
      var todo := wanted;
      ghost var picked := false;
      while todo != {}
        invariant todo <= wanted
        invariant !picked ==> pick == "" && forall r | r in wanted - todo :: Reached(candidates, Elements(selected), r)
        invariant picked ==> pick in wanted && !Reached(candidates, Elements(selected), pick)
        invariant picked ==> forall i: nat :: i in options <==>
                               i < |candidates| && i !in selected && pick in candidates[i].repositories
      {
        var r :| r in todo;
        todo := todo - {r};
        CountIsZero(candidates, selected, r);
        if Get(covered, r) > 0 {
          continue;
        }
        var available := Available(r);
        if |available| == 0 {
          DeadEnd(r);
          return true, pick, options;
        }
        if pick == "" || |available| < |options| {
          pick, options, picked := r, available, true;
        }
      }
      dead := false;
    }

    /** An uncovered repository no remaining candidate writes to dooms every
        extension of the selection. */
    lemma DeadEnd(r: string)
      requires r in wanted && !Reached(candidates, Elements(selected), r)
      requires forall i: nat | i < |candidates| && i !in selected :: r !in candidates[i].repositories
      ensures forall t | Elements(selected) <= t :: !Covers(wanted, candidates, t)
    {
      forall t | Elements(selected) <= t ensures !Covers(wanted, candidates, t) {
        assert !Reached(candidates, t, r);
      }
    }

    /** No cover extending the selection is smaller than n. */
    ghost predicate NoSmaller(selection: seq<nat>, n: nat) {
      forall t | Elements(selection) <= t && Covers(wanted, candidates, t) :: n <= |t|
    }

    /** The selection itself, and one more when it does not cover, bound from
        below the size of every cover extending it. */
    lemma SelectionBounds()
      requires Valid()
      ensures NoSmaller(selected, |selected|)
      ensures !Covers(wanted, candidates, Elements(selected)) ==> NoSmaller(selected, |selected| + 1)
    {
      DistinctCardinality(selected);
      forall t | Elements(selected) <= t && Covers(wanted, candidates, t)
        ensures |selected| <= |t|
        ensures t != Elements(selected) ==> |selected| + 1 <= |t|
      {
        SubsetCardinality(Elements(selected), t);
      }
    }

    /** Trying every option that reaches an uncovered repository is enough. */
    lemma BranchesComplete(pick: string, options: seq<nat>, n: nat)
      requires Valid() && pick in wanted && !Reached(candidates, Elements(selected), pick)
      requires forall i: nat :: i in options <==>
                 i < |candidates| && i !in selected && pick in candidates[i].repositories
      requires forall j | 0 <= j < |options| :: NoSmaller(selected + [options[j]], n)
      ensures NoSmaller(selected, n)
    {
      forall t | Elements(selected) <= t && Covers(wanted, candidates, t) ensures n <= |t| {
        assert Reached(candidates, t, pick);
        var i :| i in t && i < |candidates| && pick in candidates[i].repositories;
        assert i in options;
        var j :| 0 <= j < |options| && options[j] == i;
        ElementsAppend(selected, i);
        assert NoSmaller(selected + [options[j]], n);
      }
    }

    /** The better answer, once every repository is covered. */
    method Keep()
      requires Valid() && Covers(wanted, candidates, Elements(selected))
      modifies this`best, this`bestPicks
      ensures Valid()
      ensures |best| <= |old(best)| && |best| <= |selected|
    {
      if |selected| < |best| {
        best, bestPicks := [], selected;
        for k := 0 to |selected|
          invariant bestPicks == selected && |best| == k
          invariant forall j | 0 <= j < k :: best[j] == candidates[selected[j]].policy
        {
          best := best + [candidates[selected[k]].policy];
        }
      }
    }

    lemma Weaken(selection: seq<nat>, m: nat, n: nat)
      requires m <= n && NoSmaller(selection, n)
      ensures NoSmaller(selection, m)
    {
    }

    /** A candidate is taken at most once, which is what ends the recursion. */
    lemma SelectionFits()
      requires Valid()
      ensures |selected| <= |candidates|
    {
      DistinctCardinality(selected);
      SubsetCardinality(Elements(selected), Positions(|candidates|));
    }

    /** Whether a candidate is marked follows from the selection alone. */
    twostate lemma ChosenRestored()
      requires old(Valid()) && Valid() && selected == old(selected)
      ensures chosen[..] == old(chosen[..])
      ensures forall r :: Get(covered, r) == Get(old(covered), r)
    {
    }

    /** Leaves in `best` an answer no larger than any cover extending the
        selection, and everything else as it was found. */
    method Search()
      requires Valid()
      modifies this`covered, this`selected, this`best, this`bestPicks, chosen
      ensures Valid()
      ensures selected == old(selected) && chosen[..] == old(chosen[..])
      ensures forall r :: Get(covered, r) == Get(old(covered), r)
      ensures |best| <= |old(best)| && NoSmaller(selected, |best|)
      decreases |candidates| - |selected|, 2
    {
      SelectionBounds();
      var all := AllCovered();
      if all {
        Keep();
        Weaken(selected, |best|, |selected|);
        return;
      }
      if |selected| + 1 >= |best| {
        Weaken(selected, |best|, |selected| + 1);
        return;
      }
      var dead, pick, options := Branch();
      if dead {
        return;
      }
      TryAll(pick, options);
      ChosenRestored();
    }

    /** Searches every option that reaches an uncovered repository. */
    method TryAll(pick: string, options: seq<nat>)
      requires Valid() && pick in wanted && !Reached(candidates, Elements(selected), pick)
      requires forall i: nat :: i in options <==>
                 i < |candidates| && i !in selected && pick in candidates[i].repositories
      modifies this`covered, this`selected, this`best, this`bestPicks, chosen
      ensures Valid() && selected == old(selected)
      ensures |best| <= |old(best)| && NoSmaller(selected, |best|)
      decreases |candidates| - |selected|, 1
    {
      for k := 0 to |options|
        invariant Valid() && selected == old(selected)
        invariant |best| <= |old(best)|
        invariant forall j | 0 <= j < k :: NoSmaller(selected + [options[j]], |best|)
      {
        ghost var bound := |best|;
        assert options[k] in options;
        TryOption(options[k]);
        forall j | 0 <= j < k ensures NoSmaller(selected + [options[j]], |best|) {
          Weaken(selected + [options[j]], |best|, bound);
        }
      }
      BranchesComplete(pick, options, |best|);
    }

    /** Searches with one more candidate and takes it back. */
    method TryOption(index: nat)
      requires Valid() && index < |candidates| && index !in selected
      modifies this`covered, this`selected, this`best, this`bestPicks, chosen
      ensures Valid() && selected == old(selected)
      ensures |best| <= |old(best)| && NoSmaller(selected + [index], |best|)
      decreases |candidates| - |selected|, 0
    {
      Take(index);
      SelectionFits();
      Search();
      assert NoSmaller(old(selected) + [index], |best|);
      Release();
      assert selected == old(selected);
    }
  }

  // ---- The seed and the whole procedure ----

  /** Which of a candidate's repositories are not covered yet. */
  method Gain(repositories: seq<string>, covered: set<string>) returns (added: nat)
    ensures added == 0 <==> Elements(repositories) <= covered
  {
    added := 0;
    for k := 0 to |repositories|
      invariant added == 0 <==> forall j | 0 <= j < k :: repositories[j] in covered
    {
      if repositories[k] !in covered {
        added := added + 1;
      }
    }
  }

  /** The unused candidate that adds the most, or -1 when none adds anything. */
  method MostGain(candidates: seq<Candidate>, used: array<bool>, covered: set<string>) returns (best: int)
    requires used.Length == |candidates|
    ensures -1 <= best < |candidates|
    ensures best >= 0 ==> !used[best] && exists r | r in candidates[best].repositories :: r !in covered
    ensures best < 0 ==> forall i | 0 <= i < |candidates| && !used[i] :: Elements(candidates[i].repositories) <= covered
  {
    best := -1;
    var gain := 0;
    for index := 0 to |candidates|
      invariant -1 <= best < index
      invariant best < 0 ==> gain == 0 && forall i | 0 <= i < index && !used[i] :: Elements(candidates[i].repositories) <= covered
      invariant best >= 0 ==> gain > 0 && !used[best] && exists r | r in candidates[best].repositories :: r !in covered
    {
      if used[index] {
        continue;
      }
      var added := Gain(candidates[index].repositories, covered);
      if added > gain {
        best, gain := index, added;
      }
    }
  }

  /** Some cover, or nothing when nothing is wanted or no candidate writes to
      one of the wanted repositories. */
  method GreedyPolicyCover(wanted: set<string>, candidates: seq<Candidate>)
    returns (selected: seq<Policy>, ghost picks: seq<nat>)
    requires ValidCandidates(wanted, candidates)
    ensures Taken(candidates, picks, selected)
    ensures selected != [] ==> wanted != {} && Covers(wanted, candidates, Elements(picks))
    ensures selected == [] ==> wanted == {} || exists r | r in wanted :: forall c | c in candidates :: r !in c.repositories
  {
    var covered: set<string> := {};
    var used := new bool[|candidates|](_ => false);
    selected, picks := [], [];
    while |covered| < |wanted|
      invariant Gathered(wanted, candidates, picks, selected, covered)
      invariant forall i: nat | i < |candidates| :: used[i] <==> i in picks
      decreases |wanted| - |covered|
    {
      var best := MostGain(candidates, used, covered);
      if best < 0 {
        Unreachable(wanted, candidates, picks, covered);
        return [], [];
      }
      used[best] := true;
      TakeGain(wanted, candidates, picks, selected, best, covered);
      selected, picks := selected + [candidates[best].policy], picks + [best];
      covered := covered + Listed(candidates[best].repositories);
    }
    AllGathered(wanted, candidates, picks, selected, covered);
  }

  function Listed(s: seq<string>): (listed: set<string>)
    ensures listed == Elements(s)
  {
    set x | x in s
  }

  /** What the candidates picked so far reach. */
  ghost predicate IsReached(candidates: seq<Candidate>, picks: seq<nat>, covered: set<string>) {
    forall r :: r in covered <==> Reached(candidates, Elements(picks), r)
  }

  ghost predicate Gathered(
    wanted: set<string>, candidates: seq<Candidate>, picks: seq<nat>, selected: seq<Policy>, covered: set<string>) {
    && covered <= wanted && (selected != [] ==> wanted != {})
    && Taken(candidates, picks, selected) && IsReached(candidates, picks, covered)
  }

  lemma TakeGain(
    wanted: set<string>, candidates: seq<Candidate>, picks: seq<nat>, selected: seq<Policy>, best: nat,
    covered: set<string>)
    requires ValidCandidates(wanted, candidates) && Gathered(wanted, candidates, picks, selected, covered)
    requires best < |candidates| && best !in picks && exists r | r in candidates[best].repositories :: r !in covered
    ensures var more := covered + Elements(candidates[best].repositories);
            && Gathered(wanted, candidates, picks + [best], selected + [candidates[best].policy], more)
            && (forall i: nat :: i in picks + [best] <==> i in picks || i == best)
            && |covered| < |more|
  {
    TakeAppend(candidates, picks, selected, best);
    Grows(covered, candidates[best].repositories);
    assert Elements(candidates[best].repositories) <= wanted;
  }

  lemma AllGathered(
    wanted: set<string>, candidates: seq<Candidate>, picks: seq<nat>, selected: seq<Policy>, covered: set<string>)
    requires Gathered(wanted, candidates, picks, selected, covered) && |covered| >= |wanted|
    ensures Covers(wanted, candidates, Elements(picks)) && (selected == [] ==> wanted == {})
  {
    SubsetCardinality(covered, wanted);
    if selected == [] {
      assert forall r :: !Reached(candidates, Elements(picks), r);
    }
  }

  lemma Grows(covered: set<string>, repositories: seq<string>)
    requires exists r | r in repositories :: r !in covered
    ensures |covered| < |covered + Elements(repositories)|
  {
    SubsetCardinality(covered, covered + Elements(repositories));
  }

  lemma TakeAppend(candidates: seq<Candidate>, picks: seq<nat>, selected: seq<Policy>, index: nat)
    requires Taken(candidates, picks, selected) && index < |candidates| && index !in picks
    ensures Taken(candidates, picks + [index], selected + [candidates[index].policy])
    ensures forall i: nat :: i in picks + [index] <==> i in picks || i == index
    ensures forall r :: Reached(candidates, Elements(picks + [index]), r)
                   <==> Reached(candidates, Elements(picks), r) || r in candidates[index].repositories
  {
    ElementsAppend(picks, index);
  }

  /** When no unused candidate adds anything, an uncovered repository is on no
      candidate at all. */
  lemma Unreachable(wanted: set<string>, candidates: seq<Candidate>, picks: seq<nat>, covered: set<string>)
    requires InRange(picks, |candidates|) && covered <= wanted && |covered| < |wanted|
    requires forall r :: r in covered <==> Reached(candidates, Elements(picks), r)
    requires forall i: nat | i < |candidates| && i !in picks :: Elements(candidates[i].repositories) <= covered
    ensures exists r | r in wanted :: forall c | c in candidates :: r !in c.repositories
  {
    assert covered != wanted;
    var r :| r in wanted && r !in covered;
    forall i: nat | i < |candidates| ensures r !in candidates[i].repositories {
      if i in picks {
        assert i in Elements(picks) && !Reached(candidates, Elements(picks), r);
      } else {
        assert r !in Elements(candidates[i].repositories);
      }
    }
  }

  /** A policy's wanted repositories, each once and in its own order. */
  method Wanted(wanted: set<string>, repositoryIds: seq<string>) returns (repositories: seq<string>)
    ensures Distinct(repositories)
    ensures Elements(repositories) == Elements(repositoryIds) * wanted
  {
    repositories := [];
    var seen: set<string> := {};
    for k := 0 to |repositoryIds|
      invariant Distinct(repositories)
      invariant seen == Elements(repositories) == Elements(repositoryIds[..k]) * wanted
    {
      var r := repositoryIds[k];
      assert repositoryIds[..k + 1] == repositoryIds[..k] + [r];
      ElementsAppend(repositoryIds[..k], r);
      if r in wanted && r !in seen {
        ElementsAppend(repositories, r);
        seen := seen + {r};
        repositories := repositories + [r];
      }
    }
    assert repositoryIds[..|repositoryIds|] == repositoryIds;
  }

  /** The policies that write to something wanted, with what they write. */
  ghost predicate Filtered(wanted: set<string>, policies: seq<Policy>, candidates: seq<Candidate>, origin: seq<nat>) {
    && |origin| == |candidates|
    && InRange(origin, |policies|)
    && Distinct(origin)
    && (forall k | 0 <= k < |candidates| ::
          && candidates[k].policy == policies[origin[k]]
          && Distinct(candidates[k].repositories)
          && Elements(candidates[k].repositories) == Elements(policies[origin[k]].repositoryIds) * wanted)
    && (forall i: nat | i < |policies| && i !in origin :: Elements(policies[i].repositoryIds) * wanted == {})
  }

  method Candidates(wanted: set<string>, policies: seq<Policy>)
    returns (candidates: seq<Candidate>, ghost origin: seq<nat>)
    ensures Filtered(wanted, policies, candidates, origin)
    ensures forall c | c in candidates :: c.policy in policies && c.repositories != []
  {
    candidates, origin := [], [];
    for i := 0 to |policies|
      invariant Filtered(wanted, policies[..i], candidates, origin)
      invariant forall c | c in candidates :: c.policy in policies && c.repositories != []
    {
      var repositories := Wanted(wanted, policies[i].repositoryIds);
      assert policies[..i + 1][..i] == policies[..i];
      if |repositories| > 0 {
        candidates := candidates + [Candidate(policies[i], repositories)];
        origin := origin + [i];
      } else {
        assert Elements(repositories) == {};
      }
    }
    assert policies[..|policies|] == policies;
  }

  /** The candidates among the picked policies. */
  ghost function Pull(origin: seq<nat>, picks: set<nat>): set<nat> {
    set k: nat | k < |origin| && origin[k] in picks
  }

  lemma {:induction false} NoLarger(pulled: set<nat>, origin: seq<nat>, picks: set<nat>)
    requires Distinct(origin)
    requires forall k | k in pulled :: k < |origin| && origin[k] in picks
    ensures |pulled| <= |picks|
  {
    if pulled != {} {
      var k :| k in pulled;
      NoLarger(pulled - {k}, origin, picks - {origin[k]});
    }
  }

  /** A cover by policies is a cover by the candidates among them, which are
      no more. */
  lemma PullCovers(missing: seq<string>, policies: seq<Policy>, candidates: seq<Candidate>, origin: seq<nat>, picks: set<nat>)
    requires Filtered(Elements(missing), policies, candidates, origin)
    requires CoversAll(policies, picks, missing)
    ensures Covers(Elements(missing), candidates, Pull(origin, picks))
    ensures |Pull(origin, picks)| <= |picks|
  {
    NoLarger(Pull(origin, picks), origin, picks);
    forall r | r in Elements(missing) ensures Reached(candidates, Pull(origin, picks), r) {
      var i :| i in picks && r in policies[i].repositoryIds;
      assert r in Elements(policies[i].repositoryIds) * Elements(missing);
      var k: nat :| k < |origin| && origin[k] == i;
      assert r in Elements(candidates[k].repositories);
      assert k in Pull(origin, picks);
    }
  }

  /** A cover by candidates is a cover by the policies they come from. */
  lemma PushCovers(missing: seq<string>, policies: seq<Policy>, candidates: seq<Candidate>, origin: seq<nat>,
                   picks: seq<nat>, chosen: seq<Policy>)
    requires Filtered(Elements(missing), policies, candidates, origin)
    requires Taken(candidates, picks, chosen) && Covers(Elements(missing), candidates, Elements(picks))
    ensures exists picked: seq<nat> :: Selects(policies, picked, chosen) && CoversAll(policies, Elements(picked), missing)
  {
    var picked: seq<nat> := seq(|picks|, k requires 0 <= k < |picks| => origin[picks[k]]);
    assert Selects(policies, picked, chosen);
    forall r | r in missing ensures exists i | i in Elements(picked) :: i < |policies| && r in policies[i].repositoryIds {
      assert Reached(candidates, Elements(picks), r);
      var c :| c in Elements(picks) && c < |candidates| && r in candidates[c].repositories;
      var k :| 0 <= k < |picks| && picks[k] == c;
      assert picked[k] == origin[c] && picked[k] in Elements(picked);
      assert r in Elements(candidates[c].repositories);
    }
    assert CoversAll(policies, Elements(picked), missing);
  }

  lemma NothingCovers(missing: seq<string>, policies: seq<Policy>, candidates: seq<Candidate>, origin: seq<nat>)
    requires Filtered(Elements(missing), policies, candidates, origin)
    requires Elements(missing) == {} || exists r | r in Elements(missing) :: forall c | c in candidates :: r !in c.repositories
    ensures IsMinimumCover(missing, policies, [])
  {
    ElementsEmpty(missing);
    if missing != [] {
      var r :| r in Elements(missing) && forall c | c in candidates :: r !in c.repositories;
      assert forall t :: !Reached(candidates, t, r);
      forall s | CoversAll(policies, s, missing) ensures false {
        PullCovers(missing, policies, candidates, origin, s);
      }
    }
  }

  lemma CandidateMinimum(missing: seq<string>, policies: seq<Policy>, candidates: seq<Candidate>, origin: seq<nat>,
                         picks: seq<nat>, best: seq<Policy>)
    requires Filtered(Elements(missing), policies, candidates, origin) && missing != []
    requires Taken(candidates, picks, best) && Covers(Elements(missing), candidates, Elements(picks))
    requires forall t | Covers(Elements(missing), candidates, t) :: |best| <= |t|
    ensures IsMinimumCover(missing, policies, best)
  {
    PushCovers(missing, policies, candidates, origin, picks, best);
    assert Reached(candidates, Elements(picks), missing[0]);
    forall s | CoversAll(policies, s, missing) ensures |best| <= |s| {
      PullCovers(missing, policies, candidates, origin, s);
    }
  }

  /** The smallest combination of policies that reaches every missing
      repository, whatever order a map is iterated in. */
  method MinimumPolicyCover(missing: seq<string>, policies: seq<Policy>) returns (best: seq<Policy>)
    ensures IsMinimumCover(missing, policies, best)
  {
    var wanted := Listed(missing);
    var candidates, origin := Candidates(wanted, policies);
    var greedy, picks := GreedyPolicyCover(wanted, candidates);
    if |greedy| == 0 {
      NothingCovers(missing, policies, candidates, origin);
      return [];
    }
    var search := new CoverSearch(wanted, candidates, greedy, picks);
    search.Search();
    best := search.best;
    assert search.NoSmaller([], |best|);
    CandidateMinimum(missing, policies, candidates, origin, search.bestPicks, best);
  }
}
