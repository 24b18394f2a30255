/** The outcome/solution link index (`registries/link_index.py`). */
module LinkIndex {
  import opened Text

  datatype Dependency = Dependency(kind: string, ref: string) | NotAMapping

  /** One entry of solutions.yaml; an absent id or outcome is the empty string, as both are skipped alike. */
  datatype Solution = Solution(id: string, outcome: string, dependencies: seq<Dependency>)

  predicate Linked(s: Solution)
  {
    s.id != "" && s.outcome != ""
  }

  // ----- what the queries mean: scans of the list -----------------------------

  /** Ids of the entries for an outcome, in order. */
  function SolutionsFor(list: seq<Solution>, outcome: string): seq<string>
  {
    if list == [] then []
    else
      var n := |list| - 1;
      SolutionsFor(list[..n], outcome) + (if Linked(list[n]) && list[n].outcome == outcome then [list[n].id] else [])
  }

  /** The outcome of the last linked entry with the id. */
  function OutcomeFor(list: seq<Solution>, id: string): Option<string>
  {
    if list == [] then None
    else
      var n := |list| - 1;
      if Linked(list[n]) && list[n].id == id then Some(list[n].outcome) else OutcomeFor(list[..n], id)
  }

  predicate Counts(d: Dependency)
  {
    d.Dependency? && d.kind in {"outcome", "solution"} && d.ref != ""
  }

  function Refs(deps: seq<Dependency>): seq<string>
  {
    if deps == [] then []
    else
      var n := |deps| - 1;
      Refs(deps[..n]) + (if Counts(deps[n]) then [deps[n].ref] else [])
  }

  /** The references of the last entry with the id that has any. */
  function DepsFor(list: seq<Solution>, id: string): seq<string>
  {
    if list == [] then []
    else
      var n := |list| - 1;
      if list[n].id == id != "" && Refs(list[n].dependencies) != [] then Refs(list[n].dependencies)
      else DepsFor(list[..n], id)
  }

  lemma Extend(before: seq<Solution>, sol: Solution, key: string)
    ensures SolutionsFor(before + [sol], key)
            == SolutionsFor(before, key) + (if Linked(sol) && sol.outcome == key then [sol.id] else [])
    ensures OutcomeFor(before + [sol], key)
            == if Linked(sol) && sol.id == key then Some(sol.outcome) else OutcomeFor(before, key)
    ensures DepsFor(before + [sol], key)
            == if sol.id == key != "" && Refs(sol.dependencies) != [] then Refs(sol.dependencies)
               else DepsFor(before, key)
  {
    assert (before + [sol])[..|before|] == before;
  }

  // ----- the index ---------------------------------------------------------------

  function Listed(m: map<string, seq<string>>, key: string): seq<string>
  {
    if key in m then m[key] else []
  }

  function Found(m: map<string, string>, key: string): Option<string>
  {
    if key in m then Some(m[key]) else None
  }

  ghost predicate ListsOutcomes(m: map<string, seq<string>>, list: seq<Solution>)
  {
    forall key :: Listed(m, key) == SolutionsFor(list, key)
  }

  ghost predicate FindsOutcomes(m: map<string, string>, list: seq<Solution>)
  {
    forall key :: Found(m, key) == OutcomeFor(list, key)
  }

  ghost predicate ListsDeps(m: map<string, seq<string>>, list: seq<Solution>)
  {
    forall key :: Listed(m, key) == DepsFor(list, key)
  }

  lemma OutcomesExtended(m: map<string, seq<string>>, list: seq<Solution>, sol: Solution)
    requires ListsOutcomes(m, list)
    ensures ListsOutcomes(if Linked(sol) then m[sol.outcome := Listed(m, sol.outcome) + [sol.id]] else m, list + [sol])
  {
    var n := if Linked(sol) then m[sol.outcome := Listed(m, sol.outcome) + [sol.id]] else m;
    forall key ensures Listed(n, key) == SolutionsFor(list + [sol], key) {
      Extend(list, sol, key);
      assert Listed(m, key) == SolutionsFor(list, key);
    }
  }

  lemma FindsExtended(m: map<string, string>, list: seq<Solution>, sol: Solution)
    requires FindsOutcomes(m, list)
    ensures FindsOutcomes(if Linked(sol) then m[sol.id := sol.outcome] else m, list + [sol])
  {
    var n := if Linked(sol) then m[sol.id := sol.outcome] else m;
    forall key ensures Found(n, key) == OutcomeFor(list + [sol], key) {
      Extend(list, sol, key);
      assert Found(m, key) == OutcomeFor(list, key);
    }
  }

  lemma DepsExtended(m: map<string, seq<string>>, list: seq<Solution>, sol: Solution)
    requires ListsDeps(m, list)
    ensures ListsDeps(if sol.id != "" && Refs(sol.dependencies) != [] then m[sol.id := Refs(sol.dependencies)] else m,
                      list + [sol])
  {
    var n := if sol.id != "" && Refs(sol.dependencies) != [] then m[sol.id := Refs(sol.dependencies)] else m;
    forall key ensures Listed(n, key) == DepsFor(list + [sol], key) {
      Extend(list, sol, key);
      assert Listed(m, key) == DepsFor(list, key);
    }
  }

  class RegistryLinkIndex {
    var outcomeToSolutions: map<string, seq<string>>
    var solutionToOutcome: map<string, string>
    var solutionToDeps: map<string, seq<string>>

    /** The maps answer every query as a scan of `list` does. */
    ghost predicate Indexes(list: seq<Solution>)
      reads this
    {
      && ListsOutcomes(outcomeToSolutions, list) && FindsOutcomes(solutionToOutcome, list)
      && ListsDeps(solutionToDeps, list)
    }

    constructor ()
      ensures Indexes([])
    {
      outcomeToSolutions, solutionToOutcome, solutionToDeps := map[], map[], map[];
    }

    /** The inner loop of `_build_index`. */
    method CollectRefs(dependencies: seq<Dependency>) returns (refs: seq<string>)
      ensures refs == Refs(dependencies)
    {
      refs := [];
      for i := 0 to |dependencies|
        invariant refs == Refs(dependencies[..i])
      {
        assert dependencies[..i + 1][..i] == dependencies[..i];
        var dep := dependencies[i];
        if dep.NotAMapping? {
          continue;
        }
        if dep.kind in {"outcome", "solution"} && dep.ref != "" {
          refs := refs + [dep.ref];
        }
      }
      assert dependencies[..|dependencies|] == dependencies;
    }

    method AddSolution(sol: Solution, ghost before: seq<Solution>)
      requires Indexes(before)
      modifies this
      ensures Indexes(before + [sol])
    {
      OutcomesExtended(outcomeToSolutions, before, sol);
      FindsExtended(solutionToOutcome, before, sol);
      DepsExtended(solutionToDeps, before, sol);
      if sol.id == "" {
        return;
      }
      if sol.outcome != "" {
        solutionToOutcome := solutionToOutcome[sol.id := sol.outcome];
        var earlier := if sol.outcome in outcomeToSolutions then outcomeToSolutions[sol.outcome] else [];
        outcomeToSolutions := outcomeToSolutions[sol.outcome := earlier + [sol.id]];
      }
      var deps := CollectRefs(sol.dependencies);
      if deps != [] {
        solutionToDeps := solutionToDeps[sol.id := deps];
      }
    }

    /** `_build_index` followed by the swap of `_rebuild`. */
    method Rebuild(list: seq<Solution>)
      modifies this
      ensures Indexes(list)
    {
      outcomeToSolutions, solutionToOutcome, solutionToDeps := map[], map[], map[];
      for i := 0 to |list|
        invariant Indexes(list[..i])
      {
        AddSolution(list[i], list[..i]);
        assert list[..i + 1] == list[..i] + [list[i]];
      }
      assert list[..|list|] == list;
    }

    method SolutionsForOutcome(outcome: string, ghost list: seq<Solution>) returns (ids: seq<string>)
      requires Indexes(list)
      ensures ids == SolutionsFor(list, outcome)
    {
      ids := if outcome in outcomeToSolutions then outcomeToSolutions[outcome] else [];
      assert Listed(outcomeToSolutions, outcome) == SolutionsFor(list, outcome);
    }

    method OutcomeForSolution(id: string, ghost list: seq<Solution>) returns (outcome: Option<string>)
      requires Indexes(list)
      ensures outcome == OutcomeFor(list, id)
    {
      outcome := if id in solutionToOutcome then Some(solutionToOutcome[id]) else None;
      assert Found(solutionToOutcome, id) == OutcomeFor(list, id);
    }

    method DepsForSolution(id: string, ghost list: seq<Solution>) returns (refs: seq<string>)
      requires Indexes(list)
      ensures refs == DepsFor(list, id)
    {
      refs := if id in solutionToDeps then solutionToDeps[id] else [];
      assert Listed(solutionToDeps, id) == DepsFor(list, id);
    }
  }

  // ----- which dependencies are references ---------------------------------------------

  /** Exactly the non-empty references of kind `outcome` or `solution` are kept. */
  lemma {:induction false} RefsContain(deps: seq<Dependency>, ref: string)
    ensures ref in Refs(deps) <==>
              ref != "" && (Dependency("outcome", ref) in deps || Dependency("solution", ref) in deps)
  {
    if deps != [] {
      var n := |deps| - 1;
      RefsContain(deps[..n], ref);
      assert deps == deps[..n] + [deps[n]];
    }
  }

  /** They are kept in their order and as often as they stand there. */
  lemma {:induction false} RefsKeepOrder(a: seq<Dependency>, b: seq<Dependency>)
    ensures Refs(a + b) == Refs(a) + Refs(b)
    ensures |Refs(a)| <= |a|
    decreases |a| + |b|
  {
    if b == [] {
      assert a + b == a;
      if a != [] {
        RefsKeepOrder(a[..|a| - 1], []);
        assert a[..|a| - 1] + [] == a[..|a| - 1];
      }
    } else {
      var n := |b| - 1;
      RefsKeepOrder(a, b[..n]);
      assert (a + b)[..|a| + n] == a + b[..n];
    }
  }

  /** What the index has for an id: the references of its last entry that has some. */
  lemma {:induction false} DepsForIsLast(list: seq<Solution>, id: string) returns (last: nat)
    ensures DepsFor(list, id) != [] ==>
              && id != "" && last < |list| && list[last].id == id && DepsFor(list, id) == Refs(list[last].dependencies)
              && forall i :: last < i < |list| && list[i].id == id ==> Refs(list[i].dependencies) == []
    ensures id != "" && DepsFor(list, id) == [] ==>
              forall i :: 0 <= i < |list| && list[i].id == id ==> Refs(list[i].dependencies) == []
  {
    last := 0;
    if list != [] {
      var n := |list| - 1;
      if list[n].id == id != "" && Refs(list[n].dependencies) != [] {
        last := n;
      } else {
        last := DepsForIsLast(list[..n], id);
        assert forall i :: 0 <= i < n ==> list[..n][i] == list[i];
      }
    }
    hide Refs;
  }

  // ----- when the two maps are inverses -----------------------------------------------

  lemma {:induction false} SolutionsForContains(list: seq<Solution>, id: string, outcome: string)
    ensures id in SolutionsFor(list, outcome)
            <==> id != "" && outcome != ""
                 && exists i :: 0 <= i < |list| && list[i].id == id && list[i].outcome == outcome
  {
    if list != [] {
      var n := |list| - 1;
      SolutionsForContains(list[..n], id, outcome);
      assert forall i :: 0 <= i < n ==> list[..n][i] == list[i];
    }
  }

  lemma {:induction false} OutcomeForIsLast(list: seq<Solution>, id: string) returns (last: nat)
    ensures OutcomeFor(list, id).Some? ==>
              && last < |list| && Linked(list[last]) && list[last].id == id
              && OutcomeFor(list, id) == Some(list[last].outcome)
              && forall i :: last < i < |list| ==> !(Linked(list[i]) && list[i].id == id)
    ensures OutcomeFor(list, id).None? ==> forall i :: 0 <= i < |list| ==> !(Linked(list[i]) && list[i].id == id)
  {
    last := 0;
    if list != [] {
      var n := |list| - 1;
      if Linked(list[n]) && list[n].id == id {
        last := n;
      } else {
        last := OutcomeForIsLast(list[..n], id);
        assert forall i :: 0 <= i < n ==> list[..n][i] == list[i];
      }
    }
  }

  /** No id is linked to two outcomes. */
  ghost predicate Unambiguous(list: seq<Solution>)
  {
    forall i, j :: 0 <= i < |list| && 0 <= j < |list| && Linked(list[i]) && Linked(list[j])
                   && list[i].id == list[j].id ==>
      list[i].outcome == list[j].outcome
  }

  ghost predicate MutuallyInverse(list: seq<Solution>)
  {
    forall id, outcome :: id in SolutionsFor(list, outcome) <==> OutcomeFor(list, id) == Some(outcome)
  }

  /** The two look-ups are inverse to each other exactly when no id is linked to two outcomes. */
  lemma LinksAreInverseExactly(list: seq<Solution>)
    ensures MutuallyInverse(list) <==> Unambiguous(list)
  {
    if Unambiguous(list) {
      forall id, outcome ensures id in SolutionsFor(list, outcome) <==> OutcomeFor(list, id) == Some(outcome) {
        SolutionsForContains(list, id, outcome);
        var last := OutcomeForIsLast(list, id);
      }
    } else {
      var i, j :| 0 <= i < |list| && 0 <= j < |list| && Linked(list[i]) && Linked(list[j])
                  && list[i].id == list[j].id && list[i].outcome != list[j].outcome;
      SolutionsForContains(list, list[i].id, list[i].outcome);
      SolutionsForContains(list, list[i].id, list[j].outcome);
      var found := OutcomeFor(list, list[i].id);
      assert found != Some(list[i].outcome) || found != Some(list[j].outcome);
    }
  }
}
