/**
 Workflow definitions and their dependency order (src/memory_service/workflows/base.py).

 The documentation names Kahn's algorithm; the code is a depth-first search with a set of finished
 names and a set of names on the current path, and that is what is modelled.
 */
module Workflow {
  import opened Basics

  /** A stage; its handler and timeout belong to the engine. */
  datatype Stage = Stage(name: string, sync: bool, dependsOn: seq<string>)

  datatype OrderError =
    | CycleDetected(stage: string)
    | UnknownDependency(stage: string, dependency: string)

  /** The first stage carrying the name, if any. */
  function GetStage(stages: seq<Stage>, name: string): (r: Option<Stage>)
    ensures r.Some? ==> r.value in stages && r.value.name == name
    ensures r.None? <==> forall i :: 0 <= i < |stages| ==> stages[i].name != name
    ensures r.Some? ==> exists i :: 0 <= i < |stages| && stages[i] == r.value &&
                                    forall j :: 0 <= j < i ==> stages[j].name != name
  {
    if stages == [] then None
    else if stages[0].name == name then Some(stages[0])
    else GetStage(stages[1..], name)
  }

  predicate Known(stages: seq<Stage>, name: string) {
    GetStage(stages, name).Some?
  }

  /** The stage reached by looking up its own name: false of a stage shadowed by an earlier namesake. */
  predicate Primary(stages: seq<Stage>, s: Stage) {
    GetStage(stages, s.name) == Some(s)
  }

  predicate UniqueNames(stages: seq<Stage>) {
    forall i, j :: 0 <= i < j < |stages| ==> stages[i].name != stages[j].name
  }

  function Names(stages: seq<Stage>): set<string> {
    set i | 0 <= i < |stages| :: stages[i].name
  }

  // ---------------------------------------------------------------- the dependency graph

  /** Stage a lists b among its dependencies. */
  predicate DependsOn(stages: seq<Stage>, a: string, b: string) {
    Known(stages, a) && b in GetStage(stages, a).value.dependsOn
  }

  /** Each name on the path depends on the next one. */
  predicate IsPath(stages: seq<Stage>, path: seq<string>) {
    forall i :: 0 <= i < |path| - 1 ==> DependsOn(stages, path[i], path[i + 1])
  }

  /** a depends on b through one or more dependencies. */
  ghost predicate Reaches(stages: seq<Stage>, a: string, b: string) {
    exists path :: IsPath(stages, path) && |path| >= 2 && path[0] == a && path[|path| - 1] == b
  }

  ghost predicate Acyclic(stages: seq<Stage>) {
    forall a :: !Reaches(stages, a, a)
  }

  predicate AllResolve(stages: seq<Stage>) {
    forall i, d :: 0 <= i < |stages| && Primary(stages, stages[i]) && d in stages[i].dependsOn ==> Known(stages, d)
  }

  // ---------------------------------------------------------------- orders

  /** Dependencies of each element occur strictly before it. */
  ghost predicate DependenciesFirst(order: seq<Stage>) {
    forall i, d :: 0 <= i < |order| && d in order[i].dependsOn ==> d in Names(order[..i])
  }

  /** The shape of every prefix the search builds: primary stages, no name twice, dependencies first. */
  ghost predicate PartialOrder(stages: seq<Stage>, order: seq<Stage>) {
    && (forall s :: s in order ==> Primary(stages, s))
    && UniqueNames(order)
    && DependenciesFirst(order)
  }

  /** A complete order: every name of the workflow occurs. */
  ghost predicate IsOrder(stages: seq<Stage>, order: seq<Stage>) {
    PartialOrder(stages, order) && Names(order) == Names(stages)
  }

  lemma NamesAppend(order: seq<Stage>, s: Stage)
    ensures Names(order + [s]) == Names(order) + {s.name}
  {
    var longer := order + [s];
    forall n | n in Names(order) ensures n in Names(longer) {
      var i :| 0 <= i < |order| && order[i].name == n;
      assert longer[i].name == n;
    }
    assert longer[|order|].name == s.name;
  }

  lemma PartialOrderAppend(stages: seq<Stage>, order: seq<Stage>, s: Stage)
    requires PartialOrder(stages, order) && Primary(stages, s) && s.name !in Names(order)
    requires forall d :: d in s.dependsOn ==> d in Names(order)
    ensures PartialOrder(stages, order + [s])
  {
    var longer := order + [s];
    forall i, d | 0 <= i < |longer| && d in longer[i].dependsOn ensures d in Names(longer[..i]) {
      assert longer[..i] == order[..i];
      if i == |order| { assert order[..i] == order; }
    }
  }

  // ---------------------------------------------------------------- what an order says

  /** In a complete order every transitive dependency of a stage precedes it. */
  lemma {:induction false} PathEndsEarlier(stages: seq<Stage>, order: seq<Stage>, i: nat, path: seq<string>)
    requires IsOrder(stages, order) && IsPath(stages, path) && |path| >= 2
    requires i < |order| && order[i].name == path[0]
    ensures exists j :: 0 <= j < i && order[j].name == path[|path| - 1]
    decreases |path|
  {
    assert DependsOn(stages, path[0], path[1]);
    assert Primary(stages, order[i]);
    assert path[1] in order[i].dependsOn;
    assert path[1] in Names(order[..i]);
    var k :| 0 <= k < i && order[..i][k].name == path[1];
    assert order[k].name == path[1];
    if |path| > 2 {
      var rest := path[1..];
      forall m | 0 <= m < |rest| - 1 ensures DependsOn(stages, rest[m], rest[m + 1]) {
        assert DependsOn(stages, path[m + 1], path[m + 2]);
      }
      PathEndsEarlier(stages, order, k, rest);
    }
  }

  lemma TransitiveDependenciesPrecede(stages: seq<Stage>, order: seq<Stage>, i: nat, dep: string)
    requires IsOrder(stages, order) && i < |order| && Reaches(stages, order[i].name, dep)
    ensures exists j :: 0 <= j < i && order[j].name == dep
  {
    var path :| IsPath(stages, path) && |path| >= 2 && path[0] == order[i].name && path[|path| - 1] == dep;
    PathEndsEarlier(stages, order, i, path);
  }

  /** An order exists only for workflows whose dependencies resolve and do not form a cycle. */
  lemma OrderImpliesWellFormed(stages: seq<Stage>, order: seq<Stage>)
    requires IsOrder(stages, order)
    ensures AllResolve(stages) && Acyclic(stages)
  {
    forall i, d | 0 <= i < |stages| && Primary(stages, stages[i]) && d in stages[i].dependsOn
      ensures Known(stages, d)
    {
      assert stages[i].name in Names(order);
      var k :| 0 <= k < |order| && order[k].name == stages[i].name;
      assert Primary(stages, order[k]);
      assert d in Names(order[..k]);
      var m :| 0 <= m < k && order[..k][m].name == d;
      assert Primary(stages, order[m]);
    }
    forall a ensures !Reaches(stages, a, a) {
      if Reaches(stages, a, a) {
        var path :| IsPath(stages, path) && |path| >= 2 && path[0] == a && path[|path| - 1] == a;
        assert DependsOn(stages, path[0], path[1]);
        assert a in Names(stages);
        var i :| 0 <= i < |order| && order[i].name == a;
        PathEndsEarlier(stages, order, i, path);
      }
    }
  }

  /** The error really is present in the workflow. */
  ghost predicate Witnessed(stages: seq<Stage>, e: OrderError) {
    match e
    case CycleDetected(s) => Reaches(stages, s, s)
    case UnknownDependency(s, d) => DependsOn(stages, s, d) && !Known(stages, d)
  }

  lemma WitnessedImpliesIllFormed(stages: seq<Stage>, e: OrderError)
    requires Witnessed(stages, e)
    ensures !(AllResolve(stages) && Acyclic(stages))
    ensures !IsOrder(stages, stages)
  {
    if IsOrder(stages, stages) { OrderImpliesWellFormed(stages, stages); }
    if e.UnknownDependency? {
      var s := GetStage(stages, e.stage).value;
      var i :| 0 <= i < |stages| && stages[i] == s;
      assert Primary(stages, stages[i]) && e.dependency in stages[i].dependsOn;
    }
  }

  /** A complete order is a permutation of the stages exactly when no stage shadows another. */
  lemma OrderIsPermutation(stages: seq<Stage>, order: seq<Stage>)
    requires IsOrder(stages, order)
    ensures multiset(order) == multiset(stages) <==> UniqueNames(stages)
  {
    if UniqueNames(stages) {
      UniqueAllPrimary(stages);
      forall s ensures multiset(order)[s] == multiset(stages)[s] {
        UniqueMultiplicity(order, s);
        UniqueMultiplicity(stages, s);
        if s in stages {
          assert s.name in Names(stages);
          var i :| 0 <= i < |order| && order[i].name == s.name;
          assert Primary(stages, order[i]) && Primary(stages, s);
        }
        if s in order {
          assert Primary(stages, s);
        }
      }
    } else {
      var i, j :| 0 <= i < j < |stages| && stages[i].name == stages[j].name;
      if multiset(order) == multiset(stages) {
        assert stages[i] in multiset(order) && stages[j] in multiset(order);
        UniqueMultiplicity(order, stages[i]);
        TwiceCounted(stages, i, j);
      }
    }
  }

  lemma TwiceCounted(stages: seq<Stage>, i: nat, j: nat)
    requires i < j < |stages|
    ensures stages[i] == stages[j] ==> multiset(stages)[stages[i]] >= 2
  {
    assert stages == stages[..j] + stages[j..];
    assert stages[..j][i] in stages[..j] && stages[j..][0] in stages[j..];
    assert multiset(stages) == multiset(stages[..j]) + multiset(stages[j..]);
  }

  lemma {:induction false} UniqueAllPrimary(stages: seq<Stage>)
    requires UniqueNames(stages)
    ensures forall s :: s in stages ==> Primary(stages, s)
  {
    forall s | s in stages ensures Primary(stages, s) {
      var found := GetStage(stages, s.name);
      var i :| 0 <= i < |stages| && stages[i] == s;
      assert found.Some?;
      var j :| 0 <= j < |stages| && stages[j] == found.value;
    }
  }

  lemma {:induction false} UniqueMultiplicity(order: seq<Stage>, s: Stage)
    requires UniqueNames(order)
    ensures multiset(order)[s] == if s in order then 1 else 0
  {
    if s in order {
      var i :| 0 <= i < |order| && order[i] == s;
      assert order == order[..i] + [s] + order[i + 1..];
      assert s !in order[..i] && s !in order[i + 1..];
      assert multiset(order) == multiset(order[..i]) + multiset{s} + multiset(order[i + 1..]);
    }
  }

  /** The second of two stages of one name is left out of the order. */
  lemma NamesakeIsLeftOut()
    ensures var first, second := Stage("a", true, []), Stage("a", false, []);
            IsOrder([first, second], [first]) && multiset([first]) != multiset([first, second])
  {
    var stages := [Stage("a", true, []), Stage("a", false, [])];
    assert stages[0].name == stages[1].name;
    assert Names(stages) == {"a"} == Names([stages[0]]);
    OrderIsPermutation(stages, [stages[0]]);
  }

  // ---------------------------------------------------------------- the search

  /** The three collections the nested visit function grows in place. */
  class Sorter {
    const stages: seq<Stage>
    var ordered: seq<Stage>
    var visited: set<string>
    var visiting: set<string>

    constructor (stages: seq<Stage>)
      ensures this.stages == stages && ordered == [] && visited == {} && visiting == {}
    {
      this.stages := stages;
      ordered, visited, visiting := [], {}, {};
    }

    /** visiting holds exactly the names of the current search path. */
    ghost predicate Valid(path: seq<string>)
      reads this
    {
      && PartialOrder(stages, ordered)
      && visited == Names(ordered)
      && IsPath(stages, path)
      && visiting == Elements(path)
      && visiting <= Names(stages)
      && visiting !! visited
    }

    method Visit(stage: Stage, ghost path: seq<string>) returns (error: Option<OrderError>)
      requires Valid(path) && (Primary(stages, stage) || stage.name in visited)
      requires path != [] ==> DependsOn(stages, path[|path| - 1], stage.name)
      modifies this
      ensures error.None? ==> Valid(path) && visiting == old(visiting)
      ensures error.None? ==> old(ordered) <= ordered && stage.name in visited
      ensures error.None? && stage.name in old(visited) ==> ordered == old(ordered)
      ensures error.None? && stage.name !in old(visited) && (forall d :: d in stage.dependsOn ==> d in old(visited))
              ==> ordered == old(ordered) + [stage]
      ensures error.Some? ==> Witnessed(stages, error.value)
      decreases Names(stages) - visiting
    {
      if stage.name in visited {
        return None;
      }
      if stage.name in visiting {
        BackEdgeIsCycle(stages, path, stage.name);
        return Some(CycleDetected(stage.name));
      }
      assert stage.name in Names(stages);
      visiting := visiting + {stage.name};
      ghost var extended := path + [stage.name];
      ExtendPath(stages, path, stage.name);
      var i := 0;
      while i < |stage.dependsOn|
        invariant 0 <= i <= |stage.dependsOn|
        invariant Valid(extended) && visiting == old(visiting) + {stage.name}
        invariant old(ordered) <= ordered
        invariant forall k :: 0 <= k < i ==> stage.dependsOn[k] in visited
        invariant (forall d :: d in stage.dependsOn ==> d in old(visited)) ==> ordered == old(ordered)
      {
        var name := stage.dependsOn[i];
        var dep := GetStage(stages, name);
        assert DependsOn(stages, stage.name, name);
        if dep.None? {
          return Some(UnknownDependency(stage.name, name));
        }
        error := Visit(dep.value, extended);
        if error.Some? {
          return;
        }
        i := i + 1;
      }
      Finish(stage, path, old(visiting));
      return None;
    }

    /** All dependencies have been visited: the stage leaves the path and joins the order. */
    method Finish(stage: Stage, ghost path: seq<string>, ghost outer: set<string>)
      requires Valid(path + [stage.name]) && Primary(stages, stage)
      requires IsPath(stages, path) && outer == Elements(path)
      requires visiting == outer + {stage.name} && stage.name !in outer
      requires forall d :: d in stage.dependsOn ==> d in visited
      modifies this
      ensures Valid(path) && visiting == outer
      ensures ordered == old(ordered) + [stage] && visited == old(visited) + {stage.name}
    {
      visiting := visiting - {stage.name};
      visited := visited + {stage.name};
      PartialOrderAppend(stages, ordered, stage);
      NamesAppend(ordered, stage);
      ordered := ordered + [stage];
    }
  }

  lemma ExtendPath(stages: seq<Stage>, path: seq<string>, name: string)
    requires IsPath(stages, path) && (path != [] ==> DependsOn(stages, path[|path| - 1], name))
    ensures IsPath(stages, path + [name])
    ensures Elements(path + [name]) == Elements(path) + {name}
  {
    var longer := path + [name];
    ElementsAppend(path, name);
    forall i | 0 <= i < |longer| - 1 ensures DependsOn(stages, longer[i], longer[i + 1]) {
      if i < |path| - 1 { assert DependsOn(stages, path[i], path[i + 1]); }
    }
  }

  /** A name met again on the current path depends on itself. */
  lemma BackEdgeIsCycle(stages: seq<Stage>, path: seq<string>, name: string)
    requires IsPath(stages, path) && path != [] && DependsOn(stages, path[|path| - 1], name)
    requires exists i :: 0 <= i < |path| && path[i] == name
    ensures Reaches(stages, name, name)
  {
    var i :| 0 <= i < |path| && path[i] == name;
    var cycle := path[i..] + [name];
    forall k | 0 <= k < |cycle| - 1 ensures DependsOn(stages, cycle[k], cycle[k + 1]) {
      if i + k < |path| - 1 { assert DependsOn(stages, path[i + k], path[i + k + 1]); }
    }
    assert IsPath(stages, cycle);
  }

  lemma ShadowedByEarlier(stages: seq<Stage>, i: nat)
    requires i < |stages|
    ensures Primary(stages, stages[i]) || exists j :: 0 <= j < i && stages[j].name == stages[i].name
  {
    var found := GetStage(stages, stages[i].name);
    var j :| 0 <= j < |stages| && stages[j] == found.value &&
      forall k :: 0 <= k < j ==> stages[k].name != stages[i].name;
  }

  /** Stages that are in order already are appended one by one. */
  ghost predicate InPlace(stages: seq<Stage>, ordered: seq<Stage>, n: nat) {
    n <= |stages| && (IsOrder(stages, stages) ==> ordered == stages[..n])
  }

  lemma NextInPlace(stages: seq<Stage>, ordered: seq<Stage>, n: nat)
    requires InPlace(stages, ordered, n) && n < |stages| && IsOrder(stages, stages)
    ensures stages[n].name !in Names(ordered)
    ensures forall d :: d in stages[n].dependsOn ==> d in Names(ordered)
    ensures InPlace(stages, ordered + [stages[n]], n + 1)
  {
  }

  lemma SearchComplete(stages: seq<Stage>, order: seq<Stage>)
    requires PartialOrder(stages, order)
    requires forall k :: 0 <= k < |stages| ==> stages[k].name in Names(order)
    ensures IsOrder(stages, order) && AllResolve(stages) && Acyclic(stages)
    ensures multiset(order) == multiset(stages) <==> UniqueNames(stages)
  {
    forall n | n in Names(order) ensures n in Names(stages) {
      var k :| 0 <= k < |order| && order[k].name == n;
      assert Primary(stages, order[k]);
    }
    assert Names(order) == Names(stages);
    OrderImpliesWellFormed(stages, order);
    OrderIsPermutation(stages, order);
  }

  /**
   The order of a workflow, or the first error met. It succeeds exactly when every dependency of a
   primary stage resolves and no stage depends on itself, and then lists each name once, after all
   it depends on. Stages already listed after their dependencies keep their places.
   */
  method TopologicalOrder(stages: seq<Stage>) returns (r: Result<seq<Stage>, OrderError>)
    ensures r.Ok? <==> AllResolve(stages) && Acyclic(stages)
    ensures r.Ok? ==> IsOrder(stages, r.value)
    ensures r.Ok? ==> (multiset(r.value) == multiset(stages) <==> UniqueNames(stages))
    ensures r.Err? ==> Witnessed(stages, r.error)
    ensures IsOrder(stages, stages) ==> r == Ok(stages)
  {
    var sorter := new Sorter(stages);
    var i := 0;
    while i < |stages|
      invariant 0 <= i <= |stages|
      invariant sorter.stages == stages && sorter.Valid([])
      invariant forall k :: 0 <= k < i ==> stages[k].name in sorter.visited
      invariant InPlace(stages, sorter.ordered, i)
    {
      var error := VisitNext(sorter, i);
      if error.Some? {
        WitnessedImpliesIllFormed(stages, error.value);
        return Err(error.value);
      }
      i := i + 1;
    }
    assert stages[..i] == stages;
    r := Ok(sorter.ordered);
    SearchComplete(stages, sorter.ordered);
  }

  /** One turn of the outer loop. */
  method VisitNext(sorter: Sorter, i: nat) returns (error: Option<OrderError>)
    requires sorter.Valid([]) && i < |sorter.stages| && InPlace(sorter.stages, sorter.ordered, i)
    requires forall k :: 0 <= k < i ==> sorter.stages[k].name in sorter.visited
    modifies sorter
    ensures error.Some? ==> Witnessed(sorter.stages, error.value)
    ensures error.None? ==> sorter.Valid([]) && old(sorter.visited) + {sorter.stages[i].name} <= sorter.visited
    ensures error.None? ==> InPlace(sorter.stages, sorter.ordered, i + 1)
  {
    ghost var before := sorter.ordered;
    if IsOrder(sorter.stages, sorter.stages) { NextInPlace(sorter.stages, before, i); }
    ShadowedByEarlier(sorter.stages, i);
    error := sorter.Visit(sorter.stages[i], []);
  }
}
