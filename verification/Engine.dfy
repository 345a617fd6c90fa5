/**
 Workflow execution (src/memory_service/workflows/engine.py): walk the dependency order, hand each
 stage the context overlaid with the results so far, and keep the results of the stages that return.
 */
module Engine {
  import opened Basics
  import opened Workflow

  const RESULT_SUFFIX := "_result"

  /** Payload entries are opaque to the engine. */
  type Value(!new)

  /** How a synchronous handler call ends. */
  datatype Outcome = Completed(value: Value) | TimedOut | Failed

  /** One observable action of the engine. */
  datatype Dispatch =
    | Ran(stage: Stage, payload: map<string, Value>, outcome: Outcome)
    | Queued(stage: Stage, payload: map<string, Value>)

  /** A stage that ran to completion. */
  predicate Succeeded(d: Dispatch) {
    d.Ran? && d.outcome.Completed?
  }

  /** What the n-th handler call does with the payload it is given: any behaviour at all. */
  type Handler = (nat, map<string, Value>) -> Outcome

  lemma SuffixInjective(a: string, b: string)
    ensures a + RESULT_SUFFIX == b + RESULT_SUFFIX <==> a == b
  {
    if a + RESULT_SUFFIX == b + RESULT_SUFFIX {
      assert a == (a + RESULT_SUFFIX)[..|a|] && b == (b + RESULT_SUFFIX)[..|b|];
      assert |a| == |b|;
    }
  }

  function ResultEntries(results: map<string, Value>): map<string, Value> {
    assert forall a, b :: a + RESULT_SUFFIX == b + RESULT_SUFFIX <==> a == b by {
      forall a, b ensures a + RESULT_SUFFIX == b + RESULT_SUFFIX <==> a == b { SuffixInjective(a, b); }
    }
    map k | k in results :: k + RESULT_SUFFIX := results[k]
  }

  function Payload(context: map<string, Value>, results: map<string, Value>): map<string, Value> {
    context + ResultEntries(results)
  }

  /** The results collected from a log: completed synchronous stages only. */
  function ResultsOf(log: seq<Dispatch>): map<string, Value> {
    if log == [] then map[]
    else
      var before := ResultsOf(log[..|log| - 1]);
      var last := log[|log| - 1];
      if Succeeded(last) then before[last.stage.name := last.outcome.value] else before
  }

  /** The action taken at step i for a stage, given the actions before it. */
  ghost predicate IsDispatch(context: map<string, Value>, handler: Handler, before: seq<Dispatch>, stage: Stage,
                             d: Dispatch) {
    && d.stage == stage
    && d.payload == Payload(context, ResultsOf(before))
    && (d.Ran? <==> stage.sync)
    && (d.Ran? ==> d.outcome == handler(|before|, d.payload))
  }

  /** The log of a full walk over an order. */
  ghost predicate IsWalk(order: seq<Stage>, context: map<string, Value>, handler: Handler, log: seq<Dispatch>) {
    && |log| == |order|
    && forall i :: 0 <= i < |log| ==> IsDispatch(context, handler, log[..i], order[i], log[i])
  }

  lemma ResultsOneMore(log: seq<Dispatch>, d: Dispatch)
    ensures ResultsOf(log + [d])
         == if Succeeded(d) then ResultsOf(log)[d.stage.name := d.outcome.value] else ResultsOf(log)
  {
    var longer := log + [d];
    assert longer[..|longer| - 1] == log && longer[|longer| - 1] == d;
  }

  lemma WalkOneMore(order: seq<Stage>, context: map<string, Value>, handler: Handler, log: seq<Dispatch>, d: Dispatch)
    requires |log| < |order| && IsWalk(order[..|log|], context, handler, log)
    requires IsDispatch(context, handler, log, order[|log|], d)
    ensures IsWalk(order[..|log| + 1], context, handler, log + [d])
  {
    var longer, steps := log + [d], order[..|log| + 1];
    forall i | 0 <= i < |longer| ensures IsDispatch(context, handler, longer[..i], steps[i], longer[i]) {
      assert longer[..i] == log[..i];
      if i < |log| { assert IsDispatch(context, handler, log[..i], order[..|log|][i], log[i]); }
    }
  }

  /**
   Runs or queues every stage of a well-formed workflow once, in dependency order, whatever the
   handlers do. A workflow without an order is rejected before any stage is touched.
   */
  method Execute(stages: seq<Stage>, context: map<string, Value>, handler: Handler)
    returns (r: Result<map<string, Value>, OrderError>, log: seq<Dispatch>)
    ensures r.Ok? <==> AllResolve(stages) && Acyclic(stages)
    ensures r.Err? ==> log == [] && Witnessed(stages, r.error)
    ensures r.Ok? ==> r.value == ResultsOf(log)
    ensures r.Ok? ==> exists order :: IsOrder(stages, order) && IsWalk(order, context, handler, log)
  {
    var order := TopologicalOrder(stages);
    if order.Err? {
      return Err(order.error), [];
    }
    var results;
    results, log := Walk(order.value, context, handler);
    r := Ok(results);
  }

  method Walk(order: seq<Stage>, context: map<string, Value>, handler: Handler)
    returns (results: map<string, Value>, log: seq<Dispatch>)
    ensures IsWalk(order, context, handler, log)
    ensures results == ResultsOf(log)
  {
    results, log := map[], [];
    for i := 0 to |order|
      invariant |log| == i && results == ResultsOf(log)
      invariant IsWalk(order[..i], context, handler, log)
    {
      var dispatch := RunStage(order[i], Payload(context, results), handler, i);
      WalkOneMore(order, context, handler, log, dispatch);
      ResultsOneMore(log, dispatch);
      if Succeeded(dispatch) {
        results := results[dispatch.stage.name := dispatch.outcome.value];
      }
      log := log + [dispatch];
    }
    assert order[..|order|] == order;
  }

  /** A synchronous stage is called and waited for, an asynchronous one is queued. */
  method RunStage(stage: Stage, payload: map<string, Value>, handler: Handler, i: nat) returns (d: Dispatch)
    ensures d.stage == stage && d.payload == payload
    ensures d.Ran? <==> stage.sync
    ensures d.Ran? ==> d.outcome == handler(i, payload)
  {
    if stage.sync {
      var outcome := handler(i, payload);
      d := Ran(stage, payload, outcome);
    } else {
      d := Queued(stage, payload);
    }
  }

  // ---------------------------------------------------------------- what a stage sees

  /** With no name twice, the results are exactly the values of the stages that succeeded. */
  lemma {:induction false} ResultsAreSuccesses(log: seq<Dispatch>, name: string)
    requires forall i, j :: 0 <= i < j < |log| ==> log[i].stage.name != log[j].stage.name
    ensures name in ResultsOf(log) <==> exists i :: 0 <= i < |log| && Succeeded(log[i]) && log[i].stage.name == name
    ensures forall i :: 0 <= i < |log| && Succeeded(log[i]) && log[i].stage.name == name ==>
              name in ResultsOf(log) && ResultsOf(log)[name] == log[i].outcome.value
  {
    if log != [] {
      var shorter := log[..|log| - 1];
      ResultsAreSuccesses(shorter, name);
      if name in ResultsOf(shorter) {
        var i :| 0 <= i < |shorter| && Succeeded(shorter[i]) && shorter[i].stage.name == name;
        assert Succeeded(log[i]);
      }
    }
  }

  ghost predicate AlwaysReturns(handler: Handler) {
    forall n: nat, p: map<string, Value> :: handler(n, p).Completed?
  }

  /** The log names the stages of the order. */
  predicate Matches(order: seq<Stage>, log: seq<Dispatch>) {
    |log| == |order| && forall i :: 0 <= i < |log| ==> log[i].stage == order[i]
  }

  lemma WalkMatches(order: seq<Stage>, context: map<string, Value>, handler: Handler, log: seq<Dispatch>)
    requires IsWalk(order, context, handler, log)
    ensures Matches(order, log)
    ensures AlwaysReturns(handler) ==> forall i :: 0 <= i < |log| ==> (Succeeded(log[i]) <==> order[i].sync)
  {
    forall i | 0 <= i < |log|
      ensures log[i].stage == order[i] && (AlwaysReturns(handler) ==> (Succeeded(log[i]) <==> order[i].sync))
    {
      assert IsDispatch(context, handler, log[..i], order[i], log[i]);
    }
  }

  /** The entry is the value of a stage that succeeded before step i. */
  predicate IsResultEntry(log: seq<Dispatch>, i: nat, key: string, j: nat) {
    j < i <= |log| && Succeeded(log[j]) && key == log[j].stage.name + "_result"
  }

  lemma ResultIsEntry(log: seq<Dispatch>, key: string, j: nat)
    requires forall i, j :: 0 <= i < j < |log| ==> log[i].stage.name != log[j].stage.name
    requires IsResultEntry(log, |log|, key, j)
    ensures key in ResultEntries(ResultsOf(log)) && ResultEntries(ResultsOf(log))[key] == log[j].outcome.value
  {
    var name := log[j].stage.name;
    ResultsAreSuccesses(log, name);
    forall n | n + RESULT_SUFFIX == key ensures n == name { SuffixInjective(n, name); }
  }

  /**
   The entry under a key in the payload of step i: the value of the stage it is named after, if that
   stage succeeded before step i, and otherwise whatever the context holds under the key.
   */
  lemma PayloadEntry(order: seq<Stage>, context: map<string, Value>, handler: Handler, log: seq<Dispatch>, i: nat,
                     key: string)
    requires UniqueNames(order) && IsWalk(order, context, handler, log) && i < |log|
    ensures forall j: nat :: IsResultEntry(log, i, key, j) ==>
            key in log[i].payload && log[i].payload[key] == log[j].outcome.value
    ensures (forall j: nat :: !IsResultEntry(log, i, key, j)) ==>
              (key in log[i].payload <==> key in context) && (key in context ==> log[i].payload[key] == context[key])
  {
    var before := log[..i];
    WalkMatches(order, context, handler, log);
    assert IsDispatch(context, handler, before, order[i], log[i]);
    forall j: nat | IsResultEntry(log, i, key, j)
      ensures key in log[i].payload && log[i].payload[key] == log[j].outcome.value {
      assert before[j] == log[j];
      ResultIsEntry(before, key, j);
    }
    if key in ResultEntries(ResultsOf(before)) {
      var j := EntryIsResult(before, key);
      assert IsResultEntry(log, i, key, j);
    }
  }

  lemma EntryIsResult(log: seq<Dispatch>, key: string) returns (j: nat)
    requires forall i, j :: 0 <= i < j < |log| ==> log[i].stage.name != log[j].stage.name
    requires key in ResultEntries(ResultsOf(log))
    ensures IsResultEntry(log, |log|, key, j)
  {
    var name :| name in ResultsOf(log) && key == name + RESULT_SUFFIX;
    ResultsAreSuccesses(log, name);
    j :| 0 <= j < |log| && Succeeded(log[j]) && log[j].stage.name == name;
  }

  /** Everything a stage transitively depends on has been dispatched before it. */
  lemma DependenciesAttemptedFirst(stages: seq<Stage>, order: seq<Stage>, context: map<string, Value>, handler: Handler,
                                   log: seq<Dispatch>, i: nat, dep: string)
    requires IsOrder(stages, order) && IsWalk(order, context, handler, log) && i < |log|
    requires Reaches(stages, log[i].stage.name, dep)
    ensures exists j :: 0 <= j < i && log[j].stage.name == dep
  {
    TransitiveDependenciesPrecede(stages, order, i, dep);
    var j :| 0 <= j < i && order[j].name == dep;
    assert log[j].stage.name == dep;
  }

  predicate IsDependency(order: seq<Stage>, name: string) {
    exists i :: 0 <= i < |order| && name in order[i].dependsOn
  }

  /** Every stage found all its direct dependencies completed when it was dispatched. */
  ghost predicate DependenciesCompletedFirst(log: seq<Dispatch>) {
    forall i, d :: 0 <= i < |log| && d in log[i].stage.dependsOn ==>
      exists j :: 0 <= j < i && log[j].stage.name == d && Succeeded(log[j])
  }

  /** Completion in one log: every stage that others depend on succeeded. */
  lemma CompletedFirstWhen(stages: seq<Stage>, order: seq<Stage>, log: seq<Dispatch>)
    requires IsOrder(stages, order) && Matches(order, log)
    ensures DependenciesCompletedFirst(log) <==>
            forall j :: 0 <= j < |log| && IsDependency(order, log[j].stage.name) ==> Succeeded(log[j])
  {
    if DependenciesCompletedFirst(log) {
      forall j | 0 <= j < |log| && IsDependency(order, log[j].stage.name) ensures Succeeded(log[j]) {
        var i :| 0 <= i < |order| && log[j].stage.name in order[i].dependsOn;
        assert log[i].stage == order[i];
        var k :| 0 <= k < i && log[k].stage.name == log[j].stage.name && Succeeded(log[k]);
        assert order[k].name == order[j].name;
      }
    }
    if forall j :: 0 <= j < |log| && IsDependency(order, log[j].stage.name) ==> Succeeded(log[j]) {
      forall i, d | 0 <= i < |log| && d in log[i].stage.dependsOn
        ensures exists j :: 0 <= j < i && log[j].stage.name == d && Succeeded(log[j])
      {
        assert d in order[i].dependsOn && d in Names(order[..i]);
        var j :| 0 <= j < i && order[..i][j].name == d;
        assert log[j].stage == order[j];
        assert IsDependency(order, log[j].stage.name);
      }
    }
  }

  /** Every walk of the order with handlers that all return completes dependencies first. */
  ghost predicate PromisesCompletion(order: seq<Stage>) {
    forall context, handler, log :: IsWalk(order, context, handler, log) && AlwaysReturns(handler) ==>
      DependenciesCompletedFirst(log)
  }

  predicate OrderedDependenciesAreSync(order: seq<Stage>) {
    forall i :: 0 <= i < |order| && IsDependency(order, order[i].name) ==> order[i].sync
  }

  /** Every stage found for a name that a stage in use depends on is synchronous. */
  predicate DependenciesAreSync(stages: seq<Stage>) {
    forall i, d :: 0 <= i < |stages| && Primary(stages, stages[i]) && d in stages[i].dependsOn && Known(stages, d) ==>
      GetStage(stages, d).value.sync
  }

  lemma SyncInAnyOrder(stages: seq<Stage>, order: seq<Stage>)
    requires IsOrder(stages, order)
    ensures OrderedDependenciesAreSync(order) <==> DependenciesAreSync(stages)
  {
    if OrderedDependenciesAreSync(order) {
      forall i, d | 0 <= i < |stages| && Primary(stages, stages[i]) && d in stages[i].dependsOn && Known(stages, d)
        ensures GetStage(stages, d).value.sync
      {
        var k := InOrder(stages, order, stages[i]);
        var j := InOrder(stages, order, GetStage(stages, d).value);
        assert IsDependency(order, order[j].name);
      }
    }
    if DependenciesAreSync(stages) {
      forall j | 0 <= j < |order| && IsDependency(order, order[j].name) ensures order[j].sync {
        var i :| 0 <= i < |order| && order[j].name in order[i].dependsOn;
        assert Primary(stages, order[i]) && Primary(stages, order[j]);
        var k :| 0 <= k < |stages| && stages[k] == order[i];
      }
    }
  }

  lemma InOrder(stages: seq<Stage>, order: seq<Stage>, s: Stage) returns (k: nat)
    requires IsOrder(stages, order) && Primary(stages, s)
    ensures k < |order| && order[k] == s
  {
    var i :| 0 <= i < |stages| && stages[i] == s;
    assert s.name in Names(stages);
    k :| 0 <= k < |order| && order[k].name == s.name;
    assert Primary(stages, order[k]);
  }

  /** Every handler has a walk. */
  lemma {:induction false} WalkExists(order: seq<Stage>, context: map<string, Value>, handler: Handler, n: nat)
    returns (log: seq<Dispatch>)
    requires n <= |order|
    ensures IsWalk(order[..n], context, handler, log)
  {
    if n == 0 { return []; }
    log := WalkExists(order, context, handler, n - 1);
    var stage, payload := order[n - 1], Payload(context, ResultsOf(log));
    var d := if stage.sync then Ran(stage, payload, handler(n - 1, payload)) else Queued(stage, payload);
    WalkOneMore(order, context, handler, log, d);
    log := log + [d];
  }

  /**
   The documentation of depends_on promises completion; the engine only promises an earlier attempt.
   Even if every handler returns, completion is kept exactly when no stage found for a dependency is
   asynchronous.
   */
  lemma CompletedFirstIff(stages: seq<Stage>, order: seq<Stage>, v: Value)
    requires IsOrder(stages, order)
    ensures PromisesCompletion(order) <==> DependenciesAreSync(stages)
  {
    SyncInAnyOrder(stages, order);
    if OrderedDependenciesAreSync(order) {
      forall context, handler, log | IsWalk(order, context, handler, log) && AlwaysReturns(handler)
        ensures DependenciesCompletedFirst(log)
      {
        KeptPromise(stages, order, context, handler, log);
      }
    } else {
      NoPromise(stages, order, v);
    }
  }

  lemma NoPromise(stages: seq<Stage>, order: seq<Stage>, v: Value)
    requires IsOrder(stages, order) && !OrderedDependenciesAreSync(order)
    ensures !PromisesCompletion(order)
  {
    var context, handler, log := ReturningWalk(order, v);
    BrokenPromise(stages, order, context, handler, log);
  }

  lemma ReturningWalk(order: seq<Stage>, v: Value)
    returns (context: map<string, Value>, handler: Handler, log: seq<Dispatch>)
    ensures AlwaysReturns(handler) && IsWalk(order, context, handler, log)
  {
    context, handler := map[], (n, p) => Completed(v);
    log := WalkExists(order, context, handler, |order|);
    assert order[..|order|] == order;
  }

  lemma KeptPromise(stages: seq<Stage>, order: seq<Stage>, context: map<string, Value>, handler: Handler,
                    log: seq<Dispatch>)
    requires IsOrder(stages, order) && OrderedDependenciesAreSync(order)
    requires AlwaysReturns(handler) && IsWalk(order, context, handler, log)
    ensures DependenciesCompletedFirst(log)
  {
    WalkMatches(order, context, handler, log);
    CompletedFirstWhen(stages, order, log);
  }

  lemma BrokenPromise(stages: seq<Stage>, order: seq<Stage>, context: map<string, Value>, handler: Handler,
                      log: seq<Dispatch>)
    requires IsOrder(stages, order) && !OrderedDependenciesAreSync(order)
    requires AlwaysReturns(handler) && IsWalk(order, context, handler, log)
    ensures !DependenciesCompletedFirst(log)
  {
    WalkMatches(order, context, handler, log);
    CompletedFirstWhen(stages, order, log);
    var i :| 0 <= i < |order| && IsDependency(order, order[i].name) && !order[i].sync;
    assert !Succeeded(log[i]) && log[i].stage == order[i];
  }

  /**
   What a handler of a depended-on stage that fails, times out or is only queued does: the dependent
   stage runs all the same, later and without the result of that dependency.
   */
  lemma DependentsRunRegardless(stages: seq<Stage>, order: seq<Stage>, context: map<string, Value>, handler: Handler,
                                log: seq<Dispatch>, j: nat, i: nat)
    requires IsOrder(stages, order) && IsWalk(order, context, handler, log) && i < |order| && j < |order|
    requires order[j].name in order[i].dependsOn && !Succeeded(log[j])
    ensures j < i && log[i].stage == order[i] && !DependenciesCompletedFirst(log)
    ensures var key := order[j].name + RESULT_SUFFIX;
            (key in log[i].payload <==> key in context) && (key in context ==> log[i].payload[key] == context[key])
  {
    WalkMatches(order, context, handler, log);
    DependencyEarlier(stages, order, j, i);
    UnfinishedIsMissed(order, log, j, i);
    UnfinishedLeavesNoResult(order, context, handler, log, j, i);
  }

  lemma UnfinishedIsMissed(order: seq<Stage>, log: seq<Dispatch>, j: nat, i: nat)
    requires UniqueNames(order) && Matches(order, log) && j < |order| && i < |order|
    requires order[j].name in order[i].dependsOn && !Succeeded(log[j])
    ensures !DependenciesCompletedFirst(log)
  {
    forall k | 0 <= k < i && log[k].stage.name == order[j].name ensures !Succeeded(log[k]) {
      assert order[k].name == order[j].name;
    }
    assert order[j].name in log[i].stage.dependsOn;
  }

  lemma UnfinishedLeavesNoResult(order: seq<Stage>, context: map<string, Value>, handler: Handler, log: seq<Dispatch>,
                                 j: nat, i: nat)
    requires UniqueNames(order) && IsWalk(order, context, handler, log) && j < |order| && i < |order| &&
             !Succeeded(log[j])
    ensures var key := order[j].name + RESULT_SUFFIX;
            (key in log[i].payload <==> key in context) && (key in context ==> log[i].payload[key] == context[key])
  {
    WalkMatches(order, context, handler, log);
    var key := order[j].name + RESULT_SUFFIX;
    forall m: nat ensures !IsResultEntry(log, i, key, m) {
      if IsResultEntry(log, i, key, m) { SuffixInjective(order[m].name, order[j].name); }
    }
    PayloadEntry(order, context, handler, log, i, key);
  }

  lemma DependencyEarlier(stages: seq<Stage>, order: seq<Stage>, j: nat, i: nat)
    requires IsOrder(stages, order) && i < |order| && j < |order| && order[j].name in order[i].dependsOn
    ensures j < i
  {
    assert order[j].name in Names(order[..i]);
    var k :| 0 <= k < i && order[..i][k].name == order[j].name;
  }

  /** A stage that depends on an asynchronous one runs before it is known to have completed. */
  lemma QueuedDependencyBreaksPromise(v: Value)
    ensures var stages := [Stage("a", false, []), Stage("b", true, ["a"])];
            IsOrder(stages, stages) && !PromisesCompletion(stages)
  {
    var stages := [Stage("a", false, []), Stage("b", true, ["a"])];
    assert stages[..1][0].name == "a" && stages[1..][0].name == "b";
    assert GetStage(stages, "b") == Some(stages[1]);
    assert IsOrder(stages, stages);
    assert "a" in stages[1].dependsOn;
    assert GetStage(stages, "a") == Some(stages[0]);
    assert !DependenciesAreSync(stages);
    CompletedFirstIff(stages, stages, v);
  }
}
