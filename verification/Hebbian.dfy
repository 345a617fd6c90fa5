/**
 Co-activation edges: reinforcement (src/memory_service/storage/retrieval/hebbian.py) and the decay
 and pruning sweep (src/memory_service/workers/rem_worker.py).

 Each query is one step. The two reinforcement procedures and the sweep are proved to perform a given
 series of steps, and what each of them does as a whole follows. Everything else is stated over arbitrary
 series, so it also covers other procedures running in between.
 */
module Hebbian {
  import opened Basics

  datatype CoEdge = CoEdge(weight: real, count: nat, createdAt: real, lastActivated: real)

  type Pair = (string, string)

  /** How often an episode or a knowledge entry has been activated, and when last. */
  datatype Activity = Activity(count: nat, lastActivated: Option<real>)

  type Activities = map<string, Activity>

  /** The stored episodes and knowledge entries, and the co-activation edges. */
  datatype State = State(episodes: Activities, knowledge: Activities, edges: map<Pair, CoEdge>)

  const PRUNE_BELOW := 0.01

  datatype Step =
    | Activate(uuid: string, cap: nat, now: real)
    | ActivateKnowledge(uuid: string, cap: nat, now: real)
    | CoActivate(trigger: string, result: string, rate: real, now: real)
    | Decay(cutoff: real, factor: real)
    | Prune

  function Bump(active: Activities, uuid: string, cap: nat, now: real): Activities {
    if uuid !in active then active
    else active[uuid := Activity(if active[uuid].count < cap then active[uuid].count + 1 else cap, Some(now))]
  }

  function Reinforced(edges: map<Pair, CoEdge>, p: Pair, rate: real, now: real): CoEdge {
    if p in edges then
      CoEdge(edges[p].weight + rate * (1.0 - edges[p].weight), edges[p].count + 1, edges[p].createdAt, now)
    else CoEdge(rate, 1, now, now)
  }

  function DecayedEdge(e: CoEdge, cutoff: real, factor: real): CoEdge {
    if e.lastActivated < cutoff then e.(weight := e.weight * factor) else e
  }

  function Apply(s: State, step: Step): State {
    match step
    case Activate(uuid, cap, now) => s.(episodes := Bump(s.episodes, uuid, cap, now))
    case ActivateKnowledge(uuid, cap, now) => s.(knowledge := Bump(s.knowledge, uuid, cap, now))
    case CoActivate(trigger, result, rate, now) =>
      if trigger in s.episodes && result in s.episodes
      then s.(edges := s.edges[(trigger, result) := Reinforced(s.edges, (trigger, result), rate, now)])
      else s
    case Decay(cutoff, factor) => s.(edges := map p | p in s.edges :: DecayedEdge(s.edges[p], cutoff, factor))
    case Prune => s.(edges := map p | p in s.edges && s.edges[p].weight >= PRUNE_BELOW :: s.edges[p])
  }

  function Run(s: State, steps: seq<Step>): State
    decreases |steps|
  {
    if steps == [] then s else Apply(Run(s, steps[..|steps| - 1]), steps[|steps| - 1])
  }

  /** Which queries of a procedure go through, by their number; one that raises changes nothing. */
  type Outcomes = nat -> bool

  function Unless(raised: bool, step: Step): seq<Step> {
    if raised then [] else [step]
  }

  /** The two queries for the i-th result. If the first raises, the second is not made. */
  function PairSteps(trigger: string, result: string, i: nat, ok: Outcomes, rate: real, cap: nat,
                     now: real): seq<Step> {
    if result == trigger || !ok(2 * i + 1) then []
    else [Activate(result, cap, now)] + Unless(!ok(2 * i + 2), CoActivate(trigger, result, rate, now))
  }

  /** The steps of one observation: the trigger, then every other result that fits. */
  function ReinforceSteps(trigger: string, results: seq<string>, ok: Outcomes, rate: real, cap: nat,
                          now: real): seq<Step>
    decreases |results|
  {
    if results == [] then Unless(!ok(0), Activate(trigger, cap, now))
    else
      var n := |results| - 1;
      ReinforceSteps(trigger, results[..n], ok, rate, cap, now) + PairSteps(trigger, results[n], n, ok, rate, cap, now)
  }

  function KnowledgeSteps(results: seq<string>, ok: Outcomes, cap: nat, now: real): seq<Step>
    decreases |results|
  {
    if results == [] then []
    else
      var n := |results| - 1;
      KnowledgeSteps(results[..n], ok, cap, now) + Unless(!ok(n), ActivateKnowledge(results[n], cap, now))
  }

  /** A sweep that fails to decay does not prune. */
  function SweepSteps(cutoff: real, factor: real, ok: Outcomes): seq<Step> {
    if !ok(0) then [] else [Decay(cutoff, factor)] + Unless(!ok(1), Prune)
  }

  class ActivationGraph {
    var episodes: Activities
    var knowledge: Activities
    var edges: map<Pair, CoEdge>

    constructor ()
      ensures View() == State(map[], map[], map[])
    {
      episodes, knowledge, edges := map[], map[], map[];
    }

    function View(): State
      reads this
    {
      State(episodes, knowledge, edges)
    }

    method Perform(step: Step)
      modifies this
      ensures View() == Apply(old(View()), step)
    {
      match step {
        case Activate(uuid, cap, now) =>
          episodes := Bump(episodes, uuid, cap, now);
        case ActivateKnowledge(uuid, cap, now) =>
          knowledge := Bump(knowledge, uuid, cap, now);
        case CoActivate(trigger, result, rate, now) =>
          if trigger in episodes && result in episodes {
            edges := edges[(trigger, result) := Reinforced(edges, (trigger, result), rate, now)];
          }
        case Decay(cutoff, factor) =>
          edges := map p | p in edges :: DecayedEdge(edges[p], cutoff, factor);
        case Prune =>
          edges := map p | p in edges && edges[p].weight >= PRUNE_BELOW :: edges[p];
      }
    }

    /** A query that continues a run, unless it raises. */
    method Attempt(ok: bool, step: Step, ghost from: State, ghost steps: seq<Step>)
      requires View() == Run(from, steps)
      modifies this
      ensures View() == Run(from, steps + Unless(!ok, step))
    {
      if ok {
        Perform(step);
        RunOneMore(from, steps, step);
      } else {
        assert steps + [] == steps;
      }
    }

    method ReinforceCoActivations(trigger: string, results: seq<string>, ok: Outcomes, rate: real, maxPairs: int,
                                  cap: nat, now: real)
      modifies this
      ensures View() == Run(old(View()), ReinforceSteps(trigger, TakeUpTo(results, maxPairs), ok, rate, cap, now))
    {
      Attempt(ok(0), Activate(trigger, cap, now), View(), []);
      var taken := TakeUpTo(results, maxPairs);
      for i := 0 to |taken|
        invariant View() == Run(old(View()), ReinforceSteps(trigger, taken[..i], ok, rate, cap, now))
      {
        assert taken[..i + 1][..i] == taken[..i];
        ReinforcePair(trigger, taken[i], i, ok, rate, cap, now, old(View()),
                      ReinforceSteps(trigger, taken[..i], ok, rate, cap, now));
      }
      assert taken[..|taken|] == taken;
    }

    method ReinforcePair(trigger: string, result: string, i: nat, ok: Outcomes, rate: real, cap: nat, now: real,
                         ghost from: State, ghost steps: seq<Step>)
      requires View() == Run(from, steps)
      modifies this
      ensures View() == Run(from, steps + PairSteps(trigger, result, i, ok, rate, cap, now))
    {
      if result == trigger || !ok(2 * i + 1) {
        assert steps + [] == steps;
        return;
      }
      var activate := Activate(result, cap, now);
      Attempt(true, activate, from, steps);
      Attempt(ok(2 * i + 2), CoActivate(trigger, result, rate, now), from, steps + [activate]);
      assert (steps + [activate]) + Unless(!ok(2 * i + 2), CoActivate(trigger, result, rate, now))
          == steps + PairSteps(trigger, result, i, ok, rate, cap, now);
    }

    method ReinforceKnowledgeActivations(results: seq<string>, ok: Outcomes, cap: nat, now: real)
      modifies this
      ensures View() == Run(old(View()), KnowledgeSteps(results, ok, cap, now))
    {
      for i := 0 to |results|
        invariant View() == Run(old(View()), KnowledgeSteps(results[..i], ok, cap, now))
      {
        assert results[..i + 1][..i] == results[..i];
        Attempt(ok(i), ActivateKnowledge(results[i], cap, now), old(View()),
                KnowledgeSteps(results[..i], ok, cap, now));
      }
      assert results[..|results|] == results;
    }

    /** The sweep of one worker cycle. */
    method DecayWeights(now: real, intervalHours: real, rate: real, ok: Outcomes)
      modifies this
      ensures View() == Run(old(View()), SweepSteps(now - intervalHours * 3600.0, 1.0 - rate, ok))
    {
      if !ok(0) {
        return;
      }
      var decay := Decay(now - intervalHours * 3600.0, 1.0 - rate);
      Attempt(true, decay, View(), []);
      Attempt(ok(1), Prune, old(View()), [decay]);
    }
  }

  lemma RunOneMore(s: State, steps: seq<Step>, a: Step)
    ensures Run(s, steps + [a]) == Apply(Run(s, steps), a)
  {
    assert (steps + [a])[..|steps + [a]| - 1] == steps;
  }

  // ---------------------------------------------------------------- what one procedure does

  /** The activation of u goes through, as that of the trigger or of a result. */
  ghost predicate Activated(trigger: string, results: seq<string>, ok: Outcomes, u: string) {
    if u == trigger then ok(0) else exists i :: 0 <= i < |results| && results[i] == u && ok(2 * i + 1)
  }

  /** Both queries for the result that p leads to go through. */
  ghost predicate CoActivated(trigger: string, results: seq<string>, ok: Outcomes, p: Pair) {
    && p.0 == trigger != p.1
    && exists i :: 0 <= i < |results| && results[i] == p.1 && ok(2 * i + 1) && ok(2 * i + 2)
  }

  /** The given entries are activated once, up to the cap, and no others. */
  ghost predicate ActivatedOnce(before: Activities, after: Activities, hit: string -> bool, cap: nat, now: real) {
    && after.Keys == before.Keys
    && (forall u :: u in before && hit(u) ==>
          after[u] == Activity(if before[u].count < cap then before[u].count + 1 else cap, Some(now)))
    && (forall u :: u in before && !hit(u) ==> after[u] == before[u])
  }

  /** The given edges are reinforced once, or written, and no others are touched. */
  ghost predicate ReinforcedOnce(before: map<Pair, CoEdge>, after: map<Pair, CoEdge>, hit: Pair -> bool, rate: real,
                                 now: real) {
    && (forall p :: p in after <==> p in before || hit(p))
    && (forall p :: p in before && hit(p) ==>
          && after[p].weight == before[p].weight + rate * (1.0 - before[p].weight)
          && after[p].count == before[p].count + 1
          && after[p].createdAt == before[p].createdAt && after[p].lastActivated == now)
    && (forall p :: p !in before && hit(p) ==> after[p] == CoEdge(rate, 1, now, now))
    && (forall p :: p in before && !hit(p) ==> after[p] == before[p])
  }

  /** One result of an observation. */
  function AfterPair(s: State, trigger: string, result: string, i: nat, ok: Outcomes, rate: real, cap: nat,
                     now: real): State {
    if result == trigger || !ok(2 * i + 1) then s
    else
      var active := Apply(s, Activate(result, cap, now));
      if ok(2 * i + 2) then Apply(active, CoActivate(trigger, result, rate, now)) else active
  }

  /** A whole observation, result by result. */
  function Observed(s: State, trigger: string, results: seq<string>, ok: Outcomes, rate: real, cap: nat,
                    now: real): State
    decreases |results|
  {
    if results == [] then (if ok(0) then Apply(s, Activate(trigger, cap, now)) else s)
    else
      var n := |results| - 1;
      AfterPair(Observed(s, trigger, results[..n], ok, rate, cap, now), trigger, results[n], n, ok, rate, cap, now)
  }

  lemma PairRuns(s: State, steps: seq<Step>, trigger: string, result: string, i: nat, ok: Outcomes, rate: real,
                 cap: nat, now: real)
    ensures Run(s, steps + PairSteps(trigger, result, i, ok, rate, cap, now))
         == AfterPair(Run(s, steps), trigger, result, i, ok, rate, cap, now)
  {
    AppendNothing(steps);
    var activate, link := Activate(result, cap, now), CoActivate(trigger, result, rate, now);
    assert steps + ([activate] + []) == steps + [activate];
    assert steps + ([activate] + [link]) == (steps + [activate]) + [link];
    RunOneMore(s, steps, activate);
    RunOneMore(s, steps + [activate], link);
  }

  lemma {:induction false} ObservationRuns(s: State, trigger: string, results: seq<string>, ok: Outcomes, rate: real,
                                           cap: nat, now: real)
    ensures Run(s, ReinforceSteps(trigger, results, ok, rate, cap, now))
         == Observed(s, trigger, results, ok, rate, cap, now)
    decreases |results|
  {
    if results == [] {
      AppendNothing([Activate(trigger, cap, now)]);
      RunOneMore(s, [], Activate(trigger, cap, now));
    } else {
      var n := |results| - 1;
      ObservationRuns(s, trigger, results[..n], ok, rate, cap, now);
      PairRuns(s, ReinforceSteps(trigger, results[..n], ok, rate, cap, now), trigger, results[n], n, ok, rate, cap,
               now);
    }
  }

  lemma LastResult(trigger: string, results: seq<string>, ok: Outcomes, u: string)
    requires results != [] && NoRepeats(results)
    ensures var n := |results| - 1;
            && (Activated(trigger, results, ok, u) <==>
                  Activated(trigger, results[..n], ok, u) || (u == results[n] != trigger && ok(2 * n + 1)))
            && (u == results[n] != trigger ==> !Activated(trigger, results[..n], ok, u))
  {
    var n := |results| - 1;
    assert forall i :: 0 <= i < n ==> results[..n][i] == results[i];
  }

  lemma LastPair(trigger: string, results: seq<string>, ok: Outcomes, p: Pair)
    requires results != [] && NoRepeats(results)
    ensures var n := |results| - 1;
            && (CoActivated(trigger, results, ok, p) <==>
                  || CoActivated(trigger, results[..n], ok, p)
                  || (p == (trigger, results[n]) && p.1 != trigger && ok(2 * n + 1) && ok(2 * n + 2)))
            && (p.1 == results[n] ==> !CoActivated(trigger, results[..n], ok, p))
  {
    var n := |results| - 1;
    assert forall i :: 0 <= i < n ==> results[..n][i] == results[i];
  }

  lemma PairActivates(s: State, trigger: string, result: string, i: nat, ok: Outcomes, rate: real, cap: nat, now: real,
                      u: string)
    ensures var s' := AfterPair(s, trigger, result, i, ok, rate, cap, now);
            && s'.knowledge == s.knowledge && s'.episodes.Keys == s.episodes.Keys
            && (u in s.episodes ==>
                  s'.episodes[u] == if u == result != trigger && ok(2 * i + 1) then Bump(s.episodes, u, cap, now)[u]
                                    else s.episodes[u])
  {
  }

  lemma PairLinks(s: State, trigger: string, result: string, i: nat, ok: Outcomes, rate: real, cap: nat, now: real,
                  p: Pair)
    ensures var edges := AfterPair(s, trigger, result, i, ok, rate, cap, now).edges;
            if p == (trigger, result) && result != trigger && ok(2 * i + 1) && ok(2 * i + 2) &&
               p.0 in s.episodes && p.1 in s.episodes
            then p in edges && edges[p] == Reinforced(s.edges, p, rate, now)
            else (p in edges <==> p in s.edges) && (p in edges ==> edges[p] == s.edges[p])
  {
  }

  lemma ReinforcedAlike(a: map<Pair, CoEdge>, b: map<Pair, CoEdge>, p: Pair, rate: real, now: real)
    requires (p in a <==> p in b) && (p in a ==> a[p] == b[p])
    ensures Reinforced(a, p, rate, now) == Reinforced(b, p, rate, now)
  {
  }

  lemma {:induction false} EpisodesObserved(s: State, trigger: string, results: seq<string>, ok: Outcomes, rate: real,
                                            cap: nat, now: real, u: string)
    requires NoRepeats(results)
    ensures var s' := Observed(s, trigger, results, ok, rate, cap, now);
            && s'.knowledge == s.knowledge && s'.episodes.Keys == s.episodes.Keys
            && (u in s.episodes ==>
                  s'.episodes[u] == if Activated(trigger, results, ok, u) then Bump(s.episodes, u, cap, now)[u]
                                    else s.episodes[u])
    decreases |results|
  {
    if results != [] {
      var n := |results| - 1;
      EpisodesObserved(s, trigger, results[..n], ok, rate, cap, now, u);
      LastResult(trigger, results, ok, u);
      PairActivates(Observed(s, trigger, results[..n], ok, rate, cap, now), trigger, results[n], n, ok, rate, cap, now,
                    u);
    }
  }

  lemma {:induction false} EdgeObserved(s: State, trigger: string, results: seq<string>, ok: Outcomes, rate: real,
                                        cap: nat, now: real, p: Pair)
    requires NoRepeats(results)
    ensures var edges := Observed(s, trigger, results, ok, rate, cap, now).edges;
            if CoActivated(trigger, results, ok, p) && p.0 in s.episodes && p.1 in s.episodes
            then p in edges && edges[p] == Reinforced(s.edges, p, rate, now)
            else (p in edges <==> p in s.edges) && (p in edges ==> edges[p] == s.edges[p])
    decreases |results|
  {
    if results != [] {
      var n := |results| - 1;
      EpisodesObserved(s, trigger, results[..n], ok, rate, cap, now, trigger);
      EdgeObserved(s, trigger, results[..n], ok, rate, cap, now, p);
      LastPair(trigger, results, ok, p);
      var before := Observed(s, trigger, results[..n], ok, rate, cap, now);
      PairLinks(before, trigger, results[n], n, ok, rate, cap, now, p);
      if p == (trigger, results[n]) { ReinforcedAlike(s.edges, before.edges, p, rate, now); }
    }
  }

  /** The number of results an observation takes up: the limit, or all but so many if it is negative. */
  function Taken(results: nat, maxPairs: int): nat {
    if maxPairs >= results then results else if maxPairs >= 0 then maxPairs
    else if maxPairs + results >= 0 then maxPairs + results else 0
  }

  /**
   What an observation of distinct results does, whichever queries raise: the trigger and the results taken up
   whose activation goes through are activated once; their edges from the trigger, between stored episodes, are
   reinforced once if that query goes through too. Nothing else changes.
   */
  lemma ObservationEffect(s: State, trigger: string, results: seq<string>, ok: Outcomes, rate: real, maxPairs: int,
                          cap: nat, now: real)
    requires NoRepeats(results)
    ensures var s' := Run(s, ReinforceSteps(trigger, TakeUpTo(results, maxPairs), ok, rate, cap, now));
            var taken := results[..Taken(|results|, maxPairs)];
            && s'.knowledge == s.knowledge
            && ActivatedOnce(s.episodes, s'.episodes, u => Activated(trigger, taken, ok, u), cap, now)
            && ReinforcedOnce(s.edges, s'.edges, p => CoActivated(trigger, taken, ok, p) &&
                                                      p.0 in s.episodes && p.1 in s.episodes, rate, now)
  {
    var taken := results[..Taken(|results|, maxPairs)];
    assert taken == TakeUpTo(results, maxPairs);
    ObservationRuns(s, trigger, taken, ok, rate, cap, now);
    ObservedEverywhere(s, trigger, taken, ok, rate, cap, now);
  }

  lemma ObservedEverywhere(s: State, trigger: string, results: seq<string>, ok: Outcomes, rate: real, cap: nat,
                           now: real)
    requires NoRepeats(results)
    ensures var s' := Observed(s, trigger, results, ok, rate, cap, now);
            && s'.knowledge == s.knowledge
            && ActivatedOnce(s.episodes, s'.episodes, u => Activated(trigger, results, ok, u), cap, now)
            && ReinforcedOnce(s.edges, s'.edges, p => CoActivated(trigger, results, ok, p) &&
                                                      p.0 in s.episodes && p.1 in s.episodes, rate, now)
  {
    EpisodesObserved(s, trigger, results, ok, rate, cap, now, trigger);
    forall u: string {:trigger Activated(trigger, results, ok, u)} {
      EpisodesObserved(s, trigger, results, ok, rate, cap, now, u);
    }
    EdgesObserved(s, trigger, results, ok, rate, cap, now, Observed(s, trigger, results, ok, rate, cap, now).edges);
  }

  lemma EdgesObserved(s: State, trigger: string, results: seq<string>, ok: Outcomes, rate: real, cap: nat,
                      now: real, after: map<Pair, CoEdge>)
    requires NoRepeats(results) && after == Observed(s, trigger, results, ok, rate, cap, now).edges
    ensures ReinforcedOnce(s.edges, after, p => CoActivated(trigger, results, ok, p) &&
                                                p.0 in s.episodes && p.1 in s.episodes, rate, now)
  {
    forall p: Pair {:trigger CoActivated(trigger, results, ok, p)} {
      EdgeObserved(s, trigger, results, ok, rate, cap, now, p);
    }
  }

  /** One observation with one result leaves one edge, with the learning rate as its weight. */
  lemma FirstObservation(s: State, trigger: string, results: seq<string>, ok: Outcomes, rate: real, maxPairs: int,
                         cap: nat, now: real)
    requires |results| == 1 && results[0] != trigger && maxPairs >= 1 && s.edges == map[] && ok(1) && ok(2)
    requires trigger in s.episodes && results[0] in s.episodes
    ensures Run(s, ReinforceSteps(trigger, TakeUpTo(results, maxPairs), ok, rate, cap, now)).edges
         == map[(trigger, results[0]) := CoEdge(rate, 1, now, now)]
  {
    assert TakeUpTo(results, maxPairs) == results;
    ObservationRuns(s, trigger, results, ok, rate, cap, now);
    OneObserved(s, trigger, results, ok, rate, cap, now);
  }

  lemma OneObserved(s: State, trigger: string, results: seq<string>, ok: Outcomes, rate: real, cap: nat, now: real)
    requires |results| == 1 && results[0] != trigger && s.edges == map[] && ok(1) && ok(2)
    requires trigger in s.episodes && results[0] in s.episodes
    ensures Observed(s, trigger, results, ok, rate, cap, now).edges
         == map[(trigger, results[0]) := CoEdge(rate, 1, now, now)]
  {
    var active := if ok(0) then Apply(s, Activate(trigger, cap, now)) else s;
    assert Observed(s, trigger, results[..0], ok, rate, cap, now) == active;
    assert ok(2 * 0 + 1) && ok(2 * 0 + 2);
  }

  /** The activations of knowledge entries, one by one. */
  function Learned(active: Activities, results: seq<string>, ok: Outcomes, cap: nat, now: real): Activities
    decreases |results|
  {
    if results == [] then active
    else
      var n := |results| - 1;
      var before := Learned(active, results[..n], ok, cap, now);
      if ok(n) then Bump(before, results[n], cap, now) else before
  }

  lemma {:induction false} KnowledgeRuns(s: State, results: seq<string>, ok: Outcomes, cap: nat, now: real)
    ensures Run(s, KnowledgeSteps(results, ok, cap, now))
         == State(s.episodes, Learned(s.knowledge, results, ok, cap, now), s.edges)
    decreases |results|
  {
    if results != [] {
      var n := |results| - 1;
      KnowledgeRuns(s, results[..n], ok, cap, now);
      AppendNothing(KnowledgeSteps(results[..n], ok, cap, now));
      RunOneMore(s, KnowledgeSteps(results[..n], ok, cap, now), ActivateKnowledge(results[n], cap, now));
    }
  }

  /** The activation of entry u goes through. */
  ghost predicate Used(results: seq<string>, ok: Outcomes, u: string) {
    exists i :: 0 <= i < |results| && results[i] == u && ok(i)
  }

  lemma LastUsed(results: seq<string>, ok: Outcomes, u: string)
    requires results != [] && NoRepeats(results)
    ensures var n := |results| - 1;
            && (Used(results, ok, u) <==> Used(results[..n], ok, u) || (u == results[n] && ok(n)))
            && (u == results[n] ==> !Used(results[..n], ok, u))
  {
    var n := |results| - 1;
    assert forall i :: 0 <= i < n ==> results[..n][i] == results[i];
  }

  lemma {:induction false} EntryActivated(active: Activities, results: seq<string>, ok: Outcomes, cap: nat, now: real,
                                          u: string)
    requires NoRepeats(results)
    ensures var after := Learned(active, results, ok, cap, now);
            && after.Keys == active.Keys
            && (u in active ==>
                  after[u] == if Used(results, ok, u) then Bump(active, u, cap, now)[u] else active[u])
    decreases |results|
  {
    if results != [] {
      EntryActivated(active, results[..|results| - 1], ok, cap, now, u);
      LastUsed(results, ok, u);
    }
  }

  /** Of distinct entries, those whose activation goes through are activated once; nothing else changes. */
  lemma KnowledgeEffect(s: State, results: seq<string>, ok: Outcomes, cap: nat, now: real)
    requires NoRepeats(results)
    ensures var s' := Run(s, KnowledgeSteps(results, ok, cap, now));
            && s'.episodes == s.episodes && s'.edges == s.edges
            && ActivatedOnce(s.knowledge, s'.knowledge, u => Used(results, ok, u), cap, now)
  {
    KnowledgeRuns(s, results, ok, cap, now);
    EntryActivated(s.knowledge, results, ok, cap, now, "");
    forall u | u in s.knowledge { EntryActivated(s.knowledge, results, ok, cap, now, u); }
  }

  /**
   A sweep scales the weight of an edge last activated before the cutoff and then removes it if that leaves
   less than 0.01. If the first query raises, nothing changes; if the second does, nothing is removed.
   */
  lemma SweepEffect(s: State, cutoff: real, factor: real, ok: Outcomes, p: Pair, e: CoEdge, left: real)
    requires p in s.edges && e == s.edges[p]
    requires left == (if e.lastActivated < cutoff then e.weight * factor else e.weight)
    ensures var s' := Run(s, SweepSteps(cutoff, factor, ok));
            && s'.episodes == s.episodes && s'.knowledge == s.knowledge && s'.edges.Keys <= s.edges.Keys
            && (!ok(0) ==> s' == s)
            && (ok(0) ==> (p in s'.edges <==> left >= 0.01 || !ok(1)))
            && (ok(0) && p in s'.edges ==> s'.edges[p] == e.(weight := left))
  {
    SweepRuns(s, cutoff, factor, ok);
    FadesTo(e, cutoff, factor, left);
    SweptEdge(s, cutoff, factor, p, e.(weight := left));
  }

  lemma FadesTo(e: CoEdge, cutoff: real, factor: real, left: real)
    requires left == (if e.lastActivated < cutoff then e.weight * factor else e.weight)
    ensures DecayedEdge(e, cutoff, factor) == e.(weight := left)
  {
  }

  lemma SweptEdge(s: State, cutoff: real, factor: real, p: Pair, faded: CoEdge)
    requires p in s.edges && DecayedEdge(s.edges[p], cutoff, factor) == faded
    ensures var s' := Apply(s, Decay(cutoff, factor));
            && s'.edges.Keys == s.edges.Keys && s'.edges[p] == faded
            && (p in Apply(s', Prune).edges <==> faded.weight >= 0.01)
            && (p in Apply(s', Prune).edges ==> Apply(s', Prune).edges[p] == faded)
  {
  }

  lemma SweepRuns(s: State, cutoff: real, factor: real, ok: Outcomes)
    ensures Run(s, SweepSteps(cutoff, factor, ok))
         == if !ok(0) then s
            else if ok(1) then Apply(Apply(s, Decay(cutoff, factor)), Prune)
            else Apply(s, Decay(cutoff, factor))
  {
    var decay := Decay(cutoff, factor);
    AppendNothing([decay]);
    RunOneMore(s, [], decay);
    RunOneMore(s, [decay], Prune);
  }

  // ---------------------------------------------------------------- bounds over all runs

  predicate RatesInUnit(steps: seq<Step>) {
    forall i :: 0 <= i < |steps| ==>
      && (steps[i].CoActivate? ==> 0.0 <= steps[i].rate <= 1.0)
      && (steps[i].Decay? ==> 0.0 <= steps[i].factor <= 1.0)
  }

  ghost predicate WeightsInUnit(s: State) {
    forall p :: p in s.edges ==> 0.0 <= s.edges[p].weight <= 1.0
  }

  lemma ReinforcedInUnit(w: real, rate: real, reinforced: real)
    requires 0.0 <= w <= 1.0 && 0.0 <= rate <= 1.0 && reinforced == w + rate * (1.0 - w)
    ensures w <= reinforced <= 1.0
  {
    ProductNonNegative(rate, 1.0 - w);
    ProductNonNegative(1.0 - rate, 1.0 - w);
  }

  lemma EdgeStaysInUnit(edges: map<Pair, CoEdge>, p: Pair, rate: real, time: real)
    requires 0.0 <= rate <= 1.0 && (p in edges ==> 0.0 <= edges[p].weight <= 1.0)
    ensures 0.0 <= Reinforced(edges, p, rate, time).weight <= 1.0
    ensures p in edges ==> 0.0 <= DecayedEdge(edges[p], time, rate).weight <= 1.0
  {
    if p in edges {
      ReinforcedInUnit(edges[p].weight, rate, Reinforced(edges, p, rate, time).weight);
      if edges[p].lastActivated < time { ScaledBy(edges[p].weight, rate, DecayedEdge(edges[p], time, rate).weight); }
    }
  }

  lemma StepKeepsUnit(s: State, step: Step)
    requires WeightsInUnit(s)
    requires step.CoActivate? ==> 0.0 <= step.rate <= 1.0
    requires step.Decay? ==> 0.0 <= step.factor <= 1.0
    ensures WeightsInUnit(Apply(s, step))
  {
    var after := Apply(s, step);
    forall p | p in after.edges ensures 0.0 <= after.edges[p].weight <= 1.0 {
      if step.CoActivate? {
        EdgeStaysInUnit(s.edges, p, step.rate, step.now);
      } else if step.Decay? {
        EdgeStaysInUnit(s.edges, p, step.factor, step.cutoff);
      }
    }
  }

  /** Weights stay in [0, 1] under every interleaving of reinforcement, decay and pruning. */
  lemma {:induction false} WeightsStayInUnit(s: State, steps: seq<Step>)
    requires WeightsInUnit(s) && RatesInUnit(steps)
    ensures WeightsInUnit(Run(s, steps))
    decreases |steps|
  {
    if steps != [] {
      var n := |steps| - 1;
      WeightsStayInUnit(s, steps[..n]);
      StepKeepsUnit(Run(s, steps[..n]), steps[n]);
    }
  }

  predicate CapsAtMost(steps: seq<Step>, cap: nat) {
    forall i :: 0 <= i < |steps| && (steps[i].Activate? || steps[i].ActivateKnowledge?) ==> steps[i].cap <= cap
  }

  ghost predicate CountsAtMost(active: Activities, cap: nat) {
    forall u :: u in active ==> active[u].count <= cap
  }

  /** Activation counts never pass the cap. */
  lemma {:induction false} CountsStayCapped(s: State, steps: seq<Step>, cap: nat)
    requires CountsAtMost(s.episodes, cap) && CountsAtMost(s.knowledge, cap) && CapsAtMost(steps, cap)
    ensures CountsAtMost(Run(s, steps).episodes, cap) && CountsAtMost(Run(s, steps).knowledge, cap)
    decreases |steps|
  {
    if steps != [] {
      CountsStayCapped(s, steps[..|steps| - 1], cap);
    }
  }

  function TimesActivated(steps: seq<Step>, uuid: string): nat
    decreases |steps|
  {
    if steps == [] then 0
    else TimesActivated(steps[..|steps| - 1], uuid)
         + (if steps[|steps| - 1].Activate? && steps[|steps| - 1].uuid == uuid then 1 else 0)
  }

  /** Time of the last activation, or the one recorded before. */
  function LastActivation(steps: seq<Step>, uuid: string, before: Option<real>): Option<real>
    decreases |steps|
  {
    if steps == [] then before
    else if steps[|steps| - 1].Activate? && steps[|steps| - 1].uuid == uuid then Some(steps[|steps| - 1].now)
    else LastActivation(steps[..|steps| - 1], uuid, before)
  }

  /**
   With one cap throughout, a count is the number of activations, cut off at the cap; the time is
   that of the last.
   */
  lemma {:induction false} CountIsCappedTotal(s: State, steps: seq<Step>, uuid: string, cap: nat)
    requires uuid in s.episodes && s.episodes[uuid].count <= cap
    requires forall i :: 0 <= i < |steps| && steps[i].Activate? ==> steps[i].cap == cap
    ensures uuid in Run(s, steps).episodes
    ensures Run(s, steps).episodes[uuid]
         == Activity(Min(s.episodes[uuid].count + TimesActivated(steps, uuid), cap),
                     LastActivation(steps, uuid, s.episodes[uuid].lastActivated))
    decreases |steps|
  {
    if steps != [] {
      CountIsCappedTotal(s, steps[..|steps| - 1], uuid, cap);
    }
  }

  // ---------------------------------------------------------------- growth in closed form

  function Power(x: real, n: nat): real {
    if n == 0 then 1.0 else x * Power(x, n - 1)
  }

  predicate Touches(step: Step, p: Pair) {
    step.CoActivate? && (step.trigger, step.result) == p
  }

  function Reinforcements(steps: seq<Step>, p: Pair): nat
    decreases |steps|
  {
    if steps == [] then 0
    else Reinforcements(steps[..|steps| - 1], p) + (if Touches(steps[|steps| - 1], p) then 1 else 0)
  }

  /** No decay, and one learning rate for the pair. */
  predicate OnlyGrows(steps: seq<Step>, p: Pair, rate: real) {
    forall i :: 0 <= i < |steps| ==> !steps[i].Decay? && (Touches(steps[i], p) ==> steps[i].rate == rate)
  }

  /** The edge of p after n reinforcements that started it and only reinforcements since. */
  ghost predicate GrownTo(s: State, p: Pair, rate: real, n: nat) {
    && (p in s.edges <==> n > 0)
    && (n > 0 ==> s.edges[p].count == n && s.edges[p].weight == 1.0 - Power(1.0 - rate, n))
  }

  /** At every pruning, the reinforcements so far have taken the weight to the threshold. */
  predicate KeptByPrunings(steps: seq<Step>, p: Pair, rate: real)
    decreases |steps|
  {
    if steps == [] then true
    else
      var before, last := steps[..|steps| - 1], steps[|steps| - 1];
      && KeptByPrunings(before, p, rate)
      && (last.Prune? && Reinforcements(before, p) > 0 ==>
          1.0 - Power(1.0 - rate, Reinforcements(before, p)) >= PRUNE_BELOW)
  }

  /** Some reinforcements have been forgotten. */
  ghost predicate FewerThan(s: State, p: Pair, n: nat) {
    n > 0 && (p in s.edges ==> s.edges[p].count < n)
  }

  lemma GrowStep(s: State, step: Step, p: Pair, rate: real, n: nat)
    requires p.0 in s.episodes && p.1 in s.episodes && !step.Decay? && (Touches(step, p) ==> step.rate == rate)
    ensures var pruned := step.Prune? && n > 0 && 1.0 - Power(1.0 - rate, n) < PRUNE_BELOW;
            var n' := if Touches(step, p) then n + 1 else n;
            && (GrownTo(s, p, rate, n) && !pruned ==> GrownTo(Apply(s, step), p, rate, n'))
            && (GrownTo(s, p, rate, n) && pruned ==> FewerThan(Apply(s, step), p, n'))
            && (FewerThan(s, p, n) ==> FewerThan(Apply(s, step), p, n'))
    ensures Apply(s, step).episodes.Keys == s.episodes.Keys
  {
    if Touches(step, p) {
      GrowOnce(rate, Power(1.0 - rate, n));
      assert Power(1.0 - rate, 1) == (1.0 - rate) * Power(1.0 - rate, 0);
    }
  }

  lemma {:induction false} GrowthOrLoss(s: State, steps: seq<Step>, p: Pair, rate: real)
    requires p !in s.edges && p.0 in s.episodes && p.1 in s.episodes && OnlyGrows(steps, p, rate)
    ensures if KeptByPrunings(steps, p, rate) then GrownTo(Run(s, steps), p, rate, Reinforcements(steps, p))
            else FewerThan(Run(s, steps), p, Reinforcements(steps, p))
    ensures Run(s, steps).episodes.Keys == s.episodes.Keys
    decreases |steps|
  {
    if steps != [] {
      var before, last := steps[..|steps| - 1], steps[|steps| - 1];
      GrowthOrLoss(s, before, p, rate);
      GrowStep(Run(s, before), last, p, rate, Reinforcements(before, p));
    }
  }

  /**
   An edge that did not exist before and is reinforced n times without decay has count n and weight
   1 - (1 - rate)^n, whatever happens to other edges in between, if and only if at every pruning the
   reinforcements so far had taken it to the threshold. The rate may be any number.
   */
  lemma GrowthIsGeometric(s: State, steps: seq<Step>, p: Pair, rate: real)
    requires p !in s.edges && p.0 in s.episodes && p.1 in s.episodes && OnlyGrows(steps, p, rate)
    ensures GrownTo(Run(s, steps), p, rate, Reinforcements(steps, p)) <==> KeptByPrunings(steps, p, rate)
  {
    GrowthOrLoss(s, steps, p, rate);
  }

  /** A rate between the threshold and 1 is safe from every pruning. */
  lemma {:induction false} SteadyRateIsKept(steps: seq<Step>, p: Pair, rate: real)
    requires PRUNE_BELOW <= rate <= 1.0
    ensures KeptByPrunings(steps, p, rate)
    decreases |steps|
  {
    if steps != [] {
      SteadyRateIsKept(steps[..|steps| - 1], p, rate);
      PowerBounds(1.0 - rate, Reinforcements(steps[..|steps| - 1], p));
    }
  }

  /** With a lower rate, a fresh edge does not outlive the next pruning. */
  lemma LowRateIsPruned(s: State, p: Pair, rate: real, now: real)
    requires p !in s.edges && p.0 in s.episodes && p.1 in s.episodes && rate < PRUNE_BELOW
    ensures p !in Run(s, [CoActivate(p.0, p.1, rate, now), Prune]).edges
  {
    var first := CoActivate(p.0, p.1, rate, now);
    assert [first, Prune] == [first] + [Prune] && [first] == [] + [first];
    RunOneMore(s, [first], Prune);
    RunOneMore(s, [], first);
  }

  /** Time of the last reinforcement of p, if any. */
  function LastReinforced(steps: seq<Step>, p: Pair): Option<real>
    decreases |steps|
  {
    if steps == [] then None
    else if Touches(steps[|steps| - 1], p) then Some(steps[|steps| - 1].now)
    else LastReinforced(steps[..|steps| - 1], p)
  }

  /** Over every run the time decay goes by is that of the last reinforcement. */
  lemma {:induction false} ReinforcementRefreshes(s: State, steps: seq<Step>, p: Pair)
    requires p.0 in s.episodes && p.1 in s.episodes
    ensures var s', last := Run(s, steps), LastReinforced(steps, p);
            && s'.episodes.Keys == s.episodes.Keys
            && (p in s'.edges ==>
                  if last.Some? then s'.edges[p].lastActivated == last.value
                  else p in s.edges && s'.edges[p].lastActivated == s.edges[p].lastActivated)
    decreases |steps|
  {
    if steps != [] {
      ReinforcementRefreshes(s, steps[..|steps| - 1], p);
    }
  }

  lemma GrowOnce(rate: real, q: real)
    ensures (1.0 - q) + rate * (1.0 - (1.0 - q)) == 1.0 - (1.0 - rate) * q
  {
  }

  lemma {:induction false} PowerBounds(x: real, n: nat)
    requires 0.0 <= x <= 1.0
    ensures 0.0 <= Power(x, n) <= 1.0
    ensures n > 0 ==> Power(x, n) <= x
    ensures 0.0 < x ==> 0.0 < Power(x, n)
  {
    if n > 0 {
      PowerBounds(x, n - 1);
      ScaledBy(x, Power(x, n - 1), Power(x, n));
      if x > 0.0 { ProductPositive(x, Power(x, n - 1)); }
    }
  }

  lemma ScaleFalls(q: real, x: real, r: real)
    requires q > 0.0 && 0.0 < x < 1.0 && r == x * q
    ensures r < q
  {
    ProductPositive(q, 1.0 - x);
    assert q * (1.0 - x) == q - r;
  }

  lemma PowerFalls(x: real, n: nat)
    requires 0.0 < x < 1.0
    ensures Power(x, n + 1) > 0.0
    ensures Power(x, n + 1) < Power(x, n)
  {
    PowerBounds(x, n);
    PowerBounds(x, n + 1);
    ScaleFalls(Power(x, n), x, Power(x, n + 1));
  }

  /** The weights of the closed form grow strictly and stay below 1. */
  lemma GrowthIsStrict(rate: real, n: nat)
    requires 0.0 < rate < 1.0
    ensures 1.0 - Power(1.0 - rate, n) < 1.0 - Power(1.0 - rate, n + 1) < 1.0
  {
    PowerFalls(1.0 - rate, n);
  }

  // ---------------------------------------------------------------- forgetting

  /** A weight after n decays. */
  function Faded(w: real, factor: real, n: nat): real {
    if n == 0 then w else Faded(w, factor, n - 1) * factor
  }

  /** Decays that reach an edge last activated at the given time. */
  function StaleDecays(steps: seq<Step>, last: real): nat
    decreases |steps|
  {
    if steps == [] then 0
    else StaleDecays(steps[..|steps| - 1], last)
         + (if steps[|steps| - 1].Decay? && last < steps[|steps| - 1].cutoff then 1 else 0)
  }

  /** Such decays before the last pruning, if the run prunes at all. */
  function DecaysAtLastPrune(steps: seq<Step>, last: real): Option<nat>
    decreases |steps|
  {
    if steps == [] then None
    else if steps[|steps| - 1].Prune? then Some(StaleDecays(steps[..|steps| - 1], last))
    else DecaysAtLastPrune(steps[..|steps| - 1], last)
  }

  predicate Forgets(steps: seq<Step>, p: Pair, factor: real) {
    forall i :: 0 <= i < |steps| ==> !Touches(steps[i], p) && (steps[i].Decay? ==> steps[i].factor == factor)
  }

  lemma {:induction false} FadedBounds(w: real, factor: real, n: nat)
    requires w >= 0.0 && 0.0 <= factor <= 1.0
    ensures 0.0 <= Faded(w, factor, n) <= w
  {
    if n > 0 {
      FadedBounds(w, factor, n - 1);
      ScaledBy(Faded(w, factor, n - 1), factor, Faded(w, factor, n));
    }
  }

  lemma {:induction false} FadedFalls(w: real, factor: real, m: nat, n: nat)
    requires w >= 0.0 && 0.0 <= factor <= 1.0 && m <= n
    ensures Faded(w, factor, n) <= Faded(w, factor, m)
    decreases n
  {
    if m < n {
      FadedFalls(w, factor, m, n - 1);
      FadedBounds(w, factor, n - 1);
      ScaledBy(Faded(w, factor, n - 1), factor, Faded(w, factor, n));
    }
  }

  lemma {:induction false} PruneSeesFewer(steps: seq<Step>, last: real)
    ensures var k := DecaysAtLastPrune(steps, last); k.Some? ==> k.value <= StaleDecays(steps, last)
    decreases |steps|
  {
    if steps != [] { PruneSeesFewer(steps[..|steps| - 1], last); }
  }

  /** What an edge that is not reinforced has become. */
  ghost predicate ForgottenTo(s: State, p: Pair, e: CoEdge, factor: real, pruned: Option<nat>, n: nat) {
    && (p in s.edges <==> (pruned.Some? ==> Faded(e.weight, factor, pruned.value) >= PRUNE_BELOW))
    && (p in s.edges ==> s.edges[p] == e.(weight := Faded(e.weight, factor, n)))
  }

  lemma ForgetStep(s: State, step: Step, p: Pair, e: CoEdge, factor: real, pruned: Option<nat>, n: nat)
    requires ForgottenTo(s, p, e, factor, pruned, n) && e.weight >= 0.0 && 0.0 <= factor <= 1.0
    requires !Touches(step, p) && (step.Decay? ==> step.factor == factor) && (pruned.Some? ==> pruned.value <= n)
    ensures ForgottenTo(Apply(s, step), p, e, factor, if step.Prune? then Some(n) else pruned,
                        if step.Decay? && e.lastActivated < step.cutoff then n + 1 else n)
  {
    match step {
      case Decay(cutoff, _) => ForgetDecay(s, cutoff, p, e, factor, pruned, n);
      case Prune => ForgetPrune(s, p, e, factor, pruned, n);
      case _ =>
    }
  }

  lemma ForgetDecay(s: State, cutoff: real, p: Pair, e: CoEdge, factor: real, pruned: Option<nat>, n: nat)
    requires ForgottenTo(s, p, e, factor, pruned, n)
    ensures ForgottenTo(Apply(s, Decay(cutoff, factor)), p, e, factor, pruned,
                        if e.lastActivated < cutoff then n + 1 else n)
  {
    if p in s.edges {
      assert Apply(s, Decay(cutoff, factor)).edges[p] == DecayedEdge(s.edges[p], cutoff, factor);
      assert Faded(e.weight, factor, n + 1) == Faded(e.weight, factor, n) * factor;
    }
  }

  lemma ForgetPrune(s: State, p: Pair, e: CoEdge, factor: real, pruned: Option<nat>, n: nat)
    requires ForgottenTo(s, p, e, factor, pruned, n) && e.weight >= 0.0 && 0.0 <= factor <= 1.0 &&
             (pruned.Some? ==> pruned.value <= n)
    ensures ForgottenTo(Apply(s, Prune), p, e, factor, Some(n), n)
  {
    if pruned.Some? { FadedFalls(e.weight, factor, pruned.value, n); }
  }

  /**
   An edge that is never reinforced survives a run exactly when, at the last pruning, the decays that
   reached it had left its weight at or above the threshold; its weight is then the faded one.
   */
  lemma {:induction false} SurvivalIff(s: State, steps: seq<Step>, p: Pair, factor: real)
    requires p in s.edges && s.edges[p].weight >= 0.0 && 0.0 <= factor <= 1.0 && Forgets(steps, p, factor)
    ensures var e := s.edges[p];
            ForgottenTo(Run(s, steps), p, e, factor, DecaysAtLastPrune(steps, e.lastActivated),
                        StaleDecays(steps, e.lastActivated))
    decreases |steps|
  {
    if steps != [] {
      var e, before, last := s.edges[p], steps[..|steps| - 1], steps[|steps| - 1];
      SurvivalIff(s, before, p, factor);
      PruneSeesFewer(before, e.lastActivated);
      ForgetStep(Run(s, before), last, p, e, factor, DecaysAtLastPrune(before, e.lastActivated),
                 StaleDecays(before, e.lastActivated));
    }
  }

  /** 1 + n * rate, as a sum. */
  function Slope(rate: real, n: nat): real {
    if n == 0 then 1.0 else Slope(rate, n - 1) + rate
  }

  lemma {:induction false} SlopeClosedForm(rate: real, n: nat)
    requires rate >= 0.0
    ensures Slope(rate, n) == 1.0 + n as real * rate && Slope(rate, n) >= 1.0
  {
    if n > 0 {
      SlopeClosedForm(rate, n - 1);
      var k := (n - 1) as real;
      assert n as real == k + 1.0;
      assert (k + 1.0) * rate == k * rate + rate;
    }
  }

  /** With rate r = 1 - factor: (1 - r)^n <= 1 / (1 + nr), without the division. */
  lemma {:induction false} FadedBernoulli(w: real, factor: real, n: nat)
    requires w >= 0.0 && 0.0 <= factor <= 1.0
    ensures Faded(w, factor, n) * Slope(1.0 - factor, n) <= w
  {
    if n > 0 {
      var rate := 1.0 - factor;
      FadedBernoulli(w, factor, n - 1);
      FadedBounds(w, factor, n - 1);
      SlopeClosedForm(rate, n - 1);
      BernoulliStep(Faded(w, factor, n - 1), factor, Slope(rate, n - 1), Faded(w, factor, n), Slope(rate, n));
    }
  }

  lemma BernoulliStep(f: real, factor: real, y: real, f': real, y': real)
    requires f >= 0.0 && 0.0 <= factor <= 1.0 && y >= 1.0
    requires f' == f * factor && y' == y + (1.0 - factor)
    ensures f' * y' <= f * y
  {
    var loss := (1.0 - factor) * (y - factor);
    ProductNonNegative(1.0 - factor, y - factor);
    var shrunk := factor * y';
    assert shrunk == y - loss;
    assert f' * y' == f * shrunk;
    assert f * shrunk == f * y - f * loss;
    ProductNonNegative(f, loss);
  }

  predicate EnoughSweeps(rate: real, n: nat) {
    n as real * rate > 99.0
  }

  lemma SweptEnough(w: real, factor: real, n: nat)
    requires 0.0 <= w <= 1.0 && 0.0 <= factor <= 1.0 && EnoughSweeps(1.0 - factor, n)
    ensures Faded(w, factor, n) < PRUNE_BELOW
  {
    FadedBernoulli(w, factor, n);
    SlopeClosedForm(1.0 - factor, n);
    AboveThreshold(Faded(w, factor, n), Slope(1.0 - factor, n));
  }

  lemma AboveThreshold(f: real, m: real)
    requires m > 100.0
    ensures f >= PRUNE_BELOW ==> f * m > 1.0
  {
    if f >= PRUNE_BELOW { ProductPositive(f, m - 100.0); }
  }

  lemma FadedAway(s: State, p: Pair, e: CoEdge, factor: real, pruned: Option<nat>, n: nat)
    requires ForgottenTo(s, p, e, factor, pruned, n) && pruned.Some? && EnoughSweeps(1.0 - factor, pruned.value)
    requires 0.0 <= e.weight <= 1.0 && 0.0 <= factor <= 1.0
    ensures p !in s.edges
  {
    SweptEnough(e.weight, factor, pruned.value);
  }

  /** A stale edge of weight at most 1 is gone once it has been swept n times with n * rate > 99, rate = 1 - factor. */
  lemma StaleEdgesArePruned(s: State, steps: seq<Step>, p: Pair, factor: real)
    requires p in s.edges && 0.0 <= s.edges[p].weight <= 1.0 && 0.0 <= factor <= 1.0 && Forgets(steps, p, factor)
    requires var pruned := DecaysAtLastPrune(steps, s.edges[p].lastActivated);
             pruned.Some? && EnoughSweeps(1.0 - factor, pruned.value)
    ensures p !in Run(s, steps).edges
  {
    var e := s.edges[p];
    SurvivalIff(s, steps, p, factor);
    FadedAway(Run(s, steps), p, e, factor, DecaysAtLastPrune(steps, e.lastActivated),
              StaleDecays(steps, e.lastActivated));
  }

  /** The steps of consecutive worker cycles. */
  function Cycles(cutoffs: seq<real>, factor: real): seq<Step>
    decreases |cutoffs|
  {
    if cutoffs == [] then []
    else Cycles(cutoffs[..|cutoffs| - 1], factor) + [Decay(cutoffs[|cutoffs| - 1], factor), Prune]
  }

  /** A cycle is a sweep whose two queries go through. */
  lemma CyclesAreSweeps(cutoffs: seq<real>, factor: real, cutoff: real)
    ensures Cycles(cutoffs + [cutoff], factor) == Cycles(cutoffs, factor) + SweepSteps(cutoff, factor, _ => true)
  {
    assert (cutoffs + [cutoff])[..|cutoffs|] == cutoffs;
    assert SweepSteps(cutoff, factor, _ => true) == [Decay(cutoff, factor)] + [Prune];
  }

  lemma {:induction false} CyclesCount(cutoffs: seq<real>, factor: real, last: real)
    requires forall i :: 0 <= i < |cutoffs| ==> last < cutoffs[i]
    ensures StaleDecays(Cycles(cutoffs, factor), last) == |cutoffs|
    ensures cutoffs != [] ==> DecaysAtLastPrune(Cycles(cutoffs, factor), last) == Some(|cutoffs|)
    ensures forall p :: Forgets(Cycles(cutoffs, factor), p, factor)
    decreases |cutoffs|
  {
    if cutoffs != [] {
      var n := |cutoffs| - 1;
      CyclesCount(cutoffs[..n], factor, last);
      var before, all := Cycles(cutoffs[..n], factor), Cycles(cutoffs, factor);
      assert all[..|all| - 1] == before + [Decay(cutoffs[n], factor)];
      assert (before + [Decay(cutoffs[n], factor)])[..|before|] == before;
      forall p ensures Forgets(all, p, factor) { assert Forgets(before, p, factor); }
    }
  }
}
