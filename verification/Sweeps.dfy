/**
 Series of cycles of the polling worker, with episodes arriving in between
 (src/memory_service/workers/rem_worker.py): which pending episodes a cycle takes, and which ones are
 left behind once the sweep time has passed them.
 */
module Sweeps {
  import opened Basics
  import opened Consolidation
  import opened Discovery
  import opened Lifecycle

  /** A cycle is a run of its consolidations, so what holds over runs holds over cycles. */
  lemma {:induction false} CycleIsRun(s: Store, o: Oracle, groups: seq<string>, now: real)
    ensures CycleSpec(s, o, groups, now) == Run(s, Consolidations(o, groups, now))
    decreases |groups|
  {
    if groups != [] {
      var n := |groups| - 1;
      CycleIsRun(s, o, groups[..n], now);
      assert Consolidations(o, groups, now)[..n] == Consolidations(o, groups[..n], now);
    }
  }

  function Consolidations(o: Oracle, groups: seq<string>, now: real): seq<Step> {
    seq(|groups|, i requires 0 <= i < |groups| => Consolidate(o, i, groups[i], now))
  }

  /** Consolidations add no pending episode and leave those of other groups alone. */
  lemma PendingBefore(s: Store, o: Oracle, n: nat, group: string, now: real, g: string, u: string)
    requires Faithful(o)
    ensures var s' := ConsolidateSpec(s, o, n, group, now);
            && (IsPendingRaw(s', g, u) ==> IsPendingRaw(s, g, u) && s'.episodes[u] == s.episodes[u])
            && (IsPendingRaw(s, g, u) && g != group ==> IsPendingRaw(s', g, u))
  {
    if u in s.episodes {
      ConsolidateEffect(s, o, n, group, now, u);
      FetchedPending(s, o, n, group);
    } else if u in ConsolidateSpec(s, o, n, group, now).episodes {
      ConsolidateAdds(s, o, n, group, now, u);
    }
  }

  /** Other pending episodes of the group that are not newer, or that are strictly older, than the time given. */
  function NotNewer(s: Store, group: string, u: string): set<string> {
    set v | v in s.episodes && v != u && IsPendingRaw(s, group, v) && CreatedAt(s, v) <= CreatedAt(s, u)
  }

  function Older(s: Store, group: string, u: string): set<string> {
    set v | v in s.episodes && IsPendingRaw(s, group, v) && CreatedAt(s, v) < CreatedAt(s, u)
  }

  /** An episode left out of a fetch has twenty others fetched before it, none of them newer. */
  lemma FetchedBefore(s: Store, o: Oracle, n: nat, group: string, u: string)
    requires Faithful(o) && o.fetchSucceeds(n) && IsPendingRaw(s, group, u) && u !in Fetched(s, o, n, group)
    ensures |Elements(Fetched(s, o, n, group))| == FETCH_LIMIT &&
            Elements(Fetched(s, o, n, group)) <= NotNewer(s, group, u)
  {
    var fetched := o.fetch(s, group);
    assert FetchSound(o, s, group);
    DistinctCount(fetched);
    forall v | v in Elements(fetched) ensures v in NotNewer(s, group, u) {
      assert v in fetched;
    }
  }

  /** An episode that is fetched has fetched before it all that are strictly older, so there are fewer than twenty. */
  lemma FetchedHasFewOlder(s: Store, o: Oracle, n: nat, group: string, u: string)
    requires Faithful(o) && u in Fetched(s, o, n, group)
    ensures |Older(s, group, u)| < FETCH_LIMIT
  {
    var fetched := o.fetch(s, group);
    assert FetchSound(o, s, group);
    DistinctCount(fetched);
    forall v | v in Older(s, group, u) ensures v in Elements(fetched) {
      assert v in fetched;
    }
    assert u in Elements(fetched) && u !in Older(s, group, u);
    FitsInto(Older(s, group, u), Elements(fetched), u);
  }

  /** All markings of duplicates go through. */
  ghost predicate AlwaysMarks(o: Oracle) {
    forall n: nat :: o.markSucceeds(n)
  }

  /** A consolidation that does not fail takes from its group what it fetched, except duplicates it fails to mark. */
  lemma TakenIffFetched(s: Store, o: Oracle, n: nat, group: string, now: real, u: string)
    requires Faithful(o) && OutcomeSpec(s, o, n, group) != Failed && IsPendingRaw(s, group, u)
    ensures IsPendingRaw(ConsolidateSpec(s, o, n, group, now), group, u)
            <==> u !in Fetched(s, o, n, group) || (IsDuplicate(s, o, group, u) && !o.markSucceeds(n))
  {
    SplitMembers(s, o, group, Fetched(s, o, n, group), u);
    ConsolidateEffect(s, o, n, group, now, u);
  }

  /** Whatever is pending and not newer, or older, was so before the consolidation. */
  lemma AgesBefore(s: Store, o: Oracle, n: nat, group: string, now: real, g: string, u: string)
    requires Faithful(o) && IsPendingRaw(ConsolidateSpec(s, o, n, group, now), g, u)
    ensures var s' := ConsolidateSpec(s, o, n, group, now);
            NotNewer(s', g, u) <= NotNewer(s, g, u) && Older(s', g, u) <= Older(s, g, u)
  {
    PendingBefore(s, o, n, group, now, g, u);
    var s' := ConsolidateSpec(s, o, n, group, now);
    forall v ensures IsPendingRaw(s', g, v) ==> IsPendingRaw(s, g, v) && s'.episodes[v] == s.episodes[v] {
      PendingBefore(s, o, n, group, now, g, v);
    }
  }

  /** A consolidation of another group changes nothing that counts. */
  lemma OthersKeepAges(s: Store, o: Oracle, n: nat, group: string, now: real, g: string, u: string)
    requires Faithful(o) && IsPendingRaw(s, g, u) && g != group
    ensures var s' := ConsolidateSpec(s, o, n, group, now);
            IsPendingRaw(s', g, u) && NotNewer(s', g, u) == NotNewer(s, g, u) && Older(s', g, u) == Older(s, g, u)
  {
    var s' := ConsolidateSpec(s, o, n, group, now);
    forall v
      ensures IsPendingRaw(s', g, v) <==> IsPendingRaw(s, g, v)
      ensures IsPendingRaw(s, g, v) ==> s'.episodes[v] == s.episodes[v]
    {
      PendingBefore(s, o, n, group, now, g, v);
    }
  }

  /** An episode passed by in its own group moves up by the twenty taken before it. */
  lemma MovesUp(s: Store, o: Oracle, n: nat, now: real, g: string, u: string)
    requires Faithful(o) && OutcomeSpec(s, o, n, g) != Failed && IsPendingRaw(s, g, u) && u !in Fetched(s, o, n, g)
    ensures var s' := ConsolidateSpec(s, o, n, g, now);
            && IsPendingRaw(s', g, u)
            && (o.markSucceeds(n) ==> |NotNewer(s', g, u)| + FETCH_LIMIT <= |NotNewer(s, g, u)|)
            && |Older(s, g, u)| <= |Older(s', g, u)| + FETCH_LIMIT
  {
    var s', fetched := ConsolidateSpec(s, o, n, g, now), Elements(Fetched(s, o, n, g));
    TakenIffFetched(s, o, n, g, now, u);
    FetchedBefore(s, o, n, g, u);
    AgesBefore(s, o, n, g, now, g, u);
    if o.markSucceeds(n) {
      forall v | v in NotNewer(s', g, u) ensures v !in fetched {
        if v in fetched { TakenIffFetched(s, o, n, g, now, v); }
      }
      SubsetCount(NotNewer(s', g, u), NotNewer(s, g, u) - fetched);
    }
    forall v | v in Older(s, g, u) && v !in fetched ensures v in Older(s', g, u) {
      TakenIffFetched(s, o, n, g, now, v);
      PendingBefore(s, o, n, g, now, g, v);
      PendingBefore(s, o, n, g, now, g, u);
    }
    SubsetCount(Older(s, g, u) - fetched, Older(s', g, u));
  }

  /** How often a cycle consolidates the group. */
  function Turns(groups: seq<string>, g: string): nat {
    multiset(groups)[g]
  }

  /** What k consolidations leave of an episode, by its place in the group. */
  ghost predicate TakenByAge(s: Store, s': Store, g: string, u: string, k: nat, marks: bool) {
    && (marks && |NotNewer(s, g, u)| < FETCH_LIMIT * k ==> !IsPendingRaw(s', g, u))
    && (|Older(s, g, u)| >= FETCH_LIMIT * k ==> IsPendingRaw(s', g, u))
  }

  /** The same, with the counts that are left for the next one. */
  ghost predicate MovedUp(s: Store, s': Store, g: string, u: string, k: nat, marks: bool) {
    && TakenByAge(s, s', g, u, k, marks)
    && (IsPendingRaw(s', g, u) ==>
          && (marks ==> |NotNewer(s', g, u)| + FETCH_LIMIT * k <= |NotNewer(s, g, u)|)
          && |Older(s, g, u)| <= |Older(s', g, u)| + FETCH_LIMIT * k)
  }

  lemma OneMoreTurn(s: Store, mid: Store, o: Oracle, n: nat, group: string, now: real, g: string, u: string, k: nat,
                    marks: bool)
    requires Faithful(o) && OutcomeSpec(mid, o, n, group) != Failed && IsPendingRaw(s, g, u)
    requires MovedUp(s, mid, g, u, k, marks) && (marks ==> o.markSucceeds(n))
    ensures MovedUp(s, ConsolidateSpec(mid, o, n, group, now), g, u, if group == g then k + 1 else k, marks)
  {
    if !IsPendingRaw(mid, g, u) {
      PendingBefore(mid, o, n, group, now, g, u);
    } else if group != g {
      OthersKeepAges(mid, o, n, group, now, g, u);
    } else {
      TakenIffFetched(mid, o, n, g, now, u);
      if u in Fetched(mid, o, n, g) {
        FetchedHasFewOlder(mid, o, n, g, u);
      } else {
        MovesUp(mid, o, n, now, g, u);
      }
    }
  }

  lemma TurnsOneMore(groups: seq<string>, g: string)
    requires groups != []
    ensures var n := |groups| - 1; Turns(groups, g) == Turns(groups[..n], g) + if groups[n] == g then 1 else 0
  {
    var n := |groups| - 1;
    assert groups == groups[..n] + [groups[n]];
  }

  lemma CycleOneMore(s: Store, o: Oracle, groups: seq<string>, now: real, g: string, u: string)
    requires Faithful(o) && groups != [] && !CycleFails(s, o, groups, now) && IsPendingRaw(s, g, u)
    requires var n := |groups| - 1;
             MovedUp(s, CycleSpec(s, o, groups[..n], now), g, u, Turns(groups[..n], g), AlwaysMarks(o))
    ensures MovedUp(s, CycleSpec(s, o, groups, now), g, u, Turns(groups, g), AlwaysMarks(o))
  {
    var n := |groups| - 1;
    TurnsOneMore(groups, g);
    var mid := CycleSpec(s, o, groups[..n], now);
    OneMoreTurn(s, mid, o, n, groups[n], now, g, u, Turns(groups[..n], g), AlwaysMarks(o));
  }

  lemma {:induction false} CycleMovesUp(s: Store, o: Oracle, groups: seq<string>, now: real, g: string, u: string)
    requires Faithful(o) && !CycleFails(s, o, groups, now) && IsPendingRaw(s, g, u)
    ensures MovedUp(s, CycleSpec(s, o, groups, now), g, u, Turns(groups, g), AlwaysMarks(o))
    decreases |groups|
  {
    if groups != [] {
      CycleMovesUp(s, o, groups[..|groups| - 1], now, g, u);
      CycleOneMore(s, o, groups, now, g, u);
    }
  }

  /**
   A cycle without a failure takes a pending episode, however old, if fewer than twenty others of its
   group are not newer, for each time the group is consolidated, and duplicates are marked; it leaves it
   pending if as many are older: without ties, exactly then. It takes nothing of a group it was not given.
   */
  lemma CycleTakesByAge(s: Store, o: Oracle, groups: seq<string>, now: real, g: string, u: string)
    requires Faithful(o) && !CycleFails(s, o, groups, now) && IsPendingRaw(s, g, u)
    ensures TakenByAge(s, CycleSpec(s, o, groups, now), g, u, Turns(groups, g), AlwaysMarks(o))
    ensures NotNewer(s, g, u) == Older(s, g, u) && AlwaysMarks(o) ==>
              (IsPendingRaw(CycleSpec(s, o, groups, now), g, u) <==> |Older(s, g, u)| >= FETCH_LIMIT * Turns(groups, g))
  {
    CycleMovesUp(s, o, groups, now, g, u);
  }

  // ---------------------------------------------------------------- the worker and its surroundings

  /** Episodes arrive at any time, also between the consolidations of a cycle. */
  datatype Action =
    | Arrive(uuid: string, group: string, kind: string, createdAt: real, embedded: bool)
    | Discover(o: Oracle, start: real, now: real)
    | ConsolidateNext(o: Oracle, n: nat, now: real)
    | Finish

  function Act(c: Config, w: World, a: Action): World {
    match a
    case Arrive(uuid, group, kind, createdAt, embedded) =>
      w.(store := Arrived(w.store, uuid, group, kind, createdAt, embedded))
    case Discover(o, start, now) =>
      if w.cycle.Some? then w
      else w.(cycle := Some(Cycle(start, PendingGroups(w.store, o, w.lastSweep, c, now), false)))
    case ConsolidateNext(o, n, now) =>
      if w.cycle.None? || w.cycle.value.groups == [] then w
      else
        var cycle := w.cycle.value;
        w.(store := ConsolidateSpec(w.store, o, n, cycle.groups[0], now),
           cycle := Some(Cycle(cycle.start, cycle.groups[1..],
                               cycle.failed || OutcomeSpec(w.store, o, n, cycle.groups[0]) == Failed)))
    case Finish =>
      if w.cycle.None? || w.cycle.value.groups != [] then w
      else w.(cycle := None, lastSweep := if w.cycle.value.failed then w.lastSweep else w.cycle.value.start)
  }

  function Acts(c: Config, w: World, actions: seq<Action>): World
    decreases |actions|
  {
    if actions == [] then w else Acts(c, Act(c, w, actions[0]), actions[1..])
  }

  predicate UsesOracle(a: Action) {
    a.Discover? || a.ConsolidateNext?
  }

  ghost predicate FaithfulActions(actions: seq<Action>) {
    forall i :: 0 <= i < |actions| && UsesOracle(actions[i]) ==> Faithful(actions[i].o)
  }

  /** What is left of an undisturbed cycle over n groups from its i-th consolidation on. */
  function Remaining(o: Oracle, now: real, i: nat, n: nat): seq<Action>
    decreases n - i
  {
    if i >= n then [Finish] else [ConsolidateNext(o, i, now)] + Remaining(o, now, i + 1, n)
  }

  function Midway(s: Store, o: Oracle, groups: seq<string>, since: real, start: real, now: real, i: nat): World
    requires i <= |groups|
  {
    World(CycleSpec(s, o, groups[..i], now), since, Some(Cycle(start, groups[i..], CycleFails(s, o, groups[..i], now))))
  }

  lemma MidwayNext(c: Config, s: Store, o: Oracle, groups: seq<string>, since: real, start: real, now: real, i: nat)
    requires i < |groups|
    ensures Act(c, Midway(s, o, groups, since, start, now, i), ConsolidateNext(o, i, now)) ==
            Midway(s, o, groups, since, start, now, i + 1)
  {
    assert groups[..i + 1][..i] == groups[..i] && groups[i..][1..] == groups[i + 1..];
  }

  lemma {:induction false} RemainingActs(c: Config, s: Store, o: Oracle, groups: seq<string>, since: real, start: real,
                                         now: real, i: nat)
    requires i <= |groups|
    ensures Acts(c, Midway(s, o, groups, since, start, now, i), Remaining(o, now, i, |groups|)) ==
            AfterCycle(s, o, groups, since, start, now)
    decreases |groups| - i
  {
    var w, rest := Midway(s, o, groups, since, start, now, i), Remaining(o, now, i, |groups|);
    if i == |groups| {
      assert groups[..i] == groups;
      assert Acts(c, w, rest) == Acts(c, Act(c, w, Finish), []);
    } else {
      MidwayNext(c, s, o, groups, since, start, now, i);
      assert rest[1..] == Remaining(o, now, i + 1, |groups|);
      RemainingActs(c, s, o, groups, since, start, now, i + 1);
    }
  }

  /** A cycle that nothing interrupts has the effect that the worker's own loop is proved to have. */
  lemma CycleIsActs(c: Config, s: Store, o: Oracle, since: real, start: real, now: real)
    ensures var groups := PendingGroups(s, o, since, c, now);
            var actions := [Discover(o, start, now)] + Remaining(o, now, 0, |groups|);
            Acts(c, World(s, since, None), actions) == AfterCycle(s, o, groups, since, start, now)
  {
    var groups := PendingGroups(s, o, since, c, now);
    RemainingActs(c, s, o, groups, since, start, now, 0);
    assert groups[0..] == groups;
    assert ([Discover(o, start, now)] + Remaining(o, now, 0, |groups|))[1..] == Remaining(o, now, 0, |groups|);
  }

  /**
   When a cycle takes an episode, however old: if its group is reachable and fewer than twenty others of
   the group are not newer. It stays pending if the group is not even perhaps reachable, and also, in a
   group that is, if twenty are older. Without ties one of the two is the case.
   */
  lemma CycleReaches(c: Config, s: Store, o: Oracle, since: real, start: real, now: real, g: string, u: string)
    requires Faithful(o) && Undisturbed(s, o, since, c) && g != "" && IsPendingRaw(s, g, u)
    requires !CycleFails(s, o, PendingGroups(s, o, since, c, now), now)
    ensures var described, n := o.described(s, true), |PendingGroups(s, o, since, c, now)|;
            var after := Acts(c, World(s, since, None), [Discover(o, start, now)] + Remaining(o, now, 0, n));
            && after == World(after.store, start, None)
            && (Reachable(s, described, since, c, g) && |NotNewer(s, g, u)| < 20 && AlwaysMarks(o) ==>
                !IsPendingRaw(after.store, g, u))
            && (!PerhapsReachable(s, described, since, c, g) || |Older(s, g, u)| >= 20 ==>
                IsPendingRaw(after.store, g, u))
  {
    var groups := PendingGroups(s, o, since, c, now);
    CycleIsActs(c, s, o, since, start, now);
    CycleTakesByAge(s, o, groups, now, g, u);
    FoundByCount(s, o, since, c, now, g);
    FoundOnce(s, o, since, c, now, g);
    assert g in groups <==> Turns(groups, g) > 0;
  }

  /** The store steps of one action. */
  function StepsOf(w: World, a: Action): seq<Step> {
    match a
    case Arrive(uuid, group, kind, createdAt, embedded) => [StoreEpisode(uuid, group, kind, createdAt, embedded)]
    case ConsolidateNext(o, n, now) =>
      if w.cycle.None? || w.cycle.value.groups == [] then [] else [Consolidate(o, n, w.cycle.value.groups[0], now)]
    case _ => []
  }

  lemma RunOneMore(s: Store, steps: seq<Step>, last: Step)
    ensures Run(s, steps + [last]) == Next(Run(s, steps), last)
  {
    assert (steps + [last])[..|steps|] == steps;
  }

  lemma {:induction false} RunAppend(s: Store, first: seq<Step>, second: seq<Step>)
    ensures Run(s, first + second) == Run(Run(s, first), second)
    decreases |second|
  {
    if second == [] {
      assert first + second == first;
    } else {
      var shorter, last := second[..|second| - 1], second[|second| - 1];
      assert second == shorter + [last] && first + second == (first + shorter) + [last];
      RunAppend(s, first, shorter);
      RunOneMore(s, first + shorter, last);
      RunOneMore(Run(s, first), shorter, last);
    }
  }

  /** Whatever the interleaving, the store goes through a run of stores and consolidations. */
  lemma {:induction false} ActsAreRuns(c: Config, w: World, actions: seq<Action>) returns (steps: seq<Step>)
    requires FaithfulActions(actions)
    ensures AllFaithful(steps) && Run(w.store, steps) == Acts(c, w, actions).store
    decreases |actions|
  {
    if actions == [] { return []; }
    var first := StepsOf(w, actions[0]);
    assert Run(w.store, first) == Act(c, w, actions[0]).store by {
      if first != [] { assert first[..0] == [] && Run(w.store, first) == Next(w.store, first[0]); }
    }
    var rest := ActsAreRuns(c, Act(c, w, actions[0]), actions[1..]);
    RunAppend(w.store, first, rest);
    steps := first + rest;
  }

  // ---------------------------------------------------------------- episodes left behind

  /** Raw episodes of the group that arrive later and are newer. */
  function Newcomers(actions: seq<Action>, group: string, since: real): set<string> {
    if actions == [] then {}
    else (if actions[0].Arrive? && actions[0].group == group && actions[0].kind == RAW && actions[0].createdAt > since
          then {actions[0].uuid} else {}) + Newcomers(actions[1..], group, since)
  }

  predicate StartsAfter(actions: seq<Action>, since: real) {
    forall i :: 0 <= i < |actions| && actions[i].Discover? ==> actions[i].start >= since
  }

  /** The sweep is at least as late, and no cycle under way will consolidate the group. */
  predicate Passed(w: World, group: string, since: real) {
    w.lastSweep >= since && (w.cycle.Some? ==> w.cycle.value.start >= since && group !in w.cycle.value.groups)
  }

  /** Everything of the group that is, or may become, pending and newer. */
  function Countable(w: World, actions: seq<Action>, group: string, since: real): set<string> {
    NewPending(w.store, group, since) + Newcomers(actions, group, since)
  }

  lemma LaterSweepCountsLess(s: Store, group: string, since: real, later: real)
    requires later >= since
    ensures NewPending(s, group, later) <= NewPending(s, group, since)
  {
  }

  lemma ActKeepsPassed(c: Config, w: World, a: Action, group: string, since: real)
    requires Passed(w, group, since) && (UsesOracle(a) ==> Faithful(a.o)) && (a.Discover? ==> a.start >= since)
    requires |NewPending(w.store, group, since)| < Max(1, c.minEpisodes)
    ensures Passed(Act(c, w, a), group, since)
  {
    if a.Discover? && w.cycle.None? && group in PendingGroups(w.store, a.o, w.lastSweep, c, a.now) {
      FoundAreDiscoverable(w.store, a.o, w.lastSweep, c, a.now, group);
      LaterSweepCountsLess(w.store, group, since, w.lastSweep);
      SubsetCount(NewPending(w.store, group, w.lastSweep), NewPending(w.store, group, since));
      assert false;
    }
  }

  lemma ActCountsLess(c: Config, w: World, a: Action, rest: seq<Action>, group: string, since: real)
    requires UsesOracle(a) ==> Faithful(a.o)
    ensures Countable(Act(c, w, a), rest, group, since) <= Countable(w, [a] + rest, group, since)
  {
    assert ([a] + rest)[1..] == rest;
    if a.ConsolidateNext? && w.cycle.Some? && w.cycle.value.groups != [] {
      forall u | u in NewPending(Act(c, w, a).store, group, since) ensures u in NewPending(w.store, group, since) {
        PendingBefore(w.store, a.o, a.n, w.cycle.value.groups[0], a.now, group, u);
      }
    }
  }

  lemma ActKeepsPending(c: Config, w: World, a: Action, group: string, since: real, u: string)
    requires Passed(w, group, since) && IsPendingRaw(w.store, group, u) && (UsesOracle(a) ==> Faithful(a.o))
    ensures IsPendingRaw(Act(c, w, a).store, group, u)
  {
    if a.ConsolidateNext? && w.cycle.Some? && w.cycle.value.groups != [] {
      assert w.cycle.value.groups[0] in w.cycle.value.groups;
      PendingBefore(w.store, a.o, a.n, w.cycle.value.groups[0], a.now, group, u);
    }
  }

  /**
   Not every pending episode is consolidated in the end. Once a sweep has passed, the pending episodes
   of a group stay pending over every series of cycles and arrivals in which fewer than the minimum
   number of newer ones come together.
   */
  lemma {:induction false} PassedStayPending(c: Config, w: World, actions: seq<Action>, group: string, since: real,
                                             u: string)
    requires FaithfulActions(actions) && StartsAfter(actions, since) && Passed(w, group, since)
    requires IsPendingRaw(w.store, group, u)
    requires |Countable(w, actions, group, since)| < Max(1, c.minEpisodes)
    ensures IsPendingRaw(Acts(c, w, actions).store, group, u)
    decreases |actions|
  {
    if actions != [] {
      var a, rest := actions[0], actions[1..];
      assert actions == [a] + rest;
      SubsetCount(NewPending(w.store, group, since), Countable(w, actions, group, since));
      ActKeepsPassed(c, w, a, group, since);
      ActCountsLess(c, w, a, rest, group, since);
      SubsetCount(Countable(Act(c, w, a), rest, group, since), Countable(w, actions, group, since));
      ActKeepsPending(c, w, a, group, since, u);
      PassedStayPending(c, Act(c, w, a), rest, group, since, u);
    }
  }

  /**
   With a minimum of two, an episode alone in its group is passed over by an empty cycle and then left
   behind, also by a second one that arrives after the cycle.
   */
  lemma LoneEpisodeIsLeftBehind(o: Oracle, late: seq<Action>)
    requires Faithful(o) && FaithfulActions(late) && StartsAfter(late, 2.0) && |Newcomers(late, "g", 2.0)| < 2
    ensures var first := [Arrive("u", "g", RAW, 1.0, true), Discover(o, 2.0, 2.0), Finish];
            IsPendingRaw(Acts(Config(2, 5), World(START, 0.0, None), first + late).store, "g", "u")
  {
    var c, w := Config(2, 5), World(START, 0.0, None);
    var a1, a2 := Arrive("u", "g", RAW, 1.0, true), Discover(o, 2.0, 2.0);
    var w1 := Act(c, w, a1);
    NothingFound(w1.store, o, c, 2.0);
    var w3 := Act(c, Act(c, w1, a2), Finish);
    assert w3 == World(w1.store, 2.0, None);
    assert NewPending(w3.store, "g", 2.0) == {};
    assert Countable(w3, late, "g", 2.0) == Newcomers(late, "g", 2.0);
    PassedStayPending(c, w3, late, "g", 2.0, "u");
    ActsThree(c, w, a1, a2, Finish, late);
  }

  /**
   Episodes stored with a date before the last sweep never count, however many there are: here
   three, the default minimum.
   */
  lemma BackdatedAreLeftBehind(late: seq<Action>, u: string)
    requires FaithfulActions(late) && StartsAfter(late, 2.0) && |Newcomers(late, "g", 2.0)| < 3 && u in {"a", "b", "c"}
    ensures var first := [Arrive("a", "g", RAW, 1.0, true), Arrive("b", "g", RAW, 1.0, true),
                          Arrive("c", "g", RAW, 1.0, true)];
            IsPendingRaw(Acts(Config(3, 5), World(START, 2.0, None), first + late).store, "g", u)
  {
    var c, w := Config(3, 5), World(START, 2.0, None);
    var a1, a2, a3 := Arrive("a", "g", RAW, 1.0, true), Arrive("b", "g", RAW, 1.0, true),
      Arrive("c", "g", RAW, 1.0, true);
    var raw := Episode("g", RAW, Pending, 1.0, true);
    var w3 := Act(c, Act(c, Act(c, w, a1), a2), a3);
    assert w3 == World(Store(map["a" := raw, "b" := raw, "c" := raw], [], []), 2.0, None);
    assert NewPending(w3.store, "g", 2.0) == {};
    assert Countable(w3, late, "g", 2.0) == Newcomers(late, "g", 2.0);
    PassedStayPending(c, w3, late, "g", 2.0, u);
    ActsThree(c, w, a1, a2, a3, late);
  }

  lemma {:induction false} PendingAfterCycle(s: Store, o: Oracle, groups: seq<string>, now: real, g: string,
                                             since: real)
    requires Faithful(o)
    ensures NewPending(CycleSpec(s, o, groups, now), g, since) <= NewPending(s, g, since)
    decreases |groups|
  {
    if groups != [] {
      var n := |groups| - 1;
      var mid := CycleSpec(s, o, groups[..n], now);
      PendingAfterCycle(s, o, groups[..n], now, g, since);
      forall u | u in NewPending(CycleSpec(s, o, groups, now), g, since) ensures u in NewPending(mid, g, since) {
        PendingBefore(mid, o, n, groups[n], now, g, u);
      }
    }
  }

  lemma {:induction false} ActsAppend(c: Config, w: World, first: seq<Action>, second: seq<Action>)
    ensures Acts(c, w, first + second) == Acts(c, Acts(c, w, first), second)
    decreases |first|
  {
    if first == [] {
      assert first + second == second;
    } else {
      assert (first + second)[1..] == first[1..] + second;
      ActsAppend(c, Act(c, w, first[0]), first[1..], second);
    }
  }

  /**
   A cycle without a failure that finds a group of more than twenty pending episodes moves its sweep past
   those it does not fetch: with twenty older ones an episode is left behind, and stays so over every
   series of cycles and arrivals in which fewer than the minimum number of newer ones come together.
   */
  lemma OverflowIsLeftBehind(c: Config, s: Store, o: Oracle, since: real, start: real, now: real, g: string, u: string,
                             late: seq<Action>)
    requires Faithful(o) && Undisturbed(s, o, since, c) && g != "" && IsPendingRaw(s, g, u)
    requires !CycleFails(s, o, PendingGroups(s, o, since, c, now), now)
    requires |Older(s, g, u)| >= 20
    requires FaithfulActions(late) && StartsAfter(late, start)
    requires |NewPending(s, g, start) + Newcomers(late, g, start)| < Max(1, c.minEpisodes)
    ensures var n := |PendingGroups(s, o, since, c, now)|;
            IsPendingRaw(Acts(c, World(s, since, None),
                              [Discover(o, start, now)] + Remaining(o, now, 0, n) + late).store, g, u)
  {
    var groups := PendingGroups(s, o, since, c, now);
    var cycle := [Discover(o, start, now)] + Remaining(o, now, 0, |groups|);
    var after := Acts(c, World(s, since, None), cycle);
    CycleReaches(c, s, o, since, start, now, g, u);
    CycleIsActs(c, s, o, since, start, now);
    PendingAfterCycle(s, o, groups, now, g, start);
    SubsetCount(Countable(after, late, g, start), NewPending(s, g, start) + Newcomers(late, g, start));
    PassedStayPending(c, after, late, g, start, u);
    ActsAppend(c, World(s, since, None), cycle, late);
  }

  // ---------------------------------------------------------------- twenty-one episodes

  /** Names of n letters: the n-th episode. */
  function Name(n: nat): string {
    if n == 0 then "" else Name(n - 1) + "a"
  }

  lemma {:induction false} NameLength(n: nat)
    ensures |Name(n)| == n
  {
    if n > 0 { NameLength(n - 1); }
  }

  /** The first n episodes of group g, one after the other. */
  function Arrivals(n: nat): seq<Action> {
    if n == 0 then [] else Arrivals(n - 1) + [Arrive(Name(n), "g", RAW, n as real, true)]
  }

  function StoreOf(n: nat): Store {
    if n == 0 then START else Arrived(StoreOf(n - 1), Name(n), "g", RAW, n as real, true)
  }

  lemma {:induction false} ArrivalsStore(c: Config, n: nat)
    ensures Acts(c, World(START, 0.0, None), Arrivals(n)) == World(StoreOf(n), 0.0, None)
  {
    if n > 0 {
      var w, last := World(StoreOf(n - 1), 0.0, None), Arrive(Name(n), "g", RAW, n as real, true);
      ArrivalsStore(c, n - 1);
      ActsAppend(c, World(START, 0.0, None), Arrivals(n - 1), [last]);
      ActsCons(c, w, last, []);
      assert [last] + [] == [last];
    }
  }

  /** The stored episodes are the names of up to n letters, as old as they are short. */
  lemma {:induction false} StoreOfMembers(n: nat, u: string)
    ensures u in StoreOf(n).episodes <==> 1 <= |u| <= n && u == Name(|u|)
    ensures u in StoreOf(n).episodes ==> StoreOf(n).episodes[u] == Episode("g", RAW, Pending, |u| as real, true)
  {
    if n > 0 {
      StoreOfMembers(n - 1, u);
      NameLength(n);
    }
  }

  function NamesUpTo(n: nat): set<string> {
    if n == 0 then {} else NamesUpTo(n - 1) + {Name(n)}
  }

  lemma {:induction false} NamesUpToMembers(n: nat, u: string)
    ensures u in NamesUpTo(n) <==> 1 <= |u| <= n && u == Name(|u|)
  {
    if n > 0 {
      NamesUpToMembers(n - 1, u);
      NameLength(n);
    }
  }

  lemma {:induction false} NamesUpToCount(n: nat)
    ensures |NamesUpTo(n)| == n
  {
    if n > 0 {
      NamesUpToCount(n - 1);
      NamesUpToMembers(n - 1, Name(n));
      NameLength(n);
    }
  }

  /** The episodes older than the n-th, which are the others that are not newer. */
  lemma StoreOfAges(m: nat, n: nat)
    requires 1 <= n <= m
    ensures IsPendingRaw(StoreOf(m), "g", Name(n))
    ensures |Older(StoreOf(m), "g", Name(n))| == n - 1 == |NotNewer(StoreOf(m), "g", Name(n))|
  {
    StoreOfAge(m, n, "");
    AgesAreNames(m, n);
    NamesUpToCount(n - 1);
  }

  lemma AgesAreNames(m: nat, n: nat)
    requires 1 <= n <= m
    ensures Older(StoreOf(m), "g", Name(n)) == NamesUpTo(n - 1) == NotNewer(StoreOf(m), "g", Name(n))
  {
    forall v
      ensures v in Older(StoreOf(m), "g", Name(n)) <==> v in NamesUpTo(n - 1)
      ensures v in NotNewer(StoreOf(m), "g", Name(n)) <==> v in NamesUpTo(n - 1)
    {
      StoreOfAge(m, n, v);
    }
  }

  lemma StoreOfAge(m: nat, n: nat, v: string)
    requires 1 <= n <= m
    ensures IsPendingRaw(StoreOf(m), "g", Name(n)) && CreatedAt(StoreOf(m), Name(n)) == n as real
    ensures v in Older(StoreOf(m), "g", Name(n)) <==> v in NamesUpTo(n - 1)
    ensures v in NotNewer(StoreOf(m), "g", Name(n)) <==> v in NamesUpTo(n - 1)
  {
    NameLength(n);
    StoreOfMembers(m, Name(n));
    StoreOfMembers(m, v);
    NamesUpToMembers(n - 1, v);
  }

  lemma StoreOfIsOneGroup(m: nat, since: real, c: Config, g: string)
    ensures Discoverable(StoreOf(m), g, since, c) ==> g == "g"
  {
    if Discoverable(StoreOf(m), g, since, c) {
      var u :| u in NewPending(StoreOf(m), g, since);
      StoreOfMembers(m, u);
    }
  }

  lemma StoreOfIsReachable(m: nat, described: set<string>, c: Config)
    requires m >= Max(1, c.minEpisodes) && c.limit >= 1
    ensures Reachable(StoreOf(m), described, 0.0, c, "g")
  {
    var s := StoreOf(m);
    forall u | u in NamesUpTo(m) ensures u in NewPending(s, "g", 0.0) {
      NamesUpToMembers(m, u);
      StoreOfMembers(m, u);
    }
    NamesUpToCount(m);
    SubsetCount(NamesUpTo(m), NewPending(s, "g", 0.0));
    forall h ensures !IsRival(s, h, "g", 0.0, c) { StoreOfIsOneGroup(m, 0.0, c, h); }
    assert Rivals(s, "g", 0.0, c) == {};
    forall h | "g" in described ensures !IsPossible(s, described, 0.0, c, h) { StoreOfIsOneGroup(m, 0.0, c, h); }
    assert "g" in described ==> Possible(s, described, 0.0, c) == {};
  }

  ghost predicate NothingFails(o: Oracle) {
    AlwaysMarks(o) && forall n: nat :: o.fetchSucceeds(n) && Succeeds(o, n) && o.compressionSucceeds(n)
  }

  lemma {:induction false} NoCycleFails(s: Store, o: Oracle, groups: seq<string>, now: real)
    requires NothingFails(o)
    ensures !CycleFails(s, o, groups, now)
    decreases |groups|
  {
    if groups != [] {
      var n := |groups| - 1;
      NoCycleFails(s, o, groups[..n], now);
      assert o.fetchSucceeds(n) && Succeeds(o, n) && o.compressionSucceeds(n);
    }
  }

  lemma {:induction false} CountAll(groups: seq<string>, g: string)
    requires forall i :: 0 <= i < |groups| ==> groups[i] == g
    ensures multiset(groups)[g] == |groups|
  {
    if groups != [] {
      CountAll(groups[1..], g);
      assert groups == [groups[0]] + groups[1..];
    }
  }

  lemma FindsTheGroup(m: nat, o: Oracle, c: Config, now: real)
    requires Faithful(o) && Undisturbed(StoreOf(m), o, 0.0, c) && m >= Max(1, c.minEpisodes) && c.limit >= 1
    ensures PendingGroups(StoreOf(m), o, 0.0, c, now) == ["g"]
  {
    var s := StoreOf(m);
    var groups := PendingGroups(s, o, 0.0, c, now);
    StoreOfIsReachable(m, o.described(s, true), c);
    FoundByCount(s, o, 0.0, c, now, "g");
    FoundOnce(s, o, 0.0, c, now, "g");
    forall h | h in groups ensures h == "g" {
      FoundAreDiscoverable(s, o, 0.0, c, now, h);
      StoreOfIsOneGroup(m, 0.0, c, h);
    }
    forall i | 0 <= i < |groups| ensures groups[i] == "g" { assert groups[i] in groups; }
    CountAll(groups, "g");
  }

  /** A cycle over one group. */
  function OneGroupCycle(o: Oracle, start: real): seq<Action> {
    [Discover(o, start, start)] + [ConsolidateNext(o, 0, start), Finish]
  }

  lemma OneGroupRun(c: Config, m: nat, o: Oracle, start: real)
    requires Faithful(o) && NothingFails(o) && Undisturbed(StoreOf(m), o, 0.0, c) && m >= Max(1, c.minEpisodes) &&
             c.limit >= 1
    ensures PendingGroups(StoreOf(m), o, 0.0, c, start) == ["g"]
    ensures OneGroupCycle(o, start) == [Discover(o, start, start)] + Remaining(o, start, 0, 1)
    ensures !CycleFails(StoreOf(m), o, ["g"], start)
    ensures Acts(c, World(START, 0.0, None), Arrivals(m) + OneGroupCycle(o, start))
         == Acts(c, World(StoreOf(m), 0.0, None), OneGroupCycle(o, start))
  {
    FindsTheGroup(m, o, c, start);
    assert Remaining(o, start, 0, 1) == [ConsolidateNext(o, 0, start)] + Remaining(o, start, 1, 1);
    NoCycleFails(StoreOf(m), o, ["g"], start);
    ArrivalsStore(c, m);
    ActsAppend(c, World(START, 0.0, None), Arrivals(m), OneGroupCycle(o, start));
  }

  lemma FirstTwentyAreTaken(c: Config, m: nat, o: Oracle, start: real, n: nat)
    requires Faithful(o) && NothingFails(o) && Undisturbed(StoreOf(m), o, 0.0, c) && m >= Max(1, c.minEpisodes) &&
             c.limit >= 1
    requires 1 <= n <= m && n <= 20
    ensures !IsPendingRaw(Acts(c, World(START, 0.0, None), Arrivals(m) + OneGroupCycle(o, start)).store, "g", Name(n))
  {
    OneGroupRun(c, m, o, start);
    StoreOfAges(m, n);
    StoreOfIsReachable(m, o.described(StoreOf(m), true), c);
    CycleReaches(c, StoreOf(m), o, 0.0, start, start, "g", Name(n));
  }

  /**
   One group of m episodes, 21 or more, and a cycle in which nothing fails: the first twenty are taken
   (FirstTwentyAreTaken), and all others are left behind until enough newer ones come together.
   */
  lemma TwentyFirstIsLeftBehind(c: Config, m: nat, o: Oracle, start: real, n: nat, late: seq<Action>)
    requires Faithful(o) && NothingFails(o) && Undisturbed(StoreOf(m), o, 0.0, c) && m >= Max(1, c.minEpisodes) &&
             c.limit >= 1
    requires 20 < n <= m && start >= m as real
    requires FaithfulActions(late) && StartsAfter(late, start) && |Newcomers(late, "g", start)| < Max(1, c.minEpisodes)
    ensures IsPendingRaw(Acts(c, World(START, 0.0, None), Arrivals(m) + OneGroupCycle(o, start) + late).store, "g",
                         Name(n))
  {
    var cycle, w := OneGroupCycle(o, start), World(START, 0.0, None);
    OneGroupRun(c, m, o, start);
    StoreOfAges(m, n);
    NothingNewer(m, start);
    assert NewPending(StoreOf(m), "g", start) + Newcomers(late, "g", start) == Newcomers(late, "g", start);
    OverflowIsLeftBehind(c, StoreOf(m), o, 0.0, start, start, "g", Name(n), late);
    ActsAppend(c, w, Arrivals(m) + cycle, late);
    ActsAppend(c, World(StoreOf(m), 0.0, None), cycle, late);
  }

  lemma NothingNewer(m: nat, since: real)
    requires since >= m as real
    ensures NewPending(StoreOf(m), "g", since) == {}
  {
    forall u ensures u !in NewPending(StoreOf(m), "g", since) { StoreOfMembers(m, u); }
  }

  lemma ActsThree(c: Config, w: World, a1: Action, a2: Action, a3: Action, rest: seq<Action>)
    ensures Acts(c, w, [a1, a2, a3] + rest) == Acts(c, Act(c, Act(c, Act(c, w, a1), a2), a3), rest)
  {
    var actions := [a1, a2, a3] + rest;
    ActsCons(c, w, a1, [a2, a3] + rest);
    ActsCons(c, Act(c, w, a1), a2, [a3] + rest);
    ActsCons(c, Act(c, Act(c, w, a1), a2), a3, rest);
    assert actions == [a1] + ([a2, a3] + rest) && [a2, a3] + rest == [a2] + ([a3] + rest);
  }

  lemma ActsCons(c: Config, w: World, a: Action, rest: seq<Action>)
    ensures Acts(c, w, [a] + rest) == Acts(c, Act(c, w, a), rest)
  {
    assert ([a] + rest)[1..] == rest;
  }

  lemma NothingFound(s: Store, o: Oracle, c: Config, now: real)
    requires Faithful(o) && c.minEpisodes == 2 && s.episodes.Keys == {"u"}
    ensures PendingGroups(s, o, 0.0, c, now) == []
  {
    var found := PendingGroups(s, o, 0.0, c, now);
    if found != [] {
      FoundAreDiscoverable(s, o, 0.0, c, now, found[0]);
      SubsetCount(NewPending(s, found[0], 0.0), {"u"});
      assert false;
    }
  }
}
