/**
 What consolidations do to episodes over runs (src/memory_service/workers/rem_worker.py): statuses,
 links from duplicates to originals, and links from compressed episodes to their sources.
 */
module Lifecycle {
  import opened Basics
  import opened Consolidation

  datatype Step =
    | StoreEpisode(uuid: string, group: string, kind: string, createdAt: real, embedded: bool)
    | Consolidate(o: Oracle, n: nat, group: string, now: real)

  function Arrived(s: Store, uuid: string, group: string, kind: string, createdAt: real, embedded: bool): Store {
    if uuid in s.episodes then s
    else
      var status := if kind in CONSOLIDATED_KINDS then Consolidated else Pending;
      s.(episodes := s.episodes[uuid := Episode(group, kind, status, createdAt, embedded)])
  }

  function Next(s: Store, step: Step): Store {
    match step
    case StoreEpisode(uuid, group, kind, createdAt, embedded) => Arrived(s, uuid, group, kind, createdAt, embedded)
    case Consolidate(o, n, group, now) => ConsolidateSpec(s, o, n, group, now)
  }

  /** The surroundings may differ from step to step. */
  ghost predicate AllFaithful(steps: seq<Step>) {
    forall i :: 0 <= i < |steps| && steps[i].Consolidate? ==> Faithful(steps[i].o)
  }

  function Run(s: Store, steps: seq<Step>): Store
    decreases |steps|
  {
    if steps == [] then s else Next(Run(s, steps[..|steps| - 1]), steps[|steps| - 1])
  }

  /** An episode that has left the pending state never changes again. */
  lemma {:induction false} StatusIsFinal(s: Store, steps: seq<Step>, u: string)
    requires AllFaithful(steps) && u in s.episodes
    ensures var s' := Run(s, steps);
            && u in s'.episodes
            && s'.episodes[u] == s.episodes[u].(status := s'.episodes[u].status)
            && (s.episodes[u].status != Pending ==> s'.episodes[u] == s.episodes[u])
    decreases |steps|
  {
    if steps != [] {
      var before, last := steps[..|steps| - 1], steps[|steps| - 1];
      StatusIsFinal(s, before, u);
      var mid := Run(s, before);
      if last.Consolidate? {
        ConsolidateEffect(mid, last.o, last.n, last.group, last.now, u);
        FetchedPending(mid, last.o, last.n, last.group);
      }
    }
  }

  lemma ConsolidateDerives(s: Store, o: Oracle, n: nat, group: string, now: real, e: Edge)
    requires Faithful(o) && e in ConsolidateSpec(s, o, n, group, now).derivedFrom && e !in s.derivedFrom
    ensures IsPendingRaw(s, group, e.1)
  {
    var fetched := Fetched(s, o, n, group);
    var uniques := Uniques(s, o, group, fetched);
    CompressionCoversUniques(s, o, n, group, now);
    var c :| e in Links(o, n, c, uniques);
    LinksReach(o, n, c, uniques, e);
    SplitMembers(s, o, group, fetched, e.1);
    FetchedPending(s, o, n, group);
  }

  /** Compressed episodes are derived from pending ones only: what has left that state never gains an edge. */
  lemma {:induction false} SettledIsNeverCompressed(s: Store, steps: seq<Step>, u: string, e: Edge)
    requires AllFaithful(steps) && u in s.episodes && s.episodes[u].status != Pending
    requires e in Run(s, steps).derivedFrom && e.1 == u
    ensures e in s.derivedFrom
    decreases |steps|
  {
    if steps != [] {
      var before, last := steps[..|steps| - 1], steps[|steps| - 1];
      var mid := Run(s, before);
      StatusIsFinal(s, before, u);
      if last.Consolidate? && e !in mid.derivedFrom {
        ConsolidateDerives(mid, last.o, last.n, last.group, last.now, e);
        assert false;
      }
      SettledIsNeverCompressed(s, before, u, e);
    }
  }

  // ---------------------------------------------------------------- duplicate links

  function EdgesFrom(edges: seq<Edge>, d: string): nat {
    if edges == [] then 0 else (if edges[0].0 == d then 1 else 0) + EdgesFrom(edges[1..], d)
  }

  lemma {:induction false} EdgesFromAppend(a: seq<Edge>, b: seq<Edge>, d: string)
    ensures EdgesFrom(a + b, d) == EdgesFrom(a, d) + EdgesFrom(b, d)
  {
    if a == [] {
      assert a + b == b;
    } else {
      assert (a + b)[1..] == a[1..] + b;
      EdgesFromAppend(a[1..], b, d);
    }
  }

  lemma {:induction false} EdgesFromZero(edges: seq<Edge>, d: string)
    requires forall e :: e in edges ==> e.0 != d
    ensures EdgesFrom(edges, d) == 0
  {
    if edges != [] { EdgesFromZero(edges[1..], d); }
  }

  lemma {:induction false} EdgesFromSome(edges: seq<Edge>, e: Edge)
    requires e in edges
    ensures EdgesFrom(edges, e.0) > 0
  {
    if edges[0] != e { EdgesFromSome(edges[1..], e); }
  }

  lemma {:induction false} LinksOnePerDuplicate(s: Store, o: Oracle, n: nat, group: string, us: seq<string>, d: string)
    requires NoRepeats(us)
    ensures EdgesFrom(LinksFor(s, o, n, group, us), d) == if d in us && IsLinked(s, o, n, group, d) then 1 else 0
  {
    if us != [] {
      LinksOnePerDuplicate(s, o, n, group, us[1..], d);
      EdgesFromAppend(LinkOf(s, o, n, group, us[0]), LinksFor(s, o, n, group, us[1..]), d);
      assert LinkOf(s, o, n, group, us[0]) != [] ==> LinkOf(s, o, n, group, us[0])[1..] == [];
    }
  }

  lemma {:induction false} LinksMembers(s: Store, o: Oracle, n: nat, group: string, us: seq<string>, e: Edge)
    requires e in LinksFor(s, o, n, group, us)
    ensures e.0 in us && IsLinked(s, o, n, group, e.0) && o.similar(s, group, e.0) == Some(e.1)
  {
    if us != [] && e in LinksFor(s, o, n, group, us[1..]) {
      LinksMembers(s, o, n, group, us[1..], e);
    }
  }

  /** The edge leads from a raw episode to a consolidated raw one of the same group. */
  predicate RawLink(s: Store, e: Edge) {
    && e.0 in s.episodes && s.episodes[e.0].kind == RAW
    && IsConsolidatedRaw(s, s.episodes[e.0].group, e.1)
  }

  ghost predicate LinksRaw(s: Store) {
    forall e :: e in s.duplicateOf ==> RawLink(s, e)
  }

  predicate IsMarked(s: Store, d: string) {
    d in s.episodes && s.episodes[d].status == Duplicate
  }

  /** Links lead from duplicates only, and from each duplicate exactly one. */
  ghost predicate LinksSound(s: Store) {
    && LinksRaw(s)
    && (forall e :: e in s.duplicateOf ==> IsMarked(s, e.0))
    && (forall d :: IsMarked(s, d) ==> EdgesFrom(s.duplicateOf, d) == 1)
  }

  lemma OldLinkStaysRaw(s: Store, o: Oracle, n: nat, group: string, now: real, e: Edge)
    requires Faithful(o) && RawLink(s, e)
    ensures RawLink(ConsolidateSpec(s, o, n, group, now), e)
  {
    FetchedPending(s, o, n, group);
    ConsolidateEffect(s, o, n, group, now, e.0);
    ConsolidateEffect(s, o, n, group, now, e.1);
  }

  lemma NewLinkIsRaw(s: Store, o: Oracle, n: nat, group: string, now: real, e: Edge)
    requires Faithful(o) && e in LinksFor(s, o, n, group, Fetched(s, o, n, group))
    ensures RawLink(ConsolidateSpec(s, o, n, group, now), e)
  {
    var fetched := Fetched(s, o, n, group);
    FetchedPending(s, o, n, group);
    LinksMembers(s, o, n, group, fetched, e);
    assert SimilarSound(o, s, group, e.0);
    ConsolidateEffect(s, o, n, group, now, e.0);
    ConsolidateEffect(s, o, n, group, now, e.1);
  }

  lemma ConsolidateLinks(s: Store, o: Oracle, n: nat, group: string, now: real)
    ensures var s' := ConsolidateSpec(s, o, n, group, now);
            s'.duplicateOf == s.duplicateOf + LinksFor(s, o, n, group, Fetched(s, o, n, group))
  {
  }

  lemma ConsolidateAdds(s: Store, o: Oracle, n: nat, group: string, now: real, u: string)
    requires u in ConsolidateSpec(s, o, n, group, now).episodes && u !in s.episodes
    ensures ConsolidateSpec(s, o, n, group, now).episodes[u].status == Consolidated
  {
  }

  lemma ConsolidateKeepsRaw(s: Store, o: Oracle, n: nat, group: string, now: real)
    requires Faithful(o) && LinksRaw(s)
    ensures LinksRaw(ConsolidateSpec(s, o, n, group, now))
  {
    var s', added := ConsolidateSpec(s, o, n, group, now), LinksFor(s, o, n, group, Fetched(s, o, n, group));
    ConsolidateLinks(s, o, n, group, now);
    forall e | e in s'.duplicateOf ensures RawLink(s', e) {
      if e in added { NewLinkIsRaw(s, o, n, group, now, e); } else { OldLinkStaysRaw(s, o, n, group, now, e); }
    }
  }

  /**
   Over every run, whatever fails, DUPLICATE_OF edges lead from raw episodes to consolidated raw ones of
   their group.
   */
  lemma {:induction false} RunsKeepLinksRaw(steps: seq<Step>)
    requires AllFaithful(steps)
    ensures LinksRaw(Run(START, steps))
    decreases |steps|
  {
    if steps != [] {
      var before, last := steps[..|steps| - 1], steps[|steps| - 1];
      RunsKeepLinksRaw(before);
      var s := Run(START, before);
      if last.Consolidate? {
        ConsolidateKeepsRaw(s, last.o, last.n, last.group, last.now);
      } else {
        var s' := Next(s, last);
        forall e | e in s'.duplicateOf ensures RawLink(s', e) { assert RawLink(s, e); }
      }
    }
  }

  /** How many link queries for the episode went through. */
  function TimesLinked(s: Store, steps: seq<Step>, d: string): nat
    decreases |steps|
  {
    if steps == [] then 0
    else
      var before, last := steps[..|steps| - 1], steps[|steps| - 1];
      TimesLinked(s, before, d) + (if LinksNow(Run(s, before), last, d) then 1 else 0)
  }

  predicate LinksNow(s: Store, step: Step, d: string) {
    step.Consolidate? && d in Fetched(s, step.o, step.n, step.group) && IsLinked(s, step.o, step.n, step.group, d)
  }

  lemma {:induction false} EdgesCountLinks(s: Store, steps: seq<Step>, d: string)
    requires AllFaithful(steps)
    ensures EdgesFrom(Run(s, steps).duplicateOf, d) == EdgesFrom(s.duplicateOf, d) + TimesLinked(s, steps, d)
    decreases |steps|
  {
    if steps != [] {
      var before, last := steps[..|steps| - 1], steps[|steps| - 1];
      EdgesCountLinks(s, before, d);
      var mid := Run(s, before);
      if last.Consolidate? {
        var fetched := Fetched(mid, last.o, last.n, last.group);
        FetchedPending(mid, last.o, last.n, last.group);
        ConsolidateLinks(mid, last.o, last.n, last.group, last.now);
        EdgesFromAppend(mid.duplicateOf, LinksFor(mid, last.o, last.n, last.group, fetched), d);
        LinksOnePerDuplicate(mid, last.o, last.n, last.group, fetched, d);
      }
    }
  }

  /**
   Over every run, each duplicate has exactly one DUPLICATE_OF edge and no other episode has any, if and
   only if one link went through for each episode that has been marked and none for the others.
   */
  lemma DuplicatesHaveOneOriginalIff(steps: seq<Step>)
    requires AllFaithful(steps)
    ensures LinksSound(Run(START, steps)) <==>
            forall d: string :: TimesLinked(START, steps, d) == if IsMarked(Run(START, steps), d) then 1 else 0
  {
    var s := Run(START, steps);
    RunsKeepLinksRaw(steps);
    forall d: string ensures EdgesFrom(s.duplicateOf, d) == TimesLinked(START, steps, d) {
      EdgesCountLinks(START, steps, d);
    }
    if LinksSound(s) {
      forall d: string ensures EdgesFrom(s.duplicateOf, d) == if IsMarked(s, d) then 1 else 0 {
        if !IsMarked(s, d) { EdgesFromZero(s.duplicateOf, d); }
      }
    }
    if forall d: string :: TimesLinked(START, steps, d) == if IsMarked(s, d) then 1 else 0 {
      forall e | e in s.duplicateOf ensures IsMarked(s, e.0) { EdgesFromSome(s.duplicateOf, e); }
    }
  }

  /** Every link to an original goes through, and so does every marking of duplicates. */
  ghost predicate Reliable(o: Oracle) {
    (forall n: nat, u: string :: o.linkSucceeds(n, u)) && (forall n: nat :: o.markSucceeds(n))
  }

  ghost predicate AllReliable(steps: seq<Step>) {
    forall i :: 0 <= i < |steps| && steps[i].Consolidate? ==> Reliable(steps[i].o)
  }

  lemma ReliableMarksLinked(s: Store, o: Oracle, n: nat, group: string, now: real, d: string)
    requires Faithful(o) && Reliable(o)
    ensures IsMarked(ConsolidateSpec(s, o, n, group, now), d)
            <==> IsMarked(s, d) || (d in Fetched(s, o, n, group) && IsLinked(s, o, n, group, d))
    ensures IsMarked(s, d) ==> d !in Fetched(s, o, n, group)
  {
    FetchedPending(s, o, n, group);
    if d in s.episodes {
      ConsolidateEffect(s, o, n, group, now, d);
    } else if d in ConsolidateSpec(s, o, n, group, now).episodes {
      ConsolidateAdds(s, o, n, group, now, d);
    }
  }

  lemma {:induction false} ReliableLinksOnce(steps: seq<Step>, d: string)
    requires AllFaithful(steps) && AllReliable(steps)
    ensures TimesLinked(START, steps, d) == if IsMarked(Run(START, steps), d) then 1 else 0
    decreases |steps|
  {
    if steps != [] {
      var before, last := steps[..|steps| - 1], steps[|steps| - 1];
      ReliableLinksOnce(before, d);
      if last.Consolidate? { ReliableMarksLinked(Run(START, before), last.o, last.n, last.group, last.now, d); }
    }
  }

  /** In particular that is so if all links and markings go through. */
  lemma DuplicatesHaveOneOriginal(steps: seq<Step>)
    requires AllFaithful(steps) && AllReliable(steps)
    ensures LinksSound(Run(START, steps))
  {
    forall d: string ensures TimesLinked(START, steps, d) == if IsMarked(Run(START, steps), d) then 1 else 0 {
      ReliableLinksOnce(steps, d);
    }
    DuplicatesHaveOneOriginalIff(steps);
  }

  /**
   One failed link leaves a duplicate without an edge, one failed marking leaves a linked episode pending,
   to be linked again.
   */
  lemma FailedLinksAndMarks(s: Store, o: Oracle, n: nat, group: string, now: real, d: string)
    requires Faithful(o) && d in Fetched(s, o, n, group) && IsDuplicate(s, o, group, d)
    ensures var s' := ConsolidateSpec(s, o, n, group, now);
            && (IsMarked(s', d) <==> o.markSucceeds(n))
            && (IsPendingRaw(s', group, d) <==> !o.markSucceeds(n))
            && EdgesFrom(s'.duplicateOf, d) == EdgesFrom(s.duplicateOf, d) + (if o.linkSucceeds(n, d) then 1 else 0)
  {
    FetchedPending(s, o, n, group);
    ConsolidateEffect(s, o, n, group, now, d);
    ConsolidateLinks(s, o, n, group, now);
    EdgesFromAppend(s.duplicateOf, LinksFor(s, o, n, group, Fetched(s, o, n, group)), d);
    LinksOnePerDuplicate(s, o, n, group, Fetched(s, o, n, group), d);
  }

  /** An original and one pending episode. */
  function OneDuplicate(): Store {
    Store(map["x" := Episode("g", RAW, Consolidated, 1.0, true), "d" := Episode("g", RAW, Pending, 2.0, true)], [], [])
  }

  /** Its marking fails once, so the duplicate is linked twice. */
  lemma FailedMarkLinksTwice(o: Oracle, now: real)
    requires Faithful(o) && o.fetchSucceeds(0) && o.fetchSucceeds(1) && !o.markSucceeds(0) && o.markSucceeds(1)
    requires o.linkSucceeds(0, "d") && o.linkSucceeds(1, "d")
    requires IsDuplicate(OneDuplicate(), o, "g", "d")
    requires IsDuplicate(ConsolidateSpec(OneDuplicate(), o, 0, "g", now), o, "g", "d")
    ensures var s := Run(OneDuplicate(), [Consolidate(o, 0, "g", now), Consolidate(o, 1, "g", now)]);
            IsMarked(s, "d") && EdgesFrom(s.duplicateOf, "d") == 2
  {
    var s0, first, second := OneDuplicate(), Consolidate(o, 0, "g", now), Consolidate(o, 1, "g", now);
    var s1 := ConsolidateSpec(s0, o, 0, "g", now);
    FewAreFetched(s0, o, 0, "g", {"d"}, "d");
    FailedLinksAndMarks(s0, o, 0, "g", now, "d");
    forall v ensures IsPendingRaw(s1, "g", v) ==> v == "d" {
      if v in s0.episodes {
        ConsolidateEffect(s0, o, 0, "g", now, v);
        FetchedPending(s0, o, 0, "g");
      } else if v in s1.episodes {
        ConsolidateAdds(s0, o, 0, "g", now, v);
      }
    }
    FewAreFetched(s1, o, 1, "g", {"d"}, "d");
    FailedLinksAndMarks(s1, o, 1, "g", now, "d");
    assert [first, second][..1] == [first] && [first][..0] == [];
    assert Run(s0, [first]) == s1;
  }

  lemma TargetsAreNoDuplicates(s: Store, e: Edge)
    requires LinksSound(s) && e in s.duplicateOf
    ensures e.1 in s.episodes && s.episodes[e.1].status == Consolidated && EdgesFrom(s.duplicateOf, e.1) == 0
  {
    assert RawLink(s, e);
    forall f | f in s.duplicateOf ensures f.0 != e.1 { assert IsMarked(s, f.0); }
    EdgesFromZero(s.duplicateOf, e.1);
  }

  /** Two sources consolidated without a compressed episode stay without one in every run. */
  lemma FailedCompressionIsFinal(o: Oracle, n: nat, now: real, steps: seq<Step>)
    requires Faithful(o) && o.fetchSucceeds(n) && Succeeds(o, n) && !o.compressionSucceeds(n) && AllFaithful(steps)
    ensures var raw := Episode("g", RAW, Pending, 1.0, false);
            var s := Store(map["a" := raw, "b" := raw], [], []);
            var s' := ConsolidateSpec(s, o, n, "g", now);
            && OutcomeSpec(s, o, n, "g") == Failed
            && IsConsolidatedRaw(s', "g", "a") && IsConsolidatedRaw(s', "g", "b")
            && forall e :: e in Run(s', steps).derivedFrom ==> e.1 != "a" && e.1 != "b"
  {
    var raw := Episode("g", RAW, Pending, 1.0, false);
    var s := Store(map["a" := raw, "b" := raw], [], []);
    var uniques := Uniques(s, o, "g", Fetched(s, o, n, "g"));
    PlainIsUnique(s, o, n, "g", "a");
    PlainIsUnique(s, o, n, "g", "b");
    assert |uniques| >= 2 by {
      assert exists i :: 0 <= i < |uniques| && uniques[i] == "a";
      assert exists i :: 0 <= i < |uniques| && uniques[i] == "b";
    }
    ConsolidateEffect(s, o, n, "g", now, "a");
    ConsolidateEffect(s, o, n, "g", now, "b");
    var s' := ConsolidateSpec(s, o, n, "g", now);
    forall e | e in Run(s', steps).derivedFrom ensures e.1 != "a" && e.1 != "b" {
      if e.1 == "a" || e.1 == "b" { SettledIsNeverCompressed(s', steps, e.1, e); }
    }
  }

  lemma PlainIsUnique(s: Store, o: Oracle, n: nat, group: string, u: string)
    requires Faithful(o) && o.fetchSucceeds(n) && Succeeds(o, n)
    requires |s.episodes| <= FETCH_LIMIT && IsPendingRaw(s, group, u) && !s.episodes[u].embedded
    ensures u in Fetched(s, o, n, group) && u in Uniques(s, o, group, Fetched(s, o, n, group))
    ensures StatusAfter(s, o, n, group, u) == Consolidated
  {
    FewAreFetched(s, o, n, group, s.episodes.Keys, u);
    SplitMembers(s, o, group, Fetched(s, o, n, group), u);
  }

  /** If the pending episodes of a group fit into one fetch, all are fetched. */
  lemma FewAreFetched(s: Store, o: Oracle, n: nat, group: string, all: set<string>, u: string)
    requires Faithful(o) && o.fetchSucceeds(n) && |all| <= FETCH_LIMIT
    requires forall v :: IsPendingRaw(s, group, v) ==> v in all
    requires IsPendingRaw(s, group, u)
    ensures u in Fetched(s, o, n, group)
  {
    var fetched := o.fetch(s, group);
    assert FetchSound(o, s, group);
    if u !in fetched {
      DistinctCount(fetched);
      FitsInto(Elements(fetched), all, u);
    }
  }

  lemma FitsInto(some: set<string>, all: set<string>, u: string)
    requires some <= all && u in all && u !in some
    ensures |some| < |all|
  {
    assert some <= all - {u};
    SubsetCount(some, all - {u});
  }
}
