/**
 Background consolidation (src/memory_service/workers/rem_worker.py): one polling worker finds groups
 with enough episodes newer than its last sweep, splits the pending episodes of each into duplicates
 and uniques, links and marks the duplicates, marks the uniques once curation and the ontology update
 have gone through, and compresses them into one more episode.

 Query results and the outcomes of the steps are taken from an oracle, so the statements hold for
 every answer the database may give and every pattern of failures.
 */
module Consolidation {
  import opened Basics

  datatype Status = Pending | Consolidated | Duplicate

  datatype Episode = Episode(group: string, kind: string, status: Status, createdAt: real, embedded: bool)

  type Edge = (string, string)

  /** DUPLICATE_OF and DERIVED_FROM edges are created, not merged, so they are kept as lists. */
  datatype Store = Store(episodes: map<string, Episode>, duplicateOf: seq<Edge>, derivedFrom: seq<Edge>)

  const RAW := "raw"
  const COMPRESSED := "compressed"
  const FETCH_LIMIT := 20
  const CONSOLIDATED_KINDS := {"reflection", "metacognition", "causal_reflection", "compressed", "narrative"}

  predicate IsPendingRaw(s: Store, group: string, u: string) {
    u in s.episodes && s.episodes[u].group == group && s.episodes[u].kind == RAW && s.episodes[u].status == Pending
  }

  predicate IsConsolidatedRaw(s: Store, group: string, u: string) {
    u in s.episodes && s.episodes[u].group == group && s.episodes[u].kind == RAW && s.episodes[u].status == Consolidated
  }

  function CreatedAt(s: Store, u: string): real {
    if u in s.episodes then s.episodes[u].createdAt else 0.0
  }

  /** What the fetch query returns: the oldest pending raw episodes of the group, at most 20. */
  ghost predicate IsFetch(s: Store, group: string, fetched: seq<string>) {
    && NoRepeats(fetched) && |fetched| <= FETCH_LIMIT
    && (forall u :: u in fetched ==> IsPendingRaw(s, group, u))
    && (forall i, j :: 0 <= i < j < |fetched| ==> CreatedAt(s, fetched[i]) <= CreatedAt(s, fetched[j]))
    && (forall u :: IsPendingRaw(s, group, u) && u !in fetched ==>
          |fetched| == FETCH_LIMIT && forall v :: v in fetched ==> CreatedAt(s, v) <= CreatedAt(s, u))
  }

  // ---------------------------------------------------------------- what discovery counts

  function NewPending(s: Store, group: string, since: real): set<string> {
    set u | u in s.episodes && IsPendingRaw(s, group, u) && s.episodes[u].createdAt > since
  }

  datatype Config = Config(minEpisodes: int, limit: nat)

  /** At least the minimum number of pending raw episodes newer than the last sweep. */
  predicate Discoverable(s: Store, group: string, since: real, c: Config) {
    |NewPending(s, group, since)| >= Max(1, c.minEpisodes)
  }

  /** A row of the discovery query; results hold whatever the oldest time is. */
  datatype Row = Row(group: string, count: nat, oldest: real)

  function GroupsOf(rows: seq<Row>): seq<string> {
    if rows == [] then [] else [rows[0].group] + GroupsOf(rows[1..])
  }

  /** What the discovery query returns: the discoverable groups with the most new episodes, at most k. */
  ghost predicate IsRanking(s: Store, since: real, c: Config, k: nat, rows: seq<Row>) {
    && |rows| <= k
    && (forall i, j :: 0 <= i < j < |rows| ==> rows[i].group != rows[j].group && rows[i].count >= rows[j].count)
    && (forall i :: 0 <= i < |rows| ==>
        rows[i].count == |NewPending(s, rows[i].group, since)| && Discoverable(s, rows[i].group, since, c))
    && (forall g :: Discoverable(s, g, since, c) && g !in GroupsOf(rows) ==>
          |rows| == k && forall i :: 0 <= i < |rows| ==> rows[i].count >= |NewPending(s, g, since)|)
  }

  // ---------------------------------------------------------------- the surroundings

  /**
   Query answers, and for the n-th consolidation which steps go through. `ranking` is None when the
   discovery query raises; `described` are the groups reported to have ontology data, asked for before
   each of the two discovery queries. The ontology step includes the query that marks the uniques.
   Links to originals and to sources fail one by one, and so does marking the duplicates; none of these
   fails the consolidation.
   */
  datatype Oracle = Oracle(
    ranking: (Store, real, Config, nat) -> Option<seq<Row>>,
    described: (Store, bool) -> set<string>,
    fetch: (Store, string) -> seq<string>,
    similar: (Store, string, string) -> Option<string>,
    freshUuid: Store -> string,
    fetchSucceeds: nat -> bool,
    curationSucceeds: nat -> bool,
    ontologySucceeds: nat -> bool,
    compressionSucceeds: nat -> bool,
    linkSucceeds: (nat, string) -> bool,
    markSucceeds: nat -> bool,
    deriveSucceeds: (nat, string) -> bool)

  ghost predicate RankingSound(o: Oracle, s: Store, since: real, c: Config, k: nat) {
    o.ranking(s, since, c, k).Some? ==> IsRanking(s, since, c, k, o.ranking(s, since, c, k).value)
  }

  ghost predicate FetchSound(o: Oracle, s: Store, g: string) {
    IsFetch(s, g, o.fetch(s, g))
  }

  predicate SimilarSound(o: Oracle, s: Store, g: string, u: string) {
    o.similar(s, g, u).Some? ==> IsConsolidatedRaw(s, g, o.similar(s, g, u).value)
  }

  predicate FreshSound(o: Oracle, s: Store) {
    o.freshUuid(s) !in s.episodes
  }

  ghost predicate Faithful(o: Oracle) {
    && (forall s: Store, since: real, c: Config, k: nat :: RankingSound(o, s, since, c, k))
    && (forall s: Store, g: string :: FetchSound(o, s, g))
    && (forall s: Store, g: string, u: string :: SimilarSound(o, s, g, u))
    && (forall s: Store :: FreshSound(o, s))
  }

  // ---------------------------------------------------------------- discovery

  /** The rows of named groups that have, or have no, ontology data. */
  function Selected(rows: seq<Row>, described: set<string>, withOntology: bool): seq<Row> {
    if rows == [] then []
    else (if rows[0].group != "" && (rows[0].group in described <==> withOntology) then [rows[0]] else [])
         + Selected(rows[1..], described, withOntology)
  }

  /** Half a point for each episode and each hour of age; a missing time counts as now. */
  function Score(row: Row, now: real): real {
    row.count as real * 0.5 + (now - (if row.oldest == 0.0 then now else row.oldest)) / 3600.0 * 0.5
  }

  function InsertByScore(row: Row, rows: seq<Row>, now: real): seq<Row> {
    if rows == [] || Score(row, now) >= Score(rows[0], now) then [row] + rows
    else [rows[0]] + InsertByScore(row, rows[1..], now)
  }

  /** A stable sort by descending score, as list.sort with reverse=True. */
  function SortByScore(rows: seq<Row>, now: real): seq<Row> {
    if rows == [] then [] else InsertByScore(rows[0], SortByScore(rows[1..], now), now)
  }

  /**
   One discovery query. The database cuts off at k before the rows are filtered; a query that
   raises finds nothing.
   */
  function Query(s: Store, o: Oracle, since: real, c: Config, k: nat, withOntology: bool, now: real): seq<string> {
    var ranking := o.ranking(s, since, c, k);
    if ranking.None? then []
    else GroupsOf(SortByScore(Selected(ranking.value, o.described(s, withOntology), withOntology), now))
  }

  /** Groups without ontology data first, then groups with it, up to the limit. */
  function PendingGroups(s: Store, o: Oracle, since: real, c: Config, now: real): seq<string> {
    var priority := Query(s, o, since, c, c.limit, false, now);
    if |priority| >= c.limit then priority[..c.limit]
    else priority + Query(s, o, since, c, c.limit - |priority|, true, now)
  }

  // ---------------------------------------------------------------- one consolidation

  /** An episode with an embedding that a consolidated episode of its group matches. */
  predicate IsDuplicate(s: Store, o: Oracle, group: string, u: string) {
    u in s.episodes && s.episodes[u].embedded && o.similar(s, group, u).Some?
  }

  function Duplicates(s: Store, o: Oracle, group: string, us: seq<string>): seq<string> {
    if us == [] then []
    else (if IsDuplicate(s, o, group, us[0]) then [us[0]] else []) + Duplicates(s, o, group, us[1..])
  }

  function Uniques(s: Store, o: Oracle, group: string, us: seq<string>): seq<string> {
    if us == [] then []
    else (if IsDuplicate(s, o, group, us[0]) then [] else [us[0]]) + Uniques(s, o, group, us[1..])
  }

  /** A duplicate whose link query goes through. */
  predicate IsLinked(s: Store, o: Oracle, n: nat, group: string, u: string) {
    IsDuplicate(s, o, group, u) && o.linkSucceeds(n, u)
  }

  function LinkOf(s: Store, o: Oracle, n: nat, group: string, u: string): seq<Edge> {
    if IsLinked(s, o, n, group, u) then [(u, o.similar(s, group, u).value)] else []
  }

  function LinksFor(s: Store, o: Oracle, n: nat, group: string, us: seq<string>): seq<Edge> {
    if us == [] then [] else LinkOf(s, o, n, group, us[0]) + LinksFor(s, o, n, group, us[1..])
  }

  function Marked(episodes: map<string, Episode>, us: seq<string>, status: Status): map<string, Episode> {
    map u | u in episodes :: if u in us then episodes[u].(status := status) else episodes[u]
  }

  /** The links from a compressed episode to its sources, as far as they go through. */
  function Links(o: Oracle, n: nat, from: string, us: seq<string>): seq<Edge> {
    if us == [] then []
    else (if o.deriveSucceeds(n, us[0]) then [(from, us[0])] else []) + Links(o, n, from, us[1..])
  }

  /** The episodes a consolidation works on: none if the fetch query raises. */
  function Fetched(s: Store, o: Oracle, n: nat, group: string): seq<string> {
    if o.fetchSucceeds(n) then o.fetch(s, group) else []
  }

  datatype Outcome = Skipped | Failed | Finished(duplicates: nat, consolidated: nat)

  function AfterDedup(s: Store, o: Oracle, n: nat, group: string, fetched: seq<string>): Store {
    var duplicates := Duplicates(s, o, group, fetched);
    s.(episodes := if o.markSucceeds(n) then Marked(s.episodes, duplicates, Duplicate) else s.episodes,
       duplicateOf := s.duplicateOf + LinksFor(s, o, n, group, fetched))
  }

  function WithCompressed(s: Store, o: Oracle, n: nat, group: string, uuid: string, sources: seq<string>,
                          now: real): Store {
    s.(episodes := s.episodes[uuid := Episode(group, COMPRESSED, Consolidated, now, true)],
       derivedFrom := s.derivedFrom + Links(o, n, uuid, sources))
  }

  /** Deduplication is done and the uniques are marked. */
  function AfterMarks(s: Store, o: Oracle, n: nat, group: string, fetched: seq<string>): Store {
    var deduped := AfterDedup(s, o, n, group, fetched);
    deduped.(episodes := Marked(deduped.episodes, Uniques(s, o, group, fetched), Consolidated))
  }

  function ConsolidateSpec(s: Store, o: Oracle, n: nat, group: string, now: real): Store {
    var fetched := Fetched(s, o, n, group);
    var uniques := Uniques(s, o, group, fetched);
    if uniques == [] || !o.curationSucceeds(n) || !o.ontologySucceeds(n) then AfterDedup(s, o, n, group, fetched)
    else
      var done := AfterMarks(s, o, n, group, fetched);
      if |uniques| >= 2 && o.compressionSucceeds(n)
        then WithCompressed(done, o, n, group, o.freshUuid(done), uniques, now) else done
  }

  function OutcomeSpec(s: Store, o: Oracle, n: nat, group: string): Outcome {
    var fetched := Fetched(s, o, n, group);
    var uniques := Uniques(s, o, group, fetched);
    if !o.fetchSucceeds(n) then Failed
    else if fetched == [] then Skipped
    else if uniques == [] then Finished(|Duplicates(s, o, group, fetched)|, 0)
    else if !o.curationSucceeds(n) || !o.ontologySucceeds(n) then Failed
    else if |uniques| >= 2 && !o.compressionSucceeds(n) then Failed
    else Finished(|Duplicates(s, o, group, fetched)|, |uniques|)
  }

  lemma {:induction false} SplitAppend(s: Store, o: Oracle, n: nat, group: string, us: seq<string>, u: string)
    ensures Duplicates(s, o, group, us + [u]) ==
            Duplicates(s, o, group, us) + (if IsDuplicate(s, o, group, u) then [u] else [])
    ensures Uniques(s, o, group, us + [u]) ==
            Uniques(s, o, group, us) + (if IsDuplicate(s, o, group, u) then [] else [u])
    ensures LinksFor(s, o, n, group, us + [u]) == LinksFor(s, o, n, group, us) + LinkOf(s, o, n, group, u)
  {
    if us == [] {
      assert us + [u] == [u] && [u][1..] == [];
    } else {
      var first, rest := us[0], us[1..];
      assert (us + [u])[1..] == rest + [u] && (us + [u])[0] == first;
      SplitAppend(s, o, n, group, rest, u);
      AppendAssociative(LinkOf(s, o, n, group, first), LinksFor(s, o, n, group, rest), LinkOf(s, o, n, group, u));
      if IsDuplicate(s, o, group, first) {
        AppendAssociative([first], Duplicates(s, o, group, rest), if IsDuplicate(s, o, group, u) then [u] else []);
      } else {
        AppendAssociative([first], Uniques(s, o, group, rest), if IsDuplicate(s, o, group, u) then [] else [u]);
      }
    }
  }

  class RemWorker {
    const config: Config
    var episodes: map<string, Episode>
    var duplicateOf: seq<Edge>
    var derivedFrom: seq<Edge>
    /** Start of the last cycle that finished without a failure. */
    var lastSweep: real

    constructor (config: Config)
      ensures this.config == config && View() == START && lastSweep == 0.0
    {
      this.config := config;
      episodes, duplicateOf, derivedFrom, lastSweep := map[], [], [], 0.0;
    }

    function View(): Store
      reads this
    {
      Store(episodes, duplicateOf, derivedFrom)
    }

    method QueryPendingGroups(o: Oracle, withOntology: bool, k: nat, now: real) returns (groups: seq<string>)
      ensures groups == Query(View(), o, lastSweep, config, k, withOntology, now)
    {
      var described := o.described(View(), withOntology);
      var ranking := o.ranking(View(), lastSweep, config, k);
      if ranking.None? {
        return [];
      }
      var rows, selected := ranking.value, [];
      for i := 0 to |rows|
        invariant selected == Selected(rows[..i], described, withOntology)
      {
        assert rows[..i + 1] == rows[..i] + [rows[i]];
        SelectedAppend(rows[..i], rows[i], described, withOntology);
        if rows[i].group == "" || (withOntology && rows[i].group !in described) ||
          (!withOntology && rows[i].group in described) {
          continue;
        }
        selected := selected + [rows[i]];
      }
      assert rows[..|rows|] == rows;
      groups := GroupsOf(SortByScore(selected, now));
    }

    method FindPendingGroups(o: Oracle, now: real) returns (groups: seq<string>)
      ensures groups == PendingGroups(View(), o, lastSweep, config, now)
    {
      var priority := QueryPendingGroups(o, false, config.limit, now);
      if |priority| >= config.limit {
        return priority[..config.limit];
      }
      var normal := QueryPendingGroups(o, true, config.limit - |priority|, now);
      groups := priority + normal;
    }

    /** The deduplication pass: every fetched episode is linked as a duplicate or kept as unique. */
    method SplitAndLink(o: Oracle, n: nat, group: string, fetched: seq<string>)
      returns (duplicates: seq<string>, uniques: seq<string>)
      modifies this`duplicateOf
      ensures duplicates == Duplicates(old(View()), o, group, fetched) &&
              uniques == Uniques(old(View()), o, group, fetched)
      ensures duplicateOf == old(duplicateOf) + LinksFor(old(View()), o, n, group, fetched)
    {
      var s := View();
      duplicates, uniques := [], [];
      for i := 0 to |fetched|
        invariant duplicates == Duplicates(s, o, group, fetched[..i]) && uniques == Uniques(s, o, group, fetched[..i])
        invariant duplicateOf == s.duplicateOf + LinksFor(s, o, n, group, fetched[..i])
      {
        var u := fetched[i];
        assert fetched[..i + 1] == fetched[..i] + [u];
        SplitAppend(s, o, n, group, fetched[..i], u);
        if u in s.episodes && s.episodes[u].embedded {
          var similar := o.similar(s, group, u);
          if similar.Some? {
            duplicates := duplicates + [u];
            if o.linkSucceeds(n, u) {
              duplicateOf := duplicateOf + [(u, similar.value)];
            }
            continue;
          }
        }
        uniques := uniques + [u];
      }
      assert fetched[..|fetched|] == fetched;
    }

    method ConsolidateGroup(o: Oracle, n: nat, group: string, now: real) returns (outcome: Outcome)
      requires Faithful(o)
      modifies this`episodes, this`duplicateOf, this`derivedFrom
      ensures View() == ConsolidateSpec(old(View()), o, n, group, now)
      ensures outcome == OutcomeSpec(old(View()), o, n, group)
    {
      var s := View();
      if !o.fetchSucceeds(n) {
        NothingFetched(s);
        return Failed;
      }
      var fetched := o.fetch(s, group);
      if fetched == [] {
        NothingFetched(s);
        return Skipped;
      }
      var duplicates, uniques := SplitAndLink(o, n, group, fetched);
      MarkedNone(s.episodes, Duplicate);
      if duplicates != [] && o.markSucceeds(n) {
        episodes := Marked(episodes, duplicates, Duplicate);
      }
      if uniques == [] {
        return Finished(|duplicates|, 0);
      }
      if !o.curationSucceeds(n) || !o.ontologySucceeds(n) {
        return Failed;
      }
      episodes := Marked(episodes, uniques, Consolidated);
      if |uniques| >= 2 {
        if !o.compressionSucceeds(n) {
          return Failed;
        }
        var uuid := o.freshUuid(View());
        episodes := episodes[uuid := Episode(group, COMPRESSED, Consolidated, now, true)];
        derivedFrom := derivedFrom + Links(o, n, uuid, uniques);
      }
      outcome := Finished(|duplicates|, |uniques|);
    }

    /** One cycle over the groups found; the sweep time moves on only if no group failed. */
    method RunCycle(o: Oracle, cycleStart: real, now: real)
      requires Faithful(o)
      modifies this`episodes, this`duplicateOf, this`derivedFrom, this`lastSweep
      ensures World(View(), lastSweep, None)
           == AfterCycle(old(View()), o, PendingGroups(old(View()), o, old(lastSweep), config, now), old(lastSweep),
                         cycleStart, now)
    {
      var groups := FindPendingGroups(o, now);
      if groups == [] {
        lastSweep := cycleStart;
        return;
      }
      var failed := ConsolidateAll(o, groups, now);
      if !failed {
        lastSweep := cycleStart;
      }
    }

    method ConsolidateAll(o: Oracle, groups: seq<string>, now: real) returns (failed: bool)
      requires Faithful(o)
      modifies this`episodes, this`duplicateOf, this`derivedFrom
      ensures View() == CycleSpec(old(View()), o, groups, now) && failed == CycleFails(old(View()), o, groups, now)
    {
      failed := false;
      for i := 0 to |groups|
        invariant View() == CycleSpec(old(View()), o, groups[..i], now)
        invariant failed == CycleFails(old(View()), o, groups[..i], now)
      {
        assert groups[..i + 1][..i] == groups[..i];
        var outcome := ConsolidateGroup(o, i, groups[i], now);
        if outcome == Failed {
          failed := true;
        }
      }
      assert groups[..|groups|] == groups;
    }
  }

  function CycleSpec(s: Store, o: Oracle, groups: seq<string>, now: real): Store
    decreases |groups|
  {
    if groups == [] then s
    else
      var n := |groups| - 1;
      ConsolidateSpec(CycleSpec(s, o, groups[..n], now), o, n, groups[n], now)
  }

  predicate CycleFails(s: Store, o: Oracle, groups: seq<string>, now: real)
    decreases |groups|
  {
    if groups == [] then false
    else
      var n := |groups| - 1;
      CycleFails(s, o, groups[..n], now) || OutcomeSpec(CycleSpec(s, o, groups[..n], now), o, n, groups[n]) == Failed
  }

  /** A cycle under way: its start, the groups still to consolidate, whether one has failed. */
  datatype Cycle = Cycle(start: real, groups: seq<string>, failed: bool)

  datatype World = World(store: Store, lastSweep: real, cycle: Option<Cycle>)

  function AfterCycle(s: Store, o: Oracle, groups: seq<string>, since: real, start: real, now: real): World {
    World(CycleSpec(s, o, groups, now), if CycleFails(s, o, groups, now) then since else start, None)
  }

  lemma {:induction false} SelectedAppend(rows: seq<Row>, row: Row, described: set<string>, withOntology: bool)
    ensures Selected(rows + [row], described, withOntology)
         == Selected(rows, described, withOntology) +
           (if row.group != "" && (row.group in described <==> withOntology) then [row] else [])
  {
    if rows == [] {
      assert rows + [row] == [row] && [row][1..] == [];
    } else {
      var rest := rows[1..];
      assert (rows + [row])[1..] == rest + [row];
      SelectedAppend(rest, row, described, withOntology);
      var first := if rows[0].group != "" && (rows[0].group in described <==> withOntology) then [rows[0]] else [];
      var last := if row.group != "" && (row.group in described <==> withOntology) then [row] else [];
      assert first + (Selected(rest, described, withOntology) + last) ==
        (first + Selected(rest, described, withOntology)) + last;
    }
  }

  lemma MarkedNone(episodes: map<string, Episode>, status: Status)
    ensures Marked(episodes, [], status) == episodes
  {
  }

  lemma NothingFetched(s: Store)
    ensures s.(episodes := Marked(s.episodes, [], Duplicate), duplicateOf := s.duplicateOf + []) == s
  {
    MarkedNone(s.episodes, Duplicate);
  }

  const START := Store(map[], [], [])

  // ---------------------------------------------------------------- one consolidation, episode by episode

  lemma {:induction false} SplitMembers(s: Store, o: Oracle, group: string, us: seq<string>, u: string)
    ensures u in Duplicates(s, o, group, us) <==> u in us && IsDuplicate(s, o, group, u)
    ensures u in Uniques(s, o, group, us) <==> u in us && !IsDuplicate(s, o, group, u)
  {
    if us != [] {
      SplitMembers(s, o, group, us[1..], u);
    }
  }

  /** Duplicates and uniques together are the fetched episodes. */
  lemma {:induction false} SplitIsPartition(s: Store, o: Oracle, group: string, us: seq<string>)
    ensures multiset(Duplicates(s, o, group, us)) + multiset(Uniques(s, o, group, us)) == multiset(us)
  {
    if us != [] {
      var first, rest := us[0], us[1..];
      SplitIsPartition(s, o, group, rest);
      assert us == [first] + rest;
      var duplicates, uniques := Duplicates(s, o, group, rest), Uniques(s, o, group, rest);
      if IsDuplicate(s, o, group, first) {
        assert Duplicates(s, o, group, us) == [first] + duplicates && Uniques(s, o, group, us) == uniques;
      } else {
        assert Duplicates(s, o, group, us) == duplicates && Uniques(s, o, group, us) == [first] + uniques;
      }
    }
  }

  /** Curation and the ontology update of the n-th consolidation both go through. */
  predicate Succeeds(o: Oracle, n: nat) {
    o.curationSucceeds(n) && o.ontologySucceeds(n)
  }

  function StatusAfter(s: Store, o: Oracle, n: nat, group: string, u: string): Status
    requires u in s.episodes
  {
    if u !in Fetched(s, o, n, group) then s.episodes[u].status
    else if s.episodes[u].embedded && o.similar(s, group, u).Some?
      then if o.markSucceeds(n) then Duplicate else s.episodes[u].status
    else if Succeeds(o, n) then Consolidated
    else s.episodes[u].status
  }

  lemma FetchedPending(s: Store, o: Oracle, n: nat, group: string)
    requires Faithful(o)
    ensures NoRepeats(Fetched(s, o, n, group)) && forall u :: u in Fetched(s, o, n, group) ==> IsPendingRaw(s, group, u)
  {
    assert FetchSound(o, s, group);
  }

  /**
   A consolidation splits the fetched episodes: duplicates are marked whatever happens later, unless
   marking fails, uniques are marked consolidated if curation and the ontology update succeed and stay
   pending otherwise, and no other episode changes.
   */
  lemma ConsolidateEffect(s: Store, o: Oracle, n: nat, group: string, now: real, u: string)
    requires Faithful(o) && u in s.episodes
    ensures var s' := ConsolidateSpec(s, o, n, group, now);
            u in s'.episodes && s'.episodes[u] == s.episodes[u].(status := StatusAfter(s, o, n, group, u))
  {
    SplitMembers(s, o, group, Fetched(s, o, n, group), u);
    FetchedPending(s, o, n, group);
    assert FreshSound(o, AfterMarks(s, o, n, group, Fetched(s, o, n, group)));
  }

  /**
   Uniques are marked before they are compressed: those of a failed consolidation stay pending, to be
   tried again, if and only if curation or the ontology update is what failed.
   */
  lemma FailureKeepsPendingIff(s: Store, o: Oracle, n: nat, group: string, now: real, u: string)
    requires Faithful(o) && OutcomeSpec(s, o, n, group) == Failed && u in Uniques(s, o, group, Fetched(s, o, n, group))
    ensures IsPendingRaw(ConsolidateSpec(s, o, n, group, now), group, u) <==> !Succeeds(o, n)
    ensures Succeeds(o, n) ==> !o.compressionSucceeds(n)
    ensures Succeeds(o, n) ==> ConsolidateSpec(s, o, n, group, now).derivedFrom == s.derivedFrom
  {
    SplitMembers(s, o, group, Fetched(s, o, n, group), u);
    FetchedPending(s, o, n, group);
    ConsolidateEffect(s, o, n, group, now, u);
  }

  lemma {:induction false} LinksReach(o: Oracle, n: nat, from: string, us: seq<string>, e: Edge)
    ensures e in Links(o, n, from, us) <==> e.0 == from && e.1 in us && o.deriveSucceeds(n, e.1)
  {
    if us != [] { LinksReach(o, n, from, us[1..], e); }
  }

  /**
   A successful consolidation of at least two uniques adds one compressed episode, already
   consolidated, with a DERIVED_FROM edge to each of them whose link goes through; any other adds no
   episode and no such edge.
   */
  lemma CompressionCoversUniques(s: Store, o: Oracle, n: nat, group: string, now: real)
    requires Faithful(o)
    ensures var s', uniques := ConsolidateSpec(s, o, n, group, now), Uniques(s, o, group, Fetched(s, o, n, group));
            if Succeeds(o, n) && o.compressionSucceeds(n) && |uniques| >= 2
            then exists c :: && c !in s.episodes && s'.episodes.Keys == s.episodes.Keys + {c}
                             && s'.episodes[c] == Episode(group, COMPRESSED, Consolidated, now, true)
                             && s'.derivedFrom == s.derivedFrom + Links(o, n, c, uniques)
                             && (forall e :: e in Links(o, n, c, uniques) <==>
                                   e.0 == c && e.1 in uniques && o.deriveSucceeds(n, e.1))
            else s'.episodes.Keys == s.episodes.Keys && s'.derivedFrom == s.derivedFrom
  {
    var fetched := Fetched(s, o, n, group);
    var uniques := Uniques(s, o, group, fetched);
    if Succeeds(o, n) && o.compressionSucceeds(n) && |uniques| >= 2 {
      var done := AfterMarks(s, o, n, group, fetched);
      var c := o.freshUuid(done);
      assert done.episodes.Keys == s.episodes.Keys;
      assert FreshSound(o, done);
      forall e ensures e in Links(o, n, c, uniques) <==> e.0 == c && e.1 in uniques && o.deriveSucceeds(n, e.1) {
        LinksReach(o, n, c, uniques, e);
      }
      assert ConsolidateSpec(s, o, n, group, now) == WithCompressed(done, o, n, group, c, uniques, now);
    }
  }

  // ---------------------------------------------------------------- links and outcomes

  /** u has an embedding, and v is the consolidated episode found for it. */
  predicate Matches(s: Store, o: Oracle, group: string, u: string, v: string) {
    u in s.episodes && s.episodes[u].embedded && o.similar(s, group, u) == Some(v)
  }

  lemma {:induction false} LinksMatch(s: Store, o: Oracle, n: nat, group: string, us: seq<string>, e: Edge)
    ensures e in LinksFor(s, o, n, group, us) <==> e.0 in us && Matches(s, o, group, e.0, e.1) && o.linkSucceeds(n, e.0)
  {
    if us != [] { LinksMatch(s, o, n, group, us[1..], e); }
  }

  lemma {:induction false} LinksDistinct(s: Store, o: Oracle, n: nat, group: string, us: seq<string>)
    requires NoRepeats(us)
    ensures NoRepeats(LinksFor(s, o, n, group, us))
  {
    if us != [] {
      var rest := LinksFor(s, o, n, group, us[1..]);
      LinksDistinct(s, o, n, group, us[1..]);
      forall e | e in rest ensures e.0 != us[0] { LinksMatch(s, o, n, group, us[1..], e); }
    }
  }

  /**
   A consolidation links every fetched episode to the consolidated one it matches, once, as far as the link
   queries go through, and writes no other DUPLICATE_OF edge.
   */
  lemma MatchesAreLinked(s: Store, o: Oracle, n: nat, group: string, now: real) returns (added: seq<Edge>)
    requires Faithful(o)
    ensures ConsolidateSpec(s, o, n, group, now).duplicateOf == s.duplicateOf + added && NoRepeats(added)
    ensures forall e :: e in added <==>
              e.0 in Fetched(s, o, n, group) && Matches(s, o, group, e.0, e.1) && o.linkSucceeds(n, e.0)
  {
    var fetched := Fetched(s, o, n, group);
    added := LinksFor(s, o, n, group, fetched);
    FetchedPending(s, o, n, group);
    LinksDistinct(s, o, n, group, fetched);
    forall e ensures e in added <==> e.0 in fetched && Matches(s, o, group, e.0, e.1) && o.linkSucceeds(n, e.0) {
      LinksMatch(s, o, n, group, fetched, e);
    }
  }

  lemma SplitDistinct(s: Store, o: Oracle, group: string, us: seq<string>)
    requires NoRepeats(us)
    ensures |Duplicates(s, o, group, us)| == |set u | u in us && IsDuplicate(s, o, group, u)|
    ensures |Uniques(s, o, group, us)| == |set u | u in us && !IsDuplicate(s, o, group, u)|
  {
    var duplicates, uniques := Duplicates(s, o, group, us), Uniques(s, o, group, us);
    SplitIsPartition(s, o, group, us);
    DistinctIffCountedOnce(us);
    forall u ensures multiset(duplicates)[u] <= 1 && multiset(uniques)[u] <= 1 { assert multiset(us)[u] <= 1; }
    DistinctIffCountedOnce(duplicates);
    DistinctIffCountedOnce(uniques);
    DistinctCount(duplicates);
    DistinctCount(uniques);
    forall u { SplitMembers(s, o, group, us, u); }
    assert Elements(duplicates) == set u | u in us && IsDuplicate(s, o, group, u);
    assert Elements(uniques) == set u | u in us && !IsDuplicate(s, o, group, u);
  }

  lemma OutcomeByCounts(s: Store, o: Oracle, n: nat, group: string, fetched: seq<string>, matched: nat, others: nat)
    requires fetched == Fetched(s, o, n, group)
    requires matched == |Duplicates(s, o, group, fetched)| && others == |Uniques(s, o, group, fetched)|
    ensures var outcome := OutcomeSpec(s, o, n, group);
            && (outcome == Failed <==>
                  || !o.fetchSucceeds(n)
                  || (others > 0 && !(o.curationSucceeds(n) && o.ontologySucceeds(n)))
                  || (others >= 2 && !o.compressionSucceeds(n)))
            && (outcome == Skipped <==> o.fetchSucceeds(n) && fetched == [])
            && (outcome.Finished? ==> outcome == Finished(matched, others))
  {
  }

  /**
   The outcome reported: a failure if the fetch query raises or if, with an episode left that matches nothing,
   curation, the ontology update or the compression of two or more of them does; otherwise how many episodes
   matched and how many did not.
   */
  lemma OutcomeTells(s: Store, o: Oracle, n: nat, group: string, fetched: seq<string>, matched: set<string>,
                     others: set<string>)
    requires Faithful(o) && fetched == Fetched(s, o, n, group)
    requires matched == set u | u in fetched && exists v :: Matches(s, o, group, u, v)
    requires others == set u | u in fetched && !exists v :: Matches(s, o, group, u, v)
    ensures var outcome := OutcomeSpec(s, o, n, group);
            && (outcome == Failed <==>
                  || !o.fetchSucceeds(n)
                  || (|others| > 0 && !(o.curationSucceeds(n) && o.ontologySucceeds(n)))
                  || (|others| >= 2 && !o.compressionSucceeds(n)))
            && (outcome == Skipped <==> o.fetchSucceeds(n) && fetched == [])
            && (outcome.Finished? ==> outcome == Finished(|matched|, |others|))
  {
    FetchedPending(s, o, n, group);
    SplitDistinct(s, o, group, fetched);
    forall u ensures IsDuplicate(s, o, group, u) <==> exists v :: Matches(s, o, group, u, v) {
      DuplicateIffMatches(s, o, group, u);
    }
    assert matched == set u | u in fetched && IsDuplicate(s, o, group, u);
    assert others == set u | u in fetched && !IsDuplicate(s, o, group, u);
    OutcomeByCounts(s, o, n, group, fetched, |matched|, |others|);
  }

  lemma DuplicateIffMatches(s: Store, o: Oracle, group: string, u: string)
    ensures IsDuplicate(s, o, group, u) <==> exists v :: Matches(s, o, group, u, v)
  {
    if IsDuplicate(s, o, group, u) { assert Matches(s, o, group, u, o.similar(s, group, u).value); }
  }

  /** The i-th consolidation of a cycle fails. */
  predicate FailsAt(s: Store, o: Oracle, groups: seq<string>, now: real, i: nat) {
    i < |groups| && OutcomeSpec(CycleSpec(s, o, groups[..i], now), o, i, groups[i]) == Failed
  }

  lemma FailsAtPrefix(s: Store, o: Oracle, groups: seq<string>, now: real, i: nat)
    requires i < |groups| - 1
    ensures FailsAt(s, o, groups, now, i) <==> FailsAt(s, o, groups[..|groups| - 1], now, i)
  {
    assert groups[..|groups| - 1][..i] == groups[..i];
  }

  lemma FailsLast(s: Store, o: Oracle, groups: seq<string>, now: real)
    requires groups != []
    ensures CycleFails(s, o, groups, now) <==>
            CycleFails(s, o, groups[..|groups| - 1], now) || FailsAt(s, o, groups, now, |groups| - 1)
  {
  }

  lemma SomeFails(s: Store, o: Oracle, groups: seq<string>, now: real, before: seq<string>)
    requires groups != [] && before == groups[..|groups| - 1]
    ensures (exists i: nat :: FailsAt(s, o, groups, now, i)) <==>
            || (exists i: nat :: FailsAt(s, o, before, now, i))
            || FailsAt(s, o, groups, now, |groups| - 1)
  {
    if i: nat :| FailsAt(s, o, groups, now, i) {
      if i < |before| { FailsAtPrefix(s, o, groups, now, i); }
    }
    if i: nat :| FailsAt(s, o, before, now, i) {
      FailsAtPrefix(s, o, groups, now, i);
    }
  }

  lemma {:induction false} CycleFailsIff(s: Store, o: Oracle, groups: seq<string>, now: real)
    ensures CycleFails(s, o, groups, now) <==> exists i: nat :: FailsAt(s, o, groups, now, i)
    decreases |groups|
  {
    if groups != [] {
      CycleFailsIff(s, o, groups[..|groups| - 1], now);
      FailsLast(s, o, groups, now);
      SomeFails(s, o, groups, now, groups[..|groups| - 1]);
    }
  }

  /** A cycle moves the sweep time to its start exactly when no consolidation of it fails. */
  lemma SweepMovesIff(s: Store, o: Oracle, groups: seq<string>, since: real, start: real, now: real)
    ensures AfterCycle(s, o, groups, since, start, now).lastSweep
         == if exists i: nat :: FailsAt(s, o, groups, now, i) then since else start
  {
    CycleFailsIff(s, o, groups, now);
  }
}
