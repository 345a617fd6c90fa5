/** The answers and outcomes that consolidation is stated for exist. */
module Surroundings {
  import opened Basics
  import opened Consolidation
  import opened Discovery

  lemma {:induction false} Greatest(key: string -> real, all: set<string>) returns (m: string)
    requires all != {}
    ensures m in all && forall v :: v in all ==> key(v) <= key(m)
  {
    m :| m in all;
    if all != {m} {
      var other := Greatest(key, all - {m});
      if key(m) < key(other) { m := other; }
    }
  }

  lemma {:induction false} SortedBy(key: string -> real, all: set<string>) returns (us: seq<string>)
    ensures NoRepeats(us) && forall u :: u in us <==> u in all
    ensures forall i, j :: 0 <= i < j < |us| ==> key(us[i]) <= key(us[j])
  {
    if all == {} { return []; }
    var last := Greatest(key, all);
    us := SortedBy(key, all - {last});
    assert forall i :: 0 <= i < |us| ==> us[i] in all - {last};
    us := us + [last];
  }

  function AllPending(s: Store, group: string): set<string> {
    set u | u in s.episodes && IsPendingRaw(s, group, u)
  }

  lemma FetchExists(s: Store, group: string)
    ensures exists fetched :: IsFetch(s, group, fetched)
  {
    var us := SortedBy(u => CreatedAt(s, u), AllPending(s, group));
    var fetched := us[..Min(FETCH_LIMIT, |us|)];
    forall u | IsPendingRaw(s, group, u) && u !in fetched
      ensures |fetched| == FETCH_LIMIT && forall v :: v in fetched ==> CreatedAt(s, v) <= CreatedAt(s, u)
    {
      assert u in us;
      var i :| 0 <= i < |us| && us[i] == u;
      assert forall m :: 0 <= m < |fetched| ==> fetched[m] == us[m];
    }
    forall u | u in fetched ensures IsPendingRaw(s, group, u) {
      assert u in us && u in AllPending(s, group);
    }
    assert IsFetch(s, group, fetched);
  }

  function RowsOf(s: Store, since: real, groups: seq<string>): (rows: seq<Row>)
    ensures |rows| == |groups| && forall i :: 0 <= i < |rows| ==>
            rows[i] == Row(groups[i], |NewPending(s, groups[i], since)|, 0.0)
  {
    seq(|groups|, i requires 0 <= i < |groups| => Row(groups[i], |NewPending(s, groups[i], since)|, 0.0))
  }

  lemma RankingExists(s: Store, since: real, c: Config, k: nat)
    ensures exists rows :: IsRanking(s, since, c, k, rows)
  {
    var all := set u | u in s.episodes && Discoverable(s, s.episodes[u].group, since, c) :: s.episodes[u].group;
    var groups := SortedBy(g => -(|NewPending(s, g, since)| as real), all);
    var rows := RowsOf(s, since, groups[..Min(k, |groups|)]);
    GroupsAt(rows);
    forall i | 0 <= i < |rows| ensures Discoverable(s, rows[i].group, since, c) { assert groups[i] in all; }
    forall g | Discoverable(s, g, since, c) && g !in GroupsOf(rows)
      ensures |rows| == k && forall i :: 0 <= i < |rows| ==> rows[i].count >= |NewPending(s, g, since)|
    {
      DiscoverableHasEpisode(s, g, since, c);
      assert g in groups;
      var i :| 0 <= i < |groups| && groups[i] == g;
      assert forall m :: 0 <= m < |rows| ==> GroupsOf(rows)[m] == groups[m];
    }
    assert IsRanking(s, since, c, k, rows);
  }

  lemma {:induction false} LongerThanAll(all: set<string>) returns (u: string)
    ensures forall v :: v in all ==> |v| < |u|
  {
    if all == {} { return ""; }
    var v :| v in all;
    var rest := LongerThanAll(all - {v});
    u := if |v| < |rest| then rest else v + "a";
    assert |v| < |u| && |rest| <= |u|;
  }

  ghost function SomeFetch(s: Store, group: string): seq<string> {
    FetchExists(s, group);
    var fetched :| IsFetch(s, group, fetched);
    fetched
  }

  ghost function SomeRanking(s: Store, since: real, c: Config, k: nat): Option<seq<Row>> {
    RankingExists(s, since, c, k);
    var rows :| IsRanking(s, since, c, k, rows);
    Some(rows)
  }

  ghost function SomeFresh(s: Store): string {
    assert exists u :: u !in s.episodes by { var u := LongerThanAll(s.episodes.Keys); }
    var u :| u !in s.episodes;
    u
  }

  /** What is asked of the surroundings can be met, with any groups described and any step failing. */
  lemma SurroundingsExist(described: set<string>, fetch: bool, curation: bool, ontology: bool, compression: bool,
                          link: bool, mark: bool)
    ensures exists o: Oracle ::
      && Faithful(o) && (forall s: Store, since: real, c: Config :: Undisturbed(s, o, since, c))
      && (forall s: Store :: o.described(s, false) == described)
      && (forall n: nat :: o.fetchSucceeds(n) == fetch && o.curationSucceeds(n) == curation
                           && o.ontologySucceeds(n) == ontology && o.compressionSucceeds(n) == compression)
      && (forall n: nat, u: string :: o.linkSucceeds(n, u) == link) && (forall n: nat :: o.markSucceeds(n) == mark)
  {
    var o := Oracle((s, since, c, k: nat) => SomeRanking(s, since, c, k), (s, withOntology) => described,
                    (s, g) => SomeFetch(s, g), (s, g, u) => None, s => SomeFresh(s),
                    n => fetch, n => curation, n => ontology, n => compression,
                    (n, u) => link, n => mark, (n, u) => link);
    assert Faithful(o);
    assert forall s: Store, since: real, c: Config :: Undisturbed(s, o, since, c);
  }
}
