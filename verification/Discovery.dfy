/**
 Which groups a cycle of the polling worker finds (src/memory_service/workers/rem_worker.py), in terms
 of the new pending episodes of each group.
 */
module Discovery {
  import opened Basics
  import opened Consolidation

  lemma {:induction false} SelectedMembers(rows: seq<Row>, described: set<string>, withOntology: bool, row: Row)
    ensures row in Selected(rows, described, withOntology) <==>
            row in rows && row.group != "" && (row.group in described <==> withOntology)
  {
    if rows != [] { SelectedMembers(rows[1..], described, withOntology, row); }
  }

  lemma {:induction false} SelectedCount(rows: seq<Row>, described: set<string>, withOntology: bool)
    ensures |Selected(rows, described, withOntology)| <= |rows|
  {
    if rows != [] { SelectedCount(rows[1..], described, withOntology); }
  }

  lemma {:induction false} InsertPermutes(row: Row, rows: seq<Row>, now: real)
    ensures multiset(InsertByScore(row, rows, now)) == multiset{row} + multiset(rows)
  {
    if rows != [] && Score(row, now) < Score(rows[0], now) {
      InsertPermutes(row, rows[1..], now);
      assert rows == [rows[0]] + rows[1..];
    }
  }

  lemma {:induction false} SortPermutes(rows: seq<Row>, now: real)
    ensures multiset(SortByScore(rows, now)) == multiset(rows)
  {
    if rows != [] {
      SortPermutes(rows[1..], now);
      InsertPermutes(rows[0], SortByScore(rows[1..], now), now);
      assert rows == [rows[0]] + rows[1..];
    }
  }

  // ---------------------------------------------------------------- order

  /** What discovery ranks by: an hour of age, in seconds, for each episode, and the age of the oldest, if known. */
  function Urgency(row: Row, now: real): real {
    3600.0 * row.count as real + (if row.oldest == 0.0 then 0.0 else now - row.oldest)
  }

  predicate ByUrgency(rows: seq<Row>, now: real) {
    forall i, j :: 0 <= i < j < |rows| ==> Urgency(rows[i], now) >= Urgency(rows[j], now)
  }

  /** The rows of one given urgency, in order. */
  function AsUrgent(rows: seq<Row>, now: real, urgency: real): seq<Row> {
    if rows == [] then [] else IfAsUrgent(rows[0], now, urgency) + AsUrgent(rows[1..], now, urgency)
  }

  function IfAsUrgent(row: Row, now: real, urgency: real): seq<Row> {
    if Urgency(row, now) == urgency then [row] else []
  }

  lemma ScoreIsUrgency(row: Row, now: real)
    ensures 7200.0 * Score(row, now) == Urgency(row, now)
  {
    var seconds := now - (if row.oldest == 0.0 then now else row.oldest);
    assert 3600.0 * (seconds / 3600.0) == seconds;
  }

  lemma ScoreOrdersByUrgency(a: Row, b: Row, now: real)
    ensures Score(a, now) >= Score(b, now) <==> Urgency(a, now) >= Urgency(b, now)
  {
    ScoreIsUrgency(a, now);
    ScoreIsUrgency(b, now);
  }

  lemma InsertedHead(row: Row, rows: seq<Row>, now: real)
    requires rows != []
    ensures InsertByScore(row, rows, now)
         == if Urgency(row, now) >= Urgency(rows[0], now) then [row] + rows
            else [rows[0]] + InsertByScore(row, rows[1..], now)
  {
    ScoreOrdersByUrgency(row, rows[0], now);
  }

  lemma ConsDescends(row: Row, rows: seq<Row>, now: real)
    requires ByUrgency(rows, now) && forall x :: x in rows ==> Urgency(row, now) >= Urgency(x, now)
    ensures ByUrgency([row] + rows, now)
  {
    var all := [row] + rows;
    forall i, j | 0 <= i < j < |all| ensures Urgency(all[i], now) >= Urgency(all[j], now) {
      assert all[j] == rows[j - 1];
    }
  }

  lemma {:induction false} InsertDescends(row: Row, rows: seq<Row>, now: real)
    requires ByUrgency(rows, now)
    ensures ByUrgency(InsertByScore(row, rows, now), now)
  {
    if rows == [] { return; }
    InsertedHead(row, rows, now);
    if Urgency(row, now) >= Urgency(rows[0], now) {
      ConsDescends(row, rows, now);
    } else {
      var rest := InsertByScore(row, rows[1..], now);
      InsertDescends(row, rows[1..], now);
      InsertPermutes(row, rows[1..], now);
      forall x | x in rest ensures Urgency(rows[0], now) >= Urgency(x, now) {
        assert x in multiset(rest);
        assert x == row || x in rows[1..];
      }
      ConsDescends(rows[0], rest, now);
    }
  }

  lemma AsUrgentCons(row: Row, rows: seq<Row>, now: real, urgency: real)
    ensures AsUrgent([row] + rows, now, urgency) == IfAsUrgent(row, now, urgency) + AsUrgent(rows, now, urgency)
  {
    assert ([row] + rows)[1..] == rows;
  }

  lemma OneIsEmpty(a: seq<Row>, b: seq<Row>, rest: seq<Row>)
    requires a == [] || b == []
    ensures a + (b + rest) == b + (a + rest)
  {
  }

  lemma {:induction false} InsertKeepsOrder(row: Row, rows: seq<Row>, now: real, urgency: real)
    ensures AsUrgent(InsertByScore(row, rows, now), now, urgency)
         == IfAsUrgent(row, now, urgency) + AsUrgent(rows, now, urgency)
  {
    if rows == [] {
      AsUrgentCons(row, [], now, urgency);
      AppendNothing([row]);
    } else {
      InsertedHead(row, rows, now);
      if Urgency(row, now) >= Urgency(rows[0], now) {
        AsUrgentCons(row, rows, now, urgency);
      } else {
        InsertKeepsOrder(row, rows[1..], now, urgency);
        AsUrgentCons(rows[0], InsertByScore(row, rows[1..], now), now, urgency);
        OneIsEmpty(IfAsUrgent(rows[0], now, urgency), IfAsUrgent(row, now, urgency), AsUrgent(rows[1..], now, urgency));
      }
    }
  }

  /** The sort descends by urgency and leaves rows of the same urgency in the order of the query. */
  lemma {:induction false} SortRanks(rows: seq<Row>, now: real, urgency: real)
    ensures ByUrgency(SortByScore(rows, now), now)
    ensures AsUrgent(SortByScore(rows, now), now, urgency) == AsUrgent(rows, now, urgency)
  {
    if rows != [] {
      SortRanks(rows[1..], now, urgency);
      InsertDescends(rows[0], SortByScore(rows[1..], now), now);
      InsertKeepsOrder(rows[0], SortByScore(rows[1..], now), now, urgency);
    }
  }

  /**
   A discovery query yields its rows of named groups that have, or have no, ontology data, the most urgent
   first and equally urgent ones in the order of the database.
   */
  lemma QueryRanks(s: Store, o: Oracle, since: real, c: Config, k: nat, withOntology: bool, now: real)
    returns (rows: seq<Row>)
    ensures GroupsOf(rows) == Query(s, o, since, c, k, withOntology, now) && ByUrgency(rows, now)
    ensures o.ranking(s, since, c, k).None? ==> rows == []
    ensures o.ranking(s, since, c, k).Some? ==>
              var selected := Selected(o.ranking(s, since, c, k).value, o.described(s, withOntology), withOntology);
              && multiset(rows) == multiset(selected)
              && forall u :: AsUrgent(rows, now, u) == AsUrgent(selected, now, u)
  {
    if o.ranking(s, since, c, k).None? { return []; }
    var selected := Selected(o.ranking(s, since, c, k).value, o.described(s, withOntology), withOntology);
    rows := SortByScore(selected, now);
    SortPermutes(selected, now);
    SortRanks(selected, now, 0.0);
    forall u ensures AsUrgent(rows, now, u) == AsUrgent(selected, now, u) { SortRanks(selected, now, u); }
  }

  // ---------------------------------------------------------------- members

  lemma {:induction false} GroupsAt(rows: seq<Row>)
    ensures |GroupsOf(rows)| == |rows| && forall i :: 0 <= i < |rows| ==> GroupsOf(rows)[i] == rows[i].group
  {
    if rows != [] { GroupsAt(rows[1..]); }
  }

  lemma GroupsMembers(rows: seq<Row>, g: string)
    ensures g in GroupsOf(rows) <==> exists row :: row in rows && row.group == g
  {
    GroupsAt(rows);
    if row :| row in rows && row.group == g {
      var i :| 0 <= i < |rows| && rows[i] == row;
      assert GroupsOf(rows)[i] == g;
    }
  }

  lemma QueryMembers(s: Store, o: Oracle, since: real, c: Config, k: nat, withOntology: bool, now: real, g: string)
    ensures g in Query(s, o, since, c, k, withOntology, now)
            <==> o.ranking(s, since, c, k).Some? && g in GroupsOf(o.ranking(s, since, c, k).value)
                 && g != "" && (g in o.described(s, withOntology) <==> withOntology)
  {
    if o.ranking(s, since, c, k).Some? {
      SelectedGroups(o.ranking(s, since, c, k).value, o.described(s, withOntology), withOntology, now, g);
    }
  }

  lemma SelectedGroups(rows: seq<Row>, described: set<string>, withOntology: bool, now: real, g: string)
    ensures g in GroupsOf(SortByScore(Selected(rows, described, withOntology), now))
            <==> g in GroupsOf(rows) && g != "" && (g in described <==> withOntology)
    ensures |GroupsOf(SortByScore(Selected(rows, described, withOntology), now))| <= |rows|
  {
    var selected := Selected(rows, described, withOntology);
    var sorted := SortByScore(selected, now);
    SortPermutes(selected, now);
    SelectedCount(rows, described, withOntology);
    assert |multiset(sorted)| == |multiset(selected)|;
    GroupsAt(sorted);
    GroupsMembers(sorted, g);
    GroupsMembers(rows, g);
    forall row ensures row in sorted <==> row in rows && row.group != "" && (row.group in described <==> withOntology) {
      SelectedMembers(rows, described, withOntology, row);
      assert row in multiset(sorted) <==> row in multiset(selected);
    }
  }

  lemma QueryCount(s: Store, o: Oracle, since: real, c: Config, k: nat, withOntology: bool, now: real)
    requires Faithful(o)
    ensures |Query(s, o, since, c, k, withOntology, now)| <= k
  {
    if o.ranking(s, since, c, k).Some? {
      assert RankingSound(o, s, since, c, k);
      SelectedGroups(o.ranking(s, since, c, k).value, o.described(s, withOntology), withOntology, now, "");
    }
  }

  lemma PendingMembers(s: Store, o: Oracle, since: real, c: Config, now: real, g: string)
    requires Faithful(o)
    ensures var priority := Query(s, o, since, c, c.limit, false, now);
            |priority| <= c.limit && (g in PendingGroups(s, o, since, c, now) <==>
              g in priority || (|priority| < c.limit && g in Query(s, o, since, c, c.limit - |priority|, true, now)))
  {
    QueryCount(s, o, since, c, c.limit, false, now);
  }

  /** Groups without ontology data come first, and no more groups are found than the limit. */
  lemma UndescribedFirst(s: Store, o: Oracle, since: real, c: Config, now: real, groups: seq<string>,
                         described: set<string>)
    requires Faithful(o) && o.described(s, false) == o.described(s, true) == described
    requires groups == PendingGroups(s, o, since, c, now)
    ensures |groups| <= c.limit
    ensures forall i, j :: 0 <= i < j < |groups| && groups[i] in described ==> groups[j] in described
  {
    var priority := Query(s, o, since, c, c.limit, false, now);
    QueryCount(s, o, since, c, c.limit, false, now);
    forall i | 0 <= i < |priority| ensures priority[i] !in described {
      QueryMembers(s, o, since, c, c.limit, false, now, priority[i]);
    }
    if |priority| < c.limit {
      var normal := Query(s, o, since, c, c.limit - |priority|, true, now);
      QueryCount(s, o, since, c, c.limit - |priority|, true, now);
      forall i | 0 <= i < |normal| ensures normal[i] in described {
        QueryMembers(s, o, since, c, c.limit - |priority|, true, now, normal[i]);
      }
      assert groups == priority + normal;
    }
  }

  lemma {:induction false} InsertPermutesGroups(row: Row, rows: seq<Row>, now: real)
    ensures multiset(GroupsOf(InsertByScore(row, rows, now))) == multiset{row.group} + multiset(GroupsOf(rows))
  {
    if rows != [] && Score(row, now) < Score(rows[0], now) {
      InsertPermutesGroups(row, rows[1..], now);
    } else {
      assert ([row] + rows)[1..] == rows;
    }
  }

  lemma {:induction false} SortPermutesGroups(rows: seq<Row>, now: real)
    ensures multiset(GroupsOf(SortByScore(rows, now))) == multiset(GroupsOf(rows))
  {
    if rows != [] {
      SortPermutesGroups(rows[1..], now);
      InsertPermutesGroups(rows[0], SortByScore(rows[1..], now), now);
    }
  }

  lemma {:induction false} SelectedGroupsFewer(rows: seq<Row>, described: set<string>, withOntology: bool)
    ensures multiset(GroupsOf(Selected(rows, described, withOntology))) <= multiset(GroupsOf(rows))
  {
    if rows != [] {
      var rest := Selected(rows[1..], described, withOntology);
      SelectedGroupsFewer(rows[1..], described, withOntology);
      if rows[0].group != "" && (rows[0].group in described <==> withOntology) {
        assert ([rows[0]] + rest)[1..] == rest;
      } else {
        assert [] + rest == rest;
      }
    }
  }

  /** One query finds no group twice. */
  lemma QueryDistinct(s: Store, o: Oracle, since: real, c: Config, k: nat, withOntology: bool, now: real)
    requires Faithful(o)
    ensures NoRepeats(Query(s, o, since, c, k, withOntology, now))
  {
    if o.ranking(s, since, c, k).Some? {
      assert RankingSound(o, s, since, c, k);
      GroupsAt(o.ranking(s, since, c, k).value);
      SelectedDistinct(o.ranking(s, since, c, k).value, o.described(s, withOntology), withOntology, now);
    }
  }

  lemma SelectedDistinct(rows: seq<Row>, described: set<string>, withOntology: bool, now: real)
    requires NoRepeats(GroupsOf(rows))
    ensures NoRepeats(GroupsOf(SortByScore(Selected(rows, described, withOntology), now)))
  {
    DistinctIffCountedOnce(GroupsOf(rows));
    SelectedGroupsFewer(rows, described, withOntology);
    SortPermutesGroups(Selected(rows, described, withOntology), now);
    DistinctIffCountedOnce(GroupsOf(SortByScore(Selected(rows, described, withOntology), now)));
  }

  /** Only discoverable groups are found, whatever queries raise. */
  lemma FoundAreDiscoverable(s: Store, o: Oracle, since: real, c: Config, now: real, g: string)
    requires Faithful(o) && g in PendingGroups(s, o, since, c, now)
    ensures Discoverable(s, g, since, c)
  {
    PendingMembers(s, o, since, c, now, g);
    var priority := |Query(s, o, since, c, c.limit, false, now)|;
    QueryIsDiscoverable(s, o, since, c, c.limit, false, now, g);
    if priority < c.limit { QueryIsDiscoverable(s, o, since, c, c.limit - priority, true, now, g); }
  }

  lemma QueryIsDiscoverable(s: Store, o: Oracle, since: real, c: Config, k: nat, withOntology: bool, now: real,
                            g: string)
    requires Faithful(o)
    ensures g in Query(s, o, since, c, k, withOntology, now) ==> Discoverable(s, g, since, c)
  {
    if g in Query(s, o, since, c, k, withOntology, now) {
      QueryMembers(s, o, since, c, k, withOntology, now, g);
      GroupsMembers(o.ranking(s, since, c, k).value, g);
      assert RankingSound(o, s, since, c, k);
    }
  }

  /** The discoverable groups with at least as many, or strictly more, new episodes. */
  function Rivals(s: Store, g: string, since: real, c: Config): set<string> {
    set u | u in s.episodes && IsRival(s, s.episodes[u].group, g, since, c) :: s.episodes[u].group
  }

  predicate IsRival(s: Store, h: string, g: string, since: real, c: Config) {
    h != g && Discoverable(s, h, since, c) && |NewPending(s, h, since)| >= |NewPending(s, g, since)|
  }

  function Ahead(s: Store, g: string, since: real, c: Config): set<string> {
    set u | u in s.episodes && IsAhead(s, s.episodes[u].group, g, since, c) :: s.episodes[u].group
  }

  predicate IsAhead(s: Store, h: string, g: string, since: real, c: Config) {
    Discoverable(s, h, since, c) && |NewPending(s, h, since)| > |NewPending(s, g, since)|
  }

  lemma DiscoverableHasEpisode(s: Store, h: string, since: real, c: Config)
    requires Discoverable(s, h, since, c)
    ensures exists u :: u in s.episodes && s.episodes[u].group == h
  {
    var u :| u in NewPending(s, h, since);
  }

  /** A group with fewer rivals than rows is listed, and one listed has fewer groups ahead than rows. */
  lemma ListedByCount(s: Store, since: real, c: Config, k: nat, rows: seq<Row>, g: string)
    requires IsRanking(s, since, c, k, rows)
    ensures Discoverable(s, g, since, c) && |Rivals(s, g, since, c)| < k ==> g in GroupsOf(rows)
    ensures g in GroupsOf(rows) ==> Discoverable(s, g, since, c) && |Ahead(s, g, since, c)| < k
  {
    GroupsAt(rows);
    DistinctCount(GroupsOf(rows));
    if Discoverable(s, g, since, c) && g !in GroupsOf(rows) {
      RowsAreRivals(s, since, c, k, rows, g);
      SubsetCount(Elements(GroupsOf(rows)), Rivals(s, g, since, c));
    }
    if g in GroupsOf(rows) {
      AheadAreRows(s, since, c, k, rows, g);
      SubsetCount(Ahead(s, g, since, c), Elements(GroupsOf(rows)) - {g});
    }
  }

  lemma RowsAreRivals(s: Store, since: real, c: Config, k: nat, rows: seq<Row>, g: string)
    requires IsRanking(s, since, c, k, rows) && Discoverable(s, g, since, c) && g !in GroupsOf(rows)
    ensures Elements(GroupsOf(rows)) <= Rivals(s, g, since, c)
  {
    GroupsAt(rows);
    forall h | h in Elements(GroupsOf(rows)) ensures h in Rivals(s, g, since, c) {
      var i :| 0 <= i < |rows| && GroupsOf(rows)[i] == h;
      assert rows[i].group == h;
      DiscoverableHasEpisode(s, h, since, c);
    }
  }

  lemma AheadAreRows(s: Store, since: real, c: Config, k: nat, rows: seq<Row>, g: string)
    requires IsRanking(s, since, c, k, rows) && g in GroupsOf(rows)
    ensures Discoverable(s, g, since, c)
    ensures g in Elements(GroupsOf(rows)) && Ahead(s, g, since, c) <= Elements(GroupsOf(rows)) - {g}
  {
    GroupsAt(rows);
    var i :| 0 <= i < |rows| && GroupsOf(rows)[i] == g;
    forall h | h in Ahead(s, g, since, c) ensures h in Elements(GroupsOf(rows)) - {g} {
      assert h in GroupsOf(rows);
    }
  }

  /** The rows open to a group: all for one without ontology data, what those leave for one with it. */
  function Open(s: Store, o: Oracle, since: real, c: Config, now: real, g: string): int {
    if g in o.described(s, true) then c.limit - |Query(s, o, since, c, c.limit, false, now)| else c.limit
  }

  /** The discovery queries of one cycle go through and see the same ontology data. */
  ghost predicate Undisturbed(s: Store, o: Oracle, since: real, c: Config) {
    && o.described(s, false) == o.described(s, true)
    && forall k: nat :: o.ranking(s, since, c, k).Some?
  }

  predicate ListedWithin(s: Store, o: Oracle, since: real, c: Config, k: int, g: string) {
    k > 0 && o.ranking(s, since, c, k).Some? && g in GroupsOf(o.ranking(s, since, c, k).value)
  }

  lemma FoundIffListed(s: Store, o: Oracle, since: real, c: Config, now: real, g: string)
    requires Faithful(o) && Undisturbed(s, o, since, c)
    ensures g in PendingGroups(s, o, since, c, now)
            <==> g != "" && ListedWithin(s, o, since, c, Open(s, o, since, c, now, g), g)
  {
    PendingMembers(s, o, since, c, now, g);
    QueryMembers(s, o, since, c, c.limit, false, now, g);
    QueryCount(s, o, since, c, 0, false, now);
    QueryMembers(s, o, since, c, 0, false, now, g);
    var left := c.limit - |Query(s, o, since, c, c.limit, false, now)|;
    if left > 0 { QueryMembers(s, o, since, c, left, true, now, g); }
  }

  /** In a cycle that nothing disturbs, no group is found twice. */
  lemma FoundOnce(s: Store, o: Oracle, since: real, c: Config, now: real, g: string)
    requires Faithful(o) && Undisturbed(s, o, since, c)
    ensures multiset(PendingGroups(s, o, since, c, now))[g] <= 1
  {
    var priority := Query(s, o, since, c, c.limit, false, now);
    QueryCount(s, o, since, c, c.limit, false, now);
    QueryOnce(s, o, since, c, c.limit, false, now, g);
    if |priority| < c.limit {
      QueryOnce(s, o, since, c, c.limit - |priority|, true, now, g);
    } else {
      assert priority[..c.limit] == priority;
    }
  }

  lemma QueryOnce(s: Store, o: Oracle, since: real, c: Config, k: nat, withOntology: bool, now: real, g: string)
    requires Faithful(o)
    ensures multiset(Query(s, o, since, c, k, withOntology, now))[g]
         <= if g in o.described(s, withOntology) <==> withOntology then 1 else 0
  {
    var found := Query(s, o, since, c, k, withOntology, now);
    QueryDistinct(s, o, since, c, k, withOntology, now);
    DistinctIffCountedOnce(found);
    QueryMembers(s, o, since, c, k, withOntology, now, g);
    assert g in found <==> multiset(found)[g] > 0;
  }

  /** Named discoverable groups without ontology data that the first query lists for certain, or may list. */
  function Certain(s: Store, described: set<string>, since: real, c: Config): set<string> {
    set u | u in s.episodes && IsCertain(s, described, since, c, s.episodes[u].group) :: s.episodes[u].group
  }

  predicate IsCertain(s: Store, described: set<string>, since: real, c: Config, g: string) {
    g != "" && g !in described && Discoverable(s, g, since, c) && |Rivals(s, g, since, c)| < c.limit
  }

  function Possible(s: Store, described: set<string>, since: real, c: Config): set<string> {
    set u | u in s.episodes && IsPossible(s, described, since, c, s.episodes[u].group) :: s.episodes[u].group
  }

  predicate IsPossible(s: Store, described: set<string>, since: real, c: Config, g: string) {
    g != "" && g !in described && Discoverable(s, g, since, c) && |Ahead(s, g, since, c)| < c.limit
  }

  lemma FirstPhaseCount(s: Store, o: Oracle, since: real, c: Config, now: real)
    requires Faithful(o) && Undisturbed(s, o, since, c)
    ensures var described := o.described(s, true);
            |Certain(s, described, since, c)| <= |Query(s, o, since, c, c.limit, false, now)| <=
              |Possible(s, described, since, c)|
  {
    var described, priority := o.described(s, true), Query(s, o, since, c, c.limit, false, now);
    QueryDistinct(s, o, since, c, c.limit, false, now);
    DistinctCount(priority);
    forall g | g in Certain(s, described, since, c) ensures g in Elements(priority) {
      WithinByCount(s, o, since, c, c.limit, g);
      QueryMembers(s, o, since, c, c.limit, false, now, g);
    }
    forall g | g in Elements(priority) ensures g in Possible(s, described, since, c) {
      QueryMembers(s, o, since, c, c.limit, false, now, g);
      QueryCount(s, o, since, c, c.limit, false, now);
      WithinByCount(s, o, since, c, c.limit, g);
      DiscoverableHasEpisode(s, g, since, c);
    }
    SubsetCount(Certain(s, described, since, c), Elements(priority));
    SubsetCount(Elements(priority), Possible(s, described, since, c));
  }

  /** The rows open to a group, at least and at most: all, or what the groups without ontology data leave. */
  function LeastSlots(s: Store, described: set<string>, since: real, c: Config, g: string): int {
    if g in described then c.limit - |Possible(s, described, since, c)| else c.limit
  }

  function MostSlots(s: Store, described: set<string>, since: real, c: Config, g: string): int {
    if g in described then c.limit - |Certain(s, described, since, c)| else c.limit
  }

  /** No two discoverable groups have equally many new episodes. */
  ghost predicate NoTies(s: Store, since: real, c: Config) {
    forall g, h :: Discoverable(s, g, since, c) && Discoverable(s, h, since, c) && g != h ==>
      |NewPending(s, g, since)| != |NewPending(s, h, since)|
  }

  lemma NoTiesNoRivals(s: Store, since: real, c: Config, g: string)
    requires NoTies(s, since, c) && Discoverable(s, g, since, c)
    ensures Rivals(s, g, since, c) == Ahead(s, g, since, c)
  {
    forall h ensures IsRival(s, h, g, since, c) <==> IsAhead(s, h, g, since, c) {}
  }

  lemma NoTiesSlots(s: Store, described: set<string>, since: real, c: Config, g: string)
    requires NoTies(s, since, c)
    ensures LeastSlots(s, described, since, c, g) == MostSlots(s, described, since, c, g)
  {
    forall h ensures IsCertain(s, described, since, c, h) <==> IsPossible(s, described, since, c, h) {
      if Discoverable(s, h, since, c) { NoTiesNoRivals(s, since, c, h); }
    }
    assert Certain(s, described, since, c) == Possible(s, described, since, c);
  }

  /**
   A cycle reaches a group only if it is discoverable and fewer other groups are ahead of it than there
   are rows open to it at most, and it does so if fewer rival it than there are at least: without ties,
   exactly then. All of this is counted in the store.
   */
  lemma FoundByCount(s: Store, o: Oracle, since: real, c: Config, now: real, g: string)
    requires Faithful(o) && Undisturbed(s, o, since, c) && g != ""
    ensures Reachable(s, o.described(s, true), since, c, g) ==> g in PendingGroups(s, o, since, c, now)
    ensures g in PendingGroups(s, o, since, c, now) ==> PerhapsReachable(s, o.described(s, true), since, c, g)
  {
    FoundIffListed(s, o, since, c, now, g);
    FirstPhaseCount(s, o, since, c, now);
    var k := Open(s, o, since, c, now, g);
    if k > 0 { WithinByCount(s, o, since, c, k, g); }
  }

  predicate Reachable(s: Store, described: set<string>, since: real, c: Config, g: string) {
    Discoverable(s, g, since, c) && |Rivals(s, g, since, c)| < LeastSlots(s, described, since, c, g)
  }

  predicate PerhapsReachable(s: Store, described: set<string>, since: real, c: Config, g: string) {
    Discoverable(s, g, since, c) && |Ahead(s, g, since, c)| < MostSlots(s, described, since, c, g)
  }

  /** Without ties the two conditions are one. */
  lemma ReachableWithoutTies(s: Store, described: set<string>, since: real, c: Config, g: string)
    requires NoTies(s, since, c)
    ensures Reachable(s, described, since, c, g) <==> PerhapsReachable(s, described, since, c, g)
  {
    if Discoverable(s, g, since, c) {
      NoTiesNoRivals(s, since, c, g);
      NoTiesSlots(s, described, since, c, g);
    }
  }

  lemma WithinByCount(s: Store, o: Oracle, since: real, c: Config, k: nat, g: string)
    requires Faithful(o) && Undisturbed(s, o, since, c) && k > 0
    ensures Discoverable(s, g, since, c) && |Rivals(s, g, since, c)| < k ==> ListedWithin(s, o, since, c, k, g)
    ensures ListedWithin(s, o, since, c, k, g) ==> Discoverable(s, g, since, c) && |Ahead(s, g, since, c)| < k
  {
    assert RankingSound(o, s, since, c, k);
    ListedByCount(s, since, c, k, o.ranking(s, since, c, k).value, g);
  }

  /** Two new episodes in g, one in h. */
  function TwoGroups(): Store {
    var raw := Episode("g", RAW, Pending, 1.0, true);
    Store(map["a" := raw, "b" := raw, "c" := raw.(group := "h")], [], [])
  }

  lemma TwoGroupsCounts(s: Store, c: Config)
    requires s == TwoGroups() && c == Config(1, 2)
    ensures Discoverable(s, "h", 0.0, c) && Ahead(s, "h", 0.0, c) == {"g"} && Certain(s, {"h"}, 0.0, c) == {"g"}
  {
    assert NewPending(s, "g", 0.0) == {"a", "b"} && NewPending(s, "h", 0.0) == {"c"};
    assert s.episodes["a"].group == "g";
    assert Rivals(s, "g", 0.0, c) == {};
  }

  /**
   Groups without ontology data are counted against the limit twice. Of two discoverable groups, the
   one that has ontology data and fewer episodes is not found although the limit is two.
   */
  lemma FirstPhaseTakesSlots(s: Store, o: Oracle, c: Config, now: real)
    requires s == TwoGroups() && c == Config(1, 2)
    requires Faithful(o) && Undisturbed(s, o, 0.0, c) && o.described(s, false) == {"h"}
    ensures Discoverable(s, "h", 0.0, c) && "h" !in PendingGroups(s, o, 0.0, c, now)
  {
    TwoGroupsCounts(s, c);
    FoundByCount(s, o, 0.0, c, now, "h");
  }
}
