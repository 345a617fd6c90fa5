/**
 Graph expansion of search results (the tail of _search_with_embedding in
 src/memory_service/storage/long_term/episode_store.py): rescore, cut to the best, and add the
 neighbours of each hit at a discount.
 */
module Expansion {
  import opened Basics
  import opened Scoring

  const DISCOUNT := 0.9

  predicate DistinctUuids(hits: seq<Hit>) {
    forall i, j :: 0 <= i < j < |hits| ==> hits[i].uuid != hits[j].uuid
  }

  function Uuids(hits: seq<Hit>): set<string> {
    set i | 0 <= i < |hits| :: hits[i].uuid
  }

  /** The episodes within the expansion distance of an episode, as the database returns them. */
  type Adjacency = string -> seq<Hit>

  predicate IsNeighbour(adjacent: Adjacency, hit: Hit, uuid: string) {
    uuid in Uuids(adjacent(hit.uuid))
  }

  /** e was added for rows[i], the first hit it is adjacent to. */
  predicate AddedFor(rows: seq<Hit>, adjacent: Adjacency, e: Hit, i: nat) {
    && i < |rows| && IsNeighbour(adjacent, rows[i], e.uuid)
    && e.score == rows[i].score * DISCOUNT
    && forall j :: 0 <= j < i ==> !IsNeighbour(adjacent, rows[j], e.uuid)
  }

  /** e scores exactly the discount of the best hit it is adjacent to. */
  ghost predicate ScoresBestNeighbour(rows: seq<Hit>, adjacent: Adjacency, e: Hit) {
    && (exists i :: 0 <= i < |rows| && IsNeighbour(adjacent, rows[i], e.uuid) && e.score == rows[i].score * 0.9)
    && (forall j :: 0 <= j < |rows| && IsNeighbour(adjacent, rows[j], e.uuid) ==> rows[j].score * DISCOUNT <= e.score)
  }

  /**
   What expansion returns: no episode twice, best first, every hit as it was, every neighbour of a
   hit, and nothing else; each added neighbour at the discount of the best hit next to it.
   */
  ghost predicate IsExpansion(rows: seq<Hit>, adjacent: Adjacency, combined: seq<Hit>) {
    && DistinctUuids(combined)
    && Descending(combined)
    && (forall r :: r in rows ==> r in combined)
    && (forall e :: e in combined ==> e in rows || (e.uuid !in Uuids(rows) && ScoresBestNeighbour(rows, adjacent, e)))
    && (forall i, u :: 0 <= i < |rows| && IsNeighbour(adjacent, rows[i], u) ==> u in Uuids(combined))
  }

  /** The expansion loop after the first `done` hits. */
  ghost predicate Expanding(rows: seq<Hit>, adjacent: Adjacency, seen: set<string>, expanded: seq<Hit>, done: nat) {
    && seen == Uuids(rows) + Uuids(expanded)
    && DistinctUuids(expanded)
    && Uuids(expanded) !! Uuids(rows)
    && (forall e :: e in expanded ==> exists i :: AddedFor(rows, adjacent, e, i))
    && (forall i, u :: 0 <= i < done && i < |rows| && IsNeighbour(adjacent, rows[i], u) ==> u in seen)
  }

  lemma UuidsAppend(hits: seq<Hit>, h: Hit)
    ensures Uuids(hits + [h]) == Uuids(hits) + {h.uuid}
  {
    var longer := hits + [h];
    assert longer[|hits|] == h;
    forall u | u in Uuids(hits) ensures u in Uuids(longer) {
      var i :| 0 <= i < |hits| && hits[i].uuid == u;
      assert longer[i].uuid == u;
    }
  }

  lemma AddNeighbour(rows: seq<Hit>, adjacent: Adjacency, seen: set<string>, expanded: seq<Hit>, i: nat, e: Hit)
    requires i < |rows| && Expanding(rows, adjacent, seen, expanded, i)
    requires e.uuid !in seen && IsNeighbour(adjacent, rows[i], e.uuid) && e.score == rows[i].score * DISCOUNT
    ensures Expanding(rows, adjacent, seen + {e.uuid}, expanded + [e], i)
  {
    UuidsAppend(expanded, e);
    assert AddedFor(rows, adjacent, e, i);
    forall k | 0 <= k < |expanded| ensures expanded[k].uuid != e.uuid {
      assert expanded[k].uuid in Uuids(expanded);
    }
  }

  lemma FirstIsBest(rows: seq<Hit>, adjacent: Adjacency, e: Hit, i: nat)
    requires Descending(rows) && AddedFor(rows, adjacent, e, i)
    ensures ScoresBestNeighbour(rows, adjacent, e)
  {
    forall j | 0 <= j < |rows| && IsNeighbour(adjacent, rows[j], e.uuid) ensures rows[j].score * DISCOUNT <= e.score {
      assert i <= j;
    }
  }

  lemma DistinctByMultiset(a: seq<Hit>, b: seq<Hit>)
    requires DistinctUuids(a) && multiset(a) == multiset(b)
    ensures DistinctUuids(b) && Uuids(b) == Uuids(a)
  {
    forall h ensures h in a <==> h in b {
      assert h in a <==> h in multiset(a);
      assert h in b <==> h in multiset(b);
    }
    forall i, j | 0 <= i < j < |b| ensures b[i].uuid != b[j].uuid {
      assert b[i] in a && b[j] in a;
      if b[i] == b[j] {
        OccursOnce(a, b[i]);
        OccursTwice(b, i, j);
      }
    }
    forall u ensures u in Uuids(a) <==> u in Uuids(b) {
      if u in Uuids(a) {
        var i :| 0 <= i < |a| && a[i].uuid == u;
        assert a[i] in b;
      }
      if u in Uuids(b) {
        var i :| 0 <= i < |b| && b[i].uuid == u;
        assert b[i] in a;
      }
    }
  }

  lemma OccursOnce(a: seq<Hit>, h: Hit)
    requires DistinctUuids(a) && h in a
    ensures multiset(a)[h] == 1
  {
    var i :| 0 <= i < |a| && a[i] == h;
    assert a == a[..i] + [h] + a[i + 1..];
    assert h !in a[..i] && h !in a[i + 1..];
  }

  lemma OccursTwice(b: seq<Hit>, i: nat, j: nat)
    requires i < j < |b| && b[i] == b[j]
    ensures multiset(b)[b[i]] >= 2
  {
    assert b == b[..j] + b[j..];
    assert b[..j][i] in b[..j] && b[j..][0] in b[j..];
  }

  lemma CombinedIsExpansion(rows: seq<Hit>, adjacent: Adjacency, seen: set<string>, expanded: seq<Hit>)
    requires DistinctUuids(rows) && Descending(rows) && Expanding(rows, adjacent, seen, expanded, |rows|)
    ensures IsExpansion(rows, adjacent, SortDescending(rows + expanded))
  {
    var all := rows + expanded;
    var combined := SortDescending(all);
    SortSorts(all);
    assert DistinctUuids(all) by {
      forall i, j | 0 <= i < j < |all| ensures all[i].uuid != all[j].uuid {
        if i < |rows| <= j {
          assert all[i].uuid in Uuids(rows) && all[j].uuid in Uuids(expanded);
        }
      }
    }
    DistinctByMultiset(all, combined);
    assert Uuids(all) == Uuids(rows) + Uuids(expanded) by {
      forall i | 0 <= i < |rows| ensures rows[i].uuid in Uuids(all) { assert all[i] == rows[i]; }
      forall i | 0 <= i < |expanded| ensures expanded[i].uuid in Uuids(all) { assert all[|rows| + i] == expanded[i]; }
    }
    forall h ensures h in combined <==> h in rows || h in expanded {
      assert h in combined <==> h in multiset(combined);
      assert h in all <==> h in multiset(all);
    }
    forall e | e in combined && e !in rows ensures e.uuid !in Uuids(rows) && ScoresBestNeighbour(rows, adjacent, e) {
      assert e.uuid in Uuids(expanded);
      var i :| AddedFor(rows, adjacent, e, i);
      FirstIsBest(rows, adjacent, e, i);
    }
  }

  method Expand(rows: seq<Hit>, adjacent: Adjacency) returns (combined: seq<Hit>)
    requires DistinctUuids(rows) && Descending(rows)
    ensures IsExpansion(rows, adjacent, combined)
  {
    var seen := Uuids(rows);
    var expanded: seq<Hit> := [];
    for i := 0 to |rows|
      invariant Expanding(rows, adjacent, seen, expanded, i)
    {
      var neighbours := adjacent(rows[i].uuid);
      for k := 0 to |neighbours|
        invariant Expanding(rows, adjacent, seen, expanded, i)
        invariant forall m :: 0 <= m < k ==> neighbours[m].uuid in seen
      {
        if neighbours[k].uuid !in seen {
          var added := neighbours[k].(score := rows[i].score * DISCOUNT);
          AddNeighbour(rows, adjacent, seen, expanded, i, added);
          seen := seen + {added.uuid};
          expanded := expanded + [added];
        }
      }
    }
    CombinedIsExpansion(rows, adjacent, seen, expanded);
    combined := SortDescending(rows + expanded);
  }

  lemma PrefixOfSorted(hits: seq<Hit>, n: int)
    requires DistinctUuids(hits)
    ensures var rows := TakeUpTo(SortDescending(hits), n); DistinctUuids(rows) && Descending(rows)
  {
    SortSorts(hits);
    DistinctByMultiset(hits, SortDescending(hits));
  }

  /** The tail of a search: rescore and sort the database rows, keep the best, expand if asked to. */
  method SearchTail(results: array<Hit>, hebbian: bool, log: real -> real, p: Params, now: real, topK: int,
                    expand: bool, adjacent: Adjacency)
    returns (found: seq<Hit>)
    requires LogLaws(log) && p.halfLifeHours > 0.0 && DistinctUuids(results[..])
    modifies results
    ensures var scored := if hebbian then HebbianHits(log, p, now, old(results[..]))
            else TemporalHits(p, now, old(results[..]));
            var rows := TakeUpTo(SortDescending(scored), topK);
            if expand then IsExpansion(rows, adjacent, found) else found == rows
  {
    ghost var before := results[..];
    if hebbian {
      ApplyHebbianScore(results, log, p, now);
      PrefixOfSorted(HebbianHits(log, p, now, before), topK);
    } else {
      ApplyTemporalScore(results, p, now);
      PrefixOfSorted(TemporalHits(p, now, before), topK);
    }
    var rows := TakeUpTo(results[..], topK);
    if !expand {
      return rows;
    }
    found := Expand(rows, adjacent);
  }
}
