/**
 Class hierarchy walks (src/memory_service/ontology/schema_org.py).

 The parent relation is any map at all: it may be cyclic and may name parents that are not defined.
 Two loops walk it. `Ancestors` is first-in first-out and `IsExcluded` last-in first-out with an
 early exit; both mark a class only when it leaves the queue, so the queue may hold repeats.
 */
module Hierarchy {
  import opened Basics

  type Parents = map<string, seq<string>>

  /** Parents of a class; an undefined class has none. */
  function ParentsOf(classes: Parents, c: string): seq<string> {
    if c in classes then classes[c] else []
  }

  /** b is n parent steps above a. */
  ghost predicate Walk(classes: Parents, a: string, b: string, n: nat)
    decreases n
  {
    if n == 0 then a == b
    else exists m :: Walk(classes, a, m, n - 1) && b in ParentsOf(classes, m)
  }

  /** Reflexive-transitive closure of the parent relation. */
  ghost predicate IsAncestor(classes: Parents, a: string, b: string) {
    exists n: nat :: Walk(classes, a, b, n)
  }

  /** The length of the shortest walk. */
  ghost predicate IsDistance(classes: Parents, a: string, b: string, d: nat) {
    Walk(classes, a, b, d) && forall k: nat :: k < d ==> !Walk(classes, a, b, k)
  }

  /** All classes a walk from c can touch. */
  function Universe(classes: Parents, c: string): set<string> {
    {c} + (set k, i | k in classes && 0 <= i < |classes[k]| :: classes[k][i])
  }

  /** What `ancestors` returns: every ancestor once, nearer ones first, starting with the class. */
  ghost predicate IsAncestorList(classes: Parents, c: string, list: seq<string>) {
    && NoRepeats(list)
    && (forall x :: x in list <==> IsAncestor(classes, c, x))
    && list != [] && list[0] == c
    && (forall i, j, d, e ::
          0 <= i < j < |list| && IsDistance(classes, c, list[i], d) && IsDistance(classes, c, list[j], e) ==> d <= e)
  }

  // ---------------------------------------------------------------- walks

  lemma WalkStep(classes: Parents, a: string, m: string, b: string, n: nat)
    requires Walk(classes, a, m, n) && b in ParentsOf(classes, m)
    ensures Walk(classes, a, b, n + 1) && IsAncestor(classes, a, b)
  {
  }

  lemma LastStep(classes: Parents, a: string, b: string, n: nat) returns (m: string)
    requires n > 0 && Walk(classes, a, b, n)
    ensures Walk(classes, a, m, n - 1) && b in ParentsOf(classes, m)
  {
    m :| Walk(classes, a, m, n - 1) && b in ParentsOf(classes, m);
  }

  lemma {:induction false} WalkTransitive(classes: Parents, a: string, b: string, c: string, m: nat, n: nat)
    requires Walk(classes, a, b, m) && Walk(classes, b, c, n)
    ensures Walk(classes, a, c, m + n)
    decreases n
  {
    if n > 0 {
      var y := LastStep(classes, b, c, n);
      WalkTransitive(classes, a, b, y, m, n - 1);
      WalkStep(classes, a, y, c, m + n - 1);
    }
  }

  /** Subclassing is reflexive and transitive: rules rdfs10 and rdfs11 of RDF 1.1 Semantics. */
  lemma AncestryIsPreorder(classes: Parents, a: string, b: string, c: string)
    ensures IsAncestor(classes, a, a)
    ensures IsAncestor(classes, a, b) && IsAncestor(classes, b, c) ==> IsAncestor(classes, a, c)
  {
    assert Walk(classes, a, a, 0);
    if IsAncestor(classes, a, b) && IsAncestor(classes, b, c) {
      var m: nat :| Walk(classes, a, b, m);
      var n: nat :| Walk(classes, b, c, n);
      WalkTransitive(classes, a, b, c, m, n);
    }
  }

  lemma {:induction false} ClosedSetHoldsWalks(classes: Parents, a: string, b: string, n: nat, closed: set<string>)
    requires a in closed && Walk(classes, a, b, n)
    requires forall v, p :: v in closed && p in ParentsOf(classes, v) ==> p in closed
    ensures b in closed
    decreases n
  {
    if n > 0 {
      var m :| Walk(classes, a, m, n - 1) && b in ParentsOf(classes, m);
      ClosedSetHoldsWalks(classes, a, m, n - 1, closed);
    }
  }

  /** A set of ancestors of a that holds a and its members' parents is the set of all ancestors. */
  lemma ClosedSetIsAllAncestors(classes: Parents, a: string, closed: set<string>)
    requires a in closed && (forall v :: v in closed ==> IsAncestor(classes, a, v))
    requires forall v, p :: v in closed && p in ParentsOf(classes, v) ==> p in closed
    ensures forall x :: x in closed <==> IsAncestor(classes, a, x)
  {
    forall x | IsAncestor(classes, a, x) ensures x in closed {
      var n: nat :| Walk(classes, a, x, n);
      ClosedSetHoldsWalks(classes, a, x, n, closed);
    }
  }

  // ---------------------------------------------------------------- first-in first-out

  /**
   The state of the first-in first-out search: each queued class carries the length of the walk that
   put it there, these lengths are in order and differ by at most one, and every parent of a marked
   class is marked or queued no later than one step after it.
   */
  ghost predicate BfsState(classes: Parents, c: string, depth: map<string, nat>, queue: seq<string>, depths: seq<nat>) {
    && |depths| == |queue|
    && QueueState(classes, c, queue, depths)
    && MarkState(classes, c, depth, depths)
    && CoverState(classes, c, depth, queue, depths)
  }

  ghost predicate QueueState(classes: Parents, c: string, queue: seq<string>, depths: seq<nat>)
    requires |depths| == |queue|
  {
    && (forall i :: 0 <= i < |queue| ==> queue[i] in Universe(classes, c) && Walk(classes, c, queue[i], depths[i]))
    && (forall i, j :: 0 <= i < j < |depths| ==> depths[i] <= depths[j] <= depths[i] + 1)
  }

  ghost predicate MarkState(classes: Parents, c: string, depth: map<string, nat>, depths: seq<nat>) {
    && (forall v :: v in depth ==> v in Universe(classes, c) && IsDistance(classes, c, v, depth[v]))
    && (forall v, i :: v in depth && 0 <= i < |depths| ==> depth[v] <= depths[i])
  }

  ghost predicate CoverState(classes: Parents, c: string, depth: map<string, nat>, queue: seq<string>, depths: seq<nat>)
    requires |depths| == |queue|
  {
    && Reached(depth, queue, depths, c, 0)
    && (forall v, p :: v in depth && p in ParentsOf(classes, v) ==> Reached(depth, queue, depths, p, depth[v] + 1))
  }

  /** x is marked, or will be marked, at distance at most d. */
  ghost predicate Reached(depth: map<string, nat>, queue: seq<string>, depths: seq<nat>, x: string, d: nat)
    requires |depths| == |queue|
  {
    (x in depth && depth[x] <= d) || (exists i :: 0 <= i < |queue| && queue[i] == x && depths[i] <= d)
  }

  /** Whatever lies strictly nearer than the front of the queue has been marked, at no greater depth. */
  lemma {:induction false} NearerIsMarked(classes: Parents, c: string, depth: map<string, nat>, queue: seq<string>,
                                          depths: seq<nat>, x: string, n: nat)
    requires BfsState(classes, c, depth, queue, depths) && queue != []
    requires Walk(classes, c, x, n) && n < depths[0]
    ensures x in depth && depth[x] <= n
    decreases n
  {
    if n > 0 {
      var m :| Walk(classes, c, m, n - 1) && x in ParentsOf(classes, m);
      NearerIsMarked(classes, c, depth, queue, depths, m, n - 1);
      assert Reached(depth, queue, depths, x, depth[m] + 1);
    }
  }

  lemma ReachedAfterPop(depth: map<string, nat>, queue: seq<string>, depths: seq<nat>, newDepth: map<string, nat>,
                        added: seq<string>, addedDepths: seq<nat>, x: string, d: nat)
    requires |depths| == |queue| && queue != [] && |added| == |addedDepths|
    requires Reached(depth, queue, depths, x, d)
    requires forall v :: v in depth ==> v in newDepth && newDepth[v] == depth[v]
    requires queue[0] in newDepth && newDepth[queue[0]] <= depths[0]
    ensures Reached(newDepth, queue[1..] + added, depths[1..] + addedDepths, x, d)
  {
    if !(x in depth && depth[x] <= d) {
      var i :| 0 <= i < |queue| && queue[i] == x && depths[i] <= d;
      if i > 0 {
        assert (queue[1..] + added)[i - 1] == x && (depths[1..] + addedDepths)[i - 1] == depths[i];
      }
    }
  }

  function Repeated(d: nat, n: nat): (r: seq<nat>)
    ensures |r| == n && forall i :: 0 <= i < n ==> r[i] == d
  {
    seq(n, _ => d)
  }

  /** Taking a marked class off the front changes nothing else. */
  lemma PopMarked(classes: Parents, c: string, depth: map<string, nat>, queue: seq<string>, depths: seq<nat>)
    requires BfsState(classes, c, depth, queue, depths) && queue != [] && queue[0] in depth
    ensures BfsState(classes, c, depth, queue[1..], depths[1..])
  {
    FrontDistance(classes, c, depth, queue, depths);
    forall x, d: nat | Reached(depth, queue, depths, x, d) ensures Reached(depth, queue[1..], depths[1..], x, d) {
      ReachedAfterPop(depth, queue, depths, depth, [], [], x, d);
      assert queue[1..] + [] == queue[1..] && depths[1..] + [] == depths[1..];
    }
  }

  /** The front of the queue is no nearer than its queued depth unless it is already marked nearer. */
  lemma FrontDistance(classes: Parents, c: string, depth: map<string, nat>, queue: seq<string>, depths: seq<nat>)
    requires BfsState(classes, c, depth, queue, depths) && queue != []
    ensures queue[0] in depth ==> depth[queue[0]] <= depths[0]
    ensures queue[0] !in depth ==> IsDistance(classes, c, queue[0], depths[0])
  {
    if queue[0] !in depth {
      forall k: nat | k < depths[0] ensures !Walk(classes, c, queue[0], k) {
        if Walk(classes, c, queue[0], k) {
          NearerIsMarked(classes, c, depth, queue, depths, queue[0], k);
        }
      }
    }
  }

  lemma QueueParents(classes: Parents, c: string, queue: seq<string>, depths: seq<nat>)
    requires |depths| == |queue| && queue != [] && QueueState(classes, c, queue, depths)
    ensures var parents := ParentsOf(classes, queue[0]);
            QueueState(classes, c, queue[1..] + parents, depths[1..] + Repeated(depths[0] + 1, |parents|))
  {
    var parents, d := ParentsOf(classes, queue[0]), depths[0];
    var queue', depths' := queue[1..] + parents, depths[1..] + Repeated(d + 1, |parents|);
    forall i | 0 <= i < |queue'| ensures queue'[i] in Universe(classes, c) && Walk(classes, c, queue'[i], depths'[i]) {
      if i < |queue| - 1 {
        assert queue'[i] == queue[i + 1] && depths'[i] == depths[i + 1];
      } else {
        var k := i - (|queue| - 1);
        assert queue'[i] == parents[k] && depths'[i] == d + 1;
        WalkStep(classes, c, queue[0], parents[k], d);
        assert classes[queue[0]][k] in Universe(classes, c);
      }
    }
    forall i, j | 0 <= i < j < |depths'| ensures depths'[i] <= depths'[j] <= depths'[i] + 1 {
      if i < |queue| - 1 { assert depths'[i] == depths[i + 1] && d <= depths[i + 1] <= d + 1; }
      if j < |queue| - 1 { assert depths'[j] == depths[j + 1]; }
    }
  }

  lemma MarkFront(classes: Parents, c: string, depth: map<string, nat>, x: string, depths: seq<nat>, n: nat)
    requires depths != [] && MarkState(classes, c, depth, depths)
    requires x in Universe(classes, c) && x !in depth && IsDistance(classes, c, x, depths[0])
    requires forall i, j :: 0 <= i < j < |depths| ==> depths[i] <= depths[j]
    ensures MarkState(classes, c, depth[x := depths[0]], depths[1..] + Repeated(depths[0] + 1, n))
  {
  }

  lemma CoverFront(classes: Parents, c: string, depth: map<string, nat>, queue: seq<string>, depths: seq<nat>)
    requires |depths| == |queue| && queue != [] && queue[0] !in depth && CoverState(classes, c, depth, queue, depths)
    ensures var x, parents := queue[0], ParentsOf(classes, queue[0]);
            CoverState(classes, c, depth[x := depths[0]], queue[1..] + parents,
                       depths[1..] + Repeated(depths[0] + 1, |parents|))
  {
    var x, d, parents := queue[0], depths[0], ParentsOf(classes, queue[0]);
    var added := Repeated(d + 1, |parents|);
    var marked, queue', depths' := depth[x := d], queue[1..] + parents, depths[1..] + added;
    ReachedAfterPop(depth, queue, depths, marked, parents, added, c, 0);
    forall v, p | v in marked && p in ParentsOf(classes, v) ensures Reached(marked, queue', depths', p, marked[v] + 1) {
      if v == x {
        var i :| 0 <= i < |parents| && parents[i] == p;
        assert queue'[|queue| - 1 + i] == p && depths'[|queue| - 1 + i] == d + 1;
      } else {
        assert Reached(depth, queue, depths, p, depth[v] + 1);
        ReachedAfterPop(depth, queue, depths, marked, parents, added, p, depth[v] + 1);
      }
    }
  }

  /** Marking the front class and queueing its parents keeps the search state. */
  lemma PopFresh(classes: Parents, c: string, depth: map<string, nat>, queue: seq<string>, depths: seq<nat>)
    requires BfsState(classes, c, depth, queue, depths) && queue != [] && queue[0] !in depth
    ensures var x, d := queue[0], depths[0];
            BfsState(classes, c, depth[x := d], queue[1..] + ParentsOf(classes, x),
                     depths[1..] + Repeated(d + 1, |ParentsOf(classes, x)|))
  {
    FrontDistance(classes, c, depth, queue, depths);
    QueueParents(classes, c, queue, depths);
    MarkFront(classes, c, depth, queue[0], depths, |ParentsOf(classes, queue[0])|);
    CoverFront(classes, c, depth, queue, depths);
  }

  /** Every class is unmarked once, or a queue entry goes away: the search ends on every parent map. */
  lemma UniverseFinite(classes: Parents, c: string, marked: set<string>, x: string)
    requires x in Universe(classes, c) && x !in marked
    ensures Universe(classes, c) - (marked + {x}) < Universe(classes, c) - marked
  {
  }

  /** When the queue is empty the marked classes are the ancestors. */
  lemma SearchDone(classes: Parents, c: string, depth: map<string, nat>)
    requires BfsState(classes, c, depth, [], [])
    ensures forall x :: x in depth <==> IsAncestor(classes, c, x)
  {
    forall v | v in depth ensures IsAncestor(classes, c, v) {
      assert Walk(classes, c, v, depth[v]);
    }
    forall v, p | v in depth && p in ParentsOf(classes, v) ensures p in depth {
      assert Reached(depth, [], [], p, depth[v] + 1);
    }
    assert Reached(depth, [], [], c, 0);
    ClosedSetIsAllAncestors(classes, c, depth.Keys);
  }

  /** The result so far: the marked classes, each once, in order of distance. */
  ghost predicate ListState(c: string, depth: map<string, nat>, list: seq<string>) {
    && NoRepeats(list)
    && (forall x :: x in list <==> x in depth)
    && (forall i, j :: 0 <= i < j < |list| ==> depth[list[i]] <= depth[list[j]])
    && (list != [] ==> list[0] == c)
  }

  lemma ListAppend(c: string, depth: map<string, nat>, list: seq<string>, x: string, d: nat)
    requires ListState(c, depth, list) && x !in depth
    requires forall v :: v in depth ==> depth[v] <= d
    requires list == [] ==> x == c
    ensures ListState(c, depth[x := d], list + [x])
  {
  }

  lemma ListDone(classes: Parents, c: string, depth: map<string, nat>, list: seq<string>)
    requires ListState(c, depth, list) && BfsState(classes, c, depth, [], [])
    ensures IsAncestorList(classes, c, list)
  {
    SearchDone(classes, c, depth);
    assert IsAncestor(classes, c, c) by { assert Walk(classes, c, c, 0); }
    forall i, j, d, e | 0 <= i < j < |list| && IsDistance(classes, c, list[i], d) && IsDistance(classes, c, list[j], e)
      ensures d <= e
    {
      assert list[i] in depth && list[j] in depth;
      assert d == depth[list[i]] && e == depth[list[j]];
    }
  }

  method Ancestors(classes: Parents, className: string) returns (result: seq<string>)
    ensures IsAncestorList(classes, className, result)
  {
    result := [];
    var visited: set<string> := {};
    var queue := [className];
    ghost var depth: map<string, nat> := map[];
    ghost var depths := [0];
    assert Walk(classes, className, className, 0);
    assert Reached(depth, queue, depths, className, 0) by { assert queue[0] == className; }
    while queue != []
      invariant BfsState(classes, className, depth, queue, depths)
      invariant visited == depth.Keys && ListState(className, depth, result)
      invariant result == [] ==> queue == [className]
      decreases Universe(classes, className) - visited, |queue|
    {
      var current := queue[0];
      ghost var queue0, depths0 := queue, depths;
      queue := queue[1..];
      if current in visited {
        PopMarked(classes, className, depth, queue0, depths0);
        depths := depths[1..];
        continue;
      }
      UniverseFinite(classes, className, visited, current);
      PopFresh(classes, className, depth, queue0, depths0);
      ListAppend(className, depth, result, current, depths0[0]);
      depth := depth[current := depths0[0]];
      depths := depths[1..] + Repeated(depths0[0] + 1, |ParentsOf(classes, current)|);
      visited := visited + {current};
      result := result + [current];
      if current in classes {
        queue := queue + classes[current];
      }
      assert queue == queue0[1..] + ParentsOf(classes, current);
    }
    assert depths == [];
    ListDone(classes, className, depth, result);
  }

  method IsSubclassOf(classes: Parents, child: string, parent: string) returns (r: bool)
    ensures r <==> IsAncestor(classes, child, parent)
  {
    var list := Ancestors(classes, child);
    r := parent in list;
  }

  // ---------------------------------------------------------------- last-in first-out

  /** Class families kept out of the retrieval index. */
  const EXCLUDED_PARENTS: set<string> := {"Action", "Enumeration", "StructuredValue", "DataType"}

  /**
   The state of the last-in first-out search: everything marked or stacked is an ancestor, and what
   is left to find lies above the stack.
   */
  ghost predicate StackState(classes: Parents, c: string, marked: set<string>, stack: seq<string>) {
    && (forall i :: 0 <= i < |stack| ==> stack[i] in Universe(classes, c) && IsAncestor(classes, c, stack[i]))
    && (forall v :: v in marked ==> IsAncestor(classes, c, v))
    && (c in marked || c in stack)
    && (forall v, p :: v in marked && p in ParentsOf(classes, v) ==> p in marked || p in stack)
  }

  lemma StackPopFresh(classes: Parents, c: string, marked: set<string>, stack: seq<string>, x: string)
    requires StackState(classes, c, marked, stack + [x])
    ensures StackState(classes, c, marked + {x}, stack + ParentsOf(classes, x))
  {
    var before, after := stack + [x], stack + ParentsOf(classes, x);
    assert before[|stack|] == x;
    var n: nat :| Walk(classes, c, x, n);
    forall i | 0 <= i < |after| ensures after[i] in Universe(classes, c) && IsAncestor(classes, c, after[i]) {
      if i < |stack| {
        assert after[i] == before[i];
      } else {
        assert after[i] == classes[x][i - |stack|];
        WalkStep(classes, c, x, after[i], n);
      }
    }
    forall y | y in before ensures y == x || y in after {}
  }

  lemma StackPopMarked(classes: Parents, c: string, marked: set<string>, stack: seq<string>, x: string)
    requires StackState(classes, c, marked, stack + [x]) && x in marked
    ensures StackState(classes, c, marked, stack)
  {
    forall i | 0 <= i < |stack| ensures stack[i] == (stack + [x])[i] {}
    forall y | y in stack + [x] ensures y == x || y in stack {}
  }

  /** Some ancestor of c is excluded. */
  ghost predicate MeetsExcluded(classes: Parents, c: string, excluded: set<string>) {
    exists x :: x in excluded && IsAncestor(classes, c, x)
  }

  method IsExcluded(classes: Parents, name: string, excluded: set<string> := EXCLUDED_PARENTS) returns (r: bool)
    ensures r <==> MeetsExcluded(classes, name, excluded)
  {
    var visited: set<string> := {};
    var stack := [name];
    assert IsAncestor(classes, name, name) by { assert Walk(classes, name, name, 0); }
    while stack != []
      invariant StackState(classes, name, visited, stack)
      invariant visited !! excluded
      decreases Universe(classes, name) - visited, |stack|
    {
      var current := stack[|stack| - 1];
      assert stack == stack[..|stack| - 1] + [current];
      stack := stack[..|stack| - 1];
      if current in visited {
        StackPopMarked(classes, name, visited, stack, current);
        continue;
      }
      StackPopFresh(classes, name, visited, stack, current);
      UniverseFinite(classes, name, visited, current);
      visited := visited + {current};
      if current in excluded {
        assert IsAncestor(classes, name, current);
        return true;
      }
      if current in classes {
        stack := stack + classes[current];
      } else {
        assert stack + [] == stack;
      }
    }
    ClosedSetIsAllAncestors(classes, name, visited);
    r := false;
  }

  /**
   The early-exit search agrees with the full list: some ancestor is excluded exactly when the list
   the first-in first-out search returns meets the excluded set.
   */
  lemma ExclusionAgreesWithAncestors(classes: Parents, name: string, excluded: set<string>, list: seq<string>)
    requires IsAncestorList(classes, name, list)
    ensures MeetsExcluded(classes, name, excluded) <==> exists i :: 0 <= i < |list| && list[i] in excluded
  {
    if x :| x in excluded && IsAncestor(classes, name, x) {
      assert x in list;
    }
    if i :| 0 <= i < |list| && list[i] in excluded {
      assert list[i] in list;
    }
  }

  /** A class excluded from the index takes its subclasses with it. */
  lemma SubclassesInheritExclusion(classes: Parents, sub: string, super: string, excluded: set<string>)
    requires IsAncestor(classes, sub, super) && MeetsExcluded(classes, super, excluded)
    ensures MeetsExcluded(classes, sub, excluded)
  {
    var x :| x in excluded && IsAncestor(classes, super, x);
    AncestryIsPreorder(classes, sub, super, x);
  }

  // ---------------------------------------------------------------- domain and range

  datatype Property = Property(domain: seq<string>, range: seq<string>)

  /** A class fits a declared list when the list is empty or names one of its ancestors. */
  ghost predicate Fits(classes: Parents, c: string, declared: seq<string>) {
    declared == [] || exists d :: d in declared && IsAncestor(classes, c, d)
  }

  method ValidateTriple(classes: Parents, properties: map<string, Property>, subj: string, predicateName: string,
                        obj: string) returns (r: bool)
    ensures r <==> predicateName in properties
                   && Fits(classes, subj, properties[predicateName].domain)
                   && Fits(classes, obj, properties[predicateName].range)
  {
    if predicateName !in properties {
      return false;
    }
    var prop := properties[predicateName];
    var subjAncestors := Ancestors(classes, subj);
    var objAncestors := Ancestors(classes, obj);
    if prop.domain != [] && !(exists d :: d in prop.domain && d in subjAncestors) {
      return false;
    }
    if prop.range != [] && !(exists d :: d in prop.range && d in objAncestors) {
      return false;
    }
    return true;
  }

  /** What fits a class fits its subclasses, so valid triples stay valid when either end is specialised. */
  lemma SubclassesInheritFit(classes: Parents, sub: string, super: string, declared: seq<string>)
    requires IsAncestor(classes, sub, super) && Fits(classes, super, declared)
    ensures Fits(classes, sub, declared)
  {
    if declared != [] {
      var d :| d in declared && IsAncestor(classes, super, d);
      AncestryIsPreorder(classes, sub, super, d);
    }
  }
}
