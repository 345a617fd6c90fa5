/**
 Temporal links between episodes (src/memory_service/storage/long_term/episode_store.py): a stored
 episode is linked from the latest earlier episode of its group. Stores run one at a time.
 */
module Follows {
  import opened Basics

  datatype Episode = Episode(uuid: string, group: string, createdAt: real)

  /** An edge between positions in storage order. */
  datatype Edge = Edge(source: nat, target: nat, delta: real)

  datatype Chain = Chain(episodes: seq<Episode>, follows: seq<Edge>)

  const EMPTY := Chain([], [])

  /** Episode i is a candidate predecessor of an episode of the group created at the given time. */
  predicate IsEarlier(episodes: seq<Episode>, i: nat, group: string, createdAt: real) {
    i < |episodes| && episodes[i].group == group && episodes[i].createdAt <= createdAt
  }

  /** What the predecessor query returns: a latest candidate, any one of them on a tie. */
  ghost predicate IsPredecessor(episodes: seq<Episode>, group: string, createdAt: real, r: Option<nat>) {
    match r
    case None => forall i: nat :: !IsEarlier(episodes, i, group, createdAt)
    case Some(i) => IsEarlier(episodes, i, group, createdAt) && IsLatest(episodes, i, group, createdAt)
  }

  ghost predicate IsLatest(episodes: seq<Episode>, i: nat, group: string, createdAt: real)
    requires i < |episodes|
  {
    forall j: nat :: IsEarlier(episodes, j, group, createdAt) ==> episodes[j].createdAt <= episodes[i].createdAt
  }

  function LinkTo(c: Chain, e: Episode, predecessor: Option<nat>): seq<Edge>
    requires predecessor.Some? ==> predecessor.value < |c.episodes|
  {
    if predecessor.None? then []
    else [Edge(predecessor.value, |c.episodes|, e.createdAt - c.episodes[predecessor.value].createdAt)]
  }

  class EpisodeChain {
    var episodes: seq<Episode>
    var follows: seq<Edge>

    constructor ()
      ensures View() == EMPTY
    {
      episodes, follows := [], [];
    }

    function View(): Chain
      reads this
    {
      Chain(episodes, follows)
    }

    /** The predecessor query: keep the latest candidate seen. */
    method FindPredecessor(group: string, createdAt: real) returns (r: Option<nat>)
      ensures IsPredecessor(episodes, group, createdAt, r)
    {
      r := None;
      for i := 0 to |episodes|
        invariant r.Some? ==> r.value < i && IsEarlier(episodes, r.value, group, createdAt)
        invariant forall j: nat :: j < i && IsEarlier(episodes, j, group, createdAt) ==>
          r.Some? && episodes[j].createdAt <= episodes[r.value].createdAt
      {
        if episodes[i].group == group && episodes[i].createdAt <= createdAt &&
          (r.None? || episodes[r.value].createdAt < episodes[i].createdAt) {
          r := Some(i);
        }
      }
    }

    method StoreEpisode(e: Episode, autoLink: bool)
      modifies this
      ensures IsStore(old(View()), View(), e, autoLink)
    {
      ghost var before := View();
      if autoLink {
        var predecessor := FindPredecessor(e.group, e.createdAt);
        if predecessor.Some? {
          follows := follows + [Edge(predecessor.value, |episodes|,
                                     e.createdAt - episodes[predecessor.value].createdAt)];
        }
        assert follows == before.follows + LinkTo(before, e, predecessor);
      }
      episodes := episodes + [e];
    }
  }

  /** One store: the episode is appended and, if asked for, linked from some predecessor. */
  ghost predicate IsStore(c: Chain, c': Chain, e: Episode, autoLink: bool) {
    && c'.episodes == c.episodes + [e]
    && if autoLink
       then exists p :: IsPredecessor(c.episodes, e.group, e.createdAt, p) && c'.follows == c.follows + LinkTo(c, e, p)
       else c'.follows == c.follows
  }

  datatype Request = Request(episode: Episode, autoLink: bool)

  ghost predicate IsRun(states: seq<Chain>, requests: seq<Request>) {
    && |states| == |requests| + 1 && states[0] == EMPTY
    && forall i :: 0 <= i < |requests| ==> IsStore(states[i], states[i + 1], requests[i].episode, requests[i].autoLink)
  }

  // ---------------------------------------------------------------- a forest, always

  /** Forward in storage order, within a group, and not back in time. */
  predicate GoodEdge(c: Chain, e: Edge) {
    && e.source < e.target < |c.episodes|
    && c.episodes[e.source].group == c.episodes[e.target].group
    && e.delta == c.episodes[e.target].createdAt - c.episodes[e.source].createdAt
    && e.delta >= 0.0
  }

  /** Good edges, and no episode the target of two. */
  ghost predicate Forest(c: Chain) {
    && (forall i :: 0 <= i < |c.follows| ==> GoodEdge(c, c.follows[i]))
    && (forall i, j :: 0 <= i < j < |c.follows| ==> c.follows[i].target != c.follows[j].target)
  }

  lemma StoreKeepsForest(c: Chain, c': Chain, r: Request)
    requires Forest(c) && IsStore(c, c', r.episode, r.autoLink)
    ensures Forest(c')
  {
    forall i | 0 <= i < |c.follows| ensures GoodEdge(c', c.follows[i]) {
      assert GoodEdge(c, c.follows[i]);
    }
  }

  /** Whatever the creation times, auto-created links always form a forest. */
  lemma {:induction false} RunsAreForests(states: seq<Chain>, requests: seq<Request>, n: nat)
    requires IsRun(states, requests) && n < |states|
    ensures Forest(states[n])
  {
    if n > 0 {
      RunsAreForests(states, requests, n - 1);
      StoreKeepsForest(states[n - 1], states[n], requests[n - 1]);
    }
  }

  ghost predicate Linked(c: Chain, a: nat, b: nat) {
    exists i :: 0 <= i < |c.follows| && c.follows[i].source == a && c.follows[i].target == b
  }

  /** path visits episodes along FOLLOWS edges. */
  ghost predicate IsPath(c: Chain, path: seq<nat>) {
    forall i :: 0 <= i < |path| - 1 ==> Linked(c, path[i], path[i + 1])
  }

  /** Paths run forward in storage and creation time within one group, so none returns to its start. */
  lemma {:induction false} PathsGoForward(c: Chain, path: seq<nat>)
    requires Forest(c) && IsPath(c, path) && |path| >= 2
    ensures path[0] < path[|path| - 1] < |c.episodes|
    ensures c.episodes[path[0]].group == c.episodes[path[|path| - 1]].group
    ensures c.episodes[path[0]].createdAt <= c.episodes[path[|path| - 1]].createdAt
    decreases |path|
  {
    assert Linked(c, path[0], path[1]);
    var i :| 0 <= i < |c.follows| && c.follows[i].source == path[0] && c.follows[i].target == path[1];
    assert GoodEdge(c, c.follows[i]);
    if |path| > 2 {
      var rest := path[1..];
      forall k | 0 <= k < |rest| - 1 ensures Linked(c, rest[k], rest[k + 1]) {
        assert Linked(c, path[k + 1], path[k + 2]);
      }
      PathsGoForward(c, rest);
    }
  }

  // ---------------------------------------------------------------- one path per group

  /** i is the last episode of its group stored before j. */
  predicate ImmediatelyBefore(c: Chain, i: nat, j: nat) {
    && i < j < |c.episodes| && c.episodes[i].group == c.episodes[j].group
    && forall k :: i < k < j ==> c.episodes[k].group != c.episodes[j].group
  }

  /** The links are exactly the steps from each episode to the next one of its group. */
  ghost predicate OnePathPerGroup(c: Chain) {
    forall i: nat, j: nat :: Linked(c, i, j) <==> ImmediatelyBefore(c, i, j)
  }

  lemma LinkedAfter(c: Chain, c': Chain, e: Episode, p: Option<nat>, i: nat, j: nat)
    requires p.Some? ==> p.value < |c.episodes|
    requires c'.follows == c.follows + LinkTo(c, e, p)
    ensures Linked(c', i, j) <==> Linked(c, i, j) || (p == Some(i) && j == |c.episodes|)
  {
    if p.Some? {
      assert c'.follows[|c.follows|] == LinkTo(c, e, p)[0];
    }
    if Linked(c, i, j) {
      var k :| 0 <= k < |c.follows| && c.follows[k].source == i && c.follows[k].target == j;
      assert c'.follows[k] == c.follows[k];
    }
    if Linked(c', i, j) {
      var k :| 0 <= k < |c'.follows| && c'.follows[k].source == i && c'.follows[k].target == j;
      assert k < |c.follows| ==> c.follows[k] == c'.follows[k];
    }
  }

  lemma {:induction false} LastOfGroup(c: Chain, k: nat, j: nat) returns (l: nat)
    requires k < j < |c.episodes| && c.episodes[k].group == c.episodes[j].group
    ensures k <= l && ImmediatelyBefore(c, l, j)
    decreases j - k
  {
    if m :| k < m < j && c.episodes[m].group == c.episodes[j].group {
      l := LastOfGroup(c, m, j);
    } else {
      l := k;
    }
  }

  lemma BeforeInPrefix(c: Chain, c': Chain, e: Episode, i: nat, j: nat)
    requires c'.episodes == c.episodes + [e]
    ensures j < |c.episodes| ==> (ImmediatelyBefore(c', i, j) <==> ImmediatelyBefore(c, i, j))
  {
    assert forall k :: 0 <= k < |c.episodes| ==> c'.episodes[k] == c.episodes[k];
    if j < |c.episodes| && ImmediatelyBefore(c', i, j) {
      forall k | i < k < j ensures c.episodes[k].group != c.episodes[j].group {
        assert c'.episodes[k].group != c'.episodes[j].group;
      }
    }
  }

  /** Episode l is the last one of the group. */
  predicate IsLastStored(episodes: seq<Episode>, l: nat, group: string) {
    l < |episodes| && episodes[l].group == group && forall k :: l < k < |episodes| ==> episodes[k].group != group
  }

  /**
   The last episode of the group, if there is one, is not newer than e, and all others that are not
   newer than e are strictly older than it.
   */
  predicate EndsInLatest(episodes: seq<Episode>, e: Episode) {
    forall l :: 0 <= l < |episodes| && IsLastStored(episodes, l, e.group) ==> OnlyLatest(episodes, l, e)
  }

  predicate OnlyLatest(episodes: seq<Episode>, l: nat, e: Episode)
    requires l < |episodes|
  {
    && IsEarlier(episodes, l, e.group, e.createdAt)
    && forall k :: 0 <= k < |episodes| && k != l && IsEarlier(episodes, k, e.group, e.createdAt) ==>
      episodes[k].createdAt < episodes[l].createdAt
  }

  /** The link of a newly stored episode continues the path exactly when it comes from the last one of the group. */
  lemma PathContinues(c: Chain, c': Chain, e: Episode, p: Option<nat>)
    requires OnePathPerGroup(c) && c'.episodes == c.episodes + [e]
    requires IsPredecessor(c.episodes, e.group, e.createdAt, p) && c'.follows == c.follows + LinkTo(c, e, p)
    ensures OnePathPerGroup(c') <==> forall l: nat :: IsLastStored(c.episodes, l, e.group) ==> p == Some(l)
  {
    var n := |c.episodes|;
    forall i: nat ensures ImmediatelyBefore(c', i, n) <==> IsLastStored(c.episodes, i, e.group) {
      LastIsBefore(c, c', e, i);
    }
    forall i: nat, j: nat ensures Linked(c', i, j) <==> Linked(c, i, j) || (p == Some(i) && j == n) {
      LinkedAfter(c, c', e, p, i, j);
    }
    forall i: nat ensures !Linked(c, i, n) { assert !ImmediatelyBefore(c, i, n); }
    if OnePathPerGroup(c') {
      forall l: nat | IsLastStored(c.episodes, l, e.group) ensures p == Some(l) {
        assert ImmediatelyBefore(c', l, n);
        assert Linked(c', l, n);
      }
    }
    if forall l: nat :: IsLastStored(c.episodes, l, e.group) ==> p == Some(l) {
      forall i: nat, j: nat ensures Linked(c', i, j) <==> ImmediatelyBefore(c', i, j) {
        BeforeInPrefix(c, c', e, i, j);
        assert Linked(c, i, j) <==> ImmediatelyBefore(c, i, j);
        if j == n && p == Some(i) { LastExists(c.episodes, i, e.group); }
      }
    }
  }

  lemma LastIsBefore(c: Chain, c': Chain, e: Episode, i: nat)
    requires c'.episodes == c.episodes + [e]
    ensures ImmediatelyBefore(c', i, |c.episodes|) <==> IsLastStored(c.episodes, i, e.group)
  {
    assert c'.episodes[|c.episodes|] == e && forall k :: 0 <= k < |c.episodes| ==> c'.episodes[k] == c.episodes[k];
  }

  lemma {:induction false} LastExists(episodes: seq<Episode>, k: nat, group: string)
    requires k < |episodes| && episodes[k].group == group
    ensures exists l: nat :: k <= l < |episodes| && IsLastStored(episodes, l, group)
    decreases |episodes| - k
  {
    if m :| k < m < |episodes| && episodes[m].group == group {
      LastExists(episodes, m, group);
    } else {
      assert IsLastStored(episodes, k, group);
    }
  }

  /** A latest candidate among the first n episodes other than the one given. */
  lemma {:induction false} LatestOther(episodes: seq<Episode>, group: string, createdAt: real, other: nat, n: nat)
    returns (r: Option<nat>)
    requires n <= |episodes|
    ensures r.None? ==> forall i: nat :: i < n && i != other ==> !IsEarlier(episodes, i, group, createdAt)
    ensures r.Some? ==> r.value < n && r.value != other && IsEarlier(episodes, r.value, group, createdAt)
    ensures r.Some? ==> forall i: nat :: i < n && i != other && IsEarlier(episodes, i, group, createdAt) ==>
            episodes[i].createdAt <= episodes[r.value].createdAt
  {
    if n == 0 { return None; }
    r := LatestOther(episodes, group, createdAt, other, n - 1);
    if n - 1 != other && IsEarlier(episodes, n - 1, group, createdAt) &&
      (r.None? || episodes[r.value].createdAt < episodes[n - 1].createdAt) {
      r := Some(n - 1);
    }
  }

  /** The store that links from a given predecessor. */
  lemma StoreFrom(c: Chain, e: Episode, p: Option<nat>) returns (c': Chain)
    requires IsPredecessor(c.episodes, e.group, e.createdAt, p)
    ensures IsStore(c, c', e, true) && c'.episodes == c.episodes + [e] && c'.follows == c.follows + LinkTo(c, e, p)
  {
    c' := Chain(c.episodes + [e], c.follows + LinkTo(c, e, p));
  }

  lemma SomeStore(c: Chain, e: Episode) returns (c': Chain)
    ensures IsStore(c, c', e, true)
  {
    var p := LatestOther(c.episodes, e.group, e.createdAt, |c.episodes|, |c.episodes|);
    c' := StoreFrom(c, e, p);
  }

  /** Unless the last of the group is the only latest candidate, some store links past it. */
  lemma BreakingStore(c: Chain, e: Episode, l: nat) returns (c': Chain)
    requires OnePathPerGroup(c) && IsLastStored(c.episodes, l, e.group) && !OnlyLatest(c.episodes, l, e)
    ensures IsStore(c, c', e, true) && !OnePathPerGroup(c')
  {
    var p := LatestOther(c.episodes, e.group, e.createdAt, l, |c.episodes|);
    c' := StoreFrom(c, e, p);
    PathContinues(c, c', e, p);
  }

  /**
   Whatever predecessor is picked on a tie, one more auto-linked store continues the path of its group
   if and only if the last episode of the group is not newer and all others that are not newer are
   strictly older than that one.
   */
  lemma StoreKeepsPathIff(c: Chain, e: Episode)
    requires OnePathPerGroup(c)
    ensures (forall c' :: IsStore(c, c', e, true) ==> OnePathPerGroup(c')) <==> EndsInLatest(c.episodes, e)
  {
    if EndsInLatest(c.episodes, e) {
      forall c' | IsStore(c, c', e, true) ensures OnePathPerGroup(c') {
        var p :| IsPredecessor(c.episodes, e.group, e.createdAt, p) && c'.follows == c.follows + LinkTo(c, e, p);
        PathContinues(c, c', e, p);
      }
    } else {
      var l :| 0 <= l < |c.episodes| && IsLastStored(c.episodes, l, e.group) && !OnlyLatest(c.episodes, l, e);
      var c' := BreakingStore(c, e, l);
    }
  }

  /** A chain of two episodes of one group. */
  function Two(first: real, second: real): Chain {
    Chain([Episode("a", "g", first), Episode("b", "g", second)], [Edge(0, 1, second - first)])
  }

  lemma TwoIsPath(first: real, second: real)
    ensures OnePathPerGroup(Two(first, second))
    ensures forall e: Episode :: e.group == "g" ==>
            (EndsInLatest(Two(first, second).episodes, e) <==> OnlyLatest(Two(first, second).episodes, 1, e))
  {
    var c := Two(first, second);
    assert c.follows[0].source == 0 && c.follows[0].target == 1;
    assert Linked(c, 0, 1);
    forall e: Episode | e.group == "g" ensures EndsInLatest(c.episodes, e) <==> OnlyLatest(c.episodes, 1, e) {
      assert IsLastStored(c.episodes, 1, e.group);
    }
  }

  /** A third episode of the same time may be linked from the first of two, and so may a back-dated one. */
  lemma TiesAndBackdatingBreakPaths()
    ensures exists c' :: IsStore(Two(1.0, 1.0), c', Episode("d", "g", 1.0), true) && !OnePathPerGroup(c')
    ensures exists c' :: IsStore(Two(1.0, 3.0), c', Episode("d", "g", 2.0), true) && !OnePathPerGroup(c')
  {
    TwoIsPath(1.0, 1.0);
    TwoIsPath(1.0, 3.0);
    StoreKeepsPathIff(Two(1.0, 1.0), Episode("d", "g", 1.0));
    StoreKeepsPathIff(Two(1.0, 3.0), Episode("d", "g", 2.0));
    assert IsEarlier(Two(1.0, 1.0).episodes, 0, "g", 1.0);
  }

  // ---------------------------------------------------------------- which runs build paths

  function Stored(requests: seq<Request>): (r: seq<Episode>)
    ensures |r| == |requests| && forall i :: 0 <= i < |r| ==> r[i] == requests[i].episode
  {
    seq(|requests|, i requires 0 <= i < |requests| => requests[i].episode)
  }

  /** Times of a group never decrease, and only its last two episodes may share one. */
  predicate TimesAllowPath(episodes: seq<Episode>) {
    && (forall i, j :: 0 <= i < j < |episodes| && episodes[i].group == episodes[j].group ==>
        episodes[i].createdAt <= episodes[j].createdAt)
    && (forall i, j, k :: 0 <= i < j < k < |episodes| && episodes[i].group == episodes[j].group == episodes[k].group ==>
        episodes[i].createdAt < episodes[j].createdAt)
  }

  lemma {:induction false} RunStores(states: seq<Chain>, requests: seq<Request>)
    requires IsRun(states, requests)
    ensures states[|requests|].episodes == Stored(requests)
  {
    if requests != [] {
      var n := |requests| - 1;
      assert IsStore(states[n], states[n + 1], requests[n].episode, requests[n].autoLink);
      RunStores(states[..n + 1], requests[..n]);
    }
  }

  lemma TimesOneMore(episodes: seq<Episode>, e: Episode)
    ensures TimesAllowPath(episodes + [e]) <==> TimesAllowPath(episodes) && EndsInLatest(episodes, e)
  {
    if TimesAllowPath(episodes + [e]) {
      TimesShorter(episodes, e);
      LatestByTimes(episodes, e);
    }
    if TimesAllowPath(episodes) && EndsInLatest(episodes, e) {
      TimesLonger(episodes, e);
    }
  }

  lemma LatestByTimes(episodes: seq<Episode>, e: Episode)
    requires TimesAllowPath(episodes + [e])
    ensures EndsInLatest(episodes, e)
  {
    var longer, n := episodes + [e], |episodes|;
    assert longer[n] == e && forall k :: 0 <= k < n ==> longer[k] == episodes[k];
    forall l | 0 <= l < n && IsLastStored(episodes, l, e.group) ensures OnlyLatest(episodes, l, e) {
      assert longer[l].createdAt <= longer[n].createdAt;
      forall k | 0 <= k < n && k != l && IsEarlier(episodes, k, e.group, e.createdAt)
        ensures episodes[k].createdAt < episodes[l].createdAt {
        assert k < l;
        assert longer[k].createdAt < longer[l].createdAt;
      }
    }
  }

  lemma TimesLonger(episodes: seq<Episode>, e: Episode)
    requires TimesAllowPath(episodes) && EndsInLatest(episodes, e)
    ensures TimesAllowPath(episodes + [e])
  {
    var longer, n := episodes + [e], |episodes|;
    assert longer[n] == e && forall k :: 0 <= k < n ==> longer[k] == episodes[k];
    forall i: nat | i < n && episodes[i].group == e.group
      ensures episodes[i].createdAt <= e.createdAt
      ensures forall j :: i < j < n && episodes[j].group == e.group ==> episodes[i].createdAt < episodes[j].createdAt
    {
      OlderThanNext(episodes, e, i);
    }
  }

  lemma OlderThanNext(episodes: seq<Episode>, e: Episode, i: nat)
    requires TimesAllowPath(episodes) && EndsInLatest(episodes, e) && i < |episodes| && episodes[i].group == e.group
    ensures episodes[i].createdAt <= e.createdAt
    ensures forall j :: i < j < |episodes| && episodes[j].group == e.group ==>
            episodes[i].createdAt < episodes[j].createdAt
  {
    LastExists(episodes, i, e.group);
    var l: nat :| i <= l < |episodes| && IsLastStored(episodes, l, e.group);
    assert OnlyLatest(episodes, l, e);
  }

  lemma TimesShorter(episodes: seq<Episode>, e: Episode)
    requires TimesAllowPath(episodes + [e])
    ensures TimesAllowPath(episodes)
  {
    var longer := episodes + [e];
    assert forall k :: 0 <= k < |episodes| ==> longer[k] == episodes[k];
  }

  lemma ExtendRun(states: seq<Chain>, requests: seq<Request>, r: Request, c': Chain)
    requires IsRun(states, requests) && IsStore(states[|requests|], c', r.episode, r.autoLink)
    ensures IsRun(states + [c'], requests + [r])
  {
    var longer := states + [c'];
    forall i | 0 <= i < |requests + [r]|
      ensures IsStore(longer[i], longer[i + 1], (requests + [r])[i].episode, (requests + [r])[i].autoLink) {
      if i < |requests| { assert IsStore(states[i], states[i + 1], requests[i].episode, requests[i].autoLink); }
    }
  }

  /** A broken path is never repaired. */
  lemma BreaksForGood(c: Chain, c': Chain, e: Episode)
    requires Forest(c) && !OnePathPerGroup(c) && IsStore(c, c', e, true)
    ensures !OnePathPerGroup(c')
  {
    var p :| IsPredecessor(c.episodes, e.group, e.createdAt, p) && c'.follows == c.follows + LinkTo(c, e, p);
    var i: nat, j: nat :| Linked(c, i, j) != ImmediatelyBefore(c, i, j);
    if Linked(c, i, j) { PathsGoForward(c, [i, j]); }
    LinkedAfter(c, c', e, p, i, j);
    BeforeInPrefix(c, c', e, i, j);
  }

  ghost predicate AllLinked(requests: seq<Request>) {
    forall i :: 0 <= i < |requests| ==> requests[i].autoLink
  }

  lemma {:induction false} RunsArePaths(states: seq<Chain>, requests: seq<Request>)
    requires IsRun(states, requests) && AllLinked(requests) && TimesAllowPath(Stored(requests))
    ensures OnePathPerGroup(states[|requests|])
  {
    if requests != [] {
      var n := |requests| - 1;
      var e := requests[n].episode;
      assert IsStore(states[n], states[n + 1], e, requests[n].autoLink);
      assert Stored(requests) == Stored(requests[..n]) + [e];
      TimesOneMore(Stored(requests[..n]), e);
      RunsArePaths(states[..n + 1], requests[..n]);
      RunStores(states[..n + 1], requests[..n]);
      StoreKeepsPathIff(states[n], e);
    }
  }

  lemma {:induction false} SomeRun(requests: seq<Request>) returns (states: seq<Chain>)
    requires AllLinked(requests)
    ensures IsRun(states, requests)
  {
    if requests == [] { return [EMPTY]; }
    var n := |requests| - 1;
    states := SomeRun(requests[..n]);
    var c' := SomeStore(states[n], requests[n].episode);
    assert requests == requests[..n] + [requests[n]];
    ExtendRun(states, requests[..n], requests[n], c');
    states := states + [c'];
  }

  lemma {:induction false} BreakingRun(requests: seq<Request>) returns (states: seq<Chain>)
    requires AllLinked(requests) && !TimesAllowPath(Stored(requests))
    ensures IsRun(states, requests) && !OnePathPerGroup(states[|requests|])
  {
    var n := |requests| - 1;
    var before, e := requests[..n], requests[n].episode;
    assert requests == before + [requests[n]] && Stored(requests) == Stored(before) + [e];
    TimesOneMore(Stored(before), e);
    var c': Chain;
    if TimesAllowPath(Stored(before)) {
      states := SomeRun(before);
      RunsArePaths(states, before);
      RunStores(states, before);
      var l :| 0 <= l < n && IsLastStored(Stored(before), l, e.group) && !OnlyLatest(Stored(before), l, e);
      c' := BreakingStore(states[n], e, l);
    } else {
      states := BreakingRun(before);
      c' := SomeStore(states[n], e);
      RunsAreForests(states, before, n);
      BreaksForGood(states[n], c', e);
    }
    ExtendRun(states, before, requests[n], c');
    states := states + [c'];
  }

  /**
   Auto-linked stores build one path per group, whatever is picked on ties, if and only if the times
   of each group never decrease and only its last two may be equal.
   */
  lemma RunsArePathsIff(requests: seq<Request>)
    requires AllLinked(requests)
    ensures (forall states :: IsRun(states, requests) ==> OnePathPerGroup(states[|requests|])) <==>
            TimesAllowPath(Stored(requests))
  {
    if TimesAllowPath(Stored(requests)) {
      forall states | IsRun(states, requests) ensures OnePathPerGroup(states[|requests|]) {
        RunsArePaths(states, requests);
      }
    } else {
      var states := BreakingRun(requests);
    }
  }
}
