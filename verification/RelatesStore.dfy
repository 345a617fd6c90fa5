/**
 The entity graph (src/memory_service/storage/long_term/ontology_store.py): nodes merged by canonical
 name, RELATES edges merged by subject, predicate and object, and symmetric and inverse edges
 inferred when an edge is written.
 */
module RelatesStore {
  import opened Basics
  import opened Names
  import opened Vocabulary

  type Embedding = seq<real>

  datatype Node = Node(uuid: string, groupId: string, schemaType: string, displayName: string, summary: string,
                       embedding: Embedding, createdAt: real, updatedAt: real, sourceCount: nat)

  datatype Triple = Triple(subj: string, pred: string, obj: string)

  datatype Rel = Rel(confidence: real, createdAt: real)

  /** The part of the database the store works on. */
  datatype Graph = Graph(nodes: map<string, Node>, relates: map<Triple, Rel>, episodes: set<string>,
                         about: set<(string, string)>)

  const EMPTY := Graph(map[], map[], {}, {})

  // ---------------------------------------------------------------- what each query does

  /** One call of upsert_node; the embedding of the summary is computed before the query. */
  datatype NodeUpdate = NodeUpdate(groupId: string, schemaType: string, displayName: string, summary: string,
                                   embedding: Embedding, freshUuid: string, now: real)

  function MergedNode(v: Vocab, nodes: map<string, Node>, key: string, u: NodeUpdate): Node {
    var schemaType := NormalizeClass(v, u.schemaType);
    if key in nodes then
      nodes[key].(schemaType := schemaType, displayName := u.displayName, summary := u.summary,
                  embedding := u.embedding, updatedAt := u.now, sourceCount := nodes[key].sourceCount + 1)
    else Node(u.freshUuid, u.groupId, schemaType, u.displayName, u.summary, u.embedding, u.now, u.now, 1)
  }

  /** A name without a key is refused and changes nothing. */
  function UpsertSpec(v: Vocab, g: Graph, name: string, u: NodeUpdate): Graph {
    var key := Normalize(v.tables, name);
    if key == "" then g else g.(nodes := g.nodes[key := MergedNode(v, g.nodes, key, u)])
  }

  predicate HasEnds(g: Graph, t: Triple) {
    t.subj in g.nodes && t.obj in g.nodes
  }

  function MergeSpec(g: Graph, t: Triple, confidence: real, now: real): Graph {
    if !HasEnds(g, t) then g
    else if t in g.relates then
      g.(relates := g.relates[t := g.relates[t].(confidence := RMax(g.relates[t].confidence, confidence))])
    else g.(relates := g.relates[t := Rel(confidence, now)])
  }

  /** The edge read backwards under predicate p. */
  function Mirror(t: Triple, p: string): Triple {
    Triple(t.obj, p, t.subj)
  }

  function StoreRelatesSpec(v: Vocab, g: Graph, t: Triple, confidence: real, now: real): Graph {
    var g1 := MergeSpec(g, t, confidence, now);
    var g2 := if IsSymmetric(v, t.pred) then MergeSpec(g1, Mirror(t, t.pred), confidence, now) else g1;
    if t.pred in v.inverses && v.inverses[t.pred] != "" && v.inverses[t.pred] != t.pred
    then MergeSpec(g2, Mirror(t, v.inverses[t.pred]), confidence, now) else g2
  }

  function LinkSpec(v: Vocab, g: Graph, episode: string, entityName: string): Graph {
    var key := Normalize(v.tables, entityName);
    if episode in g.episodes && key in g.nodes then g.(about := g.about + {(episode, key)}) else g
  }

  class OntologyStore {
    const vocab: Vocab
    var nodes: map<string, Node>
    var relates: map<Triple, Rel>
    var episodes: set<string>
    var about: set<(string, string)>

    constructor (v: Vocab)
      ensures vocab == v && View() == EMPTY
    {
      vocab := v;
      nodes, relates, episodes, about := map[], map[], {}, {};
    }

    function View(): Graph
      reads this
    {
      Graph(nodes, relates, episodes, about)
    }

    method UpsertNode(name: string, u: NodeUpdate) returns (r: Result<string, string>)
      modifies this
      ensures View() == UpsertSpec(vocab, old(View()), name, u)
      ensures r.Ok? <==> Normalize(vocab.tables, name) != ""
      ensures r.Ok? ==> Normalize(vocab.tables, name) in nodes && nodes[Normalize(vocab.tables, name)].uuid == r.value
    {
      var key := Normalize(vocab.tables, name);
      if key == "" {
        return Err("Cannot normalize name");
      }
      nodes := nodes[key := MergedNode(vocab, nodes, key, u)];
      r := Ok(nodes[key].uuid);
    }

    /** The stored node, and the key it is reported under. */
    method GetNode(name: string) returns (key: string, r: Option<Node>)
      ensures key == Normalize(vocab.tables, name)
      ensures r == if key in nodes then Some(nodes[key]) else None
    {
      key := Normalize(vocab.tables, name);
      r := if key in nodes then Some(nodes[key]) else None;
    }

    method MergeRelatesEdge(t: Triple, confidence: real, now: real) returns (stored: bool)
      modifies this`relates
      ensures View() == MergeSpec(old(View()), t, confidence, now)
      ensures stored <==> HasEnds(View(), t)
    {
      if t.subj !in nodes || t.obj !in nodes {
        return false;
      }
      if t in relates {
        if relates[t].confidence < confidence {
          relates := relates[t := relates[t].(confidence := confidence)];
        }
      } else {
        relates := relates[t := Rel(confidence, now)];
      }
      stored := true;
    }

    method StoreRelates(subj: string, rawPredicate: string, obj: string, confidence: real, now: real)
      returns (stored: bool)
      modifies this`relates
      ensures var t := Triple(subj, NormalizePredicate(vocab, rawPredicate), obj);
              View() == StoreRelatesSpec(vocab, old(View()), t, confidence, now) && (stored <==> HasEnds(View(), t))
    {
      var p := NormalizePredicate(vocab, rawPredicate);
      stored := MergeRelatesEdge(Triple(subj, p, obj), confidence, now);
      if !stored {
        return;
      }
      if IsSymmetric(vocab, p) {
        var _ := MergeRelatesEdge(Triple(obj, p, subj), confidence, now);
      }
      if p in vocab.inverses && vocab.inverses[p] != "" && vocab.inverses[p] != p {
        var _ := MergeRelatesEdge(Triple(obj, vocab.inverses[p], subj), confidence, now);
      }
    }

    /** Links an episode to an entity; a no-op when either is missing. */
    method LinkAbout(episode: string, entityName: string)
      modifies this`about
      ensures View() == LinkSpec(vocab, old(View()), episode, entityName)
    {
      var key := Normalize(vocab.tables, entityName);
      if episode in episodes && key in nodes {
        about := about + {(episode, key)};
      }
    }
  }

  // ---------------------------------------------------------------- node identity

  /** The node written under a raw name is found again under its key and under the raw name. */
  lemma KeyReachesNode(v: Vocab, g: Graph, raw: string, u: NodeUpdate)
    requires WellFormed(v) && Normalize(v.tables, raw) != ""
    ensures var key := Normalize(v.tables, raw);
            Normalize(v.tables, key) in UpsertSpec(v, g, raw, u).nodes
            && UpsertSpec(v, g, raw, u) == UpsertSpec(v, g, key, u)
  {
    NormalizeIdempotent(v.tables, raw);
  }

  // ---------------------------------------------------------------- inference

  /** Writing a stores e: e is a itself, or the edge inferred from a. */
  predicate Entails(v: Vocab, a: Triple, e: Triple) {
    || e == a
    || (e == Mirror(a, e.pred) && ((IsSymmetric(v, a.pred) && e.pred == a.pred) || HasInverse(v, a.pred, e.pred)))
  }

  /** Rules prp-symp, prp-inv1 and prp-inv2 of OWL 2 RL: e requires m. */
  predicate Consequence(v: Vocab, e: Triple, m: Triple) {
    m == Mirror(e, m.pred) && ((IsSymmetric(v, e.pred) && m.pred == e.pred) || Inverse(v, e.pred, m.pred))
  }

  /** Every edge comes with all its consequences, at equal confidence. */
  ghost predicate Closed(v: Vocab, relates: map<Triple, Rel>) {
    forall e, m :: e in relates && Consequence(v, e, m) ==>
      m in relates && relates[m].confidence == relates[e].confidence
  }

  /** From g to g', edge e was written with the given confidence if hit, and left alone otherwise. */
  ghost predicate Raised(g: Graph, g': Graph, e: Triple, hit: bool, confidence: real) {
    && g'.nodes == g.nodes
    && (e in g'.relates <==> e in g.relates || hit)
    && (e in g'.relates ==>
          g'.relates[e].confidence ==
          (if !hit then g.relates[e].confidence
           else if e in g.relates then RMax(g.relates[e].confidence, confidence)
           else confidence))
  }

  lemma MergeEffect(g: Graph, t: Triple, confidence: real, now: real, e: Triple)
    requires HasEnds(g, t)
    ensures Raised(g, MergeSpec(g, t, confidence, now), e, e == t, confidence)
  {
  }

  lemma RaisedTwice(g: Graph, g1: Graph, g2: Graph, e: Triple, hit1: bool, hit2: bool, confidence: real)
    requires Raised(g, g1, e, hit1, confidence) && Raised(g1, g2, e, hit2, confidence)
    ensures Raised(g, g2, e, hit1 || hit2, confidence)
  {
  }

  /** A successful assertion writes exactly the edges it entails. */
  lemma StoreEffect(v: Vocab, g: Graph, a: Triple, confidence: real, now: real, e: Triple)
    requires HasEnds(g, a)
    ensures Raised(g, StoreRelatesSpec(v, g, a, confidence, now), e, Entails(v, a, e), confidence)
  {
    var g1 := MergeSpec(g, a, confidence, now);
    MergeEffect(g, a, confidence, now, e);
    var g2, hit := g1, e == a;
    if IsSymmetric(v, a.pred) {
      var m := Mirror(a, a.pred);
      g2 := MergeSpec(g1, m, confidence, now);
      MergeEffect(g1, m, confidence, now, e);
      RaisedTwice(g, g1, g2, e, hit, e == m, confidence);
      hit := hit || e == m;
    }
    if a.pred in v.inverses && v.inverses[a.pred] != "" && v.inverses[a.pred] != a.pred {
      var m := Mirror(a, v.inverses[a.pred]);
      MergeEffect(g2, m, confidence, now, e);
      RaisedTwice(g, g2, MergeSpec(g2, m, confidence, now), e, hit, e == m, confidence);
    }
  }

  /**
   Edge e is stored at the given confidence, unless it already had a higher one, if it is hit; otherwise it
   stays as it was. A new edge gets the given time.
   */
  predicate Stored(before: map<Triple, Rel>, after: map<Triple, Rel>, e: Triple, hit: bool, confidence: real, now: real)
  {
    if !hit then (e in after <==> e in before) && (e in before ==> after[e] == before[e])
    else if e !in before then e in after && after[e] == Rel(confidence, now)
    else
      && e in after && after[e].createdAt == before[e].createdAt
      && after[e].confidence == if before[e].confidence < confidence then confidence else before[e].confidence
  }

  lemma MergeStores(g: Graph, t: Triple, confidence: real, now: real, e: Triple)
    requires HasEnds(g, t)
    ensures Stored(g.relates, MergeSpec(g, t, confidence, now).relates, e, e == t, confidence, now)
    ensures MergeSpec(g, t, confidence, now).nodes == g.nodes
  {
  }

  lemma StoredTwice(r: map<Triple, Rel>, r1: map<Triple, Rel>, r2: map<Triple, Rel>, e: Triple, hit1: bool, hit2: bool,
                    confidence: real, now: real)
    requires Stored(r, r1, e, hit1, confidence, now) && Stored(r1, r2, e, hit2, confidence, now)
    ensures Stored(r, r2, e, hit1 || hit2, confidence, now)
  {
  }

  /**
   By the tables: e is the reverse of a, under a predicate declared symmetric or its own inverse, or leads
   back under the declared inverse.
   */
  predicate LeadsBack(v: Vocab, a: Triple, e: Triple) {
    var p := a.pred;
    && e.subj == a.obj && e.obj == a.subj
    && (if e.pred == p then p in v.symmetric || (p in v.inverses && v.inverses[p] == p)
        else p in v.inverses && v.inverses[p] != "" && e.pred == v.inverses[p])
  }

  /**
   What an assertion writes: the edge itself, and back, under its own predicate if the tables declare that
   symmetric or its own inverse, and under another one if they declare that its inverse. No other edge changes.
   */
  lemma AssertionWrites(v: Vocab, g: Graph, a: Triple, confidence: real, now: real, e: Triple)
    requires a.subj in g.nodes && a.obj in g.nodes
    ensures Stored(g.relates, StoreRelatesSpec(v, g, a, confidence, now).relates, e, e == a || LeadsBack(v, a, e),
                   confidence, now)
  {
    var p := a.pred;
    var g1 := MergeSpec(g, a, confidence, now);
    MergeStores(g, a, confidence, now, e);
    var g2, hit := g1, e == a;
    if IsSymmetric(v, p) {
      var m := Triple(a.obj, p, a.subj);
      g2 := MergeSpec(g1, m, confidence, now);
      MergeStores(g1, m, confidence, now, e);
      StoredTwice(g.relates, g1.relates, g2.relates, e, hit, e == m, confidence, now);
      hit := hit || e == m;
    }
    if p in v.inverses && v.inverses[p] != "" && v.inverses[p] != p {
      var m := Triple(a.obj, v.inverses[p], a.subj);
      MergeStores(g2, m, confidence, now, e);
      StoredTwice(g.relates, g2.relates, MergeSpec(g2, m, confidence, now).relates, e, hit, e == m, confidence, now);
    }
  }

  /** A declared symmetric predicate is stored both ways by one assertion. */
  lemma KnowsIsStoredBothWays(v: Vocab, g: Graph, now: real)
    requires v.symmetric == {"knows"} && v.inverses == map[] && g.relates == map[] && "a" in g.nodes && "b" in g.nodes
    ensures StoreRelatesSpec(v, g, Triple("a", "knows", "b"), 0.9, now).relates
         == map[Triple("a", "knows", "b") := Rel(0.9, now), Triple("b", "knows", "a") := Rel(0.9, now)]
  {
    var after := StoreRelatesSpec(v, g, Triple("a", "knows", "b"), 0.9, now).relates;
    forall e ensures e in after <==> e == Triple("a", "knows", "b") || e == Triple("b", "knows", "a")
      ensures e in after ==> after[e] == Rel(0.9, now)
    {
      AssertionWrites(v, g, Triple("a", "knows", "b"), 0.9, now, e);
    }
  }

  // ---------------------------------------------------------------- runs

  datatype Event =
    | StoreEpisode(uuid: string)
    | Upsert(name: string, update: NodeUpdate)
    | Link(episode: string, entityName: string)
    | Relate(subj: string, rawPredicate: string, obj: string, confidence: real, now: real)

  function Asserted(v: Vocab, e: Event): Triple
    requires e.Relate?
  {
    Triple(e.subj, NormalizePredicate(v, e.rawPredicate), e.obj)
  }

  function Apply(v: Vocab, g: Graph, e: Event): Graph {
    match e
    case StoreEpisode(uuid) => g.(episodes := g.episodes + {uuid})
    case Upsert(name, u) => UpsertSpec(v, g, name, u)
    case Link(episode, entityName) => LinkSpec(v, g, episode, entityName)
    case Relate(_, _, _, c, now) => StoreRelatesSpec(v, g, Asserted(v, e), c, now)
  }

  function Run(v: Vocab, events: seq<Event>): Graph {
    if events == [] then EMPTY else Apply(v, Run(v, events[..|events| - 1]), events[|events| - 1])
  }

  lemma RunOneMore(v: Vocab, before: seq<Event>, last: Event)
    ensures Run(v, before + [last]) == Apply(v, Run(v, before), last)
  {
    var events := before + [last];
    assert events[..|events| - 1] == before && events[|events| - 1] == last;
  }

  predicate Writes(v: Vocab, e: Event, key: string) {
    e.Upsert? && key != "" && Normalize(v.tables, e.name) == key
  }

  /** How often an event of the run wrote the node with this key. */
  function TimesUpserted(v: Vocab, events: seq<Event>, key: string): nat {
    if events == [] then 0
    else TimesUpserted(v, events[..|events| - 1], key) + (if Writes(v, events[|events| - 1], key) then 1 else 0)
  }

  /** Nodes are never lost: a node exists once it has been written, and counts every write. */
  lemma {:induction false} NodesCountTheirSources(v: Vocab, events: seq<Event>, key: string)
    ensures key in Run(v, events).nodes <==> TimesUpserted(v, events, key) > 0
    ensures key in Run(v, events).nodes ==> Run(v, events).nodes[key].sourceCount == TimesUpserted(v, events, key)
    decreases |events|
  {
    if events != [] {
      var before, last := events[..|events| - 1], events[|events| - 1];
      NodesCountTheirSources(v, before, key);
      if last.Relate? {
        var g, a := Run(v, before), Asserted(v, last);
        if HasEnds(g, a) { StoreEffect(v, g, a, last.confidence, last.now, a); }
      }
    }
  }

  /** The first and the last event of a run to write a key, if any. */
  function FirstWrite(v: Vocab, events: seq<Event>, key: string): Option<nat>
    decreases |events|
  {
    if events == [] then None
    else
      var n := |events| - 1;
      var earlier := FirstWrite(v, events[..n], key);
      if earlier.Some? then earlier else if Writes(v, events[n], key) then Some(n) else None
  }

  function LastWrite(v: Vocab, events: seq<Event>, key: string): Option<nat>
    decreases |events|
  {
    if events == [] then None
    else
      var n := |events| - 1;
      if Writes(v, events[n], key) then Some(n) else LastWrite(v, events[..n], key)
  }

  predicate IsWrite(v: Vocab, events: seq<Event>, i: Option<nat>, key: string) {
    i.Some? && i.value < |events| && Writes(v, events[i.value], key)
  }

  /** A node keeps the identity its first write gave it and the description of its last write. */
  lemma {:induction false} NodeRemembersWrites(v: Vocab, events: seq<Event>, key: string)
    ensures key in Run(v, events).nodes ==>
              var first, last := FirstWrite(v, events, key), LastWrite(v, events, key);
              IsWrite(v, events, first, key) && IsWrite(v, events, last, key)
    ensures key in Run(v, events).nodes ==>
              var node := Run(v, events).nodes[key];
              var first, last := events[FirstWrite(v, events, key).value].update,
                events[LastWrite(v, events, key).value].update;
              && (node.uuid, node.groupId, node.createdAt) == (first.freshUuid, first.groupId, first.now)
              && (node.displayName, node.summary, node.embedding, node.updatedAt) ==
                (last.displayName, last.summary, last.embedding, last.now)
              && node.schemaType == NormalizeClass(v, last.schemaType)
    ensures key !in Run(v, events).nodes ==> FirstWrite(v, events, key).None?
    decreases |events|
  {
    if events != [] {
      var before, last := events[..|events| - 1], events[|events| - 1];
      NodeRemembersWrites(v, before, key);
      if last.Relate? {
        var g, a := Run(v, before), Asserted(v, last);
        if HasEnds(g, a) { StoreEffect(v, g, a, last.confidence, last.now, a); }
      }
    }
  }

  lemma {:induction false} UpsertedIffWritten(v: Vocab, events: seq<Event>, key: string)
    ensures TimesUpserted(v, events, key) > 0 <==> exists i :: 0 <= i < |events| && Writes(v, events[i], key)
    decreases |events|
  {
    if events != [] {
      var n := |events| - 1;
      UpsertedIffWritten(v, events[..n], key);
      if i :| 0 <= i < |events| && Writes(v, events[i], key) {
        if i < n { assert events[..n][i] == events[i]; }
      }
      if i :| 0 <= i < n && Writes(v, events[..n][i], key) { assert Writes(v, events[i], key); }
    }
  }

  /** Over every run a raw name, or its key, finds a node exactly when a name of the same key has been written. */
  lemma NameFindsNodeIff(v: Vocab, events: seq<Event>, raw: string)
    requires WellFormed(v)
    ensures var key, nodes := Normalize(v.tables, raw), Run(v, events).nodes;
            && Normalize(v.tables, key) == key
            && (key in nodes <==> exists i :: 0 <= i < |events| && Writes(v, events[i], key))
  {
    NormalizeIdempotent(v.tables, raw);
    NodesCountTheirSources(v, events, Normalize(v.tables, raw));
    UpsertedIffWritten(v, events, Normalize(v.tables, raw));
  }

  /** Event i linked the episode to the node, and both existed at the time. */
  ghost predicate Links(v: Vocab, events: seq<Event>, i: nat, episode: string, key: string) {
    && i < |events| && events[i].Link? && events[i].episode == episode &&
      Normalize(v.tables, events[i].entityName) == key
    && episode in Run(v, events[..i]).episodes && key in Run(v, events[..i]).nodes
  }

  lemma LinksExtends(v: Vocab, events: seq<Event>, last: Event, i: nat, episode: string, key: string)
    requires i < |events|
    ensures Links(v, events + [last], i, episode, key) <==> Links(v, events, i, episode, key)
  {
    assert (events + [last])[..i] == events[..i];
  }

  lemma ApplyKeeps(v: Vocab, g: Graph, e: Event)
    ensures g.episodes <= Apply(v, g, e).episodes && g.nodes.Keys <= Apply(v, g, e).nodes.Keys
    ensures !e.Link? ==> Apply(v, g, e).about == g.about
  {
    if e.Relate? && HasEnds(g, Asserted(v, e)) {
      StoreEffect(v, g, Asserted(v, e), e.confidence, e.now, Asserted(v, e));
    }
  }

  /**
   Over every run an ABOUT link exists exactly when some call of link_about found both the episode and,
   under the key of the name it was given, the node; both are there ever after.
   */
  lemma {:induction false} AboutIffLinked(v: Vocab, events: seq<Event>, episode: string, key: string)
    ensures (episode, key) in Run(v, events).about <==> exists i: nat :: Links(v, events, i, episode, key)
    ensures (episode, key) in Run(v, events).about ==> episode in Run(v, events).episodes && key in Run(v, events).nodes
    decreases |events|
  {
    if events != [] {
      var n := |events| - 1;
      var before, last := events[..n], events[n];
      assert events == before + [last];
      AboutIffLinked(v, before, episode, key);
      ApplyKeeps(v, Run(v, before), last);
      forall i: nat | i < n ensures Links(v, events, i, episode, key) <==> Links(v, before, i, episode, key) {
        LinksExtends(v, before, last, i, episode, key);
      }
      AboutStep(v, before, last, episode, key);
      if i: nat :| Links(v, before, i, episode, key) { assert Links(v, events, i, episode, key); }
    }
  }

  lemma AboutStep(v: Vocab, before: seq<Event>, last: Event, episode: string, key: string)
    ensures (episode, key) in Run(v, before + [last]).about
            <==> (episode, key) in Run(v, before).about || Links(v, before + [last], |before|, episode, key)
  {
    var events := before + [last];
    assert events[..|before|] == before && events[|before|] == last;
    RunOneMore(v, before, last);
    ApplyKeeps(v, Run(v, before), last);
  }

  /** Event i asserted an edge both ends of which existed, and e follows from it. */
  ghost predicate Supports(v: Vocab, events: seq<Event>, i: nat, e: Triple) {
    && i < |events| && events[i].Relate?
    && HasEnds(Run(v, events[..i]), Asserted(v, events[i]))
    && Entails(v, Asserted(v, events[i]), e)
  }

  lemma SupportsExtends(v: Vocab, events: seq<Event>, last: Event, i: nat, e: Triple)
    requires i < |events|
    ensures Supports(v, events + [last], i, e) <==> Supports(v, events, i, e)
  {
    assert (events + [last])[..i] == events[..i];
  }

  /** e is stored with the greatest confidence it has been asserted with, directly or through its mirror. */
  ghost predicate BestSupported(v: Vocab, events: seq<Event>, e: Triple) {
    var relates := Run(v, events).relates;
    && (e in relates <==> exists i: nat :: Supports(v, events, i, e))
    && (e in relates ==>
          && (forall i: nat :: Supports(v, events, i, e) ==> events[i].confidence <= relates[e].confidence)
          && (exists i: nat :: Supports(v, events, i, e) && events[i].confidence == relates[e].confidence))
  }

  /** Holds over every run and for every vocabulary. */
  lemma {:induction false} ConfidenceIsBestSupport(v: Vocab, events: seq<Event>, e: Triple)
    ensures BestSupported(v, events, e)
    decreases |events|
  {
    if events != [] {
      var n := |events| - 1;
      var before, last := events[..n], events[n];
      assert events == before + [last];
      ConfidenceIsBestSupport(v, before, e);
      BestSupportStep(v, before, last, e);
    }
  }

  lemma BestSupportStep(v: Vocab, before: seq<Event>, last: Event, e: Triple)
    requires BestSupported(v, before, e)
    ensures BestSupported(v, before + [last], e)
  {
    var events, n := before + [last], |before|;
    assert events[..n] == before && events[n] == last;
    forall i: nat | i < n ensures Supports(v, events, i, e) <==> Supports(v, before, i, e) {
      SupportsExtends(v, before, last, i, e);
    }
    var g, g' := Run(v, before), Run(v, events);
    RunOneMore(v, before, last);
    if last.Relate? && HasEnds(g, Asserted(v, last)) {
      StoreEffect(v, g, Asserted(v, last), last.confidence, last.now, e);
      assert Supports(v, events, n, e) <==> Entails(v, Asserted(v, last), e);
      if Supports(v, events, n, e) && (e !in g.relates || g.relates[e].confidence <= last.confidence) {
        assert g'.relates[e].confidence == events[n].confidence;
      } else if e in g.relates {
        KeepWitness(v, before, last, e);
      }
    } else {
      assert !Supports(v, events, n, e);
      assert g'.relates == g.relates;
      if e in g.relates { KeepWitness(v, before, last, e); }
    }
  }

  lemma KeepWitness(v: Vocab, before: seq<Event>, last: Event, e: Triple)
    requires BestSupported(v, before, e) && e in Run(v, before).relates
    ensures var events := before + [last];
            exists i: nat :: Supports(v, events, i, e) && events[i].confidence == Run(v, before).relates[e].confidence
  {
    var i: nat :| Supports(v, before, i, e) && before[i].confidence == Run(v, before).relates[e].confidence;
    SupportsExtends(v, before, last, i, e);
    assert (before + [last])[i] == before[i];
  }

  /** The first event of a run to support the edge. */
  ghost predicate FirstSupport(v: Vocab, events: seq<Event>, i: nat, e: Triple) {
    Supports(v, events, i, e) && forall j: nat :: j < i ==> !Supports(v, events, j, e)
  }

  lemma FirstExtends(v: Vocab, before: seq<Event>, last: Event, i: nat, e: Triple)
    requires FirstSupport(v, before, i, e)
    ensures FirstSupport(v, before + [last], i, e) && (before + [last])[i] == before[i]
  {
    SupportsExtends(v, before, last, i, e);
    forall j: nat | j < i ensures !Supports(v, before + [last], j, e) { SupportsExtends(v, before, last, j, e); }
  }

  lemma FirstIsLast(v: Vocab, before: seq<Event>, last: Event, e: Triple)
    requires e !in Run(v, before).relates && e in Run(v, before + [last]).relates
    ensures FirstSupport(v, before + [last], |before|, e)
  {
    ConfidenceIsBestSupport(v, before, e);
    ConfidenceIsBestSupport(v, before + [last], e);
    var i: nat :| Supports(v, before + [last], i, e);
    forall j: nat | j < |before| ensures !Supports(v, before + [last], j, e) { SupportsExtends(v, before, last, j, e); }
    assert i == |before|;
  }

  /** Over every run an edge keeps the creation time of the first assertion that supports it. */
  lemma {:induction false} EdgeKeepsFirstTime(v: Vocab, events: seq<Event>, e: Triple)
    ensures e in Run(v, events).relates ==>
              exists i: nat :: FirstSupport(v, events, i, e) && events[i].now == Run(v, events).relates[e].createdAt
    decreases |events|
  {
    if events != [] && e in Run(v, events).relates {
      var before, last := events[..|events| - 1], events[|events| - 1];
      assert events == before + [last];
      RunOneMore(v, before, last);
      if e in Run(v, before).relates {
        EdgeKeepsFirstTime(v, before, e);
        KeepsTime(v, Run(v, before), last, e);
        var i: nat :| FirstSupport(v, before, i, e) && before[i].now == Run(v, before).relates[e].createdAt;
        FirstExtends(v, before, last, i, e);
      } else {
        NewTime(v, Run(v, before), last, e);
        FirstIsLast(v, before, last, e);
      }
    }
  }

  lemma KeepsTime(v: Vocab, g: Graph, last: Event, e: Triple)
    requires e in g.relates
    ensures e in Apply(v, g, last).relates && Apply(v, g, last).relates[e].createdAt == g.relates[e].createdAt
  {
    if last.Relate? && HasEnds(g, Asserted(v, last)) {
      AssertionWrites(v, g, Asserted(v, last), last.confidence, last.now, e);
    }
  }

  lemma NewTime(v: Vocab, g: Graph, last: Event, e: Triple)
    requires e !in g.relates && e in Apply(v, g, last).relates
    ensures last.Relate? && Apply(v, g, last).relates[e].createdAt == last.now
  {
    if last.Relate? && HasEnds(g, Asserted(v, last)) {
      AssertionWrites(v, g, Asserted(v, last), last.confidence, last.now, e);
    }
  }

  // ---------------------------------------------------------------- closure

  lemma AssertedIsCanonical(v: Vocab, e: Event)
    requires WellFormed(v) && e.Relate?
    ensures Asserted(v, e).pred in Canonical(v)
  {
    PredicateIsCanonical(v, e.rawPredicate);
  }

  /** In a coherent vocabulary an assertion stores the consequences of whatever it stores. */
  lemma EntailsConsequence(v: Vocab, a: Triple, e: Triple, m: Triple)
    requires Coherent(v) && a.pred in Canonical(v)
    requires Entails(v, a, e) && Consequence(v, e, m)
    ensures Entails(v, a, m)
  {
    assert CoherentAt(v, a.pred);
  }

  lemma ConsequenceSymmetric(v: Vocab, e: Triple, m: Triple)
    requires Consequence(v, e, m)
    ensures Consequence(v, m, e)
  {
  }

  lemma SupportsConsequence(v: Vocab, events: seq<Event>, i: nat, e: Triple, m: Triple)
    requires WellFormed(v) && Coherent(v) && Consequence(v, e, m)
    ensures Supports(v, events, i, e) <==> Supports(v, events, i, m)
  {
    if i < |events| && events[i].Relate? {
      var a := Asserted(v, events[i]);
      AssertedIsCanonical(v, events[i]);
      if Entails(v, a, e) { EntailsConsequence(v, a, e, m); }
      if Entails(v, a, m) {
        ConsequenceSymmetric(v, e, m);
        EntailsConsequence(v, a, m, e);
      }
    }
  }

  lemma SameSupportSameConfidence(v: Vocab, events: seq<Event>, e: Triple, m: Triple)
    requires BestSupported(v, events, e) && BestSupported(v, events, m)
    requires forall i: nat :: Supports(v, events, i, e) <==> Supports(v, events, i, m)
    ensures var relates := Run(v, events).relates;
            e in relates ==> m in relates && relates[m].confidence == relates[e].confidence
  {
    var relates := Run(v, events).relates;
    if e in relates {
      var i: nat :| Supports(v, events, i, e) && events[i].confidence == relates[e].confidence;
      assert Supports(v, events, i, m) && m in relates;
      var j: nat :| Supports(v, events, j, m) && events[j].confidence == relates[m].confidence;
      assert Supports(v, events, j, e);
      assert events[j].confidence <= relates[e].confidence && events[i].confidence <= relates[m].confidence;
    }
  }

  lemma CoherentRunsAreClosed(v: Vocab, events: seq<Event>)
    requires WellFormed(v) && Coherent(v)
    ensures Closed(v, Run(v, events).relates)
  {
    var relates := Run(v, events).relates;
    forall e, m | e in relates && Consequence(v, e, m)
      ensures m in relates && relates[m].confidence == relates[e].confidence
    {
      ConfidenceIsBestSupport(v, events, e);
      ConfidenceIsBestSupport(v, events, m);
      forall i: nat ensures Supports(v, events, i, e) <==> Supports(v, events, i, m) {
        SupportsConsequence(v, events, i, e, m);
      }
      SameSupportSameConfidence(v, events, e, m);
    }
  }

  /**
   Over every run of a coherent vocabulary, by the tables: an edge under a predicate declared symmetric or
   its own inverse is there exactly when its reverse is, and an edge under a predicate with another declared
   inverse exactly when the edge back under that one is, at equal confidence.
   */
  lemma CoherentRunsMirror(v: Vocab, events: seq<Event>, a: string, p: string, b: string)
    requires WellFormed(v) && Coherent(v)
    ensures var relates := Run(v, events).relates;
            && (p in v.symmetric || (p in v.inverses && v.inverses[p] == p) ==>
                  && (Triple(a, p, b) in relates <==> Triple(b, p, a) in relates)
                  && (Triple(a, p, b) in relates ==>
                        relates[Triple(a, p, b)].confidence == relates[Triple(b, p, a)].confidence))
            && (p in v.inverses && v.inverses[p] != "" ==>
                  var q := v.inverses[p];
                  && (Triple(a, p, b) in relates <==> Triple(b, q, a) in relates)
                  && (Triple(a, p, b) in relates ==>
                        relates[Triple(a, p, b)].confidence == relates[Triple(b, q, a)].confidence))
  {
    var relates := Run(v, events).relates;
    CoherentRunsAreClosed(v, events);
    var e := Triple(a, p, b);
    if p in v.symmetric || (p in v.inverses && v.inverses[p] == p) {
      assert Consequence(v, e, Triple(b, p, a)) && Consequence(v, Triple(b, p, a), e);
    }
    if p in v.inverses && v.inverses[p] != "" {
      var q := v.inverses[p];
      assert Consequence(v, e, Triple(b, q, a)) && Consequence(v, Triple(b, q, a), e);
    }
  }

  /** Two nodes and one assertion between them, the run that shows where a vocabulary is incoherent. */
  function Probe(raw: string): seq<Event> {
    var u := NodeUpdate("g", "Thing", "", "", [], "", 0.0);
    [Upsert("a", u), Upsert("b", u), Relate("a", raw, "b", 1.0, 0.0)]
  }

  lemma UpsertAddsKey(v: Vocab, g: Graph, key: string, u: NodeUpdate)
    requires WellFormed(v) && IsKey(key) && key != ""
    ensures var g' := UpsertSpec(v, g, key, u); g'.relates == g.relates && g'.nodes.Keys == g.nodes.Keys + {key}
  {
    NormalizeFixpoints(v.tables, key);
  }

  lemma ProbeNodes(v: Vocab)
    requires WellFormed(v)
    ensures var g := Run(v, Probe("")[..2]); g.relates == map[] && g.nodes.Keys == {"a", "b"}
  {
    var events := Probe("");
    var u := events[0].update;
    assert events[..2] == [] + [events[0]] + [events[1]];
    RunOneMore(v, [], events[0]);
    RunOneMore(v, [] + [events[0]], events[1]);
    UpsertAddsKey(v, EMPTY, "a", u);
    UpsertAddsKey(v, UpsertSpec(v, EMPTY, "a", u), "b", u);
  }

  lemma ProbeEdges(v: Vocab, raw: string, e: Triple)
    requires WellFormed(v)
    ensures e in Run(v, Probe(raw)).relates <==> Entails(v, Triple("a", NormalizePredicate(v, raw), "b"), e)
  {
    var events := Probe(raw);
    ProbeNodes(v);
    assert events[..2] == Probe("")[..2] && events == events[..2] + [events[2]];
    RunOneMore(v, events[..2], events[2]);
    StoreEffect(v, Run(v, events[..2]), Asserted(v, events[2]), 1.0, 0.0, e);
  }

  lemma ClosedProbeIsCoherent(v: Vocab, raw: string)
    requires WellFormed(v)
    requires Closed(v, Run(v, Probe(raw)).relates)
    ensures CoherentAt(v, NormalizePredicate(v, raw))
  {
    var p := NormalizePredicate(v, raw);
    var a := Triple("a", p, "b");
    var relates := Run(v, Probe(raw)).relates;
    forall e ensures e in relates <==> Entails(v, a, e) { ProbeEdges(v, raw, e); }
    assert a in relates;
    forall q | HasInverse(v, q, p) && q != p ensures HasInverse(v, p, q) {
      assert Consequence(v, a, Mirror(a, q));
    }
    forall q | HasInverse(v, p, q) && q != p
      ensures !IsSymmetric(v, p) && !IsSymmetric(v, q) && forall r :: Inverse(v, q, r) ==> r == p
    {
      var m := Mirror(a, q);
      assert m in relates;
      if IsSymmetric(v, p) {
        assert Mirror(a, p) in relates && Consequence(v, Mirror(a, p), Mirror(Mirror(a, p), q));
      }
      if IsSymmetric(v, q) {
        assert Consequence(v, m, Mirror(m, q));
      }
      forall r | Inverse(v, q, r) ensures r == p {
        assert Consequence(v, m, Mirror(m, r));
      }
    }
  }

  ghost predicate ClosedOverAllRuns(v: Vocab) {
    forall events :: Closed(v, Run(v, events).relates)
  }

  /**
   Write-time inference keeps the graph closed under symmetric and inverse predicates over every run
   exactly when the vocabulary is coherent.
   */
  lemma ClosedOverAllRunsIff(v: Vocab)
    requires WellFormed(v)
    ensures ClosedOverAllRuns(v) <==> Coherent(v)
  {
    if Coherent(v) {
      forall events ensures Closed(v, Run(v, events).relates) { CoherentRunsAreClosed(v, events); }
    }
    if ClosedOverAllRuns(v) {
      forall p | p in Canonical(v) ensures CoherentAt(v, p) {
        NormalizePredicateRange(v, p);
        var raw :| NormalizePredicate(v, raw) == p;
        assert Closed(v, Run(v, Probe(raw)).relates);
        ClosedProbeIsCoherent(v, raw);
      }
    }
  }
}
