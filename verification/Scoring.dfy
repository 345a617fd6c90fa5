/**
 Blended retrieval scores (src/memory_service/storage/retrieval/scoring.py): semantic similarity,
 freshness and Hebbian activation, over reals, with the logarithm a parameter.
 */
module Scoring {
  import opened Basics

  /** A search result. The three optional fields are the diagnostics the scoring passes attach. */
  datatype Hit = Hit(uuid: string, score: real, createdAt: real, activationCount: int,
                     semantic: Option<real>, freshness: Option<real>, boost: Option<real>)

  datatype Params = Params(alpha: real, beta: real, halfLifeHours: real, maxCount: int, coWeights: map<string, real>)

  /** The laws of the logarithm that activation strength rests on. */
  ghost predicate LogLaws(log: real -> real) {
    && log(1.0) == 0.0
    && (forall a: real, b: real :: 0.0 < a < b ==> log(a) < log(b))
  }

  const DEFAULT_MAX_COUNT := 100

  function Age(createdAt: real, now: real): real {
    RMax(0.0, (now - createdAt) / 3600.0)
  }

  /** Hyperbolic freshness; an absent or non-positive creation time counts as not fresh at all. */
  function Freshness(createdAt: real, halfLifeHours: real, now: real): real
    requires halfLifeHours > 0.0
  {
    1.0 / (1.0 + Age(createdAt, now) / halfLifeHours)
  }

  function ActivationStrength(log: real -> real, count: int, maxCount: int): real
    requires LogLaws(log)
  {
    if count <= 0 then 0.0
    else
      var most := if maxCount <= 0 then DEFAULT_MAX_COUNT else maxCount;
      assert log(1.0) < log(1.0 + most as real);
      var raw := log(1.0 + count as real) / log(1.0 + most as real);
      if raw < 1.0 then raw else 1.0
  }

  function HebbianBoost(log: real -> real, count: int, coWeight: real, maxCount: int): real
    requires LogLaws(log)
  {
    0.5 * ActivationStrength(log, count, maxCount) + 0.5 * Clamp(coWeight)
  }

  /** beta is cut back when alpha + beta exceeds 1. */
  function EffectiveBeta(p: Params): real {
    if p.alpha + p.beta > 1.0 then RMax(0.0, 1.0 - p.alpha) else p.beta
  }

  function Blend(alpha: real, beta: real, semantic: real, freshness: real, boost: real): real {
    (1.0 - alpha - beta) * semantic + alpha * freshness + beta * boost
  }

  function HitFreshness(p: Params, h: Hit, now: real): real
    requires p.halfLifeHours > 0.0
  {
    if h.createdAt > 0.0 then Freshness(h.createdAt, p.halfLifeHours, now) else 0.0
  }

  function CoWeight(p: Params, h: Hit): real {
    if h.uuid in p.coWeights then p.coWeights[h.uuid] else 0.0
  }

  function HitBoost(log: real -> real, p: Params, h: Hit): real
    requires LogLaws(log)
  {
    HebbianBoost(log, h.activationCount, CoWeight(p, h), p.maxCount)
  }

  function HebbianHit(log: real -> real, p: Params, now: real, h: Hit): Hit
    requires LogLaws(log) && p.halfLifeHours > 0.0
  {
    var f, b := HitFreshness(p, h, now), HitBoost(log, p, h);
    h.(semantic := Some(h.score), freshness := Some(f), boost := Some(b),
       score := Blend(p.alpha, EffectiveBeta(p), h.score, f, b))
  }

  /** Without a positive creation time the score is left as it is. */
  function TemporalHit(p: Params, now: real, h: Hit): Hit
    requires p.halfLifeHours > 0.0
  {
    if h.createdAt <= 0.0 then h.(semantic := Some(h.score), freshness := Some(0.0))
    else
      var f := Freshness(h.createdAt, p.halfLifeHours, now);
      h.(semantic := Some(h.score), freshness := Some(f), score := (1.0 - p.alpha) * h.score + p.alpha * f)
  }

  function HebbianHits(log: real -> real, p: Params, now: real, hits: seq<Hit>): (r: seq<Hit>)
    requires LogLaws(log) && p.halfLifeHours > 0.0
    ensures |r| == |hits| && forall i :: 0 <= i < |hits| ==> r[i] == HebbianHit(log, p, now, hits[i])
  {
    seq(|hits|, i requires 0 <= i < |hits| => HebbianHit(log, p, now, hits[i]))
  }

  function TemporalHits(p: Params, now: real, hits: seq<Hit>): (r: seq<Hit>)
    requires p.halfLifeHours > 0.0
    ensures |r| == |hits| && forall i :: 0 <= i < |hits| ==> r[i] == TemporalHit(p, now, hits[i])
  {
    seq(|hits|, i requires 0 <= i < |hits| => TemporalHit(p, now, hits[i]))
  }

  // ---------------------------------------------------------------- sorting

  predicate Descending(hits: seq<Hit>) {
    forall i, j :: 0 <= i < j < |hits| ==> hits[i].score >= hits[j].score
  }

  function Insert(h: Hit, hits: seq<Hit>): seq<Hit> {
    if hits == [] then [h]
    else if h.score >= hits[0].score then [h] + hits
    else [hits[0]] + Insert(h, hits[1..])
  }

  /** A stable sort by descending score, as list.sort with reverse=True. */
  function SortDescending(hits: seq<Hit>): seq<Hit> {
    if hits == [] then [] else Insert(hits[0], SortDescending(hits[1..]))
  }

  /** The hits with one given score, in order. */
  function WithScore(hits: seq<Hit>, score: real): seq<Hit> {
    if hits == [] then []
    else (if hits[0].score == score then [hits[0]] else []) + WithScore(hits[1..], score)
  }

  lemma {:induction false} InsertAdds(h: Hit, hits: seq<Hit>)
    ensures multiset(Insert(h, hits)) == multiset{h} + multiset(hits)
  {
    if hits != [] && h.score < hits[0].score {
      InsertAdds(h, hits[1..]);
      assert hits == [hits[0]] + hits[1..];
    }
  }

  predicate AllAtMost(hits: seq<Hit>, score: real) {
    forall i :: 0 <= i < |hits| ==> hits[i].score <= score
  }

  lemma {:induction false} InsertAtMost(h: Hit, hits: seq<Hit>, score: real)
    requires h.score <= score && AllAtMost(hits, score)
    ensures AllAtMost(Insert(h, hits), score)
  {
    if hits != [] && h.score < hits[0].score {
      InsertAtMost(h, hits[1..], score);
    }
  }

  lemma {:induction false} InsertSorts(h: Hit, hits: seq<Hit>)
    requires Descending(hits)
    ensures Descending(Insert(h, hits))
  {
    if hits != [] && h.score < hits[0].score {
      InsertSorts(h, hits[1..]);
      InsertAtMost(h, hits[1..], hits[0].score);
    }
  }

  lemma {:induction false} SortSorts(hits: seq<Hit>)
    ensures Descending(SortDescending(hits))
    ensures multiset(SortDescending(hits)) == multiset(hits)
    ensures |SortDescending(hits)| == |hits|
  {
    if hits != [] {
      SortSorts(hits[1..]);
      InsertSorts(hits[0], SortDescending(hits[1..]));
      InsertAdds(hits[0], SortDescending(hits[1..]));
      assert hits == [hits[0]] + hits[1..];
      assert multiset(SortDescending(hits)) == multiset(hits);
    }
    assert |multiset(SortDescending(hits))| == |multiset(hits)|;
  }

  lemma WithScoreCons(h: Hit, hits: seq<Hit>, score: real)
    ensures WithScore([h] + hits, score) == (if h.score == score then [h] else []) + WithScore(hits, score)
  {
    assert ([h] + hits)[1..] == hits;
  }

  lemma {:induction false} InsertStable(h: Hit, hits: seq<Hit>, score: real)
    ensures WithScore(Insert(h, hits), score) == WithScore([h], score) + WithScore(hits, score)
  {
    if hits == [] {
      assert WithScore([h], score) + [] == WithScore([h], score);
    } else if h.score >= hits[0].score {
      WithScoreCons(h, hits, score);
      WithScoreCons(h, [], score);
    } else {
      var first, rest := hits[0], hits[1..];
      assert hits == [first] + rest;
      WithScoreCons(first, Insert(h, rest), score);
      WithScoreCons(first, rest, score);
      WithScoreCons(h, [], score);
      InsertStable(h, rest, score);
      if h.score == score {
        assert WithScore(hits, score) == [] + WithScore(rest, score) == WithScore(rest, score);
      } else {
        assert WithScore([h], score) == [];
      }
    }
  }

  /** Hits of equal score keep their order. */
  lemma {:induction false} SortStable(hits: seq<Hit>, score: real)
    ensures WithScore(SortDescending(hits), score) == WithScore(hits, score)
  {
    if hits != [] {
      SortStable(hits[1..], score);
      InsertStable(hits[0], SortDescending(hits[1..]), score);
      WithScoreCons(hits[0], hits[1..], score);
      WithScoreCons(hits[0], [], score);
      assert hits == [hits[0]] + hits[1..];
    }
  }

  // ---------------------------------------------------------------- the two passes

  method ApplyTemporalScore(results: array<Hit>, p: Params, now: real)
    requires p.halfLifeHours > 0.0
    modifies results
    ensures results[..] == SortDescending(TemporalHits(p, now, old(results[..])))
  {
    ghost var hits := results[..];
    for i := 0 to results.Length
      invariant forall k :: 0 <= k < i ==> results[k] == TemporalHit(p, now, hits[k])
      invariant forall k :: i <= k < results.Length ==> results[k] == hits[k]
    {
      results[i] := TemporalHit(p, now, results[i]);
    }
    assert results[..] == TemporalHits(p, now, hits);
    SortInPlace(results);
  }

  method ApplyHebbianScore(results: array<Hit>, log: real -> real, p: Params, now: real)
    requires LogLaws(log) && p.halfLifeHours > 0.0
    modifies results
    ensures results[..] == SortDescending(HebbianHits(log, p, now, old(results[..])))
  {
    ghost var hits := results[..];
    for i := 0 to results.Length
      invariant forall k :: 0 <= k < i ==> results[k] == HebbianHit(log, p, now, hits[k])
      invariant forall k :: i <= k < results.Length ==> results[k] == hits[k]
    {
      results[i] := HebbianHit(log, p, now, results[i]);
    }
    assert results[..] == HebbianHits(log, p, now, hits);
    SortInPlace(results);
  }

  /** The built-in sort. */
  method SortInPlace(results: array<Hit>)
    modifies results
    ensures results[..] == SortDescending(old(results[..]))
  {
    var sorted := SortDescending(results[..]);
    SortSorts(results[..]);
    forall i | 0 <= i < results.Length {
      results[i] := sorted[i];
    }
    assert results[..] == sorted;
  }

  // ---------------------------------------------------------------- bounds and monotonicity

  lemma ReciprocalAntitone(a: real, b: real)
    requires 0.0 < a <= b
    ensures 0.0 < 1.0 / b <= 1.0 / a
  {
    var x, y := 1.0 / a, 1.0 / b;
    assert x * a == 1.0 && y * b == 1.0;
    if y > x {
      ProductPositive(y - x, a);
      ProductNonNegative(y, b - a);
    }
  }

  lemma QuotientMonotone(a: real, b: real, d: real)
    requires d > 0.0 && a <= b
    ensures a / d <= b / d
    ensures a >= 0.0 ==> a / d >= 0.0
  {
  }

  lemma FreshnessLandmarks(halfLife: real, now: real)
    requires halfLife > 0.0
    ensures Freshness(now, halfLife, now) == 1.0
    ensures Freshness(now - 3600.0 * halfLife, halfLife, now) == 0.5
    ensures Freshness(now - 7200.0 * halfLife, halfLife, now) == 1.0 / 3.0
  {
    assert halfLife / halfLife == 1.0;
    assert (2.0 * halfLife) / halfLife == 2.0;
    assert Age(now - 3600.0 * halfLife, now) == halfLife;
    assert Age(now - 7200.0 * halfLife, now) == 2.0 * halfLife;
    assert 0.0 / halfLife == 0.0;
  }

  /** Freshness lies in (0, 1] and does not grow with age: 1 now, one half after a half-life, a third after two. */
  lemma FreshnessAntitone(older: real, newer: real, halfLife: real, now: real)
    requires halfLife > 0.0 && older <= newer
    ensures 0.0 < Freshness(older, halfLife, now) <= Freshness(newer, halfLife, now) <= 1.0
    ensures Freshness(now, halfLife, now) == 1.0 && Freshness(now - 3600.0 * halfLife, halfLife, now) == 0.5
    ensures Freshness(now - 7200.0 * halfLife, halfLife, now) == 1.0 / 3.0
  {
    FreshnessLandmarks(halfLife, now);
    var a, b := Age(newer, now), Age(older, now);
    QuotientMonotone(a, b, halfLife);
    QuotientMonotone(0.0, a, halfLife);
    ReciprocalAntitone(1.0 + a / halfLife, 1.0 + b / halfLife);
    ReciprocalAntitone(1.0, 1.0 + a / halfLife);
  }

  lemma SaturatedStrength(log: real -> real, maxCount: int)
    requires LogLaws(log) && maxCount > 0
    ensures ActivationStrength(log, maxCount, maxCount) == 1.0
  {
    var top := log(1.0 + maxCount as real);
    assert log(1.0) < top;
    assert top / top == 1.0;
  }

  /** Activation strength lies in [0, 1] and does not fall with the count. */
  lemma StrengthMonotone(log: real -> real, fewer: int, more: int, maxCount: int)
    requires LogLaws(log) && fewer <= more
    ensures 0.0 <= ActivationStrength(log, fewer, maxCount) <= ActivationStrength(log, more, maxCount) <= 1.0
  {
    var most := if maxCount <= 0 then DEFAULT_MAX_COUNT else maxCount;
    var top := log(1.0 + most as real);
    assert log(1.0) < top;
    if more > 0 {
      QuotientMonotone(0.0, log(1.0 + more as real), top) by { assert log(1.0) < log(1.0 + more as real); }
      if fewer > 0 {
        assert log(1.0) < log(1.0 + fewer as real);
        assert fewer < more ==> log(1.0 + fewer as real) < log(1.0 + more as real);
        QuotientMonotone(log(1.0 + fewer as real), log(1.0 + more as real), top);
      }
    }
  }

  /**
   The boost lies in [0, 1] and falls with neither part; the two contribute half each, saturating
   at the maximum count.
   */
  lemma BoostMonotone(log: real -> real, fewer: int, more: int, lower: real, higher: real, maxCount: int)
    requires LogLaws(log) && fewer <= more && lower <= higher
    ensures 0.0 <= HebbianBoost(log, fewer, lower, maxCount) <= HebbianBoost(log, more, higher, maxCount) <= 1.0
    ensures maxCount > 0 && more >= maxCount && lower <= 0.0 ==> HebbianBoost(log, more, lower, maxCount) == 0.5
    ensures fewer <= 0 && higher >= 1.0 ==> HebbianBoost(log, fewer, higher, maxCount) == 0.5
    ensures fewer <= 0 && lower <= 0.0 ==> HebbianBoost(log, fewer, lower, maxCount) == 0.0
    ensures maxCount > 0 && more >= maxCount && higher >= 1.0 ==> HebbianBoost(log, more, higher, maxCount) == 1.0
  {
    StrengthMonotone(log, fewer, more, maxCount);
    if 0 < maxCount <= more {
      StrengthMonotone(log, maxCount, more, maxCount);
      SaturatedStrength(log, maxCount);
    }
  }

  lemma BlendMonotone(alpha: real, beta: real, s: real, f: real, b: real, s': real, f': real, b': real)
    requires alpha >= 0.0 && beta >= 0.0 && alpha + beta <= 1.0
    requires s <= s' && f <= f' && b <= b'
    ensures Blend(alpha, beta, s, f, b) <= Blend(alpha, beta, s', f', b')
  {
    ProductNonNegative(1.0 - alpha - beta, s' - s);
    ProductNonNegative(alpha, f' - f);
    ProductNonNegative(beta, b' - b);
  }

  lemma BlendOfEqual(alpha: real, beta: real, x: real)
    ensures Blend(alpha, beta, x, x, x) == x
  {
  }

  predicate SoundParams(p: Params) {
    0.0 <= p.alpha <= 1.0 && p.beta >= 0.0 && p.halfLifeHours > 0.0
  }

  /** The three weights are non-negative and add up to 1, also after beta is cut back. */
  lemma WeightsAreConvex(p: Params)
    requires SoundParams(p)
    ensures EffectiveBeta(p) >= 0.0 && p.alpha + EffectiveBeta(p) <= 1.0
    ensures EffectiveBeta(p) <= p.beta
  {
  }

  lemma FactorsInUnit(log: real -> real, p: Params, now: real, h: Hit)
    requires LogLaws(log) && SoundParams(p)
    ensures 0.0 <= HitFreshness(p, h, now) <= 1.0 && 0.0 <= HitBoost(log, p, h) <= 1.0
  {
    FreshnessAntitone(h.createdAt, h.createdAt, p.halfLifeHours, now);
    BoostMonotone(log, h.activationCount, h.activationCount, CoWeight(p, h), CoWeight(p, h), p.maxCount);
  }

  /** Scores of semantic scores in [0, 1] lie in [0, 1]. */
  lemma ScoreInUnit(log: real -> real, p: Params, now: real, h: Hit)
    requires LogLaws(log) && SoundParams(p) && 0.0 <= h.score <= 1.0
    ensures 0.0 <= HebbianHit(log, p, now, h).score <= 1.0
  {
    var f, b, beta := HitFreshness(p, h, now), HitBoost(log, p, h), EffectiveBeta(p);
    FactorsInUnit(log, p, now, h);
    WeightsAreConvex(p);
    BlendMonotone(p.alpha, beta, 0.0, 0.0, 0.0, h.score, f, b);
    BlendMonotone(p.alpha, beta, h.score, f, b, 1.0, 1.0, 1.0);
    BlendOfEqual(p.alpha, beta, 0.0);
    BlendOfEqual(p.alpha, beta, 1.0);
  }

  /** A hit at least as similar, recent, active and co-activated as another never scores below it. */
  lemma DominanceKeepsRank(log: real -> real, p: Params, now: real, h: Hit, better: Hit)
    requires LogLaws(log) && SoundParams(p)
    requires h.score <= better.score && h.createdAt <= better.createdAt
    requires h.activationCount <= better.activationCount && CoWeight(p, h) <= CoWeight(p, better)
    ensures HebbianHit(log, p, now, h).score <= HebbianHit(log, p, now, better).score
  {
    FreshnessAntitone(h.createdAt, better.createdAt, p.halfLifeHours, now);
    BoostMonotone(log, h.activationCount, better.activationCount, CoWeight(p, h), CoWeight(p, better), p.maxCount);
    WeightsAreConvex(p);
    BlendMonotone(p.alpha, EffectiveBeta(p), h.score, HitFreshness(p, h, now), HitBoost(log, p, h),
                  better.score, HitFreshness(p, better, now), HitBoost(log, p, better));
  }

  /** The Hebbian pass returns its input rescored, descending, with all scores in [0, 1]. */
  lemma HebbianResult(log: real -> real, p: Params, now: real, hits: seq<Hit>)
    requires LogLaws(log) && SoundParams(p)
    requires forall i :: 0 <= i < |hits| ==> 0.0 <= hits[i].score <= 1.0
    ensures var r := SortDescending(HebbianHits(log, p, now, hits));
            && Descending(r)
            && multiset(r) == multiset(HebbianHits(log, p, now, hits))
            && (forall h :: h in r ==> 0.0 <= h.score <= 1.0)
  {
    var scored := HebbianHits(log, p, now, hits);
    var r := SortDescending(scored);
    SortSorts(scored);
    forall h | h in r ensures 0.0 <= h.score <= 1.0 {
      assert h in multiset(scored);
      var i :| 0 <= i < |scored| && scored[i] == h;
      ScoreInUnit(log, p, now, hits[i]);
    }
  }

  // ---------------------------------------------------------------- what each factor counts for

  /** The weight of the boost: beta, or what alpha leaves when the two add up to more than 1. */
  function BoostWeight(alpha: real, beta: real): real {
    if alpha + beta <= 1.0 then beta else if alpha <= 1.0 then 1.0 - alpha else 0.0
  }

  /** A hit without a creation time, activation and co-activation keeps the semantic share of its score. */
  lemma BareScore(log: real -> real, p: Params, now: real, h: Hit)
    requires LogLaws(log) && p.halfLifeHours > 0.0
    requires h.createdAt <= 0.0 && h.activationCount <= 0 && h.uuid !in p.coWeights
    ensures HebbianHit(log, p, now, h).score == (1.0 - p.alpha - BoostWeight(p.alpha, p.beta)) * h.score
  {
    var beta := EffectiveBeta(p);
    assert HebbianBoost(log, h.activationCount, CoWeight(p, h), p.maxCount) == 0.0;
    assert p.alpha * 0.0 == 0.0 && beta * 0.0 == 0.0;
  }

  lemma BlendSemantic(alpha: real, beta: real, s: real, s': real, f: real, b: real)
    ensures Blend(alpha, beta, s', f, b) - Blend(alpha, beta, s, f, b) == (1.0 - alpha - beta) * (s' - s)
  {
  }

  lemma BlendFreshness(alpha: real, beta: real, s: real, f: real, f': real, b: real)
    ensures Blend(alpha, beta, s, f', b) - Blend(alpha, beta, s, f, b) == alpha * (f' - f)
  {
  }

  lemma BlendBoost(alpha: real, beta: real, s: real, f: real, b: real, b': real)
    ensures Blend(alpha, beta, s, f, b') - Blend(alpha, beta, s, f, b) == beta * (b' - b)
  {
  }

  /** Hits that differ only in their semantic score differ by its share. */
  lemma SemanticCounts(log: real -> real, p: Params, now: real, h: Hit, other: Hit)
    requires LogLaws(log) && p.halfLifeHours > 0.0
    requires other == h.(score := other.score)
    ensures HebbianHit(log, p, now, other).score - HebbianHit(log, p, now, h).score
         == (1.0 - p.alpha - BoostWeight(p.alpha, p.beta)) * (other.score - h.score)
    ensures HebbianHit(log, p, now, other).semantic == Some(other.score)
  {
    BlendSemantic(p.alpha, EffectiveBeta(p), h.score, other.score, HitFreshness(p, h, now), HitBoost(log, p, h));
  }

  /** Hits that differ only in their creation time differ by alpha times the difference of the attached freshness. */
  lemma FreshnessCounts(log: real -> real, p: Params, now: real, h: Hit, other: Hit)
    requires LogLaws(log) && p.halfLifeHours > 0.0
    requires other == h.(createdAt := other.createdAt)
    ensures var a, b := HebbianHit(log, p, now, h), HebbianHit(log, p, now, other);
            && a.freshness.Some? && b.freshness.Some?
            && b.score - a.score == p.alpha * (b.freshness.value - a.freshness.value)
  {
    var f, f' := HitFreshness(p, h, now), HitFreshness(p, other, now);
    BlendFreshness(p.alpha, EffectiveBeta(p), h.score, f, f', HitBoost(log, p, h));
  }

  /** The freshness attached: hours of age against the half-life, and 0 without a creation time. */
  lemma FreshnessByAge(log: real -> real, p: Params, now: real, h: Hit)
    requires LogLaws(log) && p.halfLifeHours > 0.0
    ensures var f := HebbianHit(log, p, now, h).freshness;
            && f.Some?
            && (h.createdAt <= 0.0 ==> f.value == 0.0)
            && (h.createdAt > 0.0 && h.createdAt >= now ==> f.value == 1.0)
            && (h.createdAt > 0.0 && h.createdAt <= now ==>
                  f.value * (p.halfLifeHours + (now - h.createdAt) / 3600.0) == p.halfLifeHours)
  {
    if h.createdAt > 0.0 {
      var age := RMax(0.0, (now - h.createdAt) / 3600.0);
      HyperbolaIdentity(age, p.halfLifeHours, Freshness(h.createdAt, p.halfLifeHours, now));
      assert h.createdAt >= now ==> age == 0.0 && 0.0 / p.halfLifeHours == 0.0;
    }
  }

  lemma HyperbolaIdentity(age: real, halfLife: real, f: real)
    requires halfLife > 0.0 && age >= 0.0 && f == 1.0 / (1.0 + age / halfLife)
    ensures f * (halfLife + age) == halfLife
  {
    QuotientMonotone(0.0, age, halfLife);
    var x := age / halfLife;
    assert x * halfLife == age;
    var y := 1.0 + x;
    assert f * y == 1.0;
    assert halfLife + age == y * halfLife;
    assert f * (y * halfLife) == (f * y) * halfLife;
  }

  /** Hits of equal semantic score and creation time differ by the boost's share of what their boosts differ by. */
  lemma BoostCounts(log: real -> real, p: Params, now: real, h: Hit, other: Hit, b: real, b': real)
    requires LogLaws(log) && p.halfLifeHours > 0.0
    requires h.score == other.score && h.createdAt == other.createdAt
    requires HebbianHit(log, p, now, h).boost == Some(b) && HebbianHit(log, p, now, other).boost == Some(b')
    ensures HebbianHit(log, p, now, other).score - HebbianHit(log, p, now, h).score
         == BoostWeight(p.alpha, p.beta) * (b' - b)
  {
    ScoreOf(log, p, now, h, b);
    ScoreOf(log, p, now, other, b');
    BlendBoost(p.alpha, BoostWeight(p.alpha, p.beta), h.score, HitFreshness(p, h, now), b, b');
  }

  lemma ScoreOf(log: real -> real, p: Params, now: real, h: Hit, b: real)
    requires LogLaws(log) && p.halfLifeHours > 0.0 && HebbianHit(log, p, now, h).boost == Some(b)
    ensures HebbianHit(log, p, now, h).score
         == Blend(p.alpha, BoostWeight(p.alpha, p.beta), h.score, HitFreshness(p, h, now), b)
  {
  }

  /** The boost attached, from the strength and the co-activation weight. */
  lemma BoostIsMean(log: real -> real, p: Params, now: real, h: Hit, strength: real, weight: real)
    requires LogLaws(log) && p.halfLifeHours > 0.0
    requires strength == ActivationStrength(log, h.activationCount, p.maxCount) && weight == Clamp(CoWeight(p, h))
    ensures HebbianHit(log, p, now, h).boost == Some(0.5 * strength + 0.5 * weight)
  {
  }

  /** Hits that differ only in their co-activation weights, in [0, 1], differ by half the boost's share of that. */
  lemma CoActivationCounts(log: real -> real, p: Params, now: real, h: Hit, other: Hit)
    requires LogLaws(log) && p.halfLifeHours > 0.0
    requires h.score == other.score && h.createdAt == other.createdAt && h.activationCount == other.activationCount
    requires h.uuid in p.coWeights && 0.0 <= p.coWeights[h.uuid] <= 1.0
    requires other.uuid in p.coWeights && 0.0 <= p.coWeights[other.uuid] <= 1.0
    ensures HebbianHit(log, p, now, other).score - HebbianHit(log, p, now, h).score
         == 0.5 * BoostWeight(p.alpha, p.beta) * (p.coWeights[other.uuid] - p.coWeights[h.uuid])
  {
    var st := ActivationStrength(log, h.activationCount, p.maxCount);
    var u, w := p.coWeights[h.uuid], p.coWeights[other.uuid];
    BoostIsMean(log, p, now, h, st, u);
    BoostIsMean(log, p, now, other, st, w);
    BoostCounts(log, p, now, h, other, 0.5 * st + 0.5 * u, 0.5 * st + 0.5 * w);
    HalfProduct(BoostWeight(p.alpha, p.beta), w - u, 0.5 * st + 0.5 * w - (0.5 * st + 0.5 * u));
  }

  lemma HalfProduct(beta: real, d: real, half: real)
    requires half == 0.5 * d
    ensures beta * half == 0.5 * beta * d
  {
  }

  /**
   Activations, up to the maximum, raise a score by half the boost's share of their logarithm, relative to that
   of the maximum, which is 100 if none is given.
   */
  lemma ActivationCounts(log: real -> real, p: Params, now: real, h: Hit, idle: Hit, most: int)
    requires LogLaws(log) && p.halfLifeHours > 0.0 && most == (if p.maxCount > 0 then p.maxCount else 100)
    requires idle == h.(activationCount := 0) && 0 < h.activationCount <= most
    ensures (HebbianHit(log, p, now, h).score - HebbianHit(log, p, now, idle).score) * log(1.0 + most as real)
         == 0.5 * BoostWeight(p.alpha, p.beta) * log(1.0 + h.activationCount as real)
  {
    var st := ActivationStrength(log, h.activationCount, p.maxCount);
    StrengthCounts(log, p, now, h, idle, st);
    StrengthIsLogarithmic(log, h.activationCount, p.maxCount, most);
    ShareOfLog(HebbianHit(log, p, now, h).score - HebbianHit(log, p, now, idle).score,
               BoostWeight(p.alpha, p.beta), st, log(1.0 + most as real), log(1.0 + h.activationCount as real));
  }

  lemma StrengthCounts(log: real -> real, p: Params, now: real, h: Hit, idle: Hit, st: real)
    requires LogLaws(log) && p.halfLifeHours > 0.0 && idle == h.(activationCount := 0)
    requires st == ActivationStrength(log, h.activationCount, p.maxCount)
    ensures HebbianHit(log, p, now, h).score - HebbianHit(log, p, now, idle).score
         == BoostWeight(p.alpha, p.beta) * (0.5 * st)
  {
    var w := Clamp(CoWeight(p, h));
    BoostIsMean(log, p, now, h, st, w);
    BoostIsMean(log, p, now, idle, 0.0, w);
    BoostCounts(log, p, now, idle, h, 0.5 * w, 0.5 * st + 0.5 * w);
  }

  lemma ShareOfLog(diff: real, weight: real, st: real, top: real, x: real)
    requires diff == weight * (0.5 * st) && st * top == x
    ensures diff * top == 0.5 * weight * x
  {
    assert diff * top == 0.5 * weight * (st * top);
  }

  /** Up to the maximum, strength is the logarithm of one more than the count, relative to that of the maximum. */
  lemma StrengthIsLogarithmic(log: real -> real, count: int, maxCount: int, most: int)
    requires LogLaws(log) && 0 < count <= most && most == (if maxCount > 0 then maxCount else 100)
    ensures ActivationStrength(log, count, maxCount) * log(1.0 + most as real) == log(1.0 + count as real)
  {
    var x, top := log(1.0 + count as real), log(1.0 + most as real);
    assert log(1.0) < top && (count < most ==> x < top);
    var raw := x / top;
    assert raw * top == x;
    if raw >= 1.0 { ProductNonNegative(raw - 1.0, top); }
  }

  /** Semantic 0.6, one half-life old, fully active and co-activated, with alpha 0.1 and beta 0.3: 0.71. */
  lemma WorkedExample(log: real -> real, now: real)
    requires LogLaws(log) && now > 3600.0
    ensures var p := Params(0.1, 0.3, 1.0, 100, map["e" := 1.0]);
            HebbianHit(log, p, now, Hit("e", 0.6, now - 3600.0, 100, None, None, None)).score == 0.71
  {
    FreshnessLandmarks(1.0, now);
    SaturatedStrength(log, 100);
  }

  // ---------------------------------------------------------------- beta = 0

  function WithoutBoost(hits: seq<Hit>): (r: seq<Hit>)
    ensures |r| == |hits| && forall i :: 0 <= i < |hits| ==> r[i] == hits[i].(boost := None)
  {
    seq(|hits|, i requires 0 <= i < |hits| => hits[i].(boost := None))
  }

  lemma {:induction false} SortIgnoresBoost(hits: seq<Hit>)
    ensures WithoutBoost(SortDescending(hits)) == SortDescending(WithoutBoost(hits))
  {
    if hits != [] {
      SortIgnoresBoost(hits[1..]);
      assert WithoutBoost(hits)[1..] == WithoutBoost(hits[1..]);
      InsertIgnoresBoost(hits[0], SortDescending(hits[1..]));
    }
  }

  lemma {:induction false} InsertIgnoresBoost(h: Hit, hits: seq<Hit>)
    ensures WithoutBoost(Insert(h, hits)) == Insert(h.(boost := None), WithoutBoost(hits))
  {
    if hits != [] && h.score < hits[0].score {
      InsertIgnoresBoost(h, hits[1..]);
      assert WithoutBoost(hits)[1..] == WithoutBoost(hits[1..]);
    } else {
      assert WithoutBoost([h] + hits) == [h.(boost := None)] + WithoutBoost(hits);
    }
  }

  /** The two passes treat a hit alike: it has a creation time, or the missing one does not matter. */
  predicate TimeCounts(p: Params, h: Hit) {
    h.createdAt > 0.0 || p.alpha == 0.0 || h.score == 0.0
  }

  lemma ZeroBetaHit(log: real -> real, p: Params, now: real, h: Hit)
    requires LogLaws(log) && SoundParams(p) && p.beta == 0.0
    ensures HebbianHit(log, p, now, h).(boost := None) == TemporalHit(p, now, h).(boost := None) <==> TimeCounts(p, h)
  {
    var f, b := HitFreshness(p, h, now), HitBoost(log, p, h);
    assert EffectiveBeta(p) == 0.0;
    BlendWithoutBoost(p.alpha, h.score, f, b);
    KeepsScore(p.alpha, h.score);
  }

  lemma BlendWithoutBoost(alpha: real, s: real, f: real, b: real)
    ensures Blend(alpha, 0.0, s, f, b) == (1.0 - alpha) * s + alpha * f
  {
    assert 0.0 * b == 0.0;
  }

  lemma KeepsScore(alpha: real, s: real)
    ensures (1.0 - alpha) * s + alpha * 0.0 == s <==> alpha == 0.0 || s == 0.0
  {
    assert (1.0 - alpha) * s == s - alpha * s;
    if alpha != 0.0 && s != 0.0 { assert alpha * s != 0.0; }
  }

  /**
   With beta 0 the Hebbian pass returns the same list as the temporal pass, apart from the boost
   field, exactly when every hit without a creation time scores 0 or alpha is 0.
   */
  lemma ZeroBetaIff(log: real -> real, p: Params, now: real, hits: seq<Hit>)
    requires LogLaws(log) && SoundParams(p) && p.beta == 0.0
    requires forall i, j :: 0 <= i < j < |hits| ==> hits[i].uuid != hits[j].uuid
    ensures WithoutBoost(SortDescending(HebbianHits(log, p, now, hits))) ==
            WithoutBoost(SortDescending(TemporalHits(p, now, hits)))
            <==> forall i :: 0 <= i < |hits| ==> TimeCounts(p, hits[i])
  {
    var x, y := WithoutBoost(HebbianHits(log, p, now, hits)), WithoutBoost(TemporalHits(p, now, hits));
    forall i | 0 <= i < |hits| ensures x[i] == y[i] <==> TimeCounts(p, hits[i]) { ZeroBetaHit(log, p, now, hits[i]); }
    SortIgnoresBoost(HebbianHits(log, p, now, hits));
    SortIgnoresBoost(TemporalHits(p, now, hits));
    assert (forall i :: 0 <= i < |hits| ==> TimeCounts(p, hits[i])) ==> x == y;
    if SortDescending(x) == SortDescending(y) {
      forall i | 0 <= i < |hits| ensures x[i].uuid == hits[i].uuid && y[i].uuid == hits[i].uuid {}
      SameSortSameHits(x, y);
    }
  }

  /** The passes disagree on a list of one hit of score 1 without a creation time. */
  lemma TimelessHitsDiffer(log: real -> real, now: real)
    requires LogLaws(log)
    ensures exists p: Params, hits: seq<Hit> ::
      && SoundParams(p) && p.beta == 0.0 && |hits| == 1 && hits[0].score == 1.0
      && WithoutBoost(SortDescending(HebbianHits(log, p, now, hits)))
         != WithoutBoost(SortDescending(TemporalHits(p, now, hits)))
  {
    var p := Params(0.5, 0.0, 1.0, 100, map[]);
    var hits := [Hit("", 1.0, 0.0, 0, None, None, None)];
    ZeroBetaIff(log, p, now, hits);
    assert !TimeCounts(p, hits[0]);
  }

  /** Two lists with the same distinct identifiers in the same order sort alike only if they are equal. */
  lemma SameSortSameHits(x: seq<Hit>, y: seq<Hit>)
    requires |x| == |y| && (forall i :: 0 <= i < |x| ==> x[i].uuid == y[i].uuid)
    requires forall i, j :: 0 <= i < j < |x| ==> x[i].uuid != x[j].uuid
    requires SortDescending(x) == SortDescending(y)
    ensures forall i :: 0 <= i < |x| ==> x[i] == y[i]
  {
    SortSorts(x);
    SortSorts(y);
    forall i | 0 <= i < |x| ensures x[i] == y[i] {
      assert x[i] in multiset(y);
      var j :| 0 <= j < |y| && y[j] == x[i];
      assert i == j;
    }
  }
}
