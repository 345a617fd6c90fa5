/**
 The causal belief network (src/memory_service/storage/long_term/causal_store.py): claims merged by a
 key built from two canonical names, weighted evidence, and belief revision.
 */
module CausalClaims {
  import opened Basics
  import opened Names

  // ---------------------------------------------------------------- merge keys

  const SEPARATOR := "--"

  function MergeKey(t: CharTables, cause: string, effect: string): string {
    Normalize(t, cause) + SEPARATOR + Normalize(t, effect)
  }

  /** Index of the first double hyphen, or the length of the string. */
  function FirstSeparator(s: string): (n: nat)
    ensures n <= |s|
    ensures n < |s| ==> n + 1 < |s| && s[n] == '-' && s[n + 1] == '-'
    ensures forall i :: 0 <= i < n && i + 1 < |s| ==> !(s[i] == '-' && s[i + 1] == '-')
  {
    if |s| < 2 then |s|
    else if s[0] == '-' && s[1] == '-' then 0
    else 1 + FirstSeparator(s[1..])
  }

  /** Splits a merge key at its first double hyphen. */
  function SplitKey(key: string): (string, string) {
    var n := FirstSeparator(key);
    if n == |key| then (key, "") else (key[..n], key[n + 2..])
  }

  /** The first double hyphen of a merge key is the separator, even when a part is empty. */
  lemma SplitRecoversParts(cause: string, effect: string)
    requires IsKey(cause) && IsKey(effect)
    ensures SplitKey(cause + SEPARATOR + effect) == (cause, effect)
  {
    var key := cause + SEPARATOR + effect;
    var n := FirstSeparator(key);
    assert key[|cause|] == '-' && key[|cause| + 1] == '-';
    assert forall i :: 0 <= i < |cause| ==> key[i] == cause[i];
    assert n == |cause|;
    assert key[..n] == cause && key[n + 2..] == effect;
  }

  /** Two raw pairs share a claim exactly when their names have the same canonical forms. */
  lemma MergeKeyInjective(t: CharTables, cause1: string, effect1: string, cause2: string, effect2: string)
    requires Lawful(t)
    ensures MergeKey(t, cause1, effect1) == MergeKey(t, cause2, effect2) <==>
            Normalize(t, cause1) == Normalize(t, cause2) && Normalize(t, effect1) == Normalize(t, effect2)
    ensures SplitKey(MergeKey(t, cause1, effect1)) == (Normalize(t, cause1), Normalize(t, effect1))
  {
    NormalizeIdempotent(t, cause1);
    NormalizeIdempotent(t, effect1);
    NormalizeIdempotent(t, cause2);
    NormalizeIdempotent(t, effect2);
    SplitRecoversParts(Normalize(t, cause1), Normalize(t, effect1));
    SplitRecoversParts(Normalize(t, cause2), Normalize(t, effect2));
  }

  // ---------------------------------------------------------------- claims

  datatype Status = Active | Weakened | Refuted

  /** The knowledge entries and their confidence, where recorded. */
  type Entries = map<string, Option<real>>

  /** An evidence edge from a knowledge entry. */
  datatype Evidence = Evidence(knowledge: string, weight: real)

  datatype Claim = Claim(
    uuid: string, cause: string, effect: string, mechanism: string, causalType: string,
    confidence: real, certainty: real, evidenceCount: nat, status: Status,
    createdAt: real, updatedAt: real,
    supports: seq<Evidence>, contradicts: seq<Evidence>)

  const REFUTED_BELOW := 0.05
  const WEAKENED_BELOW := 0.2
  const DECAY_PER_HOUR := 0.01
  const DEFAULT_WEIGHT := 0.5
  const CAUSAL_TYPES := {"causes", "enables", "prevents", "inhibits"}

  datatype ClaimInput = ClaimInput(cause: string, effect: string, mechanism: string, confidence: real,
                                   causalType: string)

  /** A new claim starts active; an existing one keeps the longer mechanism and takes the new confidence. */
  function MergedClaim(claims: map<string, Claim>, key: string, c: ClaimInput, freshUuid: string, now: real): Claim {
    if key in claims then
      claims[key].(mechanism := if |c.mechanism| > |claims[key].mechanism| then c.mechanism else claims[key].mechanism,
                   confidence := Clamp(c.confidence), updatedAt := now)
    else Claim(freshUuid, c.cause, c.effect, c.mechanism,
               if c.causalType in CAUSAL_TYPES then c.causalType else "causes",
               Clamp(c.confidence), 0.0, 0, Active, now, now, [], [])
  }

  /** One edge per knowledge entry: a second assertion overwrites the weight. */
  function MergeEvidence(es: seq<Evidence>, e: Evidence): seq<Evidence> {
    if es == [] then [e]
    else if es[0].knowledge == e.knowledge then [e] + es[1..]
    else [es[0]] + MergeEvidence(es[1..], e)
  }

  /** The edge weight: the given one unless it is missing or negative, else the knowledge entry's own confidence. */
  function EdgeWeight(given: Option<real>, knowledgeConfidence: Option<real>): real {
    if given.Some? && given.value >= 0.0 then given.value
    else if knowledgeConfidence.Some? then knowledgeConfidence.value
    else DEFAULT_WEIGHT
  }

  /** The evidence count goes up even when the knowledge entry does not exist. */
  function WithEvidence(c: Claim, supporting: bool, e: Option<Evidence>): Claim {
    var counted := c.(evidenceCount := c.evidenceCount + 1);
    if e.None? then counted
    else if supporting then counted.(supports := MergeEvidence(c.supports, e.value))
    else counted.(contradicts := MergeEvidence(c.contradicts, e.value))
  }

  // ---------------------------------------------------------------- the revision query

  /** A row of the two chained optional matches. */
  type Row = (Option<Evidence>, Option<Evidence>)

  /** An optional match: the edges found, or one row without an edge. */
  function OptionalMatch(es: seq<Evidence>): seq<Option<Evidence>> {
    if es == [] then [None] else seq(|es|, i requires 0 <= i < |es| => Some(es[i]))
  }

  function RowsFor(s: Option<Evidence>, ds: seq<Option<Evidence>>): seq<Row> {
    if ds == [] then [] else [(s, ds[0])] + RowsFor(s, ds[1..])
  }

  function Product(ss: seq<Option<Evidence>>, ds: seq<Option<Evidence>>): seq<Row> {
    if ss == [] then [] else RowsFor(ss[0], ds) + Product(ss[1..], ds)
  }

  function Rows(c: Claim): seq<Row> {
    Product(OptionalMatch(c.supports), OptionalMatch(c.contradicts))
  }

  function WeightOf(e: Option<Evidence>): real {
    if e.Some? then e.value.weight else 0.0
  }

  function SupportSum(rows: seq<Row>): real {
    if rows == [] then 0.0 else WeightOf(rows[0].0) + SupportSum(rows[1..])
  }

  function ContradictSum(rows: seq<Row>): real {
    if rows == [] then 0.0 else WeightOf(rows[0].1) + ContradictSum(rows[1..])
  }

  function SupportTotal(c: Claim): real { SupportSum(Rows(c)) }

  function ContradictTotal(c: Claim): real { ContradictSum(Rows(c)) }

  /** Laplace-smoothed share of the supporting weight. */
  function Laplace(support: real, contradict: real): real
    requires support + contradict > 0.0
  {
    (support + 1.0) / (support + contradict + 2.0)
  }

  function DecayExponent(elapsed: real): real {
    -DECAY_PER_HOUR * elapsed / 3600.0
  }

  /** Exponential decay toward one half over elapsed seconds. */
  function Decayed(exp: real -> real, confidence: real, elapsed: real): real {
    0.5 + (confidence - 0.5) * exp(DecayExponent(elapsed))
  }

  function StatusOf(confidence: real): Status {
    if confidence < REFUTED_BELOW then Refuted else if confidence < WEAKENED_BELOW then Weakened else Active
  }

  function NewConfidence(exp: real -> real, c: Claim, now: real): real {
    if SupportTotal(c) + ContradictTotal(c) > 0.0 then Laplace(SupportTotal(c), ContradictTotal(c))
    else Decayed(exp, c.confidence, now - c.updatedAt)
  }

  function Revised(exp: real -> real, c: Claim, now: real): Claim {
    if c.status == Refuted then c
    else
      var confidence := NewConfidence(exp, c, now);
      var observed := |c.supports| + |c.contradicts|;
      c.(confidence := confidence, certainty := 1.0 - 1.0 / (1.0 + observed as real), evidenceCount := observed,
         status := StatusOf(confidence), updatedAt := now)
  }

  class CausalClaimStore {
    const tables: CharTables
    var claims: map<string, Claim>
    /** Knowledge entries and their confidence, where recorded. */
    var knowledge: Entries

    constructor (t: CharTables)
      ensures tables == t && claims == map[] && knowledge == map[]
    {
      tables, claims, knowledge := t, map[], map[];
    }

    method UpsertClaim(c: ClaimInput, freshUuid: string, now: real) returns (uuid: string)
      modifies this`claims
      ensures var key := MergeKey(tables, c.cause, c.effect);
              claims == old(claims)[key := MergedClaim(old(claims), key, c, freshUuid, now)] && uuid == claims[key].uuid
    {
      var key := MergeKey(tables, c.cause, c.effect);
      claims := claims[key := MergedClaim(claims, key, c, freshUuid, now)];
      uuid := claims[key].uuid;
    }

    method AddEvidence(claimUuid: string, knowledgeUuid: string, direction: string, weight: Option<real>)
      modifies this`claims
      ensures claims == EvidenceSpec(old(claims), knowledge, claimUuid, knowledgeUuid, direction, weight)
    {
      var edge := None;
      if knowledgeUuid in knowledge {
        edge := Some(Evidence(knowledgeUuid, EdgeWeight(weight, knowledge[knowledgeUuid])));
      }
      claims := map k | k in claims ::
        if claims[k].uuid == claimUuid then WithEvidence(claims[k], direction == "supports", edge) else claims[k];
    }

    method ReviseBeliefs(exp: real -> real, now: real) returns (revised: nat)
      modifies this`claims
      ensures claims == ReviseSpec(exp, old(claims), now)
      ensures revised == |set k | k in old(claims) && old(claims)[k].status != Refuted|
    {
      revised := |set k | k in claims && claims[k].status != Refuted|;
      claims := map k | k in claims :: Revised(exp, claims[k], now);
    }
  }

  function EvidenceSpec(claims: map<string, Claim>, knowledge: Entries, claimUuid: string, knowledgeUuid: string,
                        direction: string, weight: Option<real>): map<string, Claim> {
    var edge := if knowledgeUuid in knowledge
      then Some(Evidence(knowledgeUuid, EdgeWeight(weight, knowledge[knowledgeUuid]))) else None;
    map k | k in claims ::
      if claims[k].uuid == claimUuid then WithEvidence(claims[k], direction == "supports", edge) else claims[k]
  }

  function ReviseSpec(exp: real -> real, claims: map<string, Claim>, now: real): map<string, Claim> {
    map k | k in claims :: Revised(exp, claims[k], now)
  }

  // ---------------------------------------------------------------- totals in closed form

  function Total(es: seq<Evidence>): real {
    if es == [] then 0.0 else es[0].weight + Total(es[1..])
  }

  function OptionTotal(es: seq<Option<Evidence>>): real {
    if es == [] then 0.0 else WeightOf(es[0]) + OptionTotal(es[1..])
  }

  lemma {:induction false} SumsAppend(a: seq<Row>, b: seq<Row>)
    ensures SupportSum(a + b) == SupportSum(a) + SupportSum(b)
    ensures ContradictSum(a + b) == ContradictSum(a) + ContradictSum(b)
  {
    if a == [] {
      assert a + b == b;
    } else {
      assert (a + b)[1..] == a[1..] + b;
      SumsAppend(a[1..], b);
    }
  }

  /** x added up n times. */
  function Scaled(x: real, n: nat): real {
    if n == 0 then 0.0 else x + Scaled(x, n - 1)
  }

  lemma {:induction false} ScaledIsProduct(x: real, n: nat)
    ensures Scaled(x, n) == x * n as real
  {
    if n > 0 {
      ScaledIsProduct(x, n - 1);
      var k := (n - 1) as real;
      assert x * (k + 1.0) == x * k + x;
    }
  }

  lemma {:induction false} ScaledAdd(x: real, y: real, n: nat)
    ensures Scaled(x + y, n) == Scaled(x, n) + Scaled(y, n)
  {
    if n > 0 { ScaledAdd(x, y, n - 1); }
  }

  lemma {:induction false} ScaledZero(n: nat)
    ensures Scaled(0.0, n) == 0.0
  {
    if n > 0 { ScaledZero(n - 1); }
  }

  lemma {:induction false} RowsForSums(s: Option<Evidence>, ds: seq<Option<Evidence>>)
    ensures SupportSum(RowsFor(s, ds)) == Scaled(WeightOf(s), |ds|)
    ensures ContradictSum(RowsFor(s, ds)) == OptionTotal(ds)
  {
    if ds != [] {
      RowsForSums(s, ds[1..]);
      assert RowsFor(s, ds)[1..] == RowsFor(s, ds[1..]);
    }
  }

  lemma {:induction false} ProductSums(ss: seq<Option<Evidence>>, ds: seq<Option<Evidence>>)
    ensures SupportSum(Product(ss, ds)) == Scaled(OptionTotal(ss), |ds|)
    ensures ContradictSum(Product(ss, ds)) == Scaled(OptionTotal(ds), |ss|)
  {
    if ss == [] {
      ScaledZero(|ds|);
    } else {
      ProductSums(ss[1..], ds);
      RowsForSums(ss[0], ds);
      SumsAppend(RowsFor(ss[0], ds), Product(ss[1..], ds));
      ScaledAdd(WeightOf(ss[0]), OptionTotal(ss[1..]), |ds|);
    }
  }

  lemma {:induction false} OptionalMatchTotal(es: seq<Evidence>)
    ensures OptionTotal(OptionalMatch(es)) == Total(es) && |OptionalMatch(es)| == Max(1, |es|)
  {
    if |es| == 1 {
      assert OptionalMatch(es)[1..] == [];
    } else if |es| > 1 {
      OptionalMatchTotal(es[1..]);
      assert OptionalMatch(es)[1..] == OptionalMatch(es[1..]);
    }
  }

  lemma TotalsScale(c: Claim)
    ensures SupportTotal(c) == Scaled(Total(c.supports), Max(1, |c.contradicts|))
    ensures ContradictTotal(c) == Scaled(Total(c.contradicts), Max(1, |c.supports|))
  {
    ProductSums(OptionalMatch(c.supports), OptionalMatch(c.contradicts));
    OptionalMatchTotal(c.supports);
    OptionalMatchTotal(c.contradicts);
  }

  /** The two matches multiply: each total is scaled by the number of edges of the other kind. */
  lemma TotalsMultiply(c: Claim)
    ensures SupportTotal(c) == Total(c.supports) * Max(1, |c.contradicts|) as real
    ensures ContradictTotal(c) == Total(c.contradicts) * Max(1, |c.supports|) as real
  {
    TotalsScale(c);
    ScaledIsProduct(Total(c.supports), Max(1, |c.contradicts|));
    ScaledIsProduct(Total(c.contradicts), Max(1, |c.supports|));
  }

  predicate NonNegative(es: seq<Evidence>) {
    forall i :: 0 <= i < |es| ==> es[i].weight >= 0.0
  }

  lemma {:induction false} TotalNonNegative(es: seq<Evidence>)
    requires NonNegative(es)
    ensures Total(es) >= 0.0
  {
    if es != [] { TotalNonNegative(es[1..]); }
  }

  lemma TotalsNonNegative(c: Claim)
    requires NonNegative(c.supports) && NonNegative(c.contradicts)
    ensures SupportTotal(c) >= 0.0 && ContradictTotal(c) >= 0.0
  {
    TotalsMultiply(c);
    TotalNonNegative(c.supports);
    TotalNonNegative(c.contradicts);
  }

  lemma CompareRatios(a: real, b: real, x: real, y: real)
    requires b > 0.0 && y > 0.0
    ensures x / y > a / b <==> x * b > a * y
  {
    assert (x / y) * y == x && (a / b) * b == a;
    var u, w := x / y, a / b;
    if u > w {
      assert u * (y * b) > w * (y * b);
    }
    if u <= w {
      assert u * (y * b) <= w * (y * b);
    }
    assert u * (y * b) == x * b && w * (y * b) == a * y;
  }

  lemma LaplaceBounds(s: real, d: real)
    requires s >= 0.0 && d >= 0.0 && s + d > 0.0
    ensures 0.0 < Laplace(s, d) < 1.0
    ensures Laplace(s, d) < REFUTED_BELOW <==> d > 19.0 * s + 18.0
    ensures Laplace(s, d) < WEAKENED_BELOW <==> d > 4.0 * s + 3.0
  {
    LaplaceBelow(s, d, 1.0);
    LaplaceBelow(s, d, 5.0);
    LaplaceBelow(s, d, 20.0);
    CompareRatios(0.0, 1.0, s + 1.0, s + d + 2.0);
  }

  lemma LaplaceBelow(s: real, d: real, k: real)
    requires s >= 0.0 && d >= 0.0 && s + d > 0.0 && k > 0.0
    ensures Laplace(s, d) < 1.0 / k <==> s + d + 2.0 > (s + 1.0) * k
  {
    CompareRatios(s + 1.0, s + d + 2.0, 1.0, k);
  }

  /**
   Weighted evidence keeps the revised confidence strictly between 0 and 1. It refutes a claim exactly
   when the contradicting total D exceeds 19S + 18, and weakens it when D exceeds 4S + 3. The certainty
   n / (1 + n) counts edges, whatever their weights.
   */
  lemma EvidenceDecides(exp: real -> real, c: Claim, now: real)
    requires c.status != Refuted && NonNegative(c.supports) && NonNegative(c.contradicts)
    requires SupportTotal(c) + ContradictTotal(c) > 0.0
    ensures 0.0 < Revised(exp, c, now).confidence < 1.0
    ensures Revised(exp, c, now).status ==
            if ContradictTotal(c) > 19.0 * SupportTotal(c) + 18.0 then Refuted
            else if ContradictTotal(c) > 4.0 * SupportTotal(c) + 3.0 then Weakened
            else Active
    ensures var n := |c.supports| + |c.contradicts|; Revised(exp, c, now).certainty * (1.0 + n as real) == n as real
  {
    TotalsNonNegative(c);
    LaplaceBounds(SupportTotal(c), ContradictTotal(c));
    CertaintyCountsEvidence(exp, c, now);
  }

  /**
   A revision of a claim that is not refuted: the confidence is the smoothed share of the supporting weight or, without
   positive weight, what decay at one per cent an hour leaves of its distance from one half. The status follows
   from it at 0.05 and 0.2.
   */
  lemma RevisionEffect(exp: real -> real, c: Claim, now: real, s: real, d: real, hours: real)
    requires c.status != Refuted && hours == (now - c.updatedAt) / 3600.0
    requires s == Total(c.supports) * Max(1, |c.contradicts|) as real
    requires d == Total(c.contradicts) * Max(1, |c.supports|) as real
    ensures var r := Revised(exp, c, now);
            && (s + d > 0.0 ==> r.confidence * (s + d + 2.0) == s + 1.0)
            && (s + d <= 0.0 ==> r.confidence - 0.5 == (c.confidence - 0.5) * exp(-0.01 * hours))
            && (r.status == Refuted <==> r.confidence < 0.05)
            && (r.status == Weakened <==> 0.05 <= r.confidence < 0.2)
            && r.evidenceCount == |c.supports| + |c.contradicts|
            && r == c.(confidence := r.confidence, certainty := r.certainty, evidenceCount := r.evidenceCount,
                       status := r.status, updatedAt := now)
  {
    TotalsMultiply(c);
    var r := Revised(exp, c, now);
    if s + d > 0.0 {
      ShareTimesWhole(s, d, r.confidence);
    } else {
      assert DecayExponent(now - c.updatedAt) == -0.01 * hours;
    }
  }

  lemma ShareTimesWhole(s: real, d: real, q: real)
    requires s + d > 0.0 && q == Laplace(s, d)
    ensures q * (s + d + 2.0) == s + 1.0
  {
  }

  /** Certainty is n / (1 + n) for n evidence edges: 0, one half, 0.8 and 0.9 for 0, 1, 4 and 9 of them. */
  lemma CertaintyCountsEvidence(exp: real -> real, c: Claim, now: real)
    requires c.status != Refuted
    ensures var n, revised := |c.supports| + |c.contradicts|, Revised(exp, c, now);
            && revised.evidenceCount == n
            && revised.certainty * (1.0 + n as real) == n as real
            && (n == 0 ==> revised.certainty == 0.0) && (n == 1 ==> revised.certainty == 0.5)
            && (n == 4 ==> revised.certainty == 0.8) && (n == 9 ==> revised.certainty == 0.9)
  {
    var m := 1.0 + (|c.supports| + |c.contradicts|) as real;
    assert (1.0 / m) * m == 1.0;
    assert (1.0 - 1.0 / m) * m == m - (1.0 / m) * m;
  }

  lemma {:induction false} TotalAppend(es: seq<Evidence>, e: Evidence)
    ensures Total(es + [e]) == Total(es) + e.weight
  {
    if es == [] {
      assert es + [e] == [e];
    } else {
      assert (es + [e])[1..] == es[1..] + [e];
      TotalAppend(es[1..], e);
    }
  }

  /** With weights s and d on n supporting and m contradicting edges: s(dn + 1) > wn(sm + 1). */
  predicate SupportOutweighs(s: real, d: real, n: nat, m: nat, w: real) {
    s * (d * n as real + 1.0) > w * n as real * (s * m as real + 1.0)
  }

  /** The confidence with one contradicting edge of weight w as the only weighted evidence, over n rows. */
  function FirstConfidence(w: real, n: nat): real
    requires w >= 0.0
  {
    ProductNonNegative(w, n as real);
    1.0 / (2.0 + w * n as real)
  }

  /**
   When one more contradicting edge of weight w raises the confidence. The first weighted evidence of
   a claim does so if the decayed confidence is low enough. Otherwise there must be support and an
   earlier contradicting edge, whose rows multiply the support, and the support must outweigh.
   */
  predicate Raises(exp: real -> real, c: Claim, w: real, now: real)
    requires w >= 0.0
  {
    var n, m := |c.supports|, |c.contradicts|;
    if WithoutEvidence(c) then w > 0.0 && Decayed(exp, c.confidence, now - c.updatedAt) < FirstConfidence(w, Max(1, n))
    else Total(c.supports) > 0.0 && m > 0 && SupportOutweighs(Total(c.supports), Total(c.contradicts), n, m, w)
  }

  function Contradicted(c: Claim, e: Evidence): Claim {
    c.(contradicts := c.contradicts + [e])
  }

  /** One more contradicting edge can raise the confidence: the exact condition, for every claim. */
  lemma ContradictionRaisesIff(exp: real -> real, c: Claim, e: Evidence, now: real)
    requires NonNegative(c.supports) && NonNegative(c.contradicts) && e.weight >= 0.0
    ensures NewConfidence(exp, Contradicted(c, e), now) > NewConfidence(exp, c, now) <==> Raises(exp, c, e.weight, now)
  {
    var s, d, n, m := Total(c.supports), Total(c.contradicts), |c.supports|, |c.contradicts|;
    TotalAppend(c.contradicts, e);
    TotalNonNegative(c.supports);
    TotalNonNegative(c.contradicts);
    TotalsScale(c);
    TotalsScale(Contradicted(c, e));
    ScaledPositive(s, Max(1, m));
    ScaledPositive(d, Max(1, n));
    if WithoutEvidence(c) {
      ScaledZero(m + 1);
      FirstWeight(Decayed(exp, c.confidence, now - c.updatedAt), e.weight, Max(1, n));
    } else if s == 0.0 {
      ScaledZero(Max(1, m));
      ScaledZero(m + 1);
      ScaledAdd(d, e.weight, Max(1, n));
      ScaledPositive(e.weight, Max(1, n));
      MoreAgainst(0.0, Scaled(d, Max(1, n)), Scaled(e.weight, Max(1, n)));
    } else if m == 0 {
      ScaledZero(Max(1, n));
      ScaledPositive(e.weight, Max(1, n));
      MoreAgainst(s, 0.0, Scaled(e.weight, Max(1, n)));
    } else {
      RaiseRatio(s, d, n, m, e.weight);
    }
  }

  /** Compared with a decayed confidence q, where the edge is the only weighted evidence. */
  lemma FirstWeight(q: real, w: real, n: nat)
    requires w >= 0.0 && n >= 1
    ensures w > 0.0 ==> Scaled(w, n) > 0.0 && (Laplace(0.0, Scaled(w, n)) > q <==> q < FirstConfidence(w, n))
    ensures w == 0.0 ==> Scaled(w, n) == 0.0
  {
    ScaledIsProduct(w, n);
    ScaledPositive(w, n);
  }

  lemma MoreAgainst(x: real, y: real, k: real)
    requires x >= 0.0 && y >= 0.0 && k >= 0.0 && x + y > 0.0
    ensures Laplace(x, y + k) <= Laplace(x, y)
  {
    var a, b := x + 1.0, x + y + 2.0;
    CompareRatios(a, b, a, b + k);
    ProductNonNegative(a, k);
    assert a * (b + k) == a * b + a * k;
  }

  lemma RaiseRatio(s: real, d: real, n: nat, m: nat, w: real)
    requires s > 0.0 && d >= 0.0 && n >= 1 && m >= 1 && w >= 0.0
    ensures Scaled(s, m) + Scaled(d, n) > 0.0 && Scaled(s, m + 1) + Scaled(d + w, n) > 0.0
    ensures Laplace(Scaled(s, m + 1), Scaled(d + w, n)) > Laplace(Scaled(s, m), Scaled(d, n)) <==>
            SupportOutweighs(s, d, n, m, w)
  {
    ScaledIsProduct(s, m);
    ScaledIsProduct(d, n);
    ScaledIsProduct(w, n);
    ScaledAdd(d, w, n);
    ScaledPositive(s, m);
    var x, y, k := Scaled(s, m), Scaled(d, n), Scaled(w, n);
    CompareRatios(x + 1.0, x + y + 2.0, x + s + 1.0, x + s + y + k + 2.0);
    RaiseAlgebra(s, x, y, k);
  }

  lemma ScaledPositive(s: real, m: nat)
    ensures s > 0.0 && m >= 1 ==> Scaled(s, m) > 0.0
    ensures s >= 0.0 ==> Scaled(s, m) >= 0.0
  {
  }

  lemma RaiseAlgebra(s: real, x: real, y: real, k: real)
    ensures (x + s + 1.0) * (x + y + 2.0) > (x + 1.0) * (x + s + y + k + 2.0) <==> s * (y + 1.0) > k * (x + 1.0)
  {
  }

  /** A second, weaker contradiction raises the confidence of this claim from 20/31 to 100/137. */
  lemma ContradictionCanRaise(exp: real -> real)
    ensures exists c: Claim, e: Evidence, now: real ::
      && NonNegative(c.supports) && NonNegative(c.contradicts) && e.weight > 0.0
      && SupportTotal(c) > 0.0 && c.contradicts != []
      && NewConfidence(exp, Contradicted(c, e), now) > NewConfidence(exp, c, now)
  {
    var c := Claim("", "", "", "", "", 0.5, 0.0, 0, Active, 0.0, 0.0, [Evidence("k1", 1.0)], [Evidence("k2", 0.1)]);
    var e := Evidence("k3", 0.01);
    assert c.supports[1..] == [] && c.contradicts[1..] == [];
    TotalsMultiply(c);
    ContradictionRaisesIff(exp, c, e, 0.0);
  }

  /** A contradiction as the first evidence raises the confidence of a doubtful claim from 0.1 to 0.4. */
  lemma FirstEvidenceCanRaise(exp: real -> real)
    requires ExpLaws(exp)
    ensures exists c: Claim, e: Evidence, now: real ::
      && c.supports == [] && c.contradicts == [] && e.weight > 0.0
      && NewConfidence(exp, Contradicted(c, e), now) > NewConfidence(exp, c, now)
  {
    var c := Claim("", "", "", "", "", 0.1, 0.0, 0, Active, 0.0, 0.0, [], []);
    ExpZero(exp);
    ContradictionRaisesIff(exp, c, Evidence("k", 0.5), 0.0);
  }

  /** A first contradiction raises the confidence only of a claim without supporting weight, and only from below. */
  lemma FirstContradictionRaisesIff(exp: real -> real, c: Claim, e: Evidence, now: real)
    requires NonNegative(c.supports) && e.weight >= 0.0 && c.contradicts == []
    ensures NewConfidence(exp, c.(contradicts := [e]), now) > NewConfidence(exp, c, now)
            <==> Total(c.supports) == 0.0 && e.weight > 0.0
                 && Decayed(exp, c.confidence, now - c.updatedAt) < FirstConfidence(e.weight, Max(1, |c.supports|))
  {
    assert Contradicted(c, e) == c.(contradicts := [e]);
    ContradictionRaisesIff(exp, c, e, now);
    TotalNonNegative(c.supports);
    TotalsMultiply(c);
  }

  // ---------------------------------------------------------------- decay without evidence

  ghost predicate ExpSum(exp: real -> real, a: real, b: real, sum: real) {
    sum == a + b ==> exp(sum) == exp(a) * exp(b)
  }

  /** The laws of the exponential that decay rests on. */
  ghost predicate ExpLaws(exp: real -> real) {
    && (forall a: real, b: real, sum: real :: ExpSum(exp, a, b, sum))
    && (forall a: real :: exp(a) > 0.0)
    && (forall a: real, b: real :: a < b ==> exp(a) < exp(b))
  }

  lemma SquareAgainstSelf(e: real)
    requires e > 0.0
    ensures e > 1.0 ==> e * e > e
    ensures e < 1.0 ==> e * e < e
  {
  }

  lemma ExpZero(exp: real -> real)
    requires ExpLaws(exp)
    ensures exp(0.0) == 1.0
  {
    assert ExpSum(exp, 0.0, 0.0, 0.0);
    SquareAgainstSelf(exp(0.0));
  }

  lemma TimesAssociative(x: real, y: real, z: real)
    ensures (x * y) * z == x * (y * z)
  {
  }

  lemma DecayCompose(exp: real -> real, confidence: real, d1: real, d2: real)
    requires ExpLaws(exp)
    ensures Decayed(exp, Decayed(exp, confidence, d1), d2) == Decayed(exp, confidence, d1 + d2)
  {
    var a, b := DecayExponent(d1), DecayExponent(d2);
    assert ExpSum(exp, a, b, DecayExponent(d1 + d2));
    TimesAssociative(confidence - 0.5, exp(a), exp(b));
  }

  lemma ShrinkTowardHalf(c: real, f: real, r: real)
    requires 0.0 < f <= 1.0 && r == 0.5 + (c - 0.5) * f
    ensures c >= 0.5 ==> 0.5 <= r <= c
    ensures c <= 0.5 ==> c <= r <= 0.5
  {
    var part := (c - 0.5) * f;
    if c >= 0.5 { ScaledBy(c - 0.5, f, part); }
    if c <= 0.5 {
      var gap := 0.5 - c;
      assert gap * f == -part;
      ScaledBy(gap, f, -part);
    }
  }

  /** Unless it starts at one half, shrinking does not reach it, and a factor below 1 moves it. */
  lemma ShrinkMoves(c: real, f: real, r: real)
    requires 0.0 < f <= 1.0 && r == 0.5 + (c - 0.5) * f && c != 0.5
    ensures r != 0.5
    ensures f < 1.0 ==> r != c
  {
    var x := c - 0.5;
    NonZeroProduct(x, f);
    if f < 1.0 {
      NonZeroProduct(x, 1.0 - f);
      assert x * (1.0 - f) == c - r;
    }
  }

  lemma NonZeroProduct(x: real, f: real)
    requires x != 0.0 && f > 0.0
    ensures x * f != 0.0
  {
  }

  /** Decay moves a confidence toward one half and never past it. */
  lemma DecayTowardHalf(exp: real -> real, confidence: real, elapsed: real)
    requires ExpLaws(exp) && elapsed >= 0.0
    ensures confidence >= 0.5 ==> 0.5 <= Decayed(exp, confidence, elapsed) <= confidence
    ensures confidence <= 0.5 ==> confidence <= Decayed(exp, confidence, elapsed) <= 0.5
    ensures confidence != 0.5 ==> Decayed(exp, confidence, elapsed) != 0.5
    ensures confidence != 0.5 && elapsed > 0.0 ==> Decayed(exp, confidence, elapsed) != confidence
  {
    ExpZero(exp);
    var a := DecayExponent(elapsed);
    assert a <= 0.0 && (elapsed > 0.0 ==> a < 0.0);
    ShrinkTowardHalf(confidence, exp(a), Decayed(exp, confidence, elapsed));
    if confidence != 0.5 { ShrinkMoves(confidence, exp(a), Decayed(exp, confidence, elapsed)); }
  }

  predicate WithoutEvidence(c: Claim) {
    SupportTotal(c) + ContradictTotal(c) <= 0.0
  }

  predicate NonDecreasing(times: seq<real>) {
    forall i, j :: 0 <= i < j < |times| ==> times[i] <= times[j]
  }

  function ReviseAll(exp: real -> real, c: Claim, times: seq<real>): Claim
    decreases |times|
  {
    if times == [] then c else ReviseAll(exp, Revised(exp, c, times[0]), times[1..])
  }

  lemma RevisedTwice(exp: real -> real, c: Claim, t1: real, t2: real)
    requires ExpLaws(exp) && c.status != Refuted && WithoutEvidence(c) && c.updatedAt <= t1 <= t2
    requires Revised(exp, c, t1).status != Refuted
    ensures Revised(exp, Revised(exp, c, t1), t2) == Revised(exp, c, t2)
  {
    DecayCompose(exp, c.confidence, t1 - c.updatedAt, t2 - t1);
    var c1 := Revised(exp, c, t1);
    assert Rows(c1) == Rows(c);
    assert (t1 - c.updatedAt) + (t2 - t1) == t2 - c.updatedAt;
  }

  lemma HighConfidenceSurvives(exp: real -> real, c: Claim, now: real)
    requires ExpLaws(exp) && c.status != Refuted && WithoutEvidence(c) && c.updatedAt <= now &&
             c.confidence >= REFUTED_BELOW
    ensures Revised(exp, c, now).status != Refuted && Revised(exp, c, now).confidence >= REFUTED_BELOW
    ensures WithoutEvidence(Revised(exp, c, now))
  {
    DecayTowardHalf(exp, c.confidence, now - c.updatedAt);
    assert Rows(Revised(exp, c, now)) == Rows(c);
  }

  /** Revising an unsupported claim at a series of times is revising it once at the last of them. */
  lemma {:induction false} RevisionsCollapse(exp: real -> real, c: Claim, times: seq<real>)
    requires ExpLaws(exp) && c.status != Refuted && WithoutEvidence(c) && c.confidence >= REFUTED_BELOW
    requires times != [] && NonDecreasing(times) && c.updatedAt <= times[0]
    ensures ReviseAll(exp, c, times) == Revised(exp, c, times[|times| - 1])
    decreases |times|
  {
    if |times| > 1 {
      HighConfidenceSurvives(exp, c, times[0]);
      RevisionsCollapse(exp, Revised(exp, c, times[0]), times[1..]);
      RevisedTwice(exp, c, times[0], times[|times| - 1]);
    }
  }

  /**
   Below the refutation threshold it matters when a claim is revised: an intermediate revision is
   harmless exactly when it leaves the confidence at or above the threshold or comes at the same time.
   */
  lemma RevisionSplitsIff(exp: real -> real, c: Claim, t1: real, t2: real)
    requires ExpLaws(exp) && c.status != Refuted && WithoutEvidence(c) && c.updatedAt <= t1 <= t2
    ensures Revised(exp, Revised(exp, c, t1), t2).confidence == Revised(exp, c, t2).confidence
            <==> Decayed(exp, c.confidence, t1 - c.updatedAt) >= REFUTED_BELOW || t1 == t2
  {
    var c1 := Revised(exp, c, t1);
    if c1.status != Refuted {
      RevisedTwice(exp, c, t1, t2);
    } else {
      DecayCompose(exp, c.confidence, t1 - c.updatedAt, t2 - t1);
      assert (t1 - c.updatedAt) + (t2 - t1) == t2 - c.updatedAt;
      DecayTowardHalf(exp, c1.confidence, t2 - t1);
    }
  }

  /** A claim of confidence 0 recovers when it is revised later, but not when it is revised at once as well. */
  lemma EarlyRevisionRefutes(exp: real -> real)
    requires ExpLaws(exp)
    ensures exists c: Claim, t1: real, t2: real ::
      && c.status == Active && WithoutEvidence(c) && c.updatedAt <= t1 <= t2
      && Revised(exp, Revised(exp, c, t1), t2).confidence != Revised(exp, c, t2).confidence
  {
    var c := Claim("", "", "", "", "", 0.0, 0.0, 0, Active, 0.0, 0.0, [], []);
    ExpZero(exp);
    RevisionSplitsIff(exp, c, 0.0, 3600.0);
  }

  // ---------------------------------------------------------------- runs

  datatype Event =
    | Upsert(input: ClaimInput, freshUuid: string, now: real)
    | AddEvidence(claimUuid: string, knowledge: string, direction: string, weight: Option<real>)
    | Revise(now: real)

  /** The effect of one call; `knowledge` holds the knowledge entries and their confidence. */
  function Apply(t: CharTables, exp: real -> real, knowledge: Entries, claims: map<string, Claim>,
                 e: Event): map<string, Claim> {
    match e
    case Upsert(c, freshUuid, now) =>
      var key := MergeKey(t, c.cause, c.effect);
      claims[key := MergedClaim(claims, key, c, freshUuid, now)]
    case AddEvidence(claimUuid, k, direction, weight) =>
      EvidenceSpec(claims, knowledge, claimUuid, k, direction, weight)
    case Revise(now) => ReviseSpec(exp, claims, now)
  }

  function Run(t: CharTables, exp: real -> real, knowledge: Entries, claims: map<string, Claim>,
               events: seq<Event>): map<string, Claim>
    decreases |events|
  {
    if events == [] then claims else Run(t, exp, knowledge, Apply(t, exp, knowledge, claims, events[0]), events[1..])
  }

  /** Once refuted, a claim stays refuted over every run of upserts, evidence and revisions. */
  lemma {:induction false} RefutedIsAbsorbing(t: CharTables, exp: real -> real, knowledge: Entries,
                                              claims: map<string, Claim>, events: seq<Event>, key: string)
    requires key in claims && claims[key].status == Refuted
    ensures var after := Run(t, exp, knowledge, claims, events); key in after && after[key].status == Refuted
    decreases |events|
  {
    if events != [] {
      RefutedIsAbsorbing(t, exp, knowledge, Apply(t, exp, knowledge, claims, events[0]), events[1..], key);
    }
  }

  /** Event times never run backwards from the given time on. */
  predicate InOrder(events: seq<Event>, from: real) {
    if events == [] then true
    else if events[0].AddEvidence? then InOrder(events[1..], from)
    else from <= events[0].now && InOrder(events[1..], events[0].now)
  }

  function LastTime(events: seq<Event>, from: real): real
    decreases |events|
  {
    if events == [] then from
    else LastTime(events[1..], if events[0].AddEvidence? then from else events[0].now)
  }

  /** The recorded confidence where it is negative, and 0 otherwise. */
  function Negative(recorded: Option<real>): real {
    if recorded.Some? && recorded.value < 0.0 then recorded.value else 0.0
  }

  /** An edge comes from an existing entry, and its weight is below 0 only as far as the recorded confidence is. */
  predicate FromEntry(knowledge: Entries, e: Evidence) {
    e.knowledge in knowledge && e.weight >= Negative(knowledge[e.knowledge])
  }

  predicate OneEdgeEach(es: seq<Evidence>) {
    forall i, j :: 0 <= i < j < |es| ==> es[i].knowledge != es[j].knowledge
  }

  predicate SoundEvidence(knowledge: Entries, es: seq<Evidence>) {
    (forall i :: 0 <= i < |es| ==> FromEntry(knowledge, es[i])) && OneEdgeEach(es)
  }

  predicate SoundSources(knowledge: Entries, c: Claim) {
    SoundEvidence(knowledge, c.supports) && SoundEvidence(knowledge, c.contradicts)
  }

  function Sources(es: seq<Evidence>): set<string> {
    set i | 0 <= i < |es| :: es[i].knowledge
  }

  lemma ConsSources(knowledge: Entries, h: Evidence, es: seq<Evidence>)
    ensures Sources([h] + es) == {h.knowledge} + Sources(es)
    ensures SoundEvidence(knowledge, [h] + es)
            <==> SoundEvidence(knowledge, es) && FromEntry(knowledge, h) && h.knowledge !in Sources(es)
  {
    var r := [h] + es;
    assert r[0] == h && forall i :: 0 <= i < |es| ==> r[i + 1] == es[i];
    forall i | 0 <= i < |r| ensures r[i].knowledge in {h.knowledge} + Sources(es) {
      if i > 0 { assert r[i] == es[i - 1]; }
    }
    if SoundEvidence(knowledge, r) { ConsSound(knowledge, h, es); }
  }

  lemma ConsSound(knowledge: Entries, h: Evidence, es: seq<Evidence>)
    requires SoundEvidence(knowledge, [h] + es)
    ensures SoundEvidence(knowledge, es) && FromEntry(knowledge, h) && h.knowledge !in Sources(es)
  {
    var r := [h] + es;
    assert r[0] == h;
    forall i | 0 <= i < |es| ensures FromEntry(knowledge, es[i]) && es[i].knowledge != h.knowledge {
      assert r[i + 1] == es[i];
    }
    forall i, j | 0 <= i < j < |es| ensures es[i].knowledge != es[j].knowledge {
      assert r[i + 1] == es[i] && r[j + 1] == es[j];
    }
  }

  /** Merging keeps one edge per knowledge entry, at the new weight for the entry merged. */
  lemma {:induction false} MergeEvidenceSound(knowledge: Entries, es: seq<Evidence>, e: Evidence)
    requires SoundEvidence(knowledge, es) && FromEntry(knowledge, e)
    ensures var r := MergeEvidence(es, e);
            SoundEvidence(knowledge, r) && Sources(r) == Sources(es) + {e.knowledge} && e in r
    decreases |es|
  {
    if es == [] {
      ConsSources(knowledge, e, []);
      assert [e] + [] == [e];
    } else {
      var h, rest := es[0], es[1..];
      assert es == [h] + rest;
      ConsSources(knowledge, h, rest);
      if h.knowledge == e.knowledge {
        ConsSources(knowledge, e, rest);
      } else {
        MergeEvidenceSound(knowledge, rest, e);
        ConsSources(knowledge, h, MergeEvidence(rest, e));
        assert ([h] + MergeEvidence(rest, e))[1..] == MergeEvidence(rest, e);
      }
    }
  }

  /** Evidence from a new source is one more edge. */
  lemma {:induction false} NewSourceAppends(es: seq<Evidence>, e: Evidence)
    requires e.knowledge !in Sources(es)
    ensures MergeEvidence(es, e) == es + [e]
    decreases |es|
  {
    if es != [] {
      assert es == [es[0]] + es[1..];
      assert es[0].knowledge in Sources(es);
      forall k | k in Sources(es[1..]) ensures k in Sources(es) {
        var i :| 0 <= i < |es[1..]| && es[1..][i].knowledge == k;
        assert es[i + 1].knowledge == k;
      }
      NewSourceAppends(es[1..], e);
    }
  }

  lemma TailSources(es: seq<Evidence>, k: string)
    requires es != []
    ensures k in Sources(es) <==> es[0].knowledge == k || k in Sources(es[1..])
  {
    if k in Sources(es) && es[0].knowledge != k {
      var i :| 0 <= i < |es| && es[i].knowledge == k;
      assert es[1..][i - 1].knowledge == k;
    }
    if k in Sources(es[1..]) {
      var i :| 0 <= i < |es[1..]| && es[1..][i].knowledge == k;
      assert es[i + 1].knowledge == k;
    }
  }

  /** An edge is added: it takes the place of the one from the same entry, or the last place. */
  predicate Added(before: seq<Evidence>, after: seq<Evidence>, e: Evidence) {
    if e.knowledge in Sources(before) then
      && |after| == |before|
      && forall i :: 0 <= i < |before| ==> after[i] == if before[i].knowledge == e.knowledge then e else before[i]
    else after == before + [e]
  }

  lemma {:induction false} KnownSourceIsOverwritten(es: seq<Evidence>, e: Evidence)
    requires OneEdgeEach(es) && e.knowledge in Sources(es)
    ensures Added(es, MergeEvidence(es, e), e)
    decreases |es|
  {
    TailSources(es, e.knowledge);
    var r, rest := MergeEvidence(es, e), es[1..];
    if es[0].knowledge == e.knowledge {
      forall i | 0 < i < |es| ensures r[i] == es[i] && es[i].knowledge != e.knowledge {}
    } else {
      assert OneEdgeEach(rest);
      KnownSourceIsOverwritten(rest, e);
      assert r[1..] == MergeEvidence(rest, e);
      forall i | 0 < i < |es| ensures r[i] == if es[i].knowledge == e.knowledge then e else es[i] {
        assert r[i] == r[1..][i - 1] && es[i] == rest[i - 1];
      }
    }
  }

  lemma MergeAdds(es: seq<Evidence>, e: Evidence)
    requires OneEdgeEach(es)
    ensures Added(es, MergeEvidence(es, e), e)
  {
    if e.knowledge in Sources(es) { KnownSourceIsOverwritten(es, e); } else { NewSourceAppends(es, e); }
  }

  /**
   Evidence counts for the claim it names, even when its entry does not exist. If it does, an edge is added on
   the side the direction names, at the given weight if that is not negative, else at the entry's recorded
   confidence, and at one half if there is none. No other claim and no other field changes.
   */
  lemma EvidenceEffect(claims: map<string, Claim>, knowledge: Entries, claimUuid: string, k: string,
                       direction: string, weight: Option<real>, key: string)
    requires key in claims && OneEdgeEach(claims[key].supports) && OneEdgeEach(claims[key].contradicts)
    ensures var after, c := EvidenceSpec(claims, knowledge, claimUuid, k, direction, weight), claims[key];
            && after.Keys == claims.Keys
            && (c.uuid != claimUuid ==> after[key] == c)
            && (c.uuid == claimUuid ==>
                  && after[key] == c.(evidenceCount := c.evidenceCount + 1, supports := after[key].supports,
                                      contradicts := after[key].contradicts)
                  && (k !in knowledge || direction != "supports" ==> after[key].supports == c.supports)
                  && (k !in knowledge || direction == "supports" ==> after[key].contradicts == c.contradicts)
                  && (k in knowledge ==>
                        var w := if weight.Some? && weight.value >= 0.0 then weight.value
                                 else if knowledge[k].Some? then knowledge[k].value else 0.5;
                        if direction == "supports" then Added(c.supports, after[key].supports, Evidence(k, w))
                        else Added(c.contradicts, after[key].contradicts, Evidence(k, w))))
  {
    if k in knowledge {
      var e := Evidence(k, EdgeWeight(weight, knowledge[k]));
      MergeAdds(claims[key].supports, e);
      MergeAdds(claims[key].contradicts, e);
    }
  }

  lemma AddedSound(knowledge: Entries, c: Claim, supporting: bool, k: string, weight: Option<real>)
    requires SoundSources(knowledge, c)
    ensures var e := if k in knowledge then Some(Evidence(k, EdgeWeight(weight, knowledge[k]))) else None;
            SoundSources(knowledge, WithEvidence(c, supporting, e))
  {
    if k in knowledge {
      var e := Evidence(k, EdgeWeight(weight, knowledge[k]));
      MergeEvidenceSound(knowledge, c.supports, e);
      MergeEvidenceSound(knowledge, c.contradicts, e);
    }
  }

  ghost predicate AllSoundSources(knowledge: Entries, claims: map<string, Claim>) {
    forall k :: k in claims ==> SoundSources(knowledge, claims[k])
  }

  /** Over every run evidence stays one edge per source, of a weight that its entry accounts for. */
  lemma {:induction false} RunsKeepSources(t: CharTables, exp: real -> real, knowledge: Entries,
                                           claims: map<string, Claim>, events: seq<Event>)
    requires AllSoundSources(knowledge, claims)
    ensures AllSoundSources(knowledge, Run(t, exp, knowledge, claims, events))
    decreases |events|
  {
    if events != [] {
      var e, next := events[0], Apply(t, exp, knowledge, claims, events[0]);
      forall k | k in next ensures SoundSources(knowledge, next[k]) {
        if e.AddEvidence? { AddedSound(knowledge, claims[k], e.direction == "supports", e.knowledge, e.weight); }
      }
      RunsKeepSources(t, exp, knowledge, next, events[1..]);
    }
  }

  predicate SoundKnowledge(knowledge: Entries) {
    forall k :: k in knowledge && knowledge[k].Some? ==> knowledge[k].value >= 0.0
  }

  ghost predicate NonNegativeAfter(t: CharTables, exp: real -> real, knowledge: Entries, events: seq<Event>) {
    var claims := Run(t, exp, knowledge, map[], events);
    forall k :: k in claims ==> NonNegative(claims[k].supports) && NonNegative(claims[k].contradicts)
  }

  /** A claim created, then supported by the entry at the entry's own confidence. */
  function Probe(entry: string): seq<Event> {
    [Upsert(ClaimInput("", "", "", 0.5, ""), "c", 0.0), AddEvidence("c", entry, "supports", None)]
  }

  /** Weights are non-negative after every run if and only if no entry is recorded with a negative confidence. */
  lemma WeightsNonNegativeIff(t: CharTables, exp: real -> real, knowledge: Entries)
    ensures (forall events: seq<Event> :: NonNegativeAfter(t, exp, knowledge, events)) <==> SoundKnowledge(knowledge)
  {
    if SoundKnowledge(knowledge) {
      forall events: seq<Event> ensures NonNegativeAfter(t, exp, knowledge, events) {
        RunsKeepSources(t, exp, knowledge, map[], events);
      }
    } else {
      var k :| k in knowledge && knowledge[k].Some? && knowledge[k].value < 0.0;
      var rest := Probe(k)[1..];
      var created := Apply(t, exp, knowledge, map[], Probe(k)[0]);
      var key := MergeKey(t, "", "");
      assert key in created && created[key].uuid == "c" && created[key].supports == [];
      var supported := Apply(t, exp, knowledge, created, rest[0]);
      assert supported[key].supports == [Evidence(k, knowledge[k].value)];
      assert rest[1..] == [];
      assert Run(t, exp, knowledge, map[], Probe(k)) == Run(t, exp, knowledge, created, rest) == supported;
      assert supported[key].supports[0].weight < 0.0;
      assert !NonNegativeAfter(t, exp, knowledge, Probe(k));
    }
  }

  // ---------------------------------------------------------------- confidence over all runs

  /** The sum of the negative recorded confidences. */
  ghost function NegativeSum(knowledge: Entries, keys: set<string>): real
    requires keys <= knowledge.Keys
  {
    if keys == {} then 0.0
    else
      var k :| k in keys;
      Negative(knowledge[k]) + NegativeSum(knowledge, keys - {k})
  }

  lemma {:induction false} NegativeSumWithout(knowledge: Entries, keys: set<string>, k: string)
    requires keys <= knowledge.Keys && k in keys
    ensures NegativeSum(knowledge, keys) == Negative(knowledge[k]) + NegativeSum(knowledge, keys - {k})
    decreases keys
  {
    var j :| j in keys && NegativeSum(knowledge, keys) == Negative(knowledge[j]) + NegativeSum(knowledge, keys - {j});
    if j != k {
      NegativeSumWithout(knowledge, keys - {j}, k);
      NegativeSumWithout(knowledge, keys - {k}, j);
      assert keys - {j} - {k} == keys - {k} - {j};
    }
  }

  lemma {:induction false} NegativeSumFalls(knowledge: Entries, some: set<string>, keys: set<string>)
    requires some <= keys <= knowledge.Keys
    ensures NegativeSum(knowledge, keys) <= NegativeSum(knowledge, some) <= 0.0
    decreases keys
  {
    if k :| k in keys && k !in some {
      NegativeSumWithout(knowledge, keys, k);
      NegativeSumFalls(knowledge, some, keys - {k});
    } else if k :| k in keys {
      assert some == keys;
      NegativeSumWithout(knowledge, keys, k);
      NegativeSumFalls(knowledge, keys - {k}, keys - {k});
    }
  }

  lemma {:induction false} TotalFromEntries(knowledge: Entries, es: seq<Evidence>)
    requires SoundEvidence(knowledge, es)
    ensures Sources(es) <= knowledge.Keys && |Sources(es)| == |es|
    ensures Total(es) >= NegativeSum(knowledge, Sources(es))
    decreases |es|
  {
    if es != [] {
      var h, rest := es[0], es[1..];
      assert es == [h] + rest;
      ConsSources(knowledge, h, rest);
      TotalFromEntries(knowledge, rest);
      NegativeSumWithout(knowledge, Sources(es), h.knowledge);
      assert Sources(es) - {h.knowledge} == Sources(rest);
    }
  }

  lemma {:induction false} ScaledAtLeast(x: real, y: real, m: nat)
    requires x >= y
    ensures Scaled(x, m) >= Scaled(y, m)
  {
    if m > 0 { ScaledAtLeast(x, y, m - 1); }
  }

  lemma {:induction false} ScaledFalls(x: real, m: nat, n: nat)
    requires x <= 0.0 && m <= n
    ensures Scaled(x, n) <= Scaled(x, m) <= 0.0
    decreases n
  {
    if m < n {
      ScaledFalls(x, m, n - 1);
    } else if m > 0 {
      ScaledFalls(x, m - 1, m - 1);
    }
  }

  /** The sum of the negative confidences, added up once for each entry. */
  ghost function Worst(knowledge: Entries): real {
    Scaled(NegativeSum(knowledge, knowledge.Keys), |knowledge|)
  }

  lemma WorstIsProduct(knowledge: Entries)
    ensures Worst(knowledge) == |knowledge| as real * NegativeSum(knowledge, knowledge.Keys)
  {
    var x, n := NegativeSum(knowledge, knowledge.Keys), |knowledge|;
    ScaledIsProduct(x, n);
    assert x * n as real == n as real * x;
  }

  /** A total over at most one row for each entry is at least the worst one. */
  lemma TotalAtLeastWorst(knowledge: Entries, es: seq<Evidence>, others: seq<Evidence>)
    requires SoundEvidence(knowledge, es) && SoundEvidence(knowledge, others)
    ensures Scaled(Total(es), Max(1, |others|)) >= Worst(knowledge)
  {
    var n, m, least := |knowledge|, |others|, NegativeSum(knowledge, knowledge.Keys);
    TotalFromEntries(knowledge, es);
    TotalFromEntries(knowledge, others);
    SubsetCount(Sources(others), knowledge.Keys);
    NegativeSumFalls(knowledge, Sources(es), knowledge.Keys);
    ScaledAtLeast(Total(es), least, Max(1, m));
    ScaledRows(least, m, n);
  }

  lemma ScaledRows(x: real, m: nat, n: nat)
    requires x <= 0.0 && m <= n && (n == 0 ==> x == 0.0)
    ensures Scaled(x, Max(1, m)) >= Scaled(x, n)
  {
    if n == 0 { ScaledZero(1); } else { ScaledFalls(x, Max(1, m), n); }
  }

  lemma LaplaceInUnit(s: real, d: real)
    requires s >= -1.0 && d >= -1.0 && s + d > 0.0
    ensures 0.0 <= Laplace(s, d) <= 1.0
  {
    var x, y := s + 1.0, s + d + 2.0;
    var q := x / y;
    assert q * y == x;
    if q < 0.0 { ProductPositive(-q, y); }
    if q > 1.0 { ProductPositive(q - 1.0, y); }
  }

  predicate SoundClaim(knowledge: Entries, c: Claim, now: real) {
    && 0.0 <= c.confidence <= 1.0 && 0.0 <= c.certainty < 1.0
    && SoundSources(knowledge, c)
    && c.updatedAt <= now
  }

  ghost predicate SoundClaims(knowledge: Entries, claims: map<string, Claim>, now: real) {
    forall k :: k in claims ==> SoundClaim(knowledge, claims[k], now)
  }

  lemma RevisedSound(exp: real -> real, knowledge: Entries, c: Claim, before: real, now: real)
    requires ExpLaws(exp) && Worst(knowledge) >= -1.0 && SoundClaim(knowledge, c, before) && before <= now
    ensures SoundClaim(knowledge, Revised(exp, c, now), now)
  {
    if c.status != Refuted {
      if WithoutEvidence(c) {
        DecayTowardHalf(exp, c.confidence, now - c.updatedAt);
      } else {
        TotalsScale(c);
        TotalAtLeastWorst(knowledge, c.supports, c.contradicts);
        TotalAtLeastWorst(knowledge, c.contradicts, c.supports);
        LaplaceInUnit(SupportTotal(c), ContradictTotal(c));
      }
      var n := (|c.supports| + |c.contradicts|) as real;
      assert 0.0 < 1.0 / (1.0 + n) <= 1.0;
    }
  }

  /**
   As long as the negative recorded confidences, added up once for each entry there is, do not come to
   less than -1, confidence stays in [0, 1] over every run in time order.
   */
  lemma {:induction false} RunsKeepClaimsSound(t: CharTables, exp: real -> real, knowledge: Entries,
                                               claims: map<string, Claim>, events: seq<Event>, from: real)
    requires ExpLaws(exp) && Worst(knowledge) >= -1.0 && SoundClaims(knowledge, claims, from) && InOrder(events, from)
    ensures SoundClaims(knowledge, Run(t, exp, knowledge, claims, events), LastTime(events, from))
    decreases |events|
  {
    if events != [] {
      var e := events[0];
      var now := if e.AddEvidence? then from else e.now;
      var next := Apply(t, exp, knowledge, claims, e);
      forall k | k in next ensures SoundClaim(knowledge, next[k], now) {
        match e
        case Upsert(_, _, _) =>
        case AddEvidence(_, kn, direction, weight) =>
          AddedSound(knowledge, claims[k], direction == "supports", kn, weight);
        case Revise(_) => RevisedSound(exp, knowledge, claims[k], from, now);
      }
      RunsKeepClaimsSound(t, exp, knowledge, next, events[1..], now);
    }
  }

  // ---------------------------------------------------------------- a run that leaves [0, 1]

  /** One assertion for each entry, in one direction. */
  function Assertions(ks: seq<string>, direction: string, given: string -> Option<real>): seq<Event> {
    if ks == [] then [] else [AddEvidence("c", ks[0], direction, given(ks[0]))] + Assertions(ks[1..], direction, given)
  }

  function Edges(knowledge: Entries, ks: seq<string>, given: string -> Option<real>): seq<Evidence>
    requires forall i :: 0 <= i < |ks| ==> ks[i] in knowledge
  {
    if ks == [] then []
    else [Evidence(ks[0], EdgeWeight(given(ks[0]), knowledge[ks[0]]))] + Edges(knowledge, ks[1..], given)
  }

  /** Negative entries at their own confidence, all others without weight. */
  function Weakest(knowledge: Entries): string -> Option<real> {
    k => if k in knowledge && Negative(knowledge[k]) < 0.0 then None else Some(0.0)
  }

  function Fixed(w: real): string -> Option<real> {
    k => Some(w)
  }

  /** The only claim, with the given evidence and still active. */
  predicate OnlyClaim(claims: map<string, Claim>, key: string, supports: seq<Evidence>, contradicts: seq<Evidence>) {
    && claims.Keys == {key} && claims[key].uuid == "c" && claims[key].status == Active
    && claims[key].supports == supports && claims[key].contradicts == contradicts
  }

  lemma {:induction false} RunAppend(t: CharTables, exp: real -> real, knowledge: Entries, claims: map<string, Claim>,
                                     first: seq<Event>, second: seq<Event>)
    ensures Run(t, exp, knowledge, claims, first + second)
         == Run(t, exp, knowledge, Run(t, exp, knowledge, claims, first), second)
    decreases |first|
  {
    if first == [] {
      assert first + second == second;
    } else {
      assert (first + second)[1..] == first[1..] + second;
      RunAppend(t, exp, knowledge, Apply(t, exp, knowledge, claims, first[0]), first[1..], second);
    }
  }

  lemma {:induction false} AssertionsInOrder(ks: seq<string>, direction: string, given: string -> Option<real>,
                                             rest: seq<Event>, from: real)
    ensures InOrder(Assertions(ks, direction, given) + rest, from) <==> InOrder(rest, from)
    decreases |ks|
  {
    if ks == [] {
      assert [] + rest == rest;
    } else {
      var events := Assertions(ks, direction, given) + rest;
      assert events[1..] == Assertions(ks[1..], direction, given) + rest;
      AssertionsInOrder(ks[1..], direction, given, rest, from);
    }
  }

  lemma SourcesAppend(es: seq<Evidence>, e: Evidence)
    ensures Sources(es + [e]) == Sources(es) + {e.knowledge}
  {
    var longer := es + [e];
    assert longer[|es|] == e;
    forall k | k in Sources(es) ensures k in Sources(longer) {
      var i :| 0 <= i < |es| && es[i].knowledge == k;
      assert longer[i].knowledge == k;
    }
  }

  /** The assertions leave one edge each, after those that were there. */
  lemma {:induction false} SupportsRun(t: CharTables, exp: real -> real, knowledge: Entries, claims: map<string, Claim>,
                                       key: string, ks: seq<string>, given: string -> Option<real>, es: seq<Evidence>)
    requires OnlyClaim(claims, key, es, []) && NoRepeats(ks) &&
             forall i :: 0 <= i < |ks| ==> ks[i] in knowledge && ks[i] !in Sources(es)
    ensures OnlyClaim(Run(t, exp, knowledge, claims, Assertions(ks, "supports", given)), key,
                      es + Edges(knowledge, ks, given), [])
    decreases |ks|
  {
    if ks == [] {
      assert es + [] == es;
    } else {
      var events, e := Assertions(ks, "supports", given), Evidence(ks[0], EdgeWeight(given(ks[0]), knowledge[ks[0]]));
      NewSourceAppends(es, e);
      SourcesAppend(es, e);
      assert events[1..] == Assertions(ks[1..], "supports", given);
      SupportsRun(t, exp, knowledge, Apply(t, exp, knowledge, claims, events[0]), key, ks[1..], given, es + [e]);
      AppendAssociative(es, [e], Edges(knowledge, ks[1..], given));
    }
  }

  lemma {:induction false} ContradictsRun(t: CharTables, exp: real -> real, knowledge: Entries,
                                          claims: map<string, Claim>, key: string, ks: seq<string>,
                                          given: string -> Option<real>, supports: seq<Evidence>, es: seq<Evidence>)
    requires OnlyClaim(claims, key, supports, es) && NoRepeats(ks)
    requires forall i :: 0 <= i < |ks| ==> ks[i] in knowledge && ks[i] !in Sources(es)
    ensures OnlyClaim(Run(t, exp, knowledge, claims, Assertions(ks, "contradicts", given)), key, supports,
                      es + Edges(knowledge, ks, given))
    decreases |ks|
  {
    if ks == [] {
      assert es + [] == es;
    } else {
      var events, e := Assertions(ks, "contradicts", given),
        Evidence(ks[0], EdgeWeight(given(ks[0]), knowledge[ks[0]]));
      NewSourceAppends(es, e);
      SourcesAppend(es, e);
      assert events[1..] == Assertions(ks[1..], "contradicts", given);
      ContradictsRun(t, exp, knowledge, Apply(t, exp, knowledge, claims, events[0]), key, ks[1..], given, supports,
                     es + [e]);
      AppendAssociative(es, [e], Edges(knowledge, ks[1..], given));
    }
  }

  lemma {:induction false} WeakestTotal(knowledge: Entries, ks: seq<string>)
    requires NoRepeats(ks) && forall i :: 0 <= i < |ks| ==> ks[i] in knowledge
    ensures Elements(ks) <= knowledge.Keys && |Edges(knowledge, ks, Weakest(knowledge))| == |ks|
    ensures Total(Edges(knowledge, ks, Weakest(knowledge))) == NegativeSum(knowledge, Elements(ks))
    decreases |ks|
  {
    if ks != [] {
      var rest := ks[1..];
      WeakestTotal(knowledge, rest);
      assert Edges(knowledge, ks, Weakest(knowledge))[1..] == Edges(knowledge, rest, Weakest(knowledge));
      assert ks[0] in Elements(ks);
      NegativeSumWithout(knowledge, Elements(ks), ks[0]);
      assert Elements(ks) - {ks[0]} == Elements(rest) by {
        forall k | k in Elements(rest) ensures k in Elements(ks) - {ks[0]} {
          var i :| 0 <= i < |rest| && rest[i] == k;
          assert ks[i + 1] == k;
        }
        forall k | k in Elements(ks) - {ks[0]} ensures k in Elements(rest) {
          var i :| 0 <= i < |ks| && ks[i] == k;
          assert rest[i - 1] == k;
        }
      }
    }
  }

  lemma {:induction false} FixedTotal(knowledge: Entries, ks: seq<string>, w: real)
    requires w >= 0.0 && forall i :: 0 <= i < |ks| ==> ks[i] in knowledge
    ensures Total(Edges(knowledge, ks, Fixed(w))) == Scaled(w, |ks|) && |Edges(knowledge, ks, Fixed(w))| == |ks|
    decreases |ks|
  {
    if ks != [] {
      FixedTotal(knowledge, ks[1..], w);
      assert Edges(knowledge, ks, Fixed(w))[1..] == Edges(knowledge, ks[1..], Fixed(w));
    }
  }

  /** Create a claim, support it by the weakest edges, contradict it by all entries at weight w, and revise it. */
  function WorstRun(knowledge: Entries, ks: seq<string>, w: real): seq<Event> {
    [Upsert(ClaimInput("", "", "", 0.5, ""), "c", 0.0)] + (Assertions(ks, "supports", Weakest(knowledge))
    + (Assertions(ks, "contradicts", Fixed(w)) + [Revise(0.0)]))
  }

  lemma WorstRunInOrder(knowledge: Entries, ks: seq<string>, w: real)
    ensures InOrder(WorstRun(knowledge, ks, w), 0.0)
  {
    var last := [Revise(0.0)];
    var tail := Assertions(ks, "contradicts", Fixed(w)) + last;
    assert InOrder(last, 0.0) by { assert last[1..] == []; }
    AssertionsInOrder(ks, "contradicts", Fixed(w), last, 0.0);
    AssertionsInOrder(ks, "supports", Weakest(knowledge), tail, 0.0);
    var events := WorstRun(knowledge, ks, w);
    assert events[1..] == Assertions(ks, "supports", Weakest(knowledge)) + tail;
  }

  /** Against enough contradicting weight, a support total below -1 makes the confidence negative. */
  lemma WorstConfidence(exp: real -> real, c: Claim, n: nat, least: real, now: real)
    requires n >= 1 && |c.supports| == n == |c.contradicts| && least <= 0.0
    requires Total(c.supports) == least && Total(c.contradicts) == Scaled(1.0 - least, n)
    requires Scaled(least, n) < -1.0
    ensures NewConfidence(exp, c, now) < 0.0
  {
    var against := Scaled(1.0 - least, n);
    TotalsScale(c);
    ScaledPositive(1.0 - least, n - 1);
    assert against >= 1.0 - least;
    ScaledAdd(least, against, n);
    ScaledPositive(least + against, n);
    var x, y := Scaled(least, n) + 1.0, SupportTotal(c) + ContradictTotal(c) + 2.0;
    CompareRatios(x, y, 0.0, 1.0);
  }

  lemma WorstRunClaim(t: CharTables, exp: real -> real, knowledge: Entries, ks: seq<string>, w: real)
    returns (before: map<string, Claim>)
    requires NoRepeats(ks) && forall i :: 0 <= i < |ks| ==> ks[i] in knowledge
    ensures OnlyClaim(before, MergeKey(t, "", ""), Edges(knowledge, ks, Weakest(knowledge)),
                      Edges(knowledge, ks, Fixed(w)))
    ensures Run(t, exp, knowledge, map[], WorstRun(knowledge, ks, w)) == ReviseSpec(exp, before, 0.0)
  {
    var key := MergeKey(t, "", "");
    var first, last := Upsert(ClaimInput("", "", "", 0.5, ""), "c", 0.0), [Revise(0.0)];
    var pro, contra := Assertions(ks, "supports", Weakest(knowledge)), Assertions(ks, "contradicts", Fixed(w));
    var created := Apply(t, exp, knowledge, map[], first);
    assert OnlyClaim(created, key, [], []);
    SupportsRun(t, exp, knowledge, created, key, ks, Weakest(knowledge), []);
    var supported := Run(t, exp, knowledge, created, pro);
    var es := Edges(knowledge, ks, Weakest(knowledge));
    assert [] + es == es;
    ContradictsRun(t, exp, knowledge, supported, key, ks, Fixed(w), es, []);
    before := Run(t, exp, knowledge, supported, contra);
    assert [] + Edges(knowledge, ks, Fixed(w)) == Edges(knowledge, ks, Fixed(w));
    assert WorstRun(knowledge, ks, w)[1..] == pro + (contra + last);
    RunAppend(t, exp, knowledge, created, pro, contra + last);
    RunAppend(t, exp, knowledge, supported, contra, last);
    assert Run(t, exp, knowledge, before, last) == ReviseSpec(exp, before, 0.0) by { assert last[1..] == []; }
  }

  ghost predicate ConfidentAfter(t: CharTables, exp: real -> real, knowledge: Entries, events: seq<Event>, from: real) {
    var claims := Run(t, exp, knowledge, map[], events);
    InOrder(events, from) ==> forall k :: k in claims ==> 0.0 <= claims[k].confidence <= 1.0
  }

  lemma WorstRunBreaks(t: CharTables, exp: real -> real, knowledge: Entries) returns (events: seq<Event>)
    requires Worst(knowledge) < -1.0
    ensures !ConfidentAfter(t, exp, knowledge, events, 0.0)
  {
    var ks := Enumerate(knowledge.Keys);
    var n, least := |ks|, NegativeSum(knowledge, knowledge.Keys);
    DistinctCount(ks);
    assert |knowledge.Keys| == |knowledge| == n;
    forall i | 0 <= i < n ensures ks[i] in knowledge { assert ks[i] in Elements(ks); }
    NegativeSumFalls(knowledge, {}, knowledge.Keys);
    events := WorstRun(knowledge, ks, 1.0 - least);
    WorstRunInOrder(knowledge, ks, 1.0 - least);
    var key := MergeKey(t, "", "");
    var before := WorstRunClaim(t, exp, knowledge, ks, 1.0 - least);
    WeakestTotal(knowledge, ks);
    FixedTotal(knowledge, ks, 1.0 - least);
    WorstConfidence(exp, before[key], n, least, 0.0);
    assert key in ReviseSpec(exp, before, 0.0);
  }

  lemma StaysConfident(t: CharTables, exp: real -> real, knowledge: Entries, events: seq<Event>, from: real)
    requires ExpLaws(exp) && Worst(knowledge) >= -1.0
    ensures ConfidentAfter(t, exp, knowledge, events, from)
  {
    if InOrder(events, from) {
      RunsKeepClaimsSound(t, exp, knowledge, map[], events, from);
      var claims := Run(t, exp, knowledge, map[], events);
      forall k | k in claims ensures 0.0 <= claims[k].confidence <= 1.0 {
        assert SoundClaim(knowledge, claims[k], LastTime(events, from));
      }
    }
  }

  /**
   Every confidence stays in [0, 1] over all runs in time order if and only if the sum of the negative
   recorded confidences, times the number of entries, is at least -1.
   */
  lemma ConfidenceOverAllRunsIff(t: CharTables, exp: real -> real, knowledge: Entries)
    requires ExpLaws(exp)
    ensures (forall events: seq<Event>, from: real :: ConfidentAfter(t, exp, knowledge, events, from))
            <==> |knowledge| as real * NegativeSum(knowledge, knowledge.Keys) >= -1.0
  {
    WorstIsProduct(knowledge);
    if Worst(knowledge) >= -1.0 {
      forall events: seq<Event>, from: real ensures ConfidentAfter(t, exp, knowledge, events, from) {
        StaysConfident(t, exp, knowledge, events, from);
      }
    } else {
      var events := WorstRunBreaks(t, exp, knowledge);
    }
  }

  const DOUBTED: Entries := map["k" := Some(-2.0)]

  function DoubtedRun(): seq<Event> {
    [Upsert(ClaimInput("", "", "", 0.5, ""), "c", 0.0), AddEvidence("c", "k", "supports", None),
     AddEvidence("c", "k", "contradicts", Some(3.0)), Revise(0.0)]
  }

  lemma DoubtedRunIsWorst()
    ensures WorstRun(DOUBTED, ["k"], 3.0) == DoubtedRun()
    ensures Edges(DOUBTED, ["k"], Weakest(DOUBTED)) == [Evidence("k", -2.0)] &&
            Edges(DOUBTED, ["k"], Fixed(3.0)) == [Evidence("k", 3.0)]
  {
    assert ["k"][1..] == [];
  }

  lemma DoubtedConfidence(exp: real -> real, c: Claim)
    requires c.supports == [Evidence("k", -2.0)] && c.contradicts == [Evidence("k", 3.0)]
    ensures NewConfidence(exp, c, 0.0) < 0.0
  {
    assert c.supports[1..] == [] && c.contradicts[1..] == [];
    TotalsMultiply(c);
    assert NewConfidence(exp, c, 0.0) == Laplace(-2.0, 3.0);
  }

  /** One entry at -2 is enough: support at its own confidence, contradiction at 3, and a confidence of -1/3. */
  lemma NegativeEntryLeavesUnit(t: CharTables, exp: real -> real)
    ensures var key, after := MergeKey(t, "", ""), Run(t, exp, DOUBTED, map[], DoubtedRun());
            key in after && after[key].confidence < 0.0
  {
    DoubtedRunIsWorst();
    var before := WorstRunClaim(t, exp, DOUBTED, ["k"], 3.0);
    DoubtedConfidence(exp, before[MergeKey(t, "", "")]);
  }

  // ---------------------------------------------------------------- what upserts leave behind

  predicate Merges(t: CharTables, e: Event, key: string) {
    e.Upsert? && MergeKey(t, e.input.cause, e.input.effect) == key
  }

  /** The claim keeps its identity and wording; its mechanism never gets shorter. */
  predicate Extends(before: Claim, after: Claim) {
    && (after.uuid, after.cause, after.effect, after.causalType, after.createdAt)
       == (before.uuid, before.cause, before.effect, before.causalType, before.createdAt)
    && |after.mechanism| >= |before.mechanism|
  }

  /**
   Over every run a claim keeps what its creation fixed, and its mechanism is at least as long as each
   one proposed for it, whatever evidence and revisions come in between.
   */
  lemma {:induction false} ClaimsKeepTheirIdentity(t: CharTables, exp: real -> real, knowledge: Entries,
                                                   claims: map<string, Claim>, events: seq<Event>, key: string)
    requires key in claims
    ensures var after := Run(t, exp, knowledge, claims, events);
            && key in after && Extends(claims[key], after[key])
            && (forall i :: 0 <= i < |events| && Merges(t, events[i], key) ==>
                |events[i].input.mechanism| <= |after[key].mechanism|)
    decreases |events|
  {
    if events != [] {
      var next := Apply(t, exp, knowledge, claims, events[0]);
      ClaimsKeepTheirIdentity(t, exp, knowledge, next, events[1..], key);
      var after := Run(t, exp, knowledge, claims, events);
      forall i | 0 <= i < |events| && Merges(t, events[i], key)
        ensures |events[i].input.mechanism| <= |after[key].mechanism| {
        if i > 0 { assert events[1..][i - 1] == events[i]; }
      }
    }
  }

  // ---------------------------------------------------------------- what a claim remembers of a run

  lemma RunSplit(t: CharTables, exp: real -> real, knowledge: Entries, claims: map<string, Claim>, events: seq<Event>,
                 i: nat)
    requires i < |events|
    ensures Run(t, exp, knowledge, claims, events)
         == Run(t, exp, knowledge, Apply(t, exp, knowledge, Run(t, exp, knowledge, claims, events[..i]), events[i]),
                events[i + 1..])
  {
    assert events == events[..i] + events[i..];
    RunAppend(t, exp, knowledge, claims, events[..i], events[i..]);
    assert events[i..][0] == events[i] && events[i..][1..] == events[i + 1..];
  }

  /** The i-th call is the first to upsert the claim. */
  ghost predicate FirstUpsert(t: CharTables, events: seq<Event>, key: string, i: nat) {
    i < |events| && Merges(t, events[i], key) && forall j :: 0 <= j < i ==> !Merges(t, events[j], key)
  }

  ghost predicate LastUpsert(t: CharTables, events: seq<Event>, key: string, i: nat) {
    i < |events| && Merges(t, events[i], key) && forall j :: i < j < |events| ==> !Merges(t, events[j], key)
  }

  /** The i-th call proposes the first of the longest mechanisms. */
  ghost predicate LongestMechanism(t: CharTables, events: seq<Event>, key: string, i: nat) {
    && i < |events| && Merges(t, events[i], key)
    && (forall j :: 0 <= j < i && Merges(t, events[j], key) ==>
          |events[j].input.mechanism| < |events[i].input.mechanism|)
    && (forall j :: i < j < |events| && Merges(t, events[j], key) ==>
          |events[j].input.mechanism| <= |events[i].input.mechanism|)
  }

  ghost predicate NoRevision(events: seq<Event>, from: int) {
    forall j :: 0 <= j < |events| && j >= from ==> !events[j].Revise?
  }

  ghost predicate NoEvidenceFor(events: seq<Event>, from: int, uuid: string) {
    forall j :: 0 <= j < |events| && j >= from && events[j].AddEvidence? ==> events[j].claimUuid != uuid
  }

  /** What the upsert that creates a claim fixes for good. */
  predicate CreatedBy(e: Event, c: Claim)
    requires e.Upsert?
  {
    && c.uuid == e.freshUuid && c.createdAt == e.now && c.cause == e.input.cause && c.effect == e.input.effect
    && c.causalType == (if e.input.causalType in ["causes", "enables", "prevents", "inhibits"]
                        then e.input.causalType else "causes")
  }

  predicate Unsupported(c: Claim) {
    c.supports == c.contradicts == [] && c.evidenceCount == 0
  }

  /** What an upsert sets each time: the confidence, cut off to [0, 1], and the time. */
  predicate UpdatedBy(e: Event, c: Claim)
    requires e.Upsert?
  {
    var given := e.input.confidence;
    c.confidence == (if given < 0.0 then 0.0 else if given > 1.0 then 1.0 else given) && c.updatedAt == e.now
  }

  /** Only upserts make claims. */
  lemma {:induction false} ClaimedIff(t: CharTables, exp: real -> real, knowledge: Entries, claims: map<string, Claim>,
                                      events: seq<Event>, key: string)
    ensures key in Run(t, exp, knowledge, claims, events) <==>
            key in claims || exists i :: 0 <= i < |events| && Merges(t, events[i], key)
    decreases |events|
  {
    if events != [] {
      var rest := events[1..];
      ClaimedIff(t, exp, knowledge, Apply(t, exp, knowledge, claims, events[0]), rest, key);
      assert forall i :: 0 <= i < |rest| ==> rest[i] == events[i + 1];
      assert forall i :: 0 < i < |events| ==> events[i] == rest[i - 1];
    }
  }

  /** Without a revision, a claim keeps its status and, if it is not upserted either, its confidence. */
  lemma {:induction false} KeptUnrevised(t: CharTables, exp: real -> real, knowledge: Entries,
                                         claims: map<string, Claim>, events: seq<Event>, key: string)
    requires key in claims && NoRevision(events, 0)
    ensures var after := Run(t, exp, knowledge, claims, events);
            && key in after && after[key].status == claims[key].status && after[key].certainty == claims[key].certainty
            && ((forall i :: 0 <= i < |events| ==> !Merges(t, events[i], key)) ==>
                 after[key].confidence == claims[key].confidence && after[key].updatedAt == claims[key].updatedAt)
    decreases |events|
  {
    if events != [] {
      KeptUnrevised(t, exp, knowledge, Apply(t, exp, knowledge, claims, events[0]), events[1..], key);
    }
  }

  /** Without a call for it, a claim has no evidence. */
  lemma {:induction false} KeptWithoutEvidence(t: CharTables, exp: real -> real, knowledge: Entries,
                                               claims: map<string, Claim>, events: seq<Event>, key: string)
    requires key in claims && NoEvidenceFor(events, 0, claims[key].uuid)
    requires Unsupported(claims[key])
    ensures var after := Run(t, exp, knowledge, claims, events); key in after && Unsupported(after[key])
    decreases |events|
  {
    if events != [] {
      KeptWithoutEvidence(t, exp, knowledge, Apply(t, exp, knowledge, claims, events[0]), events[1..], key);
    }
  }

  lemma {:induction false} MechanismBelow(t: CharTables, exp: real -> real, knowledge: Entries,
                                          claims: map<string, Claim>, events: seq<Event>, key: string, n: nat)
    requires key in claims ==> |claims[key].mechanism| < n
    requires forall i :: 0 <= i < |events| && Merges(t, events[i], key) ==> |events[i].input.mechanism| < n
    ensures var after := Run(t, exp, knowledge, claims, events); key in after ==> |after[key].mechanism| < n
    decreases |events|
  {
    if events != [] {
      MechanismBelow(t, exp, knowledge, Apply(t, exp, knowledge, claims, events[0]), events[1..], key, n);
    }
  }

  lemma {:induction false} MechanismKept(t: CharTables, exp: real -> real, knowledge: Entries,
                                         claims: map<string, Claim>, events: seq<Event>, key: string)
    requires key in claims
    requires forall i :: 0 <= i < |events| && Merges(t, events[i], key) ==>
               |events[i].input.mechanism| <= |claims[key].mechanism|
    ensures var after := Run(t, exp, knowledge, claims, events);
            key in after && after[key].mechanism == claims[key].mechanism
    decreases |events|
  {
    if events != [] {
      MechanismKept(t, exp, knowledge, Apply(t, exp, knowledge, claims, events[0]), events[1..], key);
    }
  }

  /** What the first upsert fixes for good. */
  lemma FirstUpsertRemains(t: CharTables, exp: real -> real, knowledge: Entries, events: seq<Event>, key: string,
                           first: nat)
    requires FirstUpsert(t, events, key, first)
    ensures var after := Run(t, exp, knowledge, map[], events); key in after && CreatedBy(events[first], after[key])
  {
    var made := Created(t, exp, knowledge, events, key, first);
    ClaimsKeepTheirIdentity(t, exp, knowledge, made, events[first + 1..], key);
  }

  /** The claims right after the first upsert of the key. */
  lemma Created(t: CharTables, exp: real -> real, knowledge: Entries, events: seq<Event>, key: string, first: nat)
    returns (made: map<string, Claim>)
    requires FirstUpsert(t, events, key, first)
    ensures Run(t, exp, knowledge, map[], events) == Run(t, exp, knowledge, made, events[first + 1..])
    ensures key in made && CreatedBy(events[first], made[key]) && Unsupported(made[key])
    ensures made[key].status == Active && made[key].certainty == 0.0
  {
    var before := Run(t, exp, knowledge, map[], events[..first]);
    RunSplit(t, exp, knowledge, map[], events, first);
    ClaimedIff(t, exp, knowledge, map[], events[..first], key);
    made := Apply(t, exp, knowledge, before, events[first]);
  }

  /** A claim starts active at certainty 0 and without evidence. */
  lemma StartsActive(t: CharTables, exp: real -> real, knowledge: Entries, events: seq<Event>, key: string, first: nat)
    requires FirstUpsert(t, events, key, first)
    ensures var after := Run(t, exp, knowledge, map[], events);
            && key in after
            && (NoRevision(events, first) ==> after[key].status == Active && after[key].certainty == 0.0)
            && (NoEvidenceFor(events, first, events[first].freshUuid) ==> Unsupported(after[key]))
  {
    var made := Created(t, exp, knowledge, events, key, first);
    var rest := events[first + 1..];
    ClaimsKeepTheirIdentity(t, exp, knowledge, made, rest, key);
    if NoRevision(events, first) { KeptUnrevised(t, exp, knowledge, made, rest, key); }
    if NoEvidenceFor(events, first, events[first].freshUuid) {
      KeptWithoutEvidence(t, exp, knowledge, made, rest, key);
    }
  }

  lemma LastUpsertCounts(t: CharTables, exp: real -> real, knowledge: Entries, events: seq<Event>, key: string,
                         last: nat)
    requires LastUpsert(t, events, key, last) && NoRevision(events, last)
    ensures var after := Run(t, exp, knowledge, map[], events); key in after && UpdatedBy(events[last], after[key])
  {
    RunSplit(t, exp, knowledge, map[], events, last);
    var before := Run(t, exp, knowledge, map[], events[..last]);
    KeptUnrevised(t, exp, knowledge, Apply(t, exp, knowledge, before, events[last]), events[last + 1..], key);
  }

  lemma LongestMechanismStays(t: CharTables, exp: real -> real, knowledge: Entries, events: seq<Event>, key: string,
                              longest: nat)
    requires LongestMechanism(t, events, key, longest)
    ensures var after := Run(t, exp, knowledge, map[], events);
            key in after && after[key].mechanism == events[longest].input.mechanism
  {
    var before, m := Run(t, exp, knowledge, map[], events[..longest]), events[longest].input.mechanism;
    RunSplit(t, exp, knowledge, map[], events, longest);
    MechanismBelow(t, exp, knowledge, map[], events[..longest], key, |m|);
    MechanismKept(t, exp, knowledge, Apply(t, exp, knowledge, before, events[longest]), events[longest + 1..], key);
  }

  /**
   Over every run a claim exists if and only if some call upserted it. Its identifier, wording, type and
   creation time are those of the first upsert; the type is "causes" unless the given one is among the four.
   It is active at certainty 0 until a revision and has no evidence until some is added. Its mechanism is the
   first of the longest ones proposed. Its confidence is that of the last upsert, cut off to [0, 1], unless a
   revision follows.
   */
  lemma ClaimRemembersUpserts(t: CharTables, exp: real -> real, knowledge: Entries, events: seq<Event>, key: string,
                              after: map<string, Claim>)
    requires after == Run(t, exp, knowledge, map[], events)
    ensures key in after <==> exists i :: 0 <= i < |events| && Merges(t, events[i], key)
    ensures forall i: nat :: FirstUpsert(t, events, key, i) ==>
      && key in after && CreatedBy(events[i], after[key])
      && (NoRevision(events, i) ==> after[key].status == Active && after[key].certainty == 0.0)
      && (NoEvidenceFor(events, i, events[i].freshUuid) ==> Unsupported(after[key]))
    ensures forall i: nat :: LongestMechanism(t, events, key, i) ==>
      key in after && after[key].mechanism == events[i].input.mechanism
    ensures forall i: nat :: LastUpsert(t, events, key, i) && NoRevision(events, i) ==>
      key in after && UpdatedBy(events[i], after[key])
  {
    ClaimedIff(t, exp, knowledge, map[], events, key);
    forall i: nat | FirstUpsert(t, events, key, i)
      ensures key in after && CreatedBy(events[i], after[key])
      ensures NoRevision(events, i) ==> after[key].status == Active && after[key].certainty == 0.0
      ensures NoEvidenceFor(events, i, events[i].freshUuid) ==> Unsupported(after[key])
    {
      FirstUpsertRemains(t, exp, knowledge, events, key, i);
      StartsActive(t, exp, knowledge, events, key, i);
    }
    forall i: nat | LongestMechanism(t, events, key, i)
      ensures key in after && after[key].mechanism == events[i].input.mechanism
    {
      LongestMechanismStays(t, exp, knowledge, events, key, i);
    }
    forall i: nat | LastUpsert(t, events, key, i) && NoRevision(events, i)
      ensures key in after && UpdatedBy(events[i], after[key])
    {
      LastUpsertCounts(t, exp, knowledge, events, key, i);
    }
  }

  /** A claim upserted with confidence 0.3 and then 0.9 stands at 0.9. */
  lemma LaterConfidenceCounts(t: CharTables, exp: real -> real, knowledge: Entries, cause: string, effect: string)
    ensures var key := MergeKey(t, cause, effect);
            var events := [Upsert(ClaimInput(cause, effect, "", 0.3, "causes"), "a", 0.0),
                           Upsert(ClaimInput(cause, effect, "", 0.9, "causes"), "b", 1.0)];
            var after := Run(t, exp, knowledge, map[], events);
            key in after && after[key].uuid == "a" && after[key].confidence == 0.9 && after[key].updatedAt == 1.0
  {
    var key := MergeKey(t, cause, effect);
    var events := [Upsert(ClaimInput(cause, effect, "", 0.3, "causes"), "a", 0.0),
                   Upsert(ClaimInput(cause, effect, "", 0.9, "causes"), "b", 1.0)];
    assert FirstUpsert(t, events, key, 0) && LastUpsert(t, events, key, 1);
    FirstUpsertRemains(t, exp, knowledge, events, key, 0);
    LastUpsertCounts(t, exp, knowledge, events, key, 1);
  }
}
