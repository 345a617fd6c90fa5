/**
 Canonical class and property names, inverses and symmetry
 (src/memory_service/ontology/schema_org.py). The tables are parameters: they are read once from a
 vocabulary file.
 */
module Vocabulary {
  import opened Basics
  import opened Names

  const FALLBACK_CLASS := "Thing"
  const FALLBACK_PREDICATE := "relatedTo"

  datatype Vocab = Vocab(
    tables: CharTables,
    classes: set<string>,
    classesByLower: map<string, string>,
    classAliases: map<string, string>,
    properties: set<string>,
    propertiesByLower: map<string, string>,
    predicateAliases: map<string, string>,
    inverses: map<string, string>,
    symmetric: set<string>)

  /** The lower-case indexes point at declared names, and no declared name is empty. */
  ghost predicate WellFormed(v: Vocab) {
    && Lawful(v.tables)
    && (forall k :: k in v.classesByLower ==> v.classesByLower[k] in v.classes)
    && (forall k :: k in v.propertiesByLower ==> v.propertiesByLower[k] in v.properties)
    && "" !in v.classes && "" !in v.properties
  }

  // ---------------------------------------------------------------- classes

  function Alphanumeric(s: string): string {
    if s == "" then ""
    else
      var c := s[0];
      (if 'a' <= c <= 'z' || 'A' <= c <= 'Z' || '0' <= c <= '9' then [c] else "") + Alphanumeric(s[1..])
  }

  function NormalizeClass(v: Vocab, raw: string): string {
    var lower := v.tables.lower(raw);
    var cleaned := Alphanumeric(raw);
    if raw == "" then FALLBACK_CLASS
    else if raw in v.classes then raw
    else if lower in v.classesByLower then v.classesByLower[lower]
    else if lower in v.classAliases && v.classAliases[lower] != "" &&
      v.classAliases[lower] in v.classes then v.classAliases[lower]
    else if cleaned in v.classes then cleaned
    else if v.tables.lower(cleaned) in v.classesByLower then v.classesByLower[v.tables.lower(cleaned)]
    else FALLBACK_CLASS
  }

  /** Results are declared classes or the fallback, and declared classes are left alone. */
  lemma NormalizeClassRange(v: Vocab, c: string)
    requires WellFormed(v)
    ensures (exists raw :: NormalizeClass(v, raw) == c) <==> c in v.classes || c == FALLBACK_CLASS
    ensures FALLBACK_CLASS in v.classes ==> NormalizeClass(v, NormalizeClass(v, c)) == NormalizeClass(v, c)
  {
    assert NormalizeClass(v, "") == FALLBACK_CLASS;
    if c in v.classes { assert NormalizeClass(v, c) == c; }
  }

  /** What is left are the letters and digits, in order. */
  lemma {:induction false} AlphanumericJoins(a: string, b: string)
    ensures Alphanumeric(a + b) == Alphanumeric(a) + Alphanumeric(b)
  {
    if a == "" {
      AppendNothing(b);
    } else {
      AlphanumericJoins(a[1..], b);
      AlphanumericHead(a);
      AlphanumericHead(a + b);
      assert (a + b)[1..] == a[1..] + b;
      AppendAssociative(Alphanumeric([a[0]]), Alphanumeric(a[1..]), Alphanumeric(b));
    }
  }

  lemma AlphanumericHead(s: string)
    requires s != ""
    ensures Alphanumeric(s) == Alphanumeric([s[0]]) + Alphanumeric(s[1..])
  {
    AlphanumericLetter(s[0]);
  }

  lemma AlphanumericLetter(c: char)
    ensures Alphanumeric([c]) == if 'a' <= c <= 'z' || 'A' <= c <= 'Z' || '0' <= c <= '9' then [c] else ""
  {
    assert [c][1..] == "";
  }

  /** The index holds the lower-case forms of the names, each with a name it belongs to. */
  ghost predicate Indexes(v: Vocab, names: set<string>, index: map<string, string>) {
    && (forall c :: c in names ==> v.tables.lower(c) in index)
    && (forall k :: k in index ==> index[k] in names && v.tables.lower(index[k]) == k)
  }

  /** c is a declared name that differs from s in case only. */
  predicate SameName(v: Vocab, names: set<string>, s: string, c: string) {
    c in names && v.tables.lower(c) == v.tables.lower(s)
  }

  ghost predicate Declared(v: Vocab, names: set<string>, s: string) {
    exists c :: SameName(v, names, s, c)
  }

  predicate Aliased(v: Vocab, names: set<string>, aliases: map<string, string>, s: string) {
    v.tables.lower(s) in aliases && aliases[v.tables.lower(s)] in names
  }

  lemma IndexFinds(v: Vocab, names: set<string>, index: map<string, string>, s: string)
    requires Indexes(v, names, index)
    ensures v.tables.lower(s) in index <==> Declared(v, names, s)
    ensures Declared(v, names, s) ==> SameName(v, names, s, index[v.tables.lower(s)])
  {
    if v.tables.lower(s) in index { assert SameName(v, names, s, index[v.tables.lower(s)]); }
  }

  /**
   Where a spelling of a class leads: to itself if it is declared, else to a class that differs in case only, else
   to its alias, else to what its letters and digits spell out, in whatever case, and else to the fallback.
   */
  lemma ClassSpellings(v: Vocab, raw: string)
    requires WellFormed(v) && Indexes(v, v.classes, v.classesByLower) && raw != ""
    ensures var c, stripped := NormalizeClass(v, raw), Alphanumeric(raw);
            && (raw in v.classes ==> c == raw)
            && (Declared(v, v.classes, raw) ==> SameName(v, v.classes, raw, c))
            && (!Declared(v, v.classes, raw) ==>
                  if Aliased(v, v.classes, v.classAliases, raw) then c == v.classAliases[v.tables.lower(raw)]
                  else if stripped in v.classes then c == stripped
                  else if Declared(v, v.classes, stripped) then SameName(v, v.classes, stripped, c)
                  else c == "Thing")
  {
    IndexFinds(v, v.classes, v.classesByLower, raw);
    IndexFinds(v, v.classes, v.classesByLower, Alphanumeric(raw));
    assert raw in v.classes ==> SameName(v, v.classes, raw, raw);
  }

  // ---------------------------------------------------------------- predicates

  /** "works-for" becomes "worksFor": a hyphen and the letter after it become the capital letter. */
  function Camel(s: string): string {
    if s == "" then ""
    else if |s| >= 2 && s[0] == '-' && 'a' <= s[1] <= 'z' then
      [s[1] - 'a' + 'A'] + Camel(s[2..])
    else [s[0]] + Camel(s[1..])
  }

  function NormalizePredicate(v: Vocab, raw: string): string {
    var lower := v.tables.lower(raw);
    var camel := Camel(raw);
    if raw == "" then FALLBACK_PREDICATE
    else if raw in v.properties then raw
    else if lower in v.propertiesByLower then v.propertiesByLower[lower]
    else if lower in v.predicateAliases && v.predicateAliases[lower] != "" &&
      v.predicateAliases[lower] in v.properties then v.predicateAliases[lower]
    else if camel in v.properties then camel
    else if v.tables.lower(camel) in v.propertiesByLower then v.propertiesByLower[v.tables.lower(camel)]
    else FALLBACK_PREDICATE
  }

  predicate IsHump(s: string, i: nat) {
    i + 1 < |s| && s[i] == '-' && 'a' <= s[i + 1] <= 'z'
  }

  /** A hyphen and the small letter after it become the capital letter; nothing else changes. */
  lemma {:induction false} CamelHumps(a: string, c: char, b: string)
    requires 'a' <= c <= 'z'
    ensures Camel(a + ['-', c] + b) == Camel(a) + [c - 'a' + 'A'] + Camel(b)
    decreases |a|
  {
    var s := a + ['-', c] + b;
    if a == "" {
      assert s[2..] == b;
    } else {
      var n, first := if IsHump(a, 0) then 2 else 1, if IsHump(a, 0) then [a[1] - 'a' + 'A'] else [a[0]];
      CamelHumps(a[n..], c, b);
      assert s[n..] == a[n..] + ['-', c] + b;
      assert Camel(a) == first + Camel(a[n..]);
      assert Camel(s) == first + Camel(s[n..]);
      AppendAssociative(first, Camel(a[n..]), [c - 'a' + 'A']);
      AppendAssociative(first, Camel(a[n..]) + [c - 'a' + 'A'], Camel(b));
    }
  }

  lemma {:induction false} CamelOtherwise(s: string)
    requires forall i: nat :: !IsHump(s, i)
    ensures Camel(s) == s
  {
    if s != "" {
      forall i: nat ensures !IsHump(s[1..], i) { assert !IsHump(s, i + 1); }
      assert !IsHump(s, 0);
      CamelOtherwise(s[1..]);
    }
  }

  /**
   Where a spelling of a property leads: to itself if it is declared, else to a property that differs in case only,
   else to its alias, else to its camel-case form, in whatever case, and else to the fallback.
   */
  lemma PredicateSpellings(v: Vocab, raw: string)
    requires WellFormed(v) && Indexes(v, v.properties, v.propertiesByLower) && raw != ""
    ensures var p, camel := NormalizePredicate(v, raw), Camel(raw);
            && (raw in v.properties ==> p == raw)
            && (Declared(v, v.properties, raw) ==> SameName(v, v.properties, raw, p))
            && (!Declared(v, v.properties, raw) ==>
                  if Aliased(v, v.properties, v.predicateAliases, raw) then p == v.predicateAliases[v.tables.lower(raw)]
                  else if camel in v.properties then p == camel
                  else if Declared(v, v.properties, camel) then SameName(v, v.properties, camel, p)
                  else p == "relatedTo")
  {
    IndexFinds(v, v.properties, v.propertiesByLower, raw);
    IndexFinds(v, v.properties, v.propertiesByLower, Camel(raw));
    assert raw in v.properties ==> SameName(v, v.properties, raw, raw);
  }

  /** A hyphenated spelling, such as "works-for" of "worksFor", leads there unless declared or aliased itself. */
  lemma HyphenatedProperty(v: Vocab, a: string, c: char, b: string, raw: string, p: string)
    requires WellFormed(v) && Indexes(v, v.properties, v.propertiesByLower)
    requires 'a' <= c <= 'z' && raw == a + ['-', c] + b && p == a + [c - 'a' + 'A'] + b && p in v.properties
    requires forall i: nat :: !IsHump(a, i) && !IsHump(b, i)
    requires !Declared(v, v.properties, raw) && !Aliased(v, v.properties, v.predicateAliases, raw)
    ensures NormalizePredicate(v, raw) == p
  {
    PredicateSpellings(v, raw);
    CamelHumps(a, c, b);
    CamelOtherwise(a);
    CamelOtherwise(b);
  }

  /** The predicates an edge can be asserted with. */
  function Canonical(v: Vocab): set<string> {
    v.properties + {FALLBACK_PREDICATE}
  }

  lemma PredicateIsCanonical(v: Vocab, raw: string)
    requires WellFormed(v)
    ensures NormalizePredicate(v, raw) in Canonical(v)
  {
  }

  /** Results are declared properties or the fallback; every one of those is a result. */
  lemma NormalizePredicateRange(v: Vocab, p: string)
    requires WellFormed(v)
    ensures (exists raw :: NormalizePredicate(v, raw) == p) <==> p in Canonical(v)
  {
    if raw :| NormalizePredicate(v, raw) == p {
      PredicateIsCanonical(v, raw);
    }
    if p in v.properties {
      assert NormalizePredicate(v, p) == p;
    } else if p == FALLBACK_PREDICATE {
      assert NormalizePredicate(v, "") == p;
    }
  }

  lemma NormalizePredicateIdempotent(v: Vocab, raw: string)
    requires WellFormed(v) && FALLBACK_PREDICATE in v.properties
    ensures NormalizePredicate(v, NormalizePredicate(v, raw)) == NormalizePredicate(v, raw)
  {
    PredicateIsCanonical(v, raw);
  }

  // ---------------------------------------------------------------- inverses

  /** q is the declared inverse of p; an empty entry declares none. */
  predicate HasInverse(v: Vocab, p: string, q: string) {
    p in v.inverses && v.inverses[p] == q && q != ""
  }

  /** Declared symmetric, or declared as its own inverse. */
  predicate IsSymmetric(v: Vocab, p: string) {
    p in v.symmetric || (p in v.inverses && v.inverses[p] == p)
  }

  /** p and q are declared inverse to each other in at least one direction. */
  predicate Inverse(v: Vocab, p: string, q: string) {
    HasInverse(v, p, q) || HasInverse(v, q, p)
  }

  /**
   The condition on the tables under which write-time inference closes the graph. For a predicate p
   that can be asserted:
     - whatever declares p as its inverse is in turn the declared inverse of p;
     - a symmetric p is paired with no other predicate;
     - the other predicate q of a pair is not symmetric and is paired with p alone.
   */
  ghost predicate Coherent(v: Vocab) {
    forall p :: p in Canonical(v) ==> CoherentAt(v, p)
  }

  ghost predicate CoherentAt(v: Vocab, p: string) {
    && (forall q :: HasInverse(v, q, p) && q != p ==> HasInverse(v, p, q))
    && (forall q :: HasInverse(v, p, q) && q != p ==>
          !IsSymmetric(v, p) && !IsSymmetric(v, q) && (forall r :: Inverse(v, q, r) ==> r == p))
  }
}
