/** Vocabulary shared by the other modules. */
module Basics {

  datatype Option<+T> = None | Some(value: T)

  datatype Result<+T, +E> = Ok(value: T) | Err(error: E)

  /** No element occurs twice. */
  predicate NoRepeats<T(==)>(s: seq<T>) {
    forall i, j :: 0 <= i < j < |s| ==> s[i] != s[j]
  }

  function Elements<T>(s: seq<T>): set<T> {
    set i | 0 <= i < |s| :: s[i]
  }

  lemma ElementsAppend<T>(s: seq<T>, x: T)
    ensures Elements(s + [x]) == Elements(s) + {x}
  {
    var longer := s + [x];
    assert longer[|s|] == x;
    forall y | y in Elements(s) ensures y in Elements(longer) {
      var i :| 0 <= i < |s| && s[i] == y;
      assert longer[i] == y;
    }
  }

  lemma {:induction false} DistinctCount<T>(s: seq<T>)
    requires NoRepeats(s)
    ensures |Elements(s)| == |s|
  {
    if s != [] {
      var shorter, last := s[..|s| - 1], s[|s| - 1];
      DistinctCount(shorter);
      ElementsAppend(shorter, last);
      assert s == shorter + [last];
      assert last !in Elements(shorter);
    }
  }

  /** Distinctness by counting. */
  lemma {:induction false} DistinctIffCountedOnce<T>(s: seq<T>)
    ensures NoRepeats(s) <==> forall x :: multiset(s)[x] <= 1
  {
    if s != [] {
      var shorter, last := s[..|s| - 1], s[|s| - 1];
      DistinctIffCountedOnce(shorter);
      assert s == shorter + [last];
      assert multiset(s) == multiset(shorter) + multiset{last};
      assert last in shorter <==> multiset(shorter)[last] >= 1;
      assert NoRepeats(s) <==> NoRepeats(shorter) && last !in shorter;
      if NoRepeats(s) {
        forall x ensures multiset(s)[x] <= 1 { assert multiset(shorter)[x] <= 1; }
      }
      if forall x :: multiset(s)[x] <= 1 {
        forall x ensures multiset(shorter)[x] <= 1 { assert multiset(s)[x] <= 1; }
        assert multiset(s)[last] <= 1;
      }
    }
  }

  lemma {:induction false} SubsetCount<T>(a: set<T>, b: set<T>)
    requires a <= b
    ensures |a| <= |b|
  {
    if a != {} {
      var x :| x in a;
      SubsetCount(a - {x}, b - {x});
    }
  }

  /** The elements of a set, one after the other. */
  lemma {:induction false} Enumerate<T>(all: set<T>) returns (s: seq<T>)
    ensures NoRepeats(s) && Elements(s) == all
  {
    if all == {} { return []; }
    var last :| last in all;
    s := Enumerate(all - {last});
    forall i | 0 <= i < |s| ensures s[i] != last { assert s[i] in Elements(s); }
    ElementsAppend(s, last);
    s := s + [last];
  }

  lemma AppendNothing<T>(s: seq<T>)
    ensures [] + s == s == s + []
  {
  }

  lemma AppendAssociative<T>(a: seq<T>, b: seq<T>, c: seq<T>)
    ensures (a + b) + c == a + (b + c)
  {
  }

  function Min(a: int, b: int): int {
    if a <= b then a else b
  }

  function Max(a: int, b: int): int {
    if a <= b then b else a
  }

  function RMax(a: real, b: real): real {
    if a <= b then b else a
  }

  /** Cut off to [0, 1]. */
  function Clamp(x: real): real {
    if x < 0.0 then 0.0 else if x > 1.0 then 1.0 else x
  }

  /** The method str.join of Python. */
  function Join(separator: string, parts: seq<string>): string {
    if parts == [] then ""
    else if |parts| == 1 then parts[0]
    else parts[0] + separator + Join(separator, parts[1..])
  }

  /** The slice s[:n] of Python, for any integer n. */
  function TakeUpTo<T>(s: seq<T>, n: int): (r: seq<T>)
    ensures r <= s
  {
    if n >= 0 then s[..Min(n, |s|)] else s[..Max(0, |s| + n)]
  }

  lemma ProductPositive(a: real, b: real)
    requires a > 0.0 && b > 0.0
    ensures a * b > 0.0
  {
  }

  lemma ProductNonNegative(a: real, b: real)
    requires a >= 0.0 && b >= 0.0
    ensures a * b >= 0.0
  {
  }

  /** Scaling by a factor in [0, 1]. */
  lemma ScaleDown(a: real, f: real)
    requires a >= 0.0 && 0.0 <= f <= 1.0
    ensures 0.0 <= a * f <= a
    ensures a > 0.0 && f > 0.0 ==> a * f > 0.0
    ensures a > 0.0 && f < 1.0 ==> a * f < a
  {
    ProductNonNegative(a, f);
    ProductNonNegative(a, 1.0 - f);
    if a > 0.0 && f > 0.0 { ProductPositive(a, f); }
    if a > 0.0 && f < 1.0 { ProductPositive(a, 1.0 - f); }
  }

  lemma ScaledBy(a: real, f: real, scaled: real)
    requires a >= 0.0 && 0.0 <= f <= 1.0 && scaled == a * f
    ensures 0.0 <= scaled <= a
  {
    ScaleDown(a, f);
  }
}
