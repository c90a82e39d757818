/**
 * Stable sorting by a comparator, and when its result does not depend on the order of its input.
 */
module Sorting {

  /** Inserts after every element that does not come strictly after `x`. */
  function Insert<T>(before: (T, T) -> bool, x: T, s: seq<T>): seq<T> {
    if s == [] || before(x, s[0]) then [x] + s else [s[0]] + Insert(before, x, s[1..])
  }

  /** The result of a stable sort: elements the comparator does not tell apart keep their order. */
  function Sort<T>(before: (T, T) -> bool, s: seq<T>): seq<T> {
    if s == [] then [] else Insert(before, s[|s| - 1], Sort(before, s[..|s| - 1]))
  }

  ghost predicate StrictOrder<T(!new)>(before: (T, T) -> bool) {
    && (forall x :: !before(x, x))
    && (forall x, y, z :: before(x, y) && before(y, z) ==> before(x, z))
  }

  /** The comparator tells every two positions apart. */
  ghost predicate Separates<T>(before: (T, T) -> bool, s: seq<T>) {
    forall i, j :: 0 <= i < j < |s| ==> before(s[i], s[j]) || before(s[j], s[i])
  }

  ghost predicate StrictlySorted<T>(before: (T, T) -> bool, s: seq<T>) {
    forall i, j :: 0 <= i < j < |s| ==> before(s[i], s[j])
  }

  ghost predicate SameElements<T(!new)>(s: seq<T>, t: seq<T>) {
    forall x :: x in s <==> x in t
  }

  lemma {:induction false} InsertElements<T(!new)>(before: (T, T) -> bool, x: T, s: seq<T>)
    ensures forall y :: y in Insert(before, x, s) <==> y == x || y in s
    ensures |Insert(before, x, s)| == |s| + 1
  {
    if s != [] && !before(x, s[0]) {
      InsertElements(before, x, s[1..]);
      assert s == [s[0]] + s[1..];
    }
  }

  lemma {:induction false} SortElements<T(!new)>(before: (T, T) -> bool, s: seq<T>)
    ensures forall y :: y in Sort(before, s) <==> y in s
    ensures |Sort(before, s)| == |s|
  {
    if s != [] {
      var n := |s| - 1;
      SortElements(before, s[..n]);
      InsertElements(before, s[n], Sort(before, s[..n]));
      assert s == s[..n] + [s[n]];
    }
  }

  lemma {:induction false} InsertSorted<T(!new)>(before: (T, T) -> bool, x: T, s: seq<T>)
    requires StrictOrder(before) && StrictlySorted(before, s)
    requires forall y :: y in s ==> before(x, y) || before(y, x)
    ensures StrictlySorted(before, Insert(before, x, s))
  {
    if s != [] {
      assert forall i :: 0 < i < |s| ==> s[i] in s[1..];
      if !before(x, s[0]) {
        var rest := Insert(before, x, s[1..]);
        InsertSorted(before, x, s[1..]);
        InsertElements(before, x, s[1..]);
        forall i | 0 <= i < |rest| ensures before(s[0], rest[i]) {
          assert rest[i] in rest;
          if rest[i] != x {
            var k :| 0 <= k < |s[1..]| && s[1..][k] == rest[i];
          }
        }
      }
    }
  }

  lemma {:induction false} SortSorts<T(!new)>(before: (T, T) -> bool, s: seq<T>)
    requires StrictOrder(before) && Separates(before, s)
    ensures StrictlySorted(before, Sort(before, s))
  {
    if s != [] {
      var n := |s| - 1;
      SortSorts(before, s[..n]);
      SortElements(before, s[..n]);
      InsertSorted(before, s[n], Sort(before, s[..n]));
    }
  }

  /** A strictly sorted sequence is determined by its elements. */
  lemma {:induction false} SortedUnique<T(!new)>(before: (T, T) -> bool, s: seq<T>, t: seq<T>)
    requires StrictOrder(before) && StrictlySorted(before, s) && StrictlySorted(before, t) && SameElements(s, t)
    ensures s == t
  {
    assert |t| > 0 ==> t[0] in t && t[0] in s;
    if s != [] {
      assert s[0] in s && s[0] in t;
      assert s[0] == t[0];
      TailElements(before, s, t);
      SortedUnique(before, s[1..], t[1..]);
    }
  }

  lemma TailElements<T(!new)>(before: (T, T) -> bool, s: seq<T>, t: seq<T>)
    requires StrictOrder(before) && StrictlySorted(before, s) && StrictlySorted(before, t) && SameElements(s, t)
    requires s != [] && t != [] && s[0] == t[0]
    ensures SameElements(s[1..], t[1..])
  {
    forall x ensures x in s[1..] <==> x in s && x != s[0] { InTail(before, s, x); }
    forall x ensures x in t[1..] <==> x in t && x != t[0] { InTail(before, t, x); }
  }

  lemma InTail<T(!new)>(before: (T, T) -> bool, s: seq<T>, x: T)
    requires StrictOrder(before) && StrictlySorted(before, s) && s != []
    ensures x in s[1..] <==> x in s && x != s[0]
  {
    assert s == [s[0]] + s[1..];
    if x in s[1..] {
      var k :| 0 <= k < |s[1..]| && s[1..][k] == x;
      assert before(s[0], s[k + 1]);
    }
  }

  /** Sorting forgets the input order whenever the comparator tells all positions apart. */
  lemma SortIgnoresOrder<T(!new)>(before: (T, T) -> bool, s: seq<T>, t: seq<T>)
    requires StrictOrder(before) && Separates(before, s) && Separates(before, t) && SameElements(s, t)
    ensures Sort(before, s) == Sort(before, t)
  {
    hide Separates, StrictOrder;
    SortSorts(before, s);
    SortSorts(before, t);
    SortElements(before, s);
    SortElements(before, t);
    SortedUnique(before, Sort(before, s), Sort(before, t));
  }

  // ----- strings, by code unit -----

  predicate Less(a: string, b: string) {
    b != [] && (a == [] || a[0] < b[0] || (a[0] == b[0] && Less(a[1..], b[1..])))
  }

  lemma {:induction false} LessTransitive(a: string, b: string, c: string)
    requires Less(a, b) && Less(b, c)
    ensures Less(a, c)
  {
    if a != [] && a[0] == b[0] == c[0] { LessTransitive(a[1..], b[1..], c[1..]); }
  }

  lemma {:induction false} LessIrreflexive(a: string)
    ensures !Less(a, a)
  {
    if a != [] { LessIrreflexive(a[1..]); }
  }

  lemma {:induction false} LessTotal(a: string, b: string)
    ensures a == b || Less(a, b) || Less(b, a)
  {
    if a != [] && b != [] && a[0] == b[0] {
      LessTotal(a[1..], b[1..]);
      assert a == [a[0]] + a[1..] && b == [b[0]] + b[1..];
    }
  }

  lemma LessIsStrict()
    ensures StrictOrder(Less)
  {
    forall x ensures !Less(x, x) { LessIrreflexive(x); }
    forall x, y, z | Less(x, y) && Less(y, z) ensures Less(x, z) { LessTransitive(x, y, z); }
  }
}
