/**
 * Candidate routes in their own fields (src/discovery/population.ts): what a route of two rows is, which
 * of two routes comes first, and which routes of a mint the cap leaves out.
 */
module RouteTerms {
  import opened Outcomes
  import opened Sorting
  import opened Population
  import opened RowTerms
  import opened Routes

  // ----- the route of two rows -----

  /** The hint under `key`, if it is a number. */
  predicate Reads(p: PoolRef, key: string, value: Option<real>) {
    if key in p.hints.entries && p.hints.entries[key].Number? then value == Some(p.hints.entries[key].value)
        else value == None
  }

  predicate ReadsFlag(p: PoolRef, key: string, value: Option<bool>) {
    if key in p.hints.entries && p.hints.entries[key].Flag? then value == Some(p.hints.entries[key].flag)
        else value == None
  }

  /** The listing of a row: PumpSwap pools have an index and a canonical flag, Raydium pools a configuration. */
  predicate Lists(l: PoolLite, p: PoolRef) {
    && l.adapter == p.adapter && l.address == p.address && Reads(p, "tvl", l.tvl)
    && (if p.adapter == PumpSwap then Reads(p, "index", l.index) && ReadsFlag(p, "canonical", l.canonical) && l.configIndex == None
        else l.index == None && l.canonical == None && Reads(p, "configIndex", l.configIndex))
  }

  /** The route's rank: the smaller tvl when both are known, the first pool's alone only across adapters. */
  predicate Ranks(r: Route) {
    var known := r.poolA.tvl.Some? && r.poolB.tvl.Some?;
    var oneKnown := !known && r.category == CrossAdapter && r.poolA.tvl.Some?;
    && (r.basis == MinTvl <==> known) && (r.basis == RaydiumTvlOnly <==> oneKnown)
    && (r.rank.Some? <==> known || oneKnown)
    && (r.rank.Some? ==> r.rank.value <= r.poolA.tvl.value)
    && (known ==> r.rank.value <= r.poolB.tvl.value)
    && (known ==> r.rank.value == r.poolA.tvl.value || r.rank.value == r.poolB.tvl.value)
    && (oneKnown ==> r.rank.value == r.poolA.tvl.value)
  }

  /** Raydium comes first across adapters, the smaller address first within one. */
  ghost predicate IsOriented(r: Route) {
    if r.category == CrossAdapter then r.poolA.adapter == RaydiumCpmm
    else !ByUnits(r.poolB.address, r.poolA.address)
  }

  ghost predicate IsRouteOf(r: Route, category: Category, mint: string, p: PoolRef, q: PoolRef) {
    && r.category == category && r.mint == mint && Ranks(r) && IsOriented(r)
    && ((Lists(r.poolA, p) && Lists(r.poolB, q)) || (Lists(r.poolA, q) && Lists(r.poolB, p)))
    && r.canonicalCount <= 2
    && (r.canonicalCount == 0 <==> r.poolA.canonical != Some(true) && r.poolB.canonical != Some(true))
    && (r.canonicalCount == 2 <==> r.poolA.canonical == Some(true) && r.poolB.canonical == Some(true))
  }

  lemma ListsRow(p: PoolRef)
    ensures Lists(ToPoolLite(p), p)
  {
  }

  lemma RowListedOnce(p: PoolRef, l: PoolLite, m: PoolLite)
    requires Lists(l, p) && Lists(m, p)
    ensures l == m
  {
  }

  lemma RanksOfLiquidity(r: Route)
    requires (r.rank, r.basis) == Liquidity(r.category, r.poolA, r.poolB)
    ensures Ranks(r)
  {
  }

  lemma SmallerFirst(category: Category, a: PoolLite, b: PoolLite)
    requires category != CrossAdapter
    ensures var o := Oriented(category, a, b); !Less(o.1.address, o.0.address) && (o == (a, b) || o == (b, a))
  {
    hide Less;
    LessIrreflexive(a.address);
    if Less(a.address, b.address) && Less(b.address, a.address) { LessTransitive(a.address, b.address, a.address); }
  }

  /** The route built from two rows, in its fields. */
  lemma MakeRouteInFields(category: Category, mint: string, p: PoolRef, q: PoolRef)
    requires category == CrossAdapter ==> p.adapter == RaydiumCpmm || q.adapter == RaydiumCpmm
    ensures IsRouteOf(MakeRoute(category, mint, p, q), category, mint, p, q)
  {
    hide ToPoolLite, Liquidity, Lists, ByUnits, Ranks, CmpStr;
    var r := MakeRoute(category, mint, p, q);
    var a, b := ToPoolLite(p), ToPoolLite(q);
    ListsRow(p);
    ListsRow(q);
    LiteOfView(p);
    LiteOfView(q);
    RanksOfLiquidity(r);
    ListedAdapter(a, p);
    ListedAdapter(b, q);
    if category != CrossAdapter {
      SmallerFirst(category, a, b);
      LessIsByUnits(r.poolB.address, r.poolA.address);
    }
  }

  lemma ListedAdapter(l: PoolLite, p: PoolRef)
    requires Lists(l, p)
    ensures l.adapter == p.adapter && l.address == p.address
  {
  }

  /** The fields leave one route for two rows of one adapter, or one of each. */
  lemma RouteDetermined(r: Route, s: Route, category: Category, mint: string, p: PoolRef, q: PoolRef)
    requires if category == CrossAdapter then p.adapter != q.adapter else p.address != q.address
    requires IsRouteOf(r, category, mint, p, q) && IsRouteOf(s, category, mint, p, q)
    ensures r == s
  {
    hide Lists, Less, ByUnits;
    forall l: PoolLite, m: PoolLite, t | t in {p, q} && Lists(l, t) && Lists(m, t) ensures l == m {
      RowListedOnce(t, l, m);
    }
    forall l: PoolLite, t | t in {p, q} && Lists(l, t) ensures l.adapter == t.adapter && l.address == t.address {
      ListedAdapter(l, t);
    }
    LessTotal(p.address, q.address);
    LessIsByUnits(p.address, q.address);
    LessIsByUnits(q.address, p.address);
    assert r.poolA == s.poolA && r.poolB == s.poolB;
  }

  // ----- which route comes first -----

  /**
   * Known liquidity before unknown, more before less; then more canonical pools, then the smaller mint,
   * first address and second address.
   */
  ghost predicate RanksBefore(x: Route, y: Route) {
    || (x.rank.Some? && y.rank.None?)
    || (x.rank.Some? && y.rank.Some? && x.rank.value > y.rank.value)
    || (x.rank == y.rank && x.canonicalCount > y.canonicalCount)
    || (x.rank == y.rank && x.canonicalCount == y.canonicalCount
        && (|| ByUnits(x.mint, y.mint)
            || (x.mint == y.mint && ByUnits(x.poolA.address, y.poolA.address))
            || (x.mint == y.mint && x.poolA.address == y.poolA.address && ByUnits(x.poolB.address, y.poolB.address))))
  }

  lemma SignOfCmp(a: string, b: string)
    ensures CmpStr(a, b) < 0 <==> ByUnits(a, b)
    ensures CmpStr(a, b) == 0 <==> a == b
  {
    CmpStrTotal(a, b);
    LessIsByUnits(a, b);
    hide Less;
  }

  lemma BeforeInFields(x: Route, y: Route)
    ensures Before(x, y) <==> RanksBefore(x, y)
  {
    hide CmpStr, ByUnits;
    SignOfCmp(x.mint, y.mint);
    SignOfCmp(x.poolA.address, y.poolA.address);
    SignOfCmp(x.poolB.address, y.poolB.address);
  }

  // ----- what a stable sort by such an order gives -----

  /** A strict order whose ties are transitive. */
  ghost predicate WeakOrder<T(!new)>(before: (T, T) -> bool) {
    StrictOrder(before) && forall x, y, z :: before(x, z) ==> before(x, y) || before(y, z)
  }

  ghost predicate NeverInverted<T>(before: (T, T) -> bool, s: seq<T>) {
    forall i, j :: 0 <= i < j < |s| ==> !before(s[j], s[i])
  }

  lemma {:induction false} InsertNeverInverts<T(!new)>(before: (T, T) -> bool, x: T, s: seq<T>)
    requires WeakOrder(before) && NeverInverted(before, s)
    ensures NeverInverted(before, Insert(before, x, s))
  {
    if s != [] {
      var rest := s[1..];
      assert forall i :: 0 <= i < |rest| ==> rest[i] == s[i + 1];
      if before(x, s[0]) {
        forall j | 0 <= j < |s| ensures !before(s[j], x) {
          assert !before(s[j], s[0]);
        }
      } else {
        InsertNeverInverts(before, x, rest);
        InsertElements(before, x, rest);
        var after := Insert(before, x, rest);
        forall j | 0 <= j < |after| ensures !before(after[j], s[0]) {
          assert after[j] in after;
          if after[j] != x {
            var k :| 0 <= k < |rest| && rest[k] == after[j];
          }
        }
      }
    }
  }

  lemma {:induction false} SortNeverInverts<T(!new)>(before: (T, T) -> bool, s: seq<T>)
    requires WeakOrder(before)
    ensures NeverInverted(before, Sort(before, s))
  {
    if s != [] {
      SortNeverInverts(before, s[..|s| - 1]);
      InsertNeverInverts(before, s[|s| - 1], Sort(before, s[..|s| - 1]));
    }
  }

  lemma BeforeIsWeak()
    ensures WeakOrder(Before)
  {
    hide CompareRoutes, CompareKeys;
    BeforeIsStrict();
    forall x, y, z | Before(x, z) ensures Before(x, y) || Before(y, z) { TiesAreTransitive(x, y, z); }
  }

  lemma BeforeTransitive(x: Route, y: Route, z: Route)
    requires Before(x, y) && Before(y, z)
    ensures Before(x, z)
  {
    hide CompareKeys;
    if CompareKeys(x, y) < 0 && CompareKeys(y, z) < 0 { KeysTransitive(x, y, z); }
  }

  lemma TiesAreTransitive(x: Route, y: Route, z: Route)
    requires Before(x, z)
    ensures Before(x, y) || Before(y, z)
  {
    hide CompareKeys;
    CompareTotal(x, y);
    CompareTotal(y, x);
    TiesAlike(x, y, z);
    if Before(y, x) { BeforeTransitive(y, x, z); }
  }

  /** Routes that tie compare alike with a third. */
  lemma TiesAlike(x: Route, y: Route, z: Route)
    ensures CompareRoutes(x, y) == 0 ==>
              CompareRoutes(x, z) == CompareRoutes(y, z) && CompareRoutes(z, x) == CompareRoutes(z, y)
  {
    CompareTotal(x, y);
    hide CmpStr;
  }

  // ----- the routes of one mint, ranked and cut -----

  /**
   * Of the pairs of one mint, the kept ones are strictly in order, as many as the cap allows, and every
   * pair left out comes after all of them.
   */
  ghost predicate BestKept(all: seq<Route>, cap: int, kept: Ranked) {
    && (forall i, j :: 0 <= i < j < |kept.routes| ==> RanksBefore(kept.routes[i], kept.routes[j]))
    && (forall r :: r in kept.routes ==> r in all)
    && (forall r, k :: r in all && r !in kept.routes && k in kept.routes ==> RanksBefore(k, r))
    && (cap >= 0 ==> |kept.routes| == (if |all| <= cap then |all| else cap) && kept.truncated == |all| - |kept.routes|)
  }

  lemma AmongFirst<T>(s: seq<T>, n: nat, j: nat)
    requires n <= |s| && j < |s|
    ensures j < n ==> s[j] in s[..n]
  {
    assert j < n ==> s[..n][j] == s[j];
  }

  lemma RankedKeepsBest(all: seq<Route>, cap: int)
    requires DistinctPairs(all)
    ensures BestKept(all, cap, RankedOf(all, cap))
  {
    hide Sort, Before, RanksBefore, DistinctPairs;
    BeforeIsStrict();
    DistinctPairsSeparated(all);
    SortSorts(Before, all);
    SortElements(Before, all);
    var sorted, kept := Sort(Before, all), RankedOf(all, cap).routes;
    assert kept == sorted[..|kept|];
    forall x, y ensures Before(x, y) <==> RanksBefore(x, y) { BeforeInFields(x, y); }
    forall r, k | r in all && r !in kept && k in kept ensures RanksBefore(k, r) {
      var i :| 0 <= i < |kept| && kept[i] == k;
      assert r in sorted;
      var j :| 0 <= j < |sorted| && sorted[j] == r;
      AmongFirst(sorted, |kept|, j);
      assert Before(sorted[i], sorted[j]);
    }
  }
}
