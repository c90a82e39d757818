/**
 * Candidate routes (src/discovery/population.ts): a pair of pools sharing a mint, the total order on
 * routes, and the pairs of one mint, ranked and truncated.
 */
module Routes {
  import opened Outcomes
  import opened Sorting
  import opened Population

  datatype PoolLite = PoolLite(adapter: Adapter, address: string, tvl: Option<real>,
                               index: Option<real>, canonical: Option<bool>, configIndex: Option<real>)

  function ToPoolLite(p: PoolRef): PoolLite {
    if p.adapter == PumpSwap then PoolLite(p.adapter, p.address, HintNum(p, "tvl"), HintNum(p, "index"),
        HintBool(p, "canonical"), None)
    else PoolLite(p.adapter, p.address, HintNum(p, "tvl"), None, None, HintNum(p, "configIndex"))
  }

  datatype Category = PumpSwapX2 | CrossAdapter | RaydiumX2
  datatype Basis = MinTvl | RaydiumTvlOnly | UnknownLiquidity

  datatype Route = Route(category: Category, mint: string, poolA: PoolLite, poolB: PoolLite,
                         rank: Option<real>, basis: Basis, canonicalCount: nat)

  function CmpStr(a: string, b: string): int { if Less(a, b) then -1 else if Less(b, a) then 1 else 0 }

  /** Raydium first across adapters, the smaller address first within one. */
  function Oriented(category: Category, a: PoolLite, b: PoolLite): (PoolLite, PoolLite) {
    if category == CrossAdapter then (if a.adapter != RaydiumCpmm then (b, a) else (a, b))
    else if CmpStr(a.address, b.address) > 0 then (b, a)
    else (a, b)
  }

  function Liquidity(category: Category, a: PoolLite, b: PoolLite): (Option<real>, Basis) {
    match (a.tvl, b.tvl)
    case (Some(x), Some(y)) => (Some(if x < y then x else y), MinTvl)
    case _ => if category == CrossAdapter && a.tvl.Some? then (a.tvl, RaydiumTvlOnly) else (None, UnknownLiquidity)
  }

  function MakeRoute(category: Category, mint: string, p: PoolRef, q: PoolRef): Route {
    var (a, b) := Oriented(category, ToPoolLite(p), ToPoolLite(q));
    var (rank, basis) := Liquidity(category, a, b);
    Route(category, mint, a, b, rank, basis, (if a.canonical == Some(true) then 1 else 0) + (if b.canonical == Some(true) then 1 else 0))
  }

  /** The sign of compareRoutes: known liquidity descending, then canonical pools, mint, addresses. */
  function CompareRoutes(x: Route, y: Route): int {
    match (x.rank, y.rank)
    case (Some(xr), Some(yr)) => if xr != yr then (if yr < xr then -1 else 1) else CompareKeys(x, y)
    case (None, Some(_)) => 1
    case (Some(_), None) => -1
    case (None, None) => CompareKeys(x, y)
  }

  function CompareKeys(x: Route, y: Route): int {
    if x.canonicalCount != y.canonicalCount then y.canonicalCount - x.canonicalCount
    else if CmpStr(x.mint, y.mint) != 0 then CmpStr(x.mint, y.mint)
    else if CmpStr(x.poolA.address, y.poolA.address) != 0 then CmpStr(x.poolA.address, y.poolA.address)
    else CmpStr(x.poolB.address, y.poolB.address)
  }

  predicate Before(x: Route, y: Route) { CompareRoutes(x, y) < 0 }

  // ----- the order is total -----

  lemma CmpStrTotal(a: string, b: string)
    ensures CmpStr(a, b) == 0 <==> a == b
    ensures CmpStr(b, a) == -CmpStr(a, b)
  {
    LessTotal(a, b);
    LessIrreflexive(a);
    if Less(a, b) && Less(b, a) { LessTransitive(a, b, a); }
  }

  lemma CmpStrTransitive(a: string, b: string, c: string)
    requires CmpStr(a, b) <= 0 && CmpStr(b, c) <= 0
    ensures CmpStr(a, c) <= 0 && (CmpStr(a, c) == 0 ==> CmpStr(a, b) == 0 && CmpStr(b, c) == 0)
  {
    CmpStrTotal(a, b);
    CmpStrTotal(b, c);
    CmpStrTotal(a, c);
    if Less(a, b) && Less(b, c) { LessTransitive(a, b, c); }
  }

  lemma KeysTransitive(x: Route, y: Route, z: Route)
    requires CompareKeys(x, y) < 0 && CompareKeys(y, z) < 0
    ensures CompareKeys(x, z) < 0
  {
    hide CmpStr;
    if CmpStr(x.mint, y.mint) <= 0 && CmpStr(y.mint, z.mint) <= 0 { CmpStrTransitive(x.mint, y.mint, z.mint); }
    var (a, b, c) := (x.poolA.address, y.poolA.address, z.poolA.address);
    if CmpStr(a, b) <= 0 && CmpStr(b, c) <= 0 { CmpStrTransitive(a, b, c); }
    var (d, e, f) := (x.poolB.address, y.poolB.address, z.poolB.address);
    if CmpStr(d, e) <= 0 && CmpStr(e, f) <= 0 { CmpStrTransitive(d, e, f); }
  }

  /** compareRoutes is antisymmetric, and equates only routes between the same addresses on the same mint. */
  lemma CompareTotal(x: Route, y: Route)
    ensures CompareRoutes(x, y) < 0 <==> CompareRoutes(y, x) > 0
    ensures CompareRoutes(x, y) == 0 <==>
              && x.rank == y.rank && x.canonicalCount == y.canonicalCount && x.mint == y.mint
              && x.poolA.address == y.poolA.address && x.poolB.address == y.poolB.address
  {
    hide CmpStr;
    CmpStrTotal(x.mint, y.mint);
    CmpStrTotal(x.poolA.address, y.poolA.address);
    CmpStrTotal(x.poolB.address, y.poolB.address);
  }

  lemma BeforeIsStrict()
    ensures StrictOrder(Before)
  {
    hide CompareKeys;
    forall x ensures !Before(x, x) { CompareTotal(x, x); }
    forall x, y, z | Before(x, y) && Before(y, z) ensures Before(x, z) {
      if CompareKeys(x, y) < 0 && CompareKeys(y, z) < 0 { KeysTransitive(x, y, z); }
    }
  }

  // ----- the pairs of one mint -----

  function Row(category: Category, mint: string, p: PoolRef, right: seq<PoolRef>): (r: seq<Route>)
    ensures |r| == |right| && forall k :: 0 <= k < |right| ==> r[k] == MakeRoute(category, mint, p, right[k])
  {
    seq(|right|, k requires 0 <= k < |right| => MakeRoute(category, mint, p, right[k]))
  }

  /** Every pool with every later one. */
  function TwoPairs(category: Category, mint: string, left: seq<PoolRef>): seq<Route> {
    if left == [] then [] else Row(category, mint, left[0], left[1..]) + TwoPairs(category, mint, left[1..])
  }

  /** Every left pool with every right one. */
  function CrossPairs(category: Category, mint: string, left: seq<PoolRef>, right: seq<PoolRef>): seq<Route> {
    if left == [] then [] else Row(category, mint, left[0], right) + CrossPairs(category, mint, left[1..], right)
  }

  function Pairs(category: Category, mint: string, left: seq<PoolRef>, right: Option<seq<PoolRef>>): seq<Route> {
    match right case None => TwoPairs(category, mint, left) case Some(r) => CrossPairs(category, mint, left, r)
  }

  /** slice(0, cap): a negative cap counts from the end. */
  function SliceTo<T>(s: seq<T>, cap: int): seq<T> {
    if cap >= |s| then s else if cap >= 0 then s[..cap] else if |s| + cap >= 0 then s[..|s| + cap] else []
  }

  datatype Ranked = Ranked(routes: seq<Route>, truncated: int)

  function RankedOf(all: seq<Route>, cap: int): Ranked {
    Ranked(SliceTo(Sort(Before, all), cap), if |all| - cap > 0 then |all| - cap else 0)
  }

  /** The inner loop: pushes the routes of one pool. */
  method PushRow(before: seq<Route>, category: Category, mint: string, p: PoolRef, others: seq<PoolRef>)
      returns (all: seq<Route>)
    ensures all == before + Row(category, mint, p, others)
  {
    hide MakeRoute, Row;
    all := before;
    var j := 0;
    while j < |others|
      invariant j <= |others| && all == before + Row(category, mint, p, others)[..j]
    {
      all := all + [MakeRoute(category, mint, p, others[j])];
      j := j + 1;
    }
  }

  /** rankedPairs: collects the pairs in two nested loops, sorts and truncates. */
  method RankedPairs(category: Category, mint: string, left: seq<PoolRef>, right: Option<seq<PoolRef>>, cap: int)
      returns (r: Ranked)
    ensures r == RankedOf(Pairs(category, mint, left, right), cap)
  {
    hide MakeRoute, RankedOf, Pairs, Row, From;
    var all := [];
    var i := 0;
    Bounds(category, mint, left, right);
    while i < |left|
      invariant i <= |left|
      invariant all + From(category, mint, left, right, i) == Pairs(category, mint, left, right)
    {
      var others := if right.Some? then right.value else left[i + 1..];
      PairsSplit(category, mint, left, right, i);
      Associate(all, Row(category, mint, left[i], others), From(category, mint, left, right, i + 1));
      all := PushRow(all, category, mint, left[i], others);
      i := i + 1;
    }
    Associate(all, [], []);
    r := RankedOf(all, cap);
  }

  /** The pairs still to come at the outer loop's index `i`. */
  ghost function From(category: Category, mint: string, left: seq<PoolRef>, right: Option<seq<PoolRef>>,
      i: nat): seq<Route>
    requires i <= |left|
  {
    Pairs(category, mint, left[i..], right)
  }

  lemma Bounds(category: Category, mint: string, left: seq<PoolRef>, right: Option<seq<PoolRef>>)
    ensures [] + From(category, mint, left, right, 0) == Pairs(category, mint, left, right)
    ensures From(category, mint, left, right, |left|) == []
  {
    assert left[0..] == left && left[|left|..] == [];
  }

  lemma Associate<T>(a: seq<T>, b: seq<T>, c: seq<T>)
    ensures a + (b + c) == (a + b) + c && a + [] == a
  {
  }

  lemma PairsSplit(category: Category, mint: string, left: seq<PoolRef>, right: Option<seq<PoolRef>>, i: nat)
    requires i < |left|
    ensures From(category, mint, left, right, i) ==
            Row(category, mint, left[i], if right.Some? then right.value else left[i + 1..]) + From(category, mint, left, right, i + 1)
  {
    assert left[i..][1..] == left[i + 1..] && left[i..][0] == left[i];
  }

  // ----- ranking does not depend on the order of the pools -----

  lemma MakeRouteOfViews(category: Category, mint: string, p: PoolRef, q: PoolRef)
    ensures MakeRoute(category, mint, p, q) == MakeRoute(category, mint, View(p), View(q))
  {
    hide ToPoolLite, Oriented, Liquidity;
    LiteOfView(p);
    LiteOfView(q);
  }

  /** The route runs between the two addresses, in either orientation. */
  predicate Joins(r: Route, a: string, b: string) {
    (r.poolA.address == a && r.poolB.address == b) || (r.poolA.address == b && r.poolB.address == a)
  }

  /** Within one adapter a route does not depend on which pool comes first. */
  lemma MakeRouteSymmetric(category: Category, mint: string, p: PoolRef, q: PoolRef)
    requires category != CrossAdapter && p.address != q.address
    ensures MakeRoute(category, mint, p, q) == MakeRoute(category, mint, q, p)
    ensures var r := MakeRoute(category, mint, p, q); Joins(r, p.address, q.address) && r.mint == mint
  {
    CmpStrTotal(p.address, q.address);
    hide CmpStr, HintNum, HintBool;
  }

  lemma MakeRouteCross(mint: string, p: PoolRef, q: PoolRef)
    requires p.adapter == RaydiumCpmm
    ensures var r := MakeRoute(CrossAdapter, mint, p, q);
            r.poolA.address == p.address && r.poolB.address == q.address && r.mint == mint
  {
    hide HintNum, HintBool;
  }

  /** Two routes over the same addresses. */
  predicate SamePair(x: Route, y: Route) {
    x.poolA.address == y.poolA.address && x.poolB.address == y.poolB.address
  }

  ghost predicate DistinctPairs(s: seq<Route>) {
    forall i, j :: 0 <= i < j < |s| ==> !SamePair(s[i], s[j])
  }

  lemma DistinctPairsSeparated(s: seq<Route>)
    requires DistinctPairs(s)
    ensures Separates(Before, s)
  {
    forall i, j | 0 <= i < j < |s| ensures Before(s[i], s[j]) || Before(s[j], s[i]) {
      CompareTotal(s[i], s[j]);
    }
  }

  ghost predicate IsTwoPair(category: Category, mint: string, left: seq<PoolRef>, r: Route) {
    exists i, j :: 0 <= i < j < |left| && r == MakeRoute(category, mint, left[i], left[j])
  }

  ghost predicate IsCrossPair(category: Category, mint: string, left: seq<PoolRef>, right: seq<PoolRef>, r: Route) {
    exists i, j :: 0 <= i < |left| && 0 <= j < |right| && r == MakeRoute(category, mint, left[i], right[j])
  }

  lemma {:induction false} TwoPairsMembers(category: Category, mint: string, left: seq<PoolRef>)
    ensures forall r :: r in TwoPairs(category, mint, left) <==> IsTwoPair(category, mint, left, r)
  {
    hide MakeRoute, IsTwoPair;
    if left == [] {
      NoTwoPair(category, mint);
    } else {
      var rest := left[1..];
      TwoPairsMembers(category, mint, rest);
      forall r ensures r in TwoPairs(category, mint, left) <==> IsTwoPair(category, mint, left, r) {
        TwoPairSplit(category, mint, left, r);
      }
    }
  }

  lemma NoTwoPair(category: Category, mint: string)
    ensures forall r :: !IsTwoPair(category, mint, [], r)
  {
  }

  /** A pair either starts at the first pool or lies among the rest. */
  lemma TwoPairSplit(category: Category, mint: string, left: seq<PoolRef>, r: Route)
    requires left != []
    ensures IsTwoPair(category, mint, left, r) <==>
              r in Row(category, mint, left[0], left[1..]) || IsTwoPair(category, mint, left[1..], r)
  {
    hide MakeRoute, IsTwoPair;
    if IsTwoPair(category, mint, left, r) { TwoPairDown(category, mint, left, r); }
    if r in Row(category, mint, left[0], left[1..]) || IsTwoPair(category, mint, left[1..], r) {
      TwoPairUp(category, mint, left, r);
    }
  }

  lemma TwoPairUp(category: Category, mint: string, left: seq<PoolRef>, r: Route)
    requires left != [] && (r in Row(category, mint, left[0], left[1..]) || IsTwoPair(category, mint, left[1..], r))
    ensures IsTwoPair(category, mint, left, r)
  {
    hide MakeRoute;
    var rest := left[1..];
    if r in Row(category, mint, left[0], rest) {
      var k :| 0 <= k < |rest| && r == Row(category, mint, left[0], rest)[k];
      assert r == MakeRoute(category, mint, left[0], left[k + 1]);
    } else {
      var i, j :| 0 <= i < j < |rest| && r == MakeRoute(category, mint, rest[i], rest[j]);
      assert r == MakeRoute(category, mint, left[i + 1], left[j + 1]);
    }
  }

  lemma TwoPairDown(category: Category, mint: string, left: seq<PoolRef>, r: Route)
    requires left != [] && IsTwoPair(category, mint, left, r)
    ensures r in Row(category, mint, left[0], left[1..]) || IsTwoPair(category, mint, left[1..], r)
  {
    hide MakeRoute;
    var rest := left[1..];
    var i, j :| 0 <= i < j < |left| && r == MakeRoute(category, mint, left[i], left[j]);
    if i == 0 {
      assert r == Row(category, mint, left[0], rest)[j - 1];
    } else {
      assert r == MakeRoute(category, mint, rest[i - 1], rest[j - 1]);
    }
  }

  lemma {:induction false} CrossPairsMembers(category: Category, mint: string, left: seq<PoolRef>, right: seq<PoolRef>)
    ensures forall r :: r in CrossPairs(category, mint, left, right) <==> IsCrossPair(category, mint, left, right, r)
  {
    hide MakeRoute, IsCrossPair;
    if left == [] {
      NoCrossPair(category, mint, right);
    } else {
      CrossPairsMembers(category, mint, left[1..], right);
      forall r ensures r in CrossPairs(category, mint, left, right) <==> IsCrossPair(category, mint, left, right, r) {
        if IsCrossPair(category, mint, left, right, r) { CrossPairDown(category, mint, left, right, r); }
        if r in Row(category, mint, left[0], right) || IsCrossPair(category, mint, left[1..], right, r) {
          CrossPairUp(category, mint, left, right, r);
        }
      }
    }
  }

  lemma NoCrossPair(category: Category, mint: string, right: seq<PoolRef>)
    ensures forall r :: !IsCrossPair(category, mint, [], right, r)
  {
  }

  lemma CrossPairUp(category: Category, mint: string, left: seq<PoolRef>, right: seq<PoolRef>, r: Route)
    requires left != []
            && (r in Row(category, mint, left[0], right) || IsCrossPair(category, mint, left[1..], right, r))
    ensures IsCrossPair(category, mint, left, right, r)
  {
    hide MakeRoute;
    if r in Row(category, mint, left[0], right) {
      var k :| 0 <= k < |right| && r == Row(category, mint, left[0], right)[k];
      assert r == MakeRoute(category, mint, left[0], right[k]);
    } else {
      var i, j :| 0 <= i < |left[1..]| && 0 <= j < |right| && r == MakeRoute(category, mint, left[1..][i], right[j]);
      assert r == MakeRoute(category, mint, left[i + 1], right[j]);
    }
  }

  lemma CrossPairDown(category: Category, mint: string, left: seq<PoolRef>, right: seq<PoolRef>, r: Route)
    requires left != [] && IsCrossPair(category, mint, left, right, r)
    ensures r in Row(category, mint, left[0], right) || IsCrossPair(category, mint, left[1..], right, r)
  {
    hide MakeRoute;
    var i, j :| 0 <= i < |left| && 0 <= j < |right| && r == MakeRoute(category, mint, left[i], right[j]);
    if i == 0 {
      assert r == Row(category, mint, left[0], right)[j];
    } else {
      assert r == MakeRoute(category, mint, left[1..][i - 1], right[j]);
    }
  }

  lemma {:induction false} TwoPairsDistinct(category: Category, mint: string, left: seq<PoolRef>)
    requires category != CrossAdapter && DistinctAddresses(left)
    ensures DistinctPairs(TwoPairs(category, mint, left))
  {
    hide MakeRoute, TwoPairs, Joins, SamePair;
    TwoPairsUnfold(category, mint, left);
    if left != [] {
      var rest := left[1..];
      TwoPairsDistinct(category, mint, rest);
      var row, others := Row(category, mint, left[0], rest), TwoPairs(category, mint, rest);
      forall k | 0 <= k < |row| ensures Joins(row[k], left[0].address, rest[k].address) {
        MakeRouteSymmetric(category, mint, left[0], rest[k]);
      }
      RowDistinct(left[0], rest, row);
      PairsAvoid(category, mint, left[0], rest);
      RowApart(left[0], rest, row, others);
      ConcatDistinct(row, others);
    }
  }

  lemma TwoPairsUnfold(category: Category, mint: string, left: seq<PoolRef>)
    ensures TwoPairs(category, mint, left) ==
            if left == [] then [] else Row(category, mint, left[0], left[1..]) + TwoPairs(category, mint, left[1..])
  {
  }

  lemma RowApart(p: PoolRef, rest: seq<PoolRef>, row: seq<Route>, others: seq<Route>)
    requires |row| == |rest| && forall k :: 0 <= k < |row| ==> Joins(row[k], p.address, rest[k].address)
    requires forall k :: 0 <= k < |others| ==>
              p.address != others[k].poolA.address && p.address != others[k].poolB.address
    ensures forall i, j :: 0 <= i < |row| && 0 <= j < |others| ==> !SamePair(row[i], others[j])
  {
  }

  /** Pairs among other pools never involve this pool. */
  lemma PairsAvoid(category: Category, mint: string, p: PoolRef, rest: seq<PoolRef>)
    requires category != CrossAdapter && DistinctAddresses(rest) && forall k :: 0 <= k < |rest| ==>
              p.address != rest[k].address
    ensures forall k :: 0 <= k < |TwoPairs(category, mint, rest)| ==>
              p.address != TwoPairs(category, mint, rest)[k].poolA.address
                  && p.address != TwoPairs(category, mint, rest)[k].poolB.address
  {
    hide MakeRoute, TwoPairs;
    TwoPairsMembers(category, mint, rest);
    var others := TwoPairs(category, mint, rest);
    forall k | 0 <= k < |others| ensures p.address != others[k].poolA.address && p.address != others[k].poolB.address {
      assert others[k] in others;
      var i, j :| 0 <= i < j < |rest| && others[k] == MakeRoute(category, mint, rest[i], rest[j]);
      MakeRouteSymmetric(category, mint, rest[i], rest[j]);
    }
  }

  lemma RowDistinct(p: PoolRef, rest: seq<PoolRef>, row: seq<Route>)
    requires |row| == |rest| && DistinctAddresses(rest) && forall k :: 0 <= k < |rest| ==> p.address != rest[k].address
    requires forall k :: 0 <= k < |row| ==> Joins(row[k], p.address, rest[k].address)
    ensures DistinctPairs(row)
  {
    forall i, j | 0 <= i < j < |row| ensures !SamePair(row[i], row[j]) {
      assert p.address != rest[i].address && rest[i].address != rest[j].address;
    }
  }

  lemma ConcatDistinct(s: seq<Route>, t: seq<Route>)
    requires DistinctPairs(s) && DistinctPairs(t)
    requires forall i, j :: 0 <= i < |s| && 0 <= j < |t| ==> !SamePair(s[i], t[j])
    ensures DistinctPairs(s + t)
  {
  }

  lemma {:induction false} CrossPairsDistinct(mint: string, left: seq<PoolRef>, right: seq<PoolRef>)
    requires DistinctAddresses(left) && DistinctAddresses(right) && forall p :: p in left ==> p.adapter == RaydiumCpmm
    ensures DistinctPairs(CrossPairs(CrossAdapter, mint, left, right))
  {
    hide MakeRoute;
    if left != [] {
      var rest := left[1..];
      CrossPairsDistinct(mint, rest, right);
      CrossPairsMembers(CrossAdapter, mint, rest, right);
      var row, others := Row(CrossAdapter, mint, left[0], right), CrossPairs(CrossAdapter, mint, rest, right);
      forall k | 0 <= k < |row|
          ensures row[k].poolA.address == left[0].address && row[k].poolB.address == right[k].address {
        MakeRouteCross(mint, left[0], right[k]);
      }
      forall k | 0 <= k < |others| ensures left[0].address != others[k].poolA.address {
        assert others[k] in others;
        var i, j :| 0 <= i < |rest| && 0 <= j < |right|
            && others[k] == MakeRoute(CrossAdapter, mint, rest[i], right[j]);
        MakeRouteCross(mint, rest[i], right[j]);
      }
      ConcatDistinct(row, others);
    }
  }

  /** The pools of one mint may arrive in any order: pairs within one adapter. */
  lemma TwoPairsIgnoreOrder(category: Category, mint: string, left: seq<PoolRef>, left': seq<PoolRef>)
    requires category != CrossAdapter && DistinctAddresses(left) && DistinctAddresses(left')
            && Views(left) == Views(left')
    ensures Sort(Before, TwoPairs(category, mint, left)) == Sort(Before, TwoPairs(category, mint, left'))
  {
    hide TwoPairs, Sort, CompareRoutes, MakeRoute;
    TwoPairsInto(category, mint, left, left');
    TwoPairsInto(category, mint, left', left);
    TwoPairsDistinct(category, mint, left);
    TwoPairsDistinct(category, mint, left');
    DistinctPairsSeparated(TwoPairs(category, mint, left));
    DistinctPairsSeparated(TwoPairs(category, mint, left'));
    BeforeIsStrict();
    SortIgnoresOrder(Before, TwoPairs(category, mint, left), TwoPairs(category, mint, left'));
  }

  lemma TwoPairsInto(category: Category, mint: string, left: seq<PoolRef>, left': seq<PoolRef>)
    requires category != CrossAdapter && DistinctAddresses(left) && DistinctAddresses(left')
            && Views(left) <= Views(left')
    ensures forall r :: r in TwoPairs(category, mint, left) ==> r in TwoPairs(category, mint, left')
  {
    hide TwoPairs, MakeRoute;
    TwoPairsMembers(category, mint, left);
    TwoPairsMembers(category, mint, left');
    forall r | r in TwoPairs(category, mint, left) ensures r in TwoPairs(category, mint, left') {
      var i, j :| 0 <= i < j < |left| && r == MakeRoute(category, mint, left[i], left[j]);
      var k, l := Counterpart(left, left', i), Counterpart(left, left', j);
      MakeRouteOfViews(category, mint, left[i], left[j]);
      MakeRouteOfViews(category, mint, left'[k], left'[l]);
      MakeRouteSymmetric(category, mint, left'[k], left'[l]);
      assert k < l || l < k;
    }
  }

  /** The position in `t` of the row with the same view. */
  ghost function Counterpart(s: seq<PoolRef>, t: seq<PoolRef>, i: nat): (k: nat)
    requires i < |s| && Views(s) <= Views(t)
    ensures k < |t| && View(t[k]) == View(s[i]) && t[k].address == s[i].address
  {
    assert s[i] in s && View(s[i]) in Views(s);
    var q :| q in t && View(q) == View(s[i]);
    var k :| 0 <= k < |t| && t[k] == q;
    assert View(q).address == View(s[i]).address;
    k
  }

  /** The pools of one mint may arrive in any order: pairs across adapters. */
  lemma CrossPairsIgnoreOrder(mint: string, left: seq<PoolRef>, left': seq<PoolRef>, right: seq<PoolRef>,
      right': seq<PoolRef>)
    requires DistinctAddresses(left) && DistinctAddresses(left') && DistinctAddresses(right)
            && DistinctAddresses(right')
    requires (forall p :: p in left ==> p.adapter == RaydiumCpmm) && (forall p :: p in left' ==>
              p.adapter == RaydiumCpmm)
    requires Views(left) == Views(left') && Views(right) == Views(right')
    ensures Sort(Before, CrossPairs(CrossAdapter, mint, left, right))
              == Sort(Before, CrossPairs(CrossAdapter, mint, left', right'))
  {
    hide CrossPairs, Sort, CompareRoutes, MakeRoute;
    CrossPairsInto(mint, left, left', right, right');
    CrossPairsInto(mint, left', left, right', right);
    CrossPairsDistinct(mint, left, right);
    CrossPairsDistinct(mint, left', right');
    DistinctPairsSeparated(CrossPairs(CrossAdapter, mint, left, right));
    DistinctPairsSeparated(CrossPairs(CrossAdapter, mint, left', right'));
    BeforeIsStrict();
    SortIgnoresOrder(Before, CrossPairs(CrossAdapter, mint, left, right),
        CrossPairs(CrossAdapter, mint, left', right'));
  }

  lemma CrossPairsInto(mint: string, left: seq<PoolRef>, left': seq<PoolRef>, right: seq<PoolRef>, right': seq<PoolRef>)
    requires Views(left) <= Views(left') && Views(right) <= Views(right')
    ensures forall r :: r in CrossPairs(CrossAdapter, mint, left, right) ==>
              r in CrossPairs(CrossAdapter, mint, left', right')
  {
    hide CrossPairs, MakeRoute;
    CrossPairsMembers(CrossAdapter, mint, left, right);
    CrossPairsMembers(CrossAdapter, mint, left', right');
    forall r | r in CrossPairs(CrossAdapter, mint, left, right)
        ensures r in CrossPairs(CrossAdapter, mint, left', right') {
      var i, j :| 0 <= i < |left| && 0 <= j < |right| && r == MakeRoute(CrossAdapter, mint, left[i], right[j]);
      var k, l := Counterpart(left, left', i), Counterpart(right, right', j);
      MakeRouteOfViews(CrossAdapter, mint, left[i], right[j]);
      MakeRouteOfViews(CrossAdapter, mint, left'[k], right'[l]);
    }
  }

  // ----- the pools listed for a mint -----

  predicate LiteBefore(x: PoolLite, y: PoolLite) { Less(x.address, y.address) }

  function Lites(pools: seq<PoolRef>): (r: seq<PoolLite>)
    ensures |r| == |pools| && forall k :: 0 <= k < |pools| ==> r[k] == ToPoolLite(pools[k])
  {
    seq(|pools|, k requires 0 <= k < |pools| => ToPoolLite(pools[k]))
  }

  function SortedLites(pools: seq<PoolRef>): seq<PoolLite> { Sort(LiteBefore, Lites(pools)) }

  lemma LiteOfView(p: PoolRef)
    ensures ToPoolLite(View(p)) == ToPoolLite(p) && ToPoolLite(p).address == p.address
  {
  }

  lemma LitesInto(s: seq<PoolRef>, t: seq<PoolRef>)
    requires Views(s) <= Views(t)
    ensures forall x :: x in Lites(s) ==> x in Lites(t)
  {
    hide ToPoolLite;
    forall i | 0 <= i < |s| ensures Lites(s)[i] in Lites(t) {
      var k := Counterpart(s, t, i);
      LiteOfView(s[i]);
      LiteOfView(t[k]);
      assert Lites(t)[k] == Lites(s)[i];
    }
  }

  lemma LitesSeparated(s: seq<PoolRef>)
    requires DistinctAddresses(s)
    ensures Separates(LiteBefore, Lites(s))
  {
    hide ToPoolLite, Less;
    forall i, j | 0 <= i < j < |s|
        ensures LiteBefore(Lites(s)[i], Lites(s)[j]) || LiteBefore(Lites(s)[j], Lites(s)[i]) {
      LiteOfView(s[i]);
      LiteOfView(s[j]);
      LessTotal(s[i].address, s[j].address);
    }
  }

  lemma SortedLitesIgnoreOrder(s: seq<PoolRef>, t: seq<PoolRef>)
    requires DistinctAddresses(s) && DistinctAddresses(t) && Views(s) == Views(t)
    ensures SortedLites(s) == SortedLites(t) && |s| == |t|
  {
    hide ToPoolLite, Sort, LiteBefore;
    LitesInto(s, t);
    LitesInto(t, s);
    LitesSeparated(s);
    LitesSeparated(t);
    LiteBeforeIsStrict();
    SortIgnoresOrder(LiteBefore, Lites(s), Lites(t));
    SortElements(LiteBefore, Lites(s));
    SortElements(LiteBefore, Lites(t));
  }

  lemma LiteBeforeIsStrict()
    ensures StrictOrder(LiteBefore)
  {
    LessIsStrict();
    hide Less;
  }
}
