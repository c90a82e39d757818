/**
 * The population report in terms of its rows (src/discovery/population.ts): which mints are listed, which
 * routes are reported and in what order, and why a route is or is not on the shortlist.
 */
module PopulationTerms {
  import opened Outcomes
  import opened Sorting
  import opened Population
  import opened RowTerms
  import opened Routes
  import opened RouteTerms
  import opened Shortlist

  // ----- possible routes -----

  /** A route between two kept rows of its mint, from the adapters of its category. */
  ghost predicate Possible(ray: seq<PoolRef>, pump: seq<PoolRef>, r: Route) {
    exists p, q ::
      && p in (if r.category == PumpSwapX2 then pump else ray) && q in (if r.category == RaydiumX2 then ray else pump)
      && (r.category != CrossAdapter ==> p.address != q.address)
      && TradesWithWsol(p, r.mint) && TradesWithWsol(q, r.mint) && IsRouteOf(r, r.category, r.mint, p, q)
  }

  ghost predicate OfAdapters(ray: seq<PoolRef>, pump: seq<PoolRef>) {
    && (forall p :: p in ray ==> p.adapter == RaydiumCpmm) && (forall p :: p in pump ==> p.adapter == PumpSwap)
    && DistinctAddresses(ray) && DistinctAddresses(pump)
  }

  lemma PossibleIsGenuine(ray: seq<PoolRef>, pump: seq<PoolRef>, r: Route)
    requires OfAdapters(ray, pump)
    ensures Possible(ray, pump, r) <==> Genuine(ray, pump, r)
  {
    hide IsRouteOf, TradesWithWsol, MakeRoute, CounterMintOf, DistinctAddresses;
    if Possible(ray, pump, r) {
      var p, q :|
        && p in (if r.category == PumpSwapX2 then pump else ray) && q in (if r.category == RaydiumX2 then ray else pump)
        && (r.category != CrossAdapter ==> p.address != q.address)
        && TradesWithWsol(p, r.mint) && TradesWithWsol(q, r.mint) && IsRouteOf(r, r.category, r.mint, p, q);
      FiledUnderMint(p, r.mint);
      FiledUnderMint(q, r.mint);
      MakeRouteInFields(r.category, r.mint, p, q);
      RouteDetermined(r, MakeRoute(r.category, r.mint, p, q), r.category, r.mint, p, q);
    }
    if Genuine(ray, pump, r) {
      var p, q :|
        && p in LeftPools(r.category, ray, pump) && q in RightPools(r.category, ray, pump)
        && (r.category != CrossAdapter ==> p.address != q.address)
        && CounterMintOf(p) == CounterMintOf(q) == Some(r.mint) && r == MakeRoute(r.category, r.mint, p, q);
      FiledUnderMint(p, r.mint);
      FiledUnderMint(q, r.mint);
      MakeRouteInFields(r.category, r.mint, p, q);
    }
  }

  // ----- the greedy walk -----

  ghost predicate IsSelected(entries: seq<Entry>, address: string) {
    exists e :: e in entries && e.address == address
  }

  /** How many pools of the route are not selected yet. */
  ghost function Missing(entries: seq<Entry>, r: Route): nat {
    |set a | a in {r.poolA.address, r.poolB.address} && !IsSelected(entries, a)|
  }

  ghost function MintsOf(routes: seq<Route>): set<string> { set r | r in routes :: r.mint }

  /** The route's pools fit: in all, among those of its mint, and its mint among the mints. */
  ghost predicate Fits(maxPools: int, maxMints: int, perMint: int, sel: Selection, r: Route) {
    && |sel.entries| < maxPools && |sel.entries| + Missing(sel.entries, r) <= maxPools
    && CountMint(sel.entries, r.mint) + Missing(sel.entries, r) <= perMint
    && (r.mint in MintsOf(sel.routes) || |MintsOf(sel.routes)| < maxMints)
  }

  lemma SelectedSame(entries: seq<Entry>, address: string)
    ensures Selected(entries, address) <==> IsSelected(entries, address)
  {
    if Selected(entries, address) {
      var k :| 0 <= k < |entries| && entries[k].address == address;
      assert entries[k] in entries;
    }
  }

  lemma MissingIsFresh(entries: seq<Entry>, r: Route)
    requires r.poolA.address != r.poolB.address
    ensures Missing(entries, r) == Fresh(entries, r)
  {
    hide Selected, IsSelected;
    var a, b := r.poolA.address, r.poolB.address;
    SelectedSame(entries, a);
    SelectedSame(entries, b);
    var missing := set x | x in {a, b} && !IsSelected(entries, x);
    assert missing == (if IsSelected(entries, a) then {} else {a}) + (if IsSelected(entries, b) then {} else {b});
  }

  /** What the walk keeps beside the entries follows from them and the routes taken. */
  ghost predicate Tallied(sel: Selection) {
    && sel.mints == MintsOf(sel.routes)
    && (forall m :: Have(sel, m) == CountMint(sel.entries, m))
  }

  lemma AdmitTallies(ray: seq<PoolRef>, pump: seq<PoolRef>, sel: Selection, r: Route)
    requires Tallied(sel) && r.poolA.address != r.poolB.address
    ensures Tallied(Admit(ray, pump, sel, r))
  {
    hide RefOf, AddEntry, CountMint, Selected;
    var a, b := EntryFor(ray, pump, r.poolA, r), EntryFor(ray, pump, r.poolB, r);
    AddEntryEffect(sel.entries, a);
    AddEntryEffect(AddEntry(sel.entries, a), b);
    assert MintsOf(sel.routes + [r]) == MintsOf(sel.routes) + {r.mint};
  }

  lemma {:induction false} WalkTallies(l: Limits, ray: seq<PoolRef>, pump: seq<PoolRef>, routes: seq<Route>)
    requires forall r :: r in routes ==> r.poolA.address != r.poolB.address
    ensures Tallied(Select(l, ray, pump, routes))
  {
    hide Admits, Admit, Tallied;
    if routes == [] {
      NothingTallied();
    } else {
      var r := routes[|routes| - 1];
      assert r in routes;
      WalkTallies(l, ray, pump, routes[..|routes| - 1]);
      AdmitTallies(ray, pump, Select(l, ray, pump, routes[..|routes| - 1]), r);
    }
  }

  lemma NothingTallied()
    ensures Tallied(NOTHING)
  {
  }

  /** What taking a route does: both pools end up selected, none is dropped, and every new entry is one of the two. */
  ghost predicate Takes(sel: Selection, next: Selection, r: Route) {
    && next.routes == sel.routes + [r] && sel.entries <= next.entries
         && |next.entries| == |sel.entries| + Missing(sel.entries, r)
    && IsSelected(next.entries, r.poolA.address) && IsSelected(next.entries, r.poolB.address)
    && (forall k :: |sel.entries| <= k < |next.entries| ==>
          next.entries[k].mint == r.mint
          && (next.entries[k].address == r.poolA.address || next.entries[k].address == r.poolB.address))
  }

  lemma AdmitTakes(ray: seq<PoolRef>, pump: seq<PoolRef>, sel: Selection, r: Route)
    requires r.poolA.address != r.poolB.address
    ensures Takes(sel, Admit(ray, pump, sel, r), r)
  {
    hide RefOf, Selected, IsSelected, CountMint, Missing;
    var a, b := EntryFor(ray, pump, r.poolA, r), EntryFor(ray, pump, r.poolB, r);
    var once := AddEntry(sel.entries, a);
    AddEntryEffect(sel.entries, a);
    AddEntryEffect(once, b);
    MissingIsFresh(sel.entries, r);
    SelectedSame(AddEntry(once, b), a.address);
    SelectedSame(AddEntry(once, b), b.address);
  }

  lemma AdmitsIfFits(l: Limits, sel: Selection, r: Route)
    requires Tallied(sel) && r.poolA.address != r.poolB.address
    ensures |sel.entries| < l.maxPools && Admits(l, sel, r) <==> Fits(l.maxPools, l.maxMints, l.maxPoolsPerMint, sel, r)
  {
    hide Fresh, Missing, CountMint, MintsOf;
    MissingIsFresh(sel.entries, r);
  }

  /** At its turn a route is taken if it fits, and changes nothing if it does not. */
  lemma WalkIsGreedy(l: Limits, ray: seq<PoolRef>, pump: seq<PoolRef>, routes: seq<Route>, n: nat)
    requires n < |routes| && forall r :: r in routes ==> r.poolA.address != r.poolB.address
    ensures var sel, next := Select(l, ray, pump, routes[..n]), Select(l, ray, pump, routes[..n + 1]);
            if Fits(l.maxPools, l.maxMints, l.maxPoolsPerMint, sel, routes[n]) then Takes(sel, next, routes[n])
                else next == sel
  {
    hide Admits, Admit, Tallied, Fits, Takes;
    assert routes[..n + 1][..n] == routes[..n];
    assert routes[n] in routes && forall r :: r in routes[..n] ==> r in routes;
    var sel := Select(l, ray, pump, routes[..n]);
    WalkTallies(l, ray, pump, routes[..n]);
    AdmitsIfFits(l, sel, routes[n]);
    AdmitTakes(ray, pump, sel, routes[n]);
  }

  /** The row of a shortlist entry is the PumpSwap row of its address if there is one, and else the Raydium row. */
  ghost predicate RowOf(ray: seq<PoolRef>, pump: seq<PoolRef>, address: string, ref: Option<PoolRef>) {
    match ref
    case Some(p) => p.address == address && (p in pump || (p in ray && forall q :: q in pump ==> q.address != address))
    case None => forall q :: q in pump || q in ray ==> q.address != address
  }

  lemma RefIsRow(ray: seq<PoolRef>, pump: seq<PoolRef>, address: string)
    ensures RowOf(ray, pump, address, RefOf(ray, pump, address))
  {
  }

  lemma {:induction false} EntriesHaveRows(l: Limits, ray: seq<PoolRef>, pump: seq<PoolRef>, routes: seq<Route>)
    ensures forall e :: e in Select(l, ray, pump, routes).entries ==> RowOf(ray, pump, e.address, e.ref)
  {
    hide RowOf, RefOf, Selected, Admits;
    if routes != [] {
      var r := routes[|routes| - 1];
      EntriesHaveRows(l, ray, pump, routes[..|routes| - 1]);
      RefIsRow(ray, pump, r.poolA.address);
      RefIsRow(ray, pump, r.poolB.address);
    }
  }

  // ----- the routes of the report -----

  /** All pairs of one category and mint. */
  function PairsFor(category: Category, mint: string, ray: seq<PoolRef>, pump: seq<PoolRef>): seq<Route> {
    if category == CrossAdapter then Pairs(category, mint, Group(ray, mint), Some(Group(pump, mint)))
    else Pairs(category, mint, Group(LeftPools(category, ray, pump), mint), None)
  }

  ghost predicate GenuineFor(category: Category, mint: string, ray: seq<PoolRef>, pump: seq<PoolRef>, r: Route) {
    Genuine(ray, pump, r) && r.category == category && r.mint == mint
  }

  lemma TwoPairsAreGenuine(category: Category, mint: string, ray: seq<PoolRef>, pump: seq<PoolRef>, r: Route)
    requires category != CrossAdapter && DistinctAddresses(LeftPools(category, ray, pump))
    ensures r in PairsFor(category, mint, ray, pump) <==> GenuineFor(category, mint, ray, pump, r)
  {
    hide MakeRoute, TwoPairs, CounterMintOf, Group, DistinctAddresses;
    var kept := LeftPools(category, ray, pump);
    var pools := Group(kept, mint);
    GroupDistinct(kept, mint);
    TwoPairsMembers(category, mint, pools);
    if r in PairsFor(category, mint, ray, pump) {
      TwoPairIsGenuine(category, mint, ray, pump, pools, r);
    }
    if GenuineFor(category, mint, ray, pump, r) {
      var p, q :| p in kept && q in RightPools(category, ray, pump) && p.address != q.address
        && CounterMintOf(p) == CounterMintOf(q) == Some(mint) && r == MakeRoute(category, mint, p, q);
      InGroup(kept, mint, p);
      InGroup(kept, mint, q);
      IsPairOf(category, mint, pools, p, q);
    }
  }

  lemma InGroup(kept: seq<PoolRef>, mint: string, p: PoolRef)
    ensures p in Group(kept, mint) <==> p in kept && CounterMintOf(p) == Some(mint)
  {
    hide CounterMintOf;
  }

  lemma TwoPairIsGenuine(category: Category, mint: string, ray: seq<PoolRef>, pump: seq<PoolRef>, pools: seq<PoolRef>,
      r: Route)
    requires category != CrossAdapter && DistinctAddresses(pools) && IsTwoPair(category, mint, pools, r)
    requires forall p :: p in pools ==> p in LeftPools(category, ray, pump) && CounterMintOf(p) == Some(mint)
    ensures GenuineFor(category, mint, ray, pump, r)
  {
    hide MakeRoute, CounterMintOf;
    var i, j :| 0 <= i < j < |pools| && r == MakeRoute(category, mint, pools[i], pools[j]);
    MakeRouteLabels(category, mint, pools[i], pools[j]);
    assert pools[i] in pools && pools[j] in pools;
  }

  lemma IsPairOf(category: Category, mint: string, pools: seq<PoolRef>, p: PoolRef, q: PoolRef)
    requires category != CrossAdapter && p in pools && q in pools && p.address != q.address
    ensures IsTwoPair(category, mint, pools, MakeRoute(category, mint, p, q))
  {
    hide MakeRoute;
    var i :| 0 <= i < |pools| && pools[i] == p;
    var j :| 0 <= j < |pools| && pools[j] == q;
    MakeRouteSymmetric(category, mint, p, q);
    if j < i { assert MakeRoute(category, mint, p, q) == MakeRoute(category, mint, pools[j], pools[i]); }
  }

  lemma CrossPairsAreGenuine(mint: string, ray: seq<PoolRef>, pump: seq<PoolRef>, r: Route)
    ensures r in PairsFor(CrossAdapter, mint, ray, pump) <==> GenuineFor(CrossAdapter, mint, ray, pump, r)
  {
    hide MakeRoute, CrossPairs, CounterMintOf, Group;
    var rp, pp := Group(ray, mint), Group(pump, mint);
    CrossPairsMembers(CrossAdapter, mint, rp, pp);
    if r in PairsFor(CrossAdapter, mint, ray, pump) {
      var i, j :| 0 <= i < |rp| && 0 <= j < |pp| && r == MakeRoute(CrossAdapter, mint, rp[i], pp[j]);
      MakeRouteLabels(CrossAdapter, mint, rp[i], pp[j]);
      InGroup(ray, mint, rp[i]);
      InGroup(pump, mint, pp[j]);
      assert rp[i] in rp && pp[j] in pp;
    }
    if GenuineFor(CrossAdapter, mint, ray, pump, r) {
      var p, q :| p in ray && q in pump && CounterMintOf(p) == CounterMintOf(q) == Some(mint)
        && r == MakeRoute(CrossAdapter, mint, p, q);
      InGroup(ray, mint, p);
      InGroup(pump, mint, q);
      var i :| 0 <= i < |rp| && rp[i] == p;
      var j :| 0 <= j < |pp| && pp[j] == q;
      assert r == MakeRoute(CrossAdapter, mint, rp[i], pp[j]);
    }
  }

  /** The pairs of a category and mint are its possible routes, each once. */
  lemma PairsArePossible(category: Category, mint: string, ray: seq<PoolRef>, pump: seq<PoolRef>)
    requires OfAdapters(ray, pump)
    ensures forall r :: r in PairsFor(category, mint, ray, pump) <==>
              Possible(ray, pump, r) && r.category == category && r.mint == mint
    ensures DistinctPairs(PairsFor(category, mint, ray, pump))
  {
    hide Possible, Genuine, TwoPairs, CrossPairs, Group, DistinctPairs;
    var all := PairsFor(category, mint, ray, pump);
    forall r ensures r in all <==> Possible(ray, pump, r) && r.category == category && r.mint == mint {
      PossibleIsGenuine(ray, pump, r);
      if category == CrossAdapter { CrossPairsAreGenuine(mint, ray, pump, r); }
      else { TwoPairsAreGenuine(category, mint, ray, pump, r); }
    }
    GroupDistinct(ray, mint);
    GroupDistinct(pump, mint);
    if category == CrossAdapter {
      CrossPairsDistinct(mint, Group(ray, mint), Group(pump, mint));
    } else {
      TwoPairsDistinct(category, mint, Group(LeftPools(category, ray, pump), mint));
    }
  }

  /** The routes a section collects are the ranked routes of its mints. */
  ghost predicate RankedIn(category: Category, ray: seq<PoolRef>, pump: seq<PoolRef>, mints: seq<string>, cap: int,
      r: Route) {
    exists m :: m in mints && r in RankedOf(PairsFor(category, m, ray, pump), cap).routes
  }

  lemma RankedInAppend(category: Category, ray: seq<PoolRef>, pump: seq<PoolRef>, mints: seq<string>, cap: int,
      r: Route)
    requires mints != []
    ensures RankedIn(category, ray, pump, mints, cap, r) <==>
              RankedIn(category, ray, pump, mints[..|mints| - 1], cap, r)
              || r in RankedOf(PairsFor(category, mints[|mints| - 1], ray, pump), cap).routes
  {
    hide RankedOf, PairsFor;
    assert mints == mints[..|mints| - 1] + [mints[|mints| - 1]];
    assert forall m :: m in mints <==> m in mints[..|mints| - 1] || m == mints[|mints| - 1];
  }

  lemma NothingRanked(category: Category, mint: string, ray: seq<PoolRef>, pump: seq<PoolRef>, cap: int)
    requires if category == CrossAdapter then Group(pump, mint) == []
              else |Group(LeftPools(category, ray, pump), mint)| < 2
    ensures RankedOf(PairsFor(category, mint, ray, pump), cap).routes == []
  {
    hide Group, Sort, MakeRoute;
    SortElements(Before, PairsFor(category, mint, ray, pump));
    if category == CrossAdapter {
      NoCrossPairs(mint, Group(ray, mint));
    } else {
      NoTwoPairs(category, mint, Group(LeftPools(category, ray, pump), mint));
    }
  }

  lemma {:induction false} NoCrossPairs(mint: string, left: seq<PoolRef>)
    ensures CrossPairs(CrossAdapter, mint, left, []) == []
  {
    if left != [] { NoCrossPairs(mint, left[1..]); }
  }

  lemma NoTwoPairs(category: Category, mint: string, left: seq<PoolRef>)
    requires |left| < 2
    ensures TwoPairs(category, mint, left) == []
  {
    if |left| == 1 { assert left[1..] == []; }
  }

  lemma {:induction false} SameAdapterRoutes(category: Category, ray: seq<PoolRef>, pump: seq<PoolRef>,
      mints: seq<string>, cap: int)
    requires category != CrossAdapter
    ensures forall r :: r in SameAdapter(category, LeftPools(category, ray, pump), mints, cap).routes
                        <==> RankedIn(category, ray, pump, mints, cap, r)
  {
    hide RankedOf, Pairs, Group, SortedLites, RankedIn;
    if mints == [] {
      NothingRankedIn(category, ray, pump, cap);
    } else {
      var mint := mints[|mints| - 1];
      SameAdapterRoutes(category, ray, pump, mints[..|mints| - 1], cap);
      if |Group(LeftPools(category, ray, pump), mint)| < 2 { NothingRanked(category, mint, ray, pump, cap); }
      forall r { RankedInAppend(category, ray, pump, mints, cap, r); }
    }
  }

  lemma NothingRankedIn(category: Category, ray: seq<PoolRef>, pump: seq<PoolRef>, cap: int)
    ensures forall r :: !RankedIn(category, ray, pump, [], cap, r)
  {
  }

  lemma {:induction false} CrossRoutes(ray: seq<PoolRef>, pump: seq<PoolRef>, mints: seq<string>, cap: int)
    ensures forall r :: r in Cross(ray, pump, mints, cap).routes <==> RankedIn(CrossAdapter, ray, pump, mints, cap, r)
  {
    hide RankedOf, Pairs, Group, SortedLites, RankedIn;
    if mints == [] {
      NothingRankedIn(CrossAdapter, ray, pump, cap);
    } else {
      var mint := mints[|mints| - 1];
      CrossRoutes(ray, pump, mints[..|mints| - 1], cap);
      if Group(pump, mint) == [] { NothingRanked(CrossAdapter, mint, ray, pump, cap); }
      forall r { RankedInAppend(CrossAdapter, ray, pump, mints, cap, r); }
    }
  }

  ghost predicate RankedAnywhere(ray: seq<PoolRef>, pump: seq<PoolRef>, cap: int, r: Route) {
    || RankedIn(PumpSwapX2, ray, pump, SortedMints(pump), cap, r)
    || RankedIn(CrossAdapter, ray, pump, SortedMints(ray), cap, r)
    || RankedIn(RaydiumX2, ray, pump, SortedMints(ray), cap, r)
  }

  lemma ReportMembers(input: Input, r: Route)
    ensures var ray, pump := Kept(input.raydium, RaydiumCpmm), Kept(input.pumpswap, PumpSwap);
            r in ReportOf(input).routes <==> RankedAnywhere(ray, pump, Cap(input), r)
  {
    hide Kept, SameAdapter, Cross, Select, Sort, RankedIn, SortedMints, Before;
    var ray, pump, cap := Kept(input.raydium, RaydiumCpmm), Kept(input.pumpswap, PumpSwap), Cap(input);
    SameAdapterRoutes(PumpSwapX2, ray, pump, SortedMints(pump), cap);
    CrossRoutes(ray, pump, SortedMints(ray), cap);
    SameAdapterRoutes(RaydiumX2, ray, pump, SortedMints(ray), cap);
    var report := ReportOf(input);
    SortElements(Before, report.pumpswapX2.routes + report.crossAdapter.routes + report.raydiumX2.routes);
  }

  lemma KeptByAdapter(input: Input)
    ensures OfAdapters(Kept(input.raydium, RaydiumCpmm), Kept(input.pumpswap, PumpSwap))
  {
    hide Kept, DistinctAddresses;
    KeptDistinct(input.raydium, RaydiumCpmm);
    KeptDistinct(input.pumpswap, PumpSwap);
  }

  lemma RankedLabels(category: Category, mint: string, ray: seq<PoolRef>, pump: seq<PoolRef>, cap: int, r: Route)
    requires OfAdapters(ray, pump) && r in RankedOf(PairsFor(category, mint, ray, pump), cap).routes
    ensures r.category == category && r.mint == mint && Possible(ray, pump, r)
  {
    hide RankedOf, PairsFor, Possible, OfAdapters, DistinctPairs;
    PairsArePossible(category, mint, ray, pump);
    RankedSubset(PairsFor(category, mint, ray, pump), cap);
  }

  /** A route is ranked in a section exactly when it is ranked for its own mint, of a listed mint. */
  lemma RankedForItsMint(category: Category, ray: seq<PoolRef>, pump: seq<PoolRef>, kept: seq<PoolRef>, cap: int,
      r: Route)
    requires OfAdapters(ray, pump) && kept == LeftPools(category, ray, pump)
    ensures RankedIn(category, ray, pump, SortedMints(kept), cap, r) <==>
              r.category == category && r in RankedOf(PairsFor(category, r.mint, ray, pump), cap).routes
  {
    hide RankedOf, PairsFor, Possible, OfAdapters, Sort, Mints, Less;
    SortElements(Less, Mints(kept));
    if RankedIn(category, ray, pump, SortedMints(kept), cap, r) {
      var m :| m in SortedMints(kept) && r in RankedOf(PairsFor(category, m, ray, pump), cap).routes;
      RankedLabels(category, m, ray, pump, cap, r);
    }
    if r.category == category && r in RankedOf(PairsFor(category, r.mint, ray, pump), cap).routes {
      RankedLabels(category, r.mint, ray, pump, cap, r);
      PossibleListed(category, ray, pump, kept, r);
    }
  }

  lemma PossibleListed(category: Category, ray: seq<PoolRef>, pump: seq<PoolRef>, kept: seq<PoolRef>, r: Route)
    requires Possible(ray, pump, r) && r.category == category && kept == LeftPools(category, ray, pump)
    ensures r.mint in Mints(kept)
  {
    hide IsRouteOf, TradesWithWsol, CounterMintOf;
    var p, q :|
      && p in (if r.category == PumpSwapX2 then pump else ray) && q in (if r.category == RaydiumX2 then ray else pump)
      && (r.category != CrossAdapter ==> p.address != q.address)
      && TradesWithWsol(p, r.mint) && TradesWithWsol(q, r.mint) && IsRouteOf(r, r.category, r.mint, p, q);
    FiledUnderMint(p, r.mint);
  }

  /** The reported routes are, mint by mint and category by category, the ranked and cut pairs. */
  lemma ReportedForItsMint(input: Input, r: Route)
    ensures var ray, pump := Kept(input.raydium, RaydiumCpmm), Kept(input.pumpswap, PumpSwap);
            r in ReportOf(input).routes <==> r in RankedOf(PairsFor(r.category, r.mint, ray, pump), Cap(input)).routes
  {
    hide Kept, RankedIn, RankedOf, PairsFor, SortedMints, ReportOf, OfAdapters;
    var ray, pump, cap := Kept(input.raydium, RaydiumCpmm), Kept(input.pumpswap, PumpSwap), Cap(input);
    KeptByAdapter(input);
    ReportMembers(input, r);
    RankedForItsMint(PumpSwapX2, ray, pump, pump, cap, r);
    RankedForItsMint(CrossAdapter, ray, pump, ray, cap, r);
    RankedForItsMint(RaydiumX2, ray, pump, ray, cap, r);
  }

  /** The routes reported for a mint in a category are the best of its possible ones, as many as the cap (32 unless given) allows. */
  lemma MintRoutesAreBest(input: Input, category: Category, mint: string) returns (all: seq<Route>, kept: Ranked)
    ensures var ray, pump := Kept(input.raydium, RaydiumCpmm), Kept(input.pumpswap, PumpSwap);
            forall r :: r in all <==> Possible(ray, pump, r) && r.category == category && r.mint == mint
    ensures DistinctPairs(all)
    ensures BestKept(all, if input.maxRoutesPerMint.Some? then input.maxRoutesPerMint.value else 32, kept)
    ensures forall r :: r in kept.routes <==> r in ReportOf(input).routes && r.category == category && r.mint == mint
  {
    hide Kept, RankedOf, PairsFor, ReportOf, OfAdapters, Possible, DistinctPairs, BestKept;
    var ray, pump, cap := Kept(input.raydium, RaydiumCpmm), Kept(input.pumpswap, PumpSwap), Cap(input);
    KeptByAdapter(input);
    PairsArePossible(category, mint, ray, pump);
    all := PairsFor(category, mint, ray, pump);
    kept := RankedOf(all, cap);
    RankedKeepsBest(all, cap);
    forall r ensures r in kept.routes <==> r in ReportOf(input).routes && r.category == category && r.mint == mint {
      ReportedForItsMint(input, r);
      if r in kept.routes { RankedLabels(category, mint, ray, pump, cap, r); }
    }
  }

  /**
   * The reported routes are possible ones, none precedes a better one, and a possible route left out
   * comes after every reported route of its mint and category.
   */
  lemma ReportRanksBest(input: Input)
    ensures var report := ReportOf(input);
            var ray, pump := Kept(input.raydium, RaydiumCpmm), Kept(input.pumpswap, PumpSwap);
            && (forall i, j :: 0 <= i < j < |report.routes| ==> !RanksBefore(report.routes[j], report.routes[i]))
            && (forall r :: r in report.routes ==> Possible(ray, pump, r))
            && (forall r, k ::
                  Possible(ray, pump, r) && r !in report.routes && k in report.routes && k.category == r.category
                      && k.mint == r.mint ==>
                    RanksBefore(k, r))
  {
    hide Kept, ReportOf, Possible, RanksBefore, BestKept, DistinctPairs;
    var report := ReportOf(input);
    var ray, pump := Kept(input.raydium, RaydiumCpmm), Kept(input.pumpswap, PumpSwap);
    ReportInOrder(input);
    forall r | r in report.routes ensures Possible(ray, pump, r) {
      var all, kept := MintRoutesAreBest(input, r.category, r.mint);
      KeptAmong(all, Cap(input), kept, r);
    }
    forall r, k | Possible(ray, pump, r) && r !in report.routes && k in report.routes && k.category == r.category
        && k.mint == r.mint
      ensures RanksBefore(k, r)
    {
      var all, kept := MintRoutesAreBest(input, r.category, r.mint);
      CutAfter(all, Cap(input), kept, r, k);
    }
  }

  lemma KeptAmong(all: seq<Route>, cap: int, kept: Ranked, r: Route)
    requires BestKept(all, cap, kept) && r in kept.routes
    ensures r in all
  {
    hide RanksBefore;
  }

  lemma CutAfter(all: seq<Route>, cap: int, kept: Ranked, r: Route, k: Route)
    requires BestKept(all, cap, kept) && r in all && r !in kept.routes && k in kept.routes
    ensures RanksBefore(k, r)
  {
    hide RanksBefore;
  }

  lemma ReportInOrder(input: Input)
    ensures var routes := ReportOf(input).routes;
            forall i, j :: 0 <= i < j < |routes| ==> !RanksBefore(routes[j], routes[i])
  {
    hide Kept, SameAdapter, Cross, Select, Sort, SortedMints, Before, RanksBefore;
    var report := ReportOf(input);
    BeforeIsWeak();
    SortNeverInverts(Before, report.pumpswapX2.routes + report.crossAdapter.routes + report.raydiumX2.routes);
    forall i, j | 0 <= i < j < |report.routes| ensures !RanksBefore(report.routes[j], report.routes[i]) {
      BeforeInFields(report.routes[j], report.routes[i]);
    }
  }

  // ----- the shortlist of the report -----

  /** No address is listed by both adapters. */
  ghost predicate Disjoint(ray: seq<PoolRef>, pump: seq<PoolRef>) {
    forall p, q :: p in ray && q in pump ==> p.address != q.address
  }

  lemma PossibleJoinsTwo(ray: seq<PoolRef>, pump: seq<PoolRef>, r: Route)
    requires Possible(ray, pump, r) && Disjoint(ray, pump)
    ensures r.poolA.address != r.poolB.address
  {
    hide Ranks, IsOriented, TradesWithWsol;
  }

  /**
   * Routes are taken in the reported order, each exactly when it still fits the pools, the pools of one
   * mint (six unless given, and at least two) and the mints; a route left out did not fit at its turn.
   */
  lemma ShortlistIsGreedy(input: Input, n: nat)
    requires Disjoint(Kept(input.raydium, RaydiumCpmm), Kept(input.pumpswap, PumpSwap)) && n < |ReportOf(input).routes|
    ensures var ray, pump := Kept(input.raydium, RaydiumCpmm), Kept(input.pumpswap, PumpSwap);
            var report, l := ReportOf(input), LimitsOf(input);
            var sel, next := Select(l, ray, pump, report.routes[..n]), Select(l, ray, pump, report.routes[..n + 1]);
            && report.selection == Select(l, ray, pump, report.routes)
            && l.maxPools == input.maxPools && l.maxMints == input.maxMints
            && l.maxPoolsPerMint >= 2 && (input.maxPoolsPerMint.None? ==> l.maxPoolsPerMint == 6)
            && (input.maxPoolsPerMint.Some? && input.maxPoolsPerMint.value >= 2 ==>
                 l.maxPoolsPerMint == input.maxPoolsPerMint.value)
            && (input.maxPoolsPerMint.Some? && input.maxPoolsPerMint.value < 2 ==> l.maxPoolsPerMint == 2)
            && (if Fits(input.maxPools, input.maxMints, l.maxPoolsPerMint, sel, report.routes[n]) then
                  Takes(sel, next, report.routes[n])
                else next == sel)
  {
    hide Kept, Possible, Fits, Takes, SameAdapter, Cross, Select, Sort, SortedMints, Disjoint, RanksBefore;
    ReportRanksBest(input);
    var ray, pump, report := Kept(input.raydium, RaydiumCpmm), Kept(input.pumpswap, PumpSwap), ReportOf(input);
    forall r | r in report.routes ensures r.poolA.address != r.poolB.address { PossibleJoinsTwo(ray, pump, r); }
    WalkIsGreedy(LimitsOf(input), ray, pump, report.routes, n);
  }

  // ----- the categories of the report -----

  /** A category lists, by ascending address, the kept pools of a mint. */
  ghost predicate ListsPools(lites: seq<PoolLite>, kept: seq<PoolRef>, mint: string) {
    && (forall i, j :: 0 <= i < j < |lites| ==> ByUnits(lites[i].address, lites[j].address))
    && (forall x :: x in lites <==> exists p :: p in kept && TradesWithWsol(p, mint) && Lists(x, p))
  }

  lemma SortedLitesList(kept: seq<PoolRef>, mint: string)
    requires DistinctAddresses(kept)
    ensures ListsPools(SortedLites(Group(kept, mint)), kept, mint)
  {
    hide Sort, Less, Lists, ByUnits, TradesWithWsol, Group, DistinctAddresses, ToPoolLite;
    var pools := Group(kept, mint);
    var lites := SortedLites(pools);
    GroupDistinct(kept, mint);
    LitesSeparated(pools);
    LiteBeforeIsStrict();
    SortSorts(LiteBefore, Lites(pools));
    SortElements(LiteBefore, Lites(pools));
    forall i, j | 0 <= i < j < |lites| ensures ByUnits(lites[i].address, lites[j].address) {
      assert LiteBefore(lites[i], lites[j]);
      LessIsByUnits(lites[i].address, lites[j].address);
    }
    forall x ensures x in lites <==> exists p :: p in kept && TradesWithWsol(p, mint) && Lists(x, p) {
      ListedInGroup(kept, mint, x);
    }
  }

  lemma ListedInGroup(kept: seq<PoolRef>, mint: string, x: PoolLite)
    ensures x in Lites(Group(kept, mint)) <==> exists p :: p in kept && TradesWithWsol(p, mint) && Lists(x, p)
  {
    hide Lists, TradesWithWsol, Group, ToPoolLite;
    var pools := Group(kept, mint);
    if x in Lites(pools) {
      var k :| 0 <= k < |pools| && Lites(pools)[k] == x;
      var p := pools[k];
      assert p in pools;
      InGroup(kept, mint, p);
      FiledUnderMint(p, mint);
      ListsRow(p);
    }
    if p :| p in kept && TradesWithWsol(p, mint) && Lists(x, p) {
      InGroup(kept, mint, p);
      FiledUnderMint(p, mint);
      ListsRow(p);
      RowListedOnce(p, x, ToPoolLite(p));
      var k :| 0 <= k < |pools| && pools[k] == p;
      assert Lites(pools)[k] == x;
    }
  }

  /** One entry for each of the mints that qualify, by ascending mint. */
  ghost predicate OneEntryEach(entries: seq<CategoryEntry>, mints: seq<string>, qualifies: string -> bool) {
    && (forall e :: e in entries ==> e.mint in mints && qualifies(e.mint))
    && (forall m :: m in mints && qualifies(m) ==> exists e :: e in entries && e.mint == m)
    && (forall i, j :: 0 <= i < j < |entries| ==> Less(entries[i].mint, entries[j].mint))
  }

  lemma EntriesAppend(entries: seq<CategoryEntry>, mints: seq<string>, qualifies: string -> bool, e: CategoryEntry)
    requires mints != [] && OneEntryEach(entries, mints[..|mints| - 1], qualifies) && StrictlySorted(Less, mints)
    ensures qualifies(mints[|mints| - 1]) && e.mint == mints[|mints| - 1] ==>
              OneEntryEach(entries + [e], mints, qualifies)
    ensures !qualifies(mints[|mints| - 1]) ==> OneEntryEach(entries, mints, qualifies)
  {
    hide Less;
    var before, last := mints[..|mints| - 1], mints[|mints| - 1];
    assert mints == before + [last];
    assert forall m :: m in mints <==> m in before || m == last;
    forall i | 0 <= i < |entries| ensures Less(entries[i].mint, last) {
      assert entries[i] in entries;
      var k :| 0 <= k < |before| && before[k] == entries[i].mint;
      assert Less(mints[k], mints[|mints| - 1]);
    }
    var after := entries + [e];
    forall m | m in before && qualifies(m) ensures exists x :: x in after && x.mint == m {
      var x :| x in entries && x.mint == m;
      assert x in after;
    }
    assert e in after;
    assert forall x :: x in after <==> x in entries || x == e;
  }

  lemma {:induction false} SameAdapterEntries(category: Category, kept: seq<PoolRef>, mints: seq<string>, cap: int)
    requires StrictlySorted(Less, mints) && DistinctAddresses(kept)
    ensures var entries := SameAdapter(category, kept, mints, cap).entries;
            && OneEntryEach(entries, mints, (m: string) => |Group(kept, m)| >= 2)
            && forall e :: e in entries ==> ListsPools(e.pools, kept, e.mint) && e.others == []
    decreases |mints|
  {
    hide Less, ListsPools, SortedLites, Group, RankedOf, Pairs, OneEntryEach, DistinctAddresses;
    if mints == [] {
      NoEntries((m: string) => |Group(kept, m)| >= 2);
    } else {
      var mint := mints[|mints| - 1];
      SameAdapterEntries(category, kept, mints[..|mints| - 1], cap);
      SortedLitesList(kept, mint);
      EntriesAppend(SameAdapter(category, kept, mints[..|mints| - 1], cap).entries, mints,
          (m: string) => |Group(kept, m)| >= 2,
                    CategoryEntry(mint, SortedLites(Group(kept, mint)), []));
    }
  }

  lemma NoEntries(qualifies: string -> bool)
    ensures OneEntryEach([], [], qualifies)
  {
  }

  lemma {:induction false} CrossEntries(ray: seq<PoolRef>, pump: seq<PoolRef>, mints: seq<string>, cap: int)
    requires StrictlySorted(Less, mints) && DistinctAddresses(ray) && DistinctAddresses(pump)
    ensures var entries := Cross(ray, pump, mints, cap).entries;
            && OneEntryEach(entries, mints, (m: string) => Group(pump, m) != [])
            && forall e :: e in entries ==> ListsPools(e.pools, ray, e.mint) && ListsPools(e.others, pump, e.mint)
    decreases |mints|
  {
    hide Less, ListsPools, SortedLites, Group, RankedOf, Pairs, OneEntryEach, DistinctAddresses;
    if mints == [] {
      NoEntries((m: string) => Group(pump, m) != []);
    } else {
      var mint := mints[|mints| - 1];
      CrossEntries(ray, pump, mints[..|mints| - 1], cap);
      SortedLitesList(ray, mint);
      SortedLitesList(pump, mint);
      EntriesAppend(Cross(ray, pump, mints[..|mints| - 1], cap).entries, mints, (m: string) => Group(pump, m) != [],
                    CategoryEntry(mint, SortedLites(Group(ray, mint)), SortedLites(Group(pump, mint))));
    }
  }

  ghost predicate HasOne(kept: seq<PoolRef>, mint: string) { exists p :: p in kept && TradesWithWsol(p, mint) }

  ghost predicate HasTwo(kept: seq<PoolRef>, mint: string) {
    exists p, q ::
        p in kept && q in kept && p.address != q.address && TradesWithWsol(p, mint) && TradesWithWsol(q, mint)
  }

  lemma GroupHasOne(kept: seq<PoolRef>, mint: string)
    ensures Group(kept, mint) != [] <==> HasOne(kept, mint)
  {
    hide TradesWithWsol, Group;
    var pools := Group(kept, mint);
    if pools != [] {
      assert pools[0] in pools;
      InGroup(kept, mint, pools[0]);
      FiledUnderMint(pools[0], mint);
    }
    if p :| p in kept && TradesWithWsol(p, mint) {
      InGroup(kept, mint, p);
      FiledUnderMint(p, mint);
    }
  }

  lemma GroupHasTwo(kept: seq<PoolRef>, mint: string)
    requires DistinctAddresses(kept)
    ensures |Group(kept, mint)| >= 2 <==> HasTwo(kept, mint)
  {
    hide TradesWithWsol, Group;
    var pools := Group(kept, mint);
    GroupDistinct(kept, mint);
    if |pools| >= 2 {
      assert pools[0] in pools && pools[1] in pools;
      FiledUnderMint(pools[0], mint);
      FiledUnderMint(pools[1], mint);
    }
    if p, q :| p in kept && q in kept && p.address != q.address && TradesWithWsol(p, mint) && TradesWithWsol(q, mint) {
      InGroup(kept, mint, p);
      InGroup(kept, mint, q);
      FiledUnderMint(p, mint);
      FiledUnderMint(q, mint);
      TwoMembers(pools, p, q);
    }
  }

  lemma TwoMembers<T>(s: seq<T>, p: T, q: T)
    requires p in s && q in s && p != q
    ensures |s| >= 2
  {
    var i :| 0 <= i < |s| && s[i] == p;
    var j :| 0 <= j < |s| && s[j] == q;
  }

  lemma MintsAscend(kept: seq<PoolRef>)
    ensures StrictlySorted(Less, SortedMints(kept))
    ensures forall m :: m in SortedMints(kept) <==> HasOne(kept, m)
  {
    hide Less, Sort, Mints, HasOne, Group;
    var mints := Mints(kept);
    forall i, j | 0 <= i < j < |mints| ensures Less(mints[i], mints[j]) || Less(mints[j], mints[i]) {
      LessTotal(mints[i], mints[j]);
    }
    LessIsStrict();
    SortSorts(Less, mints);
    SortElements(Less, mints);
    forall m ensures m in SortedMints(kept) <==> HasOne(kept, m) {
      GroupPresent(kept, m);
      GroupHasOne(kept, m);
    }
  }

  /** One entry for each qualifying mint, mints ascending by code unit. */
  ghost predicate EntryForEach(entries: seq<CategoryEntry>, qualifies: string -> bool) {
    && (forall m :: qualifies(m) <==> exists e :: e in entries && e.mint == m)
    && (forall i, j :: 0 <= i < j < |entries| ==> ByUnits(entries[i].mint, entries[j].mint))
  }

  lemma EntriesByUnits(entries: seq<CategoryEntry>, mints: seq<string>, qualifies: string -> bool,
      holds: string -> bool)
    requires OneEntryEach(entries, mints, qualifies) && forall m :: holds(m) <==> m in mints && qualifies(m)
    ensures EntryForEach(entries, holds)
  {
    hide Less, ByUnits;
    forall i, j | 0 <= i < j < |entries| ensures ByUnits(entries[i].mint, entries[j].mint) {
      LessIsByUnits(entries[i].mint, entries[j].mint);
    }
  }

  /** A mint is in a same-adapter category exactly when it has two pools there, and across adapters when it has one on both sides. */
  lemma CategoriesExact(input: Input)
    ensures var ray, pump := Kept(input.raydium, RaydiumCpmm), Kept(input.pumpswap, PumpSwap);
            var report := ReportOf(input);
            && EntryForEach(report.pumpswapX2.entries, (m: string) => HasTwo(pump, m))
            && EntryForEach(report.raydiumX2.entries, (m: string) => HasTwo(ray, m))
            && EntryForEach(report.crossAdapter.entries, (m: string) => HasOne(ray, m) && HasOne(pump, m))
            && (forall e :: e in report.pumpswapX2.entries ==> ListsPools(e.pools, pump, e.mint))
            && (forall e :: e in report.raydiumX2.entries ==> ListsPools(e.pools, ray, e.mint))
            && (forall e :: e in report.crossAdapter.entries ==>
                 ListsPools(e.pools, ray, e.mint) && ListsPools(e.others, pump, e.mint))
  {
    hide Kept, SameAdapter, Cross, Select, Sort, SortedMints, Less, OneEntryEach, EntryForEach, ListsPools,
        DistinctAddresses, Group,
         HasOne, HasTwo;
    var ray, pump, cap := Kept(input.raydium, RaydiumCpmm), Kept(input.pumpswap, PumpSwap), Cap(input);
    KeptByAdapter(input);
    MintsAscend(ray);
    MintsAscend(pump);
    SameAdapterEntries(PumpSwapX2, pump, SortedMints(pump), cap);
    SameAdapterEntries(RaydiumX2, ray, SortedMints(ray), cap);
    CrossEntries(ray, pump, SortedMints(ray), cap);
    forall m ensures HasTwo(pump, m) <==> m in SortedMints(pump) && |Group(pump, m)| >= 2 { TwoAreGrouped(pump, m); }
    forall m ensures HasTwo(ray, m) <==> m in SortedMints(ray) && |Group(ray, m)| >= 2 { TwoAreGrouped(ray, m); }
    forall m ensures Group(pump, m) != [] <==> HasOne(pump, m) { GroupHasOne(pump, m); }
    EntriesByUnits(ReportOf(input).pumpswapX2.entries, SortedMints(pump), (m: string) => |Group(pump, m)| >= 2,
        (m: string) => HasTwo(pump, m));
    EntriesByUnits(ReportOf(input).raydiumX2.entries, SortedMints(ray), (m: string) => |Group(ray, m)| >= 2,
        (m: string) => HasTwo(ray, m));
    EntriesByUnits(ReportOf(input).crossAdapter.entries, SortedMints(ray), (m: string) => Group(pump, m) != [],
                   (m: string) => HasOne(ray, m) && HasOne(pump, m));
  }

  lemma TwoAreGrouped(kept: seq<PoolRef>, mint: string)
    requires DistinctAddresses(kept)
    ensures HasTwo(kept, mint) <==> mint in SortedMints(kept) && |Group(kept, mint)| >= 2
  {
    hide SortedMints, Group, DistinctAddresses, TradesWithWsol;
    MintsAscend(kept);
    GroupHasTwo(kept, mint);
  }

  // ----- what the cap leaves out is counted -----

  lemma NextSquare(n: nat)
    ensures (n + 1) * (n + 1) == n * n + 2 * n + 1
  {
  }

  lemma {:induction false} TwoPairsCount(category: Category, mint: string, left: seq<PoolRef>)
    ensures 2 * |TwoPairs(category, mint, left)| == |left| * |left| - |left|
  {
    hide MakeRoute, Row;
    if left != [] {
      TwoPairsCount(category, mint, left[1..]);
      NextSquare(|left| - 1);
    }
  }

  lemma {:induction false} CrossPairsCount(mint: string, left: seq<PoolRef>, right: seq<PoolRef>)
    ensures |CrossPairs(CrossAdapter, mint, left, right)| == |left| * |right|
  {
    hide MakeRoute;
    if left != [] {
      CrossPairsCount(mint, left[1..], right);
      var n := |left| - 1;
      assert (n + 1) * |right| == n * |right| + |right|;
    }
  }

  /** Twice the pairs of one adapter, over the mints. */
  function TwicePairs(kept: seq<PoolRef>, mints: seq<string>): int {
    if mints == [] then 0
    else
      var n := |Group(kept, mints[|mints| - 1])|;
      TwicePairs(kept, mints[..|mints| - 1]) + n * n - n
  }

  lemma RankedCounts(all: seq<Route>, cap: int)
    requires cap >= 0
    ensures |RankedOf(all, cap).routes| + RankedOf(all, cap).truncated == |all|
  {
    hide Before;
    SortElements(Before, all);
  }

  /** Every pair of a same-adapter category is reported or counted as truncated. */
  lemma {:induction false} SameAdapterAccounts(category: Category, kept: seq<PoolRef>, mints: seq<string>, cap: int)
    requires cap >= 0
    ensures var sec := SameAdapter(category, kept, mints, cap);
            2 * (|sec.routes| + sec.truncated) == TwicePairs(kept, mints)
    decreases |mints|
  {
    hide Group, SortedLites, RankedOf, TwoPairs;
    if mints != [] {
      var mint := mints[|mints| - 1];
      SameAdapterAccounts(category, kept, mints[..|mints| - 1], cap);
      RankedCounts(TwoPairs(category, mint, Group(kept, mint)), cap);
      TwoPairsCount(category, mint, Group(kept, mint));
      FewPairs(|Group(kept, mint)|);
    }
  }

  lemma FewPairs(n: nat)
    ensures n < 2 ==> n * n - n == 0
  {
  }
}
