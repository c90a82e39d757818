/**
 * The population report (src/discovery/population.ts): categories, ranked routes and the greedy
 * shortlist; its independence from the order of the input rows, and the limits it respects.
 */
module Shortlist {
  import opened Outcomes
  import opened Sorting
  import opened Population
  import opened Routes

  // ----- categories -----

  datatype CategoryEntry = CategoryEntry(mint: string, pools: seq<PoolLite>, others: seq<PoolLite>)

  datatype Section = Section(entries: seq<CategoryEntry>, routes: seq<Route>, truncated: int)

  const EMPTY: Section := Section([], [], 0)

  function Extend(sec: Section, entry: CategoryEntry, r: Ranked): Section {
    Section(sec.entries + [entry], sec.routes + r.routes, sec.truncated + r.truncated)
  }

  /** One mint of a same-adapter category, which needs two pools. */
  function SameAdapterStep(sec: Section, category: Category, kept: seq<PoolRef>, mint: string, cap: int): Section {
    var pools := Group(kept, mint);
    if |pools| < 2 then sec
    else Extend(sec, CategoryEntry(mint, SortedLites(pools), []), RankedOf(Pairs(category, mint, pools, None), cap))
  }

  /** One mint of the cross-adapter category, which needs a pool on both sides. */
  function CrossStep(sec: Section, ray: seq<PoolRef>, pump: seq<PoolRef>, mint: string, cap: int): Section {
    var rp, pp := Group(ray, mint), Group(pump, mint);
    if pp == [] then sec
    else Extend(sec, CategoryEntry(mint, SortedLites(rp), SortedLites(pp)),
        RankedOf(Pairs(CrossAdapter, mint, rp, Some(pp)), cap))
  }

  function SameAdapter(category: Category, kept: seq<PoolRef>, mints: seq<string>, cap: int): Section {
    if mints == [] then EMPTY
    else SameAdapterStep(SameAdapter(category, kept, mints[..|mints| - 1], cap), category, kept, mints[|mints| - 1],
        cap)
  }

  function Cross(ray: seq<PoolRef>, pump: seq<PoolRef>, mints: seq<string>, cap: int): Section {
    if mints == [] then EMPTY
    else CrossStep(Cross(ray, pump, mints[..|mints| - 1], cap), ray, pump, mints[|mints| - 1], cap)
  }

  method CollectSameAdapter(category: Category, kept: seq<PoolRef>, mints: seq<string>, byMint: map<string,
      seq<PoolRef>>, cap: int) returns (sec: Section)
    requires Indexed(kept, mints, byMint)
    ensures sec == SameAdapter(category, kept, Sort(Less, mints), cap)
  {
    hide Less, Group, Sort, Pairs, SortedLites, RankedOf, Extend, SameAdapter, Indexed;
    SortElements(Less, mints);
    var sorted := Sort(Less, mints);
    sec := EMPTY;
    var n := 0;
    SameAdapterSnoc(category, kept, sorted, 0, cap);
    while n < |sorted|
      invariant n <= |sorted| && sec == SameAdapter(category, kept, sorted[..n], cap)
    {
      assert sorted[n] in sorted;
      SameAdapterSnoc(category, kept, sorted, n, cap);
      FiledUnder(kept, mints, byMint, sorted[n]);
      var pools := byMint[sorted[n]];
      if |pools| >= 2 {
        var r := RankedPairs(category, sorted[n], pools, None, cap);
        sec := Extend(sec, CategoryEntry(sorted[n], SortedLites(pools), []), r);
      }
      n := n + 1;
    }
    assert sorted[..n] == sorted;
  }

  lemma SameAdapterSnoc(category: Category, kept: seq<PoolRef>, mints: seq<string>, n: nat, cap: int)
    requires n <= |mints|
    ensures SameAdapter(category, kept, mints[..0], cap) == EMPTY
    ensures n < |mints| ==> SameAdapter(category, kept, mints[..n + 1], cap) ==
                            SameAdapterStep(SameAdapter(category, kept, mints[..n], cap), category, kept, mints[n], cap)
  {
    hide SameAdapterStep;
    assert n < |mints| ==> mints[..n + 1][..n] == mints[..n];
  }

  lemma CrossSnoc(ray: seq<PoolRef>, pump: seq<PoolRef>, mints: seq<string>, n: nat, cap: int)
    requires n <= |mints|
    ensures Cross(ray, pump, mints[..0], cap) == EMPTY
    ensures n < |mints| ==> Cross(ray, pump, mints[..n + 1], cap) == CrossStep(Cross(ray, pump, mints[..n], cap), ray, pump, mints[n], cap)
  {
    hide CrossStep;
    assert n < |mints| ==> mints[..n + 1][..n] == mints[..n];
  }

  /** A mint is a key of the index exactly when it has a group. */
  lemma FiledUnder(kept: seq<PoolRef>, mints: seq<string>, byMint: map<string, seq<PoolRef>>, mint: string)
    requires Indexed(kept, mints, byMint)
    ensures mint in byMint <==> Group(kept, mint) != []
    ensures mint in byMint <==> mint in mints
    ensures mint in byMint ==> byMint[mint] == Group(kept, mint)
  {
    hide Mints, Group;
    GroupPresent(kept, mint);
  }

  method CollectCross(ray: seq<PoolRef>, rayMints: seq<string>, rayByMint: map<string, seq<PoolRef>>,
                      pump: seq<PoolRef>, pumpMints: seq<string>, pumpByMint: map<string, seq<PoolRef>>, cap: int)
                          returns (sec: Section)
    requires Indexed(ray, rayMints, rayByMint) && Indexed(pump, pumpMints, pumpByMint)
    ensures sec == Cross(ray, pump, Sort(Less, rayMints), cap)
  {
    hide Less, Group, Sort, Pairs, SortedLites, RankedOf, Extend, Cross, Indexed;
    SortElements(Less, rayMints);
    var sorted := Sort(Less, rayMints);
    sec := EMPTY;
    var n := 0;
    CrossSnoc(ray, pump, sorted, 0, cap);
    while n < |sorted|
      invariant n <= |sorted| && sec == Cross(ray, pump, sorted[..n], cap)
    {
      var mint := sorted[n];
      assert mint in sorted;
      CrossSnoc(ray, pump, sorted, n, cap);
      FiledUnder(ray, rayMints, rayByMint, mint);
      FiledUnder(pump, pumpMints, pumpByMint, mint);
      if mint in pumpByMint {
        var r := RankedPairs(CrossAdapter, mint, rayByMint[mint], Some(pumpByMint[mint]), cap);
        sec := Extend(sec, CategoryEntry(mint, SortedLites(rayByMint[mint]), SortedLites(pumpByMint[mint])), r);
      }
      n := n + 1;
    }
    assert sorted[..n] == sorted;
  }

  lemma GroupPresent(kept: seq<PoolRef>, mint: string)
    ensures mint in Mints(kept) <==> Group(kept, mint) != []
  {
    hide CounterMintOf, Mints;
    assert |Group(kept, mint)| > 0 ==> Group(kept, mint)[0] in Group(kept, mint);
    if mint in Mints(kept) {
      var p :| p in kept && CounterMintOf(p) == Some(mint);
      assert p in Group(kept, mint);
    }
  }

  // ----- the greedy shortlist -----

  datatype Limits = Limits(maxPools: int, maxMints: int, maxPoolsPerMint: int)

  datatype Entry = Entry(address: string, mint: string, ref: Option<PoolRef>)

  datatype Selection = Selection(entries: seq<Entry>, mints: set<string>, perMint: map<string, int>, routes: seq<Route>)

  const NOTHING: Selection := Selection([], {}, map[], [])

  /** refByAddr: built from the Raydium pools, then the PumpSwap pools. */
  function RefOf(ray: seq<PoolRef>, pump: seq<PoolRef>, address: string): Option<PoolRef> {
    var k := IndexOf(pump, address);
    if k < |pump| then Some(pump[k])
    else
      var i := IndexOf(ray, address);
      if i < |ray| then Some(ray[i]) else None
  }

  predicate Selected(entries: seq<Entry>, address: string) {
    exists k :: 0 <= k < |entries| && entries[k].address == address
  }

  function Fresh(entries: seq<Entry>, r: Route): nat {
    (if Selected(entries, r.poolA.address) then 0 else 1) + (if Selected(entries, r.poolB.address) then 0 else 1)
  }

  function Have(sel: Selection, mint: string): int { if mint in sel.perMint then sel.perMint[mint] else 0 }

  predicate Admits(l: Limits, sel: Selection, r: Route) {
    var added := Fresh(sel.entries, r);
    && |sel.entries| + added <= l.maxPools
    && Have(sel, r.mint) + added <= l.maxPoolsPerMint
    && (r.mint in sel.mints || |sel.mints| < l.maxMints)
  }

  /** A pool already selected keeps its entry. */
  function AddEntry(entries: seq<Entry>, e: Entry): seq<Entry> {
    if Selected(entries, e.address) then entries else entries + [e]
  }

  function EntryFor(ray: seq<PoolRef>, pump: seq<PoolRef>, p: PoolLite, r: Route): Entry {
    Entry(p.address, r.mint, RefOf(ray, pump, p.address))
  }

  function Admit(ray: seq<PoolRef>, pump: seq<PoolRef>, sel: Selection, r: Route): Selection {
    Selection(AddEntry(AddEntry(sel.entries, EntryFor(ray, pump, r.poolA, r)), EntryFor(ray, pump, r.poolB, r)),
              sel.mints + {r.mint},
              sel.perMint[r.mint := Have(sel, r.mint) + Fresh(sel.entries, r)],
              sel.routes + [r])
  }

  function SelectStep(l: Limits, ray: seq<PoolRef>, pump: seq<PoolRef>, sel: Selection, r: Route): Selection {
    if |sel.entries| < l.maxPools && Admits(l, sel, r) then Admit(ray, pump, sel, r) else sel
  }

  function Select(l: Limits, ray: seq<PoolRef>, pump: seq<PoolRef>, routes: seq<Route>): Selection {
    if routes == [] then NOTHING
    else SelectStep(l, ray, pump, Select(l, ray, pump, routes[..|routes| - 1]), routes[|routes| - 1])
  }

  /** The greedy walk, which stops once the shortlist is full. */
  method SelectShortlist(l: Limits, ray: seq<PoolRef>, pump: seq<PoolRef>, routes: seq<Route>) returns (sel: Selection)
    ensures sel == Select(l, ray, pump, routes)
  {
    hide Admits, Admit;
    sel := NOTHING;
    var n := 0;
    while n < |routes| && |sel.entries| < l.maxPools
      invariant n <= |routes| && sel == Select(l, ray, pump, routes[..n])
    {
      assert routes[..n + 1][..n] == routes[..n];
      if Admits(l, sel, routes[n]) { sel := Admit(ray, pump, sel, routes[n]); }
      n := n + 1;
    }
    FullStaysFull(l, ray, pump, routes, n);
  }

  /** Once full, the rest of the walk changes nothing. */
  lemma {:induction false} FullStaysFull(l: Limits, ray: seq<PoolRef>, pump: seq<PoolRef>, routes: seq<Route>, n: nat)
    requires n <= |routes| && (n == |routes| || |Select(l, ray, pump, routes[..n]).entries| >= l.maxPools)
    ensures Select(l, ray, pump, routes) == Select(l, ray, pump, routes[..n])
  {
    hide Admits, Admit;
    if n < |routes| {
      assert routes[..|routes| - 1][..n] == routes[..n];
      FullStaysFull(l, ray, pump, routes[..|routes| - 1], n);
    } else {
      assert routes[..n] == routes;
    }
  }

  // ----- the report -----

  datatype Input = Input(raydium: seq<PoolRef>, pumpswap: seq<PoolRef>, maxPools: int, maxMints: int,
                         maxRoutesPerMint: Option<int>, maxPoolsPerMint: Option<int>)

  datatype Report = Report(pumpswapX2: Section, crossAdapter: Section, raydiumX2: Section, routes: seq<Route>,
      selection: Selection)

  function Cap(input: Input): int { if input.maxRoutesPerMint.Some? then input.maxRoutesPerMint.value else 32 }

  function LimitsOf(input: Input): Limits {
    var perMint := if input.maxPoolsPerMint.Some? then input.maxPoolsPerMint.value else 6;
    Limits(input.maxPools, input.maxMints, if perMint > 2 then perMint else 2)
  }

  function SortedMints(kept: seq<PoolRef>): seq<string> { Sort(Less, Mints(kept)) }

  function ReportOf(input: Input): Report {
    var ray, pump, cap := Kept(input.raydium, RaydiumCpmm), Kept(input.pumpswap, PumpSwap), Cap(input);
    var a := SameAdapter(PumpSwapX2, pump, SortedMints(pump), cap);
    var b := Cross(ray, pump, SortedMints(ray), cap);
    var c := SameAdapter(RaydiumX2, ray, SortedMints(ray), cap);
    var routes := Sort(Before, a.routes + b.routes + c.routes);
    Report(a, b, c, routes, Select(LimitsOf(input), ray, pump, routes))
  }

  method BuildPopulation(input: Input) returns (report: Report)
    ensures report == ReportOf(input)
  {
    hide Kept, Indexed, Sort, SameAdapter, Cross, Select, LimitsOf;
    var ray, rayMints, rayByMint := DedupAndIndex(input.raydium, RaydiumCpmm);
    var pump, pumpMints, pumpByMint := DedupAndIndex(input.pumpswap, PumpSwap);
    IndexedMints(ray, rayMints, rayByMint);
    IndexedMints(pump, pumpMints, pumpByMint);
    var a := CollectSameAdapter(PumpSwapX2, pump, pumpMints, pumpByMint, Cap(input));
    var b := CollectCross(ray, rayMints, rayByMint, pump, pumpMints, pumpByMint, Cap(input));
    var c := CollectSameAdapter(RaydiumX2, ray, rayMints, rayByMint, Cap(input));
    var routes := Sort(Before, a.routes + b.routes + c.routes);
    var selection := SelectShortlist(LimitsOf(input), ray, pump, routes);
    report := Report(a, b, c, routes, selection);
  }

  lemma IndexedMints(kept: seq<PoolRef>, mints: seq<string>, byMint: map<string, seq<PoolRef>>)
    requires Indexed(kept, mints, byMint)
    ensures mints == Mints(kept)
  {
    hide Mints, Group;
  }

  // ----- the report does not depend on the order of the rows -----

  lemma {:induction false} SameAdapterIgnoresOrder(category: Category, kept: seq<PoolRef>, kept': seq<PoolRef>,
      mints: seq<string>, cap: int)
    requires category != CrossAdapter && DistinctAddresses(kept) && DistinctAddresses(kept')
            && Views(kept) == Views(kept')
    ensures SameAdapter(category, kept, mints, cap) == SameAdapter(category, kept', mints, cap)
  {
    hide Group, SortedLites, RankedOf, Pairs, DistinctAddresses, Views;
    if mints != [] {
      var mint := mints[|mints| - 1];
      SameAdapterIgnoresOrder(category, kept, kept', mints[..|mints| - 1], cap);
      GroupIgnoresOrder(kept, kept', mint);
      GroupDistinct(kept, mint);
      GroupDistinct(kept', mint);
      SortedLitesIgnoreOrder(Group(kept, mint), Group(kept', mint));
      RankedTwoIgnoresOrder(category, mint, Group(kept, mint), Group(kept', mint), cap);
    }
  }

  lemma RankedTwoIgnoresOrder(category: Category, mint: string, left: seq<PoolRef>, left': seq<PoolRef>, cap: int)
    requires category != CrossAdapter && DistinctAddresses(left) && DistinctAddresses(left')
            && Views(left) == Views(left')
    ensures RankedOf(Pairs(category, mint, left, None), cap) == RankedOf(Pairs(category, mint, left', None), cap)
  {
    hide Sort, TwoPairs, Before, DistinctAddresses, Views, SliceTo;
    TwoPairsIgnoreOrder(category, mint, left, left');
    SortElements(Before, TwoPairs(category, mint, left));
    SortElements(Before, TwoPairs(category, mint, left'));
  }

  lemma RankedCrossIgnoresOrder(mint: string, left: seq<PoolRef>, left': seq<PoolRef>, right: seq<PoolRef>,
      right': seq<PoolRef>, cap: int)
    requires DistinctAddresses(left) && DistinctAddresses(left') && DistinctAddresses(right)
            && DistinctAddresses(right')
    requires (forall p :: p in left ==> p.adapter == RaydiumCpmm) && (forall p :: p in left' ==>
              p.adapter == RaydiumCpmm)
    requires Views(left) == Views(left') && Views(right) == Views(right')
    ensures RankedOf(Pairs(CrossAdapter, mint, left, Some(right)), cap)
              == RankedOf(Pairs(CrossAdapter, mint, left', Some(right')), cap)
  {
    hide Sort, CrossPairs, Before, DistinctAddresses, Views, SliceTo;
    CrossPairsIgnoreOrder(mint, left, left', right, right');
    SortElements(Before, CrossPairs(CrossAdapter, mint, left, right));
    SortElements(Before, CrossPairs(CrossAdapter, mint, left', right'));
  }

  lemma {:induction false} CrossIgnoresOrder(ray: seq<PoolRef>, ray': seq<PoolRef>, pump: seq<PoolRef>,
      pump': seq<PoolRef>, mints: seq<string>, cap: int)
    requires DistinctAddresses(ray) && DistinctAddresses(ray') && DistinctAddresses(pump) && DistinctAddresses(pump')
    requires (forall p :: p in ray ==> p.adapter == RaydiumCpmm) && (forall p :: p in ray' ==> p.adapter == RaydiumCpmm)
    requires Views(ray) == Views(ray') && Views(pump) == Views(pump')
    ensures Cross(ray, pump, mints, cap) == Cross(ray', pump', mints, cap)
  {
    hide Group, SortedLites, RankedOf, Pairs, DistinctAddresses, Views;
    if mints != [] {
      var mint := mints[|mints| - 1];
      CrossIgnoresOrder(ray, ray', pump, pump', mints[..|mints| - 1], cap);
      GroupIgnoresOrder(ray, ray', mint);
      GroupIgnoresOrder(pump, pump', mint);
      GroupDistinct(ray, mint);
      GroupDistinct(ray', mint);
      GroupDistinct(pump, mint);
      GroupDistinct(pump', mint);
      SortedLitesIgnoreOrder(Group(ray, mint), Group(ray', mint));
      SortedLitesIgnoreOrder(Group(pump, mint), Group(pump', mint));
      RankedCrossIgnoresOrder(mint, Group(ray, mint), Group(ray', mint), Group(pump, mint), Group(pump', mint), cap);
    }
  }

  /** An entry up to the `source` of the row that won its address. */
  function EntryView(e: Entry): Entry {
    match e.ref case Some(p) => e.(ref := Some(View(p))) case None => e
  }

  function EntryViews(entries: seq<Entry>): (r: seq<Entry>)
    ensures |r| == |entries| && forall k :: 0 <= k < |r| ==> r[k] == EntryView(entries[k])
  {
    seq(|entries|, k requires 0 <= k < |entries| => EntryView(entries[k]))
  }

  ghost predicate SameSelection(s: Selection, t: Selection) {
    s.mints == t.mints && s.perMint == t.perMint && s.routes == t.routes
        && EntryViews(s.entries) == EntryViews(t.entries)
  }

  lemma RefIgnoresOrder(ray: seq<PoolRef>, ray': seq<PoolRef>, pump: seq<PoolRef>, pump': seq<PoolRef>, e: Entry)
    requires DistinctAddresses(ray) && DistinctAddresses(ray') && DistinctAddresses(pump) && DistinctAddresses(pump')
    requires Views(ray) == Views(ray') && Views(pump) == Views(pump')
    ensures EntryView(e.(ref := RefOf(ray, pump, e.address))) == EntryView(e.(ref := RefOf(ray', pump', e.address)))
  {
    hide DistinctAddresses, View;
    FoundIgnoresOrder(pump, pump', e.address);
    FoundIgnoresOrder(ray, ray', e.address);
  }

  lemma FoundIgnoresOrder(s: seq<PoolRef>, t: seq<PoolRef>, address: string)
    requires DistinctAddresses(s) && DistinctAddresses(t) && Views(s) == Views(t)
    ensures var k, i := IndexOf(s, address), IndexOf(t, address);
            (k < |s| <==> i < |t|) && (k < |s| ==> View(s[k]) == View(t[i]))
  {
    var k, i := IndexOf(s, address), IndexOf(t, address);
    if k < |s| {
      var j := Counterpart(s, t, k);
      assert j == i;
    } else if i < |t| {
      var j := Counterpart(t, s, i);
    }
  }

  lemma SelectedIgnoresRefs(s: seq<Entry>, t: seq<Entry>, address: string)
    requires EntryViews(s) == EntryViews(t)
    ensures Selected(s, address) == Selected(t, address)
  {
    assert |s| == |EntryViews(s)| == |t|;
    forall k | 0 <= k < |s| ensures s[k].address == t[k].address {
      assert EntryViews(s)[k] == EntryViews(t)[k];
    }
  }

  lemma AddEntryViews(s: seq<Entry>, t: seq<Entry>, e: Entry, f: Entry)
    requires EntryViews(s) == EntryViews(t) && EntryView(e) == EntryView(f)
    ensures EntryViews(AddEntry(s, e)) == EntryViews(AddEntry(t, f))
  {
    hide Selected;
    assert |s| == |EntryViews(s)| == |t|;
    SelectedIgnoresRefs(s, t, e.address);
    assert EntryViews(s + [e]) == EntryViews(s) + [EntryView(e)];
    assert EntryViews(t + [f]) == EntryViews(t) + [EntryView(f)];
  }

  lemma {:induction false} SelectIgnoresOrder(l: Limits, ray: seq<PoolRef>, ray': seq<PoolRef>, pump: seq<PoolRef>,
      pump': seq<PoolRef>,
                                              routes: seq<Route>)
    requires DistinctAddresses(ray) && DistinctAddresses(ray') && DistinctAddresses(pump) && DistinctAddresses(pump')
    requires Views(ray) == Views(ray') && Views(pump) == Views(pump')
    ensures SameSelection(Select(l, ray, pump, routes), Select(l, ray', pump', routes))
  {
    hide DistinctAddresses, Views, SelectStep, EntryViews;
    if routes != [] {
      var before := routes[..|routes| - 1];
      SelectIgnoresOrder(l, ray, ray', pump, pump', before);
      StepIgnoresOrder(l, ray, ray', pump, pump', Select(l, ray, pump, before), Select(l, ray', pump', before),
          routes[|routes| - 1]);
    }
  }

  lemma StepIgnoresOrder(l: Limits, ray: seq<PoolRef>, ray': seq<PoolRef>, pump: seq<PoolRef>, pump': seq<PoolRef>,
      s: Selection, t: Selection, r: Route)
    requires DistinctAddresses(ray) && DistinctAddresses(ray') && DistinctAddresses(pump) && DistinctAddresses(pump')
    requires Views(ray) == Views(ray') && Views(pump) == Views(pump') && SameSelection(s, t)
    ensures SameSelection(SelectStep(l, ray, pump, s, r), SelectStep(l, ray', pump', t, r))
  {
    hide DistinctAddresses, Views, Admit, Selected, EntryViews;
    assert |s.entries| == |EntryViews(s.entries)| == |t.entries|;
    SelectedIgnoresRefs(s.entries, t.entries, r.poolA.address);
    SelectedIgnoresRefs(s.entries, t.entries, r.poolB.address);
    AdmitIgnoresOrder(ray, ray', pump, pump', s, t, r);
  }

  lemma AdmitIgnoresOrder(ray: seq<PoolRef>, ray': seq<PoolRef>, pump: seq<PoolRef>, pump': seq<PoolRef>,
      s: Selection, t: Selection, r: Route)
    requires DistinctAddresses(ray) && DistinctAddresses(ray') && DistinctAddresses(pump) && DistinctAddresses(pump')
    requires Views(ray) == Views(ray') && Views(pump) == Views(pump') && SameSelection(s, t)
    requires Fresh(s.entries, r) == Fresh(t.entries, r)
    ensures SameSelection(Admit(ray, pump, s, r), Admit(ray', pump', t, r))
  {
    hide DistinctAddresses, Views, Fresh, RefOf, AddEntry, EntryView, EntryViews;
    var a, b := EntryFor(ray, pump, r.poolA, r), EntryFor(ray, pump, r.poolB, r);
    var a', b' := EntryFor(ray', pump', r.poolA, r), EntryFor(ray', pump', r.poolB, r);
    RefIgnoresOrder(ray, ray', pump, pump', a);
    RefIgnoresOrder(ray, ray', pump, pump', b);
    AddEntryViews(s.entries, t.entries, a, a');
    AddEntryViews(AddEntry(s.entries, a), AddEntry(t.entries, a'), b, b');
  }

  /** Reordering (or repeating) the input rows changes at most the `source` of shortlist entries. */
  lemma PopulationIgnoresOrder(input: Input, input': Input)
    requires input' == input.(raydium := input'.raydium, pumpswap := input'.pumpswap)
    requires SameRows(input.raydium, input'.raydium) && SameRows(input.pumpswap, input'.pumpswap)
    requires JsonIdentifies(input.raydium) && JsonIdentifies(input.pumpswap)
    ensures var r, r' := ReportOf(input), ReportOf(input');
            r' == r.(selection := r'.selection) && SameSelection(r.selection, r'.selection)
  {
    hide Kept, Views, DistinctAddresses, SameRows, JsonIdentifies, Sort, SameAdapter, Cross, Select, SameSelection;
    var ray, pump := Kept(input.raydium, RaydiumCpmm), Kept(input.pumpswap, PumpSwap);
    var ray', pump' := Kept(input'.raydium, RaydiumCpmm), Kept(input'.pumpswap, PumpSwap);
    KeptIgnoresOrder(input.raydium, input'.raydium, RaydiumCpmm);
    KeptIgnoresOrder(input.pumpswap, input'.pumpswap, PumpSwap);
    KeptDistinct(input.raydium, RaydiumCpmm);
    KeptDistinct(input'.raydium, RaydiumCpmm);
    KeptDistinct(input.pumpswap, PumpSwap);
    KeptDistinct(input'.pumpswap, PumpSwap);
    SortedMintsIgnoreOrder(ray, ray');
    SortedMintsIgnoreOrder(pump, pump');
    SameAdapterIgnoresOrder(PumpSwapX2, pump, pump', SortedMints(pump), Cap(input));
    SameAdapterIgnoresOrder(RaydiumX2, ray, ray', SortedMints(ray), Cap(input));
    CrossIgnoresOrder(ray, ray', pump, pump', SortedMints(ray), Cap(input));
    SelectIgnoresOrder(LimitsOf(input), ray, ray', pump, pump', ReportOf(input).routes);
  }

  // ----- what the shortlist respects -----

  function CountMint(entries: seq<Entry>, mint: string): nat {
    if entries == [] then 0
    else CountMint(entries[..|entries| - 1], mint) + if entries[|entries| - 1].mint == mint then 1 else 0
  }

  ghost predicate DistinctEntries(entries: seq<Entry>) {
    forall i, j :: 0 <= i < j < |entries| ==> entries[i].address != entries[j].address
  }

  /** Pools, mints and pools per mint stay within the limits, and every route's pools are selected. */
  ghost predicate Respects(l: Limits, sel: Selection) {
    && DistinctEntries(sel.entries)
    && (sel.entries != [] ==> |sel.entries| <= l.maxPools)
    && (sel.mints != {} ==> |sel.mints| <= l.maxMints)
    && (forall m :: CountMint(sel.entries, m) <= Have(sel, m) && (Have(sel, m) > 0 ==>
         Have(sel, m) <= l.maxPoolsPerMint))
    && (forall r :: r in sel.routes ==>
         Selected(sel.entries, r.poolA.address) && Selected(sel.entries, r.poolB.address) && r.mint in sel.mints)
  }

  lemma SelectedAppend(entries: seq<Entry>, e: Entry)
    ensures forall a :: Selected(entries + [e], a) <==> a == e.address || Selected(entries, a)
  {
    var s := entries + [e];
    assert s[|entries|] == e;
    forall a | Selected(entries, a) ensures Selected(s, a) {
      var k :| 0 <= k < |entries| && entries[k].address == a;
      assert s[k].address == a;
    }
  }

  lemma CountAppend(entries: seq<Entry>, e: Entry)
    ensures forall m :: CountMint(entries + [e], m) == CountMint(entries, m) + if e.mint == m then 1 else 0
  {
    assert (entries + [e])[..|entries|] == entries;
  }

  lemma DistinctAppend(entries: seq<Entry>, e: Entry)
    requires DistinctEntries(entries) && !Selected(entries, e.address)
    ensures DistinctEntries(entries + [e])
  {
  }

  lemma AddEntryEffect(entries: seq<Entry>, e: Entry)
    ensures DistinctEntries(entries) ==> DistinctEntries(AddEntry(entries, e))
    ensures |AddEntry(entries, e)| == |entries| + if Selected(entries, e.address) then 0 else 1
    ensures forall m ::
              CountMint(AddEntry(entries, e), m) == CountMint(entries, m) + if !Selected(entries, e.address) && e.mint == m then 1 else 0
    ensures forall a :: Selected(AddEntry(entries, e), a) <==> a == e.address || Selected(entries, a)
  {
    hide Selected, CountMint, DistinctEntries;
    SelectedAppend(entries, e);
    CountAppend(entries, e);
    if DistinctEntries(entries) && !Selected(entries, e.address) { DistinctAppend(entries, e); }
  }

  lemma AdmitRespects(l: Limits, ray: seq<PoolRef>, pump: seq<PoolRef>, sel: Selection, r: Route)
    requires Respects(l, sel) && Admits(l, sel, r)
    ensures Respects(l, Admit(ray, pump, sel, r))
  {
    hide RefOf, AddEntry, CountMint, Selected, DistinctEntries;
    var a, b := EntryFor(ray, pump, r.poolA, r), EntryFor(ray, pump, r.poolB, r);
    AddEntryEffect(sel.entries, a);
    AddEntryEffect(AddEntry(sel.entries, a), b);
  }

  lemma {:induction false} ShortlistRespects(l: Limits, ray: seq<PoolRef>, pump: seq<PoolRef>, routes: seq<Route>)
    ensures Respects(l, Select(l, ray, pump, routes))
    ensures forall r :: r in Select(l, ray, pump, routes).routes ==> r in routes
  {
    hide Admits, Admit, Respects;
    if routes == [] {
      NothingRespects(l);
    } else {
      ShortlistRespects(l, ray, pump, routes[..|routes| - 1]);
      var sel, r := Select(l, ray, pump, routes[..|routes| - 1]), routes[|routes| - 1];
      AdmitRoutes(ray, pump, sel, r);
      if Admits(l, sel, r) { AdmitRespects(l, ray, pump, sel, r); }
    }
  }

  lemma NothingRespects(l: Limits)
    ensures Respects(l, NOTHING)
  {
  }

  lemma AdmitRoutes(ray: seq<PoolRef>, pump: seq<PoolRef>, sel: Selection, r: Route)
    ensures Admit(ray, pump, sel, r).routes == sel.routes + [r]
  {
  }

  // ----- every route is genuine -----

  /** The pools a category pairs. */
  function LeftPools(category: Category, ray: seq<PoolRef>, pump: seq<PoolRef>): seq<PoolRef> {
    if category == PumpSwapX2 then pump else ray
  }

  function RightPools(category: Category, ray: seq<PoolRef>, pump: seq<PoolRef>): seq<PoolRef> {
    if category == RaydiumX2 then ray else pump
  }

  /** The route of two kept WSOL pools of its mint, from the adapters of its category. */
  ghost predicate Genuine(ray: seq<PoolRef>, pump: seq<PoolRef>, r: Route) {
    exists p, q ::
      && p in LeftPools(r.category, ray, pump) && q in RightPools(r.category, ray, pump)
      && (r.category != CrossAdapter ==> p.address != q.address)
      && CounterMintOf(p) == CounterMintOf(q) == Some(r.mint) && r == MakeRoute(r.category, r.mint, p, q)
  }

  ghost predicate AllGenuine(ray: seq<PoolRef>, pump: seq<PoolRef>, routes: seq<Route>) {
    forall r :: r in routes ==> Genuine(ray, pump, r)
  }

  lemma RankedSubset(all: seq<Route>, cap: int)
    ensures forall r :: r in RankedOf(all, cap).routes ==> r in all
  {
    hide Sort, Before;
    SortElements(Before, all);
  }

  lemma TwoPairsGenuine(category: Category, ray: seq<PoolRef>, pump: seq<PoolRef>, mint: string, cap: int)
    requires category != CrossAdapter && DistinctAddresses(LeftPools(category, ray, pump))
    ensures AllGenuine(ray, pump, RankedOf(Pairs(category, mint, Group(LeftPools(category, ray, pump), mint), None),
              cap).routes)
  {
    hide MakeRoute, RankedOf, TwoPairs, CounterMintOf, Group;
    var pools := Group(LeftPools(category, ray, pump), mint);
    GroupDistinct(LeftPools(category, ray, pump), mint);
    TwoPairsMembers(category, mint, pools);
    RankedSubset(TwoPairs(category, mint, pools), cap);
    forall r | r in TwoPairs(category, mint, pools) ensures Genuine(ray, pump, r) {
      var i, j :| 0 <= i < j < |pools| && r == MakeRoute(category, mint, pools[i], pools[j]);
      MakeRouteLabels(category, mint, pools[i], pools[j]);
      assert pools[i] in pools && pools[j] in pools;
    }
  }

  lemma CrossPairsGenuine(ray: seq<PoolRef>, pump: seq<PoolRef>, mint: string, cap: int)
    requires DistinctAddresses(ray) && DistinctAddresses(pump)
    ensures AllGenuine(ray, pump, RankedOf(Pairs(CrossAdapter, mint, Group(ray, mint), Some(Group(pump, mint))),
              cap).routes)
  {
    hide MakeRoute, RankedOf, CrossPairs, CounterMintOf, Group;
    var rp, pp := Group(ray, mint), Group(pump, mint);
    GroupDistinct(ray, mint);
    GroupDistinct(pump, mint);
    CrossPairsMembers(CrossAdapter, mint, rp, pp);
    RankedSubset(CrossPairs(CrossAdapter, mint, rp, pp), cap);
    forall r | r in CrossPairs(CrossAdapter, mint, rp, pp) ensures Genuine(ray, pump, r) {
      var i, j :| 0 <= i < |rp| && 0 <= j < |pp| && r == MakeRoute(CrossAdapter, mint, rp[i], pp[j]);
      MakeRouteLabels(CrossAdapter, mint, rp[i], pp[j]);
      assert rp[i] in rp && pp[j] in pp;
    }
  }

  lemma MakeRouteLabels(category: Category, mint: string, p: PoolRef, q: PoolRef)
    ensures var r := MakeRoute(category, mint, p, q);
            r.category == category && r.mint == mint && Joins(r, p.address, q.address)
  {
    hide HintNum, HintBool, CmpStr;
  }

  lemma {:induction false} SameAdapterGenuine(category: Category, ray: seq<PoolRef>, pump: seq<PoolRef>,
      mints: seq<string>, cap: int)
    requires category != CrossAdapter && DistinctAddresses(LeftPools(category, ray, pump))
    ensures AllGenuine(ray, pump, SameAdapter(category, LeftPools(category, ray, pump), mints, cap).routes)
  {
    hide Genuine, RankedOf, Group, Pairs, SortedLites, DistinctAddresses;
    if mints != [] {
      SameAdapterGenuine(category, ray, pump, mints[..|mints| - 1], cap);
      TwoPairsGenuine(category, ray, pump, mints[|mints| - 1], cap);
    }
  }

  lemma {:induction false} CrossGenuine(ray: seq<PoolRef>, pump: seq<PoolRef>, mints: seq<string>, cap: int)
    requires DistinctAddresses(ray) && DistinctAddresses(pump)
    ensures AllGenuine(ray, pump, Cross(ray, pump, mints, cap).routes)
  {
    hide Genuine, RankedOf, Group, Pairs, SortedLites, DistinctAddresses;
    if mints != [] {
      CrossGenuine(ray, pump, mints[..|mints| - 1], cap);
      CrossPairsGenuine(ray, pump, mints[|mints| - 1], cap);
    }
  }

  lemma GenuineListed(ray: seq<PoolRef>, pump: seq<PoolRef>, r: Route)
    requires Genuine(ray, pump, r)
    ensures RefOf(ray, pump, r.poolA.address).Some? && RefOf(ray, pump, r.poolB.address).Some?
  {
    hide MakeRoute, CounterMintOf;
    var p, q :|
      && p in LeftPools(r.category, ray, pump) && q in RightPools(r.category, ray, pump)
      && (r.category != CrossAdapter ==> p.address != q.address)
      && CounterMintOf(p) == CounterMintOf(q) == Some(r.mint) && r == MakeRoute(r.category, r.mint, p, q);
    MakeRouteLabels(r.category, r.mint, p, q);
    Listed(ray, pump, p);
    Listed(ray, pump, q);
  }

  lemma Listed(ray: seq<PoolRef>, pump: seq<PoolRef>, p: PoolRef)
    requires p in ray || p in pump
    ensures RefOf(ray, pump, p.address).Some?
  {
  }

  ghost predicate AllFound(entries: seq<Entry>) {
    forall e :: e in entries ==> e.ref.Some? && e.ref.value.address == e.address
  }

  lemma {:induction false} EntriesFound(l: Limits, ray: seq<PoolRef>, pump: seq<PoolRef>, routes: seq<Route>)
    requires AllGenuine(ray, pump, routes)
    ensures AllFound(Select(l, ray, pump, routes).entries)
  {
    hide Genuine, RefOf, Selected, Admits;
    if routes != [] {
      var r := routes[|routes| - 1];
      EntriesFound(l, ray, pump, routes[..|routes| - 1]);
      assert r in routes;
      GenuineListed(ray, pump, r);
      RefAddress(ray, pump, r.poolA.address);
      RefAddress(ray, pump, r.poolB.address);
    }
  }

  lemma RefAddress(ray: seq<PoolRef>, pump: seq<PoolRef>, address: string)
    ensures RefOf(ray, pump, address).Some? ==> RefOf(ray, pump, address).value.address == address
  {
  }

  /** Every reported route pairs two kept WSOL pools of its mint; every shortlisted address has its row. */
  lemma PopulationIsSound(input: Input)
    ensures var report := ReportOf(input);
            && AllGenuine(Kept(input.raydium, RaydiumCpmm), Kept(input.pumpswap, PumpSwap), report.routes)
            && Respects(LimitsOf(input), report.selection)
            && AllFound(report.selection.entries)
            && forall r :: r in report.selection.routes ==> r in report.routes
  {
    hide Kept, Genuine, Respects, DistinctAddresses, SameAdapter, Cross, Select, Sort, AllFound, Mints;
    var ray, pump := Kept(input.raydium, RaydiumCpmm), Kept(input.pumpswap, PumpSwap);
    KeptDistinct(input.raydium, RaydiumCpmm);
    KeptDistinct(input.pumpswap, PumpSwap);
    SameAdapterGenuine(PumpSwapX2, ray, pump, SortedMints(pump), Cap(input));
    CrossGenuine(ray, pump, SortedMints(ray), Cap(input));
    SameAdapterGenuine(RaydiumX2, ray, pump, SortedMints(ray), Cap(input));
    var report := ReportOf(input);
    SortElements(Before, report.pumpswapX2.routes + report.crossAdapter.routes + report.raydiumX2.routes);
    ShortlistRespects(LimitsOf(input), ray, pump, report.routes);
    EntriesFound(LimitsOf(input), ray, pump, report.routes);
  }
}
