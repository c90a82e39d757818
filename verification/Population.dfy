/**
 * Pool discovery rows (src/discovery/population.ts): hints, the winning row of each address, and
 * the grouping of WSOL pools by their other mint.  The winners do not depend on the row order.
 */
module Population {
  import opened Outcomes
  import opened Sorting

  datatype Adapter = RaydiumCpmm | PumpSwap

  datatype Hint = Text(text: string) | Number(value: real) | Flag(flag: bool) | Absent

  /** The hint object and its JSON text. */
  datatype Hints = Hints(entries: map<string, Hint>, json: string)

  datatype PoolRef = PoolRef(adapter: Adapter, address: string, hints: Hints, source: string)

  const WSOL: string := "So11111111111111111111111111111111111111112"

  function HintStr(p: PoolRef, k: string): Option<string> {
    if k in p.hints.entries && p.hints.entries[k].Text? then Some(p.hints.entries[k].text) else None
  }

  function HintNum(p: PoolRef, k: string): Option<real> {
    if k in p.hints.entries && p.hints.entries[k].Number? then Some(p.hints.entries[k].value) else None
  }

  function HintBool(p: PoolRef, k: string): Option<bool> {
    if k in p.hints.entries && p.hints.entries[k].Flag? then Some(p.hints.entries[k].flag) else None
  }

  function MintPairOf(p: PoolRef): Option<(string, string)> {
    var (first, second) := if p.adapter == RaydiumCpmm then ("mintA", "mintB") else ("base_mint", "quote_mint");
    match (HintStr(p, first), HintStr(p, second))
    case (Some(a), Some(b)) => if a != "" && b != "" then Some((a, b)) else None
    case _ => None
  }

  /** The non-WSOL mint of a WSOL pair (wsolCounterMint). */
  function CounterMintOf(p: PoolRef): Option<string> {
    match MintPairOf(p)
    case None => None
    case Some((a, b)) =>
      if a == WSOL && b != WSOL then Some(b) else if b == WSOL && a != WSOL then Some(a) else None
  }

  // ----- the score that ranks two rows of one address -----

  function Digits(n: nat): (s: string)
    ensures '|' !in s
  {
    var last := [('0' as int + n % 10) as char];
    if n < 10 then last else Digits(n / 10) + last
  }

  function PadStart(s: string, width: nat): (r: string)
    ensures '|' !in s ==> '|' !in r
    decreases width - |s|
  {
    if |s| >= width then s else PadStart("0" + s, width)
  }

  function RoundedTvl(p: PoolRef): nat {
    match HintNum(p, "tvl")
    case Some(t) => if t + 0.5 > 0.0 then (t + 0.5).Floor else 0
    case None => 0
  }

  function NonNull(p: PoolRef): nat { |set k | k in p.hints.entries && !p.hints.entries[k].Absent?| }

  /** hintScore: number of hints, then tvl, then the JSON text, compared as one string. */
  function Score(p: PoolRef): string {
    PadStart(Digits(NonNull(p)), 4) + ("|" + (PadStart(Digits(RoundedTvl(p)), 18) + ("|" + p.hints.json)))
  }

  lemma SplitAtBar(a: string, b: string, c: string, d: string)
    requires '|' !in a && '|' !in c && a + ("|" + b) == c + ("|" + d)
    ensures a == c && b == d
  {
    var s, t := a + ("|" + b), c + ("|" + d);
    assert s[|a|] == '|' == t[|c|];
    assert forall i :: 0 <= i < |a| ==> s[i] == a[i] && a[i] in a;
    assert forall i :: 0 <= i < |c| ==> t[i] == c[i] && c[i] in c;
    assert s[..|a|] == a && t[..|c|] == c && s[|a| + 1..] == b && t[|c| + 1..] == d;
  }

  lemma ScoreDeterminesJson(p: PoolRef, q: PoolRef)
    requires Score(p) == Score(q)
    ensures p.hints.json == q.hints.json
  {
    hide NonNull, RoundedTvl, Digits, PadStart;
    SplitAtBar(PadStart(Digits(NonNull(p)), 4), PadStart(Digits(RoundedTvl(p)), 18) + ("|" + p.hints.json),
               PadStart(Digits(NonNull(q)), 4), PadStart(Digits(RoundedTvl(q)), 18) + ("|" + q.hints.json));
    SplitAtBar(PadStart(Digits(RoundedTvl(p)), 18), p.hints.json, PadStart(Digits(RoundedTvl(q)), 18), q.hints.json);
  }

  // ----- deduplication by address -----

  function IndexOf(entries: seq<PoolRef>, address: string): (k: nat)
    ensures k <= |entries|
    ensures k < |entries| ==> entries[k].address == address
    ensures forall i :: 0 <= i < k ==> entries[i].address != address
  {
    if entries == [] || entries[0].address == address then 0 else 1 + IndexOf(entries[1..], address)
  }

  /** One row against the entries so far, which are in insertion order. */
  function DedupStep(entries: seq<PoolRef>, p: PoolRef, adapter: Adapter): seq<PoolRef> {
    var k := IndexOf(entries, p.address);
    if p.adapter != adapter then entries
    else if k == |entries| then entries + [p]
    else if Less(Score(entries[k]), Score(p)) then entries[k := p]
    else entries
  }

  function Dedup(rows: seq<PoolRef>, adapter: Adapter): seq<PoolRef> {
    if rows == [] then [] else DedupStep(Dedup(rows[..|rows| - 1], adapter), rows[|rows| - 1], adapter)
  }

  function Filter<T(!new)>(f: T -> bool, s: seq<T>): (r: seq<T>)
    ensures forall x :: x in r <==> x in s && f(x)
  {
    if s == [] then [] else Filter(f, s[..|s| - 1]) + (if f(s[|s| - 1]) then [s[|s| - 1]] else [])
  }

  function WsolPools(entries: seq<PoolRef>): seq<PoolRef> {
    Filter((p: PoolRef) => CounterMintOf(p).Some?, entries)
  }

  function Kept(rows: seq<PoolRef>, adapter: Adapter): seq<PoolRef> { WsolPools(Dedup(rows, adapter)) }

  /** byMint.get(mint) as a list; empty when the mint is unknown. */
  function Group(kept: seq<PoolRef>, mint: string): seq<PoolRef> {
    Filter((p: PoolRef) => CounterMintOf(p) == Some(mint), kept)
  }

  /** The keys of byMint in insertion order. */
  function Mints(kept: seq<PoolRef>): (r: seq<string>)
    ensures forall m :: m in r <==> exists p :: p in kept && CounterMintOf(p) == Some(m)
    ensures forall i, j :: 0 <= i < j < |r| ==> r[i] != r[j]
  {
    if kept == [] then []
    else
      var before := Mints(kept[..|kept| - 1]);
      assert forall p :: p in kept <==> p in kept[..|kept| - 1] || p == kept[|kept| - 1];
      match CounterMintOf(kept[|kept| - 1])
      case Some(m) => if m in before then before else before + [m]
      case None => before
  }

  /** The deduplication loop. */
  method DedupByAddress(rows: seq<PoolRef>, adapter: Adapter) returns (byAddr: seq<PoolRef>)
    ensures byAddr == Dedup(rows, adapter)
  {
    hide DedupStep;
    byAddr := [];
    var n := 0;
    while n < |rows|
      invariant n <= |rows| && byAddr == Dedup(rows[..n], adapter)
    {
      assert rows[..n + 1][..n] == rows[..n];
      byAddr := DedupStep(byAddr, rows[n], adapter);
      n := n + 1;
    }
    assert rows[..n] == rows;
  }

  /** `byMint` holds the group of every mint with a kept pool, `mints` its keys in insertion order. */
  ghost predicate Indexed(kept: seq<PoolRef>, mints: seq<string>, byMint: map<string, seq<PoolRef>>) {
    && mints == Mints(kept)
    && (forall m :: m in byMint <==> m in mints)
    && (forall m :: m in byMint ==> byMint[m] == Group(kept, m))
  }

  /** The indexing loop: rows that are not WSOL pairs are excluded, the others filed under their mint. */
  method DedupAndIndex(rows: seq<PoolRef>, adapter: Adapter)
    returns (kept: seq<PoolRef>, mints: seq<string>, byMint: map<string, seq<PoolRef>>)
    ensures kept == Kept(rows, adapter) && Indexed(kept, mints, byMint)
  {
    hide CounterMintOf, WsolPools, Indexed, Dedup;
    var byAddr := DedupByAddress(rows, adapter);
    kept, mints, byMint := [], [], map[];
    var i := 0;
    EmptyIndexed();
    while i < |byAddr|
      invariant i <= |byAddr|
      invariant kept == WsolPools(byAddr[..i])
      invariant Indexed(kept, mints, byMint)
    {
      var p := byAddr[i];
      assert byAddr[..i + 1] == byAddr[..i] + [p];
      WsolAppend(byAddr[..i], p);
      if CounterMintOf(p).Some? {
        var m := CounterMintOf(p).value;
        IndexKept(kept, mints, byMint, p, m);
        kept := kept + [p];
        if m in byMint {
          byMint := byMint[m := byMint[m] + [p]];
        } else {
          byMint, mints := byMint[m := [p]], mints + [m];
        }
      }
      i := i + 1;
    }
    assert byAddr[..i] == byAddr;
  }

  lemma EmptyIndexed()
    ensures Indexed([], [], map[]) && WsolPools([]) == []
  {
  }

  lemma WsolAppend(entries: seq<PoolRef>, p: PoolRef)
    ensures WsolPools(entries + [p]) == WsolPools(entries) + if CounterMintOf(p).Some? then [p] else []
  {
    hide CounterMintOf;
    FilterAppend((q: PoolRef) => CounterMintOf(q).Some?, entries, p);
  }

  lemma FilterAppend<T(!new)>(f: T -> bool, s: seq<T>, x: T)
    ensures Filter(f, s + [x]) == Filter(f, s) + if f(x) then [x] else []
  {
    assert (s + [x])[..|s|] == s;
  }

  /** Filing a kept pool extends its own group and no other. */
  lemma IndexKept(kept: seq<PoolRef>, mints: seq<string>, byMint: map<string, seq<PoolRef>>, p: PoolRef, m: string)
    requires CounterMintOf(p) == Some(m) && Indexed(kept, mints, byMint)
    ensures m in byMint ==> Indexed(kept + [p], mints, byMint[m := byMint[m] + [p]])
    ensures m !in byMint ==> Indexed(kept + [p], mints + [m], byMint[m := [p]])
  {
    hide CounterMintOf, Filter, Mints, Group;
    MintsAppend(kept, p, m);
    GroupAppend(kept, p, m);
    if m in byMint { FiledOnce(kept, byMint, p, m, byMint[m]); } else { FiledOnce(kept, byMint, p, m, []); }
  }

  lemma FiledOnce(kept: seq<PoolRef>, byMint: map<string, seq<PoolRef>>, p: PoolRef, m: string, before: seq<PoolRef>)
    requires forall x :: x in byMint ==> byMint[x] == Group(kept, x)
    requires before == Group(kept, m)
    requires forall x :: Group(kept + [p], x) == Group(kept, x) + if x == m then [p] else []
    ensures forall x :: x in byMint[m := before + [p]] ==> byMint[m := before + [p]][x] == Group(kept + [p], x)
  {
    hide Group;
    forall x | x in byMint && x != m ensures byMint[x] == Group(kept + [p], x) {
      assert Group(kept + [p], x) == Group(kept, x) + [];
    }
  }

  lemma MintsAppend(kept: seq<PoolRef>, p: PoolRef, m: string)
    requires CounterMintOf(p) == Some(m)
    ensures Mints(kept + [p]) == if m in Mints(kept) then Mints(kept) else Mints(kept) + [m]
  {
    hide CounterMintOf;
    assert (kept + [p])[..|kept|] == kept;
  }

  lemma GroupAppend(kept: seq<PoolRef>, p: PoolRef, m: string)
    requires CounterMintOf(p) == Some(m)
    ensures forall x :: Group(kept + [p], x) == Group(kept, x) + if x == m then [p] else []
    ensures m !in Mints(kept) ==> Group(kept, m) == []
  {
    hide CounterMintOf, Filter;
    forall x ensures Group(kept + [p], x) == Group(kept, x) + if x == m then [p] else [] {
      FilterAppend((q: PoolRef) => CounterMintOf(q) == Some(x), kept, p);
    }
    assert |Group(kept, m)| > 0 ==> Group(kept, m)[0] in Group(kept, m);
  }

  // ----- order independence -----

  /** The same rows, in any order and any number of copies. */
  ghost predicate SameRows(rows: seq<PoolRef>, rows': seq<PoolRef>) {
    forall p :: p in rows <==> p in rows'
  }

  /** JSON texts identify hint objects. */
  ghost predicate JsonIdentifies(rows: seq<PoolRef>) {
    forall p, q :: p in rows && q in rows && p.hints.json == q.hints.json ==> p.hints == q.hints
  }

  ghost predicate DistinctAddresses(s: seq<PoolRef>) {
    forall i, j :: 0 <= i < j < |s| ==> s[i].address != s[j].address
  }

  /** A row without the one field that says where it was found. */
  function View(p: PoolRef): PoolRef { p.(source := "") }

  ghost function Views(s: seq<PoolRef>): set<PoolRef> { set p | p in s :: View(p) }

  /** The entries hold, once each, a best-scoring row of every address. */
  ghost predicate Deduped(entries: seq<PoolRef>, rows: seq<PoolRef>, adapter: Adapter) {
    && DistinctAddresses(entries)
    && (forall e :: e in entries ==> e in rows && e.adapter == adapter)
    && (forall p :: p in rows && p.adapter == adapter ==> Covers(entries, p))
  }

  ghost predicate Covers(entries: seq<PoolRef>, p: PoolRef) {
    exists i :: 0 <= i < |entries| && entries[i].address == p.address && !Less(Score(entries[i]), Score(p))
  }

  lemma StepCovers(entries: seq<PoolRef>, p: PoolRef, adapter: Adapter, q: PoolRef)
    requires p.adapter == adapter && (Covers(entries, q) || q == p)
    ensures Covers(DedupStep(entries, p, adapter), q)
  {
    hide Score;
    LessIrreflexive(Score(p));
    hide Less;
    var k := IndexOf(entries, p.address);
    var after := DedupStep(entries, p, adapter);
    if q == p {
      assert after[k].address == p.address;
    } else {
      var i :| 0 <= i < |entries| && entries[i].address == q.address && !Less(Score(entries[i]), Score(q));
      assert after[i].address == q.address;
      if i == k && Less(Score(p), Score(q)) && Less(Score(entries[k]), Score(p)) {
        LessTransitive(Score(entries[k]), Score(p), Score(q));
      }
    }
  }

  lemma DistinctEmpty()
    ensures DistinctAddresses([])
  {
  }

  lemma OtherAdapterSkipped(entries: seq<PoolRef>, p: PoolRef, adapter: Adapter)
    requires p.adapter != adapter
    ensures DedupStep(entries, p, adapter) == entries
  {
  }

  lemma StepKeepsDistinct(entries: seq<PoolRef>, p: PoolRef, adapter: Adapter)
    requires DistinctAddresses(entries)
    ensures DistinctAddresses(DedupStep(entries, p, adapter))
    ensures forall e :: e in DedupStep(entries, p, adapter) ==> e in entries || (e == p && p.adapter == adapter)
  {
    hide Score, Less;
  }

  lemma {:induction false} DedupWinners(rows: seq<PoolRef>, adapter: Adapter)
    ensures Deduped(Dedup(rows, adapter), rows, adapter)
  {
    hide DedupStep, Covers, DistinctAddresses;
    if rows == [] {
      DistinctEmpty();
    } else {
      var n := |rows| - 1;
      var entries, p := Dedup(rows[..n], adapter), rows[n];
      DedupWinners(rows[..n], adapter);
      StepKeepsDistinct(entries, p, adapter);
      assert forall q :: q in rows <==> q in rows[..n] || q == p;
      if p.adapter == adapter {
        forall q | q in rows && q.adapter == adapter ensures Covers(Dedup(rows, adapter), q) {
          StepCovers(entries, p, adapter, q);
        }
      } else {
        OtherAdapterSkipped(entries, p, adapter);
      }
    }
  }

  /** Whatever the order of the rows, the same hints win for every address. */
  lemma WinnersIgnoreOrder(rows: seq<PoolRef>, rows': seq<PoolRef>, adapter: Adapter)
    requires SameRows(rows, rows') && JsonIdentifies(rows)
    ensures Views(Dedup(rows, adapter)) == Views(Dedup(rows', adapter))
  {
    hide Dedup, Deduped;
    WinnersAmong(rows, rows', adapter);
    WinnersAmong(rows', rows, adapter);
  }

  lemma WinnersAmong(rows: seq<PoolRef>, rows': seq<PoolRef>, adapter: Adapter)
    requires SameRows(rows, rows') && JsonIdentifies(rows)
    ensures Views(Dedup(rows, adapter)) <= Views(Dedup(rows', adapter))
  {
    hide Dedup, Score, Less;
    DedupWinners(rows, adapter);
    DedupWinners(rows', adapter);
    var s, t := Dedup(rows, adapter), Dedup(rows', adapter);
    forall i | 0 <= i < |s| ensures View(s[i]) in Views(t) {
      assert s[i] in s && s[i] in rows;
      assert Covers(t, s[i]);
      var j :| 0 <= j < |t| && t[j].address == s[i].address && !Less(Score(t[j]), Score(s[i]));
      assert t[j] in t && t[j] in rows';
      assert Covers(s, t[j]);
      var k :| 0 <= k < |s| && s[k].address == t[j].address && !Less(Score(s[k]), Score(t[j]));
      assert k == i;
      LessTotal(Score(s[i]), Score(t[j]));
      ScoreDeterminesJson(s[i], t[j]);
      assert View(s[i]) == View(t[j]);
    }
  }

  /** A filter that ignores `source` commutes with the views. */
  lemma FilterViews(f: PoolRef -> bool, s: seq<PoolRef>, t: seq<PoolRef>)
    requires forall p :: f(p) == f(View(p))
    requires Views(s) == Views(t)
    ensures Views(Filter(f, s)) == Views(Filter(f, t))
  {
    FilterViewsInto(f, s, t);
    FilterViewsInto(f, t, s);
  }

  lemma FilterViewsInto(f: PoolRef -> bool, s: seq<PoolRef>, t: seq<PoolRef>)
    requires forall p :: f(p) == f(View(p))
    requires Views(s) <= Views(t)
    ensures Views(Filter(f, s)) <= Views(Filter(f, t))
  {
    forall p | p in Filter(f, s) ensures View(p) in Views(Filter(f, t)) {
      assert View(p) in Views(s);
      var q :| q in t && View(q) == View(p);
      assert f(q) == f(View(q));
    }
  }

  lemma {:induction false} FilterDistinct(f: PoolRef -> bool, s: seq<PoolRef>)
    requires DistinctAddresses(s)
    ensures DistinctAddresses(Filter(f, s))
  {
    if s != [] {
      var n := |s| - 1;
      FilterDistinct(f, s[..n]);
      var r := Filter(f, s[..n]);
      forall i | 0 <= i < |r| ensures r[i].address != s[n].address {
        assert r[i] in s[..n];
      }
    }
  }

  lemma CounterMintOfView(p: PoolRef)
    ensures CounterMintOf(View(p)) == CounterMintOf(p)
  {
  }

  /** Kept pools and the groups of every mint: the same views, each address once, all of the adapter. */
  lemma KeptIgnoresOrder(rows: seq<PoolRef>, rows': seq<PoolRef>, adapter: Adapter)
    requires SameRows(rows, rows') && JsonIdentifies(rows)
    ensures Views(Kept(rows, adapter)) == Views(Kept(rows', adapter))
  {
    hide Dedup, CounterMintOf, Filter;
    WinnersIgnoreOrder(rows, rows', adapter);
    forall p ensures CounterMintOf(p) == CounterMintOf(View(p)) { CounterMintOfView(p); }
    FilterViews((p: PoolRef) => CounterMintOf(p).Some?, Dedup(rows, adapter), Dedup(rows', adapter));
  }

  lemma GroupIgnoresOrder(kept: seq<PoolRef>, kept': seq<PoolRef>, mint: string)
    requires Views(kept) == Views(kept')
    ensures Views(Group(kept, mint)) == Views(Group(kept', mint))
  {
    hide CounterMintOf, Filter;
    forall p ensures CounterMintOf(p) == CounterMintOf(View(p)) { CounterMintOfView(p); }
    FilterViews((p: PoolRef) => CounterMintOf(p) == Some(mint), kept, kept');
  }

  lemma KeptDistinct(rows: seq<PoolRef>, adapter: Adapter)
    ensures DistinctAddresses(Kept(rows, adapter))
    ensures forall p :: p in Kept(rows, adapter) ==> p in rows && p.adapter == adapter && CounterMintOf(p).Some?
  {
    hide CounterMintOf;
    DedupWinners(rows, adapter);
    FilterDistinct((p: PoolRef) => CounterMintOf(p).Some?, Dedup(rows, adapter));
  }

  lemma GroupDistinct(kept: seq<PoolRef>, mint: string)
    requires DistinctAddresses(kept)
    ensures DistinctAddresses(Group(kept, mint))
    ensures forall p :: p in Group(kept, mint) ==> p in kept && CounterMintOf(p) == Some(mint)
  {
    hide CounterMintOf;
    FilterDistinct((p: PoolRef) => CounterMintOf(p) == Some(mint), kept);
  }

  /** The mints in sorted order are those of the set of kept pools. */
  lemma SortedMintsIgnoreOrder(kept: seq<PoolRef>, kept': seq<PoolRef>)
    requires Views(kept) == Views(kept')
    ensures Sort(Less, Mints(kept)) == Sort(Less, Mints(kept'))
  {
    hide CounterMintOf, Less, Sort;
    MintsInto(kept, kept');
    MintsInto(kept', kept);
    LessIsStrict();
    forall a, b ensures a == b || Less(a, b) || Less(b, a) { LessTotal(a, b); }
    SortIgnoresOrder(Less, Mints(kept), Mints(kept'));
  }

  lemma MintsInto(kept: seq<PoolRef>, kept': seq<PoolRef>)
    requires Views(kept) <= Views(kept')
    ensures forall m :: m in Mints(kept) ==> m in Mints(kept')
  {
    hide CounterMintOf, Mints;
    forall m | m in Mints(kept) ensures m in Mints(kept') {
      var p :| p in kept && CounterMintOf(p) == Some(m);
      assert View(p) in Views(kept);
      var q :| q in kept' && View(q) == View(p);
      CounterMintOfView(p);
      CounterMintOfView(q);
    }
  }
}
