/**
 * Two-leg circuits WSOL -> token -> WSOL over pools of either adapter (src/routing/circuit.ts):
 * evaluation at one size, and sizing by grid search with bounded refinement.
 */
module Circuit {
  import opened Outcomes
  import RM = RaydiumMath
  import RP = RaydiumPool
  import PP = PumpPool

  /** A decoded pool.  A Raydium pool may hold WSOL on either side; PumpSwap always quotes in WSOL. */
  datatype Pool =
    | Raydium(ray: RP.Pool, wsolIsToken0: bool, epoch: nat)
    | Pump(pump: PP.Pool)

  datatype Quote = Quote(amountIn: int, amountOutToUser: int, rejected: bool)

  function DirectionOf(p: Pool, wsolIn: bool): RM.Direction
    requires p.Raydium?
  {
    if wsolIn == p.wsolIsToken0 then RM.ZeroForOne else RM.OneForZero
  }

  /** quoteExactIn of the pool's adapter; None is an Unsupported result. */
  function QuoteExactIn(p: Pool, wsolIn: bool, amountIn: int): Option<Quote> {
    match p
    case Raydium(ray, _, epoch) =>
      var q := RP.QuoteExactIn(ray, DirectionOf(p, wsolIn), amountIn, epoch);
      Some(Quote(q.amountIn, q.amountOutToUser, q.rejected))
    case Pump(pump) =>
      match PP.QuoteExactIn(pump, wsolIn, amountIn)
      case None => None
      case Some(q) => Some(Quote(q.amountIn, q.amountOutToUser, q.rejected))
  }

  /** Leg A trades WSOL for the token on `poolA`, leg B the token for WSOL on `poolB`. */
  datatype Circuit = Circuit(poolA: Pool, poolB: Pool)

  datatype CircuitEval = CircuitEval(amountIn: int, quoteA: Quote, quoteB: Quote, pnl: int)

  datatype Reason = ZeroTrade | LegAUnsupported | LegARejected | LegAZeroOut | LegBUnsupported | LegBRejected | PnlMismatch | AboveMaxCapital

  datatype CircuitResult = Evaluated(value: CircuitEval) | Failed(reason: Reason)

  /** evaluateCircuit; `PnlMismatch` is tradingPnl's refusal to sell pre-existing inventory. */
  function EvaluateCircuit(c: Circuit, amountIn: int): CircuitResult {
    if amountIn <= 0 then Failed(ZeroTrade)
    else
      match QuoteExactIn(c.poolA, true, amountIn)
      case None => Failed(LegAUnsupported)
      case Some(qa) =>
        if qa.rejected then Failed(LegARejected)
        else if qa.amountOutToUser <= 0 then Failed(LegAZeroOut)
        else
          match QuoteExactIn(c.poolB, false, qa.amountOutToUser)
          case None => Failed(LegBUnsupported)
          case Some(qb) =>
            if qb.rejected then Failed(LegBRejected)
            else if qb.amountIn != qa.amountOutToUser then Failed(PnlMismatch)
            else Evaluated(CircuitEval(amountIn, qa, qb, qb.amountOutToUser - qa.amountIn))
  }

  /** A sell is always quoted for the amount asked, so leg B consumes exactly leg A's output. */
  lemma SellQuotesWholeInput(p: Pool, amountIn: int)
    ensures var q := QuoteExactIn(p, false, amountIn); q.Some? ==> q.value.amountIn == amountIn
  {
    hide RP.QuoteExactIn, PP.QuoteBuy, PP.QuoteSell, PP.Schedule;
    match p
    case Raydium(ray, _, epoch) => RP.QuoteDirection(ray, DirectionOf(p, false), amountIn, epoch);
    case Pump(pump) =>
      if PP.Schedule(pump).Some? { PP.SellKeepsAmount(pump, PP.Schedule(pump).value, amountIn); }
  }

  lemma NoInventorySold(c: Circuit, amountIn: int)
    ensures EvaluateCircuit(c, amountIn) != Failed(PnlMismatch)
    ensures EvaluateCircuit(c, amountIn).Evaluated? ==>
              var v := EvaluateCircuit(c, amountIn).value;
              v.amountIn == amountIn && v.quoteB.amountIn == v.quoteA.amountOutToUser > 0
  {
    hide QuoteExactIn;
    var qa := QuoteExactIn(c.poolA, true, amountIn);
    if qa.Some? { SellQuotesWholeInput(c.poolB, qa.value.amountOutToUser); }
  }

  // ----- sizing -----

  /** Inserts a size into a strictly increasing list, once. */
  function InsertDistinct(x: int, sizes: seq<int>): (r: seq<int>)
    requires Increasing(sizes)
    ensures Increasing(r)
    ensures forall y :: y in r <==> y == x || y in sizes
  {
    if sizes == [] then [x]
    else if x < sizes[0] then IncreasingCons(x, sizes); [x] + sizes
    else if x == sizes[0] then sizes
    else
      var rest := InsertDistinct(x, sizes[1..]);
      assert sizes == [sizes[0]] + sizes[1..];
      HeadIsLeast(sizes);
      IncreasingCons(sizes[0], rest);
      [sizes[0]] + rest
  }

  predicate Increasing(sizes: seq<int>) {
    forall i, j :: 0 <= i < j < |sizes| ==> sizes[i] < sizes[j]
  }

  lemma HeadIsLeast(sizes: seq<int>)
    requires Increasing(sizes) && sizes != []
    ensures forall y :: y in sizes[1..] ==> sizes[0] < y
  {
  }

  lemma IncreasingCons(x: int, rest: seq<int>)
    requires Increasing(rest) && (rest != [] ==> x < rest[0] || forall y :: y in rest ==> x < y)
    ensures Increasing([x] + rest)
  {
    assert rest != [] ==> rest[0] in rest;
  }

  /** The distinct grid sizes within (0, maxCapital], in increasing order. */
  function GridSizes(grid: seq<int>, maxCapital: int): (r: seq<int>)
    ensures Increasing(r)
    ensures forall x :: x in r <==> x in grid && 0 < x <= maxCapital
  {
    if grid == [] then []
    else
      var rest := GridSizes(grid[1..], maxCapital);
      assert grid == [grid[0]] + grid[1..];
      if 0 < grid[0] <= maxCapital then InsertDistinct(grid[0], rest) else rest
  }

  datatype Point = Point(amountIn: int, pnl: Option<int>)

  function PnlOf(r: CircuitResult): Option<int> {
    if r.Evaluated? then Some(r.value.pnl) else None
  }

  function PointAt(c: Circuit, x: int): Point { Point(x, PnlOf(EvaluateCircuit(c, x))) }

  const NO_PNL: int := -0x100_0000_0000_0000_0000_0000_0000_0000  // -(1 << 120)

  function Comparable(r: CircuitResult): int { if r.Evaluated? then r.value.pnl else NO_PNL }

  /** The evaluated points are fresh evaluations, each size once, none outside [0, maxCapital]. */
  ghost predicate Honest(c: Circuit, maxCapital: int, evaluated: seq<Point>) {
    && (forall i :: 0 <= i < |evaluated| ==>
         evaluated[i] == PointAt(c, evaluated[i].amountIn) && 0 <= evaluated[i].amountIn <= maxCapital)
    && (forall i, j :: 0 <= i < j < |evaluated| ==> evaluated[i].amountIn != evaluated[j].amountIn)
  }

  ghost predicate Has(evaluated: seq<Point>, x: int) {
    exists i :: 0 <= i < |evaluated| && evaluated[i].amountIn == x
  }

  /** `best` is the first positive evaluation of maximal pnl; None iff none is positive. */
  ghost predicate Best(c: Circuit, evaluated: seq<Point>, best: Option<CircuitEval>) {
    && (best.Some? ==> best.value.pnl > 0 && Has(evaluated, best.value.amountIn)
                       && EvaluateCircuit(c, best.value.amountIn) == Evaluated(best.value))
    && (forall i :: 0 <= i < |evaluated| && evaluated[i].pnl.Some? ==>
                      evaluated[i].pnl.value <= if best.Some? then best.value.pnl else 0)
    && (best.Some? ==>
          forall i, j ::
              0 <= j < i < |evaluated| && evaluated[i].amountIn == best.value.amountIn && evaluated[j].pnl.Some? ==>
                           evaluated[j].pnl.value < best.value.pnl)
  }

  /** The points after evaluating `x`: a size already evaluated is not recorded again. */
  ghost function Record(c: Circuit, evaluated: seq<Point>, x: int): seq<Point> {
    if Has(evaluated, x) then evaluated else evaluated + [PointAt(c, x)]
  }

  ghost function Recorded(c: Circuit, evaluated: seq<Point>, xs: seq<int>): seq<Point>
    decreases |xs|
  {
    if xs == [] then evaluated else Recorded(c, Record(c, evaluated, xs[0]), xs[1..])
  }

  ghost predicate CacheMatches(c: Circuit, evaluated: seq<Point>, cache: map<int, CircuitResult>) {
    && (forall x :: x in cache <==> Has(evaluated, x))
    && (forall x :: x in cache ==> cache[x] == EvaluateCircuit(c, x))
  }

  /** The memoised evaluation `ev`. */
  method Evaluate(c: Circuit, x: int, maxCapital: int, cache: map<int, CircuitResult>, evaluated: seq<Point>)
    returns (r: CircuitResult, cache': map<int, CircuitResult>, evaluated': seq<Point>)
    requires 0 <= x && Honest(c, maxCapital, evaluated) && CacheMatches(c, evaluated, cache)
    ensures Honest(c, maxCapital, evaluated') && CacheMatches(c, evaluated', cache')
    ensures if x > maxCapital then r == Failed(AboveMaxCapital) && evaluated' == evaluated
            else r == EvaluateCircuit(c, x) && Has(evaluated', x) && evaluated' == Record(c, evaluated, x)
  {
    hide EvaluateCircuit;
    cache', evaluated' := cache, evaluated;
    if x > maxCapital {
      return Failed(AboveMaxCapital), cache, evaluated;
    }
    if x in cache {
      r := cache[x];
    } else {
      r := EvaluateCircuit(c, x);
      cache' := cache[x := r];
      evaluated' := evaluated + [Point(x, PnlOf(r))];
      assert evaluated'[|evaluated|].amountIn == x;
      forall y ensures y in cache' <==> Has(evaluated', y) {
        if Has(evaluated, y) {
          var i :| 0 <= i < |evaluated| && evaluated[i].amountIn == y;
          assert evaluated'[i].amountIn == y;
        }
      }
    }
  }

  /** `consider`: keeps the first maximal positive evaluation. */
  function Consider(best: Option<CircuitEval>, r: CircuitResult): Option<CircuitEval> {
    if r.Evaluated? && r.value.pnl > 0 && (best.None? || r.value.pnl > best.value.pnl) then Some(r.value) else best
  }

  /** Extending the points by an evaluation and considering it keeps `best` maximal. */
  lemma ConsiderKeepsBest(c: Circuit, evaluated: seq<Point>, evaluated': seq<Point>, best: Option<CircuitEval>, x: int)
    requires Best(c, evaluated, best) && evaluated' == Record(c, evaluated, x)
    requires forall i :: 0 <= i < |evaluated'| ==> evaluated'[i] == PointAt(c, evaluated'[i].amountIn)
    ensures Best(c, evaluated', Consider(best, EvaluateCircuit(c, x)))
  {
    NoInventorySold(c, x);
    hide EvaluateCircuit;
    if !Has(evaluated, x) { assert evaluated'[|evaluated|].amountIn == x; }
    if best.Some? {
      var i :| 0 <= i < |evaluated| && evaluated[i].amountIn == best.value.amountIn;
      assert evaluated'[i].amountIn == best.value.amountIn;
    }
  }

  /** The best of the sizes in order. */
  function GridBest(c: Circuit, sizes: seq<int>): (best: Option<CircuitEval>)
    ensures best.Some? ==> best.value.amountIn in sizes
  {
    if sizes == [] then None
    else
      var x := sizes[|sizes| - 1];
      NoInventorySold(c, x);
      Consider(GridBest(c, sizes[..|sizes| - 1]), EvaluateCircuit(c, x))
  }

  /** The sizes the refinement visits: none when nothing on the grid is profitable. */
  function RefinementSizes(c: Circuit, sizes: seq<int>, maxCapital: int, refineSteps: nat): seq<int>
    requires Increasing(sizes) && forall x :: x in sizes ==> 0 < x <= maxCapital
  {
    match GridBest(c, sizes)
    case None => []
    case Some(g) =>
      var start := Bracket(sizes, g.amountIn, maxCapital);
      Visited(c, start.0, start.1, refineSteps)
  }

  /**
   * Grid search and bounded refinement.  The grid sizes are evaluated in order, then exactly the
   * refinement's; the result is the first maximum of everything evaluated.
   */
  method SizeCircuit(c: Circuit, grid: seq<int>, maxCapital: int, refineSteps: nat)
    returns (best: Option<CircuitEval>, evaluated: seq<Point>)
    ensures Honest(c, maxCapital, evaluated)
    ensures Best(c, evaluated, best)
    ensures best.Some? ==> 0 < best.value.amountIn <= maxCapital
    ensures forall x :: x in grid && 0 < x <= maxCapital ==> Has(evaluated, x)
    ensures |evaluated| <= |GridSizes(grid, maxCapital)| + 2 * refineSteps
    ensures best.None? ==> |evaluated| == |GridSizes(grid, maxCapital)|
    ensures var sizes := GridSizes(grid, maxCapital);
            evaluated == Recorded(c, PointsAt(c, sizes), RefinementSizes(c, sizes, maxCapital, refineSteps))
  {
    hide EvaluateCircuit, GridSizes, Bracket, Narrow, Visited, Recorded, GridBest, PointAt, Best, Honest, CacheMatches,
        Increasing;
    var sizes := GridSizes(grid, maxCapital);
    var cache;
    cache, evaluated, best := EvaluateGrid(c, sizes, maxCapital);
    if best.Some? {
      var lo, hi;
      cache, evaluated, best, lo, hi := Refine(c, sizes, maxCapital, refineSteps, cache, evaluated, best);
    } else {
      NothingRecorded(c, evaluated);
    }
    PositiveSize(c, evaluated, best, maxCapital);
  }

  lemma NothingRecorded(c: Circuit, evaluated: seq<Point>)
    ensures Recorded(c, evaluated, []) == evaluated
  {
  }

  ghost function PointsAt(c: Circuit, sizes: seq<int>): (points: seq<Point>)
    ensures |points| == |sizes| && forall k :: 0 <= k < |sizes| ==> points[k] == PointAt(c, sizes[k])
  {
    seq(|sizes|, k requires 0 <= k < |sizes| => PointAt(c, sizes[k]))
  }

  /** The first loop: every grid size in order. */
  method EvaluateGrid(c: Circuit, sizes: seq<int>, maxCapital: int)
    returns (cache: map<int, CircuitResult>, evaluated: seq<Point>, best: Option<CircuitEval>)
    requires Increasing(sizes) && forall x :: x in sizes ==> 0 < x <= maxCapital
    ensures evaluated == PointsAt(c, sizes) && best == GridBest(c, sizes)
    ensures Honest(c, maxCapital, evaluated) && CacheMatches(c, evaluated, cache) && Best(c, evaluated, best)
    ensures forall x :: x in sizes ==> Has(evaluated, x)
  {
    hide EvaluateCircuit, Consider, Best, CacheMatches;
    cache, evaluated, best := map[], [], None;
    NothingYet(c);
    var n := 0;
    while n < |sizes|
      invariant n <= |sizes| && evaluated == PointsAt(c, sizes[..n]) && best == GridBest(c, sizes[..n])
      invariant Honest(c, maxCapital, evaluated) && CacheMatches(c, evaluated, cache) && Best(c, evaluated, best)
    {
      assert sizes[n] in sizes;
      assert sizes[..n + 1][..n] == sizes[..n];
      var r, cache', evaluated' := Evaluate(c, sizes[n], maxCapital, cache, evaluated);
      ConsiderKeepsBest(c, evaluated, evaluated', best, sizes[n]);
      cache, evaluated, best := cache', evaluated', Consider(best, r);
      n := n + 1;
    }
    assert sizes[..n] == sizes;
    forall x | x in sizes ensures Has(evaluated, x) {
      var k :| 0 <= k < |sizes| && sizes[k] == x;
      assert evaluated[k].amountIn == x;
    }
  }

  lemma NothingYet(c: Circuit)
    ensures CacheMatches(c, [], map[]) && Best(c, [], None)
  {
  }

  lemma PositiveSize(c: Circuit, evaluated: seq<Point>, best: Option<CircuitEval>, maxCapital: int)
    requires Best(c, evaluated, best) && Honest(c, maxCapital, evaluated)
    ensures best.Some? ==> 0 < best.value.amountIn <= maxCapital
  {
    if best.Some? {
      hide QuoteExactIn;
    }
  }

  /** findIndex on an increasing list. */
  function IndexOf(sizes: seq<int>, size: int): (i: nat)
    requires size in sizes
    ensures i < |sizes| && sizes[i] == size
  {
    if sizes[0] == size then 0 else 1 + IndexOf(sizes[1..], size)
  }

  /** The neighbours of the best grid size, or half and twice it (capped) at the ends of the grid. */
  function Bracket(sizes: seq<int>, size: int, maxCapital: int): (b: (int, int))
    requires Increasing(sizes) && size in sizes && forall x :: x in sizes ==> 0 < x <= maxCapital
    ensures 0 <= b.0 <= size <= b.1 <= maxCapital
    ensures forall x :: x in sizes && x < size ==> b.0 in sizes && x <= b.0 < size
    ensures forall x :: x in sizes && x > size ==> b.1 in sizes && x >= b.1 > size
    ensures (forall x :: x in sizes ==> size <= x) ==> b.0 == size / 2
    ensures (forall x :: x in sizes ==> x <= size) ==> b.1 == if size * 2 > maxCapital then maxCapital else size * 2
  {
    var i := IndexOf(sizes, size);
    assert i > 0 ==> sizes[i - 1] in sizes;
    assert i < |sizes| - 1 ==> sizes[i + 1] in sizes;
    (if i > 0 then sizes[i - 1] else size / 2,
     if i < |sizes| - 1 then sizes[i + 1] else if size * 2 > maxCapital then maxCapital else size * 2)
  }

  /** One step of the search: of the two points that cut the bracket in thirds, the lower of the worse end goes. */
  function Thirds(lo: int, hi: int): (m: (int, int))
    requires hi - lo > 1
    ensures lo <= m.0 < m.1 <= hi
  {
    (lo + (hi - lo) / 3, hi - (hi - lo) / 3)
  }

  function Narrowed(c: Circuit, lo: int, hi: int): (b: (int, int))
    requires hi - lo > 1
    ensures lo <= b.0 < b.1 <= hi
  {
    var m := Thirds(lo, hi);
    if Comparable(EvaluateCircuit(c, m.0)) < Comparable(EvaluateCircuit(c, m.1)) then (m.0, hi) else (lo, m.1)
  }

  /** The bracket after at most `n` steps. */
  function Narrow(c: Circuit, lo: int, hi: int, n: nat): (int, int)
    decreases n
  {
    if n == 0 || hi - lo <= 1 then (lo, hi)
    else var b := Narrowed(c, lo, hi); Narrow(c, b.0, b.1, n - 1)
  }

  /** The sizes those steps look at, in order. */
  function Visited(c: Circuit, lo: int, hi: int, n: nat): (xs: seq<int>)
    ensures |xs| <= 2 * n
    decreases n
  {
    if n == 0 || hi - lo <= 1 then []
    else
      var m, b := Thirds(lo, hi), Narrowed(c, lo, hi);
      [m.0, m.1] + Visited(c, b.0, b.1, n - 1)
  }

  lemma RecordedPair(c: Circuit, evaluated: seq<Point>, x: int, y: int, xs: seq<int>)
    ensures Recorded(c, evaluated, [x, y] + xs) == Recorded(c, Record(c, Record(c, evaluated, x), y), xs)
  {
    hide Record;
    assert ([x, y] + xs)[1..] == [y] + xs && ([y] + xs)[1..] == xs;
  }

  /** The refinement loop around the best grid point performs those steps and records those sizes. */
  method Refine(c: Circuit, sizes: seq<int>, maxCapital: int, refineSteps: nat,
                cache0: map<int, CircuitResult>, evaluated0: seq<Point>, best0: Option<CircuitEval>)
    returns (cache: map<int, CircuitResult>, evaluated: seq<Point>, best: Option<CircuitEval>, lo: int, hi: int)
    requires Increasing(sizes) && (forall x :: x in sizes ==> 0 < x <= maxCapital)
    requires Honest(c, maxCapital, evaluated0) && CacheMatches(c, evaluated0, cache0) && Best(c, evaluated0, best0)
    requires best0.Some? && best0.value.amountIn in sizes
    ensures var start := Bracket(sizes, best0.value.amountIn, maxCapital);
            && 0 <= start.0 <= lo <= hi <= start.1 <= maxCapital
            && (lo, hi) == Narrow(c, start.0, start.1, refineSteps)
            && evaluated == Recorded(c, evaluated0, Visited(c, start.0, start.1, refineSteps))
    ensures Honest(c, maxCapital, evaluated) && CacheMatches(c, evaluated, cache) && Best(c, evaluated, best)
            && best.Some?
    ensures |evaluated| <= |evaluated0| + 2 * refineSteps
    ensures forall x :: Has(evaluated0, x) ==> Has(evaluated, x)
  {
    hide EvaluateCircuit, Consider, Honest, CacheMatches, Best, Increasing, Has, IndexOf, Bracket, Record;
    cache, evaluated, best := cache0, evaluated0, best0;
    var start := Bracket(sizes, best0.value.amountIn, maxCapital);
    lo, hi := start.0, start.1;
    var i := 0;
    while i < refineSteps && hi - lo > 1
      invariant 0 <= i <= refineSteps && 0 <= start.0 <= lo <= hi <= start.1 <= maxCapital
      invariant Honest(c, maxCapital, evaluated) && CacheMatches(c, evaluated, cache) && Best(c, evaluated, best)
              && best.Some?
      invariant |evaluated| <= |evaluated0| + 2 * i
      invariant forall x :: Has(evaluated0, x) ==> Has(evaluated, x)
      invariant Narrow(c, lo, hi, refineSteps - i) == Narrow(c, start.0, start.1, refineSteps)
      invariant Recorded(c, evaluated, Visited(c, lo, hi, refineSteps - i))
             == Recorded(c, evaluated0, Visited(c, start.0, start.1, refineSteps))
      decreases refineSteps - i
    {
      var m1, m2 := lo + (hi - lo) / 3, hi - (hi - lo) / 3;
      ghost var b := Narrowed(c, lo, hi);
      RecordedPair(c, evaluated, m1, m2, Visited(c, b.0, b.1, refineSteps - i - 1));
      var r1, r2;
      cache, evaluated, best, r1 := EvaluateAndConsider(c, m1, maxCapital, cache, evaluated, best);
      cache, evaluated, best, r2 := EvaluateAndConsider(c, m2, maxCapital, cache, evaluated, best);
      if Comparable(r1) < Comparable(r2) { lo := m1; } else { hi := m2; }
      i := i + 1;
    }
  }

  /** One refinement point: evaluate (from the cache when possible), then consider. */
  method EvaluateAndConsider(c: Circuit, x: int, maxCapital: int, cache0: map<int, CircuitResult>,
      evaluated0: seq<Point>, best0: Option<CircuitEval>)
    returns (cache: map<int, CircuitResult>, evaluated: seq<Point>, best: Option<CircuitEval>, r: CircuitResult)
    requires 0 <= x <= maxCapital
    requires Honest(c, maxCapital, evaluated0) && CacheMatches(c, evaluated0, cache0) && Best(c, evaluated0, best0)
    ensures Honest(c, maxCapital, evaluated) && CacheMatches(c, evaluated, cache) && Best(c, evaluated, best)
    ensures r == EvaluateCircuit(c, x) && (best0.Some? ==> best.Some?)
    ensures evaluated == Record(c, evaluated0, x) && |evaluated| <= |evaluated0| + 1
    ensures forall y :: Has(evaluated0, y) ==> Has(evaluated, y)
  {
    hide EvaluateCircuit, CacheMatches, Best;
    r, cache, evaluated := Evaluate(c, x, maxCapital, cache0, evaluated0);
    ConsiderKeepsBest(c, evaluated0, evaluated, best0, x);
    best := Consider(best0, r);
    forall y | Has(evaluated0, y) ensures Has(evaluated, y) {
      var k :| 0 <= k < |evaluated0| && evaluated0[k].amountIn == y;
      assert evaluated[k].amountIn == y;
    }
  }
}
