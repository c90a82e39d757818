/**
 * Discovery rows in their own fields (src/discovery/population.ts): what comparing two strings means,
 * which of two rows of one address wins, and which mint a row is filed under.
 */
module RowTerms {
  import opened Outcomes
  import opened Sorting
  import opened Population

  // ----- strings -----

  /** `a` is a proper prefix of `b`, or has the smaller code unit where they first differ. */
  ghost predicate ByUnits(a: string, b: string) {
    exists k: nat :: k <= |a| && k < |b| && a[..k] == b[..k] && (k == |a| || a[k] < b[k])
  }

  lemma {:induction false} LessIsByUnits(a: string, b: string)
    ensures Less(a, b) <==> ByUnits(a, b)
  {
    if a != [] && b != [] && a[0] == b[0] {
      LessIsByUnits(a[1..], b[1..]);
      if ByUnits(a, b) { UnitsTail(a, b); }
      if ByUnits(a[1..], b[1..]) { UnitsCons(a, b); }
    } else if ByUnits(a, b) {
      var k: nat :| k <= |a| && k < |b| && a[..k] == b[..k] && (k == |a| || a[k] < b[k]);
      FirstUnits(a, b, k);
    } else if b != [] {
      assert a[..0] == b[..0];
    }
  }

  lemma FirstUnits(a: string, b: string, k: nat)
    requires k <= |a| && k <= |b| && a[..k] == b[..k]
    ensures k > 0 ==> a[0] == b[0]
  {
    assert k > 0 ==> a[..k][0] == b[..k][0];
  }

  lemma UnitsTail(a: string, b: string)
    requires a != [] && b != [] && a[0] == b[0] && ByUnits(a, b)
    ensures ByUnits(a[1..], b[1..])
  {
    var k: nat :| k <= |a| && k < |b| && a[..k] == b[..k] && (k == |a| || a[k] < b[k]);
    assert a[1..][..k - 1] == a[..k][1..] && b[1..][..k - 1] == b[..k][1..];
  }

  lemma UnitsCons(a: string, b: string)
    requires a != [] && b != [] && a[0] == b[0] && ByUnits(a[1..], b[1..])
    ensures ByUnits(a, b)
  {
    var s, t := a[1..], b[1..];
    var k: nat :| k <= |s| && k < |t| && s[..k] == t[..k] && (k == |s| || s[k] < t[k]);
    assert a[..k + 1] == [a[0]] + s[..k] && b[..k + 1] == [b[0]] + t[..k];
  }

  // ----- the score -----

  function Tens(width: nat): nat { if width == 0 then 1 else 10 * Tens(width - 1) }

  function Digit(n: nat): char
    requires n < 10
  {
    ('0' as int + n) as char
  }

  /** The last `width` digits of a number. */
  function Fixed(n: nat, width: nat): string {
    if width == 0 then "" else Fixed(n / 10, width - 1) + [Digit(n % 10)]
  }

  lemma {:induction false} PadAppend(s: string, c: char, width: nat)
    ensures PadStart(s + [c], width + 1) == PadStart(s, width) + [c]
    decreases width - |s|
  {
    if |s| < width {
      PadAppend("0" + s, c, width);
      assert ("0" + s) + [c] == "0" + (s + [c]);
    }
  }

  /** A number that fits is padded to its fixed-width digits. */
  lemma {:induction false} PaddedDigits(n: nat, width: nat)
    requires width > 0 && n < Tens(width)
    ensures PadStart(Digits(n), width) == Fixed(n, width)
  {
    var last := Digit(n % 10);
    if width == 1 {
      assert Tens(1) == 10;
      assert Fixed(n / 10, 0) == "";
    } else {
      PaddedDigits(n / 10, width - 1);
      if n >= 10 {
        PadAppend(Digits(n / 10), last, width - 1);
      } else {
        PadAppend("", last, width - 1);
        assert "" + [last] == [last] == Digits(n);
        assert PadStart("", width - 1) == PadStart("0" + "", width - 1);
        assert "0" + "" == Digits(n / 10);
      }
    }
  }

  /** Fixed-width digits compare as numbers, and what follows breaks ties. */
  lemma {:induction false} FixedOrder(n: nat, m: nat, width: nat, x: string, y: string)
    requires n < Tens(width) && m < Tens(width)
    ensures Less(Fixed(n, width) + x, Fixed(m, width) + y) <==> n < m || (n == m && Less(x, y))
  {
    if width == 0 {
      assert Fixed(n, 0) + x == x && Fixed(m, 0) + y == y;
    } else {
      var d, e := [Digit(n % 10)], [Digit(m % 10)];
      FixedOrder(n / 10, m / 10, width - 1, d + x, e + y);
      assert Fixed(n, width) + x == Fixed(n / 10, width - 1) + (d + x);
      assert Fixed(m, width) + y == Fixed(m / 10, width - 1) + (e + y);
      assert (d + x)[1..] == x && (e + y)[1..] == y;
    }
  }

  lemma BarOrder(x: string, y: string)
    ensures Less("|" + x, "|" + y) <==> Less(x, y)
  {
    assert ("|" + x)[1..] == x && ("|" + y)[1..] == y;
  }

  /** More hints, then more liquidity, then the later JSON text, for as long as the fields hold the numbers. */
  ghost predicate Richer(p: PoolRef, q: PoolRef) {
    || NonNull(p) > NonNull(q)
    || (NonNull(p) == NonNull(q) && (RoundedTvl(p) > RoundedTvl(q) || (RoundedTvl(p) == RoundedTvl(q) && ByUnits(q.hints.json, p.hints.json))))
  }

  predicate FitsScore(p: PoolRef) { NonNull(p) < 10_000 && RoundedTvl(p) < 1_000_000_000_000_000_000 }

  lemma ScoreOrder(p: PoolRef, q: PoolRef)
    requires FitsScore(p) && FitsScore(q)
    ensures Less(Score(p), Score(q)) <==> Richer(q, p)
  {
    hide NonNull, RoundedTvl, Less, Digits, PadStart, Fixed, ByUnits;
    assert Tens(4) == 10_000 && Tens(18) == 1_000_000_000_000_000_000;
    PaddedDigits(NonNull(p), 4);
    PaddedDigits(NonNull(q), 4);
    PaddedDigits(RoundedTvl(p), 18);
    PaddedDigits(RoundedTvl(q), 18);
    var x, y := Fixed(RoundedTvl(p), 18) + ("|" + p.hints.json), Fixed(RoundedTvl(q), 18) + ("|" + q.hints.json);
    FixedOrder(NonNull(p), NonNull(q), 4, "|" + x, "|" + y);
    BarOrder(x, y);
    FixedOrder(RoundedTvl(p), RoundedTvl(q), 18, "|" + p.hints.json, "|" + q.hints.json);
    BarOrder(p.hints.json, q.hints.json);
    LessIsByUnits(p.hints.json, q.hints.json);
  }

  /** `t` rounds to `n`, halves upwards, and to zero below. */
  predicate RoundsTo(t: real, n: nat) {
    if t < 0.5 then n == 0 else n as real - 0.5 <= t < n as real + 0.5
  }

  lemma TvlRounded(p: PoolRef)
    ensures match HintNum(p, "tvl") case Some(t) => RoundsTo(t, RoundedTvl(p)) case None => RoundedTvl(p) == 0
  {
  }

  /** The row kept for an address is one of its rows, and no other row of that address is richer. */
  lemma RichestRowWins(rows: seq<PoolRef>, adapter: Adapter, p: PoolRef)
    requires forall q :: q in rows ==> FitsScore(q)
    requires p in rows && p.adapter == adapter
    ensures exists e ::
              e in Dedup(rows, adapter) && e in rows && e.adapter == adapter && e.address == p.address && !Richer(p, e)
    ensures DistinctAddresses(Dedup(rows, adapter))
  {
    hide Score, Less, Richer, FitsScore, Dedup;
    DedupWinners(rows, adapter);
    var entries := Dedup(rows, adapter);
    assert Covers(entries, p);
    var i :| 0 <= i < |entries| && entries[i].address == p.address && !Less(Score(entries[i]), Score(p));
    assert entries[i] in entries;
    ScoreOrder(entries[i], p);
  }

  // ----- the mint of a row -----

  /** The hint under `key` is this text. */
  predicate Says(p: PoolRef, key: string, text: string) { key in p.hints.entries && p.hints.entries[key] == Text(text) }

  predicate TradesWithWsol(p: PoolRef, mint: string) {
    var (one, other) := if p.adapter == RaydiumCpmm then ("mintA", "mintB") else ("base_mint", "quote_mint");
    && mint != "" && mint != WSOL
    && ((Says(p, one, WSOL) && Says(p, other, mint)) || (Says(p, one, mint) && Says(p, other, WSOL)))
  }

  /** A row is filed under the mint it pairs with WSOL, if it does. */
  lemma FiledUnderMint(p: PoolRef, mint: string)
    ensures CounterMintOf(p) == Some(mint) <==> TradesWithWsol(p, mint)
  {
    assert |WSOL| > 0;
  }
}
