/**
 * enumerateCircuits (src/routing/circuit.ts): every ordered pair of distinct pools that share a token
 * and quote in WSOL, each once; of two pools listed under one address the later one counts.
 */
module Enumerate {
  import opened Outcomes
  import Population

  /** `state` stands for the rest of a decoded pool. */
  datatype Listed = Listed(adapter: string, address: string, mintA: string, mintB: string, state: int)

  datatype Route = Route(token: string, poolA: Listed, poolB: Listed, sameAdapter: bool)

  function TokenOf(p: Listed): Option<string> {
    if p.mintA == Population.WSOL then Some(p.mintB) else if p.mintB == Population.WSOL then Some(p.mintA) else None
  }

  /** The last pool listed for the token under the address. */
  function Latest(pools: seq<Listed>, token: string, address: string): Option<Listed> {
    if pools == [] then None
    else
      var p := pools[|pools| - 1];
      if TokenOf(p) == Some(token) && p.address == address then Some(p)
          else Latest(pools[..|pools| - 1], token, address)
  }

  /** The ordered pairs wanted. */
  predicate IsCircuit(pools: seq<Listed>, r: Route) {
    && Latest(pools, r.token, r.poolA.address) == Some(r.poolA)
    && Latest(pools, r.token, r.poolB.address) == Some(r.poolB)
    && r.poolA.address != r.poolB.address
    && r.sameAdapter == (r.poolA.adapter == r.poolB.adapter)
  }

  // ----- grouping by token -----

  /** The token's pools in listing order. */
  function OfToken(pools: seq<Listed>, token: string): seq<Listed> {
    if pools == [] then []
    else OfToken(pools[..|pools| - 1], token) + (if TokenOf(pools[|pools| - 1]) == Some(token) then [pools[|pools| - 1]] else [])
  }

  lemma OfTokenAppend(pools: seq<Listed>, p: Listed, token: string)
    ensures OfToken(pools + [p], token) == OfToken(pools, token) + if TokenOf(p) == Some(token) then [p] else []
  {
    assert (pools + [p])[..|pools|] == pools;
  }

  lemma {:induction false} LatestOfToken(pools: seq<Listed>, token: string, address: string)
    ensures Latest(OfToken(pools, token), token, address) == Latest(pools, token, address)
    ensures forall p :: p in OfToken(pools, token) ==> TokenOf(p) == Some(token)
  {
    if pools != [] {
      var p, rest := pools[|pools| - 1], pools[..|pools| - 1];
      LatestOfToken(rest, token, address);
      assert OfToken(rest, token) + [] == OfToken(rest, token);
      if TokenOf(p) == Some(token) { LatestAppend(OfToken(rest, token), p, token, address); }
    }
  }

  lemma LatestAppend(pools: seq<Listed>, p: Listed, token: string, address: string)
    ensures Latest(pools + [p], token, address) ==
            if TokenOf(p) == Some(token) && p.address == address then Some(p) else Latest(pools, token, address)
  {
    assert (pools + [p])[..|pools|] == pools;
  }

  ghost predicate Grouped(pools: seq<Listed>, tokens: seq<string>, byToken: map<string, seq<Listed>>) {
    && (forall i, j :: 0 <= i < j < |tokens| ==> tokens[i] != tokens[j])
    && (forall t :: t in byToken <==> t in tokens)
    && (forall t :: OfToken(pools, t) == if t in byToken then byToken[t] else [])
  }

  method GroupByToken(pools: seq<Listed>) returns (tokens: seq<string>, byToken: map<string, seq<Listed>>)
    ensures Grouped(pools, tokens, byToken)
  {
    hide OfToken, Grouped, TokenOf;
    tokens, byToken := [], map[];
    var n := 0;
    GroupNone();
    while n < |pools|
      invariant n <= |pools| && Grouped(pools[..n], tokens, byToken)
    {
      assert pools[..n + 1] == pools[..n] + [pools[n]];
      GroupNext(pools[..n], pools[n], tokens, byToken);
      if TokenOf(pools[n]).Some? {
        var t := TokenOf(pools[n]).value;
        if t in byToken {
          byToken := byToken[t := byToken[t] + [pools[n]]];
        } else {
          byToken, tokens := byToken[t := [pools[n]]], tokens + [t];
        }
      }
      n := n + 1;
    }
    assert pools[..n] == pools;
  }

  lemma GroupNone()
    ensures Grouped([], [], map[])
  {
  }

  lemma GroupNext(pools: seq<Listed>, p: Listed, tokens: seq<string>, byToken: map<string, seq<Listed>>)
    requires Grouped(pools, tokens, byToken)
    ensures match TokenOf(p)
            case None => Grouped(pools + [p], tokens, byToken)
            case Some(t) => if t in byToken then Grouped(pools + [p], tokens, byToken[t := byToken[t] + [p]])
                            else Grouped(pools + [p], tokens + [t], byToken[t := [p]])
  {
    hide OfToken, TokenOf;
    forall t ensures OfToken(pools + [p], t) == OfToken(pools, t) + if TokenOf(p) == Some(t) then [p] else [] {
      OfTokenAppend(pools, p, t);
    }
  }

  // ----- one pool per address -----

  /** Map.set in insertion order: a later pool takes the place of the earlier one. */
  function Put(list: seq<Listed>, p: Listed): seq<Listed> {
    if list == [] then [p]
    else if list[0].address == p.address then [p] + list[1..]
    else [list[0]] + Put(list[1..], p)
  }

  ghost predicate Distinct(list: seq<Listed>) {
    forall i, j :: 0 <= i < j < |list| ==> list[i].address != list[j].address
  }

  /** The list holds exactly the latest pool of every address. */
  ghost predicate LatestEach(list: seq<Listed>, pools: seq<Listed>, token: string) {
    Distinct(list) && forall p :: p in list <==> Latest(pools, token, p.address) == Some(p)
  }

  lemma {:induction false} PutMembers(list: seq<Listed>, p: Listed)
    requires Distinct(list)
    ensures Distinct(Put(list, p))
    ensures forall q :: q in Put(list, p) <==> q == p || (q in list && q.address != p.address)
  {
    hide Distinct;
    if list == [] {
      ConsDistinct(p, []);
      assert Put(list, p) == [p] + [];
    } else {
      TailDistinct(list);
      PutMembers(list[1..], p);
      assert list == [list[0]] + list[1..];
      if list[0].address != p.address {
        ConsDistinct(list[0], Put(list[1..], p));
      } else {
        ConsDistinct(p, list[1..]);
      }
    }
  }

  lemma TailDistinct(list: seq<Listed>)
    requires Distinct(list) && list != []
    ensures Distinct(list[1..]) && forall q :: q in list[1..] ==> q.address != list[0].address
  {
  }

  lemma ConsDistinct(head: Listed, rest: seq<Listed>)
    requires (rest == [] || Distinct(rest)) && forall q :: q in rest ==> q.address != head.address
    ensures Distinct([head] + rest)
  {
  }

  method Unique(pools: seq<Listed>, token: string) returns (list: seq<Listed>)
    requires forall p :: p in pools ==> TokenOf(p) == Some(token)
    ensures LatestEach(list, pools, token)
  {
    hide TokenOf, Put;
    list := [];
    var n := 0;
    while n < |pools|
      invariant n <= |pools| && LatestEach(list, pools[..n], token)
    {
      assert pools[..n + 1] == pools[..n] + [pools[n]];
      PutMembers(list, pools[n]);
      forall address { LatestAppend(pools[..n], pools[n], token, address); }
      list := Put(list, pools[n]);
      n := n + 1;
    }
    assert pools[..n] == pools;
  }

  // ----- the pairs -----

  function RouteOf(token: string, a: Listed, b: Listed): Route { Route(token, a, b, a.adapter == b.adapter) }

  /** No two circuits join the same addresses of one token in the same order. */
  ghost predicate OncePerPair(out: seq<Route>) {
    forall i, j :: 0 <= i < j < |out| ==>
      !(out[i].token == out[j].token && out[i].poolA.address == out[j].poolA.address
          && out[i].poolB.address == out[j].poolB.address)
  }

  /** Pushes the pairs of pool `a` with every other pool of the list. */
  method PushPairs(before: seq<Route>, token: string, a: Listed, list: seq<Listed>) returns (out: seq<Route>)
    requires Distinct(list) && OncePerPair(before) && forall r :: r in before ==>
              r.token != token || r.poolA.address != a.address
    ensures OncePerPair(out)
    ensures forall r :: r in out <==> r in before || JoinsFrom(list, token, a, r)
  {
    out := before;
    var n := 0;
    while n < |list|
      invariant n <= |list| && OncePerPair(out)
      invariant forall r :: r in out <==>
                r in before || exists k :: 0 <= k < n && list[k].address != a.address && r == RouteOf(token, a, list[k])
    {
      if list[n].address != a.address {
        ghost var r := RouteOf(token, a, list[n]);
        AppendOnce(out, before, token, a, list, n);
        out := out + [RouteOf(token, a, list[n])];
      }
      n := n + 1;
    }
  }

  lemma AppendOnce(out: seq<Route>, before: seq<Route>, token: string, a: Listed, list: seq<Listed>, n: nat)
    requires n < |list| && Distinct(list) && OncePerPair(out)
    requires forall r :: r in before ==> r.token != token || r.poolA.address != a.address
    requires forall r :: r in out ==>
              r in before || exists k :: 0 <= k < n && list[k].address != a.address && r == RouteOf(token, a, list[k])
    ensures OncePerPair(out + [RouteOf(token, a, list[n])])
  {
    forall i | 0 <= i < |out|
      ensures out[i].token != token || out[i].poolA.address != a.address || out[i].poolB.address != list[n].address
    {
      assert out[i] in out;
    }
  }

  /** `r` joins two differently addressed pools of the list. */
  ghost predicate Joins(list: seq<Listed>, token: string, r: Route) {
    r.poolA in list && r.poolB in list && r.poolA.address != r.poolB.address && r == RouteOf(token, r.poolA, r.poolB)
  }

  /** The double loop over the unique pools of one token. */
  method PairsOfToken(before: seq<Route>, token: string, list: seq<Listed>) returns (out: seq<Route>)
    requires Distinct(list) && OncePerPair(before) && forall r :: r in before ==> r.token != token
    ensures OncePerPair(out)
    ensures forall r :: r in out <==> r in before || Joins(list, token, r)
  {
    hide OncePerPair;
    out := before;
    var n := 0;
    while n < |list|
      invariant n <= |list| && OncePerPair(out)
      invariant forall r :: r in out <==> r in before || (Joins(list, token, r) && r.poolA in list[..n])
    {
      ghost var start := out;
      assert list[..n + 1] == list[..n] + [list[n]];
      out := PushPairs(out, token, list[n], list);
      JoinsNext(list, token, n);
      n := n + 1;
    }
    assert list[..n] == list;
  }

  /** `r` joins the pool `a` to another of the list. */
  ghost predicate JoinsFrom(list: seq<Listed>, token: string, a: Listed, r: Route) {
    exists b :: b in list && b.address != a.address && r == RouteOf(token, a, b)
  }

  lemma JoinsNext(list: seq<Listed>, token: string, n: nat)
    requires n < |list|
    ensures forall r :: Joins(list, token, r) && r.poolA == list[n] <==> JoinsFrom(list, token, list[n], r)
  {
    forall r | Joins(list, token, r) && r.poolA == list[n] ensures JoinsFrom(list, token, list[n], r) {
      assert r == RouteOf(token, list[n], r.poolB);
    }
  }

  lemma JoinsIsCircuit(pools: seq<Listed>, token: string, list: seq<Listed>)
    requires LatestEach(list, OfToken(pools, token), token)
    ensures forall r :: Joins(list, token, r) <==> r.token == token && IsCircuit(pools, r)
  {
    hide OfToken, Latest;
    forall r ensures Joins(list, token, r) <==> r.token == token && IsCircuit(pools, r) {
      LatestOfToken(pools, token, r.poolA.address);
      LatestOfToken(pools, token, r.poolB.address);
    }
  }

  /** Exactly the ordered pairs of distinct pools sharing a token, each once. */
  method EnumerateCircuits(pools: seq<Listed>) returns (out: seq<Route>)
    ensures OncePerPair(out)
    ensures forall r :: r in out <==> IsCircuit(pools, r)
  {
    hide OncePerPair, IsCircuit, OfToken, Joins, LatestEach;
    var tokens, byToken := GroupByToken(pools);
    out := [];
    NothingTwice();
    var n := 0;
    while n < |tokens|
      invariant n <= |tokens| && OncePerPair(out)
      invariant forall r :: r in out <==> IsCircuit(pools, r) && r.token in tokens[..n]
    {
      var token := tokens[n];
      assert tokens[..n + 1] == tokens[..n] + [token];
      assert byToken[token] == OfToken(pools, token);
      LatestOfToken(pools, token, "");
      var list := Unique(byToken[token], token);
      JoinsIsCircuit(pools, token, list);
      DistinctOf(list, byToken[token], token);
      out := PairsOfToken(out, token, list);
      n := n + 1;
    }
    assert tokens[..n] == tokens;
    forall r | IsCircuit(pools, r) ensures r.token in tokens { CircuitHasToken(pools, r, tokens, byToken); }
  }

  lemma NothingTwice()
    ensures OncePerPair([])
  {
  }

  lemma DistinctOf(list: seq<Listed>, pools: seq<Listed>, token: string)
    requires LatestEach(list, pools, token)
    ensures Distinct(list)
  {
  }

  lemma CircuitHasToken(pools: seq<Listed>, r: Route, tokens: seq<string>, byToken: map<string, seq<Listed>>)
    requires IsCircuit(pools, r) && Grouped(pools, tokens, byToken)
    ensures r.token in tokens
  {
    hide OfToken;
    LatestOfToken(pools, r.token, r.poolA.address);
    NothingLatest(r.token, r.poolA.address);
  }

  lemma NothingLatest(token: string, address: string)
    ensures Latest([], token, address) == None
  {
  }
}
