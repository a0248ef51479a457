/** Route selection in src/swap/swap.service.ts. All tokens are on one chain, so a token is its address, and
    `sortsBefore` is the order of the addresses. */
module Swap {
  import opened Addresses
  import opened Arrays
  import opened MultiCall
  import opened BatchReads

  type TokenPair = (Address, Address)

  // ---------- currency combinations ----------

  predicate SamePair(p: TokenPair, q: TokenPair) {
    (p.0 == q.0 && p.1 == q.1) || (p.0 == q.1 && p.1 == q.0)
  }

  function FindIndex<T>(a: seq<T>, p: T -> bool): (i: int)
    ensures -1 <= i < |a|
    ensures i >= 0 ==> p(a[i])
    ensures forall k :: 0 <= k < (if i < 0 then |a| else i) ==> !p(a[k])
  {
    if a == [] then -1
    else if p(a[0]) then 0
    else
      var i := FindIndex(a[1..], p);
      if i < 0 then -1 else i + 1
  }

  /** The filter callback over the first n pairs: only the first occurrence of the same two tokens stays. */
  function FirstOccurrences(pairs: seq<TokenPair>, n: nat): seq<TokenPair>
    requires n <= |pairs|
  {
    if n == 0 then []
    else
      FirstOccurrences(pairs, n - 1)
      + if FindIndex(pairs, p => SamePair(pairs[n - 1], p)) == n - 1 then [pairs[n - 1]] else []
  }

  function Sorted(p: TokenPair): TokenPair { if p.0 < p.1 then p else (p.1, p.0) }

  function Candidates(tokenA: Address, tokenB: Address, commonPath: seq<Address>): seq<TokenPair> {
    var basePairs := Filter((p: TokenPair) => p.0 != p.1,
                            Flat(MapSeq(base => MapSeq(other => (base, other), commonPath), commonPath)));
    [(tokenA, tokenB)]
    + MapSeq(base => (tokenA, base), commonPath)
    + MapSeq(base => (tokenB, base), commonPath)
    + basePairs
  }

  function AllCurrencyCombinations(tokenA: Address, tokenB: Address, commonPath: seq<Address>): seq<TokenPair> {
    var pairs := Filter((p: TokenPair) => p.0 != p.1, Candidates(tokenA, tokenB, commonPath));
    MapSeq(p => Sorted(p), FirstOccurrences(pairs, |pairs|))
  }

  /** {A,B}, A with a base, B with a base, or two bases. */
  predicate Wanted(tokenA: Address, tokenB: Address, commonPath: seq<Address>, p: TokenPair) {
    || SamePair(p, (tokenA, tokenB))
    || (p.0 in [tokenA, tokenB] + commonPath && p.1 in commonPath)
    || (p.1 in [tokenA, tokenB] + commonPath && p.0 in commonPath)
  }

  /** For any base list, repeats and A or B included, the result holds exactly the wanted pairs of two different
      tokens, each once and sorted by address. */
  lemma CombinationsExact(tokenA: Address, tokenB: Address, commonPath: seq<Address>)
    ensures Distinct(AllCurrencyCombinations(tokenA, tokenB, commonPath))
    ensures forall p :: p in AllCurrencyCombinations(tokenA, tokenB, commonPath) <==>
                          p.0 < p.1 && Wanted(tokenA, tokenB, commonPath, p)
  {
    var all := Candidates(tokenA, tokenB, commonPath);
    FilterMembers((p: TokenPair) => p.0 != p.1, all);
    var pairs := Filter((p: TokenPair) => p.0 != p.1, all);
    forall p
      ensures p in AllCurrencyCombinations(tokenA, tokenB, commonPath) <==>
                p.0 < p.1 && Wanted(tokenA, tokenB, commonPath, p)
    {
      SortedFirsts(pairs, p);
      if p.0 != p.1 {
        CandidatesExact(tokenA, tokenB, commonPath, p);
      }
      hide Candidates, Wanted;
    }
    SortedFirstsDistinct(pairs);
  }

  /** There is no pair to ask for iff A is B and no base is another token; `getProtocolPairs` fails then, as it does
      on a chain without protocols. */
  lemma NoCombinationsIff(tokenA: Address, tokenB: Address, commonPath: seq<Address>)
    ensures AllCurrencyCombinations(tokenA, tokenB, commonPath) == []
       <==> tokenA == tokenB && forall i :: 0 <= i < |commonPath| ==> commonPath[i] == tokenA
  {
    CombinationsExact(tokenA, tokenB, commonPath);
    var all := AllCurrencyCombinations(tokenA, tokenB, commonPath);
    hide AllCurrencyCombinations;
    if tokenA != tokenB {
      assert Wanted(tokenA, tokenB, commonPath, Sorted((tokenA, tokenB)));
      assert Sorted((tokenA, tokenB)) in all;
    } else {
      if all != [] {
        var p := all[0];
        assert p in all;
        var other := if p.0 != tokenA then p.0 else p.1;
        assert other in commonPath;
        var i :| 0 <= i < |commonPath| && commonPath[i] == other;
      }
      if i :| 0 <= i < |commonPath| && commonPath[i] != tokenA {
        assert commonPath[i] in commonPath;
        var p := Sorted((tokenA, commonPath[i]));
        assert Wanted(tokenA, tokenB, commonPath, p);
        assert p in all;
      }
    }
  }

  /** Sorting the first occurrences gives the sorted versions of all pairs. */
  lemma SortedFirsts(pairs: seq<TokenPair>, p: TokenPair)
    requires forall q :: q in pairs ==> q.0 != q.1
    ensures p in MapSeq(q => Sorted(q), FirstOccurrences(pairs, |pairs|)) <==>
              p.0 < p.1 && (p in pairs || (p.1, p.0) in pairs)
  {
    var firsts := FirstOccurrences(pairs, |pairs|);
    var result := MapSeq(q => Sorted(q), firsts);
    FirstsFromPairs(pairs, |pairs|);
    assert pairs[..|pairs|] == pairs;
    hide FirstOccurrences;
    if p in result {
      var i :| 0 <= i < |result| && result[i] == p;
      assert Sorted(firsts[i]) == p && firsts[i] in pairs;
    }
    if p.0 < p.1 && (p in pairs || (p.1, p.0) in pairs) {
      var k :| 0 <= k < |pairs| && SamePair(pairs[k], p);
      FirstsCover(pairs, |pairs|, k);
      var i :| 0 <= i < |firsts| && SamePair(firsts[i], pairs[k]);
      SortedSame(firsts[i], pairs[k], p);
      assert result[i] == p;
    }
  }

  lemma SortedSame(a: TokenPair, b: TokenPair, p: TokenPair)
    requires SamePair(a, b) && SamePair(b, p) && p.0 < p.1
    ensures Sorted(a) == p
  {
    assert a.0 == p.0 || a.0 == p.1;
  }

  lemma SortedFirstsDistinct(pairs: seq<TokenPair>)
    ensures Distinct(MapSeq(q => Sorted(q), FirstOccurrences(pairs, |pairs|)))
  {
    var firsts := FirstOccurrences(pairs, |pairs|);
    FirstsDiffer(pairs, |pairs|);
    hide FirstOccurrences;
    forall i, j | 0 <= i < j < |firsts|
      ensures Sorted(firsts[i]) != Sorted(firsts[j])
    {
      assert !SamePair(firsts[i], firsts[j]);
    }
  }

  lemma CandidatesExact(tokenA: Address, tokenB: Address, commonPath: seq<Address>, p: TokenPair)
    requires p.0 != p.1
    ensures p in Candidates(tokenA, tokenB, commonPath) || (p.1, p.0) in Candidates(tokenA, tokenB, commonPath)
       <==> Wanted(tokenA, tokenB, commonPath, p)
  {
    MemberOfCandidates(tokenA, tokenB, commonPath, p);
    MemberOfCandidates(tokenA, tokenB, commonPath, (p.1, p.0));
  }

  lemma MemberOfCandidates(tokenA: Address, tokenB: Address, commonPath: seq<Address>, p: TokenPair)
    requires p.0 != p.1
    ensures p in Candidates(tokenA, tokenB, commonPath) <==>
              p == (tokenA, tokenB) || (p.0 in [tokenA, tokenB] + commonPath && p.1 in commonPath)
  {
    var grid := MapSeq(base => MapSeq(other => (base, other), commonPath), commonPath);
    FilterMembers((q: TokenPair) => q.0 != q.1, Flat(grid));
    FlatMembers(grid);
    MapMembers(commonPath, tokenA, p);
    MapMembers(commonPath, tokenB, p);
    if p.0 in commonPath && p.1 in commonPath {
      var i :| 0 <= i < |commonPath| && commonPath[i] == p.0;
      MapMembers(commonPath, p.0, p);
      assert p in grid[i];
    }
    if p in Flat(grid) {
      var i :| 0 <= i < |grid| && p in grid[i];
      MapMembers(commonPath, commonPath[i], p);
    }
  }

  lemma MapMembers(commonPath: seq<Address>, token: Address, p: TokenPair)
    ensures p in MapSeq(base => (token, base), commonPath) <==> p.0 == token && p.1 in commonPath
  {
    if p.0 == token && p.1 in commonPath {
      var i :| 0 <= i < |commonPath| && commonPath[i] == p.1;
      assert MapSeq(base => (token, base), commonPath)[i] == p;
    }
  }

  lemma {:induction false} FirstsFromPairs(pairs: seq<TokenPair>, n: nat)
    requires n <= |pairs|
    ensures forall p :: p in FirstOccurrences(pairs, n) ==> p in pairs[..n]
  {
    if n > 0 {
      FirstsFromPairs(pairs, n - 1);
      assert pairs[..n] == pairs[..n - 1] + [pairs[n - 1]];
    }
  }

  lemma {:induction false} FirstsCover(pairs: seq<TokenPair>, n: nat, k: nat)
    requires k < n <= |pairs|
    ensures exists i :: 0 <= i < |FirstOccurrences(pairs, n)| && SamePair(FirstOccurrences(pairs, n)[i], pairs[k])
    decreases n
  {
    var r, last := FirstOccurrences(pairs, n), pairs[n - 1];
    var before := FirstOccurrences(pairs, n - 1);
    var at := FindIndex(pairs, p => SamePair(last, p));
    assert SamePair(last, pairs[n - 1]) && 0 <= at <= n - 1;
    var source := if k < n - 1 then k else at;
    if source < n - 1 {
      FirstsCover(pairs, n - 1, source);
      var i :| 0 <= i < |before| && SamePair(before[i], pairs[source]);
      assert r[i] == before[i] && SamePair(r[i], pairs[k]);
    } else {
      assert r[|r| - 1] == last;
    }
  }

  lemma {:induction false} FirstsDiffer(pairs: seq<TokenPair>, n: nat)
    requires n <= |pairs|
    ensures forall i, j :: 0 <= i < j < |FirstOccurrences(pairs, n)| ==>
                             !SamePair(FirstOccurrences(pairs, n)[i], FirstOccurrences(pairs, n)[j])
  {
    if n > 0 {
      FirstsDiffer(pairs, n - 1);
      var before, last := FirstOccurrences(pairs, n - 1), pairs[n - 1];
      FirstsFromPairs(pairs, n - 1);
      forall i | 0 <= i < |before| && FindIndex(pairs, p => SamePair(last, p)) == n - 1
        ensures !SamePair(before[i], last)
      {
        assert before[i] in pairs[..n - 1];
        var k :| 0 <= k < n - 1 && pairs[k] == before[i];
        assert !SamePair(last, pairs[k]);
      }
    }
  }

  // ---------- pools of every protocol ----------

  datatype Protocol = Protocol(id: nat, ammFactoryAddress: Address, ammFactoryInitCodeHash: Bytes)
  datatype Pool = Pool(token0: Address, reserve0: nat, token1: Address, reserve1: nat)

  /** CREATE2 address derivation and the reserves decoder are parameters. */
  datatype Deployment = Deployment(
    create2: (Address, Address, Address, Bytes) -> Address,
    getReserves: Bytes,
    decodeReserves: Bytes -> (nat, nat))

  function ComputePairAddress(d: Deployment, protocol: Protocol, tokenA: Address, tokenB: Address): Address {
    var (token0, token1) := if tokenA < tokenB then (tokenA, tokenB) else (tokenB, tokenA);
    d.create2(protocol.ammFactoryAddress, token0, token1, protocol.ammFactoryInitCodeHash)
  }

  function ReservesCall(d: Deployment, protocol: Protocol, p: TokenPair): Call {
    Call(ComputePairAddress(d, protocol, p.0, p.1), d.getReserves)
  }

  predicate Readable(r: Response) { r.success && r.returnData != [] }

  /** The pool of one protocol and one pair of tokens, read with its own call. */
  function PoolOf(chain: Call -> Response, d: Deployment, protocol: Protocol, p: TokenPair): Option<Pool> {
    var r := chain(ReservesCall(d, protocol, p));
    if Readable(r) then
      var (reserve0, reserve1) := d.decodeReserves(r.returnData);
      Some(Pool(p.0, reserve0, p.1, reserve1))
    else None
  }

  function PoolsOf(chain: Call -> Response, d: Deployment, protocol: Protocol, tokens: seq<TokenPair>): seq<Pool> {
    if tokens == [] then []
    else
      var last := PoolOf(chain, d, protocol, tokens[|tokens| - 1]);
      PoolsOf(chain, d, protocol, tokens[..|tokens| - 1]) + if last.Some? then [last.value] else []
  }

  /** `getProtocolPairs`. `registered` is the entry of the chain in the map of protocols, which holds no empty list.
      None is a TypeError: the chain has no entry, or there is no pair of tokens to ask for, because nothing can be
      cut into pieces of size 0. Otherwise every protocol gets exactly the pools that reading its own pairs one by
      one gives. */
  method GetProtocolPairs(chain: Call -> Response, d: Deployment, registered: Option<seq<Protocol>>,
                          tokens: seq<TokenPair>)
    returns (r: Option<seq<(Protocol, seq<Pool>)>>)
    requires registered.Some? ==> registered.value != []
    ensures r.None? <==> registered.None? || tokens == []
    ensures r.Some? ==> |r.value| == |registered.value|
                        && forall i :: 0 <= i < |r.value| ==>
                                         r.value[i] == (registered.value[i],
                                                        PoolsOf(chain, d, registered.value[i], tokens))
  {
    if registered.None? || tokens == [] {
      return None;
    }
    var protocols := registered.value;
    var calls := seq(|protocols|, i requires 0 <= i < |protocols| =>
                                         MapSeq(p => ReservesCall(d, protocols[i], p), tokens));
    var reserves := ReadInGroups(chain, calls, |tokens|);
    var result: seq<(Protocol, seq<Pool>)> := [];
    for protocolIndex := 0 to |protocols|
      invariant |result| == protocolIndex
      invariant forall i :: 0 <= i < protocolIndex ==>
                              result[i] == (protocols[i], PoolsOf(chain, d, protocols[i], tokens))
    {
      var pairs: seq<Pool> := [];
      for index := 0 to |tokens|
        invariant pairs == PoolsOf(chain, d, protocols[protocolIndex], tokens[..index])
      {
        assert tokens[..index + 1][..index] == tokens[..index];
        var response := reserves[protocolIndex][index];
        if Readable(response) {
          var (reserve0, reserve1) := d.decodeReserves(response.returnData);
          pairs := pairs + [Pool(tokens[index].0, reserve0, tokens[index].1, reserve1)];
        }
      }
      assert tokens[..|tokens|] == tokens;
      result := result + [(protocols[protocolIndex], pairs)];
    }
    return Some(result);
  }

  /** The pool belongs to the pair p of its own protocol: reserve0 is the first word of that pair's answer and
      goes to the lower-sorted token, the one the pair contract itself calls token0. */
  ghost predicate Belongs(chain: Call -> Response, d: Deployment, protocol: Protocol, p: TokenPair, pool: Pool) {
    var pair := d.create2(protocol.ammFactoryAddress, pool.token0, pool.token1, protocol.ammFactoryInitCodeHash);
    && pool.token0 == p.0 && pool.token1 == p.1 && pool.token0 < pool.token1
    && (pool.reserve0, pool.reserve1) == d.decodeReserves(chain(Call(pair, d.getReserves)).returnData)
  }

  /** The pair contract of two sorted tokens answers with data. */
  predicate Answers(chain: Call -> Response, d: Deployment, protocol: Protocol, p: TokenPair) {
    var pair := d.create2(protocol.ammFactoryAddress, p.0, p.1, protocol.ammFactoryInitCodeHash);
    chain(Call(pair, d.getReserves)).success && chain(Call(pair, d.getReserves)).returnData != []
  }

  lemma PoolBelongs(chain: Call -> Response, d: Deployment, protocol: Protocol, p: TokenPair)
    requires p.0 < p.1
    ensures PoolOf(chain, d, protocol, p).Some? <==> Answers(chain, d, protocol, p)
    ensures PoolOf(chain, d, protocol, p).Some? ==> Belongs(chain, d, protocol, p, PoolOf(chain, d, protocol, p).value)
  {
  }

  /** Behind the pools of a protocol there are strictly increasing positions, one for each readable pair and no
      other, and every pool belongs to the pair at its position. */
  lemma {:induction false} PoolsKeepTheirPair(
    chain: Call -> Response, d: Deployment, protocol: Protocol, tokens: seq<TokenPair>)
    returns (at: seq<nat>)
    requires forall i :: 0 <= i < |tokens| ==> tokens[i].0 < tokens[i].1
    ensures |at| == |PoolsOf(chain, d, protocol, tokens)| && Ascending(at)
    ensures forall i :: i in at <==> 0 <= i < |tokens| && Answers(chain, d, protocol, tokens[i])
    ensures forall k :: 0 <= k < |at| ==> at[k] < |tokens|
    ensures forall k :: 0 <= k < |at| ==>
                          Belongs(chain, d, protocol, tokens[at[k]], PoolsOf(chain, d, protocol, tokens)[k])
  {
    hide PoolOf, Answers, Belongs, PoolsOf;
    at := [];
    if tokens == [] {
      NoPools(chain, d, protocol);
    } else {
      var n := |tokens| - 1;
      at := PoolsKeepTheirPair(chain, d, protocol, tokens[..n]);
      assert forall i :: 0 <= i < n ==> tokens[..n][i] == tokens[i];
      assert forall k :: 0 <= k < |at| ==> at[k] in at && at[k] < n;
      PoolBelongs(chain, d, protocol, tokens[n]);
      PoolsNext(chain, d, protocol, tokens);
      if PoolOf(chain, d, protocol, tokens[n]).Some? {
        var earlier := at;
        at := earlier + [n];
        assert forall i :: i in at <==> i in earlier || i == n;
      }
    }
  }

  lemma NoPools(chain: Call -> Response, d: Deployment, protocol: Protocol)
    ensures PoolsOf(chain, d, protocol, []) == []
  {
  }

  lemma PoolsNext(chain: Call -> Response, d: Deployment, protocol: Protocol, tokens: seq<TokenPair>)
    requires tokens != []
    ensures var last := PoolOf(chain, d, protocol, tokens[|tokens| - 1]);
            PoolsOf(chain, d, protocol, tokens)
            == PoolsOf(chain, d, protocol, tokens[..|tokens| - 1]) + if last.Some? then [last.value] else []
  {
  }

  // ---------- best trade ----------

  /** A candidate trade; the library that finds it per hop count is not modelled. */
  datatype Trade = Trade(executionPrice: real, route: nat)

  const MINIMUM_DELTA: real := 0.005 // Percent('50', '10000')

  function IsTradeBetter(tradeA: Option<Trade>, tradeB: Option<Trade>): bool {
    if tradeA.Some? && tradeB.None? then false
    else if tradeB.Some? && tradeA.None? then true
    else if tradeA.None? || tradeB.None? then false
    else tradeA.value.executionPrice * (MINIMUM_DELTA + 1.0) < tradeB.value.executionPrice
  }

  /** Which candidate wins: the position of the last one that beat the best before it by more than 0.5%. */
  function BestIndex(candidates: seq<Option<Trade>>): (i: int)
    ensures -1 <= i < |candidates|
    ensures i >= 0 ==> candidates[i].Some?
  {
    if candidates == [] then -1
    else
      var n := |candidates| - 1;
      var i := BestIndex(candidates[..n]);
      if IsTradeBetter(if i < 0 then None else candidates[i], candidates[n]) then n else i
  }

  /** `getBestTrade`, for any number of hop levels. */
  method GetBestTrade(candidates: seq<Option<Trade>>) returns (bestTrade: Option<Trade>)
    ensures bestTrade == Choice(candidates)
  {
    bestTrade := None;
    for i := 0 to |candidates|
      invariant bestTrade == Choice(candidates[..i])
    {
      assert candidates[..i + 1][..i] == candidates[..i];
      if IsTradeBetter(bestTrade, candidates[i]) {
        bestTrade := candidates[i];
      }
    }
    assert candidates[..|candidates|] == candidates;
  }

  /** Nothing is chosen iff there is no candidate; the choice is strictly better than every earlier candidate,
      and no candidate is better than it by more than the factor 1.005. */
  lemma {:induction false} BestTradeIsGoodEnough(candidates: seq<Option<Trade>>)
    requires forall i :: 0 <= i < |candidates| && candidates[i].Some? ==> candidates[i].value.executionPrice >= 0.0
    ensures BestIndex(candidates) < 0 <==> forall i :: 0 <= i < |candidates| ==> candidates[i].None?
    ensures var best := BestIndex(candidates);
            best >= 0 ==>
              && (forall i :: 0 <= i < best && candidates[i].Some? ==>
                                candidates[i].value.executionPrice < candidates[best].value.executionPrice)
              && (forall i :: 0 <= i < |candidates| && candidates[i].Some? ==>
                                candidates[i].value.executionPrice <= 1.005 * candidates[best].value.executionPrice)
  {
    if candidates != [] {
      var n := |candidates| - 1;
      BestTradeIsGoodEnough(candidates[..n]);
      assert forall i :: 0 <= i < n ==> candidates[..n][i] == candidates[i];
      var before, best := BestIndex(candidates[..n]), BestIndex(candidates);
      if best == n && before >= 0 {
        assert candidates[before].value.executionPrice * 1.005 < candidates[n].value.executionPrice;
      }
    }
  }

  function Choice(candidates: seq<Option<Trade>>): (t: Option<Trade>)
    ensures t.Some? ==> t in candidates
  {
    if BestIndex(candidates) < 0 then None else candidates[BestIndex(candidates)]
  }

  /** k is the first candidate of the highest price. */
  ghost predicate FirstHighest(candidates: seq<Option<Trade>>, k: nat) {
    && k < |candidates| && candidates[k].Some?
    && (forall i :: 0 <= i < |candidates| && candidates[i].Some? ==>
                      candidates[i].value.executionPrice <= candidates[k].value.executionPrice)
    && (forall i :: 0 <= i < k && candidates[i].Some? ==>
                      candidates[i].value.executionPrice < candidates[k].value.executionPrice)
  }

  /** The choice has the highest price iff the first candidate of that price beats, by more than 0.5%, what was
      chosen among the candidates before it. */
  lemma {:induction false} HighestChosenIff(candidates: seq<Option<Trade>>, k: nat)
    requires forall i :: 0 <= i < |candidates| && candidates[i].Some? ==> candidates[i].value.executionPrice >= 0.0
    requires FirstHighest(candidates, k)
    ensures Choice(candidates).Some?
    ensures Choice(candidates).value.executionPrice == candidates[k].value.executionPrice
       <==> Choice(candidates[..k]).None?
            || 1.005 * Choice(candidates[..k]).value.executionPrice < candidates[k].value.executionPrice
  {
    var n := |candidates| - 1;
    var init := candidates[..n];
    assert forall i :: 0 <= i < n ==> init[i] == candidates[i];
    BestTradeIsGoodEnough(candidates);
    if k < n {
      HighestChosenIff(init, k);
      assert init[..k] == candidates[..k];
    }
  }

  /** The rule by which each hop level is judged: a candidate is taken iff nothing was chosen before, or its price is
      more than 1.005 times the price chosen before; otherwise the choice stays. */
  lemma ChoiceExactly(candidates: seq<Option<Trade>>, n: nat)
    requires n < |candidates|
    ensures Choice([]) == None
    ensures var before, now := Choice(candidates[..n]), Choice(candidates[..n + 1]);
            now == if candidates[n].Some?
                      && (before.None? || 1.005 * before.value.executionPrice < candidates[n].value.executionPrice)
                   then candidates[n] else before
  {
    assert candidates[..n + 1][..n] == candidates[..n] && candidates[..n + 1][n] == candidates[n];
  }

  /** Three hop levels whose prices never fall, and the best one is not taken: 1004 beats 1000 by less than 0.5%. */
  lemma BestTradeNeedNotBeMaximal()
    ensures var candidates := [Some(Trade(1000.0, 0)), Some(Trade(1004.0, 1)), Some(Trade(1004.0, 1))];
            FirstHighest(candidates, 1) && Choice(candidates) == Some(Trade(1000.0, 0))
  {
    var a, b := Some(Trade(1000.0, 0)), Some(Trade(1004.0, 1));
    var candidates := [a, b, b];
    assert candidates[..2] == [a, b] && [a, b][..1] == [a];
    assert BestIndex([a]) == 0;
    assert BestIndex([a, b]) == 0;
  }
}
