/** One chunk of the pair job: `doTask` of src/scheduler-job/template/pair.template.ts.
    Addresses are canonical values, and the network is fixed. */
module PairPipeline {
  import opened Addresses
  import opened Arrays

  const UNKNOWN_STRING := "UNKNOWN"

  datatype Kind = SINGLE | MULTI | NATIVE

  /** A token row; pair0 and pair1 are the ids of the rows it is composed of. */
  datatype Row = Row(
    id: nat, address: Address, kind: Kind, name: string, symbol: string, decimals: nat,
    pair0: Option<nat>, pair1: Option<nat>, status: bool)

  /** The token table, by its unique key. */
  type Table = map<Address, Row>

  /** What a pair contract answers forever: its two tokens, zero for a contract that is no pair. */
  datatype Code = Code(token0: Address -> Address, token1: Address -> Address)

  datatype Info = Info(name: string, symbol: string, decimals: nat)

  datatype Params = Params(
    address: Address, kind: Kind, name: string, symbol: string, decimals: nat,
    pair0: Option<nat>, pair1: Option<nat>, status: bool)

  // ---------- the table ----------

  function NewRow(p: Params, id: nat): Row {
    Row(id, p.address, p.kind, p.name, p.symbol, p.decimals, p.pair0, p.pair1, p.status)
  }

  /** Insert or ignore: rows whose key is taken are dropped; every row of the statement draws an id. */
  function InsertAll(committed: Table, staged: Table, params: seq<Params>, nextId: nat): Table {
    if params == [] then staged
    else
      var n := |params| - 1;
      var before := InsertAll(committed, staged, params[..n], nextId);
      if params[n].address in committed || params[n].address in before then before
      else before[params[n].address := NewRow(params[n], nextId + n)]
  }

  predicate Extends(t: Table, t': Table) {
    forall a :: a in t ==> a in t' && t'[a] == t[a]
  }

  /** A row is filed under its address, and a MULTI row refers to the rows of the two tokens its own contract
      names, both with smaller ids. */
  predicate RowFits(c: Code, t: Table, a: Address)
    requires a in t
  {
    && t[a].address == a
    && (t[a].kind == MULTI ==> Refers(c, t, a, t[a].pair0, t[a].pair1, t[a].id))
  }

  predicate Refers(c: Code, t: Table, a: Address, pair0: Option<nat>, pair1: Option<nat>, below: nat) {
    && c.token0(a) in t && c.token1(a) in t
    && pair0 == Some(t[c.token0(a)].id) && pair1 == Some(t[c.token1(a)].id)
    && t[c.token0(a)].id < below && t[c.token1(a)].id < below
  }

  ghost predicate Fits(c: Code, t: Table) {
    forall a :: a in t ==> RowFits(c, t, a)
  }

  predicate IdsBelow(t: Table, n: nat) {
    forall a :: a in t ==> t[a].id < n
  }

  /** Parameters of an insert: MULTI ones already refer to rows that are there. */
  predicate ParamsFit(c: Code, t: Table, params: seq<Params>, nextId: nat) {
    forall i :: 0 <= i < |params| && params[i].kind == MULTI ==>
                  Refers(c, t, params[i].address, params[i].pair0, params[i].pair1, nextId)
  }

  /** The row under a was written by this statement. */
  ghost predicate Written(params: seq<Params>, nextId: nat, a: Address, row: Row) {
    exists i :: 0 <= i < |params| && params[i].address == a && row == NewRow(params[i], nextId + i)
  }

  /** The statement keeps what is staged, writes only its own rows under free keys, and leaves no key of its own
      without a row. */
  lemma {:induction false} InsertAllExact(committed: Table, staged: Table, params: seq<Params>, nextId: nat)
    ensures var r := InsertAll(committed, staged, params, nextId);
            && Extends(staged, r)
            && (forall a :: a in r && a !in staged ==> a !in committed && Written(params, nextId, a, r[a]))
            && (forall i :: 0 <= i < |params| ==> params[i].address in committed || params[i].address in r)
  {
    if params != [] {
      var n := |params| - 1;
      InsertAllExact(committed, staged, params[..n], nextId);
      var before, r := InsertAll(committed, staged, params[..n], nextId), InsertAll(committed, staged, params, nextId);
      assert forall i :: 0 <= i < n ==> params[..n][i] == params[i];
      forall a | a in r && a !in staged
        ensures a !in committed && Written(params, nextId, a, r[a])
      {
        if a in before {
          WrittenEarlier(params, nextId, a, before[a]);
        } else {
          assert params[n].address == a && r[a] == NewRow(params[n], nextId + n);
        }
      }
    }
  }

  lemma WrittenEarlier(params: seq<Params>, nextId: nat, a: Address, row: Row)
    requires params != [] && Written(params[..|params| - 1], nextId, a, row)
    ensures Written(params, nextId, a, row)
  {
    var init := params[..|params| - 1];
    var i :| 0 <= i < |init| && init[i].address == a && row == NewRow(init[i], nextId + i);
    assert params[i] == init[i];
  }

  lemma InsertAllIds(committed: Table, staged: Table, params: seq<Params>, nextId: nat)
    requires IdsBelow(staged, nextId)
    ensures IdsBelow(InsertAll(committed, staged, params, nextId), nextId + |params|)
  {
    InsertAllExact(committed, staged, params, nextId);
  }

  /** Inserting rows that refer to rows already there keeps every row well-formed. */
  lemma InsertAllFits(c: Code, committed: Table, staged: Table, params: seq<Params>, nextId: nat)
    requires Fits(c, committed + staged) && ParamsFit(c, committed + staged, params, nextId)
    requires forall a :: a in staged ==> a !in committed
    ensures var r := InsertAll(committed, staged, params, nextId);
            && Fits(c, committed + r)
            && Extends(committed + staged, committed + r)
            && forall a :: a in r ==> a !in committed
  {
    var r := InsertAll(committed, staged, params, nextId);
    InsertAllExact(committed, staged, params, nextId);
    var t, t' := committed + staged, committed + r;
    assert Extends(t, t');
    forall a | a in t'
      ensures RowFits(c, t', a)
    {
      if a in t {
        assert RowFits(c, t, a);
      } else {
        var i :| 0 <= i < |params| && params[i].address == a && r[a] == NewRow(params[i], nextId + i);
      }
    }
  }

  // ---------- grouping and classification ----------

  datatype PairInfo = PairInfo(pair: Address, token0: Address, token1: Address)

  function Composed(c: Code, pairs: seq<Address>): (r: seq<PairInfo>)
    ensures |r| == |pairs|
    ensures forall i :: 0 <= i < |r| ==> r[i] == PairInfo(pairs[i], c.token0(pairs[i]), c.token1(pairs[i]))
  {
    seq(|pairs|, i requires 0 <= i < |pairs| => PairInfo(pairs[i], c.token0(pairs[i]), c.token1(pairs[i])))
  }

  function Singles(infos: seq<PairInfo>): seq<Address> {
    if infos == [] then []
    else Singles(infos[..|infos| - 1]) + [infos[|infos| - 1].token0, infos[|infos| - 1].token1]
  }

  lemma {:induction false} SinglesMembers(infos: seq<PairInfo>)
    ensures forall a :: a in Singles(infos) <==>
                          exists i :: 0 <= i < |infos| && (a == infos[i].token0 || a == infos[i].token1)
  {
    if infos != [] {
      var n := |infos| - 1;
      SinglesMembers(infos[..n]);
      assert forall i :: 0 <= i < n ==> infos[..n][i] == infos[i];
      forall a
        ensures a in Singles(infos) <==> exists i :: 0 <= i < |infos| && (a == infos[i].token0 || a == infos[i].token1)
      {
        if a in Singles(infos[..n]) {
          var i :| 0 <= i < n && (a == infos[..n][i].token0 || a == infos[..n][i].token1);
          assert a == infos[i].token0 || a == infos[i].token1;
        }
        if i :| 0 <= i < |infos| && (a == infos[i].token0 || a == infos[i].token1) {
          if i < n {
            assert a == infos[..n][i].token0 || a == infos[..n][i].token1;
          }
        }
      }
    }
  }

  /** `grouping`. */
  method Grouping(pairInfos: seq<PairInfo>) returns (multis: seq<Address>, singles: seq<Address>)
    ensures multis == Unique(MapSeq((p: PairInfo) => p.pair, pairInfos))
    ensures singles == Unique(Singles(pairInfos))
  {
    var multi: seq<Address>, single: seq<Address> := [], [];
    for i := 0 to |pairInfos|
      invariant multi == MapSeq((p: PairInfo) => p.pair, pairInfos[..i])
      invariant single == Singles(pairInfos[..i])
    {
      assert pairInfos[..i + 1][..i] == pairInfos[..i];
      multi := multi + [pairInfos[i].pair];
      single := single + [pairInfos[i].token0];
      single := single + [pairInfos[i].token1];
    }
    assert pairInfos[..|pairInfos|] == pairInfos;
    return Unique(multi), Unique(single);
  }

  /** `removeRegisteredTokens`, for one of its two lists. */
  function RemoveRegistered(registered: set<Address>, addresses: seq<Address>): seq<Address> {
    Filter(a => a !in registered, addresses)
  }

  function NewMultis(c: Code, pairs: seq<Address>, registered: set<Address>): seq<Address> {
    RemoveRegistered(registered, Unique(MapSeq((p: PairInfo) => p.pair, Composed(c, pairs))))
  }

  function NewSingles(c: Code, pairs: seq<Address>, registered: set<Address>): seq<Address> {
    RemoveRegistered(registered, Unique(Singles(Composed(c, pairs))))
  }

  predicate IsLp(c: Code, a: Address) { c.token0(a) != ZERO_ADDRESS || c.token1(a) != ZERO_ADDRESS }

  /** The single positions that are left to classify once the chunk's own new pairs are taken out. */
  function Remaining(newMultis: seq<Address>, newSingles: seq<Address>): seq<Address> {
    Filter(a => a !in newMultis, newSingles)
  }

  function Uncoded(contracts: set<Address>, singles: seq<Address>): seq<Address> {
    Filter(a => a !in contracts, singles)
  }

  function Coded(contracts: set<Address>, singles: seq<Address>): seq<Address> {
    Filter(a => a in contracts, singles)
  }

  function Pure(c: Code, coded: seq<Address>): seq<Address> {
    Filter(a => !IsLp(c, a), coded)
  }

  function LpInSinglePosition(c: Code, coded: seq<Address>): seq<Address> {
    Filter(a => IsLp(c, a), coded)
  }

  /** `removeInvalidTokens` after `removeRegisteredTokens`: addresses without code are collected on the side. */
  method RemoveInvalidTokens(contracts: set<Address>, newMultis: seq<Address>, newSingles: seq<Address>)
    returns (valid: seq<Address>, invalid: seq<Address>)
    ensures valid == Coded(contracts, Remaining(newMultis, newSingles))
    ensures invalid == Uncoded(contracts, Remaining(newMultis, newSingles))
  {
    var singles := Remaining(newMultis, newSingles);
    valid, invalid := [], [];
    for i := 0 to |singles|
      invariant valid == Coded(contracts, singles[..i])
      invariant invalid == Uncoded(contracts, singles[..i])
    {
      assert singles[..i + 1] == singles[..i] + [singles[i]];
      FilterAppend(a => a in contracts, singles[..i], [singles[i]]);
      FilterAppend(a => a !in contracts, singles[..i], [singles[i]]);
      if singles[i] in contracts {
        valid := valid + [singles[i]];
      } else {
        invalid := invalid + [singles[i]];
      }
    }
    assert singles[..|singles|] == singles;
  }

  /** `checkMultiTokenInSinglePosition`, when its reads succeed: pair contracts in single position join the
      invalid ones. */
  method CheckMultiTokenInSinglePosition(c: Code, singles: seq<Address>, invalidSingles: seq<Address>)
    returns (pure: seq<Address>, invalid: seq<Address>)
    ensures pure == Pure(c, singles)
    ensures invalid == invalidSingles + LpInSinglePosition(c, singles)
  {
    pure, invalid := [], invalidSingles;
    for i := 0 to |singles|
      invariant pure == Pure(c, singles[..i])
      invariant invalid == invalidSingles + LpInSinglePosition(c, singles[..i])
    {
      assert singles[..i + 1] == singles[..i] + [singles[i]];
      FilterAppend(a => !IsLp(c, a), singles[..i], [singles[i]]);
      FilterAppend(a => IsLp(c, a), singles[..i], [singles[i]]);
      if c.token0(singles[i]) == ZERO_ADDRESS && c.token1(singles[i]) == ZERO_ADDRESS {
        pure := pure + [singles[i]];
      } else {
        invalid := invalid + [singles[i]];
      }
    }
    assert singles[..|singles|] == singles;
  }

  /** The new singles are partitioned: every one is, exactly once and in exactly one way, also a new pair of the
      chunk, without code, a pair contract in single position, or pure. */
  lemma SinglesPartitioned(
    c: Code, contracts: set<Address>, newMultis: seq<Address>, newSingles: seq<Address>, a: Address)
    requires Distinct(newSingles)
    ensures var rest := Remaining(newMultis, newSingles);
            var uncoded, coded := Uncoded(contracts, rest), Coded(contracts, rest);
            var lp, pure := LpInSinglePosition(c, coded), Pure(c, coded);
            && (a in newSingles <==> (a in newSingles && a in newMultis) || a in uncoded || a in lp || a in pure)
            && (a in newMultis ==> a !in uncoded && a !in lp && a !in pure)
            && !(a in uncoded && a in lp) && !(a in uncoded && a in pure) && !(a in lp && a in pure)
            && Distinct(uncoded) && Distinct(lp) && Distinct(pure)
            && (a in uncoded ==> a !in contracts) && (a in lp ==> a in contracts && IsLp(c, a))
            && (a in pure ==> a in contracts && !IsLp(c, a))
  {
    var rest := Remaining(newMultis, newSingles);
    var coded := Coded(contracts, rest);
    FilterMembers(x => x !in newMultis, newSingles);
    FilterMembers(x => x !in contracts, rest);
    FilterMembers(x => x in contracts, rest);
    FilterMembers(x => IsLp(c, x), coded);
    FilterMembers(x => !IsLp(c, x), coded);
  }

  // ---------- creating rows ----------

  function Known(i: Info): bool { i.name != UNKNOWN_STRING && i.symbol != UNKNOWN_STRING }

  function SingleParams(singles: seq<Address>, infos: Address -> Info): (r: seq<Params>)
    ensures |r| == |singles|
    ensures forall i :: 0 <= i < |r| ==> r[i].address == singles[i] && r[i].kind == SINGLE
  {
    seq(|singles|, i requires 0 <= i < |singles| =>
          var info := infos(singles[i]);
          Params(singles[i], SINGLE, info.name, info.symbol, info.decimals, None, None, Known(info)))
  }

  /** What the two lookups of one pair answered. */
  datatype Lookup = Lookup(row0: Option<Row>, row1: Option<Row>)

  function MultiParams(a: Address, info: Info, l: Lookup): Params
    requires l.row0.Some? && l.row1.Some?
  {
    Params(a, MULTI, info.name, l.row0.value.symbol + "-" + l.row1.value.symbol, info.decimals,
           Some(l.row0.value.id), Some(l.row1.value.id), Known(info))
  }

  predicate HasInvalid(c: Code, invalid: seq<Address>, a: Address) {
    c.token0(a) in invalid || c.token1(a) in invalid
  }

  /** The first pass: rows to insert, and pairs put off because a component has no row yet. */
  function PassOne(c: Code, infos: Address -> Info, invalid: seq<Address>, multis: seq<Address>, lookups: seq<Lookup>)
    : (seq<Params>, seq<Address>)
    requires |lookups| == |multis|
  {
    if multis == [] then ([], [])
    else
      var n := |multis| - 1;
      var (bulk, later) := PassOne(c, infos, invalid, multis[..n], lookups[..n]);
      var a, l := multis[n], lookups[n];
      if HasInvalid(c, invalid, a) then (bulk, later)
      else if l.row0.None? || l.row1.None? then (bulk, later + [a])
      else if l.row0.value.status && l.row1.value.status then (bulk + [MultiParams(a, infos(a), l)], later)
      else (bulk, later)
  }

  /** Reading `status` of a missing row throws; the second row is only looked at when the first is active. */
  predicate Throws(l: Lookup) {
    l.row0.None? || (l.row0.value.status && l.row1.None?)
  }

  /** The second pass, over the pairs put off; None: it throws. */
  function PassTwo(c: Code, infos: Address -> Info, later: seq<Address>, lookups: seq<Lookup>): Option<seq<Params>>
    requires |lookups| == |later|
  {
    if later == [] then Some([])
    else
      var n := |later| - 1;
      var bulk, l := PassTwo(c, infos, later[..n], lookups[..n]), lookups[n];
      if bulk.None? || Throws(l) then None
      else if l.row0.value.status && l.row1.value.status
      then Some(bulk.value + [MultiParams(later[n], infos(later[n]), l)])
      else bulk
  }

  /** A lookup tells the truth about a table: a row it returns is there. It may miss rows. */
  predicate Sound(c: Code, t: Table, a: Address, l: Lookup) {
    && (l.row0.Some? ==> c.token0(a) in t && t[c.token0(a)] == l.row0.value)
    && (l.row1.Some? ==> c.token1(a) in t && t[c.token1(a)] == l.row1.value)
  }

  predicate AllSound(c: Code, t: Table, multis: seq<Address>, lookups: seq<Lookup>) {
    |lookups| == |multis| && forall i :: 0 <= i < |multis| ==> Sound(c, t, multis[i], lookups[i])
  }

  predicate InactiveComponent(c: Code, t: Table, a: Address) {
    (c.token0(a) in t && !t[c.token0(a)].status) || (c.token1(a) in t && !t[c.token1(a)].status)
  }

  predicate InParams(params: seq<Params>, a: Address) {
    exists i :: 0 <= i < |params| && params[i].address == a
  }

  /** Where a new pair can be: a row, dropped for an invalid or an inactive component, about to be inserted, put off. */
  predicate Handled(c: Code, t: Table, invalid: seq<Address>, bulk: seq<Params>, later: seq<Address>, a: Address) {
    a in t || HasInvalid(c, invalid, a) || InactiveComponent(c, t, a) || InParams(bulk, a) || a in later
  }

  lemma {:induction false} PassOneExact(c: Code, t: Table, nextId: nat, infos: Address -> Info,
                                        invalid: seq<Address>, multis: seq<Address>, lookups: seq<Lookup>)
    requires AllSound(c, t, multis, lookups) && IdsBelow(t, nextId)
    ensures var (bulk, later) := PassOne(c, infos, invalid, multis, lookups);
            && ParamsFit(c, t, bulk, nextId)
            && (forall i :: 0 <= i < |multis| ==> Handled(c, t, invalid, bulk, later, multis[i]))
            && (forall a :: a in later ==> a in multis && !HasInvalid(c, invalid, a))
            && (forall i :: 0 <= i < |bulk| ==> bulk[i].kind == MULTI && bulk[i].address in multis)
  {
    if multis != [] {
      var n := |multis| - 1;
      PassOneExact(c, t, nextId, infos, invalid, multis[..n], lookups[..n]);
      var (bulk0, later0) := PassOne(c, infos, invalid, multis[..n], lookups[..n]);
      var (bulk, later) := PassOne(c, infos, invalid, multis, lookups);
      forall i | 0 <= i < |multis|
        ensures Handled(c, t, invalid, bulk, later, multis[i])
      {
        if i < n {
          assert Handled(c, t, invalid, bulk0, later0, multis[..n][i]);
          InParamsKept(bulk0, bulk);
          StillHandled(c, t, t, invalid, bulk0, bulk, later0, later, multis[i]);
        } else if bulk != bulk0 {
          assert bulk[|bulk| - 1].address == multis[n];
        }
      }
    }
  }

  lemma InParamsKept(bulk: seq<Params>, bulk': seq<Params>)
    requires bulk <= bulk'
    ensures forall a :: InParams(bulk, a) ==> InParams(bulk', a)
  {
    forall a | InParams(bulk, a)
      ensures InParams(bulk', a)
    {
      var i :| 0 <= i < |bulk| && bulk[i].address == a;
      assert bulk'[i].address == a;
    }
  }

  lemma StillHandled(c: Code, t: Table, t': Table, invalid: seq<Address>, bulk: seq<Params>, bulk': seq<Params>,
                     later: seq<Address>, later': seq<Address>, a: Address)
    requires Handled(c, t, invalid, bulk, later, a) && Extends(t, t')
    requires forall x :: InParams(bulk, x) ==> InParams(bulk', x) || x in t'
    requires forall x :: x in later ==> x in later'
    ensures Handled(c, t', invalid, bulk', later', a)
  {
  }

  lemma {:induction false} PassTwoExact(c: Code, t: Table, nextId: nat, infos: Address -> Info,
                                        later: seq<Address>, lookups: seq<Lookup>)
    requires AllSound(c, t, later, lookups) && IdsBelow(t, nextId)
    ensures PassTwo(c, infos, later, lookups).None? <==> exists i :: 0 <= i < |later| && Throws(lookups[i])
    ensures PassTwo(c, infos, later, lookups).Some? ==>
              var bulk := PassTwo(c, infos, later, lookups).value;
              && ParamsFit(c, t, bulk, nextId)
              && (forall i :: 0 <= i < |later| ==> InactiveComponent(c, t, later[i]) || InParams(bulk, later[i]))
              && (forall i :: 0 <= i < |bulk| ==> bulk[i].kind == MULTI && bulk[i].address in later)
  {
    if later != [] {
      var n := |later| - 1;
      PassTwoExact(c, t, nextId, infos, later[..n], lookups[..n]);
      assert forall i :: 0 <= i < n ==> lookups[..n][i] == lookups[i];
      var before, now := PassTwo(c, infos, later[..n], lookups[..n]), PassTwo(c, infos, later, lookups);
      if now.Some? {
        forall i | 0 <= i < |later|
          ensures InactiveComponent(c, t, later[i]) || InParams(now.value, later[i])
        {
          if i < n {
            assert InactiveComponent(c, t, later[..n][i]) || InParams(before.value, later[..n][i]);
            if k :| 0 <= k < |before.value| && before.value[k].address == later[i] {
              assert now.value[k].address == later[i];
            }
          } else if now.value != before.value {
            assert now.value[|now.value| - 1].address == later[n];
          }
        }
      }
    }
  }
}
