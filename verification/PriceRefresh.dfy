/** The chunked, transactional price write of src/scheduler-job/template/price.template.ts. */
module PriceRefresh {
  import opened Arrays
  import opened TokenPrices

  datatype PriceRow = PriceRow(priceValue: real, totalSupply: real)
  type PriceTable = map<nat, PriceRow>

  const CHUNK_SIZE: nat := 100

  /** One UPDATE by id; an id without a row changes nothing. */
  function UpdateRow(table: PriceTable, u: Update): PriceTable {
    if u.id in table then table[u.id := PriceRow(Stored(u.priceValue), Stored(u.totalSupply))] else table
  }

  function UpdateRows(table: PriceTable, us: seq<Update>): PriceTable {
    if us == [] then table else UpdateRow(UpdateRows(table, us[..|us| - 1]), us[|us| - 1])
  }

  /** Every stored price and supply is a number between 0 and 10^35. */
  predicate InRange(table: PriceTable) {
    forall id :: id in table ==>
                   && 0.0 <= table[id].priceValue <= 100000000000000000000000000000000000.0
                   && 0.0 <= table[id].totalSupply <= 100000000000000000000000000000000000.0
  }

  predicate Computed(us: seq<Update>) {
    forall i :: 0 <= i < |us| ==> NonNegative(us[i].priceValue) && NonNegative(us[i].totalSupply)
  }

  lemma {:induction false} UpdateRowsInRange(table: PriceTable, us: seq<Update>)
    requires InRange(table) && Computed(us)
    ensures InRange(UpdateRows(table, us))
    ensures UpdateRows(table, us).Keys == table.Keys
  {
    if us != [] {
      var last := us[|us| - 1];
      UpdateRowsInRange(table, us[..|us| - 1]);
      StoredExactly(last.priceValue);
      StoredExactly(last.totalSupply);
    }
  }

  /** A row holds what the last update of its id stored, or what it held before. */
  lemma {:induction false} UpdateRowsMeaning(table: PriceTable, us: seq<Update>, id: nat)
    requires id in table
    ensures id in UpdateRows(table, us)
    ensures (forall i :: 0 <= i < |us| ==> us[i].id != id) ==> UpdateRows(table, us)[id] == table[id]
    ensures forall i :: 0 <= i < |us| && us[i].id == id && (forall j :: i < j < |us| ==> us[j].id != id) ==>
                          UpdateRows(table, us)[id] == PriceRow(Stored(us[i].priceValue), Stored(us[i].totalSupply))
  {
    hide Stored;
    if us != [] {
      var init := us[..|us| - 1];
      UpdateRowsMeaning(table, init, id);
      assert forall i :: 0 <= i < |init| ==> init[i] == us[i];
    }
  }

  /** The pieces `refresh` visits, in order: chains ascending, each chain's tokens cut into pieces of 100. */
  function Pieces<T>(tokens: seq<T>, chainOf: T -> nat, chains: seq<nat>): seq<(nat, seq<T>)> {
    if chains == [] then []
    else
      Pieces(tokens, chainOf, chains[..|chains| - 1])
      + Tag(chains[|chains| - 1], Chunk(Group(tokens, chainOf, chains[|chains| - 1]), CHUNK_SIZE))
  }

  function Tag<T>(chain: nat, chunks: seq<seq<T>>): (r: seq<(nat, seq<T>)>)
    ensures |r| == |chunks| && forall i :: 0 <= i < |r| ==> r[i] == (chain, chunks[i])
  {
    seq(|chunks|, i requires 0 <= i < |chunks| => (chain, chunks[i]))
  }

  function Contents<T>(pieces: seq<(nat, seq<T>)>): (r: seq<seq<T>>)
    ensures |r| == |pieces| && forall i :: 0 <= i < |r| ==> r[i] == pieces[i].1
  {
    seq(|pieces|, i requires 0 <= i < |pieces| => pieces[i].1)
  }

  lemma {:induction false} PiecesShape<T>(tokens: seq<T>, chainOf: T -> nat, chains: seq<nat>)
    ensures forall i :: 0 <= i < |Pieces(tokens, chainOf, chains)| ==>
                          var piece := Pieces(tokens, chainOf, chains)[i];
                          1 <= |piece.1| <= CHUNK_SIZE && forall x :: x in piece.1 ==> chainOf(x) == piece.0
  {
    if chains != [] {
      var chain := chains[|chains| - 1];
      PiecesShape(tokens, chainOf, chains[..|chains| - 1]);
      var group := Group(tokens, chainOf, chain);
      ChunkShape(group, CHUNK_SIZE);
      FlatOfChunk(group, CHUNK_SIZE);
      FlatMembers(Chunk(group, CHUNK_SIZE));
      GroupMembers(tokens, chainOf, chain);
      var chunks := Chunk(group, CHUNK_SIZE);
      forall i, x | 0 <= i < |chunks| && x in chunks[i]
        ensures chainOf(x) == chain
      {
        assert x in Flat(chunks);
      }
    }
  }

  lemma {:induction false} PiecesFlat<T>(tokens: seq<T>, chainOf: T -> nat, chains: seq<nat>)
    ensures Flat(Contents(Pieces(tokens, chainOf, chains))) == Flat(Groups(tokens, chainOf, chains))
  {
    hide Group, Chunk, Flat;
    if chains == [] {
      assert Contents(Pieces(tokens, chainOf, chains)) == Groups(tokens, chainOf, chains);
    } else {
      var n := |chains| - 1;
      var init, group := chains[..n], Group(tokens, chainOf, chains[n]);
      PiecesFlat(tokens, chainOf, init);
      var chunks, before := Chunk(group, CHUNK_SIZE), Pieces(tokens, chainOf, init);
      assert Pieces(tokens, chainOf, chains) == before + Tag(chains[n], chunks);
      hide Pieces;
      assert Contents(before + Tag(chains[n], chunks)) == Contents(before) + chunks;
      FlatAppend(Contents(before), chunks);
      FlatOfChunk(group, CHUNK_SIZE);
      assert Groups(tokens, chainOf, chains) == Groups(tokens, chainOf, init) + [group];
      FlatAppend(Groups(tokens, chainOf, init), [group]);
      FlatOne(group);
    }
  }

  /** Every token is visited once, with its own chain, in pieces of 1 to 100 tokens. */
  lemma RefreshVisitsEveryTokenOnce<T(!new)>(tokens: seq<T>, chainOf: T -> nat)
    ensures var pieces := Pieces(tokens, chainOf, GroupKeys(tokens, chainOf));
            && multiset(Flat(Contents(pieces))) == multiset(tokens)
            && forall i :: 0 <= i < |pieces| ==>
                             1 <= |pieces[i].1| <= 100
                             && forall x :: x in pieces[i].1 ==> chainOf(x) == pieces[i].0
  {
    PiecesShape(tokens, chainOf, GroupKeys(tokens, chainOf));
    PiecesFlat(tokens, chainOf, GroupKeys(tokens, chainOf));
    GroupsPartition(tokens, chainOf);
  }

  /** What one piece does: the crawl of the piece may throw, and so may the transaction. */
  datatype Oracle<!T> = Oracle(
    crawl: (nat, seq<T>, PriceTable) -> Option<seq<Update>>,
    commits: (nat, seq<T>) -> bool)

  ghost predicate Sane<T(!new)>(o: Oracle<T>) {
    forall chain, ts: seq<T>, table {:trigger o.crawl(chain, ts, table)} ::
      InRange(table) && o.crawl(chain, ts, table).Some? ==> Computed(o.crawl(chain, ts, table).value)
  }

  /** The table after the pieces in order, up to the first one that throws. */
  function AfterPieces<T>(o: Oracle<T>, table: PriceTable, pieces: seq<(nat, seq<T>)>): (r: (PriceTable, bool)) {
    if pieces == [] then (table, true)
    else
      var (before, ok) := AfterPieces(o, table, pieces[..|pieces| - 1]);
      var (chain, ts) := pieces[|pieces| - 1];
      if !ok then (before, false)
      else
        var us := o.crawl(chain, ts, before);
        if us.None? || !o.commits(chain, ts) then (before, false) else (UpdateRows(before, us.value), true)
  }

  lemma {:induction false} AfterPiecesInRange<T(!new)>(o: Oracle<T>, table: PriceTable, pieces: seq<(nat, seq<T>)>)
    requires Sane(o) && InRange(table)
    ensures InRange(AfterPieces(o, table, pieces).0)
  {
    if pieces != [] {
      AfterPiecesInRange(o, table, pieces[..|pieces| - 1]);
      var (before, ok) := AfterPieces(o, table, pieces[..|pieces| - 1]);
      var (chain, ts) := pieces[|pieces| - 1];
      var us := o.crawl(chain, ts, before);
      if us.Some? {
        UpdateRowsInRange(before, us.value);
      }
    }
  }

  /** Pieces run one after the other; once one has thrown, the rest changes nothing. */
  lemma {:induction false} AfterPiecesAppend<T>(
    o: Oracle<T>, table: PriceTable, a: seq<(nat, seq<T>)>, b: seq<(nat, seq<T>)>)
    ensures var first := AfterPieces(o, table, a);
            AfterPieces(o, table, a + b) == if first.1 then AfterPieces(o, first.0, b) else first
  {
    if b == [] {
      assert a + b == a;
    } else {
      AfterPiecesAppend(o, table, a, b[..|b| - 1]);
      assert (a + b)[..|a + b| - 1] == a + b[..|b| - 1];
    }
  }

  class PriceStore<T(!new)> {
    var rows: PriceTable

    /** `bulkUpdate`: all rows of the piece or none. */
    method BulkUpdate(bulkParams: seq<Update>, commits: bool) returns (ok: bool)
      modifies this
      ensures ok == commits
      ensures rows == if commits then UpdateRows(old(rows), bulkParams) else old(rows)
    {
      var staged := rows;
      for i := 0 to |bulkParams|
        invariant staged == UpdateRows(rows, bulkParams[..i])
        invariant rows == old(rows)
      {
        assert bulkParams[..i + 1][..i] == bulkParams[..i];
        staged := UpdateRow(staged, bulkParams[i]);
      }
      assert bulkParams[..|bulkParams|] == bulkParams;
      if commits {
        rows := staged;
      }
      return commits;
    }

    /** The inner loop of `refresh`: the chunks of one chain. */
    method RefreshChain(o: Oracle<T>, chain: nat, chunkTokens: seq<seq<T>>) returns (ok: bool)
      modifies this
      ensures (rows, ok) == AfterPieces(o, old(rows), Tag(chain, chunkTokens))
    {
      ok := true;
      ghost var all := Tag(chain, chunkTokens);
      for k := 0 to |chunkTokens|
        invariant ok && (rows, ok) == AfterPieces(o, old(rows), all[..k])
      {
        assert all[..k + 1][..k] == all[..k];
        AfterPiecesAppend(o, old(rows), all[..k + 1], all[k + 1..]);
        assert all[..k + 1] + all[k + 1..] == all;
        var us := o.crawl(chain, chunkTokens[k], rows);
        if us.None? {
          return false;
        }
        ok := BulkUpdate(us.value, o.commits(chain, chunkTokens[k]));
        if !ok {
          return;
        }
      }
      assert all[..|chunkTokens|] == all;
    }

    /** `refresh`: the first piece that throws ends it; the pieces before it stay written. */
    method Refresh(o: Oracle<T>, tokens: seq<T>, chainOf: T -> nat) returns (ok: bool)
      requires Sane(o)
      modifies this
      ensures (rows, ok) == AfterPieces(o, old(rows), Pieces(tokens, chainOf, GroupKeys(tokens, chainOf)))
      ensures old(InRange(rows)) ==> InRange(rows)
    {
      hide AfterPieces, Pieces, InRange, Sane;
      var chains := GroupKeys(tokens, chainOf);
      ok := true;
      StartsWithNothing(o, rows, tokens, chainOf);
      for c := 0 to |chains|
        invariant ok && (rows, ok) == AfterPieces(o, old(rows), Pieces(tokens, chainOf, chains[..c]))
        invariant old(InRange(rows)) ==> InRange(rows)
      {
        ghost var before := rows;
        var chunks := Chunk(Group(tokens, chainOf, chains[c]), CHUNK_SIZE);
        ok := RefreshChain(o, chains[c], chunks);
        AfterPiecesRange(o, before, Tag(chains[c], chunks));
        NextChain(o, old(rows), tokens, chainOf, chains, c);
        if !ok {
          return;
        }
      }
      assert chains[..|chains|] == chains;
    }

    lemma AfterPiecesRange(o: Oracle<T>, table: PriceTable, pieces: seq<(nat, seq<T>)>)
      requires Sane(o)
      ensures InRange(table) ==> InRange(AfterPieces(o, table, pieces).0)
    {
      if InRange(table) {
        AfterPiecesInRange(o, table, pieces);
      }
    }
  }

  lemma StartsWithNothing<T>(o: Oracle<T>, table: PriceTable, tokens: seq<T>, chainOf: T -> nat)
    ensures AfterPieces(o, table, Pieces(tokens, chainOf, [])) == (table, true)
  {
  }

  /** One more chain, after chains that have not thrown; if it throws, the chains after it change nothing. */
  lemma NextChain<T>(o: Oracle<T>, table: PriceTable, tokens: seq<T>, chainOf: T -> nat, chains: seq<nat>, c: nat)
    requires c < |chains| && AfterPieces(o, table, Pieces(tokens, chainOf, chains[..c])).1
    ensures var before := AfterPieces(o, table, Pieces(tokens, chainOf, chains[..c])).0;
            var piece := Tag(chains[c], Chunk(Group(tokens, chainOf, chains[c]), CHUNK_SIZE));
            var next := AfterPieces(o, before, piece);
            && AfterPieces(o, table, Pieces(tokens, chainOf, chains[..c + 1])) == next
            && (!next.1 ==> AfterPieces(o, table, Pieces(tokens, chainOf, chains)) == next)
  {
    var piece := Tag(chains[c], Chunk(Group(tokens, chainOf, chains[c]), CHUNK_SIZE));
    assert chains[..c + 1][..c] == chains[..c];
    assert Pieces(tokens, chainOf, chains[..c + 1]) == Pieces(tokens, chainOf, chains[..c]) + piece;
    hide Pieces, AfterPieces;
    AfterPiecesAppend(o, table, Pieces(tokens, chainOf, chains[..c]), piece);
    PiecesAppend(tokens, chainOf, chains[..c + 1], chains[c + 1..]);
    assert chains[..c + 1] + chains[c + 1..] == chains;
    AfterPiecesAppend(o, table, Pieces(tokens, chainOf, chains[..c + 1]), Pieces(tokens, chainOf, chains[c + 1..]));
  }

  lemma {:induction false} PiecesAppend<T>(tokens: seq<T>, chainOf: T -> nat, a: seq<nat>, b: seq<nat>)
    ensures Pieces(tokens, chainOf, a + b) == Pieces(tokens, chainOf, a) + Pieces(tokens, chainOf, b)
  {
    hide Group, Chunk, Tag;
    if b == [] {
      assert a + b == a;
    } else {
      var init, last := b[..|b| - 1], b[|b| - 1];
      PiecesAppend(tokens, chainOf, a, init);
      assert (a + b)[..|a + b| - 1] == a + init && (a + b)[|a + b| - 1] == last;
      var piece := Tag(last, Chunk(Group(tokens, chainOf, last), CHUNK_SIZE));
      assert Pieces(tokens, chainOf, b) == Pieces(tokens, chainOf, init) + piece;
      assert Pieces(tokens, chainOf, a + b) == Pieces(tokens, chainOf, a + init) + piece;
      hide Pieces;
    }
  }

  // ---------- both price jobs keep every stored number in range ----------

  lemma {:induction false} SingleUpdatesComputed(
    chain: MultiCall.Call -> MultiCall.Response, abi: Abi, table: seq<LpToken>, tokens: seq<Token>)
    requires forall i :: 0 <= i < |table| ==> table[i].pair0.priceValue >= 0.0 && table[i].pair1.priceValue >= 0.0
    ensures Computed(SingleUpdates(chain, abi, table, tokens))
  {
    if tokens != [] {
      SingleUpdatesComputed(chain, abi, table, tokens[..|tokens| - 1]);
      var token := tokens[|tokens| - 1];
      var pair := TargetPair(token, table);
      if pair.Some? {
        var configured := Filter(p => Configured(token, p), table);
        HighestLiquidityIsMaximum(configured);
        FilterMembers(p => Configured(token, p), table);
        assert pair.value in configured && pair.value in table;
        var other, lp := OtherToken(token, pair.value), pair.value.token.address;
        SinglePriceBound(
          Amount(abi, chain(MultiCall.Call(other.address, abi.balanceOf(lp))), other.decimals),
          other.priceValue,
          Amount(abi, chain(MultiCall.Call(token.address, abi.balanceOf(lp))), token.decimals));
      }
    }
  }

  lemma {:induction false} LpUpdatesComputed(
    chain: MultiCall.Call -> MultiCall.Response, abi: Abi, tokens: seq<LpToken>)
    requires forall i :: 0 <= i < |tokens| ==> tokens[i].pair0.priceValue >= 0.0 && tokens[i].pair1.priceValue >= 0.0
    ensures Computed(LpUpdates(chain, abi, tokens))
  {
    if tokens != [] {
      LpUpdatesComputed(chain, abi, tokens[..|tokens| - 1]);
      var p := tokens[|tokens| - 1];
      if KeyPair(p).Some? {
        var key := KeyPair(p).value;
        LpPriceBound(
          Amount(abi, chain(MultiCall.Call(key.address, abi.balanceOf(p.token.address))), p.token.decimals),
          key.priceValue,
          Amount(abi, chain(MultiCall.Call(p.token.address, abi.totalSupply)), p.token.decimals));
      }
    }
  }

  // ---------- the two jobs as oracles ----------

  type Networks = nat -> MultiCall.Call -> MultiCall.Response

  /** A token with the price its row holds. */
  function Loaded(table: PriceTable, t: Token): Token {
    if t.id in table then t.(priceValue := table[t.id].priceValue, totalSupply := table[t.id].totalSupply)
    else t.(priceValue := 0.0, totalSupply := 0.0)
  }

  function LoadedLp(table: PriceTable, p: LpToken): LpToken {
    LpToken(Loaded(table, p.token), Loaded(table, p.pair0), Loaded(table, p.pair1))
  }

  /** The single-token job looks its pairs up in the table as it is when the piece is crawled. */
  function SingleJob(networks: Networks, abi: Abi, lps: seq<LpToken>,
                     answers: (nat, seq<Token>) -> bool, commits: (nat, seq<Token>) -> bool): Oracle<Token>
  {
    Oracle((chain: nat, ts: seq<Token>, table: PriceTable) =>
             if answers(chain, ts)
             then Some(SingleUpdates(networks(chain), abi, MapSeq(p => LoadedLp(table, p), lps), ts)) else None,
           commits)
  }

  /** The LP-token job works with the key tokens' prices as they were when it loaded its tokens. */
  function LpJob(networks: Networks, abi: Abi, before: PriceTable,
                 answers: (nat, seq<LpToken>) -> bool, commits: (nat, seq<LpToken>) -> bool): Oracle<LpToken>
  {
    Oracle((chain: nat, ts: seq<LpToken>, table: PriceTable) =>
             if answers(chain, ts)
             then Some(LpUpdates(networks(chain), abi, MapSeq(p => LoadedLp(before, p), ts))) else None,
           commits)
  }

  lemma LoadedNonNegative(table: PriceTable, lps: seq<LpToken>)
    requires InRange(table)
    ensures var loaded := MapSeq(p => LoadedLp(table, p), lps);
            forall i :: 0 <= i < |loaded| ==> loaded[i].pair0.priceValue >= 0.0 && loaded[i].pair1.priceValue >= 0.0
  {
  }

  lemma SingleJobSane(networks: Networks, abi: Abi, lps: seq<LpToken>,
                      answers: (nat, seq<Token>) -> bool, commits: (nat, seq<Token>) -> bool)
    ensures Sane(SingleJob(networks, abi, lps, answers, commits))
  {
    var o := SingleJob(networks, abi, lps, answers, commits);
    forall chain, ts: seq<Token>, table {:trigger o.crawl(chain, ts, table)} |
      InRange(table) && o.crawl(chain, ts, table).Some?
      ensures Computed(o.crawl(chain, ts, table).value)
    {
      LoadedNonNegative(table, lps);
      SingleUpdatesComputed(networks(chain), abi, MapSeq(p => LoadedLp(table, p), lps), ts);
    }
  }

  lemma LpJobSane(networks: Networks, abi: Abi, before: PriceTable,
                  answers: (nat, seq<LpToken>) -> bool, commits: (nat, seq<LpToken>) -> bool)
    requires InRange(before)
    ensures Sane(LpJob(networks, abi, before, answers, commits))
  {
    var o := LpJob(networks, abi, before, answers, commits);
    forall chain, ts: seq<LpToken>, table {:trigger o.crawl(chain, ts, table)} |
      InRange(table) && o.crawl(chain, ts, table).Some?
      ensures Computed(o.crawl(chain, ts, table).value)
    {
      LoadedNonNegative(before, ts);
      LpUpdatesComputed(networks(chain), abi, MapSeq(p => LoadedLp(before, p), ts));
    }
  }

  /** Both price jobs keep every stored price and supply between 0 and 10^35, for any chains, tokens and failures. */
  lemma PriceJobsKeepRange(networks: Networks, abi: Abi, table: PriceTable, lps: seq<LpToken>,
                           singles: seq<(nat, seq<Token>)>, multis: seq<(nat, seq<LpToken>)>,
                           answers: (nat, seq<Token>) -> bool, commits: (nat, seq<Token>) -> bool,
                           lpAnswers: (nat, seq<LpToken>) -> bool, lpCommits: (nat, seq<LpToken>) -> bool)
    requires InRange(table)
    ensures InRange(AfterPieces(SingleJob(networks, abi, lps, answers, commits), table, singles).0)
    ensures InRange(AfterPieces(LpJob(networks, abi, table, lpAnswers, lpCommits), table, multis).0)
  {
    SingleJobSane(networks, abi, lps, answers, commits);
    LpJobSane(networks, abi, table, lpAnswers, lpCommits);
    AfterPiecesInRange(SingleJob(networks, abi, lps, answers, commits), table, singles);
    AfterPiecesInRange(LpJob(networks, abi, table, lpAnswers, lpCommits), table, multis);
  }
}
