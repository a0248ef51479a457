/** Wallet queries: src/wallet/wallet.service.ts:62-103 and
    src/defi/pancake-swap/pancake-swap.bsc.service.ts:73-83, 519-673. */
module Wallet {
  import opened Addresses
  import opened Arrays
  import opened Numbers
  import opened MultiCall
  import opened BatchReads

  // ---------- token balances ----------

  datatype Token = Token(id: nat, chainId: nat, address: Address, decimals: nat)
  datatype TokenBalance = TokenBalance(token: Token, balance: real)

  type Networks = nat -> Chain

  function ChainOf(t: Token): nat { t.chainId }

  function BalanceOf(networks: Networks, wallet: Address, t: Token): Option<nat> {
    Balance(networks(t.chainId), wallet, t.address)
  }

  ghost predicate Readable(networks: Networks, wallet: Address, tokens: seq<Token>) {
    forall i :: 0 <= i < |tokens| ==> BalanceOf(networks, wallet, tokens[i]).Some?
  }

  /** What asking for every token on its own gives: the tokens with a balance, in order. */
  function NonZero(networks: Networks, wallet: Address, tokens: seq<Token>): seq<TokenBalance> {
    if tokens == [] then []
    else
      var last := tokens[|tokens| - 1];
      var b := BalanceOf(networks, wallet, last);
      NonZero(networks, wallet, tokens[..|tokens| - 1])
      + if b.Some? && b.value != 0 then [TokenBalance(last, DivideDecimals(b.value, last.decimals))] else []
  }

  function AllNonZero(networks: Networks, wallet: Address, groups: seq<seq<Token>>): seq<TokenBalance> {
    if groups == [] then []
    else AllNonZero(networks, wallet, groups[..|groups| - 1]) + NonZero(networks, wallet, groups[|groups| - 1])
  }

  /** One chain's group: one multicall, zipped with the tokens, zero balances dropped. None: the call reverts. */
  method ChainBalances(networks: Networks, wallet: Address, chainId: nat, tokens: seq<Token>)
    returns (output: Option<seq<TokenBalance>>)
    requires forall i :: 0 <= i < |tokens| ==> tokens[i].chainId == chainId
    ensures output.None? <==> !Readable(networks, wallet, tokens)
    ensures output.Some? ==> output.value == NonZero(networks, wallet, tokens)
  {
    var addresses := MapSeq((t: Token) => t.address, tokens);
    var balances := GetBatchERC20Balances(networks(chainId), [wallet], addresses);
    if balances.None? {
      var i, j :| 0 <= i < 1 && 0 <= j < |addresses| && Unreadable(networks(chainId), [wallet][i], addresses[j]);
      BalanceExactly(networks(chainId), wallet, addresses[j]);
      assert BalanceOf(networks, wallet, tokens[j]).None?;
      return None;
    }
    forall j | 0 <= j < |tokens|
      ensures j < balances.value.Length && Some(balances.value[j]) == BalanceOf(networks, wallet, tokens[j])
    {
      assert Cell(0, j, |addresses|) == j;
      assert Holds(networks(chainId), [wallet][0], addresses[j], balances.value[j]);
      BalanceExactly(networks(chainId), wallet, addresses[j]);
    }
    var result: seq<TokenBalance> := [];
    for j := 0 to |tokens|
      invariant result == NonZero(networks, wallet, tokens[..j])
    {
      assert tokens[..j + 1][..j] == tokens[..j];
      var token, balance := tokens[j], balances.value[j];
      if balance != 0 {
        result := result + [TokenBalance(token, DivideDecimals(balance, token.decimals))];
      }
    }
    assert tokens[..|tokens|] == tokens;
    return Some(result);
  }

  /** `getWalletTokenBalances`, from the interacted tokens on. */
  method GetWalletTokenBalances(networks: Networks, wallet: Address, items: seq<Token>)
    returns (r: Option<seq<TokenBalance>>)
    ensures r.None? <==>
            exists i :: 0 <= i < |items| && Unreadable(networks(items[i].chainId), wallet, items[i].address)
    ensures r.Some? ==> multiset(r.value) == multiset(NonZero(networks, wallet, items))
    ensures r.Some? ==> forall e :: multiset(r.value)[e] ==
                                    if TrueEntry(networks, wallet, e) then multiset(items)[e.token] else 0
  {
    hide NonZero, Readable, Group, GroupKeys, Unreadable, TrueEntry;
    var chains := GroupKeys(items, ChainOf);
    ghost var groups := Groups(items, ChainOf, chains);
    var output: seq<TokenBalance> := [];
    for c := 0 to |chains|
      invariant output == AllNonZero(networks, wallet, groups[..c])
      invariant forall k :: 0 <= k < c ==> Readable(networks, wallet, groups[k])
    {
      assert groups[..c + 1][..c] == groups[..c];
      var tokens := Group(items, ChainOf, chains[c]);
      GroupMembers(items, ChainOf, chains[c]);
      assert forall i :: 0 <= i < |tokens| ==> tokens[i] in tokens && ChainOf(tokens[i]) == chains[c];
      var balances := ChainBalances(networks, wallet, chains[c], tokens);
      if balances.None? {
        UnreadableGroup(networks, wallet, items, tokens);
        ReadableExactly(networks, wallet, items);
        return None;
      }
      output := output + balances.value;
    }
    assert groups[..|chains|] == groups;
    AllReadable(networks, wallet, items, groups);
    GroupedSameAsSingle(networks, wallet, items);
    ReadableExactly(networks, wallet, items);
    forall e
      ensures multiset(output)[e] == if TrueEntry(networks, wallet, e) then multiset(items)[e.token] else 0
    {
      EntriesExactly(networks, wallet, items, e);
    }
    return Some(output);
  }

  lemma ReadableExactly(networks: Networks, wallet: Address, items: seq<Token>)
    ensures !Readable(networks, wallet, items) <==>
            exists i :: 0 <= i < |items| && Unreadable(networks(items[i].chainId), wallet, items[i].address)
  {
    forall i | 0 <= i < |items|
      ensures BalanceOf(networks, wallet, items[i]).None? <==>
              Unreadable(networks(items[i].chainId), wallet, items[i].address)
    {
      BalanceExactly(networks(items[i].chainId), wallet, items[i].address);
    }
    hide BalanceOf, Unreadable;
    if i :| 0 <= i < |items| && Unreadable(networks(items[i].chainId), wallet, items[i].address) {
      assert BalanceOf(networks, wallet, items[i]).None?;
    }
  }

  lemma UnreadableGroup(networks: Networks, wallet: Address, items: seq<Token>, tokens: seq<Token>)
    requires !Readable(networks, wallet, tokens) && forall t :: t in tokens ==> t in items
    ensures !Readable(networks, wallet, items)
  {
    var i :| 0 <= i < |tokens| && BalanceOf(networks, wallet, tokens[i]).None?;
    assert tokens[i] in items;
    var j :| 0 <= j < |items| && items[j] == tokens[i];
    assert BalanceOf(networks, wallet, items[j]).None?;
  }

  lemma AllReadable(networks: Networks, wallet: Address, items: seq<Token>, groups: seq<seq<Token>>)
    requires groups == Groups(items, ChainOf, GroupKeys(items, ChainOf))
    requires forall c :: 0 <= c < |groups| ==> Readable(networks, wallet, groups[c])
    ensures Readable(networks, wallet, items)
  {
    var chains := GroupKeys(items, ChainOf);
    GroupKeysExact(items, ChainOf);
    forall i | 0 <= i < |items|
      ensures BalanceOf(networks, wallet, items[i]).Some?
    {
      assert ChainOf(items[i]) in chains;
      var c :| 0 <= c < |chains| && chains[c] == items[i].chainId;
      GroupMembers(items, ChainOf, chains[c]);
      assert items[i] in groups[c];
      var k :| 0 <= k < |groups[c]| && groups[c][k] == items[i];
    }
  }

  lemma {:induction false} NonZeroAppend(networks: Networks, wallet: Address, a: seq<Token>, b: seq<Token>)
    ensures NonZero(networks, wallet, a + b) == NonZero(networks, wallet, a) + NonZero(networks, wallet, b)
  {
    if b == [] {
      assert a + b == a;
    } else {
      NonZeroAppend(networks, wallet, a, b[..|b| - 1]);
      assert (a + b)[..|a + b| - 1] == a + b[..|b| - 1];
    }
  }

  lemma {:induction false} AllNonZeroIsFlat(networks: Networks, wallet: Address, groups: seq<seq<Token>>)
    ensures AllNonZero(networks, wallet, groups) == NonZero(networks, wallet, Flat(groups))
  {
    if groups != [] {
      var n := |groups| - 1;
      AllNonZeroIsFlat(networks, wallet, groups[..n]);
      FlatLast(groups);
      NonZeroAppend(networks, wallet, Flat(groups[..n]), groups[n]);
    }
  }

  /** The entry shows what the wallet holds of its token on the token's own chain, scaled by the token's decimals, and
      that is not zero. */
  predicate Shows(networks: Networks, wallet: Address, e: TokenBalance, amount: nat) {
    && amount != 0 && Holds(networks(e.token.chainId), wallet, e.token.address, amount)
    && e.balance * Pow10(e.token.decimals) == amount as real
  }

  ghost predicate TrueEntry(networks: Networks, wallet: Address, e: TokenBalance) {
    exists amount :: Shows(networks, wallet, e, amount)
  }

  /** An entry appears as often as its token if it is true, and never otherwise. */
  lemma EntriesExactly(networks: Networks, wallet: Address, tokens: seq<Token>, e: TokenBalance)
    ensures multiset(NonZero(networks, wallet, tokens))[e]
         == if TrueEntry(networks, wallet, e) then multiset(tokens)[e.token] else 0
  {
    hide TrueEntry, DivideDecimals, NonZero, BalanceOf;
    NonZeroCount(networks, wallet, tokens, e);
    TrueEntryExactly(networks, wallet, e);
  }

  lemma TrueEntryExactly(networks: Networks, wallet: Address, e: TokenBalance)
    ensures var b := BalanceOf(networks, wallet, e.token);
            TrueEntry(networks, wallet, e)
            <==> b.Some? && b.value != 0 && e.balance == DivideDecimals(b.value, e.token.decimals)
  {
    hide Holds, Pow10, DivideDecimals;
    BalanceExactly(networks(e.token.chainId), wallet, e.token.address);
    var b := BalanceOf(networks, wallet, e.token);
    if b.Some? {
      ScaledExactly(b.value, e.token.decimals, e.balance);
      if b.value != 0 && e.balance == DivideDecimals(b.value, e.token.decimals) {
        assert Shows(networks, wallet, e, b.value);
      }
    }
  }

  lemma ScaledExactly(raw: nat, decimals: nat, x: real)
    ensures x == DivideDecimals(raw, decimals) <==> x * Pow10(decimals) == raw as real
  {
    var scale := Pow10(decimals);
    assert raw as real / scale * scale == raw as real;
    if x * scale == raw as real {
      assert (x - raw as real / scale) * scale == 0.0;
    }
  }

  /** The number of copies of an entry depends only on the number of copies of its token. */
  lemma {:induction false} NonZeroCount(networks: Networks, wallet: Address, tokens: seq<Token>, e: TokenBalance)
    ensures multiset(NonZero(networks, wallet, tokens))[e] ==
            (var b := BalanceOf(networks, wallet, e.token);
             if b.Some? && b.value != 0 && e.balance == DivideDecimals(b.value, e.token.decimals)
             then multiset(tokens)[e.token] else 0)
  {
    if tokens != [] {
      NonZeroCount(networks, wallet, tokens[..|tokens| - 1], e);
      assert tokens == tokens[..|tokens| - 1] + [tokens[|tokens| - 1]];
    }
  }

  /** Grouping by chain, batching, zipping, filtering and flattening gives, with multiplicity, exactly the tokens
      with a balance that asking token by token gives. */
  lemma GroupedSameAsSingle(networks: Networks, wallet: Address, items: seq<Token>)
    ensures multiset(AllNonZero(networks, wallet, Groups(items, ChainOf, GroupKeys(items, ChainOf))))
         == multiset(NonZero(networks, wallet, items))
  {
    var groups := Groups(items, ChainOf, GroupKeys(items, ChainOf));
    GroupsPartition(items, ChainOf);
    AllNonZeroIsFlat(networks, wallet, groups);
    var grouped := multiset(NonZero(networks, wallet, Flat(groups)));
    var single := multiset(NonZero(networks, wallet, items));
    forall e: TokenBalance
      ensures grouped[e] == single[e]
    {
      NonZeroCount(networks, wallet, Flat(groups), e);
      NonZeroCount(networks, wallet, items, e);
    }
    assert grouped == single;
  }

  // ---------- farms ----------

  datatype Farm = Farm(id: nat, name: string, address: Address, pid: nat, stakeDecimals: nat, rewardDecimals: nat)
  datatype FarmWallet = FarmWallet(farm: Farm, stakeAmount: real, rewardAmount: real)

  /** The two calls a farm is read with, and how their answers are decoded. */
  datatype Reader = Reader(calls: Farm -> (Call, Call), stake: Bytes -> nat, reward: Bytes -> nat)

  function ValidOr0(r: Response, decode: Bytes -> nat): nat {
    if r.success && r.returnData != [] then decode(r.returnData) else 0
  }

  function FarmInfo(reader: Reader, farm: Farm, userInfo: Response, pending: Response): Option<FarmWallet> {
    var stake, reward := ValidOr0(userInfo, reader.stake), ValidOr0(pending, reader.reward);
    if stake == 0 && reward == 0 then None
    else Some(FarmWallet(farm, DivideDecimals(stake, farm.stakeDecimals), DivideDecimals(reward, farm.rewardDecimals)))
  }

  function Invested(chain: Call -> Response, reader: Reader, farms: seq<Farm>): seq<FarmWallet> {
    if farms == [] then []
    else
      var last := farms[|farms| - 1];
      var info := FarmInfo(reader, last, chain(reader.calls(last).0), chain(reader.calls(last).1));
      Invested(chain, reader, farms[..|farms| - 1]) + if info.Some? then [info.value] else []
  }

  /** `getFarmWalletInfo` and `getFarm2WalletInfo`, which differ in their calls only. */
  method GetFarmWalletInfo(chain: Call -> Response, reader: Reader, farms: seq<Farm>) returns (output: seq<FarmWallet>)
    ensures output == Invested(chain, reader, farms)
  {
    var encode := MapSeq((f: Farm) => [reader.calls(f).0, reader.calls(f).1], farms);
    var answers := ReadInGroups(chain, encode, 2);
    output := [];
    for i := 0 to |farms|
      invariant output == Invested(chain, reader, farms[..i])
    {
      assert farms[..i + 1][..i] == farms[..i];
      var info := FarmInfo(reader, farms[i], answers[i][0], answers[i][1]);
      if info.Some? {
        // the source tests the scaled amounts once more
        ScaledIsZero(ValidOr0(answers[i][0], reader.stake), farms[i].stakeDecimals);
        ScaledIsZero(ValidOr0(answers[i][1], reader.reward), farms[i].rewardDecimals);
        if info.value.stakeAmount != 0.0 || info.value.rewardAmount != 0.0 {
          output := output + [info.value];
        }
      }
    }
    assert farms[..|farms|] == farms;
  }

  lemma ScaledIsZero(raw: nat, decimals: nat)
    ensures DivideDecimals(raw, decimals) == 0.0 <==> raw == 0
  {
    if raw != 0 {
      assert DivideDecimals(raw, decimals) * Pow10(decimals) == raw as real;
    }
  }

  /** `getWalletFarms`: the farms of the two kinds, each read its own way. */
  method GetWalletFarms(chain: Call -> Response, farmName: string, reader: Reader,
                        farm2Name: string, reader2: Reader, farms: seq<Farm>)
    returns (output: seq<FarmWallet>)
    ensures output == Invested(chain, reader, Filter((f: Farm) => f.name == farmName, farms))
                      + Invested(chain, reader2, Filter((f: Farm) => f.name == farm2Name, farms))
  {
    var first := GetFarmWalletInfo(chain, reader, Filter((f: Farm) => f.name == farmName, farms));
    var second := GetFarmWalletInfo(chain, reader2, Filter((f: Farm) => f.name == farm2Name, farms));
    output := first + second;
  }

  /** A farm is shown as often as it is asked for if the wallet has a stake or a pending reward in it, as its own
      two calls tell, and not at all otherwise. */
  lemma {:induction false} InvestedCount(chain: Call -> Response, reader: Reader, farms: seq<Farm>, e: FarmWallet)
    ensures multiset(Invested(chain, reader, farms))[e] ==
            if FarmInfo(reader, e.farm, chain(reader.calls(e.farm).0), chain(reader.calls(e.farm).1)) == Some(e)
            then multiset(farms)[e.farm] else 0
  {
    if farms != [] {
      InvestedCount(chain, reader, farms[..|farms| - 1], e);
      assert farms == farms[..|farms| - 1] + [farms[|farms| - 1]];
    }
  }

  /** What an answer says, zero when the call failed or answered nothing. */
  predicate Says(answer: Response, decode: Bytes -> nat, amount: nat) {
    amount == if answer.success && answer.returnData != [] then decode(answer.returnData) else 0
  }

  /** The entry shows the stake of the farm's first call at the stake token's decimals and the reward of its second at
      the reward token's, and they are not both zero. */
  predicate ShowsFarm(chain: Call -> Response, reader: Reader, e: FarmWallet, stake: nat, reward: nat) {
    && Says(chain(reader.calls(e.farm).0), reader.stake, stake)
    && Says(chain(reader.calls(e.farm).1), reader.reward, reward)
    && !(stake == 0 && reward == 0)
    && e.stakeAmount * Pow10(e.farm.stakeDecimals) == stake as real
    && e.rewardAmount * Pow10(e.farm.rewardDecimals) == reward as real
  }

  ghost predicate TrueFarmEntry(chain: Call -> Response, reader: Reader, e: FarmWallet) {
    exists stake, reward :: ShowsFarm(chain, reader, e, stake, reward)
  }

  /** A farm entry appears as often as its farm is asked for if it is true, and never otherwise. */
  lemma FarmEntriesExactly(chain: Call -> Response, reader: Reader, farms: seq<Farm>, e: FarmWallet)
    ensures multiset(Invested(chain, reader, farms))[e]
         == if TrueFarmEntry(chain, reader, e) then multiset(farms)[e.farm] else 0
  {
    InvestedCount(chain, reader, farms, e);
    var (first, second) := reader.calls(e.farm);
    var stake, reward := ValidOr0(chain(first), reader.stake), ValidOr0(chain(second), reader.reward);
    hide Pow10, DivideDecimals, Invested;
    ScaledExactly(stake, e.farm.stakeDecimals, e.stakeAmount);
    ScaledExactly(reward, e.farm.rewardDecimals, e.rewardAmount);
    if FarmInfo(reader, e.farm, chain(first), chain(second)) == Some(e) {
      assert ShowsFarm(chain, reader, e, stake, reward);
    }
  }
}
