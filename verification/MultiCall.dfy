/** The batch readers of multicalls/contracts/MultiCall.sol. The chain at one block is a set of functions:
    a static call changes nothing, so every call of a batch sees the same chain. */
module MultiCall {
  import opened Addresses
  import opened Arrays

  newtype byte = x: int | 0 <= x < 256
  type Bytes = seq<byte>
  const UNKNOWN_UINT: nat := 0

  datatype Call = Call(target: Address, data: Bytes)
  datatype Response = Response(success: bool, returnData: Bytes)

  datatype Chain = Chain(
    staticcall: Call -> Response,
    nativeBalance: Address -> nat,
    encodeBalanceOf: Address -> Bytes,
    decodeUint: Bytes -> Option<nat>) // None: abi.decode reverts

  /** `staticAggregate`: None is a revert. */
  method StaticAggregate(chain: Call -> Response, requireSuccess: bool, calls: seq<Call>)
    returns (r: Option<array<Response>>)
    ensures r.None? <==> requireSuccess && exists i :: 0 <= i < |calls| && !chain(calls[i]).success
    ensures r.Some? ==> r.value[..] == MapSeq(chain, calls)
  {
    var returnData := new Response[|calls|];
    for i := 0 to |calls|
      invariant forall k :: 0 <= k < i ==> returnData[k] == chain(calls[k])
      invariant requireSuccess ==> forall k :: 0 <= k < i ==> chain(calls[k]).success
    {
      var result := chain(calls[i]);
      if requireSuccess && !result.success {
        return None;
      }
      returnData[i] := result;
    }
    return Some(returnData);
  }

  /** `safeERC20BalanceOf`. */
  function SafeERC20BalanceOf(chain: Chain, token: Address, holder: Address): Option<nat> {
    var r := chain.staticcall(Call(token, chain.encodeBalanceOf(holder)));
    if r.success && r.returnData != [] then chain.decodeUint(r.returnData) else Some(UNKNOWN_UINT)
  }

  function Balance(chain: Chain, user: Address, token: Address): Option<nat> {
    if token != ZERO_ADDRESS then SafeERC20BalanceOf(chain, token, user) else Some(chain.nativeBalance(user))
  }

  /** What a cell says of the chain: of an ERC20 token the number in the token's answer to `balanceOf(user)`, zero when
      that call fails or answers nothing, and of the zero address the user's native balance. */
  predicate Holds(chain: Chain, user: Address, token: Address, amount: nat) {
    if token == 0 then amount == chain.nativeBalance(user)
    else
      var answer := chain.staticcall(Call(token, chain.encodeBalanceOf(user)));
      if answer.success && answer.returnData != [] then chain.decodeUint(answer.returnData) == Some(amount)
      else amount == 0
  }

  /** The token answers with something that is no number. */
  predicate Unreadable(chain: Chain, user: Address, token: Address) {
    token != 0
    && var answer := chain.staticcall(Call(token, chain.encodeBalanceOf(user)));
       answer.success && answer.returnData != [] && chain.decodeUint(answer.returnData) == None
  }

  lemma BalanceExactly(chain: Chain, user: Address, token: Address)
    ensures Balance(chain, user, token).None? <==> Unreadable(chain, user, token)
    ensures forall amount: nat :: Balance(chain, user, token) == Some(amount) <==> Holds(chain, user, token, amount)
  {
  }

  /** The users x tokens array is filled row by row: cell j + T*i holds user i's balance of token j,
      and the call reverts exactly when one of the cells cannot be read. */
  method GetBatchERC20Balances(chain: Chain, users: seq<Address>, tokens: seq<Address>)
    returns (r: Option<array<nat>>)
    ensures r.None? <==>
            exists i, j :: 0 <= i < |users| && 0 <= j < |tokens| && Unreadable(chain, users[i], tokens[j])
    ensures r.Some? ==> r.value.Length == |tokens| * |users|
    ensures r.Some? ==> forall i, j {:trigger Cell(i, j, |tokens|)} :: 0 <= i < |users| && 0 <= j < |tokens| ==>
                                     Cell(i, j, |tokens|) < r.value.Length
                                     && Holds(chain, users[i], tokens[j], r.value[Cell(i, j, |tokens|)])
  {
    hide Balance, Holds, Unreadable;
    var addrBalances := new nat[|tokens| * |users|];
    for i := 0 to |users|
      invariant forall u, j :: 0 <= u < i && 0 <= j < |tokens| ==> Balance(chain, users[u], tokens[j]).Some?
      invariant Filled(chain, users, tokens, addrBalances[..], i, 0)
    {
      for j := 0 to |tokens|
        invariant forall u, t :: 0 <= u < i && 0 <= t < |tokens| ==> Balance(chain, users[u], tokens[t]).Some?
        invariant forall t :: 0 <= t < j ==> Balance(chain, users[i], tokens[t]).Some?
        invariant Filled(chain, users, tokens, addrBalances[..], i, j)
      {
        CellInBounds(i, j, |tokens|, |users|);
        var addrIdx := j + |tokens| * i;
        var balance := Balance(chain, users[i], tokens[j]);
        BalanceExactly(chain, users[i], tokens[j]);
        if balance.None? {
          return None;
        }
        FillCell(chain, users, tokens, addrBalances[..], i, j);
        addrBalances[addrIdx] := balance.value;
      }
      FilledRow(chain, users, tokens, addrBalances[..], i);
    }
    forall i, j {:trigger Cell(i, j, |tokens|)} | 0 <= i < |users| && 0 <= j < |tokens|
      ensures Cell(i, j, |tokens|) < addrBalances.Length
              && Holds(chain, users[i], tokens[j], addrBalances[Cell(i, j, |tokens|)])
    {
      CellInBounds(i, j, |tokens|, |users|);
      BalanceExactly(chain, users[i], tokens[j]);
      assert addrBalances[Cell(i, j, |tokens|)] == addrBalances[..][Cell(i, j, |tokens|)];
    }
    forall i, j | 0 <= i < |users| && 0 <= j < |tokens|
      ensures !Unreadable(chain, users[i], tokens[j])
    {
      BalanceExactly(chain, users[i], tokens[j]);
    }
    return Some(addrBalances);
  }

  function Cell(i: nat, j: nat, width: nat): nat { j + width * i }

  /** Rows below `row`, and the first `col` cells of `row`, hold their balance. */
  ghost predicate Filled(chain: Chain, users: seq<Address>, tokens: seq<Address>, cells: seq<nat>, row: nat, col: nat) {
    forall i, j {:trigger Cell(i, j, |tokens|)} ::
      0 <= i < |users| && 0 <= j < |tokens| && (i < row || (i == row && j < col)) ==>
        Cell(i, j, |tokens|) < |cells|
        && Some(cells[Cell(i, j, |tokens|)]) == Balance(chain, users[i], tokens[j])
  }

  lemma FillCell(chain: Chain, users: seq<Address>, tokens: seq<Address>, cells: seq<nat>, row: nat, col: nat)
    requires row < |users| && col < |tokens| && Cell(row, col, |tokens|) < |cells|
    requires Filled(chain, users, tokens, cells, row, col) && Balance(chain, users[row], tokens[col]).Some?
    ensures Filled(chain, users, tokens,
                   cells[Cell(row, col, |tokens|) := Balance(chain, users[row], tokens[col]).value], row, col + 1)
  {
    var cells' := cells[Cell(row, col, |tokens|) := Balance(chain, users[row], tokens[col]).value];
    forall i, j {:trigger Cell(i, j, |tokens|)} |
      0 <= i < |users| && 0 <= j < |tokens| && (i < row || (i == row && j < col + 1))
      ensures Cell(i, j, |tokens|) < |cells'|
              && Some(cells'[Cell(i, j, |tokens|)]) == Balance(chain, users[i], tokens[j])
    {
      if i != row || j != col {
        CellInjective(i, j, row, col, |tokens|);
      }
    }
  }

  lemma FilledRow(chain: Chain, users: seq<Address>, tokens: seq<Address>, cells: seq<nat>, row: nat)
    requires Filled(chain, users, tokens, cells, row, |tokens|)
    ensures Filled(chain, users, tokens, cells, row + 1, 0)
  {
  }

  lemma CellInBounds(i: nat, j: nat, width: nat, height: nat)
    requires i < height && j < width
    ensures Cell(i, j, width) < width * height
  {
    RowsApart(i, height, width);
  }

  lemma CellInjective(i: nat, j: nat, i': nat, j': nat, width: nat)
    requires j < width && j' < width && (i, j) != (i', j')
    ensures Cell(i, j, width) != Cell(i', j', width)
  {
    if i < i' {
      RowsApart(i, i', width);
    } else if i' < i {
      RowsApart(i', i, width);
    }
  }

  lemma RowsApart(i: nat, i': nat, width: nat)
    requires i < i'
    ensures width * i + width <= width * i'
  {
    var gap := i' - i - 1;
    assert width * i' == width * (i + 1 + gap) == width * i + width + width * gap;
  }

  lemma WiderIsMore(width: nat, height: nat, i: nat)
    requires height <= i
    ensures width * height <= width * i
  {
  }

  /** The fill visits every index of the array once: the indices are exactly the cells, and no two cells share one. */
  lemma EveryCellOnce(k: nat, width: nat, height: nat)
    requires k < width * height
    ensures exists i, j :: 0 <= i < height && 0 <= j < width && Cell(i, j, width) == k
    ensures forall i, j, i', j' ::
              (0 <= i < height && 0 <= j < width && 0 <= i' < height && 0 <= j' < width
               && Cell(i, j, width) == k && Cell(i', j', width) == k) ==> i == i' && j == j'
  {
    var i, j := k / width, k % width;
    if i >= height {
      WiderIsMore(width, height, i);
      assert false;
    }
    assert Cell(i, j, width) == k;
    forall a, b, c, d | 0 <= a < height && 0 <= b < width && 0 <= c < height && 0 <= d < width
                        && Cell(a, b, width) == k && Cell(c, d, width) == k
      ensures a == c && b == d
    {
      if (a, b) != (c, d) {
        CellInjective(a, b, c, d, width);
      }
    }
  }
}

/** TypeScript flattens k calls per item into one multicall and cuts the answers back into pieces of k. */
module BatchReads {
  import opened Arrays
  import opened MultiCall

  /** `toSplitWithChunkSize(await getBatchStaticAggregator(flat(calls)), k)`. */
  method ReadInGroups(chain: Call -> Response, groups: seq<seq<Call>>, k: nat) returns (r: seq<seq<Response>>)
    requires k > 0 && forall i :: 0 <= i < |groups| ==> |groups[i]| == k
    ensures r == Individually(chain, groups)
  {
    var answers := StaticAggregate(chain, false, Flat(groups));
    BatchEqualsIndividual(chain, groups, k);
    r := Chunk(answers.value[..], k);
  }

  /** What the same calls would answer if every item were read on its own. */
  function Individually(chain: Call -> Response, groups: seq<seq<Call>>): (r: seq<seq<Response>>)
    ensures |r| == |groups|
    ensures forall i :: 0 <= i < |groups| ==> r[i] == MapSeq(chain, groups[i])
  {
    MapSeq((g: seq<Call>) => MapSeq(chain, g), groups)
  }

  /** Batched reading refines reading item by item, for every item list and every fixed k. */
  lemma {:induction false} BatchEqualsIndividual(chain: Call -> Response, groups: seq<seq<Call>>, k: nat)
    requires k > 0 && forall i :: 0 <= i < |groups| ==> |groups[i]| == k
    ensures Chunk(MapSeq(chain, Flat(groups)), k) == Individually(chain, groups)
  {
    MapOfFlat(chain, groups);
    ChunkOfFlat(Individually(chain, groups), k);
  }

  /** After `zip`, every item is paired with the answers to its own calls, in order, and with nothing else. */
  lemma {:induction false} ZipPairsOwnAnswers<T>(chain: Call -> Response, items: seq<T>, calls: T -> seq<Call>, k: nat)
    requires k > 0 && forall i :: 0 <= i < |items| ==> |calls(items[i])| == k
    ensures var zipped := Zip(items, Chunk(MapSeq(chain, Flat(MapSeq(calls, items))), k));
            |zipped| == |items|
            && forall i :: 0 <= i < |items| ==>
                             zipped[i] == (Some(items[i]), Some(MapSeq(chain, calls(items[i]))))
  {
    BatchEqualsIndividual(chain, MapSeq(calls, items), k);
  }
}
