/** AMM price jobs: src/scheduler-job/token-price-job and src/scheduler-job/template/price.template.ts. */
module TokenPrices {
  import opened Addresses
  import opened Arrays
  import opened Numbers
  import opened MultiCall
  import opened BatchReads

  datatype Token = Token(
    id: nat, network: nat, address: Address, decimals: nat,
    hasPriceAddress: bool, priceValue: real, totalSupply: real, status: bool)

  /** A MULTI row: an LP token and the two tokens it is composed of. */
  datatype LpToken = LpToken(token: Token, pair0: Token, pair1: Token)

  datatype Update = Update(id: nat, priceValue: Num, totalSupply: Num)

  /** The ERC20 encoders and the uint256 decoder; ABI encoding itself is not modelled. */
  datatype Abi = Abi(totalSupply: Bytes, balanceOf: Address -> Bytes, decode: Bytes -> nat)

  const NULL_BYTE: Bytes := []

  function Uint(abi: Abi, r: Response): nat {
    if r.success && r.returnData != [] then abi.decode(r.returnData) else 0
  }

  function Amount(abi: Abi, r: Response, decimals: nat): (x: real)
    ensures x >= 0.0
  {
    DivideDecimals(Uint(abi, r), decimals)
  }

  // ---------- single tokens ----------

  function Liquidity(p: LpToken): real { p.token.totalSupply * p.token.priceValue }

  function HighestLiquidity(pairs: seq<LpToken>): Option<LpToken> {
    if pairs == [] then None
    else
      var init, last := HighestLiquidity(pairs[..|pairs| - 1]), pairs[|pairs| - 1];
      if Liquidity(last) > (if init.Some? then Liquidity(init.value) else 0.0) then Some(last) else init
  }

  /** `findHighestLiquidityPair`. */
  method FindHighestLiquidityPair(configuredPairs: seq<LpToken>) returns (bestPair: Option<LpToken>)
    ensures bestPair == HighestLiquidity(configuredPairs)
  {
    bestPair := None;
    var maxLiquidity := 0.0;
    for i := 0 to |configuredPairs|
      invariant bestPair == HighestLiquidity(configuredPairs[..i])
      invariant maxLiquidity == if bestPair.Some? then Liquidity(bestPair.value) else 0.0
    {
      assert configuredPairs[..i + 1][..i] == configuredPairs[..i];
      var liquidity := Liquidity(configuredPairs[i]);
      if liquidity > maxLiquidity {
        bestPair := Some(configuredPairs[i]);
        maxLiquidity := liquidity;
      }
    }
    assert configuredPairs[..|configuredPairs|] == configuredPairs;
  }

  /** No pair is chosen iff none has positive liquidity; otherwise it is the first of the most liquid ones. */
  lemma {:induction false} HighestLiquidityIsMaximum(pairs: seq<LpToken>)
    ensures HighestLiquidity(pairs).None? <==> forall i :: 0 <= i < |pairs| ==> Liquidity(pairs[i]) <= 0.0
    ensures HighestLiquidity(pairs).Some? ==>
              var best := HighestLiquidity(pairs).value;
              Liquidity(best) > 0.0
              && (forall i :: 0 <= i < |pairs| ==> Liquidity(pairs[i]) <= Liquidity(best))
              && exists i :: 0 <= i < |pairs| && pairs[i] == best
                             && forall j :: 0 <= j < i ==> Liquidity(pairs[j]) < Liquidity(best)
  {
    if pairs != [] {
      var n := |pairs| - 1;
      HighestLiquidityIsMaximum(pairs[..n]);
      var init := HighestLiquidity(pairs[..n]);
      if HighestLiquidity(pairs) == init && init.Some? {
        var i :| 0 <= i < n && pairs[..n][i] == init.value
                 && forall j :: 0 <= j < i ==> Liquidity(pairs[..n][j]) < Liquidity(init.value);
        assert pairs[i] == init.value && forall j :: 0 <= j < i ==> Liquidity(pairs[j]) < Liquidity(init.value);
      } else if HighestLiquidity(pairs).Some? {
        assert pairs[n] == HighestLiquidity(pairs).value;
        assert forall j :: 0 <= j < n ==> pairs[..n][j] == pairs[j];
      }
      assert forall j :: 0 <= j < n ==> pairs[..n][j] == pairs[j];
    }
  }

  /** The rows `findConfiguredPairs` selects. */
  predicate Configured(token: Token, p: LpToken) {
    && (p.pair0.id == token.id || p.pair1.id == token.id)
    && p.token.totalSupply != 0.0 && p.token.priceValue != 0.0 && p.token.status
  }

  function TargetPair(token: Token, table: seq<LpToken>): Option<LpToken> {
    HighestLiquidity(Filter(p => Configured(token, p), table))
  }

  function OtherToken(token: Token, pair: LpToken): Token {
    if pair.pair0.id == token.id then pair.pair1 else pair.pair0
  }

  function SingleCalls(abi: Abi, token: Token, pair: Option<LpToken>): (r: seq<Call>)
    ensures |r| == 3
  {
    match pair
    case None =>
      [Call(token.address, abi.totalSupply), Call(ZERO_ADDRESS, NULL_BYTE), Call(ZERO_ADDRESS, NULL_BYTE)]
    case Some(p) =>
      [Call(token.address, abi.totalSupply),
       Call(token.address, abi.balanceOf(p.token.address)),
       Call(OtherToken(token, p).address, abi.balanceOf(p.token.address))]
  }

  function SinglePrice(otherBalance: real, otherPrice: real, targetBalance: real): Num {
    ToFixed(Div(Mul(Finite(otherBalance), Finite(otherPrice)), Finite(targetBalance)))
  }

  /** The price of one token, read with the token's own calls only. */
  function SingleUpdate(chain: Call -> Response, abi: Abi, token: Token, pair: LpToken): Update {
    var other, lp := OtherToken(token, pair), pair.token.address;
    Update(
      token.id,
      SinglePrice(
        Amount(abi, chain(Call(other.address, abi.balanceOf(lp))), other.decimals),
        other.priceValue,
        Amount(abi, chain(Call(token.address, abi.balanceOf(lp))), token.decimals)),
      Finite(Amount(abi, chain(Call(token.address, abi.totalSupply)), token.decimals)))
  }

  function SingleUpdates(chain: Call -> Response, abi: Abi, table: seq<LpToken>, tokens: seq<Token>): seq<Update> {
    if tokens == [] then []
    else
      var last := tokens[|tokens| - 1];
      var pair := TargetPair(last, table);
      SingleUpdates(chain, abi, table, tokens[..|tokens| - 1]) +
      if pair.Some? then [SingleUpdate(chain, abi, last, pair.value)] else []
  }

  /** `crawlTokenSupplyAndPrice` of the single-token job: one multicall for all tokens gives each token the
      price that reading it alone would give, and tokens padded with dummy calls get none. */
  method CrawlSingleTokens(chain: Call -> Response, abi: Abi, table: seq<LpToken>, targetTokens: seq<Token>)
    returns (updateParams: seq<Update>)
    ensures updateParams == SingleUpdates(chain, abi, table, targetTokens)
  {
    var infoEncode: seq<seq<Call>> := [];
    var targets: seq<Option<LpToken>> := [];
    for i := 0 to |targetTokens|
      invariant |infoEncode| == |targets| == i
      invariant forall k :: 0 <= k < i ==> targets[k] == TargetPair(targetTokens[k], table)
      invariant forall k :: 0 <= k < i ==> infoEncode[k] == SingleCalls(abi, targetTokens[k], targets[k])
    {
      var token := targetTokens[i];
      var targetPair := FindHighestLiquidityPair(Filter(p => Configured(token, p), table));
      SameFilter(token, table);
      targets := targets + [targetPair];
      infoEncode := infoEncode + [SingleCalls(abi, token, targetPair)];
    }
    var infoBatchCallMap := ReadInGroups(chain, infoEncode, 3);
    updateParams := [];
    for i := 0 to |targetTokens|
      invariant updateParams == SingleUpdates(chain, abi, table, targetTokens[..i])
    {
      assert targetTokens[..i + 1][..i] == targetTokens[..i];
      var token, result := targetTokens[i], infoBatchCallMap[i];
      if targets[i].Some? {
        var other := OtherToken(token, targets[i].value);
        var totalSupply := Amount(abi, result[0], token.decimals);
        var targetBalance := Amount(abi, result[1], token.decimals);
        var otherBalance := Amount(abi, result[2], other.decimals);
        updateParams := updateParams +
        [Update(token.id, SinglePrice(otherBalance, other.priceValue, targetBalance), Finite(totalSupply))];
      }
    }
    assert targetTokens[..|targetTokens|] == targetTokens;
  }

  lemma SameFilter(token: Token, table: seq<LpToken>)
    ensures HighestLiquidity(Filter(p => Configured(token, p), table)) == TargetPair(token, table)
  {
  }

  // ---------- LP tokens ----------

  /** `findKeyPair`. */
  function KeyPair(p: LpToken): Option<Token> {
    if p.pair0.hasPriceAddress then Some(p.pair0)
    else if p.pair1.hasPriceAddress then Some(p.pair1)
    else None
  }

  /** The padding calls of an LP token without key pair carry the zero address as call data. */
  function LpCalls(abi: Abi, zeroData: Bytes, p: LpToken): (r: seq<Call>)
    ensures |r| == 2
  {
    match KeyPair(p)
    case None => [Call(ZERO_ADDRESS, zeroData), Call(ZERO_ADDRESS, zeroData)]
    case Some(key) => [Call(p.token.address, abi.totalSupply), Call(key.address, abi.balanceOf(p.token.address))]
  }

  function LpPrice(keyBalance: real, keyPrice: real, totalSupply: real): Num {
    ToFixed(if totalSupply == 0.0 then Finite(0.0)
            else Div(Mul(Mul(Finite(keyBalance), Finite(keyPrice)), Finite(2.0)), Finite(totalSupply)))
  }

  /** The code scales the key token's balance by the decimals of the LP token. */
  function LpUpdate(chain: Call -> Response, abi: Abi, p: LpToken, key: Token): Update {
    var totalSupply := Amount(abi, chain(Call(p.token.address, abi.totalSupply)), p.token.decimals);
    var keyBalance := Amount(abi, chain(Call(key.address, abi.balanceOf(p.token.address))), p.token.decimals);
    Update(p.token.id, LpPrice(keyBalance, key.priceValue, totalSupply), Finite(totalSupply))
  }

  function LpUpdates(chain: Call -> Response, abi: Abi, tokens: seq<LpToken>): seq<Update> {
    if tokens == [] then []
    else
      var last := tokens[|tokens| - 1];
      LpUpdates(chain, abi, tokens[..|tokens| - 1]) +
      if KeyPair(last).Some? then [LpUpdate(chain, abi, last, KeyPair(last).value)] else []
  }

  /** `crawlTokenSupplyAndPrice` of the LP-token job. */
  method CrawlLpTokens(chain: Call -> Response, abi: Abi, zeroData: Bytes, targetTokens: seq<LpToken>)
    returns (updateParams: seq<Update>)
    ensures updateParams == LpUpdates(chain, abi, targetTokens)
  {
    var infoBatchCallMap := ReadInGroups(chain, MapSeq(p => LpCalls(abi, zeroData, p), targetTokens), 2);
    updateParams := [];
    for i := 0 to |targetTokens|
      invariant updateParams == LpUpdates(chain, abi, targetTokens[..i])
    {
      assert targetTokens[..i + 1][..i] == targetTokens[..i];
      var token, result := targetTokens[i].token, infoBatchCallMap[i];
      var keyPair := KeyPair(targetTokens[i]);
      if keyPair.Some? {
        var totalSupply := Amount(abi, result[0], token.decimals);
        var keyBalance := Amount(abi, result[1], token.decimals);
        updateParams := updateParams +
        [Update(token.id, LpPrice(keyBalance, keyPair.value.priceValue, totalSupply), Finite(totalSupply))];
      }
    }
    assert targetTokens[..|targetTokens|] == targetTokens;
  }

  // ---------- what is stored ----------

  const MAX: real := 100000000000000000000000000000000000.0 // 10^35

  /** From here on `Number(text)` is infinite: 2^1024 - 2^970. */
  const NUMBER_OVERFLOW: real :=
    179769313486231580793728971405303415079934132710037826936173778980444968292764750946649017977587207096330286416692887910946555547851940402630657488671505820681908902000708383676273854845817711531764475730270069855571366959622842914819860834936475292719074168444365510704342711559699508093042880.0

  predicate JsFinite(x: Num) { x.Finite? && Abs(x.v) < NUMBER_OVERFLOW }

  /** The clamp of `bulkUpdate`. */
  function Stored(x: Num): real {
    if GreaterThan(x, Finite(MAX)) || !JsFinite(x) then 0.0 else x.v
  }

  /** What is computed is never a negative number. */
  predicate NonNegative(x: Num) { x.NaN? || (x.Infinite? && x.positive) || (x.Finite? && x.v >= 0.0) }

  lemma StoredExactly(x: Num)
    requires NonNegative(x)
    ensures 0.0 <= Stored(x) <= 100000000000000000000000000000000000.0
    ensures x == Finite(Stored(x)) <==> (x.Finite? && x.v <= 100000000000000000000000000000000000.0)
    ensures !(x.Finite? && x.v <= 100000000000000000000000000000000000.0) ==> Stored(x) == 0.0
  {
  }

  /** A printed quotient of a non-negative value by a positive amount. */
  lemma QuotientBound(value: real, amount: real)
    requires value >= 0.0 && amount > 0.0
    ensures var p := ToFixed(Div(Finite(value), Finite(amount)));
            && p.Finite? && p.v >= 0.0 && p == Finite(RoundHalfUp(value / amount))
            && Abs(p.v * amount - value) <= HALF_ULP * amount
  {
    DivTimesDivisor(value, amount);
    RoundNonNegative(value, amount);
  }

  /** What a printed price means: how far it is from value / amount, and when it is stored as zero. */
  ghost predicate PricedAt(p: Num, value: real, amount: real) {
    && NonNegative(p)
    && (amount > 0.0 ==> p.Finite? && Abs(p.v * amount - value) <= 0.000000000000000000005 * amount)
    && (amount > 0.0 && p.v <= 100000000000000000000000000000000000.0 ==> Stored(p) == p.v)
    && (amount == 0.0 || (p.Finite? && p.v > 100000000000000000000000000000000000.0) ==> Stored(p) == 0.0)
  }

  lemma QuotientPriced(value: real, amount: real)
    requires value >= 0.0 && amount >= 0.0
    ensures PricedAt(ToFixed(Div(Finite(value), Finite(amount))), value, amount)
  {
    if amount > 0.0 {
      QuotientBound(value, amount);
      StoredExactly(ToFixed(Div(Finite(value), Finite(amount))));
    }
  }

  /** Unless clamped, price times pool balance gives the value of the other side back, up to half a unit of
      20 places per unit of balance; an empty pool and a price over 10^35 are stored as zero. */
  lemma SinglePriceBound(otherBalance: real, otherPrice: real, balance: real)
    requires otherBalance >= 0.0 && otherPrice >= 0.0 && balance >= 0.0
    ensures PricedAt(SinglePrice(otherBalance, otherPrice, balance), otherBalance * otherPrice, balance)
  {
    hide *;
    ProductNonNegative(otherBalance, otherPrice);
    QuotientPriced(otherBalance * otherPrice, balance);
    UnfoldSinglePrice(otherBalance, otherPrice, balance);
  }

  lemma RoundNonNegative(a: real, b: real)
    requires a >= 0.0 && b > 0.0
    ensures a / b >= 0.0
    ensures RoundHalfUp(a / b) >= 0.0
  {
  }

  lemma LpPriceBound(keyBalance: real, keyPrice: real, supply: real)
    requires keyBalance >= 0.0 && keyPrice >= 0.0 && supply >= 0.0
    ensures PricedAt(LpPrice(keyBalance, keyPrice, supply), keyBalance * keyPrice * 2.0, supply)
  {
    hide *;
    ProductNonNegative(keyBalance, keyPrice);
    if supply == 0.0 {
      ZeroPriced(keyBalance * keyPrice * 2.0);
    } else {
      QuotientPriced(keyBalance * keyPrice * 2.0, supply);
    }
    UnfoldLpPrice(keyBalance, keyPrice, supply);
  }

  lemma UnfoldSinglePrice(otherBalance: real, otherPrice: real, balance: real)
    ensures SinglePrice(otherBalance, otherPrice, balance)
         == ToFixed(Div(Finite(otherBalance * otherPrice), Finite(balance)))
  {
    assert Mul(Finite(otherBalance), Finite(otherPrice)) == Finite(otherBalance * otherPrice);
  }

  lemma ProductNonNegative(x: real, y: real)
    requires x >= 0.0 && y >= 0.0
    ensures x * y >= 0.0
  {
  }

  lemma ZeroPriced(value: real)
    ensures PricedAt(ToFixed(Finite(0.0)), value, 0.0)
  {
    RoundKeepsZero();
  }

  lemma RoundKeepsZero()
    ensures RoundHalfUp(0.0) == 0.0
  {
    RoundKeepsGrid(0);
  }

  /** The LP price does not depend on the LP token's decimals at all: they cancel before the rounding. */
  lemma LpPriceIgnoresDecimals(rawKey: nat, keyPrice: real, rawSupply: nat, decimals: nat)
    requires rawSupply > 0
    ensures LpPrice(DivideDecimals(rawKey, decimals), keyPrice, DivideDecimals(rawSupply, decimals))
         == Finite(RoundHalfUp(2.0 * (rawKey as real * keyPrice) / rawSupply as real))
  {
    hide *;
    var scale := Pow10(decimals);
    var k, s := DivideDecimals(rawKey, decimals), DivideDecimals(rawSupply, decimals);
    var supply, value := rawSupply as real, k * keyPrice * 2.0;
    var rawValue := 2.0 * (rawKey as real * keyPrice);
    KeyScaled(rawKey, decimals);
    KeyScaled(rawSupply, decimals);
    Rescale(k, keyPrice, scale, rawKey as real);
    CancelFactor(rawValue, supply, scale);
    RoundIdempotent(rawValue / supply);
    SameQuotient(value, s, rawValue / supply);
    UnfoldLpPrice(k, keyPrice, s);
  }

  lemma UnfoldLpPrice(keyBalance: real, keyPrice: real, supply: real)
    ensures supply == 0.0 ==> LpPrice(keyBalance, keyPrice, supply) == ToFixed(Finite(0.0))
    ensures supply != 0.0 ==>
              LpPrice(keyBalance, keyPrice, supply) == ToFixed(Div(Finite(keyBalance * keyPrice * 2.0), Finite(supply)))
  {
    assert Mul(Finite(keyBalance), Finite(keyPrice)) == Finite(keyBalance * keyPrice);
    assert Mul(Finite(keyBalance * keyPrice), Finite(2.0)) == Finite(keyBalance * keyPrice * 2.0);
  }

  lemma KeyScaled(raw: nat, decimals: nat)
    ensures DivideDecimals(raw, decimals) == raw as real / Pow10(decimals)
    ensures DivideDecimals(raw, decimals) * Pow10(decimals) == raw as real
    ensures raw > 0 ==> DivideDecimals(raw, decimals) > 0.0
  {
  }

  lemma SameQuotient(value: real, s: real, q: real)
    requires s != 0.0 && value / s == q && RoundHalfUp(RoundHalfUp(q)) == RoundHalfUp(q)
    ensures ToFixed(Div(Finite(value), Finite(s))) == Finite(RoundHalfUp(q))
  {
  }

  lemma Rescale(k: real, price: real, scale: real, raw: real)
    requires k * scale == raw && scale > 0.0
    ensures 2.0 * (raw * price) / scale == k * price * 2.0
  {
    var v := k * price * 2.0;
    assert v * scale == 2.0 * price * (k * scale);
  }

  /** The LP price before rounding when the key token's balance is scaled by `decimals`; zero without supply. */
  function LpQuotient(rawKey: nat, keyPrice: real, rawSupply: nat, lpDecimals: nat, decimals: nat): real {
    if rawSupply == 0 then 0.0
    else
      KeyScaled(rawSupply, lpDecimals);
      DivideDecimals(rawKey, decimals) * keyPrice * 2.0 / DivideDecimals(rawSupply, lpDecimals)
  }

  /** The price of the code, which scales the key token's balance by the LP token's decimals, and the price with
      the key token's own decimals. */
  function CodeLpPrice(rawKey: nat, keyPrice: real, rawSupply: nat, lpDecimals: nat): Num {
    LpPrice(DivideDecimals(rawKey, lpDecimals), keyPrice, DivideDecimals(rawSupply, lpDecimals))
  }

  function RightLpPrice(rawKey: nat, keyPrice: real, rawSupply: nat, lpDecimals: nat, keyDecimals: nat): Num {
    LpPrice(DivideDecimals(rawKey, keyDecimals), keyPrice, DivideDecimals(rawSupply, lpDecimals))
  }

  function Min(m: nat, n: nat): nat { if m < n then m else n }

  /** The code's price is the right one iff the two tokens have the same decimals, or the larger of the two
      quotients is below half a unit of 20 places, so that both print as zero. */
  lemma LpPriceRightScale(rawKey: nat, keyPrice: real, rawSupply: nat, lpDecimals: nat, keyDecimals: nat)
    requires keyPrice >= 0.0
    ensures CodeLpPrice(rawKey, keyPrice, rawSupply, lpDecimals)
         == RightLpPrice(rawKey, keyPrice, rawSupply, lpDecimals, keyDecimals)
       <==> lpDecimals == keyDecimals
            || LpQuotient(rawKey, keyPrice, rawSupply, lpDecimals, Min(lpDecimals, keyDecimals)) < HALF_ULP
  {
    hide LpQuotient, LpPrice, RoundHalfUp, DivideDecimals;
    PriceOfQuotient(rawKey, keyPrice, rawSupply, lpDecimals, lpDecimals);
    PriceOfQuotient(rawKey, keyPrice, rawSupply, lpDecimals, keyDecimals);
    if lpDecimals < keyDecimals {
      ScalesDiffer(rawKey, keyPrice, rawSupply, lpDecimals, lpDecimals, keyDecimals);
    } else if keyDecimals < lpDecimals {
      ScalesDiffer(rawKey, keyPrice, rawSupply, lpDecimals, keyDecimals, lpDecimals);
    }
  }

  /** The stored prices agree iff the decimals do, or both are stored as zero: too small to print, or over 10^35. */
  lemma LpPriceStoredRight(rawKey: nat, keyPrice: real, rawSupply: nat, lpDecimals: nat, keyDecimals: nat)
    requires keyPrice >= 0.0
    ensures Stored(CodeLpPrice(rawKey, keyPrice, rawSupply, lpDecimals))
         == Stored(RightLpPrice(rawKey, keyPrice, rawSupply, lpDecimals, keyDecimals))
       <==> lpDecimals == keyDecimals
            || (Vanishes(LpQuotient(rawKey, keyPrice, rawSupply, lpDecimals, lpDecimals))
                && Vanishes(LpQuotient(rawKey, keyPrice, rawSupply, lpDecimals, keyDecimals)))
  {
    hide LpQuotient, LpPrice, Stored, Vanishes, DivideDecimals;
    var a := LpQuotient(rawKey, keyPrice, rawSupply, lpDecimals, lpDecimals);
    var b := LpQuotient(rawKey, keyPrice, rawSupply, lpDecimals, keyDecimals);
    LpPriceRightScale(rawKey, keyPrice, rawSupply, lpDecimals, keyDecimals);
    PriceOfQuotient(rawKey, keyPrice, rawSupply, lpDecimals, lpDecimals);
    PriceOfQuotient(rawKey, keyPrice, rawSupply, lpDecimals, keyDecimals);
    StoredZero(a);
    StoredZero(b);
    hide RoundHalfUp;
    if lpDecimals < keyDecimals {
      ScalesDiffer(rawKey, keyPrice, rawSupply, lpDecimals, lpDecimals, keyDecimals);
    } else if keyDecimals < lpDecimals {
      ScalesDiffer(rawKey, keyPrice, rawSupply, lpDecimals, keyDecimals, lpDecimals);
    }
  }

  predicate Vanishes(q: real) { q < HALF_ULP || RoundHalfUp(q) > MAX }

  lemma StoredZero(q: real)
    requires q >= 0.0
    ensures Stored(Finite(RoundHalfUp(q))) == 0.0 <==> Vanishes(q)
    ensures Stored(Finite(RoundHalfUp(q))) != 0.0 ==> Stored(Finite(RoundHalfUp(q))) == RoundHalfUp(q)
  {
    RoundsToZero(q);
  }

  lemma PriceOfQuotient(rawKey: nat, keyPrice: real, rawSupply: nat, lpDecimals: nat, decimals: nat)
    requires keyPrice >= 0.0
    ensures LpQuotient(rawKey, keyPrice, rawSupply, lpDecimals, decimals) >= 0.0
    ensures LpPrice(DivideDecimals(rawKey, decimals), keyPrice, DivideDecimals(rawSupply, lpDecimals))
         == Finite(RoundHalfUp(LpQuotient(rawKey, keyPrice, rawSupply, lpDecimals, decimals)))
  {
    hide LpPrice, RoundHalfUp, DivideDecimals, ToFixed, Div;
    var k, s := DivideDecimals(rawKey, decimals), DivideDecimals(rawSupply, lpDecimals);
    var q := LpQuotient(rawKey, keyPrice, rawSupply, lpDecimals, decimals);
    UnfoldLpPrice(k, keyPrice, s);
    if rawSupply == 0 {
      NoSupply(lpDecimals);
      return;
    }
    KeyScaled(rawKey, decimals);
    KeyScaled(rawSupply, lpDecimals);
    AmountAtLeastZero(rawKey, decimals);
    ProductNonNegative(k, keyPrice);
    RoundNonNegative(k * keyPrice * 2.0, s);
    RoundIdempotent(q);
    SameQuotient(k * keyPrice * 2.0, s, q);
  }

  lemma NoSupply(decimals: nat)
    ensures DivideDecimals(0, decimals) == 0.0 && ToFixed(Finite(0.0)) == Finite(RoundHalfUp(0.0))
  {
  }

  lemma AmountAtLeastZero(raw: nat, decimals: nat)
    ensures DivideDecimals(raw, decimals) >= 0.0
  {
  }

  /** Fewer decimals make the quotient at least ten times as large, and then the two round alike iff the larger
      one rounds to zero. */
  lemma ScalesDiffer(rawKey: nat, keyPrice: real, rawSupply: nat, lpDecimals: nat, few: nat, many: nat)
    requires keyPrice >= 0.0 && few < many
    ensures var a, b := LpQuotient(rawKey, keyPrice, rawSupply, lpDecimals, few),
                        LpQuotient(rawKey, keyPrice, rawSupply, lpDecimals, many);
            && a >= 10.0 * b >= 0.0
            && (RoundHalfUp(a) == RoundHalfUp(b) <==> a < HALF_ULP)
            && (a < HALF_ULP ==> RoundHalfUp(a) == 0.0)
  {
    var a, b := LpQuotient(rawKey, keyPrice, rawSupply, lpDecimals, few),
                LpQuotient(rawKey, keyPrice, rawSupply, lpDecimals, many);
    hide RoundHalfUp, DivideDecimals;
    if rawSupply == 0 {
      RoundsApart(0.0, 0.0);
      return;
    }
    KeyScaled(rawSupply, lpDecimals);
    TenTimes(rawKey, few, many);
    var k, k', s := DivideDecimals(rawKey, few), DivideDecimals(rawKey, many), DivideDecimals(rawSupply, lpDecimals);
    QuotientsScale(k, k', keyPrice, s);
    RoundsApart(a, b);
  }

  lemma QuotientsScale(k: real, k': real, price: real, s: real)
    requires k >= 10.0 * k' >= 0.0 && price >= 0.0 && s > 0.0
    ensures k * price * 2.0 / s >= 10.0 * (k' * price * 2.0 / s) >= 0.0
  {
    var x, y := k * price * 2.0, k' * price * 2.0;
    ProductNonNegative(k - 10.0 * k', price);
    ProductNonNegative(k', price);
    assert x - 10.0 * y == (k - 10.0 * k') * price * 2.0;
    var p, q := x / s, y / s;
    assert p * s == x && q * s == y;
    RoundNonNegative(x - 10.0 * y, s);
    RoundNonNegative(y, s);
    assert (x - 10.0 * y) / s == p - 10.0 * q;
  }

  lemma TenTimes(raw: nat, few: nat, many: nat)
    requires few < many
    ensures DivideDecimals(raw, few) >= 10.0 * DivideDecimals(raw, many) >= 0.0
  {
    hide Pow10;
    Pow10Grows(few, many);
    var f, m, x := Pow10(few), Pow10(many), raw as real;
    if raw != 0 {
      var p, q := x / f, x / m;
      assert p * f == x && q * m == x && q > 0.0;
      ScaledUp(p, q, f, m);
    }
  }

  lemma ScaledUp(p: real, q: real, f: real, m: real)
    requires p * f == q * m && q > 0.0 && f > 0.0 && m >= 10.0 * f
    ensures p >= 10.0 * q
  {
    ProductNonNegative(q, m - 10.0 * f);
    assert (p - 10.0 * q) * f >= 0.0;
    FactorNonNegative(p - 10.0 * q, f);
  }

  lemma FactorNonNegative(d: real, f: real)
    requires d * f >= 0.0 && f > 0.0
    ensures d >= 0.0
  {
  }

  lemma {:induction false} Pow10Grows(few: nat, many: nat)
    requires few < many
    ensures Pow10(many) >= 10.0 * Pow10(few)
  {
    if few < many - 1 {
      Pow10Grows(few, many - 1);
    }
  }

  lemma RoundsToZero(q: real)
    requires q >= 0.0
    ensures RoundHalfUp(q) >= 0.0
    ensures RoundHalfUp(q) == 0.0 <==> q < HALF_ULP
  {
    var n := (Scaled(q) + 0.5).Floor;
    assert RoundHalfUp(q) == GridPoint(n);
    assert n as real <= Scaled(q) + 0.5 < n as real + 1.0;
  }

  lemma RoundsApart(a: real, b: real)
    requires a >= 10.0 * b >= 0.0
    ensures RoundHalfUp(a) == RoundHalfUp(b) <==> a < HALF_ULP
    ensures a < HALF_ULP ==> RoundHalfUp(a) == 0.0
  {
    RoundsToZero(a);
    RoundsToZero(b);
    if a >= HALF_ULP {
      var m, n := (Scaled(b) + 0.5).Floor, (Scaled(a) + 0.5).Floor;
      assert m as real <= Scaled(b) + 0.5 && Scaled(a) + 0.5 < n as real + 1.0 && n >= 1;
      assert Scaled(a) >= 10.0 * Scaled(b);
      assert RoundHalfUp(a) == GridPoint(n) && RoundHalfUp(b) == GridPoint(m);
      assert m < n;
    }
  }

  /** What the job writes for an LP token is that price, of the raw answers of its own two calls. */
  lemma LpUpdateIsCodePrice(chain: Call -> Response, abi: Abi, p: LpToken, key: Token)
    ensures var rawKey := Uint(abi, chain(Call(key.address, abi.balanceOf(p.token.address))));
            var rawSupply := Uint(abi, chain(Call(p.token.address, abi.totalSupply)));
            LpUpdate(chain, abi, p, key)
            == Update(p.token.id, CodeLpPrice(rawKey, key.priceValue, rawSupply, p.token.decimals),
                      Finite(DivideDecimals(rawSupply, p.token.decimals)))
  {
    hide LpPrice, DivideDecimals;
  }

  /** One whole LP token of 18 decimals over one key token of 6 decimals at price 1: worth 2, stored as 2 * 10^-12. */
  lemma WrongLpPrice()
    ensures var decode := (data: Bytes) => if data == [1] then 1000000000000000000 else 1000000;
            var abi := Abi([1], (holder: Address) => [2], decode);
            var chain := (c: Call) => Response(true, c.data);
            var key := Token(1, 0, 11, 6, true, 1.0, 0.0, true);
            var lp := LpToken(Token(3, 0, 13, 18, false, 0.0, 0.0, true), key, key);
            && LpUpdate(chain, abi, lp, key) == Update(3, Finite(0.000000000002), Finite(1.0))
            && Stored(Finite(0.000000000002)) == 0.000000000002
    ensures RightLpPrice(1000000, 1.0, 1000000000000000000, 18, 6) == Finite(2.0)
  {
    hide LpPrice, DivideDecimals, Stored, LpUpdate;
    WrongNumbers();
    SmallAmounts();
    StoredExactly(Finite(0.000000000002));
    var decode := (data: Bytes) => if data == [1] then 1000000000000000000 else 1000000;
    var abi := Abi([1], (holder: Address) => [2], decode);
    var chain := (c: Call) => Response(true, c.data);
    var key := Token(1, 0, 11, 6, true, 1.0, 0.0, true);
    var lp := LpToken(Token(3, 0, 13, 18, false, 0.0, 0.0, true), key, key);
    assert Uint(abi, chain(Call(11, abi.balanceOf(13)))) == 1000000;
    assert Uint(abi, chain(Call(13, abi.totalSupply))) == 1000000000000000000;
    LpUpdateIsCodePrice(chain, abi, lp, key);
  }

  lemma WrongNumbers()
    ensures LpPrice(0.000000000001, 1.0, 1.0) == Finite(0.000000000002)
    ensures LpPrice(1.0, 1.0, 1.0) == Finite(2.0)
  {
    UnfoldLpPrice(0.000000000001, 1.0, 1.0);
    UnfoldLpPrice(1.0, 1.0, 1.0);
    hide LpPrice;
    RoundKeepsGrid(200000000);
    RoundKeepsGrid(200000000000000000000);
    assert GridPoint(200000000) == 0.000000000002 && GridPoint(200000000000000000000) == 2.0;
    hide RoundHalfUp;
    assert 0.000000000001 * 1.0 * 2.0 == 0.000000000002 && 1.0 * 1.0 * 2.0 == 2.0;
  }

  lemma SmallAmounts()
    ensures DivideDecimals(1000000, 18) == 0.000000000001 && DivideDecimals(1000000, 6) == 1.0
    ensures DivideDecimals(1000000000000000000, 18) == 1.0
  {
    SmallPowers();
    hide Pow10;
  }

  lemma SmallPowers()
    ensures Pow10(6) == 1000000.0 && Pow10(18) == 1000000000000000000.0
  {
    assert Pow10(12) == 1000000000000.0;
  }

  // ---------- what each job writes ----------

  /** The number a call's answer stands for: the decoded integer at the given decimals, zero when the call fails or
      answers nothing. */
  predicate Reads(chain: Call -> Response, abi: Abi, c: Call, decimals: nat, x: real) {
    x * Pow10(decimals)
    == if chain(c).success && chain(c).returnData != [] then abi.decode(chain(c).returnData) as real else 0.0
  }

  lemma AmountReads(chain: Call -> Response, abi: Abi, c: Call, decimals: nat)
    ensures Reads(chain, abi, c, decimals, Amount(abi, chain(c), decimals))
  {
    KeyScaled(Uint(abi, chain(c)), decimals);
    hide DivideDecimals, Pow10;
  }

  /** A pair with the token in it, with supply, price and status. */
  predicate Pool(token: Token, p: LpToken) {
    && (token.id == p.pair0.id || token.id == p.pair1.id)
    && !(p.token.totalSupply == 0.0) && !(p.token.priceValue == 0.0) && p.token.status
  }

  function Worth(p: LpToken): real { p.token.priceValue * p.token.totalSupply }

  /** The first of the most valuable pools of the token, worth more than nothing. */
  ghost predicate BestPool(token: Token, table: seq<LpToken>, p: LpToken) {
    exists i: nat :: BestAt(token, table, i) && table[i] == p
  }

  predicate BestAt(token: Token, table: seq<LpToken>, i: nat)
    ensures BestAt(token, table, i) ==> i < |table|
  {
    && i < |table| && Pool(token, table[i]) && Worth(table[i]) > 0.0
    && (forall j :: 0 <= j < |table| && Pool(token, table[j]) ==> Worth(table[j]) <= Worth(table[i]))
    && (forall j :: 0 <= j < i && Pool(token, table[j]) ==> Worth(table[j]) < Worth(table[i]))
  }

  ghost predicate HasPool(token: Token, table: seq<LpToken>) {
    exists j :: 0 <= j < |table| && Pool(token, table[j]) && Worth(table[j]) > 0.0
  }

  /** The pair a token is priced by: some pair iff the token has a pool that is worth something, and then the first of
      the most valuable. */
  lemma {:induction false} TargetPairExact(token: Token, table: seq<LpToken>)
    ensures TargetPair(token, table).Some? <==> HasPool(token, table)
    ensures TargetPair(token, table).Some? ==> BestPool(token, table, TargetPair(token, table).value)
  {
    hide TargetPair, HasPool, BestPool, BestAt, Pool, Worth;
    if table == [] {
      NoTable(token);
    } else {
      var n := |table| - 1;
      var init, last := table[..n], table[n];
      assert init + [last] == table;
      TargetPairExact(token, init);
      TargetPairNext(token, init, last);
      SameWorth(token, last);
      var before := TargetPair(token, init);
      HasPoolNext(token, init, last);
      if before.Some? {
        SameWorth(token, before.value);
        BestPoolNext(token, init, last, before.value);
      } else {
        FirstPool(token, init, last);
      }
    }
  }

  lemma NoTable(token: Token)
    ensures TargetPair(token, []).None? && !HasPool(token, [])
  {
  }

  lemma HasPoolNext(token: Token, init: seq<LpToken>, last: LpToken)
    ensures HasPool(token, init + [last]) <==> HasPool(token, init) || (Pool(token, last) && Worth(last) > 0.0)
  {
    hide Pool, Worth;
    var table := init + [last];
    if j :| 0 <= j < |init| && Pool(token, init[j]) && Worth(init[j]) > 0.0 {
      assert Pool(token, table[j]);
    }
    if Pool(token, last) && Worth(last) > 0.0 {
      assert Pool(token, table[|init|]);
    }
  }

  lemma BestPoolNext(token: Token, init: seq<LpToken>, last: LpToken, p: LpToken)
    requires BestPool(token, init, p)
    ensures Worth(p) > 0.0
    ensures BestPool(token, init + [last], if Pool(token, last) && Worth(last) > Worth(p) then last else p)
  {
    hide Pool, Worth;
    var i: nat :| BestAt(token, init, i) && init[i] == p;
    var table := init + [last];
    assert table[|init|] == last && table[i] == p;
    if Pool(token, last) && Worth(last) > Worth(p) {
      forall j | 0 <= j < |init| && Pool(token, table[j])
        ensures Worth(table[j]) < Worth(last)
      {
        assert Pool(token, init[j]);
      }
      assert BestAt(token, table, |init|);
    } else {
      forall j | 0 <= j < |table| && Pool(token, table[j])
        ensures Worth(table[j]) <= Worth(p) && (j < i ==> Worth(table[j]) < Worth(p))
      {
        assert j < |init| ==> Pool(token, init[j]);
      }
      assert BestAt(token, table, i);
    }
  }

  lemma FirstPool(token: Token, init: seq<LpToken>, last: LpToken)
    requires !HasPool(token, init)
    ensures Pool(token, last) && Worth(last) > 0.0 ==> BestPool(token, init + [last], last)
  {
    hide Pool, Worth;
    var table := init + [last];
    forall j | 0 <= j < |init| && Pool(token, table[j])
      ensures Worth(table[j]) <= 0.0
    {
      assert Pool(token, init[j]);
    }
    if Pool(token, last) && Worth(last) > 0.0 {
      assert table[|init|] == last && BestAt(token, table, |init|);
    }
  }

  lemma SameWorth(token: Token, p: LpToken)
    ensures Configured(token, p) <==> Pool(token, p)
    ensures Liquidity(p) == Worth(p)
  {
  }

  lemma TargetPairNext(token: Token, init: seq<LpToken>, last: LpToken)
    ensures TargetPair(token, init + [last])
         == var before := TargetPair(token, init);
            if Configured(token, last) && Liquidity(last) > (if before.Some? then Liquidity(before.value) else 0.0)
            then Some(last) else before
  {
    SameFilter(token, init);
    SameFilter(token, init + [last]);
    hide TargetPair;
    var kept := Filter(p => Configured(token, p), init);
    FilterAppend(p => Configured(token, p), init, [last]);
    assert [last][1..] == [];
    assert Filter(p => Configured(token, p), [last]) == if Configured(token, last) then [last] else [];
    assert (kept + [last])[..|kept|] == kept && (kept + [last])[|kept|] == last && kept + [] == kept;
    hide Configured, Liquidity;
  }

  /** The token on the other side of the pool. */
  predicate OtherSide(token: Token, p: LpToken, o: Token) {
    (p.pair0.id == token.id && o == p.pair1) || (p.pair0.id != token.id && p.pair1.id == token.id && o == p.pair0)
  }

  /** The update of a token: its own id, its own supply, and as price the value of the other side of its best pool
      divided by the token's own balance there, each read by its own call at its own decimals. */
  ghost predicate SinglePriced(chain: Call -> Response, abi: Abi, table: seq<LpToken>, token: Token, u: Update) {
    exists p, o, supply, balance, otherBalance, value ::
      BestPool(token, table, p) && OtherSide(token, p, o) && value == otherBalance * o.priceValue
      && SingleReads(chain, abi, token, p, o, u, supply, balance, otherBalance, value)
  }

  ghost predicate SingleReads(chain: Call -> Response, abi: Abi, token: Token, p: LpToken, o: Token, u: Update,
                              supply: real, balance: real, otherBalance: real, value: real)
  {
    && u.id == token.id && u.totalSupply == Finite(supply)
    && Reads(chain, abi, Call(token.address, abi.totalSupply), token.decimals, supply)
    && Reads(chain, abi, Call(token.address, abi.balanceOf(p.token.address)), token.decimals, balance)
    && Reads(chain, abi, Call(o.address, abi.balanceOf(p.token.address)), o.decimals, otherBalance)
    && PricedAt(u.priceValue, value, balance)
  }

  lemma SingleUpdatePriced(chain: Call -> Response, abi: Abi, table: seq<LpToken>, token: Token)
    requires forall i :: 0 <= i < |table| ==> table[i].pair0.priceValue >= 0.0 && table[i].pair1.priceValue >= 0.0
    requires TargetPair(token, table).Some?
    ensures SinglePriced(chain, abi, table, token, SingleUpdate(chain, abi, token, TargetPair(token, table).value))
  {
    hide TargetPair, SinglePrice, Amount, Reads, PricedAt, HasPool;
    TargetPairExact(token, table);
    var p := TargetPair(token, table).value;
    var o, lp := OtherToken(token, p), p.token.address;
    var u := SingleUpdate(chain, abi, token, p);
    var calls := (Call(token.address, abi.totalSupply),
                  Call(token.address, abi.balanceOf(lp)), Call(o.address, abi.balanceOf(lp)));
    AmountReads(chain, abi, calls.0, token.decimals);
    AmountReads(chain, abi, calls.1, token.decimals);
    AmountReads(chain, abi, calls.2, o.decimals);
    var supply, balance := Amount(abi, chain(calls.0), token.decimals), Amount(abi, chain(calls.1), token.decimals);
    var otherBalance := Amount(abi, chain(calls.2), o.decimals);
    var i: nat :| BestAt(token, table, i) && table[i] == p;
    var value := otherBalance * o.priceValue;
    SinglePricedAt(otherBalance, o.priceValue, balance, value);
    assert OtherSide(token, p, o) && BestPool(token, table, p);
    assert SingleReads(chain, abi, token, p, o, u, supply, balance, otherBalance, value);
  }

  lemma SinglePricedAt(otherBalance: real, otherPrice: real, balance: real, value: real)
    requires otherBalance >= 0.0 && otherPrice >= 0.0 && balance >= 0.0 && value == otherBalance * otherPrice
    ensures PricedAt(SinglePrice(otherBalance, otherPrice, balance), value, balance)
  {
    SinglePriceBound(otherBalance, otherPrice, balance);
    hide SinglePrice, Stored;
  }

  /** What the single-token job writes, for any chain, pairs and tokens: in order, one update for each token with a
      pool that is worth something and for no other, and each update is priced by that token's best pool. */
  lemma {:induction false} SingleUpdatesExact(
    chain: Call -> Response, abi: Abi, table: seq<LpToken>, tokens: seq<Token>) returns (at: seq<nat>)
    requires forall i :: 0 <= i < |table| ==> table[i].pair0.priceValue >= 0.0 && table[i].pair1.priceValue >= 0.0
    ensures |at| == |SingleUpdates(chain, abi, table, tokens)| && Ascending(at)
    ensures forall i :: i in at <==> 0 <= i < |tokens| && HasPool(tokens[i], table)
    ensures forall k :: 0 <= k < |at| ==> at[k] < |tokens|
    ensures forall k :: 0 <= k < |at| ==>
                          SinglePriced(chain, abi, table, tokens[at[k]], SingleUpdates(chain, abi, table, tokens)[k])
  {
    hide HasPool, SinglePriced, TargetPair, SingleUpdate;
    at := [];
    if tokens != [] {
      var n := |tokens| - 1;
      at := SingleUpdatesExact(chain, abi, table, tokens[..n]);
      assert forall i :: 0 <= i < n ==> tokens[..n][i] == tokens[i];
      assert forall k :: 0 <= k < |at| ==> at[k] in at && at[k] < n;
      TargetPairExact(tokens[n], table);
      if TargetPair(tokens[n], table).Some? {
        SingleUpdatePriced(chain, abi, table, tokens[n]);
        var earlier := at;
        at := earlier + [n];
        assert forall i :: i in at <==> i in earlier || i == n;
      }
    }
  }

  /** The first of the two tokens of a pair that has a price feed. */
  predicate IsKey(p: LpToken, key: Token) {
    (p.pair0.hasPriceAddress && key == p.pair0)
    || (!p.pair0.hasPriceAddress && p.pair1.hasPriceAddress && key == p.pair1)
  }

  /** The update of an LP token: its own id, its own supply, and as price twice the value of the key token it holds
      divided by the supply, both amounts read by their own calls at the LP token's decimals. */
  ghost predicate LpPriced(chain: Call -> Response, abi: Abi, p: LpToken, u: Update) {
    exists key, supply, keyBalance, value ::
      IsKey(p, key) && value == keyBalance * key.priceValue * 2.0
      && LpReads(chain, abi, p, key, u, supply, keyBalance, value)
  }

  ghost predicate LpReads(chain: Call -> Response, abi: Abi, p: LpToken, key: Token, u: Update,
                          supply: real, keyBalance: real, value: real)
  {
    && u.id == p.token.id && u.totalSupply == Finite(supply)
    && Reads(chain, abi, Call(p.token.address, abi.totalSupply), p.token.decimals, supply)
    && Reads(chain, abi, Call(key.address, abi.balanceOf(p.token.address)), p.token.decimals, keyBalance)
    && PricedAt(u.priceValue, value, supply)
  }

  lemma LpUpdatePriced(chain: Call -> Response, abi: Abi, p: LpToken)
    requires p.pair0.priceValue >= 0.0 && p.pair1.priceValue >= 0.0 && KeyPair(p).Some?
    ensures LpPriced(chain, abi, p, LpUpdate(chain, abi, p, KeyPair(p).value))
  {
    hide LpPrice, Amount, Reads, PricedAt;
    var key := KeyPair(p).value;
    var calls := (Call(p.token.address, abi.totalSupply), Call(key.address, abi.balanceOf(p.token.address)));
    AmountReads(chain, abi, calls.0, p.token.decimals);
    AmountReads(chain, abi, calls.1, p.token.decimals);
    var supply := Amount(abi, chain(calls.0), p.token.decimals);
    var keyBalance := Amount(abi, chain(calls.1), p.token.decimals);
    var value := keyBalance * key.priceValue * 2.0;
    LpPricedAt(keyBalance, key.priceValue, supply, value);
    assert IsKey(p, key);
    assert LpReads(chain, abi, p, key, LpUpdate(chain, abi, p, key), supply, keyBalance, value);
  }

  lemma LpPricedAt(keyBalance: real, keyPrice: real, supply: real, value: real)
    requires keyBalance >= 0.0 && keyPrice >= 0.0 && supply >= 0.0 && value == keyBalance * keyPrice * 2.0
    ensures PricedAt(LpPrice(keyBalance, keyPrice, supply), value, supply)
  {
    LpPriceBound(keyBalance, keyPrice, supply);
    hide LpPrice, Stored;
  }

  /** What the LP-token job writes: in order, one update for each LP token one of whose tokens has a price feed and for
      no other, priced by the first of them that has. */
  lemma {:induction false} LpUpdatesExact(chain: Call -> Response, abi: Abi, tokens: seq<LpToken>)
    returns (at: seq<nat>)
    requires forall i :: 0 <= i < |tokens| ==> tokens[i].pair0.priceValue >= 0.0 && tokens[i].pair1.priceValue >= 0.0
    ensures |at| == |LpUpdates(chain, abi, tokens)| && Ascending(at)
    ensures forall i :: i in at <==>
                          0 <= i < |tokens| && (tokens[i].pair0.hasPriceAddress || tokens[i].pair1.hasPriceAddress)
    ensures forall k :: 0 <= k < |at| ==> at[k] < |tokens|
    ensures forall k :: 0 <= k < |at| ==> LpPriced(chain, abi, tokens[at[k]], LpUpdates(chain, abi, tokens)[k])
  {
    hide LpPriced, LpUpdate;
    at := [];
    if tokens != [] {
      var n := |tokens| - 1;
      at := LpUpdatesExact(chain, abi, tokens[..n]);
      assert forall i :: 0 <= i < n ==> tokens[..n][i] == tokens[i];
      assert forall k :: 0 <= k < |at| ==> at[k] in at && at[k] < n;
      if KeyPair(tokens[n]).Some? {
        LpUpdatePriced(chain, abi, tokens[n]);
        var earlier := at;
        at := earlier + [n];
        assert forall i :: i in at <==> i in earlier || i == n;
      }
    }
  }
}
