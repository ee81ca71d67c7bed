/** Coins, the one-pass largest-first fallback, and its agreement with the
    iterating loop (core/coinchooser.rs, core/transaction.rs). */
module CoinChooser {
  import opened Common
  import opened Lists
  import Sel = CoinSelector

  datatype Coin = Coin(txHash: seq<byte>, txIndex: u32, value: u64, keyinstanceId: int, estimatedSize: u64)

  datatype Strategy = BranchAndBound | RandomSubset | Privacy

  datatype ChooserError = NoCoins | InsufficientFunds(needed: u64, available: u64) | Overflow

  datatype Chosen = Chosen(coins: seq<Coin>, totalInput: u64, fee: u64, change: u64)

  type ChooserResult = Result<Chosen, ChooserError>

  function ValueOf(c: Coin): nat { c.value }

  function SizeOf(c: Coin): nat { c.estimatedSize }

  function Value(coins: seq<Coin>): nat { Total(coins, ValueOf) }

  function Size(coins: seq<Coin>): nat { Total(coins, SizeOf) }

  const BASE_SIZE: nat := 10
  const CHANGE_OUTPUT_COST: nat := 34

  /** The chooser's own fee: base and inputs, no outputs. */
  function SizeFee(inputSize: nat, feeRate: u64): nat
  {
    (BASE_SIZE + inputSize) * feeRate
  }

  function InputFee(coins: seq<Coin>, feeRate: u64): nat
  {
    SizeFee(Size(coins), feeRate)
  }

  function LargestFirst(coins: seq<Coin>): (r: seq<Coin>)
    ensures |r| == |coins|
  {
    SortDesc(coins, ValueOf)
  }

  lemma LargestFirstTotals(coins: seq<Coin>)
    ensures Value(LargestFirst(coins)) == Value(coins)
    ensures Size(LargestFirst(coins)) == Size(coins)
    ensures LargestFirst(coins)[..|coins|] == LargestFirst(coins)
  {
    SortDescSorts(coins, ValueOf);
    TotalOfPermutation(LargestFirst(coins), coins, ValueOf);
    TotalOfPermutation(LargestFirst(coins), coins, SizeOf);
  }

  lemma PrefixStep(coins: seq<Coin>, i: nat)
    requires i < |coins|
    ensures coins[..i + 1] == coins[..i] + [coins[i]]
    ensures Value(coins[..i + 1]) == Value(coins[..i]) + coins[i].value <= Value(coins)
    ensures Size(coins[..i + 1]) == Size(coins[..i]) + coins[i].estimatedSize <= Size(coins)
  {
    TotalTake(coins, i, ValueOf);
    TotalTake(coins, i, SizeOf);
    TotalTakeMono(coins, i + 1, |coins|, ValueOf);
    TotalTakeMono(coins, i + 1, |coins|, SizeOf);
    assert coins[..|coins|] == coins;
  }

  lemma SizeFeeMonotone(small: nat, large: nat, feeRate: u64)
    requires small <= large
    ensures SizeFee(small, feeRate) <= SizeFee(large, feeRate)
  {
    Sel.Distribute(BASE_SIZE + small, large - small, feeRate);
    Sel.ProductGrows(large - small, feeRate);
  }

  // ----- largest first in one pass ----------------------------------------

  predicate Covers(sorted: seq<Coin>, target: nat, feeRate: u64, k: nat)
  {
    1 <= k <= |sorted| && Value(sorted[..k]) >= target + InputFee(sorted[..k], feeRate)
  }

  /** None of the first `n` prefixes covers. */
  ghost predicate NoneCovers(sorted: seq<Coin>, target: nat, feeRate: u64, n: nat)
  {
    forall j :: 1 <= j <= n ==> !Covers(sorted, target, feeRate, j)
  }

  /** What a pass over a given order returns. */
  ghost predicate PassOutcome(order: seq<Coin>, target: u64, feeRate: u64, r: ChooserResult)
  {
    match r
    case Ok(c) =>
      && Covers(order, target, feeRate, |c.coins|)
      && NoneCovers(order, target, feeRate, |c.coins| - 1)
      && c.coins == order[..|c.coins|]
      && c.totalInput == Value(c.coins)
      && c.fee == InputFee(c.coins, feeRate)
      && c.totalInput == target + c.fee + c.change
    case Err(InsufficientFunds(needed, available)) =>
      && NoneCovers(order, target, feeRate, |order|)
      && needed == target + InputFee(order, feeRate)
      && available == Value(order)
    case Err(Overflow) => Value(order) > U64_MAX
    case Err(NoCoins) => false
  }

  /** What `fallback_largest_first` returns: the shortest prefix of the coins in
      decreasing value that covers payment and fee, if there is one. */
  ghost predicate OnePassOutcome(coins: seq<Coin>, target: u64, feeRate: u64, r: ChooserResult)
  {
    && PassOutcome(LargestFirst(coins), target, feeRate, r)
    && (r.Err? && r.error.InsufficientFunds? ==>
          r.error.needed == target + InputFee(coins, feeRate) && r.error.available == Value(coins))
  }

  method FallbackLargestFirst(coins: seq<Coin>, target: u64, feeRate: u64) returns (r: ChooserResult)
    requires target + InputFee(coins, feeRate) <= U64_MAX
    ensures OnePassOutcome(coins, target, feeRate, r)
  {
    LargestFirstTotals(coins);
    r := TakeInOrder(LargestFirst(coins), target, feeRate);
  }

  /** The loop of the fallback. */
  method TakeInOrder(sorted: seq<Coin>, target: u64, feeRate: u64) returns (r: ChooserResult)
    requires target + InputFee(sorted, feeRate) <= U64_MAX
    ensures PassOutcome(sorted, target, feeRate, r)
  {
    var selected: seq<Coin> := [];
    var accumulated: u64 := 0;
    var inputSize: nat := 0;
    var i := 0;
    while i < |sorted|
      invariant 0 <= i <= |sorted|
      invariant selected == sorted[..i]
      invariant accumulated == Value(selected) && inputSize == Size(selected)
      invariant NoneCovers(sorted, target, feeRate, i)
    {
      PrefixStep(sorted, i);
      selected := selected + [sorted[i]];
      if accumulated + sorted[i].value > U64_MAX {
        return Err(Overflow);
      }
      accumulated := accumulated + sorted[i].value;
      inputSize := inputSize + sorted[i].estimatedSize;
      SizeFeeMonotone(inputSize, Size(sorted), feeRate);
      var fee: u64 := SizeFee(inputSize, feeRate);
      if accumulated >= target + fee {
        return Ok(Chosen(selected, accumulated, fee, accumulated - target - fee));
      }
      i := i + 1;
    }
    assert selected == sorted;
    return Err(InsufficientFunds(target + SizeFee(inputSize, feeRate), accumulated));
  }

  // ----- agreement with the iterating loop --------------------------------

  function UtxoToCoin(u: Sel.Utxo): Coin
  {
    Coin(u.txHash, u.txIndex, u.satoshis, u.keyinstanceId, Sel.INPUT_SIZE)
  }

  function UtxosToCoins(us: seq<Sel.Utxo>): (r: seq<Coin>)
    ensures |r| == |us|
  {
    Map(UtxoToCoin, us)
  }

  lemma {:induction false} CoinsKeepTotals(us: seq<Sel.Utxo>)
    ensures Value(UtxosToCoins(us)) == Sel.Value(us)
    ensures Size(UtxosToCoins(us)) == Sel.INPUT_SIZE * |us|
  {
    if us != [] {
      CoinsKeepTotals(us[1..]);
      assert UtxosToCoins(us)[1..] == UtxosToCoins(us[1..]);
    }
  }

  lemma SortedCoins(us: seq<Sel.Utxo>)
    ensures LargestFirst(UtxosToCoins(us)) == UtxosToCoins(Sel.LargestFirst(us))
  {
    SortDescMap(us, UtxoToCoin, Sel.Satoshis, ValueOf);
  }

  /** Coins sort as the UTXOs they come from, and a prefix covers exactly when it pays. */
  lemma CoversIsPays(us: seq<Sel.Utxo>, target: nat, feeRate: u64, k: nat)
    ensures LargestFirst(UtxosToCoins(us)) == UtxosToCoins(Sel.LargestFirst(us))
    ensures Covers(LargestFirst(UtxosToCoins(us)), target, feeRate, k)
            <==> Sel.Pays(Sel.LargestFirst(us), target, 0, feeRate, k)
  {
    SortedCoins(us);
    var sorted := Sel.LargestFirst(us);
    if 1 <= k <= |us| {
      CoinsKeepTotals(sorted[..k]);
      assert UtxosToCoins(sorted)[..k] == UtxosToCoins(sorted[..k]);
    }
  }

  /** The least prefix that covers is as long as the least that pays. */
  lemma SameLeast(us: seq<Sel.Utxo>, target: nat, feeRate: u64, k: nat, j: nat)
    requires Sel.Pays(Sel.LargestFirst(us), target, 0, feeRate, k)
    requires forall i :: 1 <= i < k ==> !Sel.Pays(Sel.LargestFirst(us), target, 0, feeRate, i)
    requires Covers(LargestFirst(UtxosToCoins(us)), target, feeRate, j)
    requires NoneCovers(LargestFirst(UtxosToCoins(us)), target, feeRate, j - 1)
    ensures k == j
  {
    CoversIsPays(us, target, feeRate, k);
    CoversIsPays(us, target, feeRate, j);
  }

  /** Both take the same coins out of the sorted lists. */
  lemma SamePrefix(us: seq<Sel.Utxo>, k: nat)
    requires k <= |us|
    ensures LargestFirst(UtxosToCoins(us))[..k] == UtxosToCoins(Sel.LargestFirst(us)[..k])
  {
    SortedCoins(us);
    assert UtxosToCoins(Sel.LargestFirst(us))[..k] == UtxosToCoins(Sel.LargestFirst(us)[..k]);
  }

  lemma BothOkAgree(us: seq<Sel.Utxo>, target: u64, feeRate: u64, sel: Sel.Selection, c: Chosen)
    requires Sel.LoopOutcome(us, target, 0, feeRate, Ok(sel))
    requires PassOutcome(LargestFirst(UtxosToCoins(us)), target, feeRate, Ok(c))
    ensures c.coins == UtxosToCoins(sel.selected)
    ensures c.totalInput == sel.totalInput && c.fee == sel.fee && c.change == sel.change
  {
    SameLeast(us, target, feeRate, |sel.selected|, |c.coins|);
    SamePrefix(us, |sel.selected|);
    CoinsKeepTotals(sel.selected);
  }

  lemma BothFailTogether(us: seq<Sel.Utxo>, target: u64, feeRate: u64, loop: Sel.SelectionResult, pass: ChooserResult)
    requires Sel.LoopOutcome(us, target, 0, feeRate, loop)
    requires PassOutcome(LargestFirst(UtxosToCoins(us)), target, feeRate, pass)
    requires Sel.Value(us) <= U64_MAX && target + Sel.EstimateFee(|us|, 0, feeRate) <= U64_MAX
    ensures loop.Ok? <==> pass.Ok?
  {
    CoinsKeepTotals(us);
    LargestFirstTotals(UtxosToCoins(us));
    if loop.Ok? {
      CoversIsPays(us, target, feeRate, |loop.value.selected|);
    }
    if pass.Ok? {
      CoversIsPays(us, target, feeRate, |pass.value.coins|);
    }
  }

  /** Main result: the one-pass fallback refines the iterating loop. On the same
      coins, with no outputs counted, both fail or both return the same coins,
      fee and change. */
  lemma OnePassAgreesWithLoop(us: seq<Sel.Utxo>, target: u64, feeRate: u64,
                              loop: Sel.SelectionResult, pass: ChooserResult)
    requires Sel.LoopOutcome(us, target, 0, feeRate, loop)
    requires OnePassOutcome(UtxosToCoins(us), target, feeRate, pass)
    requires Sel.Value(us) <= U64_MAX && target + Sel.EstimateFee(|us|, 0, feeRate) <= U64_MAX
    ensures loop.Ok? <==> pass.Ok?
    ensures loop.Ok? ==>
              && pass.value.coins == UtxosToCoins(loop.value.selected)
              && pass.value.totalInput == loop.value.totalInput
              && pass.value.fee == loop.value.fee
              && pass.value.change == loop.value.change
  {
    BothFailTogether(us, target, feeRate, loop, pass);
    if loop.Ok? && pass.Ok? {
      BothOkAgree(us, target, feeRate, loop.value, pass.value);
    }
  }
}
