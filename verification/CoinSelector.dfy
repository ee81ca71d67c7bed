/** Largest-first selection and the loop that re-estimates the fee until it is
    stable (core/transaction.rs). */
module CoinSelector {
  import opened Common
  import opened Lists

  datatype Utxo = Utxo(txHash: seq<byte>, txIndex: u32, satoshis: u64, keyinstanceId: int, subpath: (u32, u32))

  datatype TransactionError =
    | InsufficientFunds(needed: u64, available: u64)
    | NoUtxos
    | InvalidOutput
    | BsvSdk

  datatype Selection = Selection(selected: seq<Utxo>, totalInput: u64, totalOutput: u64, fee: u64, change: u64)

  type SelectionResult = Result<Selection, TransactionError>

  function Satoshis(u: Utxo): nat { u.satoshis }

  function Value(us: seq<Utxo>): nat { Total(us, Satoshis) }

  function LargestFirst(us: seq<Utxo>): (r: seq<Utxo>)
    ensures |r| == |us|
  {
    SortDesc(us, Satoshis)
  }

  // ----- fees -------------------------------------------------------------

  const BASE_SIZE: nat := 10
  const INPUT_SIZE: nat := 148
  const OUTPUT_SIZE: nat := 34

  function EstimateFee(numInputs: nat, numOutputs: nat, feeRate: u64): nat
  {
    (BASE_SIZE + INPUT_SIZE * numInputs + OUTPUT_SIZE * numOutputs) * feeRate
  }

  /** Every further input costs exactly 148 bytes at the fee rate. */
  lemma FeeStep(j: nat, k: nat, numOutputs: nat, feeRate: u64)
    requires j <= k
    ensures EstimateFee(k, numOutputs, feeRate) ==
            EstimateFee(j, numOutputs, feeRate) + INPUT_SIZE * (k - j) * feeRate
  {
    var size := BASE_SIZE + INPUT_SIZE * j + OUTPUT_SIZE * numOutputs;
    Distribute(size, INPUT_SIZE * (k - j), feeRate);
  }

  lemma Distribute(a: nat, b: nat, c: nat)
    ensures (a + b) * c == a * c + b * c
  {
  }

  lemma FeeMonotone(j: nat, k: nat, numOutputs: nat, feeRate: u64)
    requires j <= k
    ensures EstimateFee(j, numOutputs, feeRate) <= EstimateFee(k, numOutputs, feeRate)
    ensures j < k && feeRate > 0 ==> EstimateFee(j, numOutputs, feeRate) < EstimateFee(k, numOutputs, feeRate)
  {
    FeeStep(j, k, numOutputs, feeRate);
    ProductGrows(INPUT_SIZE * (k - j), feeRate);
  }

  lemma ProductGrows(a: nat, b: nat)
    ensures 0 <= a * b
    ensures a > 0 && b > 0 ==> a * b > 0
  {
  }

  // ----- one selection round ----------------------------------------------

  /** The first `k` of the largest-first order reach `needed`, and no shorter
      nonempty prefix does. */
  ghost predicate ShortestCover(sorted: seq<Utxo>, needed: nat, k: nat)
  {
    && 1 <= k <= |sorted|
    && Value(sorted[..k]) >= needed
    && forall j :: 1 <= j < k ==> Value(sorted[..j]) < needed
  }

  /** What one call of `CoinSelector::select` returns. */
  ghost predicate SelectOutcome(available: seq<Utxo>, target: u64, fee: u64, r: SelectionResult)
  {
    match r
    case Ok(sel) =>
      && ShortestCover(LargestFirst(available), target + fee, |sel.selected|)
      && sel.selected == LargestFirst(available)[..|sel.selected|]
      && sel.totalInput == Value(sel.selected)
      && sel.totalInput == target + sel.fee + sel.change
      && sel.totalOutput == target + sel.change
      && sel.fee == fee
    case Err(InsufficientFunds(needed, have)) =>
      available != [] && needed == target + fee && have == Value(available) < needed
    case Err(NoUtxos) => available == []
    case Err(InvalidOutput) => available != [] && (target + fee > U64_MAX || Value(available) > U64_MAX)
    case Err(BsvSdk) => false
  }

  lemma LargestFirstTotal(us: seq<Utxo>)
    ensures Value(LargestFirst(us)) == Value(us)
    ensures LargestFirst(us)[..|us|] == LargestFirst(us)
  {
    SortDescSorts(us, Satoshis);
    TotalOfPermutation(LargestFirst(us), us, Satoshis);
  }

  lemma PrefixStep(us: seq<Utxo>, i: nat)
    requires i < |us|
    ensures us[..i + 1] == us[..i] + [us[i]]
    ensures Value(us[..i + 1]) == Value(us[..i]) + us[i].satoshis <= Value(us)
  {
    TotalTake(us, i, Satoshis);
    TotalTakeMono(us, i + 1, |us|, Satoshis);
    assert us[..|us|] == us;
  }

  method Select(available: seq<Utxo>, target: u64, fee: u64) returns (r: SelectionResult)
    ensures SelectOutcome(available, target, fee, r)
  {
    if available == [] {
      return Err(NoUtxos);
    }
    if target + fee > U64_MAX {
      return Err(InvalidOutput);
    }
    var needed: u64 := target + fee;
    var sorted := LargestFirst(available);
    LargestFirstTotal(available);
    var selected: seq<Utxo> := [];
    var accumulated: u64 := 0;
    var i := 0;
    while i < |sorted|
      invariant 0 <= i <= |sorted|
      invariant selected == sorted[..i] && accumulated == Value(sorted[..i])
      invariant forall j :: 1 <= j <= i ==> Value(sorted[..j]) < needed
    {
      PrefixStep(sorted, i);
      selected := selected + [sorted[i]];
      if accumulated + sorted[i].satoshis > U64_MAX {
        return Err(InvalidOutput);
      }
      accumulated := accumulated + sorted[i].satoshis;
      if accumulated >= needed {
        var change := accumulated - needed;
        return Ok(Selection(selected, accumulated, target + change, fee, change));
      }
      i := i + 1;
    }
    return Err(InsufficientFunds(needed, accumulated));
  }

  // ----- the fee loop -----------------------------------------------------

  /** `k` coins, taken largest first, pay the target and the fee of spending `k` coins. */
  predicate Pays(sorted: seq<Utxo>, target: nat, numOutputs: nat, feeRate: u64, k: nat)
  {
    1 <= k <= |sorted| && Value(sorted[..k]) >= target + EstimateFee(k, numOutputs, feeRate)
  }

  /** What the fee loop of `build_unsigned` returns: the least number of coins
      that pays for itself. */
  ghost predicate LoopOutcome(utxos: seq<Utxo>, target: u64, numOutputs: nat, feeRate: u64, r: SelectionResult)
  {
    var sorted := LargestFirst(utxos);
    match r
    case Ok(sel) =>
      && Pays(sorted, target, numOutputs, feeRate, |sel.selected|)
      && (forall j :: 1 <= j < |sel.selected| ==> !Pays(sorted, target, numOutputs, feeRate, j))
      && sel.selected == sorted[..|sel.selected|]
      && sel.totalInput == Value(sel.selected)
      && sel.fee == EstimateFee(|sel.selected|, numOutputs, feeRate)
      && sel.totalInput == target + sel.fee + sel.change
      && sel.totalOutput == target + sel.change
    case Err(InsufficientFunds(needed, have)) =>
      && utxos != []
      && (forall j :: !Pays(sorted, target, numOutputs, feeRate, j))
      && have == Value(utxos) < needed <= target + EstimateFee(|utxos|, numOutputs, feeRate)
    case Err(NoUtxos) => utxos == []
    case Err(InvalidOutput) =>
      && utxos != []
      && (target + EstimateFee(|utxos|, numOutputs, feeRate) > U64_MAX || Value(utxos) > U64_MAX)
    case Err(BsvSdk) => false
  }

  /** The fees tried, first to last: each is larger than the one before. */
  ghost predicate StrictlyIncreasing(fees: seq<nat>)
  {
    forall i, j :: 0 <= i < j < |fees| ==> fees[i] < fees[j]
  }

  function MaxInputs(utxos: seq<Utxo>): nat { if utxos == [] then 1 else |utxos| }

  /** A round at the fee of `inputs` coins rules out every prefix it finds too small. */
  lemma RoundRulesOut(sorted: seq<Utxo>, target: nat, numOutputs: nat, feeRate: u64, inputs: nat, end: nat)
    requires inputs >= 1
    requires forall j :: 1 <= j < inputs ==> !Pays(sorted, target, numOutputs, feeRate, j)
    requires end <= |sorted| + 1
    requires forall j :: 1 <= j < end ==> Value(sorted[..j]) < target + EstimateFee(inputs, numOutputs, feeRate)
    ensures forall j :: 1 <= j < end ==> !Pays(sorted, target, numOutputs, feeRate, j)
  {
    forall j | inputs <= j < end
      ensures !Pays(sorted, target, numOutputs, feeRate, j)
    {
      FeeMonotone(inputs, j, numOutputs, feeRate);
    }
  }

  lemma PaysAtLowerFee(sorted: seq<Utxo>, target: nat, numOutputs: nat, feeRate: u64, k: nat, inputs: nat)
    requires 1 <= k <= inputs && k <= |sorted|
    requires Value(sorted[..k]) >= target + EstimateFee(inputs, numOutputs, feeRate)
    ensures Pays(sorted, target, numOutputs, feeRate, k)
  {
    FeeMonotone(k, inputs, numOutputs, feeRate);
  }

  method SelectIterating(utxos: seq<Utxo>, target: u64, numOutputs: nat, feeRate: u64)
    returns (r: SelectionResult, ghost fees: seq<nat>)
    requires EstimateFee(MaxInputs(utxos), numOutputs, feeRate) <= U64_MAX
    ensures LoopOutcome(utxos, target, numOutputs, feeRate, r)
    ensures StrictlyIncreasing(fees) && 1 <= |fees| <= MaxInputs(utxos)
    ensures r.Ok? ==> r.value.fee == fees[|fees| - 1]
  {
    ghost var sorted := LargestFirst(utxos);
    FeeMonotone(1, MaxInputs(utxos), numOutputs, feeRate);
    var fee: u64 := EstimateFee(1, numOutputs, feeRate);
    fees := [fee];
    ghost var inputs := 1;
    while true
      invariant 1 <= inputs <= MaxInputs(utxos) && fee == EstimateFee(inputs, numOutputs, feeRate)
      invariant 1 <= |fees| <= inputs && StrictlyIncreasing(fees) && fees[|fees| - 1] == fee
      invariant forall j :: 1 <= j < inputs ==> !Pays(sorted, target, numOutputs, feeRate, j)
      decreases MaxInputs(utxos) - inputs
    {
      var result := Select(utxos, target, fee);
      FeeMonotone(inputs, MaxInputs(utxos), numOutputs, feeRate);
      if result.Err? {
        if result.error.InsufficientFunds? {
          NoPrefixPays(utxos, target, numOutputs, feeRate, inputs);
        }
        return result, fees;
      }
      var count := |result.value.selected|;
      RoundRulesOut(sorted, target, numOutputs, feeRate, inputs, count);
      FeeMonotone(count, MaxInputs(utxos), numOutputs, feeRate);
      var actualFee: u64 := EstimateFee(count, numOutputs, feeRate);
      if actualFee == fee {
        return result, fees;
      }
      if count < inputs {
        PaysAtLowerFee(sorted, target, numOutputs, feeRate, count, inputs);
        assert false;
      }
      FeeMonotone(inputs, count, numOutputs, feeRate);
      fee := actualFee;
      fees := fees + [fee];
      inputs := count;
    }
  }

  lemma NoPrefixPays(utxos: seq<Utxo>, target: nat, numOutputs: nat, feeRate: u64, inputs: nat)
    requires inputs >= 1
    requires forall j :: 1 <= j < inputs ==> !Pays(LargestFirst(utxos), target, numOutputs, feeRate, j)
    requires Value(utxos) < target + EstimateFee(inputs, numOutputs, feeRate)
    ensures forall j :: !Pays(LargestFirst(utxos), target, numOutputs, feeRate, j)
  {
    var sorted := LargestFirst(utxos);
    SortDescSorts(utxos, Satoshis);
    TotalOfPermutation(sorted, utxos, Satoshis);
    assert sorted[..|sorted|] == sorted;
    forall j | 1 <= j < |sorted| + 1
      ensures Value(sorted[..j]) < target + EstimateFee(inputs, numOutputs, feeRate)
    {
      TotalTakeMono(sorted, j, |sorted|, Satoshis);
    }
    RoundRulesOut(sorted, target, numOutputs, feeRate, inputs, |sorted| + 1);
  }

  // ----- what the outcome means -------------------------------------------

  /** Any subset of the coins that covers the target plus its own fee shows that
      as many of the largest coins do. */
  lemma SubsetPaysImpliesPrefixPays(utxos: seq<Utxo>, mask: seq<bool>, target: nat, numOutputs: nat, feeRate: u64)
    requires |mask| == |utxos| && target > 0
    requires Value(Pick(utxos, mask)) >= target + EstimateFee(|Pick(utxos, mask)|, numOutputs, feeRate)
    ensures Pays(LargestFirst(utxos), target, numOutputs, feeRate, |Pick(utxos, mask)|)
  {
    var sorted := LargestFirst(utxos);
    var chosen := Pick(utxos, mask);
    SortDescSorts(utxos, Satoshis);
    var mask' := SortDescPick(utxos, mask, Satoshis);
    var chosen' := Pick(sorted, mask');
    assert |chosen'| == |multiset(chosen')| == |multiset(chosen)| == |chosen|;
    TotalOfPermutation(chosen', chosen, Satoshis);
    PrefixOutweighs(sorted, mask', Satoshis);
    ProductGrows(BASE_SIZE + INPUT_SIZE * |chosen| + OUTPUT_SIZE * numOutputs, feeRate);
  }

  /** Main result: the loop spends the fewest coins possible. No subset of the
      coins with fewer members covers the payment plus that subset's own fee. */
  lemma LargestFirstIsOptimal(utxos: seq<Utxo>, target: u64, numOutputs: nat, feeRate: u64,
                              r: SelectionResult, mask: seq<bool>)
    requires target > 0 && |mask| == |utxos|
    requires LoopOutcome(utxos, target, numOutputs, feeRate, r) && r.Ok?
    requires |Pick(utxos, mask)| < |r.value.selected|
    ensures Value(Pick(utxos, mask)) < target + EstimateFee(|Pick(utxos, mask)|, numOutputs, feeRate)
  {
    if Value(Pick(utxos, mask)) >= target + EstimateFee(|Pick(utxos, mask)|, numOutputs, feeRate) {
      SubsetPaysImpliesPrefixPays(utxos, mask, target, numOutputs, feeRate);
    }
  }

  /** Some subset of the coins pays the target and its own fee. */
  ghost predicate Solvable(utxos: seq<Utxo>, target: nat, numOutputs: nat, feeRate: u64)
  {
    exists mask: seq<bool> :: |mask| == |utxos| && MaskPays(utxos, mask, target, numOutputs, feeRate)
  }

  predicate MaskPays(utxos: seq<Utxo>, mask: seq<bool>, target: nat, numOutputs: nat, feeRate: u64)
    requires |mask| == |utxos|
  {
    Value(Pick(utxos, mask)) >= target + EstimateFee(|Pick(utxos, mask)|, numOutputs, feeRate)
  }

  lemma PrefixPaysIsSolvable(utxos: seq<Utxo>, target: nat, numOutputs: nat, feeRate: u64, k: nat)
    requires Pays(LargestFirst(utxos), target, numOutputs, feeRate, k)
    ensures Solvable(utxos, target, numOutputs, feeRate)
  {
    var sorted := LargestFirst(utxos);
    PickFirst(sorted, k);
    var mask := SortDescUnpick(utxos, FirstMask(|sorted|, k), Satoshis);
    var chosen := Pick(utxos, mask);
    assert |chosen| == |multiset(chosen)| == |multiset(sorted[..k])| == k;
    TotalOfPermutation(chosen, sorted[..k], Satoshis);
    assert MaskPays(utxos, mask, target, numOutputs, feeRate);
  }

  /** Main result: the loop decides solvability. It succeeds only on solvable
      inputs, reports insufficient funds only on unsolvable ones, and when the
      sums fit 64 bits it does one of the two on every nonempty coin list. */
  lemma LoopDecidesSolvability(utxos: seq<Utxo>, target: u64, numOutputs: nat, feeRate: u64, r: SelectionResult)
    requires target > 0
    requires LoopOutcome(utxos, target, numOutputs, feeRate, r)
    ensures r.Ok? ==> Solvable(utxos, target, numOutputs, feeRate)
    ensures r.Err? && r.error.InsufficientFunds? ==> !Solvable(utxos, target, numOutputs, feeRate)
    ensures utxos != [] && Value(utxos) <= U64_MAX
            && target + EstimateFee(|utxos|, numOutputs, feeRate) <= U64_MAX ==>
              (r.Ok? <==> Solvable(utxos, target, numOutputs, feeRate)) &&
              (r.Err? ==> r.error.InsufficientFunds?)
  {
    if r.Ok? {
      PrefixPaysIsSolvable(utxos, target, numOutputs, feeRate, |r.value.selected|);
    } else if r.error.InsufficientFunds? {
      forall mask: seq<bool> | |mask| == |utxos|
        ensures !MaskPays(utxos, mask, target, numOutputs, feeRate)
      {
        if MaskPays(utxos, mask, target, numOutputs, feeRate) {
          SubsetPaysImpliesPrefixPays(utxos, mask, target, numOutputs, feeRate);
        }
      }
    }
  }
}
