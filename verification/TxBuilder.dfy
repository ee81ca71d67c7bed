/** `TxBuilder::build_unsigned`: selection by any strategy, then the inputs and
    outputs of the transaction (core/transaction.rs). Address decoding and
    script templates are parameters. */
module TxBuilder {
  import opened Common
  import opened Lists
  import Sel = CoinSelector
  import Ch = CoinChooser
  import Bnb
  import Rnd = RandomSelect
  import Prng

  datatype Payment = Payment(address: string, satoshis: u64)

  datatype TxInput = TxInput(txHash: seq<byte>, txIndex: u32)

  datatype TxOutput = TxOutput(satoshis: u64, script: seq<byte>, change: bool)

  datatype Tx = Tx(inputs: seq<TxInput>, outputs: seq<TxOutput>)

  /** The parts of the SDK the builder calls: the locking script of an address
      (none when the address does not decode), the data script, and SHA-256. */
  datatype Sdk = Sdk(lock: string -> Option<seq<byte>>, dataScript: seq<byte> -> seq<byte>, sha256: Prng.Hash)

  /** The arguments of `build_unsigned`. */
  datatype Request = Request(utxos: seq<Sel.Utxo>, outputs: seq<Payment>, changeAddress: Option<string>,
                             feeRate: u64, opReturn: Option<seq<byte>>, strategy: Option<Ch.Strategy>)

  function Amount(p: Payment): nat { p.satoshis }

  function Paid(outputs: seq<Payment>): nat { Total(outputs, Amount) }

  function OutputAmount(o: TxOutput): nat { o.satoshis }

  function NumOutputs(q: Request): nat
  {
    |q.outputs| + (if q.opReturn.Some? then 1 else 0) + (if q.changeAddress.Some? then 1 else 0)
  }

  /** All sums and fee products stay within 64 bits, as the unchecked arithmetic needs. */
  predicate Fits(q: Request)
  {
    && Sel.Value(q.utxos) <= U64_MAX
    && |q.utxos| < 0x100_0000_0000_0000
    && Paid(q.outputs) * 3 <= U64_MAX
    && Paid(q.outputs) + Sel.EstimateFee(Sel.MaxInputs(q.utxos), NumOutputs(q), q.feeRate) <= U64_MAX
  }

  // ----- fees with and without outputs ------------------------------------

  lemma FeeParts(k: nat, numOutputs: nat, feeRate: u64)
    ensures Sel.EstimateFee(k, numOutputs, feeRate) ==
            (Sel.BASE_SIZE + Sel.INPUT_SIZE * k) * feeRate + Sel.OUTPUT_SIZE * numOutputs * feeRate
    ensures Sel.OUTPUT_SIZE * numOutputs * feeRate >= 0
  {
    Sel.Distribute(Sel.BASE_SIZE + Sel.INPUT_SIZE * k, Sel.OUTPUT_SIZE * numOutputs, feeRate);
    Sel.ProductGrows(Sel.OUTPUT_SIZE * numOutputs, feeRate);
  }

  lemma FitsForChooser(q: Request)
    requires Fits(q)
    ensures var coins := Ch.UtxosToCoins(q.utxos);
            && Ch.Value(coins) <= U64_MAX && Ch.Size(coins) <= U64_MAX
            && Paid(q.outputs) + Ch.InputFee(coins, q.feeRate) <= U64_MAX
            && Paid(q.outputs) + Bnb.Window(q.feeRate) <= U64_MAX
  {
    Ch.CoinsKeepTotals(q.utxos);
    var n := Sel.MaxInputs(q.utxos);
    FeeParts(n, NumOutputs(q), q.feeRate);
    Ch.SizeFeeMonotone(Sel.INPUT_SIZE * |q.utxos|, Sel.INPUT_SIZE * n, q.feeRate);
    Sel.Distribute(Ch.CHANGE_OUTPUT_COST, 124 + Sel.INPUT_SIZE * (n - 1), q.feeRate);
    Sel.ProductGrows(124 + Sel.INPUT_SIZE * (n - 1), q.feeRate);
  }

  // ----- the chooser as a whole -------------------------------------------

  /** What a strategy of the chooser may return. */
  ghost predicate ChooserOutcome(coins: seq<Ch.Coin>, target: u64, feeRate: u64, strategy: Ch.Strategy, r: Ch.ChooserResult)
  {
    if coins == [] then r == Err(Ch.NoCoins)
    else match strategy
      case BranchAndBound => Bnb.BnbOutcome(coins, target, feeRate, r)
      case RandomSubset => Rnd.RandomResult(coins, target, feeRate, false, r)
      case Privacy => Rnd.RandomResult(coins, target, feeRate, true, r)
  }

  method Choose(coins: seq<Ch.Coin>, target: u64, feeRate: u64, strategy: Ch.Strategy, hash: Prng.Hash)
    returns (r: Ch.ChooserResult)
    requires Prng.Digests(hash) && |coins| < 0x100_0000_0000_0000
    requires Ch.Value(coins) <= U64_MAX && Ch.Size(coins) <= U64_MAX
    requires target + Ch.InputFee(coins, feeRate) <= U64_MAX && Bnb.Window(feeRate) <= U64_MAX
    ensures ChooserOutcome(coins, target, feeRate, strategy, r)
  {
    if coins == [] {
      return Err(Ch.NoCoins);
    }
    match strategy {
      case BranchAndBound =>
        r := Bnb.SelectBnb(coins, target, feeRate);
      case RandomSubset =>
        ghost var t;
        r, t := Rnd.SelectRandom(coins, target, feeRate, false, hash);
      case Privacy =>
        ghost var t;
        r, t := Rnd.SelectRandom(coins, target, feeRate, true, hash);
    }
  }

  lemma {:induction false} CoinsAtIsPart(sorted: seq<Ch.Coin>, indices: seq<nat>)
    requires Bnb.IncreasingBelow(indices, |sorted|)
    ensures multiset(Bnb.CoinsAt(sorted, indices)) <= multiset(sorted)
    decreases |sorted|
  {
    if sorted != [] {
      var n := |sorted| - 1;
      assert sorted == sorted[..n] + [sorted[n]];
      var front, last := Bnb.CoinsAtFront(sorted, indices);
      CoinsAtIsPart(sorted[..n], front);
    }
  }

  lemma PrefixIsPart(coins: seq<Ch.Coin>, k: nat)
    requires k <= |coins|
    ensures multiset(Ch.LargestFirst(coins)[..k]) <= multiset(coins)
  {
    SortDescSorts(coins, Ch.ValueOf);
    var sorted := Ch.LargestFirst(coins);
    assert sorted == sorted[..k] + sorted[k..];
  }

  /** Whatever the strategy, the chosen coins are a part of the offered ones,
      reach at least the target, and are summed correctly. */
  lemma ChosenArePart(coins: seq<Ch.Coin>, target: u64, feeRate: u64, strategy: Ch.Strategy, r: Ch.ChooserResult)
    requires ChooserOutcome(coins, target, feeRate, strategy, r) && r.Ok?
    ensures multiset(r.value.coins) <= multiset(coins)
    ensures r.value.totalInput == Ch.Value(r.value.coins) >= target
    ensures r.value.change == MinusAtZero(r.value.totalInput, target + Ch.InputFee(r.value.coins, feeRate))
  {
    match strategy {
      case BranchAndBound =>
        SortDescSorts(coins, Ch.ValueOf);
        var answer := Bnb.Answer(coins, target, target + Bnb.Window(feeRate));
        if answer.best.Some? {
          CoinsAtIsPart(Ch.LargestFirst(coins), answer.best.value);
        } else {
          PrefixIsPart(coins, |r.value.coins|);
        }
      case RandomSubset =>
        var t: Rnd.Trace :| Rnd.RandomOutcome(coins, target, feeRate, false, r, t);
        Rnd.SelectionTakesWholeKeys(coins, target, feeRate, false, r, t, 0);
      case Privacy =>
        var t: Rnd.Trace :| Rnd.RandomOutcome(coins, target, feeRate, true, r, t);
        Rnd.SelectionTakesWholeKeys(coins, target, feeRate, true, r, t, 0);
    }
  }

  // ----- from coins back to UTXOs -----------------------------------------

  type Outpoint = (seq<byte>, u32)

  function OutpointOf(u: Sel.Utxo): Outpoint { (u.txHash, u.txIndex) }

  /** No two UTXOs name the same output of the same transaction. */
  ghost predicate DistinctOutpoints(us: seq<Sel.Utxo>)
  {
    forall i, j :: 0 <= i < j < |us| ==> OutpointOf(us[i]) != OutpointOf(us[j])
  }

  /** The lookup table of the builder: of two UTXOs with one outpoint the later stays. */
  function Lookup(us: seq<Sel.Utxo>): (r: map<Outpoint, Sel.Utxo>)
    ensures forall o :: o in r ==> r[o] in us && OutpointOf(r[o]) == o
    ensures forall u :: u in us ==> OutpointOf(u) in r
  {
    if us == [] then map[]
    else Lookup(us[..|us| - 1])[OutpointOf(us[|us| - 1]) := us[|us| - 1]]
  }

  lemma LookupFinds(us: seq<Sel.Utxo>, u: Sel.Utxo)
    requires DistinctOutpoints(us) && u in us
    ensures OutpointOf(u) in Lookup(us) && Lookup(us)[OutpointOf(u)] == u
  {
  }

  /** The last UTXO of this outpoint. */
  ghost predicate LastOf(us: seq<Sel.Utxo>, o: Outpoint, u: Sel.Utxo)
  {
    exists i :: 0 <= i < |us| && us[i] == u && OutpointOf(u) == o && forall j :: i < j < |us| ==> OutpointOf(us[j]) != o
  }

  lemma LastOfMore(us: seq<Sel.Utxo>, o: Outpoint, u: Sel.Utxo, v: Sel.Utxo)
    requires if OutpointOf(v) == o then u == v else LastOf(us, o, u)
    ensures LastOf(us + [v], o, u)
  {
    var all := us + [v];
    if OutpointOf(v) == o {
      assert all[|us|] == v;
    } else {
      var i :| 0 <= i < |us| && us[i] == u && OutpointOf(u) == o && forall j :: i < j < |us| ==> OutpointOf(us[j]) != o;
      assert all[i] == u;
    }
  }

  /** Whatever the outpoints: the table holds the last UTXO of each. */
  lemma {:induction false} LookupKeepsLast(us: seq<Sel.Utxo>, o: Outpoint)
    requires o in Lookup(us)
    ensures LastOf(us, o, Lookup(us)[o])
  {
    var front, last := us[..|us| - 1], us[|us| - 1];
    assert us == front + [last];
    if OutpointOf(last) != o {
      LookupKeepsLast(front, o);
    }
    LastOfMore(front, o, Lookup(us)[o], last);
  }

  method BuildLookup(us: seq<Sel.Utxo>) returns (lookup: map<Outpoint, Sel.Utxo>)
    ensures lookup == Lookup(us)
  {
    lookup := map[];
    for i := 0 to |us|
      invariant lookup == Lookup(us[..i])
    {
      assert us[..i + 1][..i] == us[..i];
      lookup := lookup[OutpointOf(us[i]) := us[i]];
    }
    assert us[..|us|] == us;
  }

  /** The coins mapped back one by one; an unknown outpoint is an error. */
  method MapBack(us: seq<Sel.Utxo>, coins: seq<Ch.Coin>) returns (r: Result<seq<Sel.Utxo>, Sel.TransactionError>)
    ensures r.Err? ==> exists c :: c in coins && (c.txHash, c.txIndex) !in Lookup(us)
    ensures r.Ok? ==> |r.value| == |coins|
    ensures r.Ok? ==> forall i :: 0 <= i < |coins| ==>
              (coins[i].txHash, coins[i].txIndex) in Lookup(us)
              && r.value[i] == Lookup(us)[(coins[i].txHash, coins[i].txIndex)]
    ensures r.Err? ==> r.error == Sel.InvalidOutput
  {
    var lookup := BuildLookup(us);
    var selected: seq<Sel.Utxo> := [];
    for i := 0 to |coins|
      invariant |selected| == i
      invariant forall j :: 0 <= j < i ==>
                  (coins[j].txHash, coins[j].txIndex) in lookup
                  && selected[j] == lookup[(coins[j].txHash, coins[j].txIndex)]
    {
      var key := (coins[i].txHash, coins[i].txIndex);
      if key !in lookup {
        return Err(Sel.InvalidOutput);
      }
      selected := selected + [lookup[key]];
    }
    return Ok(selected);
  }

  lemma {:induction false} MapInjectiveCounts(us: seq<Sel.Utxo>, s: seq<Sel.Utxo>, x: Sel.Utxo)
    requires DistinctOutpoints(us) && x in us && forall u :: u in s ==> u in us
    ensures multiset(Ch.UtxosToCoins(s))[Ch.UtxoToCoin(x)] == multiset(s)[x]
  {
    if s != [] {
      assert s == [s[0]] + s[1..];
      assert Ch.UtxosToCoins(s) == [Ch.UtxoToCoin(s[0])] + Ch.UtxosToCoins(s[1..]);
      MapInjectiveCounts(us, s[1..], x);
      assert s[0] in us;
      LookupFinds(us, s[0]);
      LookupFinds(us, x);
    }
  }

  /** With distinct outpoints the way back is exact: the UTXOs of the chosen
      coins, none twice. */
  lemma MapBackIsExact(us: seq<Sel.Utxo>, coins: seq<Ch.Coin>, selected: seq<Sel.Utxo>)
    requires DistinctOutpoints(us) && multiset(coins) <= multiset(Ch.UtxosToCoins(us))
    requires |selected| == |coins|
    requires forall i :: 0 <= i < |coins| ==>
               (coins[i].txHash, coins[i].txIndex) in Lookup(us)
               && selected[i] == Lookup(us)[(coins[i].txHash, coins[i].txIndex)]
    ensures Ch.UtxosToCoins(selected) == coins
    ensures multiset(selected) <= multiset(us)
  {
    forall i | 0 <= i < |coins|
      ensures Ch.UtxoToCoin(selected[i]) == coins[i] && selected[i] in us
    {
      assert coins[i] in multiset(Ch.UtxosToCoins(us));
      var j :| 0 <= j < |us| && Ch.UtxosToCoins(us)[j] == coins[i];
      LookupFinds(us, us[j]);
    }
    assert Ch.UtxosToCoins(selected) == coins;
    forall x: Sel.Utxo
      ensures multiset(selected)[x] <= multiset(us)[x]
    {
      if x in us {
        MapInjectiveCounts(us, selected, x);
        MapInjectiveCounts(us, us, x);
      }
    }
  }

  lemma KnownOutpoints(us: seq<Sel.Utxo>, coins: seq<Ch.Coin>)
    requires multiset(coins) <= multiset(Ch.UtxosToCoins(us))
    ensures forall c :: c in coins ==> (c.txHash, c.txIndex) in Lookup(us)
  {
    forall c | c in coins
      ensures (c.txHash, c.txIndex) in Lookup(us)
    {
      assert c in multiset(coins);
      assert c in multiset(Ch.UtxosToCoins(us));
      var j :| 0 <= j < |us| && Ch.UtxosToCoins(us)[j] == c;
      assert us[j] in us;
    }
  }

  // ----- the two selection paths ------------------------------------------

  /** The chooser path: the chosen coins mapped back, and the full fee, outputs
      included, taken out of what they bring. */
  ghost predicate ChooserPath(q: Request, chosen: Ch.ChooserResult, r: Sel.SelectionResult)
  {
    match chosen
    case Err(InsufficientFunds(needed, available)) => r == Err(Sel.InsufficientFunds(needed, available))
    case Err(NoCoins) => r == Err(Sel.NoUtxos)
    case Err(Overflow) => r == Err(Sel.InvalidOutput)
    case Ok(c) =>
      var fee := Sel.EstimateFee(|c.coins|, NumOutputs(q), q.feeRate);
      var needed := Paid(q.outputs) + fee;
      if c.totalInput < needed then
        r.Err? && r.error.InsufficientFunds? && r.error.needed == needed && r.error.available == c.totalInput
      else
        && r.Ok?
        && |r.value.selected| == |c.coins|
        && r.value.totalInput == c.totalInput
        && r.value.fee == fee
        && r.value.change == c.totalInput - needed
        && r.value.totalOutput == Paid(q.outputs) + r.value.change
        && (DistinctOutpoints(q.utxos) ==>
              Ch.UtxosToCoins(r.value.selected) == c.coins && multiset(r.value.selected) <= multiset(q.utxos))
  }

  lemma PartIsShorter<T>(part: seq<T>, whole: seq<T>)
    requires multiset(part) <= multiset(whole)
    ensures |part| <= |whole|
  {
    var rest := multiset(whole) - multiset(part);
    assert multiset(whole) == multiset(part) + rest;
    assert |multiset(whole)| == |whole| && |multiset(part)| == |part|;
  }

  lemma ChooserFeeFits(q: Request, coins: seq<Ch.Coin>)
    requires Fits(q) && multiset(coins) <= multiset(Ch.UtxosToCoins(q.utxos))
    ensures Paid(q.outputs) + Sel.EstimateFee(|coins|, NumOutputs(q), q.feeRate) <= U64_MAX
  {
    PartIsShorter(coins, Ch.UtxosToCoins(q.utxos));
    Sel.FeeMonotone(|coins|, Sel.MaxInputs(q.utxos), NumOutputs(q), q.feeRate);
  }

  /** The chooser path, for something the chooser may return. */
  ghost predicate ChooserSelects(q: Request, strategy: Ch.Strategy, r: Sel.SelectionResult)
    requires Paid(q.outputs) <= U64_MAX
  {
    exists chosen :: ChooserOutcome(Ch.UtxosToCoins(q.utxos), Paid(q.outputs), q.feeRate, strategy, chosen)
                     && ChooserPath(q, chosen, r)
  }

  method SelectByChooser(q: Request, strategy: Ch.Strategy, hash: Prng.Hash)
    returns (r: Sel.SelectionResult, ghost chosen: Ch.ChooserResult)
    requires Fits(q) && Paid(q.outputs) > 0 && Prng.Digests(hash)
    ensures ChooserOutcome(Ch.UtxosToCoins(q.utxos), Paid(q.outputs), q.feeRate, strategy, chosen)
    ensures ChooserPath(q, chosen, r)
    ensures ChooserSelects(q, strategy, r)
  {
    var coins := Ch.UtxosToCoins(q.utxos);
    var payment: u64 := Paid(q.outputs);
    FitsForChooser(q);
    var result := Choose(coins, payment, q.feeRate, strategy, hash);
    chosen := result;
    if result.Err? {
      match result.error {
        case InsufficientFunds(needed, available) => return Err(Sel.InsufficientFunds(needed, available)), chosen;
        case NoCoins => return Err(Sel.NoUtxos), chosen;
        case Overflow => return Err(Sel.InvalidOutput), chosen;
      }
    }
    ChosenArePart(coins, payment, q.feeRate, strategy, result);
    r := Reconcile(q, payment, result.value);
  }

  /** The second half of the chooser path: map back, recompute the fee, check. */
  method Reconcile(q: Request, payment: u64, c: Ch.Chosen) returns (r: Sel.SelectionResult)
    requires Fits(q) && payment == Paid(q.outputs)
    requires multiset(c.coins) <= multiset(Ch.UtxosToCoins(q.utxos))
    ensures ChooserPath(q, Ok(c), r)
  {
    KnownOutpoints(q.utxos, c.coins);
    var mapped := MapBack(q.utxos, c.coins);
    if mapped.Err? {
      return Err(Sel.InvalidOutput);
    }
    var selected := mapped.value;
    if DistinctOutpoints(q.utxos) {
      MapBackIsExact(q.utxos, c.coins, selected);
    }
    ChooserFeeFits(q, c.coins);
    var actualFee: u64 := Sel.EstimateFee(|selected|, NumOutputs(q), q.feeRate);
    var needed: u64 := payment + actualFee;
    if c.totalInput < needed {
      return Err(Sel.InsufficientFunds(needed, c.totalInput));
    }
    var change := c.totalInput - needed;
    return Ok(Sel.Selection(selected, c.totalInput, payment + change, actualFee, change));
  }

  // ----- assembling the transaction ---------------------------------------

  predicate Decodes(sdk: Sdk, outputs: seq<Payment>)
  {
    forall i :: 0 <= i < |outputs| ==> sdk.lock(outputs[i].address).Some?
  }

  predicate NeedsChange(q: Request, change: u64)
  {
    change > 0 && q.changeAddress.Some?
  }

  function DataCount(q: Request): nat { if q.opReturn.Some? then 1 else 0 }

  /** The inputs spend the selected outpoints, in that order. */
  predicate SpendsInOrder(selected: seq<Sel.Utxo>, inputs: seq<TxInput>)
  {
    && |inputs| == |selected|
    && forall i :: 0 <= i < |inputs| ==>
         inputs[i].txHash == selected[i].txHash && inputs[i].txIndex == selected[i].txIndex
  }

  /** Each payment has its own output: its amount, under the script of its address. */
  predicate PaysEach(sdk: Sdk, payments: seq<Payment>, outputs: seq<TxOutput>)
  {
    && |payments| <= |outputs|
    && forall i :: 0 <= i < |payments| ==>
         && outputs[i].satoshis == payments[i].satoshis
         && sdk.lock(payments[i].address) == Some(outputs[i].script)
         && !outputs[i].change
  }

  /** The outputs asked for and no others: every payment in order, then the data
      with no satoshis, then the change under the script of its address, which is
      there exactly when some is left and has an address. */
  predicate PaysAsAsked(sdk: Sdk, q: Request, change: u64, outputs: seq<TxOutput>)
  {
    var n := |q.outputs|;
    && |outputs| == n + DataCount(q) + (if NeedsChange(q, change) then 1 else 0)
    && PaysEach(sdk, q.outputs, outputs)
    && (q.opReturn.Some? ==> outputs[n] == TxOutput(0, sdk.dataScript(q.opReturn.value), false))
    && (NeedsChange(q, change) ==>
          var last := outputs[|outputs| - 1];
          last.satoshis == change && sdk.lock(q.changeAddress.value) == Some(last.script) && last.change)
  }

  /** The transaction spends what was selected and pays what was asked; it fails
      exactly when an address it needs does not decode. */
  method Assemble(sdk: Sdk, q: Request, selection: Sel.Selection) returns (r: Result<Tx, Sel.TransactionError>)
    ensures r.Ok? <==> Decodes(sdk, q.outputs)
                       && (NeedsChange(q, selection.change) ==> sdk.lock(q.changeAddress.value).Some?)
    ensures r.Ok? ==>
              && SpendsInOrder(selection.selected, r.value.inputs)
              && PaysAsAsked(sdk, q, selection.change, r.value.outputs)
    ensures r.Err? ==> r.error == Sel.BsvSdk
  {
    var inputs: seq<TxInput> := [];
    for i := 0 to |selection.selected|
      invariant SpendsInOrder(selection.selected[..i], inputs)
    {
      inputs := inputs + [TxInput(selection.selected[i].txHash, selection.selected[i].txIndex)];
    }
    var outputs: seq<TxOutput> := [];
    for i := 0 to |q.outputs|
      invariant Decodes(sdk, q.outputs[..i]) && PaysEach(sdk, q.outputs[..i], outputs) && |outputs| == i
    {
      var script := sdk.lock(q.outputs[i].address);
      if script.None? {
        return Err(Sel.BsvSdk);
      }
      outputs := outputs + [TxOutput(q.outputs[i].satoshis, script.value, false)];
      assert q.outputs[..i + 1] == q.outputs[..i] + [q.outputs[i]];
    }
    assert q.outputs[..|q.outputs|] == q.outputs;
    assert selection.selected[..|selection.selected|] == selection.selected;
    if q.opReturn.Some? {
      outputs := outputs + [TxOutput(0, sdk.dataScript(q.opReturn.value), false)];
    }
    if selection.change > 0 && q.changeAddress.Some? {
      var script := sdk.lock(q.changeAddress.value);
      if script.None? {
        return Err(Sel.BsvSdk);
      }
      outputs := outputs + [TxOutput(selection.change, script.value, true)];
    }
    return Ok(Tx(inputs, outputs));
  }

  // ----- conservation -----------------------------------------------------

  function OutputTotal(tx: Tx): nat { Total(tx.outputs, OutputAmount) }

  /** The fee is that of the transaction as built: 10 bytes, 148 for each input and
      34 for each output, and for a change output that was allowed for but had
      nothing to carry. */
  predicate FeeOfSize(q: Request, tx: Tx, sel: Sel.Selection)
  {
    var spare := if q.changeAddress.Some? && sel.change == 0 then 1 else 0;
    sel.fee == (10 + 148 * |tx.inputs| + 34 * (|tx.outputs| + spare)) * q.feeRate
  }

  /** Nothing is created, lost or spent twice: the inputs are some of the offered
      UTXOs, they equal payments, fee and change, and what the outputs leave to
      the miner is the fee, plus the change when there is no address for it. */
  ghost predicate Conserves(q: Request, tx: Tx, sel: Sel.Selection)
  {
    && multiset(sel.selected) <= multiset(q.utxos)
    && SpendsInOrder(sel.selected, tx.inputs)
    && Sel.Value(sel.selected) == sel.totalInput == Paid(q.outputs) + sel.fee + sel.change
    && FeeOfSize(q, tx, sel)
    && sel.totalOutput == Paid(q.outputs) + sel.change
    && sel.totalInput - OutputTotal(tx) == sel.fee + if q.changeAddress.Some? then 0 else sel.change
  }

  lemma {:induction false} PaymentsPaid(sdk: Sdk, payments: seq<Payment>, outputs: seq<TxOutput>)
    requires PaysEach(sdk, payments, outputs)
    ensures Total(outputs[..|payments|], OutputAmount) == Paid(payments)
  {
    if payments != [] {
      PaymentsPaid(sdk, payments[1..], outputs[1..]);
      assert outputs[..|payments|][1..] == outputs[1..][..|payments| - 1];
    }
  }

  lemma OutputsTotal(sdk: Sdk, q: Request, change: u64, outputs: seq<TxOutput>)
    requires PaysAsAsked(sdk, q, change, outputs)
    ensures Total(outputs, OutputAmount) == Paid(q.outputs) + if q.changeAddress.Some? then change else 0
  {
    var n, d := |q.outputs|, DataCount(q);
    var pays, data, rest := outputs[..n], outputs[n..n + d], outputs[n + d..];
    assert outputs == pays + data + rest;
    TotalConcat(pays + data, rest, OutputAmount);
    TotalConcat(pays, data, OutputAmount);
    PaymentsPaid(sdk, q.outputs, outputs);
    if q.opReturn.Some? {
      assert data == [outputs[n]];
      TotalOfOne(outputs[n], OutputAmount);
    }
    if NeedsChange(q, change) {
      assert rest == [outputs[|outputs| - 1]];
      TotalOfOne(outputs[|outputs| - 1], OutputAmount);
    }
  }

  lemma LoopSelectionIsPart(us: seq<Sel.Utxo>, target: u64, numOutputs: nat, feeRate: u64, r: Sel.SelectionResult)
    requires Sel.LoopOutcome(us, target, numOutputs, feeRate, r) && r.Ok?
    ensures multiset(r.value.selected) <= multiset(us)
  {
    SortDescSorts(us, Sel.Satoshis);
    var sorted := Sel.LargestFirst(us);
    var k := |r.value.selected|;
    assert sorted == sorted[..k] + sorted[k..];
  }

  /** What either path selects, before the transaction is assembled. */
  ghost predicate Selects(q: Request, chosen: Ch.ChooserResult, r: Sel.SelectionResult)
    requires 0 < Paid(q.outputs) <= U64_MAX
  {
    match q.strategy
    case None => Sel.LoopOutcome(q.utxos, Paid(q.outputs), NumOutputs(q), q.feeRate, r)
    case Some(strategy) =>
      && ChooserOutcome(Ch.UtxosToCoins(q.utxos), Paid(q.outputs), q.feeRate, strategy, chosen)
      && ChooserPath(q, chosen, r)
  }

  /** The part of conservation that selection is responsible for. */
  ghost predicate SpendsItsCoins(q: Request, sel: Sel.Selection)
  {
    && multiset(sel.selected) <= multiset(q.utxos)
    && Sel.Value(sel.selected) == sel.totalInput == Paid(q.outputs) + sel.fee + sel.change
    && sel.fee == Sel.EstimateFee(|sel.selected|, NumOutputs(q), q.feeRate)
    && sel.totalOutput == Paid(q.outputs) + sel.change
  }

  lemma SelectionSpendsItsCoins(q: Request, chosen: Ch.ChooserResult, r: Sel.SelectionResult)
    requires 0 < Paid(q.outputs) <= U64_MAX && Selects(q, chosen, r) && r.Ok?
    requires q.strategy.None? || DistinctOutpoints(q.utxos)
    ensures SpendsItsCoins(q, r.value)
  {
    match q.strategy {
      case None =>
        LoopSelectionIsPart(q.utxos, Paid(q.outputs), NumOutputs(q), q.feeRate, r);
      case Some(strategy) =>
        ChosenArePart(Ch.UtxosToCoins(q.utxos), Paid(q.outputs), q.feeRate, strategy, chosen);
        Ch.CoinsKeepTotals(r.value.selected);
    }
  }

  method SelectCoins(q: Request, hash: Prng.Hash) returns (r: Sel.SelectionResult, ghost chosen: Ch.ChooserResult)
    requires Fits(q) && Paid(q.outputs) > 0 && Prng.Digests(hash)
    ensures Selects(q, chosen, r)
  {
    match q.strategy {
      case None =>
        ghost var fees;
        r, fees := Sel.SelectIterating(q.utxos, Paid(q.outputs), NumOutputs(q), q.feeRate);
        chosen := Err(Ch.NoCoins);
      case Some(strategy) =>
        r, chosen := SelectByChooser(q, strategy, hash);
    }
  }

  /** What `build_unsigned` returns for a selection. */
  ghost predicate Builds(sdk: Sdk, q: Request, selection: Sel.SelectionResult, r: Result<(Tx, Sel.Selection), Sel.TransactionError>)
  {
    match selection
    case Err(e) => r == Err(e)
    case Ok(sel) =>
      if Decodes(sdk, q.outputs) && (NeedsChange(q, sel.change) ==> sdk.lock(q.changeAddress.value).Some?) then
        && r.Ok? && r.value.1 == sel
        && SpendsInOrder(sel.selected, r.value.0.inputs)
        && PaysAsAsked(sdk, q, sel.change, r.value.0.outputs)
      else r == Err(Sel.BsvSdk)
  }

  /** Main result: every transaction built conserves value, whatever the
      strategy. The chooser strategies need distinct outpoints for it. */
  lemma BuiltTransactionConserves(sdk: Sdk, q: Request, chosen: Ch.ChooserResult, selection: Sel.SelectionResult,
                                  r: Result<(Tx, Sel.Selection), Sel.TransactionError>)
    requires 0 < Paid(q.outputs) <= U64_MAX
    requires Selects(q, chosen, selection) && Builds(sdk, q, selection, r) && r.Ok?
    requires q.strategy.None? || DistinctOutpoints(q.utxos)
    ensures Conserves(q, r.value.0, r.value.1)
  {
    SelectionSpendsItsCoins(q, chosen, selection);
    OutputsTotal(sdk, q, selection.value.change, r.value.0.outputs);
  }

  method BuildUnsigned(sdk: Sdk, q: Request)
    returns (r: Result<(Tx, Sel.Selection), Sel.TransactionError>, ghost selection: Sel.SelectionResult, ghost chosen: Ch.ChooserResult)
    requires Fits(q) && Prng.Digests(sdk.sha256)
    ensures Paid(q.outputs) == 0 ==> r == Err(Sel.InvalidOutput)
    ensures Paid(q.outputs) > 0 ==> Selects(q, chosen, selection) && Builds(sdk, q, selection, r)
    ensures r.Ok? ==> PaysAsAsked(sdk, q, r.value.1.change, r.value.0.outputs)
    ensures r.Ok? && (q.strategy.None? || DistinctOutpoints(q.utxos)) ==> Conserves(q, r.value.0, r.value.1)
  {
    var payment: u64 := Paid(q.outputs);
    if payment == 0 {
      return Err(Sel.InvalidOutput), Err(Sel.NoUtxos), Err(Ch.NoCoins);
    }
    var selected;
    selected, chosen := SelectCoins(q, sdk.sha256);
    selection := selected;
    if selected.Err? {
      return Err(selected.error), selection, chosen;
    }
    var tx := Assemble(sdk, q, selected.value);
    if tx.Err? {
      return Err(tx.error), selection, chosen;
    }
    r := Ok((tx.value, selected.value));
    if q.strategy.None? || DistinctOutpoints(q.utxos) {
      BuiltTransactionConserves(sdk, q, chosen, selection, r);
    }
  }

  // ----- when the chooser strategies reach a transaction ------------------

  /** A chooser selection is accepted exactly when its change covers the bytes of
      the outputs, which the chooser itself never counts. */
  lemma AcceptedIffChangeCoversOutputs(q: Request, strategy: Ch.Strategy, chosen: Ch.ChooserResult, r: Sel.SelectionResult)
    requires 0 < Paid(q.outputs) <= U64_MAX && q.strategy == Some(strategy) && Selects(q, chosen, r)
    ensures r.Ok? <==> chosen.Ok? && chosen.value.change >= Sel.OUTPUT_SIZE * NumOutputs(q) * q.feeRate
  {
    if chosen.Ok? {
      ChosenArePart(Ch.UtxosToCoins(q.utxos), Paid(q.outputs), q.feeRate, strategy, chosen);
      PathAccepts(q, chosen.value, r);
    }
  }

  lemma PathAccepts(q: Request, c: Ch.Chosen, r: Sel.SelectionResult)
    requires multiset(c.coins) <= multiset(Ch.UtxosToCoins(q.utxos)) && c.totalInput >= Paid(q.outputs)
    requires c.change == MinusAtZero(c.totalInput, Paid(q.outputs) + Ch.InputFee(c.coins, q.feeRate))
    requires q.outputs != [] && ChooserPath(q, Ok(c), r)
    ensures r.Ok? <==> c.change >= Sel.OUTPUT_SIZE * NumOutputs(q) * q.feeRate
  {
    ChosenSize(q.utxos, c.coins);
  }

  lemma {:induction false} ChosenSize(us: seq<Sel.Utxo>, coins: seq<Ch.Coin>)
    requires multiset(coins) <= multiset(Ch.UtxosToCoins(us))
    ensures Ch.Size(coins) == Sel.INPUT_SIZE * |coins|
  {
    forall c | c in coins
      ensures c.estimatedSize == Sel.INPUT_SIZE
    {
      assert c in multiset(coins);
      assert c in multiset(Ch.UtxosToCoins(us));
    }
    UniformSize(coins);
  }

  lemma {:induction false} UniformSize(coins: seq<Ch.Coin>)
    requires forall c :: c in coins ==> c.estimatedSize == Sel.INPUT_SIZE
    ensures Ch.Size(coins) == Sel.INPUT_SIZE * |coins|
  {
    if coins != [] {
      UniformSize(coins[1..]);
    }
  }

  lemma NoCoinsNoMatch(target: nat, upper: nat)
    requires target > 0
    ensures Bnb.Answer([], target, upper).best.None?
  {
    var answer := Bnb.Answer([], target, upper);
    Bnb.AnswerIsSound([], target, upper);
    if answer.best.Some? {
      CoinsAtIsPart(Ch.LargestFirst([]), answer.best.value);
      TotalOfPart(Bnb.CoinsAt(Ch.LargestFirst([]), answer.best.value), Ch.LargestFirst([]), Ch.ValueOf);
    }
  }

  /** Main result: Branch-and-Bound defeats itself. At a positive fee rate a
      search that finds what it looks for is always refused for want of funds,
      however many coins the wallet holds. */
  lemma BnbMatchIsAlwaysRefused(q: Request, chosen: Ch.ChooserResult, r: Sel.SelectionResult)
    requires 0 < Paid(q.outputs) && Paid(q.outputs) + Bnb.Window(q.feeRate) <= U64_MAX && q.feeRate > 0
    requires q.strategy == Some(Ch.BranchAndBound) && Selects(q, chosen, r)
    requires !SearchFails(q)
    ensures r.Err? && r.error.InsufficientFunds?
  {
    var coins := Ch.UtxosToCoins(q.utxos);
    if coins == [] {
      NoCoinsNoMatch(Paid(q.outputs), Paid(q.outputs) + Bnb.Window(q.feeRate));
    } else {
      Bnb.MatchNeverPaysItsFee(coins, Paid(q.outputs), NumOutputs(q), q.feeRate, chosen);
    }
  }

  /** So one subset inside the window is enough to make an uncut search fail,
      although largest-first may well succeed. */
  lemma SubsetInWindowDefeatsBnb(q: Request, chosen: Ch.ChooserResult, r: Sel.SelectionResult, mask: seq<bool>)
    requires 0 < Paid(q.outputs) && Paid(q.outputs) + Bnb.Window(q.feeRate) <= U64_MAX && q.feeRate > 0
    requires q.strategy == Some(Ch.BranchAndBound) && Selects(q, chosen, r) && Uncut(q)
    requires InWindow(q, mask)
    ensures r.Err? && r.error.InsufficientFunds?
  {
    PickedValue(q.utxos, mask);
    Bnb.AnswerIsOptimal(Ch.UtxosToCoins(q.utxos), Paid(q.outputs), Paid(q.outputs) + Bnb.Window(q.feeRate), mask);
    BnbMatchIsAlwaysRefused(q, chosen, r);
  }

  /** The search came to its end before the cap, as it always does for up to
      fifteen UTXOs. */
  predicate Uncut(q: Request)
  {
    Bnb.Answer(Ch.UtxosToCoins(q.utxos), Paid(q.outputs), Paid(q.outputs) + Bnb.Window(q.feeRate)).rounds
    < Bnb.BNB_MAX_ROUNDS
  }

  /** The search found no match. */
  predicate SearchFails(q: Request)
  {
    Bnb.Answer(Ch.UtxosToCoins(q.utxos), Paid(q.outputs), Paid(q.outputs) + Bnb.Window(q.feeRate)).best.None?
  }

  /** The subset's value is what the search looks for. */
  predicate InWindow(q: Request, mask: seq<bool>)
  {
    && |mask| == |q.utxos|
    && Paid(q.outputs) <= Sel.Value(Pick(q.utxos, mask)) <= Paid(q.outputs) + 34 * q.feeRate
  }

  lemma {:induction false} PickCoins(us: seq<Sel.Utxo>, mask: seq<bool>)
    requires |mask| == |us|
    ensures Pick(Ch.UtxosToCoins(us), mask) == Ch.UtxosToCoins(Pick(us, mask))
  {
    if us != [] {
      PickCoins(us[1..], mask[1..]);
      assert Ch.UtxosToCoins(us)[1..] == Ch.UtxosToCoins(us[1..]);
    }
  }

  /** A subset weighs the same as UTXOs and as coins. */
  lemma PickedValue(us: seq<Sel.Utxo>, mask: seq<bool>)
    requires |mask| == |us|
    ensures Ch.Value(Pick(Ch.UtxosToCoins(us), mask)) == Sel.Value(Pick(us, mask))
  {
    PickCoins(us, mask);
    Ch.CoinsKeepTotals(Pick(us, mask));
  }

  /** A mask for a strictly increasing list of positions. */
  lemma {:induction false} MaskAt(sorted: seq<Ch.Coin>, indices: seq<nat>) returns (mask: seq<bool>)
    requires Bnb.IncreasingBelow(indices, |sorted|)
    ensures |mask| == |sorted| && Pick(sorted, mask) == Bnb.CoinsAt(sorted, indices)
    decreases |sorted|
  {
    if sorted == [] {
      mask := [];
      Bnb.IncreasingFits(indices, 0);
    } else {
      var n := |sorted| - 1;
      var front, last := Bnb.CoinsAtFront(sorted, indices);
      var inner := MaskAt(sorted[..n], front);
      mask := inner + [last != []];
      assert sorted == sorted[..n] + [sorted[n]];
      PickAppend(sorted[..n], inner, sorted[n], last != []);
      assert (if last != [] then [sorted[n]] else []) == last;
    }
  }

  lemma {:induction false} PickAppend<T>(s: seq<T>, mask: seq<bool>, x: T, keep: bool)
    requires |mask| == |s|
    ensures Pick(s + [x], mask + [keep]) == Pick(s, mask) + if keep then [x] else []
  {
    if s != [] {
      PickAppend(s[1..], mask[1..], x, keep);
      assert (s + [x])[1..] == s[1..] + [x] && (mask + [keep])[1..] == mask[1..] + [keep];
    } else {
      assert (s + [x])[1..] == [] && (mask + [keep])[1..] == [];
    }
  }

  /** A match of the search is a subset of the UTXOs inside the window. */
  lemma MatchIsInWindow(q: Request) returns (mask: seq<bool>)
    requires !SearchFails(q)
    ensures InWindow(q, mask)
  {
    var coins := Ch.UtxosToCoins(q.utxos);
    var upper := Paid(q.outputs) + Bnb.Window(q.feeRate);
    var answer := Bnb.Answer(coins, Paid(q.outputs), upper);
    Bnb.AnswerIsSound(coins, Paid(q.outputs), upper);
    var sorted := Ch.LargestFirst(coins);
    var inner := MaskAt(sorted, answer.best.value);
    mask := SortDescUnpick(coins, inner, Ch.ValueOf);
    TotalOfPermutation(Pick(coins, mask), Pick(sorted, inner), Ch.ValueOf);
    PickedValue(q.utxos, mask);
  }

  /** An uncut search finds a match exactly when some subset is inside the window. */
  lemma MatchIffInWindow(q: Request)
    requires Uncut(q) && Paid(q.outputs) + Bnb.Window(q.feeRate) <= U64_MAX && 0 < Paid(q.outputs)
    ensures !SearchFails(q) <==> exists mask :: InWindow(q, mask)
  {
    if !SearchFails(q) {
      var mask := MatchIsInWindow(q);
    }
    forall mask | InWindow(q, mask)
      ensures !SearchFails(q)
    {
      PickedValue(q.utxos, mask);
      Bnb.AnswerIsOptimal(Ch.UtxosToCoins(q.utxos), Paid(q.outputs), Paid(q.outputs) + Bnb.Window(q.feeRate), mask);
    }
  }

  /** The least number of largest UTXOs that pays for itself with no outputs
      counted, which is what the fallback takes, pays for the outputs too. */
  predicate FallbackPays(q: Request, k: nat)
  {
    var sorted := Sel.LargestFirst(q.utxos);
    && Sel.Pays(sorted, Paid(q.outputs), 0, q.feeRate, k)
    && (forall j :: 1 <= j < k ==> !Sel.Pays(sorted, Paid(q.outputs), 0, q.feeRate, j))
    && Sel.Pays(sorted, Paid(q.outputs), NumOutputs(q), q.feeRate, k)
  }

  /** Main result, the exact condition: at a positive fee rate Branch-and-Bound
      succeeds if and only if its search finds nothing and the coins that pay for
      themselves alone pay for the outputs too. A wallet with no subset inside the
      window leaves nothing to find; if the search ends uncut, only such a wallet. */
  lemma BnbPaysIff(q: Request, chosen: Ch.ChooserResult, r: Sel.SelectionResult)
    requires Fits(q) && 0 < Paid(q.outputs) && q.feeRate > 0
    requires q.strategy == Some(Ch.BranchAndBound) && Selects(q, chosen, r)
    ensures r.Ok? <==> SearchFails(q) && exists k :: FallbackPays(q, k)
    ensures !(exists mask :: InWindow(q, mask)) ==> (r.Ok? <==> exists k :: FallbackPays(q, k))
    ensures Uncut(q) ==> (r.Ok? <==> && !(exists mask :: InWindow(q, mask))
                                     && (exists k :: FallbackPays(q, k)))
  {
    FitsForChooser(q);
    if !SearchFails(q) {
      BnbMatchIsAlwaysRefused(q, chosen, r);
      var mask := MatchIsInWindow(q);
    } else {
      BnbFallbackPaysIff(q, chosen, r);
      if Uncut(q) {
        MatchIffInWindow(q);
      }
    }
  }

  lemma BnbFallbackPaysIff(q: Request, chosen: Ch.ChooserResult, r: Sel.SelectionResult)
    requires Fits(q) && 0 < Paid(q.outputs) && q.feeRate > 0
    requires q.strategy == Some(Ch.BranchAndBound) && Selects(q, chosen, r)
    requires SearchFails(q)
    ensures r.Ok? <==> exists k :: FallbackPays(q, k)
  {
    FitsForChooser(q);
    if q.utxos != [] {
      assert Ch.UtxosToCoins(q.utxos) != [];
      FallbackPaysIff(q, chosen, r);
    }
  }

  lemma FallbackPaysIff(q: Request, chosen: Ch.ChooserResult, r: Sel.SelectionResult)
    requires Fits(q) && 0 < Paid(q.outputs) <= U64_MAX
    requires Ch.PassOutcome(Ch.LargestFirst(Ch.UtxosToCoins(q.utxos)), Paid(q.outputs), q.feeRate, chosen)
    requires ChooserPath(q, chosen, r)
    ensures r.Ok? <==> exists k :: FallbackPays(q, k)
  {
    var coins := Ch.UtxosToCoins(q.utxos);
    Ch.CoinsKeepTotals(q.utxos);
    Ch.LargestFirstTotals(coins);
    if chosen.Ok? {
      PassPaysIff(q, chosen.value, r);
    } else {
      forall k
        ensures !FallbackPays(q, k)
      {
        if FallbackPays(q, k) {
          Ch.CoversIsPays(q.utxos, Paid(q.outputs), q.feeRate, k);
        }
      }
    }
  }

  lemma PassPaysIff(q: Request, c: Ch.Chosen, r: Sel.SelectionResult)
    requires 0 < Paid(q.outputs) <= U64_MAX
    requires Ch.PassOutcome(Ch.LargestFirst(Ch.UtxosToCoins(q.utxos)), Paid(q.outputs), q.feeRate, Ok(c))
    requires ChooserPath(q, Ok(c), r)
    ensures r.Ok? <==> FallbackPays(q, |c.coins|)
    ensures forall k :: FallbackPays(q, k) ==> k == |c.coins|
  {
    var k := |c.coins|;
    Ch.CoversIsPays(q.utxos, Paid(q.outputs), q.feeRate, k);
    forall j | 1 <= j < k
      ensures !Sel.Pays(Sel.LargestFirst(q.utxos), Paid(q.outputs), 0, q.feeRate, j)
    {
      Ch.CoversIsPays(q.utxos, Paid(q.outputs), q.feeRate, j);
    }
    Ch.SamePrefix(q.utxos, k);
    Ch.CoinsKeepTotals(Sel.LargestFirst(q.utxos)[..k]);
    forall j | FallbackPays(q, j)
      ensures j == k
    {
      Ch.SameLeast(q.utxos, Paid(q.outputs), q.feeRate, j, k);
    }
  }

  // ----- the random strategies --------------------------------------------

  predicate IsRandom(q: Request)
  {
    q.strategy == Some(Ch.RandomSubset) || q.strategy == Some(Ch.Privacy)
  }

  /** Main result: the transaction of a random strategy spends whole keys. Of two
      UTXOs of one key it spends both or neither. */
  lemma RandomSpendsWholeKeys(q: Request, chosen: Ch.ChooserResult, r: Sel.SelectionResult, u: Sel.Utxo, v: Sel.Utxo)
    requires 0 < Paid(q.outputs) <= U64_MAX && IsRandom(q) && DistinctOutpoints(q.utxos)
    requires Selects(q, chosen, r) && r.Ok?
    requires u in q.utxos && v in q.utxos && u.keyinstanceId == v.keyinstanceId
    ensures u in r.value.selected <==> v in r.value.selected
  {
    if u in r.value.selected {
      SpendsKeyMate(q, chosen, r, u, v);
    }
    if v in r.value.selected {
      SpendsKeyMate(q, chosen, r, v, u);
    }
  }

  lemma SpendsKeyMate(q: Request, chosen: Ch.ChooserResult, r: Sel.SelectionResult, u: Sel.Utxo, v: Sel.Utxo)
    requires 0 < Paid(q.outputs) <= U64_MAX && IsRandom(q) && DistinctOutpoints(q.utxos)
    requires Selects(q, chosen, r) && r.Ok?
    requires u in r.value.selected && v in q.utxos && u.keyinstanceId == v.keyinstanceId
    ensures v in r.value.selected
  {
    var coins, privacy := Ch.UtxosToCoins(q.utxos), q.strategy.value.Privacy?;
    assert Rnd.RandomResult(coins, Paid(q.outputs), q.feeRate, privacy, chosen);
    var t: Rnd.Trace :| Rnd.RandomOutcome(coins, Paid(q.outputs), q.feeRate, privacy, chosen, t);
    Rnd.SelectionTakesWholeKeys(coins, Paid(q.outputs), q.feeRate, privacy, chosen, t, u.keyinstanceId);
    CoinInKey(r.value.selected, u);
    CoinInKey(q.utxos, v);
    KeyMateIn(q.utxos, r.value.selected, v);
  }

  /** The coin of a UTXO is among the coins of its key. */
  lemma CoinInKey(us: seq<Sel.Utxo>, u: Sel.Utxo)
    requires u in us
    ensures Ch.UtxoToCoin(u) in Rnd.CoinsOfKey(Ch.UtxosToCoins(us), u.keyinstanceId)
  {
    var i :| 0 <= i < |us| && us[i] == u;
    var coins, c := Ch.UtxosToCoins(us), Ch.UtxoToCoin(u);
    assert coins[i] == c;
    Rnd.KeyCounts(coins, c, u.keyinstanceId);
    assert c in multiset(Rnd.CoinsOfKey(coins, u.keyinstanceId));
  }

  lemma KeyMateIn(us: seq<Sel.Utxo>, selected: seq<Sel.Utxo>, v: Sel.Utxo)
    requires DistinctOutpoints(us) && v in us && multiset(selected) <= multiset(us)
    requires Ch.UtxoToCoin(v) in Rnd.CoinsOfKey(Ch.UtxosToCoins(selected), v.keyinstanceId)
    ensures v in selected
  {
    var coins, c := Ch.UtxosToCoins(selected), Ch.UtxoToCoin(v);
    Rnd.KeyCounts(coins, c, v.keyinstanceId);
    assert c in multiset(Rnd.CoinsOfKey(coins, v.keyinstanceId));
    var i :| 0 <= i < |coins| && coins[i] == c;
    var w := selected[i];
    assert w in multiset(us);
    LookupFinds(us, w);
    LookupFinds(us, v);
  }

  /** A choice of keys covers the full fee, outputs included. */
  predicate CoversOutputs(q: Request, c: seq<Rnd.Bucket>)
  {
    Total(c, Rnd.BucketValue)
    >= Paid(q.outputs) + Sel.EstimateFee(|Rnd.AllCoins(c)|, NumOutputs(q), q.feeRate)
  }

  /** The exact condition for the random strategies: what they choose is always
      accepted, whatever the draws, if and only if every choice of keys that may
      win covers the outputs too. */
  lemma RandomAlwaysPaysIff(q: Request, buckets: seq<Rnd.Bucket>)
    requires Fits(q) && 0 < Paid(q.outputs) && IsRandom(q)
    requires q.utxos != [] && Rnd.Grouped(Ch.UtxosToCoins(q.utxos), buckets)
    ensures (forall chosen, r :: Selects(q, chosen, r) && chosen.Ok? ==> r.Ok?)
            <==> (forall c :: Rnd.MayWin(buckets, Paid(q.outputs), q.feeRate, q.strategy.value.Privacy?, c) ==>
                    CoversOutputs(q, c))
  {
    var privacy := q.strategy.value.Privacy?;
    if forall c :: Rnd.MayWin(buckets, Paid(q.outputs), q.feeRate, privacy, c) ==> CoversOutputs(q, c) {
      forall chosen, r | Selects(q, chosen, r) && chosen.Ok?
        ensures r.Ok?
      {
        var c := ChosenMayWin(q, buckets, chosen, r);
        assert CoversOutputs(q, c);
      }
    }
    forall c | Rnd.MayWin(buckets, Paid(q.outputs), q.feeRate, privacy, c) && !CoversOutputs(q, c)
      ensures exists chosen, r :: Selects(q, chosen, r) && chosen.Ok? && r.Err?
    {
      var chosen, r := RefusedChoice(q, buckets, c);
    }
  }

  lemma ChosenMayWin(q: Request, buckets: seq<Rnd.Bucket>, chosen: Ch.ChooserResult, r: Sel.SelectionResult)
    returns (c: seq<Rnd.Bucket>)
    requires 0 < Paid(q.outputs) <= U64_MAX && IsRandom(q) && Rnd.Grouped(Ch.UtxosToCoins(q.utxos), buckets)
    requires Selects(q, chosen, r) && chosen.Ok?
    ensures Rnd.MayWin(buckets, Paid(q.outputs), q.feeRate, q.strategy.value.Privacy?, c)
    ensures r.Ok? <==> CoversOutputs(q, c)
  {
    var coins := Ch.UtxosToCoins(q.utxos);
    var privacy := q.strategy.value.Privacy?;
    assert Rnd.RandomResult(coins, Paid(q.outputs), q.feeRate, privacy, chosen);
    var t: Rnd.Trace :| Rnd.RandomOutcome(coins, Paid(q.outputs), q.feeRate, privacy, chosen, t);
    Rnd.WinnerMayWin(coins, buckets, Paid(q.outputs), q.feeRate, privacy, t);
    c := t.winner;
    Rnd.PartTotals(coins, buckets, c);
  }

  lemma RefusedChoice(q: Request, buckets: seq<Rnd.Bucket>, c: seq<Rnd.Bucket>)
    returns (chosen: Ch.ChooserResult, r: Sel.SelectionResult)
    requires Fits(q) && 0 < Paid(q.outputs) && IsRandom(q)
    requires q.utxos != [] && Rnd.Grouped(Ch.UtxosToCoins(q.utxos), buckets)
    requires Rnd.MayWin(buckets, Paid(q.outputs), q.feeRate, q.strategy.value.Privacy?, c) && !CoversOutputs(q, c)
    ensures Selects(q, chosen, r) && chosen.Ok? && r.Err?
  {
    var coins := Ch.UtxosToCoins(q.utxos);
    FitsForChooser(q);
    chosen := Rnd.MayWinIsResult(coins, buckets, Paid(q.outputs), q.feeRate, q.strategy.value.Privacy?, c);
    assert coins != [];
    Rnd.PartTotals(coins, buckets, c);
    r := RefusedCoins(q, chosen);
  }

  /** Chosen coins that do not cover the outputs too are refused. */
  lemma RefusedCoins(q: Request, chosen: Ch.ChooserResult) returns (r: Sel.SelectionResult)
    requires Fits(q) && chosen.Ok? && multiset(chosen.value.coins) <= multiset(Ch.UtxosToCoins(q.utxos))
    requires chosen.value.totalInput
             < Paid(q.outputs) + Sel.EstimateFee(|chosen.value.coins|, NumOutputs(q), q.feeRate)
    ensures ChooserPath(q, chosen, r) && r.Err?
  {
    ChooserFeeFits(q, chosen.value.coins);
    var needed := Paid(q.outputs) + Sel.EstimateFee(|chosen.value.coins|, NumOutputs(q), q.feeRate);
    r := Err(Sel.InsufficientFunds(needed, chosen.value.totalInput));
  }

  // ----- where the strategies part ----------------------------------------

  /** A wallet on which the two disagree: coins of 1000 and 100000 satoshis, a
      payment of 1000 and its change. The search finds the first coin, so the
      strategy is refused; largest-first pays with the second. */
  const TWO_COINS := Request(
    [Sel.Utxo([], 0, 1000, 1, (0, 0)), Sel.Utxo([], 1, 100000, 2, (0, 1))],
    [Payment("payee", 1000)], Some("change"), 1, None, Some(Ch.BranchAndBound))

  lemma LargestFirstPaysWhereBnbCannot()
    ensures Paid(TWO_COINS.outputs) == 1000
    ensures forall chosen, r :: Selects(TWO_COINS, chosen, r) ==> r.Err? && r.error.InsufficientFunds?
    ensures forall chosen, r :: Selects(TWO_COINS.(strategy := None), chosen, r) ==> r.Ok?
  {
    assert Paid(TWO_COINS.outputs) == 1000;
    forall chosen, r | Selects(TWO_COINS, chosen, r)
      ensures r.Err? && r.error.InsufficientFunds?
    {
      SubsetInWindowDefeatsBnb(TWO_COINS, chosen, r, [true, false]);
    }
    SecondCoinPays();
    forall r | Sel.LoopOutcome(TWO_COINS.utxos, 1000, NumOutputs(TWO_COINS), 1, r)
      ensures r.Ok?
    {
      assert TWO_COINS.utxos != [];
    }
  }

  lemma SecondCoinPays()
    ensures Sel.Pays(Sel.LargestFirst(TWO_COINS.utxos), 1000, NumOutputs(TWO_COINS), 1, 1)
    ensures Sel.Value(TWO_COINS.utxos) == 101000
  {
    var us := TWO_COINS.utxos;
    assert us == [us[0]] + [us[1]];
    TotalConcat([us[0]], [us[1]], Sel.Satoshis);
    TotalOfOne(us[0], Sel.Satoshis);
    TotalOfOne(us[1], Sel.Satoshis);
    SortedPair(us);
  }

  /** The same coins, and a payment that the first covers only without the output:
      842 satoshis and 158 for the input. */
  const BARE := TWO_COINS.(outputs := [Payment("payee", 842)], strategy := Some(Ch.RandomSubset))

  /** The random strategy may choose the first coin and be refused; largest-first pays. */
  lemma RandomCanBeRefused()
    ensures exists chosen, r :: Selects(BARE, chosen, r) && chosen.Ok? && r.Err?
    ensures forall chosen, r :: Selects(BARE.(strategy := None), chosen, r) ==> r.Ok?
  {
    assert Paid(BARE.outputs) == 842;
    SecondCoinPays();
    Sel.FeeMonotone(1, 2, NumOutputs(BARE), 1);
    assert Sel.Pays(Sel.LargestFirst(BARE.utxos), 842, NumOutputs(BARE), 1, 1);
    assert BARE.utxos != [];
    var coins := Ch.UtxosToCoins(BARE.utxos);
    var first, second := coins[0], coins[1];
    var b := Rnd.Bucket(1, 148, 1000, [first]);
    BareBuckets(first, second);
    var buckets := [b, Rnd.Bucket(2, 148, 100000, [second])];
    assert coins == [first, second];
    TotalOfOne(b, Rnd.BucketValue);
    TotalOfOne(b, Rnd.BucketSize);
    assert Rnd.AllCoins([b]) == [first] + [];
    assert buckets[0] == b;
    assert Rnd.MayWin(buckets, 842, 1, false, [b]);
    var chosen, r := RefusedChoice(BARE, buckets, [b]);
  }

  lemma BareBuckets(first: Ch.Coin, second: Ch.Coin)
    requires first.keyinstanceId == 1 && second.keyinstanceId == 2
    requires first.value == 1000 && second.value == 100000
    requires first.estimatedSize == 148 && second.estimatedSize == 148
    ensures Rnd.Grouped([first, second], [Rnd.Bucket(1, 148, 1000, [first]), Rnd.Bucket(2, 148, 100000, [second])])
  {
    var coins, buckets := [first, second], [Rnd.Bucket(1, 148, 1000, [first]), Rnd.Bucket(2, 148, 100000, [second])];
    assert coins == [first] + ([second] + []);
    Rnd.KeyCons(first, [second] + [], 1);
    Rnd.KeyCons(second, [], 1);
    Rnd.KeyCons(first, [second] + [], 2);
    Rnd.KeyCons(second, [], 2);
    Rnd.OneCoin(first);
    Rnd.OneCoin(second);
    assert Rnd.HoldsKey(coins, buckets[0]) && Rnd.HoldsKey(coins, buckets[1]);
    assert buckets[0].desc == 1 && buckets[1].desc == 2;
  }

  lemma SortedPair(us: seq<Sel.Utxo>)
    requires |us| == 2 && us[0].satoshis < us[1].satoshis
    ensures Sel.LargestFirst(us)[..1] == [us[1]]
  {
    var one := us[1..];
    assert one[1..] == [];
    assert SortDesc(one, Sel.Satoshis) == InsertDesc(us[1], [], Sel.Satoshis) == [us[1]];
    assert SortDesc(us, Sel.Satoshis) == InsertDesc(us[0], [us[1]], Sel.Satoshis);
  }
}
