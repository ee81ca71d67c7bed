/** The Branch-and-Bound search and the selection built on it (core/coinchooser.rs). */
module Bnb {
  import opened Common
  import opened Lists
  import opened CoinChooser
  import Sel = CoinSelector

  const BNB_MAX_ROUNDS: nat := 100_000

  /** What the search accumulates: the best index list, its excess over the
      target, and the number of nodes visited. */
  datatype Found = Found(best: Option<seq<nat>>, bestExcess: u64, rounds: nat)

  const START := Found(None, U64_MAX, 0)

  /** Recording a node whose value reaches the target. */
  function Record(current: seq<nat>, value: nat, target: nat, f: Found): (r: Found)
    ensures r.rounds == f.rounds && r.bestExcess <= f.bestExcess
    ensures value >= target && value - target < U64_MAX ==> r.bestExcess <= value - target
  {
    if value >= target && value - target < f.bestExcess
    then f.(best := Some(current), bestExcess := value - target)
    else f
  }

  /** The search below the node that has decided the coins before `start`. */
  function Explore(sorted: seq<Coin>, start: nat, current: seq<nat>, value: nat,
                   target: nat, upper: nat, f: Found): Found
    requires start <= |sorted|
    decreases |sorted| - start
  {
    if f.rounds >= BNB_MAX_ROUNDS then f
    else
      var visited := f.(rounds := f.rounds + 1);
      if value > upper then visited
      else
        var here := Record(current, value, target, visited);
        if start == |sorted| || value + Value(sorted[start..]) < target then here
        else
          var included := Explore(sorted, start + 1, current + [start], value + sorted[start].value, target, upper, here);
          Explore(sorted, start + 1, current, value, target, upper, included)
  }

  /** The mutable state that `bnb_recursive` threads through its references. */
  class Search {
    const sorted: seq<Coin>
    const target: u64
    const upper: u64
    var current: seq<nat>
    var currentValue: u64
    var best: Option<seq<nat>>
    var bestExcess: u64
    var rounds: nat

    constructor (sorted: seq<Coin>, target: u64, upper: u64)
      ensures this.sorted == sorted && this.target == target && this.upper == upper
      ensures current == [] && currentValue == 0 && State() == START
    {
      this.sorted, this.target, this.upper := sorted, target, upper;
      current, currentValue := [], 0;
      best, bestExcess, rounds := None, U64_MAX, 0;
    }

    function State(): Found
      reads this
    {
      Found(best, bestExcess, rounds)
    }

    /** Keeps the current list when it beats the best so far. */
    method RecordHere()
      requires currentValue >= target
      modifies `best, `bestExcess
      ensures State() == Record(current, currentValue, target, old(State()))
    {
      var excess := currentValue - target;
      if excess < bestExcess {
        bestExcess := excess;
        best := Some(current);
      }
    }

    /** One call backtracks exactly: it leaves `current` and `currentValue` as
        it found them, and moves the rest as `Explore` says. */
    method Recurse(start: nat)
      requires start <= |sorted|
      requires currentValue + Value(sorted[start..]) <= U64_MAX
      modifies this
      ensures current == old(current) && currentValue == old(currentValue)
      ensures State() == Explore(sorted, start, old(current), old(currentValue), target, upper, old(State()))
      decreases |sorted| - start, 1
    {
      if rounds >= BNB_MAX_ROUNDS {
        return;
      }
      rounds := rounds + 1;
      if currentValue > upper {
        return;
      }
      if currentValue >= target {
        RecordHere();
      }
      if start >= |sorted| {
        return;
      }
      var remaining := Value(sorted[start..]);
      if currentValue + remaining < target {
        return;
      }
      IncludeThenExclude(start);
    }

    /** The two subtrees: with coin `start`, then without it. */
    method IncludeThenExclude(start: nat)
      requires start < |sorted|
      requires currentValue + sorted[start].value + Value(sorted[start + 1..]) <= U64_MAX
      modifies this
      ensures current == old(current) && currentValue == old(currentValue)
      ensures State() == Explore(sorted, start + 1, current, currentValue, target, upper,
                                 Explore(sorted, start + 1, current + [start], currentValue + sorted[start].value,
                                         target, upper, old(State())))
      decreases |sorted| - start, 0
    {
      ghost var before := current;
      current := current + [start];
      var prev := currentValue;
      currentValue := prev + sorted[start].value;
      Recurse(start + 1);
      current := current[..|current| - 1];
      assert current == before;
      currentValue := prev;
      Recurse(start + 1);
    }
  }

  // ----- what the search guarantees ---------------------------------------

  /** The number of nodes of a full binary tree of the given height. */
  function Nodes(height: nat): (r: nat)
    ensures r >= 1
  {
    if height == 0 then 1 else 1 + 2 * Nodes(height - 1)
  }

  /** The round counter never runs past the cap, never past a full binary tree,
      and the best excess only improves. */
  lemma {:induction false} ExploreCounts(sorted: seq<Coin>, start: nat, current: seq<nat>, value: nat,
                                         target: nat, upper: nat, f: Found)
    requires start <= |sorted|
    ensures var r := Explore(sorted, start, current, value, target, upper, f);
            && f.rounds <= r.rounds <= f.rounds + Nodes(|sorted| - start)
            && (f.rounds <= BNB_MAX_ROUNDS ==> r.rounds <= BNB_MAX_ROUNDS)
            && r.bestExcess <= f.bestExcess
    decreases |sorted| - start
  {
    if f.rounds < BNB_MAX_ROUNDS && value <= upper && start < |sorted|
       && value + Value(sorted[start..]) >= target {
      var here := Record(current, value, target, f.(rounds := f.rounds + 1));
      var included := Explore(sorted, start + 1, current + [start], value + sorted[start].value, target, upper, here);
      ExploreCounts(sorted, start + 1, current + [start], value + sorted[start].value, target, upper, here);
      ExploreCounts(sorted, start + 1, current, value, target, upper, included);
    }
  }

  predicate IncreasingBelow(indices: seq<nat>, bound: nat)
  {
    && (forall i, j :: 0 <= i < j < |indices| ==> indices[i] < indices[j])
    && (forall i :: 0 <= i < |indices| ==> indices[i] < bound)
  }

  /** There are no more increasing positions than room for them. */
  lemma {:induction false} IncreasingFits(indices: seq<nat>, bound: nat)
    requires IncreasingBelow(indices, bound)
    ensures |indices| <= bound
  {
    if indices != [] {
      IncreasingFits(indices[..|indices| - 1], indices[|indices| - 1]);
    }
  }

  function CoinsAt(sorted: seq<Coin>, indices: seq<nat>): (r: seq<Coin>)
    requires forall i :: 0 <= i < |indices| ==> indices[i] < |sorted|
    ensures |r| == |indices|
  {
    seq(|indices|, i requires 0 <= i < |indices| => sorted[indices[i]])
  }

  /** An answer is a strictly increasing list of indices whose coins sum to
      the target plus the recorded excess, inside the window. */
  predicate SoundAnswer(sorted: seq<Coin>, target: nat, upper: nat, f: Found)
  {
    match f.best
    case None => f.bestExcess == U64_MAX
    case Some(indices) =>
      && IncreasingBelow(indices, |sorted|)
      && Value(CoinsAt(sorted, indices)) == target + f.bestExcess <= upper
  }

  lemma CoinsAtOneMore(sorted: seq<Coin>, current: seq<nat>, start: nat)
    requires start < |sorted| && IncreasingBelow(current, start)
    ensures IncreasingBelow(current + [start], start + 1)
    ensures Value(CoinsAt(sorted, current + [start])) == Value(CoinsAt(sorted, current)) + sorted[start].value
  {
    assert CoinsAt(sorted, current + [start]) == CoinsAt(sorted, current) + [sorted[start]];
    TotalConcat(CoinsAt(sorted, current), [sorted[start]], ValueOf);
    TotalOfOne(sorted[start], ValueOf);
  }

  lemma {:induction false} ExploreSound(sorted: seq<Coin>, start: nat, current: seq<nat>, value: nat,
                                        target: nat, upper: nat, f: Found)
    requires start <= |sorted|
    requires IncreasingBelow(current, start) && value == Value(CoinsAt(sorted, current))
    requires SoundAnswer(sorted, target, upper, f)
    ensures SoundAnswer(sorted, target, upper, Explore(sorted, start, current, value, target, upper, f))
    decreases |sorted| - start
  {
    if f.rounds < BNB_MAX_ROUNDS && value <= upper && start < |sorted|
       && value + Value(sorted[start..]) >= target {
      var here := Record(current, value, target, f.(rounds := f.rounds + 1));
      var next := current + [start];
      CoinsAtOneMore(sorted, current, start);
      var included := Explore(sorted, start + 1, next, value + sorted[start].value, target, upper, here);
      ExploreSound(sorted, start + 1, next, value + sorted[start].value, target, upper, here);
      ExploreSound(sorted, start + 1, current, value, target, upper, included);
    }
  }

  /** A search that the cap did not cut misses nothing: whatever subset of the
      undecided coins lands in the window, the answer is at least as close. */
  lemma {:induction false} ExploreMissesNothing(sorted: seq<Coin>, start: nat, current: seq<nat>, value: nat,
                                                target: nat, upper: nat, f: Found, mask: seq<bool>)
    requires start <= |sorted| && |mask| == |sorted| - start
    requires target <= value + Value(Pick(sorted[start..], mask)) <= upper < target + U64_MAX
    requires Explore(sorted, start, current, value, target, upper, f).rounds < BNB_MAX_ROUNDS
    ensures Explore(sorted, start, current, value, target, upper, f).bestExcess
            <= value + Value(Pick(sorted[start..], mask)) - target
    decreases |sorted| - start
  {
    var rest := sorted[start..];
    ExploreCounts(sorted, start, current, value, target, upper, f);
    PickTotalAtMost(rest, mask, ValueOf);
    if start < |sorted| {
      var here := Record(current, value, target, f.(rounds := f.rounds + 1));
      var more := value + sorted[start].value;
      var included := Explore(sorted, start + 1, current + [start], more, target, upper, here);
      assert rest[1..] == sorted[start + 1..];
      ExploreCounts(sorted, start + 1, current, value, target, upper, included);
      if mask[0] {
        assert Pick(rest, mask) == [rest[0]] + Pick(rest[1..], mask[1..]);
        ExploreMissesNothing(sorted, start + 1, current + [start], more, target, upper, here, mask[1..]);
      } else {
        assert Pick(rest, mask) == Pick(rest[1..], mask[1..]);
        ExploreMissesNothing(sorted, start + 1, current, value, target, upper, included, mask[1..]);
      }
    }
  }

  // ----- which of several equally close answers ---------------------------

  /** The order in which the search comes to choices: a choice before those that add
      to it, and one with a larger coin before one with a smaller. */
  predicate NotAfter(x: seq<nat>, y: seq<nat>)
  {
    x == [] || (y != [] && (x[0] < y[0] || (x[0] == y[0] && NotAfter(x[1..], y[1..]))))
  }

  /** A choice of undecided coins. */
  predicate FromOn(y: seq<nat>, start: nat, bound: nat)
  {
    IncreasingBelow(y, bound) && forall i :: 0 <= i < |y| ==> start <= y[i]
  }

  lemma TailFromOn(y: seq<nat>, start: nat, bound: nat)
    requires FromOn(y, start, bound) && y != []
    ensures y[0] == start ==> FromOn(y[1..], start + 1, bound)
    ensures y[0] > start ==> FromOn(y, start + 1, bound)
  {
  }

  lemma CoinsAtFirst(sorted: seq<Coin>, y: seq<nat>)
    requires IncreasingBelow(y, |sorted|) && y != []
    ensures IncreasingBelow(y[1..], |sorted|)
    ensures Value(CoinsAt(sorted, y)) == sorted[y[0]].value + Value(CoinsAt(sorted, y[1..]))
  {
    assert CoinsAt(sorted, y)[1..] == CoinsAt(sorted, y[1..]);
  }

  lemma {:induction false} ChoiceAtMostRest(sorted: seq<Coin>, start: nat, y: seq<nat>)
    requires start <= |sorted| && FromOn(y, start, |sorted|)
    ensures Value(CoinsAt(sorted, y)) <= Value(sorted[start..])
    decreases |sorted| - start
  {
    if y != [] {
      assert start <= y[0] < |sorted|;
      assert sorted[start..][1..] == sorted[start + 1..];
      TailFromOn(y, start, |sorted|);
      if y[0] == start {
        CoinsAtFirst(sorted, y);
        ChoiceAtMostRest(sorted, start + 1, y[1..]);
      } else {
        ChoiceAtMostRest(sorted, start + 1, y);
      }
    }
  }

  /** The list is `current` with undecided coins added. */
  predicate Extends(best: Option<seq<nat>>, current: seq<nat>, start: nat)
  {
    && best.Some? && |current| <= |best.value| && best.value[..|current|] == current
    && (|best.value| > |current| ==> best.value[|current|] >= start)
  }

  lemma ExtendsMore(best: Option<seq<nat>>, current: seq<nat>, start: nat)
    requires Extends(best, current + [start], start + 1)
    ensures Extends(best, current, start) && |best.value| > |current| && best.value[|current|] == start
  {
    assert best.value[..|current|] == best.value[..|current| + 1][..|current|];
    assert best.value[|current|] == best.value[..|current| + 1][|current|];
  }

  /** Below a node the best stays as it was, or becomes closer and extends the node. */
  lemma {:induction false} ExploreExtends(sorted: seq<Coin>, start: nat, current: seq<nat>, value: nat,
                                          target: nat, upper: nat, f: Found)
    requires start <= |sorted|
    ensures var r := Explore(sorted, start, current, value, target, upper, f);
            || (r.best == f.best && r.bestExcess == f.bestExcess)
            || (r.bestExcess < f.bestExcess && Extends(r.best, current, start))
    decreases |sorted| - start
  {
    if f.rounds < BNB_MAX_ROUNDS && value <= upper && start < |sorted|
       && value + Value(sorted[start..]) >= target {
      var here := Record(current, value, target, f.(rounds := f.rounds + 1));
      var next := current + [start];
      var included := Explore(sorted, start + 1, next, value + sorted[start].value, target, upper, here);
      ExploreExtends(sorted, start + 1, next, value + sorted[start].value, target, upper, here);
      ExploreExtends(sorted, start + 1, current, value, target, upper, included);
      if Extends(included.best, next, start + 1) {
        ExtendsMore(included.best, current, start);
      }
    }
  }

  /** The list extends `current` by a choice that does not come after `y`. */
  predicate NoLaterThan(best: Option<seq<nat>>, current: seq<nat>, y: seq<nat>)
  {
    && best.Some? && |current| <= |best.value| && best.value[..|current|] == current
    && NotAfter(best.value[|current|..], y)
  }

  lemma NoLaterMore(best: Option<seq<nat>>, current: seq<nat>, start: nat, y: seq<nat>)
    requires y != [] && y[0] == start && NoLaterThan(best, current + [start], y[1..])
    ensures NoLaterThan(best, current, y)
  {
    var b, n := best.value, |current|;
    assert b[..n] == b[..n + 1][..n] && b[n] == b[..n + 1][n];
    assert b[n..][1..] == b[n + 1..];
  }

  lemma EarlierCoin(best: Option<seq<nat>>, current: seq<nat>, start: nat, y: seq<nat>)
    requires Extends(best, current + [start], start + 1) && y != [] && y[0] > start
    ensures NoLaterThan(best, current, y)
  {
    ExtendsMore(best, current, start);
    assert best.value[|current|..][0] == start;
  }

  /** Below a node, what makes the best closer is the first of all equally close choices. */
  lemma {:induction false} ExploreFindsFirst(sorted: seq<Coin>, start: nat, current: seq<nat>, value: nat,
                                             target: nat, upper: nat, f: Found, y: seq<nat>)
    requires start <= |sorted| && FromOn(y, start, |sorted|)
    requires target <= value + Value(CoinsAt(sorted, y)) <= upper < target + U64_MAX
    requires Explore(sorted, start, current, value, target, upper, f).rounds < BNB_MAX_ROUNDS
    ensures var r := Explore(sorted, start, current, value, target, upper, f);
            var excess := value + Value(CoinsAt(sorted, y)) - target;
            && r.bestExcess <= excess
            && (r.bestExcess == excess && excess < f.bestExcess ==> NoLaterThan(r.best, current, y))
    decreases |sorted| - start
  {
    ExploreCounts(sorted, start, current, value, target, upper, f);
    ChoiceAtMostRest(sorted, start, y);
    var here := Record(current, value, target, f.(rounds := f.rounds + 1));
    if start < |sorted| {
      var next, more := current + [start], value + sorted[start].value;
      var included := Explore(sorted, start + 1, next, more, target, upper, here);
      ExploreCounts(sorted, start + 1, next, more, target, upper, here);
      ExploreCounts(sorted, start + 1, current, value, target, upper, included);
      ExploreExtends(sorted, start + 1, next, more, target, upper, here);
      ExploreExtends(sorted, start + 1, current, value, target, upper, included);
      assert current[..|current|] == current;
      if y != [] {
        TailFromOn(y, start, |sorted|);
        if y[0] == start {
          CoinsAtFirst(sorted, y);
          ExploreFindsFirst(sorted, start + 1, next, more, target, upper, here, y[1..]);
          if NoLaterThan(included.best, next, y[1..]) {
            NoLaterMore(included.best, current, start, y);
          }
        } else {
          ExploreFindsFirst(sorted, start + 1, current, value, target, upper, included, y);
          if Extends(included.best, next, start + 1) {
            EarlierCoin(included.best, current, start, y);
          }
        }
      }
    }
  }

  function Answer(coins: seq<Coin>, target: nat, upper: nat): Found
  {
    Explore(LargestFirst(coins), 0, [], 0, target, upper, START)
  }

  /** Main result: the whole search answers soundly, within the cap. */
  lemma AnswerIsSound(coins: seq<Coin>, target: nat, upper: nat)
    ensures SoundAnswer(LargestFirst(coins), target, upper, Answer(coins, target, upper))
    ensures Answer(coins, target, upper).rounds <= 100_000
  {
    assert CoinsAt(LargestFirst(coins), []) == [];
    ExploreSound(LargestFirst(coins), 0, [], 0, target, upper, START);
    ExploreCounts(LargestFirst(coins), 0, [], 0, target, upper, START);
  }

  /** Main result: unless the cap was hit, the answer is optimal. Every subset of
      the caller's coins in the window has an excess at least the answer's; so
      no answer means that no subset lands in the window. */
  lemma AnswerIsOptimal(coins: seq<Coin>, target: nat, upper: nat, mask: seq<bool>)
    requires |mask| == |coins|
    requires target <= Value(Pick(coins, mask)) <= upper < target + U64_MAX
    requires Answer(coins, target, upper).rounds < BNB_MAX_ROUNDS
    ensures Answer(coins, target, upper).best.Some?
    ensures Answer(coins, target, upper).bestExcess <= Value(Pick(coins, mask)) - target
  {
    var sorted := LargestFirst(coins);
    var mask' := SortDescPick(coins, mask, ValueOf);
    TotalOfPermutation(Pick(sorted, mask'), Pick(coins, mask), ValueOf);
    assert sorted[0..] == sorted;
    ExploreMissesNothing(sorted, 0, [], 0, target, upper, START, mask');
    AnswerIsSound(coins, target, upper);
  }

  /** Main result: of several equally close choices an uncut search answers with the
      first in its order, the one whose first different coin is the larger. */
  lemma AnswerIsFirst(coins: seq<Coin>, target: nat, upper: nat, y: seq<nat>)
    requires IncreasingBelow(y, |coins|)
    requires target <= Value(CoinsAt(LargestFirst(coins), y)) <= upper < target + U64_MAX
    requires Answer(coins, target, upper).rounds < BNB_MAX_ROUNDS
    ensures Answer(coins, target, upper).best.Some?
    ensures Answer(coins, target, upper).bestExcess == Value(CoinsAt(LargestFirst(coins), y)) - target ==>
              NotAfter(Answer(coins, target, upper).best.value, y)
  {
    var sorted := LargestFirst(coins);
    ExploreFindsFirst(sorted, 0, [], 0, target, upper, START, y);
    AnswerIsSound(coins, target, upper);
    var best := Answer(coins, target, upper).best;
    if best.Some? {
      assert best.value[0..] == best.value;
    }
  }

  /** Up to fifteen coins the cap is out of reach, so the answer is always optimal. */
  lemma FewCoinsAreNeverCut(coins: seq<Coin>, target: nat, upper: nat)
    requires |coins| <= 15
    ensures Answer(coins, target, upper).rounds < BNB_MAX_ROUNDS
  {
    ExploreCounts(LargestFirst(coins), 0, [], 0, target, upper, START);
    NodesMonotone(|coins|, 15);
    assert Nodes(5) == 63;
    assert Nodes(10) == 2047;
    assert Nodes(15) == 65535;
  }

  lemma NodesMonotone(a: nat, b: nat)
    requires a <= b
    ensures Nodes(a) <= Nodes(b)
  {
  }

  // ----- select_bnb -------------------------------------------------------

  function Window(feeRate: u64): nat { CHANGE_OUTPUT_COST * feeRate }

  /** What `select_bnb` returns. */
  ghost predicate BnbOutcome(coins: seq<Coin>, target: u64, feeRate: u64, r: ChooserResult)
  {
    var upper := target + Window(feeRate);
    if upper > U64_MAX then r == Err(Overflow)
    else
      var f := Answer(coins, target, upper);
      match f.best
      case None => OnePassOutcome(coins, target, feeRate, r)
      case Some(indices) =>
        && r.Ok?
        && IncreasingBelow(indices, |coins|)
        && r.value.coins == CoinsAt(LargestFirst(coins), indices)
        && r.value.totalInput == Value(r.value.coins) == target + f.bestExcess <= upper
        && r.value.fee == InputFee(r.value.coins, feeRate)
        && r.value.change == MinusAtZero(r.value.totalInput, target + r.value.fee)
  }

  /** The last coin is chosen or not; the rest of the choice is among those before it. */
  lemma CoinsAtFront(sorted: seq<Coin>, indices: seq<nat>) returns (front: seq<nat>, last: seq<Coin>)
    requires sorted != [] && IncreasingBelow(indices, |sorted|)
    ensures var n := |sorted| - 1;
            && IncreasingBelow(front, n)
            && CoinsAt(sorted, indices) == CoinsAt(sorted[..n], front) + last
            && (last == [] || last == [sorted[n]])
  {
    var n := |sorted| - 1;
    if indices != [] && indices[|indices| - 1] == n {
      front, last := indices[..|indices| - 1], [sorted[n]];
    } else {
      front, last := indices, [];
    }
  }

  lemma {:induction false} SomeCoinsAtMostAll(sorted: seq<Coin>, indices: seq<nat>)
    requires IncreasingBelow(indices, |sorted|)
    ensures Size(CoinsAt(sorted, indices)) <= Size(sorted)
    decreases |sorted|
  {
    if sorted != [] {
      var n := |sorted| - 1;
      TotalTake(sorted, n, SizeOf);
      assert sorted[..|sorted|] == sorted;
      var front, last := CoinsAtFront(sorted, indices);
      TotalConcat(CoinsAt(sorted[..n], front), last, SizeOf);
      TotalOfOne(sorted[n], SizeOf);
      SomeCoinsAtMostAll(sorted[..n], front);
    }
  }

  lemma MatchFeeFits(coins: seq<Coin>, indices: seq<nat>, feeRate: u64)
    requires IncreasingBelow(indices, |coins|)
    ensures InputFee(CoinsAt(LargestFirst(coins), indices), feeRate) <= InputFee(coins, feeRate)
  {
    LargestFirstTotals(coins);
    SomeCoinsAtMostAll(LargestFirst(coins), indices);
    SizeFeeMonotone(Size(CoinsAt(LargestFirst(coins), indices)), Size(coins), feeRate);
  }

  method SelectBnb(coins: seq<Coin>, target: u64, feeRate: u64) returns (r: ChooserResult)
    requires Value(coins) <= U64_MAX
    requires target + InputFee(coins, feeRate) <= U64_MAX && Window(feeRate) <= U64_MAX
    ensures BnbOutcome(coins, target, feeRate, r)
  {
    var sorted := LargestFirst(coins);
    var costOfChange := CHANGE_OUTPUT_COST * feeRate;
    if target + costOfChange > U64_MAX {
      return Err(Overflow);
    }
    var best := FindBest(coins, sorted, target, target + costOfChange);
    match best {
      case Some(indices) =>
        var selected := CoinsAt(sorted, indices);
        MatchFeeFits(coins, indices, feeRate);
        var totalInput: u64 := Value(selected);
        var fee: u64 := InputFee(selected, feeRate);
        return Ok(Chosen(selected, totalInput, fee, MinusAtZero(totalInput, target + fee)));
      case None =>
        r := FallbackLargestFirst(coins, target, feeRate);
    }
  }

  /** The search part of `select_bnb`: a fresh search state and one call at the root. */
  method FindBest(coins: seq<Coin>, sorted: seq<Coin>, target: u64, upper: u64) returns (best: Option<seq<nat>>)
    requires Value(coins) <= U64_MAX && sorted == LargestFirst(coins)
    ensures best == Answer(coins, target, upper).best
    ensures SoundAnswer(sorted, target, upper, Answer(coins, target, upper))
  {
    LargestFirstTotals(coins);
    var search := new Search(sorted, target, upper);
    assert sorted[0..] == sorted;
    search.Recurse(0);
    AnswerIsSound(coins, target, upper);
    best := search.best;
    assert search.State().best == best;
  }

  /** The window is narrower than any fee: a match of the search can never pay
      the fee of the transaction it is meant for. Every match that reaches
      `build_unsigned` at a positive fee rate is therefore turned down there. */
  lemma MatchNeverPaysItsFee(coins: seq<Coin>, target: u64, numOutputs: nat, feeRate: u64, r: ChooserResult)
    requires target > 0 && feeRate > 0 && target + Window(feeRate) <= U64_MAX
    requires BnbOutcome(coins, target, feeRate, r)
    requires Answer(coins, target, target + Window(feeRate)).best.Some?
    ensures r.Ok? && r.value.totalInput < target + Sel.EstimateFee(|r.value.coins|, numOutputs, feeRate)
  {
    var k := |r.value.coins|;
    assert k > 0;
    Sel.FeeMonotone(1, k, numOutputs, feeRate);
    Sel.Distribute(CHANGE_OUTPUT_COST, 124 + CHANGE_OUTPUT_COST * numOutputs, feeRate);
    Sel.ProductGrows(124 + CHANGE_OUTPUT_COST * numOutputs, feeRate);
  }
}
