/** Bucketed selection: whole keys at a time, random candidates stripped of
    their smallest buckets, lowest penalty first (core/coinchooser.rs). */
module RandomSelect {
  import opened Common
  import opened Lists
  import opened CoinChooser
  import Prng
  import Sel = CoinSelector

  // ----- buckets ----------------------------------------------------------

  /** The coins of one key. */
  datatype Bucket = Bucket(desc: int, size: u64, value: u64, coins: seq<Coin>)

  function BucketValue(b: Bucket): nat { b.value }

  function BucketSize(b: Bucket): nat { b.size }

  function CoinsOfKey(coins: seq<Coin>, key: int): seq<Coin>
  {
    if coins == [] then []
    else (if coins[0].keyinstanceId == key then [coins[0]] else []) + CoinsOfKey(coins[1..], key)
  }

  lemma {:induction false} KeyConcat(a: seq<Coin>, b: seq<Coin>, key: int)
    ensures CoinsOfKey(a + b, key) == CoinsOfKey(a, key) + CoinsOfKey(b, key)
  {
    if a == [] {
      assert a + b == b;
    } else {
      var first := if a[0].keyinstanceId == key then [a[0]] else [];
      assert (a + b)[1..] == a[1..] + b;
      KeyConcat(a[1..], b, key);
      assert CoinsOfKey(a + b, key) == first + (CoinsOfKey(a[1..], key) + CoinsOfKey(b, key));
    }
  }

  lemma KeyCons(c: Coin, rest: seq<Coin>, key: int)
    ensures CoinsOfKey([c] + rest, key) == (if c.keyinstanceId == key then [c] else []) + CoinsOfKey(rest, key)
  {
    assert ([c] + rest)[1..] == rest;
  }

  /** Within one key, no copy of a coin is lost or added. */
  lemma {:induction false} KeyCounts(coins: seq<Coin>, c: Coin, key: int)
    ensures multiset(CoinsOfKey(coins, key))[c] == if c.keyinstanceId == key then multiset(coins)[c] else 0
  {
    if coins != [] {
      KeyCounts(coins[1..], c, key);
      assert coins == [coins[0]] + coins[1..];
    }
  }

  lemma KeyPart(coins: seq<Coin>, key: int)
    ensures multiset(CoinsOfKey(coins, key)) <= multiset(coins)
    ensures Value(CoinsOfKey(coins, key)) <= Value(coins)
    ensures Size(CoinsOfKey(coins, key)) <= Size(coins)
  {
    forall c: Coin
      ensures multiset(CoinsOfKey(coins, key))[c] <= multiset(coins)[c]
    {
      KeyCounts(coins, c, key);
    }
    TotalOfPart(CoinsOfKey(coins, key), coins, ValueOf);
    TotalOfPart(CoinsOfKey(coins, key), coins, SizeOf);
  }

  predicate HoldsKey(coins: seq<Coin>, b: Bucket)
  {
    && b.coins == CoinsOfKey(coins, b.desc) && b.coins != []
    && b.value == Value(b.coins) && b.size == Size(b.coins)
  }

  /** One bucket for each key of the coins, in whatever order. */
  ghost predicate Grouped(coins: seq<Coin>, buckets: seq<Bucket>)
  {
    && (forall i :: 0 <= i < |buckets| ==> HoldsKey(coins, buckets[i]))
    && (forall i, j :: 0 <= i < j < |buckets| ==> buckets[i].desc != buckets[j].desc)
    && (forall c :: c in coins ==> HasBucket(buckets, c.keyinstanceId))
  }

  predicate HasBucket(buckets: seq<Bucket>, key: int)
  {
    exists i :: 0 <= i < |buckets| && buckets[i].desc == key
  }

  /** The hash map of `bucketize` holds exactly the nonempty groups. */
  ghost predicate GroupsOf(groups: map<int, seq<Coin>>, coins: seq<Coin>)
  {
    forall k :: GroupAt(groups, coins, k)
  }

  predicate GroupAt(groups: map<int, seq<Coin>>, coins: seq<Coin>, k: int)
  {
    if k in groups then groups[k] == CoinsOfKey(coins, k) != [] else CoinsOfKey(coins, k) == []
  }

  function AddToGroup(groups: map<int, seq<Coin>>, c: Coin): map<int, seq<Coin>>
  {
    groups[c.keyinstanceId := (if c.keyinstanceId in groups then groups[c.keyinstanceId] else []) + [c]]
  }

  lemma GroupStep(groups: map<int, seq<Coin>>, coins: seq<Coin>, c: Coin)
    requires GroupsOf(groups, coins)
    ensures GroupsOf(AddToGroup(groups, c), coins + [c])
  {
    forall k: int
      ensures GroupAt(AddToGroup(groups, c), coins + [c], k)
    {
      assert GroupAt(groups, coins, k);
      KeyConcat(coins, [c], k);
    }
  }

  /** `bucketize`: the order of the buckets is the hash map's, so arbitrary. */
  method Bucketize(coins: seq<Coin>) returns (buckets: seq<Bucket>)
    requires Value(coins) <= U64_MAX && Size(coins) <= U64_MAX
    ensures Grouped(coins, buckets)
  {
    var groups := GroupCoins(coins);
    buckets := DrainGroups(coins, groups);
  }

  method GroupCoins(coins: seq<Coin>) returns (groups: map<int, seq<Coin>>)
    ensures GroupsOf(groups, coins)
  {
    groups := map[];
    ghost var done: seq<Coin> := [];
    for i := 0 to |coins|
      invariant done == coins[..i]
      invariant GroupsOf(groups, done)
    {
      GroupStep(groups, done, coins[i]);
      groups := AddToGroup(groups, coins[i]);
      done := done + [coins[i]];
    }
    assert done == coins;
  }

  /** The groups outside `left` have become buckets, one each. */
  ghost predicate Drained(coins: seq<Coin>, keys: set<int>, left: set<int>, buckets: seq<Bucket>)
  {
    && (forall i :: 0 <= i < |buckets| ==> HoldsKey(coins, buckets[i]) && buckets[i].desc !in left)
    && (forall i, j :: 0 <= i < j < |buckets| ==> buckets[i].desc != buckets[j].desc)
    && (forall k :: k in keys && k !in left ==> HasBucket(buckets, k))
  }

  lemma DrainStep(coins: seq<Coin>, keys: set<int>, left: set<int>, buckets: seq<Bucket>, b: Bucket)
    requires Drained(coins, keys, left, buckets) && HoldsKey(coins, b) && b.desc in left
    ensures Drained(coins, keys, left - {b.desc}, buckets + [b])
  {
    var more := buckets + [b];
    assert more[|buckets|] == b;
    forall k | k in keys && k !in left - {b.desc}
      ensures HasBucket(more, k)
    {
      if k != b.desc {
        var i :| 0 <= i < |buckets| && buckets[i].desc == k;
        assert more[i].desc == k;
      }
    }
  }

  lemma DrainedIsGrouped(coins: seq<Coin>, groups: map<int, seq<Coin>>, buckets: seq<Bucket>)
    requires GroupsOf(groups, coins) && Drained(coins, groups.Keys, {}, buckets)
    ensures Grouped(coins, buckets)
  {
    forall c | c in coins
      ensures HasBucket(buckets, c.keyinstanceId)
    {
      KeyCounts(coins, c, c.keyinstanceId);
      assert c in multiset(coins);
      assert c in multiset(CoinsOfKey(coins, c.keyinstanceId));
      assert GroupAt(groups, coins, c.keyinstanceId);
    }
  }

  method DrainGroups(coins: seq<Coin>, groups: map<int, seq<Coin>>) returns (buckets: seq<Bucket>)
    requires Value(coins) <= U64_MAX && Size(coins) <= U64_MAX
    requires GroupsOf(groups, coins)
    ensures Grouped(coins, buckets)
  {
    buckets := [];
    var left: set<int> := groups.Keys;
    while left != {}
      invariant left <= groups.Keys && Drained(coins, groups.Keys, left, buckets)
      decreases left
    {
      ghost var some := SomeIn(left);
      var key :| key in left;
      KeyPart(coins, key);
      assert GroupAt(groups, coins, key);
      var b := Bucket(key, Size(groups[key]), Value(groups[key]), groups[key]);
      DrainStep(coins, groups.Keys, left, buckets, b);
      buckets := buckets + [b];
      left := left - {key};
    }
    DrainedIsGrouped(coins, groups, buckets);
  }

  // ----- sufficiency ------------------------------------------------------

  /** The buckets cover the target and the fee of their own inputs. */
  predicate Sufficient(buckets: seq<Bucket>, target: nat, feeRate: u64)
  {
    Total(buckets, BucketValue) >= target + SizeFee(Total(buckets, BucketSize), feeRate)
  }

  lemma SufficientOfPermutation(a: seq<Bucket>, b: seq<Bucket>, target: nat, feeRate: u64)
    requires multiset(a) == multiset(b)
    ensures Sufficient(a, target, feeRate) == Sufficient(b, target, feeRate)
  {
    TotalOfPermutation(a, b, BucketValue);
    TotalOfPermutation(a, b, BucketSize);
  }

  /** Sufficiency is not monotone: here a bucket worth less than its own bytes
      turns a sufficient choice into an insufficient one. */
  lemma MoreCanBeTooLittle()
    ensures var rich := Bucket(1, 148, 1000, []);
            var dust := Bucket(2, 148, 5, []);
            Sufficient([rich], 842, 1) && !Sufficient([rich, dust], 842, 1)
  {
    var rich := Bucket(1, 148, 1000, []);
    var dust := Bucket(2, 148, 5, []);
    assert [rich, dust][1..] == [dust];
  }

  /** The bucket is worth at least the fee of its own bytes. */
  predicate PaysForItself(b: Bucket, feeRate: u64)
  {
    b.value >= b.size * feeRate
  }

  /** Buckets as a wallet has them: the coins of one key, summed, 148 bytes each. */
  ghost predicate Genuine(b: Bucket)
  {
    && b.coins != [] && SumsItsCoins(b)
    && forall c :: c in b.coins ==> c.keyinstanceId == b.desc && c.estimatedSize == Sel.INPUT_SIZE
  }

  /** Genuine buckets of different keys, none of them the key of `b`. */
  ghost predicate Beside(c: seq<Bucket>, b: Bucket)
  {
    && (forall i :: 0 <= i < |c| ==> Genuine(c[i]) && c[i].desc != b.desc)
    && (forall i, j :: 0 <= i < j < |c| ==> c[i].desc != c[j].desc)
  }

  /** A bucket worth its own bytes never makes a sufficient choice insufficient. */
  lemma AddingWorthwhileKeeps(c: seq<Bucket>, b: Bucket, target: nat, feeRate: u64)
    requires PaysForItself(b, feeRate) && Sufficient(c, target, feeRate)
    ensures Sufficient(c + [b], target, feeRate)
  {
    OneMoreBucket(c, b, target, feeRate);
  }

  /** The exact condition: adding the coins of a key keeps every sufficient choice
      of other keys sufficient, for every target, if and only if they are worth
      their own bytes. A coin that just pays for a transaction of its own, which
      is the choice that fails, must fit 64 bits. */
  lemma AddingKeepsSufficiencyIff(b: Bucket, feeRate: u64)
    requires (BASE_SIZE + Sel.INPUT_SIZE) * feeRate <= U64_MAX
    ensures (forall c, target: nat :: Beside(c, b) && Sufficient(c, target, feeRate) ==>
               Sufficient(c + [b], target, feeRate))
            <==> PaysForItself(b, feeRate)
  {
    forall c, target: nat | Beside(c, b) && Sufficient(c, target, feeRate) && PaysForItself(b, feeRate)
      ensures Sufficient(c + [b], target, feeRate)
    {
      AddingWorthwhileKeeps(c, b, target, feeRate);
    }
    if !PaysForItself(b, feeRate) {
      var coin := Coin([], 0, (BASE_SIZE + Sel.INPUT_SIZE) * feeRate, b.desc + 1, Sel.INPUT_SIZE);
      var tight := [Bucket(b.desc + 1, coin.estimatedSize, coin.value, [coin])];
      TotalOfOne(coin, ValueOf);
      TotalOfOne(coin, SizeOf);
      TotalOfOne(tight[0], BucketValue);
      TotalOfOne(tight[0], BucketSize);
      OneMoreBucket(tight, b, 0, feeRate);
      assert Beside(tight, b);
      assert Sufficient(tight, 0, feeRate) && !Sufficient(tight + [b], 0, feeRate);
    }
  }

  /** What one more bucket adds to the value and to the fee. */
  lemma OneMoreBucket(c: seq<Bucket>, b: Bucket, target: nat, feeRate: u64)
    ensures Sufficient(c + [b], target, feeRate) <==>
            Total(c, BucketValue) + b.value >= target + SizeFee(Total(c, BucketSize), feeRate) + b.size * feeRate
  {
    TotalConcat(c, [b], BucketValue);
    TotalConcat(c, [b], BucketSize);
    TotalOfOne(b, BucketValue);
    TotalOfOne(b, BucketSize);
    Sel.Distribute(BASE_SIZE + Total(c, BucketSize), b.size, feeRate);
  }

  /** What a bucket is worth beyond its own bytes. */
  function Net(feeRate: u64): Bucket -> nat
  {
    (b: Bucket) => if PaysForItself(b, feeRate) then b.value - b.size * feeRate else 0
  }

  lemma {:induction false} NetTotal(c: seq<Bucket>, feeRate: u64)
    requires forall b :: b in c ==> PaysForItself(b, feeRate)
    ensures Total(c, BucketValue) == Total(c, Net(feeRate)) + Total(c, BucketSize) * feeRate
  {
    if c != [] {
      NetTotal(c[1..], feeRate);
      Sel.Distribute(c[0].size, Total(c[1..], BucketSize), feeRate);
      assert PaysForItself(c[0], feeRate);
    }
  }

  /** Among buckets that are all worth their bytes, whatever part suffices, the whole does. */
  lemma WholeSufficesToo(part: seq<Bucket>, whole: seq<Bucket>, target: nat, feeRate: u64)
    requires multiset(part) <= multiset(whole) && forall b :: b in whole ==> PaysForItself(b, feeRate)
    requires Sufficient(part, target, feeRate)
    ensures Sufficient(whole, target, feeRate)
  {
    forall b | b in part
      ensures PaysForItself(b, feeRate)
    {
      assert b in multiset(part);
      assert b in multiset(whole);
    }
    NetTotal(part, feeRate);
    NetTotal(whole, feeRate);
    TotalOfPart(part, whole, Net(feeRate));
    Sel.Distribute(BASE_SIZE, Total(part, BucketSize), feeRate);
    Sel.Distribute(BASE_SIZE, Total(whole, BucketSize), feeRate);
  }

  /** Nothing is to be paid, not even fees: then every list suffices, the empty one too. */
  predicate Free(target: nat, feeRate: u64)
  {
    target == 0 && feeRate == 0
  }

  lemma NothingSufficesIffFree(target: nat, feeRate: u64)
    ensures Sufficient([], target, feeRate) <==> Free(target, feeRate)
  {
    Sel.ProductGrows(BASE_SIZE, feeRate);
  }

  lemma FreeSuffices(buckets: seq<Bucket>, target: nat, feeRate: u64)
    requires Free(target, feeRate)
    ensures Sufficient(buckets, target, feeRate)
  {
  }

  // ----- candidates -------------------------------------------------------

  /** Descending lightness is ascending value. */
  function Lightness(b: Bucket): nat { U64_MAX - b.value }

  function ByValue(buckets: seq<Bucket>): (r: seq<Bucket>)
    ensures |r| == |buckets|
  {
    SortDesc(buckets, Lightness)
  }

  ghost predicate Ascending(buckets: seq<Bucket>)
  {
    forall i, j :: 0 <= i < j < |buckets| ==> buckets[i].value <= buckets[j].value
  }

  lemma ByValueAscends(buckets: seq<Bucket>)
    ensures Ascending(ByValue(buckets)) && multiset(ByValue(buckets)) == multiset(buckets)
  {
    SortDescSorts(buckets, Lightness);
    var sorted := ByValue(buckets);
    forall i, j | 0 <= i < j < |sorted|
      ensures sorted[i].value <= sorted[j].value
    {
      assert Lightness(sorted[i]) >= Lightness(sorted[j]);
    }
  }

  /** A candidate: some of the buckets, sufficient, smallest first, and no
      longer sufficient without its smallest, unless nothing is to be paid. */
  ghost predicate Candidate(buckets: seq<Bucket>, target: nat, feeRate: u64, c: seq<Bucket>)
  {
    && c != [] && multiset(c) <= multiset(buckets) && Ascending(c)
    && Sufficient(c, target, feeRate)
    && (Sufficient(c[1..], target, feeRate) ==> Free(target, feeRate))
  }

  /** The buckets after position `j` suffice, so that position can be spared. */
  predicate Spares(sorted: seq<Bucket>, target: nat, feeRate: u64, j: nat)
  {
    j < |sorted| && Sufficient(sorted[j + 1..], target, feeRate)
  }

  /** `strip_unneeded` cuts at the first bucket it cannot spare, and nowhere if
      it can spare them all. */
  ghost predicate CutAt(sorted: seq<Bucket>, target: nat, feeRate: u64, k: nat)
  {
    if k < |sorted| && !Spares(sorted, target, feeRate, k)
    then forall j :: 0 <= j < k ==> Spares(sorted, target, feeRate, j)
    else k == 0 && forall j :: 0 <= j < |sorted| ==> Spares(sorted, target, feeRate, j)
  }

  /** The place of that cut. */
  function Cut(sorted: seq<Bucket>, target: nat, feeRate: u64, i: nat): (k: nat)
    requires i <= |sorted|
    ensures k <= |sorted|
    decreases |sorted| - i
  {
    if i == |sorted| then 0
    else if !Spares(sorted, target, feeRate, i) then i
    else Cut(sorted, target, feeRate, i + 1)
  }

  lemma {:induction false} CutIsAt(sorted: seq<Bucket>, target: nat, feeRate: u64, i: nat)
    requires i <= |sorted| && forall j :: 0 <= j < i ==> Spares(sorted, target, feeRate, j)
    ensures CutAt(sorted, target, feeRate, Cut(sorted, target, feeRate, i))
    decreases |sorted| - i
  {
    if i < |sorted| && Spares(sorted, target, feeRate, i) {
      CutIsAt(sorted, target, feeRate, i + 1);
    }
  }

  /** The buckets in increasing value, from the cut on. */
  function Stripped(buckets: seq<Bucket>, target: nat, feeRate: u64): seq<Bucket>
  {
    ByValue(buckets)[Cut(ByValue(buckets), target, feeRate, 0)..]
  }

  method StripUnneeded(buckets: seq<Bucket>, target: nat, feeRate: u64) returns (r: seq<Bucket>)
    ensures r == Stripped(buckets, target, feeRate)
    ensures exists k: nat :: CutAt(ByValue(buckets), target, feeRate, k) && k <= |buckets| && r == ByValue(buckets)[k..]
  {
    var sorted := ByValue(buckets);
    CutIsAt(sorted, target, feeRate, 0);
    for i := 0 to |sorted|
      invariant Cut(sorted, target, feeRate, i) == Cut(sorted, target, feeRate, 0)
    {
      var rest := sorted[i + 1..];
      if !Sufficient(rest, target, feeRate) {
        return sorted[i..];
      }
    }
    assert sorted[0..] == sorted;
    return sorted;
  }

  /** The cut always leaves a sufficient list, and one that its smallest bucket
      cannot be taken from, unless nothing is to be paid. */
  lemma CutIsTight(sorted: seq<Bucket>, target: nat, feeRate: u64, k: nat)
    requires sorted != [] && Sufficient(sorted, target, feeRate) && CutAt(sorted, target, feeRate, k)
    ensures k < |sorted| && Sufficient(sorted[k..], target, feeRate)
    ensures Sufficient(sorted[k + 1..], target, feeRate) ==> Free(target, feeRate)
  {
    NothingSufficesIffFree(target, feeRate);
    assert sorted[0..] == sorted;
    assert sorted[(|sorted| - 1) + 1..] == [];
    if !Free(target, feeRate) {
      assert !Spares(sorted, target, feeRate, |sorted| - 1);
    } else {
      FreeSuffices(sorted[k + 1..], target, feeRate);
    }
    if k > 0 {
      assert Spares(sorted, target, feeRate, k - 1);
    }
  }

  lemma StrippedIsCandidate(buckets: seq<Bucket>, chosen: seq<Bucket>, target: nat, feeRate: u64)
    requires chosen != [] && Sufficient(chosen, target, feeRate) && multiset(chosen) <= multiset(buckets)
    ensures Candidate(buckets, target, feeRate, Stripped(chosen, target, feeRate))
  {
    var sorted := ByValue(chosen);
    var k := Cut(sorted, target, feeRate, 0);
    ByValueAscends(chosen);
    SufficientOfPermutation(sorted, chosen, target, feeRate);
    CutIsAt(sorted, target, feeRate, 0);
    CutIsTight(sorted, target, feeRate, k);
    var r := sorted[k..];
    assert r[1..] == sorted[k + 1..];
    SuffixIsPart(sorted, k);
  }

  lemma SuffixIsPart(s: seq<Bucket>, k: nat)
    requires k <= |s|
    ensures multiset(s[k..]) <= multiset(s)
  {
    assert s == s[..k] + s[k..];
  }

  function Gather(buckets: seq<Bucket>, perm: seq<nat>): (r: seq<Bucket>)
    requires forall i :: 0 <= i < |perm| ==> perm[i] < |buckets|
    ensures |r| == |perm| && forall i :: 0 <= i < |perm| ==> r[i] == buckets[perm[i]]
  {
    seq(|perm|, i requires 0 <= i < |perm| => buckets[perm[i]])
  }

  function Identity(n: nat): (r: seq<nat>)
    ensures |r| == n && forall i :: 0 <= i < n ==> r[i] == i
  {
    seq(n, i => i)
  }

  ghost predicate Permutes(perm: seq<nat>, n: nat)
  {
    multiset(perm) == multiset(Identity(n))
  }

  lemma PermInRange(perm: seq<nat>, n: nat)
    requires Permutes(perm, n)
    ensures |perm| == n && forall i :: 0 <= i < n ==> perm[i] < n
  {
    assert |perm| == |multiset(perm)| == |multiset(Identity(n))| == n;
    forall i | 0 <= i < n
      ensures perm[i] < n
    {
      assert perm[i] in multiset(Identity(n));
      assert perm[i] in Identity(n);
    }
  }

  /** Taking the buckets in a permuted order is a permutation of the buckets. */
  lemma GatherPermutes(buckets: seq<Bucket>, perm: seq<nat>)
    requires Permutes(perm, |buckets|)
    ensures |perm| == |buckets| && forall i :: 0 <= i < |perm| ==> perm[i] < |buckets|
    ensures multiset(Gather(buckets, perm)) == multiset(buckets)
  {
    PermInRange(perm, |buckets|);
    if buckets != [] {
      var first := buckets[0];
      var at: nat -> Bucket := (i: nat) => if i < |buckets| then buckets[i] else first;
      MapOfPermutation(at, perm, Identity(|buckets|));
      assert Map(at, perm) == Gather(buckets, perm);
      assert Map(at, Identity(|buckets|)) == buckets;
    }
  }

  /** How many buckets it takes, in this order, until they suffice: more than `i`. */
  function Reach(order: seq<Bucket>, target: nat, feeRate: u64, i: nat): (k: Option<nat>)
    requires i <= |order|
    ensures k.Some? ==> i < k.value <= |order| && Sufficient(order[..k.value], target, feeRate)
    ensures k.None? && i < |order| ==> !Sufficient(order, target, feeRate)
    decreases |order| - i
  {
    if i == |order| then None
    else
      assert order[..|order|] == order;
      if Sufficient(order[..i + 1], target, feeRate) then Some(i + 1)
      else Reach(order, target, feeRate, i + 1)
  }

  /** What one attempt yields: the stripped buckets of the shortest sufficient beginning of the order. */
  function AttemptAt(order: seq<Bucket>, target: nat, feeRate: u64): Option<seq<Bucket>>
  {
    match Reach(order, target, feeRate, 0)
    case None => None
    case Some(k) => Some(Stripped(order[..k], target, feeRate))
  }

  /** The shortest beginning that suffices. */
  ghost predicate ShortestBeginning(order: seq<Bucket>, target: nat, feeRate: u64, k: nat)
  {
    && 1 <= k <= |order| && Sufficient(order[..k], target, feeRate)
    && forall j :: 1 <= j < k ==> !Sufficient(order[..j], target, feeRate)
  }

  lemma {:induction false} ReachIsShortest(order: seq<Bucket>, target: nat, feeRate: u64, i: nat)
    requires i <= |order| && forall j :: 1 <= j <= i ==> !Sufficient(order[..j], target, feeRate)
    ensures match Reach(order, target, feeRate, i)
            case None => forall j :: 1 <= j <= |order| ==> !Sufficient(order[..j], target, feeRate)
            case Some(k) => ShortestBeginning(order, target, feeRate, k)
    decreases |order| - i
  {
    if i < |order| && !Sufficient(order[..i + 1], target, feeRate) {
      ReachIsShortest(order, target, feeRate, i + 1);
    }
  }

  /** What some buckets are stripped to: all of them in increasing value, from the
      first that cannot be spared. */
  ghost predicate StrippedTo(buckets: seq<Bucket>, target: nat, feeRate: u64, c: seq<Bucket>)
  {
    exists sorted, k: nat :: && Ascending(sorted) && multiset(sorted) == multiset(buckets)
                             && k <= |sorted| && CutAt(sorted, target, feeRate, k) && c == sorted[k..]
  }

  /** What an attempt does, in terms of its order alone: it takes the shortest
      beginning that suffices and strips it, or finds that none suffices. */
  lemma AttemptTakesShortest(order: seq<Bucket>, target: nat, feeRate: u64)
    ensures match AttemptAt(order, target, feeRate)
            case None => forall j :: 1 <= j <= |order| ==> !Sufficient(order[..j], target, feeRate)
            case Some(c) => exists k: nat :: ShortestBeginning(order, target, feeRate, k)
                                        && StrippedTo(order[..k], target, feeRate, c)
  {
    ReachIsShortest(order, target, feeRate, 0);
    var k := Reach(order, target, feeRate, 0);
    if k.Some? {
      StrippedIsStrippedTo(order[..k.value], target, feeRate);
    }
  }

  lemma StrippedIsStrippedTo(buckets: seq<Bucket>, target: nat, feeRate: u64)
    ensures StrippedTo(buckets, target, feeRate, Stripped(buckets, target, feeRate))
  {
    ByValueAscends(buckets);
    CutIsAt(ByValue(buckets), target, feeRate, 0);
  }

  lemma AttemptIsCandidate(buckets: seq<Bucket>, order: seq<Bucket>, target: nat, feeRate: u64)
    requires multiset(order) == multiset(buckets) && buckets != []
    ensures match AttemptAt(order, target, feeRate)
            case None => !Sufficient(buckets, target, feeRate)
            case Some(c) => Candidate(buckets, target, feeRate, c)
  {
    assert |order| == |multiset(order)| == |multiset(buckets)| == |buckets|;
    SufficientOfPermutation(order, buckets, target, feeRate);
    var k := Reach(order, target, feeRate, 0);
    if k.Some? {
      assert order == order[..k.value] + order[k.value..];
      StrippedIsCandidate(buckets, order[..k.value], target, feeRate);
    }
  }

  /** Adding buckets in the permuted order until they suffice, and stripping them. */
  method TryOrder(buckets: seq<Bucket>, perm: seq<nat>, target: nat, feeRate: u64)
    returns (found: Option<seq<Bucket>>)
    requires Permutes(perm, |buckets|)
    ensures |perm| == |buckets| && forall i :: 0 <= i < |perm| ==> perm[i] < |buckets|
    ensures found == AttemptAt(Gather(buckets, perm), target, feeRate)
  {
    GatherPermutes(buckets, perm);
    ghost var order := Gather(buckets, perm);
    var bkts: seq<Bucket> := [];
    for i := 0 to |perm|
      invariant bkts == order[..i]
      invariant Reach(order, target, feeRate, i) == Reach(order, target, feeRate, 0)
    {
      bkts := bkts + [buckets[perm[i]]];
      assert bkts == order[..i + 1];
      if Sufficient(bkts, target, feeRate) {
        var stripped := StripUnneeded(bkts, target, feeRate);
        return Some(stripped);
      }
    }
    return None;
  }

  function Min(a: nat, b: nat): nat { if a <= b then a else b }

  /** The buckets that suffice alone, each as a list. */
  function SinglesOf(buckets: seq<Bucket>, target: nat, feeRate: u64): seq<seq<Bucket>>
  {
    if buckets == [] then []
    else
      var last := [buckets[|buckets| - 1]];
      SinglesOf(buckets[..|buckets| - 1], target, feeRate) + if Sufficient(last, target, feeRate) then [last] else []
  }

  lemma {:induction false} SinglesAre(buckets: seq<Bucket>, target: nat, feeRate: u64, c: seq<Bucket>)
    ensures c in SinglesOf(buckets, target, feeRate) <==> |c| == 1 && c[0] in buckets && Sufficient(c, target, feeRate)
  {
    if buckets != [] {
      var n := |buckets| - 1;
      SinglesAre(buckets[..n], target, feeRate, c);
      assert buckets == buckets[..n] + [buckets[n]];
      if |c| == 1 && c[0] == buckets[n] {
        assert c == [buckets[n]];
      }
    }
  }

  /** A bucket sufficient alone is a candidate. */
  lemma SingleIsCandidate(buckets: seq<Bucket>, target: nat, feeRate: u64, c: seq<Bucket>)
    requires |c| == 1 && c[0] in buckets && Sufficient(c, target, feeRate)
    ensures Candidate(buckets, target, feeRate, c)
  {
    var i :| 0 <= i < |buckets| && buckets[i] == c[0];
    assert buckets == buckets[..i] + [buckets[i]] + buckets[i + 1..];
    assert c == [buckets[i]] && c[1..] == [];
    NothingSufficesIffFree(target, feeRate);
  }

  method Singletons(buckets: seq<Bucket>, target: nat, feeRate: u64) returns (candidates: seq<seq<Bucket>>)
    ensures candidates == SinglesOf(buckets, target, feeRate)
  {
    candidates := [];
    for i := 0 to |buckets|
      invariant candidates == SinglesOf(buckets[..i], target, feeRate)
    {
      assert buckets[..i + 1][..i] == buckets[..i];
      if Sufficient([buckets[i]], target, feeRate) {
        candidates := candidates + [[buckets[i]]];
      }
    }
    assert buckets[..|buckets|] == buckets;
  }

  /** Every list collected is a candidate, and every bucket that suffices alone is there. */
  ghost predicate Collected(buckets: seq<Bucket>, target: nat, feeRate: u64, candidates: seq<seq<Bucket>>)
  {
    && (forall c :: c in candidates ==> Candidate(buckets, target, feeRate, c))
    && (forall b :: b in buckets && Sufficient([b], target, feeRate) ==> [b] in candidates)
  }

  function Appended(found: seq<seq<Bucket>>, c: Option<seq<Bucket>>): seq<seq<Bucket>>
  {
    match c
    case None => found
    case Some(x) => found + [x]
  }

  /** What attempts on a list of orders find, one after the other. */
  function FoundIn(orders: seq<seq<Bucket>>, target: nat, feeRate: u64): seq<seq<Bucket>>
  {
    if orders == [] then []
    else Appended(FoundIn(orders[..|orders| - 1], target, feeRate), AttemptAt(orders[|orders| - 1], target, feeRate))
  }

  lemma {:induction false} FoundFrom(orders: seq<seq<Bucket>>, target: nat, feeRate: u64, c: seq<Bucket>)
    ensures c in FoundIn(orders, target, feeRate) <==>
            exists k :: 0 <= k < |orders| && AttemptAt(orders[k], target, feeRate) == Some(c)
  {
    if orders != [] {
      var front, last := orders[..|orders| - 1], |orders| - 1;
      FoundFrom(front, target, feeRate, c);
      if c in FoundIn(front, target, feeRate) {
        var k :| 0 <= k < |front| && AttemptAt(front[k], target, feeRate) == Some(c);
        assert orders[k] == front[k];
      }
      forall k | 0 <= k < last && AttemptAt(orders[k], target, feeRate) == Some(c)
        ensures c in FoundIn(front, target, feeRate)
      {
        assert front[k] == orders[k];
      }
    }
  }

  /** The number of attempts. */
  function Rounds(n: nat): nat
  {
    if n == 0 then 0 else Min(100, (n - 1) * 10 + 1)
  }

  ghost predicate OrdersOf(buckets: seq<Bucket>, orders: seq<seq<Bucket>>)
  {
    forall k :: 0 <= k < |orders| ==> multiset(orders[k]) == multiset(buckets)
  }

  /** One order of the buckets for every attempt. */
  ghost predicate Drawn(buckets: seq<Bucket>, orders: seq<seq<Bucket>>)
  {
    |orders| == Rounds(|buckets|) && OrdersOf(buckets, orders)
  }

  /** The candidate list: first the buckets that suffice alone, then what the attempts find. */
  function CandidatesIn(buckets: seq<Bucket>, orders: seq<seq<Bucket>>, target: nat, feeRate: u64): seq<seq<Bucket>>
  {
    SinglesOf(buckets, target, feeRate) + FoundIn(orders, target, feeRate)
  }

  /** The first part of the list goes through the buckets in their order. */
  lemma {:induction false} SinglesInOrder(a: seq<Bucket>, b: seq<Bucket>, target: nat, feeRate: u64)
    ensures SinglesOf(a + b, target, feeRate) == SinglesOf(a, target, feeRate) + SinglesOf(b, target, feeRate)
    ensures |b| == 1 ==> SinglesOf(b, target, feeRate) == if Sufficient(b, target, feeRate) then [b] else []
    decreases |b|
  {
    if b == [] {
      assert a + b == a;
    } else {
      var front, last := b[..|b| - 1], [b[|b| - 1]];
      assert a + b == (a + front) + last;
      SinglesOneMore(a + front, last[0], target, feeRate);
      SinglesOneMore(front, last[0], target, feeRate);
      assert b == front + last;
      SinglesInOrder(a, front, target, feeRate);
    }
  }

  lemma SinglesOneMore(a: seq<Bucket>, b: Bucket, target: nat, feeRate: u64)
    ensures SinglesOf(a + [b], target, feeRate) ==
            SinglesOf(a, target, feeRate) + if Sufficient([b], target, feeRate) then [[b]] else []
  {
    assert (a + [b])[..|a|] == a;
  }

  /** The second part goes through the attempts in theirs. */
  lemma {:induction false} FoundInOrder(x: seq<seq<Bucket>>, y: seq<seq<Bucket>>, target: nat, feeRate: u64)
    ensures FoundIn(x + y, target, feeRate) == FoundIn(x, target, feeRate) + FoundIn(y, target, feeRate)
    ensures |y| == 1 ==> FoundIn(y, target, feeRate) == Appended([], AttemptAt(y[0], target, feeRate))
    decreases |y|
  {
    if y == [] {
      assert x + y == x;
    } else {
      var front, last := y[..|y| - 1], y[|y| - 1];
      assert x + y == (x + front) + [last];
      FoundOneMore(x + front, last, target, feeRate);
      FoundOneMore(front, last, target, feeRate);
      assert y == front + [last];
      FoundInOrder(x, front, target, feeRate);
      AppendedAfter(FoundIn(x, target, feeRate), FoundIn(front, target, feeRate), AttemptAt(last, target, feeRate));
    }
  }

  lemma AppendedAfter(a: seq<seq<Bucket>>, b: seq<seq<Bucket>>, c: Option<seq<Bucket>>)
    ensures Appended(a + b, c) == a + Appended(b, c)
  {
    if c.Some? {
      assert a + b + [c.value] == a + (b + [c.value]);
    }
  }

  /** Ten attempts for every bucket after the first, and one; never more than a hundred. */
  lemma RoundsAre(n: nat)
    ensures Rounds(0) == 0 && Rounds(1) == 1
    ensures 1 <= n <= 10 ==> Rounds(n) == 10 * n - 9
    ensures n > 10 ==> Rounds(n) == 100
  {
  }

  lemma FoundIsCandidate(buckets: seq<Bucket>, orders: seq<seq<Bucket>>, target: nat, feeRate: u64, c: seq<Bucket>)
    requires Drawn(buckets, orders) && c in FoundIn(orders, target, feeRate)
    ensures Candidate(buckets, target, feeRate, c)
  {
    FoundFrom(orders, target, feeRate, c);
    var k :| 0 <= k < |orders| && AttemptAt(orders[k], target, feeRate) == Some(c);
    assert buckets != [];
    AttemptIsCandidate(buckets, orders[k], target, feeRate);
  }

  /** Main result: however the draws fall, every candidate is sufficient and tight,
      every bucket sufficient alone is among them, and there is a candidate if all
      buckets together suffice. */
  lemma CandidatesAreTight(buckets: seq<Bucket>, orders: seq<seq<Bucket>>, target: nat, feeRate: u64)
    requires Drawn(buckets, orders)
    ensures Collected(buckets, target, feeRate, CandidatesIn(buckets, orders, target, feeRate))
    ensures buckets != [] && Sufficient(buckets, target, feeRate) ==> CandidatesIn(buckets, orders, target, feeRate) != []
  {
    var singles, found := SinglesOf(buckets, target, feeRate), FoundIn(orders, target, feeRate);
    forall c | c in singles + found
      ensures Candidate(buckets, target, feeRate, c)
    {
      SinglesAre(buckets, target, feeRate, c);
      if c in singles {
        SingleIsCandidate(buckets, target, feeRate, c);
      } else {
        FoundIsCandidate(buckets, orders, target, feeRate, c);
      }
    }
    forall b | b in buckets && Sufficient([b], target, feeRate)
      ensures [b] in singles + found
    {
      SinglesAre(buckets, target, feeRate, [b]);
    }
    if buckets != [] && Sufficient(buckets, target, feeRate) {
      AttemptIsCandidate(buckets, orders[0], target, feeRate);
      FoundFrom(orders, target, feeRate, AttemptAt(orders[0], target, feeRate).value);
    }
  }

  /** A number of shuffles: the orders they gave, and the permutation and the
      generator they leave. */
  datatype Shuffles = Shuffles(orders: seq<seq<Bucket>>, perm: seq<nat>, gen: Prng.Gen)

  /** Each attempt shuffles the permutation the one before it left. */
  ghost function ShufflesOf(h: Prng.Hash, g: Prng.Gen, buckets: seq<Bucket>, n: nat): (a: Shuffles)
    requires Prng.Ready(h, g) && buckets != []
    ensures Prng.Ready(h, a.gen) && Permutes(a.perm, |buckets|) && |a.perm| == |buckets| && |a.orders| == n
  {
    if n == 0 then Shuffles([], Identity(|buckets|), g)
    else
      var before := ShufflesOf(h, g, buckets, n - 1);
      var shuffled := Prng.Shuffled(h, before.gen, before.perm, |buckets| - 1);
      Prng.ShufflePermutes(h, before.gen, before.perm, |buckets| - 1);
      PermInRange(shuffled.0, |buckets|);
      Shuffles(before.orders + [Gather(buckets, shuffled.0)], shuffled.0, shuffled.1)
  }

  lemma OneMoreOrder(buckets: seq<Bucket>, orders: seq<seq<Bucket>>, order: seq<Bucket>)
    requires OrdersOf(buckets, orders) && multiset(order) == multiset(buckets)
    ensures OrdersOf(buckets, orders + [order])
  {
  }

  lemma {:induction false} ShufflesPermute(h: Prng.Hash, g: Prng.Gen, buckets: seq<Bucket>, n: nat)
    requires Prng.Ready(h, g) && buckets != []
    ensures OrdersOf(buckets, ShufflesOf(h, g, buckets, n).orders)
  {
    if n > 0 {
      ShufflesPermute(h, g, buckets, n - 1);
      var perm := ShufflesOf(h, g, buckets, n).perm;
      GatherPermutes(buckets, perm);
      OneMoreOrder(buckets, ShufflesOf(h, g, buckets, n - 1).orders, Gather(buckets, perm));
    }
  }

  /** The orders that a generator draws. */
  ghost function DrawnOrders(h: Prng.Hash, g: Prng.Gen, buckets: seq<Bucket>): (orders: seq<seq<Bucket>>)
    requires Prng.Ready(h, g)
    ensures Drawn(buckets, orders)
  {
    if buckets == [] then []
    else
      ShufflesPermute(h, g, buckets, Rounds(|buckets|));
      ShufflesOf(h, g, buckets, Rounds(|buckets|)).orders
  }

  predicate Positions(perm: seq<nat>, n: nat)
  {
    |perm| == n && forall k :: 0 <= k < |perm| ==> perm[k] < n
  }

  /** Shuffling positions and then taking the buckets is shuffling the buckets. */
  lemma {:induction false} GatherShuffled(buckets: seq<Bucket>, perm: seq<nat>, draws: seq<nat>, i: nat)
    requires Positions(perm, |buckets|) && Prng.DrawsFor(draws, i) && (i == 0 || i < |perm|)
    ensures Positions(Prng.ShuffledBy(perm, draws, i), |buckets|)
            && Gather(buckets, Prng.ShuffledBy(perm, draws, i)) == Prng.ShuffledBy(Gather(buckets, perm), draws, i)
    decreases i
  {
    if i > 0 {
      GatherSwapped(buckets, perm, i, draws[0]);
      GatherShuffled(buckets, Prng.Swapped(perm, i, draws[0]), draws[1..], i - 1);
    }
  }

  lemma GatherSwapped(buckets: seq<Bucket>, perm: seq<nat>, i: nat, j: nat)
    requires Positions(perm, |buckets|) && i < |perm| && j < |perm|
    ensures Positions(Prng.Swapped(perm, i, j), |buckets|)
            && Gather(buckets, Prng.Swapped(perm, i, j)) == Prng.Swapped(Gather(buckets, perm), i, j)
  {
  }

  function Previous(buckets: seq<Bucket>, orders: seq<seq<Bucket>>, k: nat): seq<Bucket>
    requires k <= |orders|
  {
    if k == 0 then buckets else orders[k - 1]
  }

  /** Each order is the one before it shuffled by the next numbers of the generator,
      the first one the buckets as they came. */
  ghost predicate SuccessiveShuffles(h: Prng.Hash, buckets: seq<Bucket>, orders: seq<seq<Bucket>>, gens: seq<Prng.Gen>)
    requires buckets != [] && Prng.Digests(h)
  {
    && |gens| == |orders| + 1 && (forall k :: 0 <= k < |gens| ==> Prng.Ready(h, gens[k]))
    && (forall k :: 0 <= k < |orders| ==> ShuffledNext(h, Previous(buckets, orders, k), orders[k], gens[k], gens[k + 1]))
  }

  ghost predicate ShuffledNext(h: Prng.Hash, before: seq<Bucket>, after: seq<Bucket>, g: Prng.Gen, g': Prng.Gen)
    requires Prng.Ready(h, g)
  {
    before != [] &&
    var drawn := Prng.DrawsOf(h, g, |before| - 1);
    after == Prng.ShuffledBy(before, drawn.0, |before| - 1) && g' == drawn.1
  }

  lemma GatherIdentity(buckets: seq<Bucket>)
    ensures Gather(buckets, Identity(|buckets|)) == buckets
  {
  }

  lemma GatheredNext(h: Prng.Hash, buckets: seq<Bucket>, perm: seq<nat>, g: Prng.Gen)
    requires Prng.Ready(h, g) && buckets != [] && Positions(perm, |buckets|)
    ensures var next := Prng.Shuffled(h, g, perm, |buckets| - 1);
            && Positions(next.0, |buckets|)
            && ShuffledNext(h, Gather(buckets, perm), Gather(buckets, next.0), g, next.1)
  {
    Prng.ShuffleDraws(h, g, perm, |buckets| - 1);
    GatherShuffled(buckets, perm, Prng.DrawsOf(h, g, |buckets| - 1).0, |buckets| - 1);
  }

  /** One more step of `ShufflesOf`. */
  lemma OneMoreShuffle(h: Prng.Hash, g: Prng.Gen, buckets: seq<Bucket>, n: nat)
    requires Prng.Ready(h, g) && buckets != [] && n > 0
    ensures var before, after := ShufflesOf(h, g, buckets, n - 1), ShufflesOf(h, g, buckets, n);
            && Positions(before.perm, |buckets|) && Positions(after.perm, |buckets|)
            && (after.perm, after.gen) == Prng.Shuffled(h, before.gen, before.perm, |buckets| - 1)
            && after.orders == before.orders + [Gather(buckets, after.perm)]
  {
    PermInRange(ShufflesOf(h, g, buckets, n - 1).perm, |buckets|);
    PermInRange(ShufflesOf(h, g, buckets, n).perm, |buckets|);
  }

  lemma SuccessorAppended(h: Prng.Hash, buckets: seq<Bucket>, orders: seq<seq<Bucket>>, gens: seq<Prng.Gen>,
                          order: seq<Bucket>, g: Prng.Gen)
    requires buckets != [] && Prng.Digests(h) && SuccessiveShuffles(h, buckets, orders, gens) && Prng.Ready(h, g)
    requires ShuffledNext(h, Previous(buckets, orders, |orders|), order, gens[|orders|], g)
    ensures SuccessiveShuffles(h, buckets, orders + [order], gens + [g])
  {
    var orders', gens' := orders + [order], gens + [g];
    forall k | 0 <= k < |orders'|
      ensures ShuffledNext(h, Previous(buckets, orders', k), orders'[k], gens'[k], gens'[k + 1])
    {
      assert Previous(buckets, orders', k) == Previous(buckets, orders, k);
      if k < |orders| {
        assert ShuffledNext(h, Previous(buckets, orders, k), orders[k], gens[k], gens[k + 1]);
      }
    }
  }

  lemma {:induction false} ShufflesAreSuccessive(h: Prng.Hash, g: Prng.Gen, buckets: seq<Bucket>, n: nat)
    returns (gens: seq<Prng.Gen>)
    requires Prng.Ready(h, g) && buckets != []
    ensures var a := ShufflesOf(h, g, buckets, n);
            && SuccessiveShuffles(h, buckets, a.orders, gens) && gens[0] == g && gens[n] == a.gen
            && Positions(a.perm, |buckets|)
            && Gather(buckets, a.perm) == if n == 0 then buckets else a.orders[n - 1]
  {
    if n == 0 {
      gens := [g];
      GatherIdentity(buckets);
    } else {
      var gens' := ShufflesAreSuccessive(h, g, buckets, n - 1);
      var before, after := ShufflesOf(h, g, buckets, n - 1), ShufflesOf(h, g, buckets, n);
      OneMoreShuffle(h, g, buckets, n);
      GatheredNext(h, buckets, before.perm, before.gen);
      SuccessorAppended(h, buckets, before.orders, gens', Gather(buckets, after.perm), after.gen);
      gens := gens' + [after.gen];
    }
  }

  /** The orders drawn by a generator, in terms of the numbers it draws. */
  lemma DrawnOrdersAreShuffles(h: Prng.Hash, g: Prng.Gen, buckets: seq<Bucket>) returns (gens: seq<Prng.Gen>)
    requires Prng.Ready(h, g) && buckets != []
    ensures SuccessiveShuffles(h, buckets, DrawnOrders(h, g, buckets), gens) && gens[0] == g
  {
    gens := ShufflesAreSuccessive(h, g, buckets, Rounds(|buckets|));
  }

  method BucketCandidates(buckets: seq<Bucket>, target: nat, feeRate: u64, prng: Prng.Generator)
    returns (candidates: seq<seq<Bucket>>)
    requires |buckets| < 0x100_0000_0000_0000
    requires prng.Valid()
    modifies prng
    ensures candidates == CandidatesIn(buckets, DrawnOrders(prng.hash, old(prng.Value()), buckets), target, feeRate)
  {
    var n := |buckets|;
    if n == 0 {
      return [];
    }
    var singles := Singletons(buckets, target, feeRate);
    var found := RandomSubsets(buckets, target, feeRate, prng);
    candidates := singles + found;
  }

  /** The attempts, each on a fresh shuffle of the same permutation. */
  method RandomSubsets(buckets: seq<Bucket>, target: nat, feeRate: u64, prng: Prng.Generator)
    returns (found: seq<seq<Bucket>>)
    requires 0 < |buckets| < 0x100_0000_0000_0000
    requires prng.Valid()
    modifies prng
    ensures found == FoundIn(DrawnOrders(prng.hash, old(prng.Value()), buckets), target, feeRate)
  {
    ghost var g := prng.Value();
    var n := |buckets|;
    var perm := new nat[n](i => i);
    assert perm[..] == Identity(n);
    found := [];
    ghost var orders: seq<seq<Bucket>> := [];
    for a := 0 to Rounds(n)
      invariant prng.Valid() && perm.Length == n
      invariant Reached(prng.hash, g, buckets, a, Shuffles(orders, perm[..], prng.Value()))
      invariant found == FoundIn(orders, target, feeRate)
    {
      found, orders := OneAttempt(buckets, target, feeRate, prng, perm, found, orders, g, a);
    }
  }

  /** One attempt: a fresh shuffle, and what it finds appended. */
  method OneAttempt(buckets: seq<Bucket>, target: nat, feeRate: u64, prng: Prng.Generator, perm: array<nat>,
                    before: seq<seq<Bucket>>, ghost orders: seq<seq<Bucket>>, ghost g: Prng.Gen, ghost n: nat)
    returns (found: seq<seq<Bucket>>, ghost orders': seq<seq<Bucket>>)
    requires 0 < |buckets| == perm.Length < 0x100_0000_0000_0000
    requires prng.Valid() && Prng.Ready(prng.hash, g)
    requires Reached(prng.hash, g, buckets, n, Shuffles(orders, perm[..], prng.Value()))
    requires before == FoundIn(orders, target, feeRate)
    modifies prng, perm
    ensures prng.Valid()
    ensures Reached(prng.hash, g, buckets, n + 1, Shuffles(orders', perm[..], prng.Value()))
    ensures found == FoundIn(orders', target, feeRate)
  {
    ghost var start := Shuffles(orders, perm[..], prng.Value());
    prng.Shuffle(perm);
    NextShuffle(prng.hash, g, buckets, n, start, perm[..], prng.Value());
    orders' := orders + [Gather(buckets, perm[..])];
    var c := TryOrder(buckets, perm[..], target, feeRate);
    found := Appended(before, c);
    FoundOneMore(orders, Gather(buckets, perm[..]), target, feeRate);
  }

  lemma FoundOneMore(orders: seq<seq<Bucket>>, order: seq<Bucket>, target: nat, feeRate: u64)
    ensures FoundIn(orders + [order], target, feeRate) ==
            Appended(FoundIn(orders, target, feeRate), AttemptAt(order, target, feeRate))
  {
    assert (orders + [order])[..|orders|] == orders;
  }

  ghost predicate Reached(h: Prng.Hash, g: Prng.Gen, buckets: seq<Bucket>, n: nat, a: Shuffles)
    requires Prng.Ready(h, g) && buckets != []
  {
    a == ShufflesOf(h, g, buckets, n)
  }

  lemma NextShuffle(h: Prng.Hash, g: Prng.Gen, buckets: seq<Bucket>, n: nat,
                    before: Shuffles, perm: seq<nat>, gen: Prng.Gen)
    requires Prng.Ready(h, g) && buckets != [] && Reached(h, g, buckets, n, before)
    requires Prng.Ready(h, before.gen) && |before.perm| == |buckets|
    requires (perm, gen) == Prng.Shuffled(h, before.gen, before.perm, |buckets| - 1)
    ensures Permutes(perm, |buckets|) && |perm| == |buckets| && forall i :: 0 <= i < |perm| ==> perm[i] < |buckets|
    ensures Reached(h, g, buckets, n + 1, Shuffles(before.orders + [Gather(buckets, perm)], perm, gen))
  {
    var next := ShufflesOf(h, g, buckets, n + 1);
    assert next.perm == perm;
    PermInRange(perm, |buckets|);
  }

  // ----- penalties --------------------------------------------------------

  const COIN: nat := 100_000_000

  function SaturatingAdd(a: u64, b: nat): u64 { if a + b > U64_MAX then U64_MAX else a + b }

  function PenaltySimple(c: seq<Bucket>): u64
    requires |c| <= U64_MAX
  {
    if |c| == 0 then 0 else |c| - 1
  }

  function MaxChange(target: u64): nat { target * 3 / 2 }

  function PenaltyPrivacy(c: seq<Bucket>, spent: u64, maxChange: nat): u64
    requires |c| <= U64_MAX
  {
    var badness := PenaltySimple(c);
    var totalInput := Total(c, BucketValue);
    var change := if totalInput >= spent then totalInput - spent else 0;
    if change > maxChange then
      SaturatingAdd(SaturatingAdd(badness, (change - maxChange) / (maxChange + 10000)), change / (COIN * 5))
    else badness
  }

  function Penalty(c: seq<Bucket>, target: u64, privacy: bool): u64
    requires |c| <= U64_MAX
  {
    if privacy then PenaltyPrivacy(c, target, MaxChange(target)) else PenaltySimple(c)
  }

  /** Position `best` holds the first candidate of least penalty. */
  ghost predicate FirstBest(candidates: seq<seq<Bucket>>, target: u64, privacy: bool, best: nat)
  {
    && best < |candidates|
    && (forall i :: 0 <= i < |candidates| ==> |candidates[i]| <= U64_MAX)
    && (forall i :: 0 <= i < |candidates| ==>
          Penalty(candidates[best], target, privacy) <= Penalty(candidates[i], target, privacy))
    && (forall i :: 0 <= i < best ==>
          Penalty(candidates[best], target, privacy) < Penalty(candidates[i], target, privacy))
  }

  /** The loop over the candidates. */
  method PickWinner(candidates: seq<seq<Bucket>>, target: u64, privacy: bool) returns (best: nat)
    requires candidates != [] && forall i :: 0 <= i < |candidates| ==> |candidates[i]| <= U64_MAX
    ensures FirstBest(candidates, target, privacy, best)
  {
    best := 0;
    var bestPenalty: u64 := U64_MAX;
    for i := 0 to |candidates|
      invariant best < |candidates|
      invariant (bestPenalty == U64_MAX && best == 0) || bestPenalty == Penalty(candidates[best], target, privacy)
      invariant forall j :: 0 <= j < i ==> bestPenalty <= Penalty(candidates[j], target, privacy)
      invariant forall j :: 0 <= j < best ==> bestPenalty < Penalty(candidates[j], target, privacy)
    {
      var penalty := Penalty(candidates[i], target, privacy);
      if penalty < bestPenalty {
        bestPenalty := penalty;
        best := i;
      }
    }
  }

  // ----- the result -------------------------------------------------------

  function AllCoins(buckets: seq<Bucket>): seq<Coin>
  {
    if buckets == [] then [] else buckets[0].coins + AllCoins(buckets[1..])
  }

  lemma AllCoinsStep(buckets: seq<Bucket>, i: nat)
    requires i < |buckets|
    ensures AllCoins(buckets[..i + 1]) == AllCoins(buckets[..i]) + buckets[i].coins
  {
    if i == 0 {
      assert buckets[..1][1..] == [];
    } else {
      AllCoinsStep(buckets[1..], i - 1);
      assert buckets[..i + 1][1..] == buckets[1..][..i];
      assert buckets[..i][1..] == buckets[1..][..i - 1];
    }
  }

  ghost predicate SumsItsCoins(b: Bucket)
  {
    b.value == Value(b.coins) && b.size == Size(b.coins)
  }

  lemma {:induction false} AllCoinsTotals(buckets: seq<Bucket>)
    requires forall i :: 0 <= i < |buckets| ==> SumsItsCoins(buckets[i])
    ensures Value(AllCoins(buckets)) == Total(buckets, BucketValue)
    ensures Size(AllCoins(buckets)) == Total(buckets, BucketSize)
  {
    if buckets != [] {
      AllCoinsTotals(buckets[1..]);
      TotalConcat(buckets[0].coins, AllCoins(buckets[1..]), ValueOf);
      TotalConcat(buckets[0].coins, AllCoins(buckets[1..]), SizeOf);
    }
  }

  method AssembleResult(buckets: seq<Bucket>, target: u64, feeRate: u64) returns (r: ChooserResult)
    requires Value(AllCoins(buckets)) <= U64_MAX
    requires target + InputFee(AllCoins(buckets), feeRate) <= U64_MAX
    ensures var coins := AllCoins(buckets);
            var fee := InputFee(coins, feeRate);
            if coins == [] then r == Err(NoCoins)
            else if Value(coins) < target + fee then r == Err(InsufficientFunds(target + fee, Value(coins)))
            else r == Ok(Chosen(coins, Value(coins), fee, Value(coins) - target - fee))
  {
    var selected: seq<Coin> := [];
    for i := 0 to |buckets|
      invariant selected == AllCoins(buckets[..i])
    {
      AllCoinsStep(buckets, i);
      selected := selected + buckets[i].coins;
    }
    assert buckets[..|buckets|] == buckets;
    if selected == [] {
      return Err(NoCoins);
    }
    var totalInput: u64 := Value(selected);
    var fee: u64 := InputFee(selected, feeRate);
    if totalInput < target + fee {
      return Err(InsufficientFunds(target + fee, totalInput));
    }
    return Ok(Chosen(selected, totalInput, fee, totalInput - target - fee));
  }

  /** Position of the bucket of a key, if the key has one. */
  lemma {:induction false} KeyOfAllCoins(coins: seq<Coin>, c: seq<Bucket>, key: int)
    requires forall i :: 0 <= i < |c| ==> HoldsKey(coins, c[i])
    requires forall i, j :: 0 <= i < j < |c| ==> c[i].desc != c[j].desc
    ensures CoinsOfKey(AllCoins(c), key) == if HasBucket(c, key) then CoinsOfKey(coins, key) else []
  {
    if c != [] {
      KeyConcat(c[0].coins, AllCoins(c[1..]), key);
      KeyOfAllCoins(coins, c[1..], key);
      KeyOfKey(coins, c[0].desc, key);
    }
  }

  lemma {:induction false} KeyOfKey(coins: seq<Coin>, desc: int, key: int)
    ensures CoinsOfKey(CoinsOfKey(coins, desc), key) == if desc == key then CoinsOfKey(coins, key) else []
  {
    if coins != [] {
      KeyOfKey(coins[1..], desc, key);
      var head := if coins[0].keyinstanceId == desc then [coins[0]] else [];
      KeyConcat(head, CoinsOfKey(coins[1..], desc), key);
    }
  }

  /** Any sub-multiset of grouped buckets is itself grouped and free of repeats. */
  lemma PartOfGrouped(coins: seq<Coin>, buckets: seq<Bucket>, c: seq<Bucket>)
    requires Grouped(coins, buckets) && multiset(c) <= multiset(buckets)
    ensures forall i :: 0 <= i < |c| ==> HoldsKey(coins, c[i])
    ensures forall i, j :: 0 <= i < j < |c| ==> c[i].desc != c[j].desc
  {
    forall i | 0 <= i < |c|
      ensures c[i] in buckets
    {
      assert c[i] in multiset(c);
    }
    forall i, j | 0 <= i < j < |c|
      ensures c[i].desc != c[j].desc
    {
      if c[i].desc == c[j].desc {
        RepeatCounts(c, i, j);
        OnceOnly(coins, buckets, c[i]);
      }
    }
  }

  lemma RepeatCounts(c: seq<Bucket>, i: nat, j: nat)
    requires i < j < |c| && c[i] == c[j]
    ensures multiset(c)[c[i]] >= 2
  {
    assert c == c[..j] + [c[j]] + c[j + 1..];
    assert c[i] in multiset(c[..j]) by {
      assert c[..j][i] == c[i];
    }
  }

  lemma OnceOnly(coins: seq<Coin>, buckets: seq<Bucket>, b: Bucket)
    requires Grouped(coins, buckets) && b in buckets
    ensures multiset(buckets)[b] == 1
  {
    var i :| 0 <= i < |buckets| && buckets[i] == b;
    assert buckets == buckets[..i] + [buckets[i]] + buckets[i + 1..];
    assert b !in buckets[..i] && b !in buckets[i + 1..];
    assert multiset(buckets[..i])[b] == 0 && multiset(buckets[i + 1..])[b] == 0;
  }

  /** The coins of distinct keys, all of them together, are a part of the input. */
  lemma WholeKeysArePart(coins: seq<Coin>, c: seq<Bucket>)
    requires forall i :: 0 <= i < |c| ==> HoldsKey(coins, c[i])
    requires forall i, j :: 0 <= i < j < |c| ==> c[i].desc != c[j].desc
    ensures multiset(AllCoins(c)) <= multiset(coins)
  {
    forall x: Coin
      ensures multiset(AllCoins(c))[x] <= multiset(coins)[x]
    {
      KeyOfAllCoins(coins, c, x.keyinstanceId);
      KeyCounts(AllCoins(c), x, x.keyinstanceId);
      KeyCounts(coins, x, x.keyinstanceId);
    }
  }

  /** All buckets together hold exactly the coins. */
  lemma AllBucketsAllCoins(coins: seq<Coin>, buckets: seq<Bucket>)
    requires Grouped(coins, buckets)
    ensures multiset(AllCoins(buckets)) == multiset(coins)
  {
    forall x: Coin
      ensures multiset(AllCoins(buckets))[x] == multiset(coins)[x]
    {
      KeyOfAllCoins(coins, buckets, x.keyinstanceId);
      KeyCounts(AllCoins(buckets), x, x.keyinstanceId);
      KeyCounts(coins, x, x.keyinstanceId);
      if x !in coins && HasBucket(buckets, x.keyinstanceId) == false {
        assert multiset(coins)[x] == 0;
      }
    }
  }

  /** Facts about any selection of grouped buckets. */
  lemma PartTotals(coins: seq<Coin>, buckets: seq<Bucket>, c: seq<Bucket>)
    requires Grouped(coins, buckets) && multiset(c) <= multiset(buckets)
    ensures multiset(AllCoins(c)) <= multiset(coins)
    ensures Value(AllCoins(c)) == Total(c, BucketValue) <= Value(coins)
    ensures Size(AllCoins(c)) == Total(c, BucketSize) <= Size(coins)
    ensures c != [] ==> AllCoins(c) != []
  {
    PartOfGrouped(coins, buckets, c);
    WholeKeysArePart(coins, c);
    AllCoinsTotals(c);
    TotalOfPart(AllCoins(c), coins, ValueOf);
    TotalOfPart(AllCoins(c), coins, SizeOf);
    if c != [] {
      assert HoldsKey(coins, c[0]);
    }
  }

  lemma AllBucketsWeigh(coins: seq<Coin>, buckets: seq<Bucket>)
    requires Grouped(coins, buckets)
    ensures Total(buckets, BucketValue) == Value(coins) && Total(buckets, BucketSize) == Size(coins)
  {
    AllBucketsAllCoins(coins, buckets);
    AllCoinsTotals(buckets);
    TotalOfPermutation(AllCoins(buckets), coins, ValueOf);
    TotalOfPermutation(AllCoins(buckets), coins, SizeOf);
  }

  lemma AllBucketsTotals(coins: seq<Coin>, buckets: seq<Bucket>, target: nat, feeRate: u64)
    requires Grouped(coins, buckets)
    ensures Total(buckets, BucketValue) == Value(coins) && Total(buckets, BucketSize) == Size(coins)
    ensures Sufficient(buckets, target, feeRate) <==> Value(coins) >= target + InputFee(coins, feeRate)
  {
    AllBucketsWeigh(coins, buckets);
  }

  /** What a random or privacy selection went through: the buckets in the order
      they came, the orders drawn, the candidates, and the one that won. */
  datatype Trace = Trace(buckets: seq<Bucket>, orders: seq<seq<Bucket>>, candidates: seq<seq<Bucket>>,
                         winner: seq<Bucket>)

  ghost predicate TraceOf(coins: seq<Coin>, target: u64, feeRate: u64, t: Trace)
  {
    && Grouped(coins, t.buckets) && Drawn(t.buckets, t.orders)
    && t.candidates == CandidatesIn(t.buckets, t.orders, target, feeRate)
  }

  lemma TraceCollects(coins: seq<Coin>, target: u64, feeRate: u64, t: Trace)
    requires TraceOf(coins, target, feeRate, t)
    ensures Collected(t.buckets, target, feeRate, t.candidates)
    ensures t.buckets != [] && Sufficient(t.buckets, target, feeRate) ==> t.candidates != []
  {
    CandidatesAreTight(t.buckets, t.orders, target, feeRate);
  }

  /** The winner is the first candidate of least penalty. */
  ghost predicate Wins(target: u64, privacy: bool, t: Trace)
  {
    exists best: nat :: FirstBest(t.candidates, target, privacy, best) && t.candidates[best] == t.winner
  }

  /** What `select_random` returns. */
  ghost predicate RandomOutcome(coins: seq<Coin>, target: u64, feeRate: u64, privacy: bool, r: ChooserResult, t: Trace)
  {
    && TraceOf(coins, target, feeRate, t)
    && match r
       case Ok(c) =>
         && Wins(target, privacy, t)
         && c.coins == AllCoins(t.winner)
         && c.totalInput == Value(c.coins)
         && c.fee == InputFee(c.coins, feeRate)
         && c.totalInput == target + c.fee + c.change
       case Err(InsufficientFunds(needed, available)) =>
         && t.candidates == []
         && needed == target + Size(coins) * feeRate
         && available == Value(coins)
       case Err(_) => false
  }

  /** The same, for some order of the buckets and some draws. */
  ghost predicate RandomResult(coins: seq<Coin>, target: u64, feeRate: u64, privacy: bool, r: ChooserResult)
  {
    exists t: Trace :: RandomOutcome(coins, target, feeRate, privacy, r, t)
  }

  lemma InputFeeParts(coins: seq<Coin>, feeRate: u64)
    ensures InputFee(coins, feeRate) == BASE_SIZE * feeRate + Size(coins) * feeRate
    ensures Size(coins) * feeRate >= 0
  {
  }

  lemma CandidateResult(coins: seq<Coin>, target: u64, feeRate: u64, buckets: seq<Bucket>, c: seq<Bucket>)
    requires Grouped(coins, buckets) && Candidate(buckets, target, feeRate, c)
    requires Value(coins) <= U64_MAX && target + InputFee(coins, feeRate) <= U64_MAX
    ensures AllCoins(c) != [] && Value(AllCoins(c)) <= U64_MAX
    ensures target + InputFee(AllCoins(c), feeRate) <= U64_MAX
    ensures Value(AllCoins(c)) >= target + InputFee(AllCoins(c), feeRate)
  {
    PartTotals(coins, buckets, c);
    SizeFeeMonotone(Size(AllCoins(c)), Size(coins), feeRate);
  }

  lemma CandidateLength(buckets: seq<Bucket>, target: nat, feeRate: u64, c: seq<Bucket>)
    requires Candidate(buckets, target, feeRate, c)
    ensures |c| <= |buckets|
  {
    var rest := multiset(buckets) - multiset(c);
    assert multiset(buckets) == multiset(c) + rest;
    assert |multiset(buckets)| == |buckets| && |multiset(c)| == |c|;
  }

  /** The second half of `select_random`: the best candidate becomes the result. */
  method SpendBest(coins: seq<Coin>, target: u64, feeRate: u64, privacy: bool, candidates: seq<seq<Bucket>>,
                   ghost start: Trace)
    returns (r: ChooserResult, ghost t: Trace)
    requires TraceOf(coins, target, feeRate, start) && start.candidates == candidates != []
    requires |coins| <= U64_MAX && Value(coins) <= U64_MAX && target + InputFee(coins, feeRate) <= U64_MAX
    ensures r.Ok? && RandomOutcome(coins, target, feeRate, privacy, r, t)
    ensures t == start.(winner := t.winner)
  {
    TraceCollects(coins, target, feeRate, start);
    BucketCount(coins, start.buckets);
    forall i | 0 <= i < |candidates|
      ensures |candidates[i]| <= U64_MAX
    {
      CandidateLength(start.buckets, target, feeRate, candidates[i]);
    }
    var best := PickWinner(candidates, target, privacy);
    t := start.(winner := candidates[best]);
    CandidateResult(coins, target, feeRate, start.buckets, candidates[best]);
    r := AssembleResult(candidates[best], target, feeRate);
  }

  method SelectRandom(coins: seq<Coin>, target: u64, feeRate: u64, privacy: bool, hash: Prng.Hash)
    returns (r: ChooserResult, ghost t: Trace)
    requires (coins != [] || target > 0) && Prng.Digests(hash)
    requires |coins| < 0x100_0000_0000_0000
    requires Value(coins) <= U64_MAX && Size(coins) <= U64_MAX
    requires target + InputFee(coins, feeRate) <= U64_MAX
    ensures RandomOutcome(coins, target, feeRate, privacy, r, t)
    ensures RandomResult(coins, target, feeRate, privacy, r)
    ensures t.orders == DrawnOrders(hash, Prng.Gen(hash(Prng.SeedOf(coins)), []), t.buckets)
  {
    var prng := new Prng.Generator.FromSeed(hash, Prng.SeedOf(coins));
    var buckets := Bucketize(coins);
    BucketCount(coins, buckets);
    ghost var orders := DrawnOrders(hash, prng.Value(), buckets);
    var candidates := BucketCandidates(buckets, target, feeRate, prng);
    t := Trace(buckets, orders, candidates, []);
    TraceCollects(coins, target, feeRate, t);
    if candidates == [] {
      if Sufficient(buckets, target, feeRate) {
        // The code assembles all buckets here; the first attempt would have found them.
        SomeBuckets(coins, buckets, target, feeRate);
        assert false;
      }
      AllBucketsWeigh(coins, buckets);
      ShortfallFits(coins, target, feeRate);
      r := Err(InsufficientFunds(target + Total(buckets, BucketSize) * feeRate, Total(buckets, BucketValue)));
    } else {
      r, t := SpendBest(coins, target, feeRate, privacy, candidates, t);
    }
    assert RandomOutcome(coins, target, feeRate, privacy, r, t);
  }

  lemma ShortfallFits(coins: seq<Coin>, target: u64, feeRate: u64)
    requires target + InputFee(coins, feeRate) <= U64_MAX
    ensures 0 <= target + Size(coins) * feeRate <= U64_MAX
  {
    InputFeeParts(coins, feeRate);
  }

  /** Only an empty wallet has no buckets, and it pays nothing that is not free. */
  lemma SomeBuckets(coins: seq<Coin>, buckets: seq<Bucket>, target: nat, feeRate: u64)
    requires Grouped(coins, buckets) && (coins != [] || target > 0) && Sufficient(buckets, target, feeRate)
    ensures buckets != []
  {
    if coins != [] {
      assert HasBucket(buckets, coins[0].keyinstanceId);
    } else {
      NothingSufficesIffFree(target, feeRate);
    }
  }

  lemma {:induction false} BucketCount(coins: seq<Coin>, buckets: seq<Bucket>)
    requires Grouped(coins, buckets)
    ensures |buckets| <= |coins|
  {
    AllBucketsAllCoins(coins, buckets);
    assert |AllCoins(buckets)| == |multiset(AllCoins(buckets))| == |multiset(coins)| == |coins|;
    NonemptyBuckets(buckets);
  }

  lemma {:induction false} NonemptyBuckets(buckets: seq<Bucket>)
    requires forall i :: 0 <= i < |buckets| ==> buckets[i].coins != []
    ensures |AllCoins(buckets)| >= |buckets|
  {
    if buckets != [] {
      NonemptyBuckets(buckets[1..]);
    }
  }

  // ----- what the outcome means -------------------------------------------

  lemma WinnerIsCandidate(coins: seq<Coin>, target: u64, feeRate: u64, privacy: bool, t: Trace)
    requires TraceOf(coins, target, feeRate, t) && Wins(target, privacy, t)
    ensures Candidate(t.buckets, target, feeRate, t.winner)
  {
    TraceCollects(coins, target, feeRate, t);
    WinnerIsIn(target, privacy, t);
  }

  lemma WinnerIsIn(target: u64, privacy: bool, t: Trace)
    requires Wins(target, privacy, t)
    ensures t.winner in t.candidates
  {
    var best: nat :| FirstBest(t.candidates, target, privacy, best) && t.candidates[best] == t.winner;
  }

  /** Main result: the selection spends whole keys. For every key it takes all of
      that key's coins, in their order, or none; so no coin twice and none that
      was not offered; and what it takes covers the target, its fee and the
      change exactly. */
  lemma SelectionTakesWholeKeys(coins: seq<Coin>, target: u64, feeRate: u64, privacy: bool, r: ChooserResult, t: Trace,
                                key: int)
    requires RandomOutcome(coins, target, feeRate, privacy, r, t) && r.Ok?
    ensures CoinsOfKey(r.value.coins, key) == CoinsOfKey(coins, key) || CoinsOfKey(r.value.coins, key) == []
    ensures multiset(r.value.coins) <= multiset(coins)
    ensures Value(r.value.coins) == target + InputFee(r.value.coins, feeRate) + r.value.change
  {
    WinnerIsCandidate(coins, target, feeRate, privacy, t);
    PartOfGrouped(coins, t.buckets, t.winner);
    KeyOfAllCoins(coins, t.winner, key);
    WholeKeysArePart(coins, t.winner);
  }

  lemma CandidateWithoutSmallest(coins: seq<Coin>, buckets: seq<Bucket>, target: nat, feeRate: u64, c: seq<Bucket>)
    requires Grouped(coins, buckets) && Candidate(buckets, target, feeRate, c)
    ensures target > 0 || feeRate > 0 ==> Value(AllCoins(c[1..])) < target + InputFee(AllCoins(c[1..]), feeRate)
  {
    PartOfGrouped(coins, buckets, c);
    AllCoinsTotals(c[1..]);
  }

  /** The selection cannot do without the least valuable of its keys, unless
      nothing at all is to be paid. */
  lemma SelectionIsTight(coins: seq<Coin>, target: u64, feeRate: u64, privacy: bool, r: ChooserResult, t: Trace)
    requires RandomOutcome(coins, target, feeRate, privacy, r, t) && r.Ok?
    ensures t.winner != [] && r.value.coins == t.winner[0].coins + AllCoins(t.winner[1..])
    ensures forall i :: 0 <= i < |t.winner| ==> t.winner[0].value <= t.winner[i].value == Value(t.winner[i].coins)
    ensures target > 0 || feeRate > 0 ==>
              Value(AllCoins(t.winner[1..])) < target + InputFee(AllCoins(t.winner[1..]), feeRate)
  {
    WinnerIsCandidate(coins, target, feeRate, privacy, t);
    CandidateWithoutSmallest(coins, t.buckets, target, feeRate, t.winner);
    PartOfGrouped(coins, t.buckets, t.winner);
  }

  /** Main result: if all the coins together pay for themselves, the selection
      succeeds; the branch that would fall back to all buckets is never needed. */
  lemma EnoughFundsSucceed(coins: seq<Coin>, target: u64, feeRate: u64, privacy: bool, r: ChooserResult, t: Trace)
    requires RandomOutcome(coins, target, feeRate, privacy, r, t) && (coins != [] || target > 0)
    requires Value(coins) >= target + InputFee(coins, feeRate)
    ensures r.Ok? && t.candidates != []
  {
    TraceCollects(coins, target, feeRate, t);
    AllBucketsTotals(coins, t.buckets, target, feeRate);
    SomeBuckets(coins, t.buckets, target, feeRate);
  }

  /** When one key can pay alone, random selection spends a single key. */
  lemma OneKeyIfPossible(coins: seq<Coin>, target: u64, feeRate: u64, r: ChooserResult, t: Trace, key: int)
    requires RandomOutcome(coins, target, feeRate, false, r, t)
    requires var own := CoinsOfKey(coins, key);
             own != [] && Value(own) >= target + InputFee(own, feeRate)
    ensures r.Ok? && |t.winner| == 1
    ensures exists k :: r.value.coins == CoinsOfKey(coins, k)
  {
    var b := OwnBucket(coins, t.buckets, key);
    TraceCollects(coins, target, feeRate, t);
    LoneBucketIsCollected(target, feeRate, t, b);
    WinnerIsCandidate(coins, target, feeRate, false, t);
    WinnerIsLone(target, t, b);
    LoneBucket(coins, t.buckets, t.winner);
    assert r.value.coins == CoinsOfKey(coins, t.winner[0].desc);
  }

  /** No penalty is below that of a single bucket. */
  lemma WinnerIsLone(target: u64, t: Trace, b: Bucket)
    requires Wins(target, false, t) && [b] in t.candidates && t.winner != []
    ensures |t.winner| == 1
  {
    var i :| 0 <= i < |t.candidates| && t.candidates[i] == [b];
    assert Penalty(t.candidates[i], target, false) == 0;
  }

  lemma LoneBucketIsCollected(target: u64, feeRate: u64, t: Trace, b: Bucket)
    requires Collected(t.buckets, target, feeRate, t.candidates)
    requires b in t.buckets && b.value >= target + SizeFee(b.size, feeRate)
    ensures [b] in t.candidates
  {
    BucketSuffices(b, target, feeRate);
  }

  lemma BucketSuffices(b: Bucket, target: nat, feeRate: u64)
    requires b.value >= target + SizeFee(b.size, feeRate)
    ensures Sufficient([b], target, feeRate)
  {
    TotalOfOne(b, BucketValue);
    TotalOfOne(b, BucketSize);
  }

  lemma LoneBucket(coins: seq<Coin>, buckets: seq<Bucket>, c: seq<Bucket>)
    requires Grouped(coins, buckets) && multiset(c) <= multiset(buckets) && |c| == 1
    ensures AllCoins(c) == CoinsOfKey(coins, c[0].desc)
  {
    PartOfGrouped(coins, buckets, c);
    assert c[1..] == [];
    assert HoldsKey(coins, c[0]);
    assert AllCoins(c) == c[0].coins + [];
  }

  lemma OwnBucket(coins: seq<Coin>, buckets: seq<Bucket>, key: int) returns (b: Bucket)
    requires Grouped(coins, buckets) && CoinsOfKey(coins, key) != []
    ensures b in buckets && b.desc == key && b.coins == CoinsOfKey(coins, key)
    ensures forall b' :: b' in buckets && b'.desc == key ==> b' == b
    ensures b.value == Value(b.coins) && b.size == Size(b.coins)
  {
    var c := CoinsOfKey(coins, key)[0];
    assert c in multiset(CoinsOfKey(coins, key));
    KeyCounts(coins, c, key);
    assert c in multiset(coins);
    assert HasBucket(buckets, key);
    var i :| 0 <= i < |buckets| && buckets[i].desc == key;
    b := buckets[i];
  }

  // ----- what a failure means ---------------------------------------------

  /** Some of the keys, all their coins together, cover the target and their own fee. */
  ghost predicate SomeKeysSuffice(buckets: seq<Bucket>, target: nat, feeRate: u64)
  {
    exists c :: multiset(c) <= multiset(buckets) && Sufficient(c, target, feeRate)
  }

  /** The coins of every key are worth at least the fee of their own bytes. */
  ghost predicate KeysPayForThemselves(coins: seq<Coin>, feeRate: u64)
  {
    forall key :: Value(CoinsOfKey(coins, key)) >= Size(CoinsOfKey(coins, key)) * feeRate
  }

  /** Without such dust a failure is never mistaken: the selection succeeds exactly
      when some keys suffice. */
  lemma SucceedsIffSomeKeysSuffice(coins: seq<Coin>, target: u64, feeRate: u64, privacy: bool, r: ChooserResult, t: Trace)
    requires RandomOutcome(coins, target, feeRate, privacy, r, t) && (coins != [] || target > 0)
    requires KeysPayForThemselves(coins, feeRate)
    ensures r.Ok? <==> SomeKeysSuffice(t.buckets, target, feeRate)
  {
    if r.Ok? {
      WinnerIsCandidate(coins, target, feeRate, privacy, t);
    } else if SomeKeysSuffice(t.buckets, target, feeRate) {
      var c :| multiset(c) <= multiset(t.buckets) && Sufficient(c, target, feeRate);
      forall b | b in t.buckets
        ensures PaysForItself(b, feeRate)
      {
        assert HoldsKey(coins, b);
        assert Value(CoinsOfKey(coins, b.desc)) >= Size(CoinsOfKey(coins, b.desc)) * feeRate;
      }
      WholeSufficesToo(c, t.buckets, target, feeRate);
      SomeBuckets(coins, t.buckets, target, feeRate);
      TraceCollects(coins, target, feeRate, t);
    }
  }

  /** No key alone covers the target and its own fee, nor do all together. */
  ghost predicate NeitherOneNorAll(coins: seq<Coin>, target: nat, feeRate: u64)
  {
    && Value(coins) < target + InputFee(coins, feeRate)
    && forall key :: CoinsOfKey(coins, key) == []
                     || Value(CoinsOfKey(coins, key)) < target + InputFee(CoinsOfKey(coins, key), feeRate)
  }

  /** With dust: for the buckets in any order, some draws leave no candidate, so that
      the selection fails, if and only if neither one key alone nor all keys together
      suffice. */
  lemma MayFailIff(coins: seq<Coin>, buckets: seq<Bucket>, target: u64, feeRate: u64, privacy: bool)
    requires Grouped(coins, buckets) && coins != []
    requires Value(coins) <= U64_MAX && target + InputFee(coins, feeRate) <= U64_MAX
    ensures (exists orders :: Drawn(buckets, orders) && CandidatesIn(buckets, orders, target, feeRate) == [])
            <==> NeitherOneNorAll(coins, target, feeRate)
    ensures (exists r :: RandomResult(coins, target, feeRate, privacy, r) && r.Err?)
            <==> NeitherOneNorAll(coins, target, feeRate)
  {
    ShortfallFits(coins, target, feeRate);
    var r: ChooserResult := Err(InsufficientFunds(target + Size(coins) * feeRate, Value(coins)));
    forall orders | Drawn(buckets, orders) && CandidatesIn(buckets, orders, target, feeRate) == []
      ensures RandomResult(coins, target, feeRate, privacy, r)
    {
      assert RandomOutcome(coins, target, feeRate, privacy, r, Trace(buckets, orders, [], []));
    }
    forall r | RandomResult(coins, target, feeRate, privacy, r) && r.Err?
      ensures NeitherOneNorAll(coins, target, feeRate)
    {
      FailureNeeds(coins, target, feeRate, privacy, r);
    }
    if NeitherOneNorAll(coins, target, feeRate) {
      var orders := WorstDraws(coins, buckets, target, feeRate);
    }
  }

  lemma FailureNeeds(coins: seq<Coin>, target: u64, feeRate: u64, privacy: bool, r: ChooserResult)
    requires RandomResult(coins, target, feeRate, privacy, r) && r.Err? && coins != []
    ensures NeitherOneNorAll(coins, target, feeRate)
  {
    var t :| RandomOutcome(coins, target, feeRate, privacy, r, t);
    TraceCollects(coins, target, feeRate, t);
    if Value(coins) >= target + InputFee(coins, feeRate) {
      EnoughFundsSucceed(coins, target, feeRate, privacy, r, t);
    }
    forall key | CoinsOfKey(coins, key) != []
      ensures Value(CoinsOfKey(coins, key)) < target + InputFee(CoinsOfKey(coins, key), feeRate)
    {
      if Value(CoinsOfKey(coins, key)) >= target + InputFee(CoinsOfKey(coins, key), feeRate) {
        var b := OwnBucket(coins, t.buckets, key);
        LoneBucketIsCollected(target, feeRate, t, b);
      }
    }
  }

  /** What a list of buckets is worth beyond its bytes, dust counted against it. */
  function NetSum(c: seq<Bucket>, feeRate: u64): int
  {
    if c == [] then 0 else c[0].value - c[0].size * feeRate + NetSum(c[1..], feeRate)
  }

  lemma {:induction false} NetSumTotals(c: seq<Bucket>, feeRate: u64)
    ensures NetSum(c, feeRate) == Total(c, BucketValue) - Total(c, BucketSize) * feeRate
  {
    if c != [] {
      NetSumTotals(c[1..], feeRate);
      Sel.Distribute(c[0].size, Total(c[1..], BucketSize), feeRate);
    }
  }

  /** A choice suffices when its net worth covers the target and the base fee. */
  lemma SufficientByNet(c: seq<Bucket>, target: nat, feeRate: u64)
    ensures Sufficient(c, target, feeRate) <==> NetSum(c, feeRate) >= target + BASE_SIZE * feeRate
  {
    NetSumTotals(c, feeRate);
    Sel.Distribute(BASE_SIZE, Total(c, BucketSize), feeRate);
  }

  lemma {:induction false} NetSumConcat(a: seq<Bucket>, b: seq<Bucket>, feeRate: u64)
    ensures NetSum(a + b, feeRate) == NetSum(a, feeRate) + NetSum(b, feeRate)
  {
    if a == [] {
      assert a + b == b;
    } else {
      assert (a + b)[1..] == a[1..] + b;
      NetSumConcat(a[1..], b, feeRate);
    }
  }

  lemma {:induction false} NetSumSign(c: seq<Bucket>, feeRate: u64)
    ensures (forall i :: 0 <= i < |c| ==> PaysForItself(c[i], feeRate)) ==> NetSum(c, feeRate) >= 0
    ensures (forall i :: 0 <= i < |c| ==> !PaysForItself(c[i], feeRate)) ==> NetSum(c, feeRate) <= 0
  {
    if c != [] {
      NetSumSign(c[1..], feeRate);
    }
  }

  /** Sorting by this, descending, puts the buckets worth least beyond their bytes first. */
  function Burden(feeRate: u64): Bucket -> nat
  {
    (b: Bucket) => U64_MAX - b.value + b.size * feeRate
  }

  function WorstFirst(buckets: seq<Bucket>, feeRate: u64): (r: seq<Bucket>)
    ensures |r| == |buckets|
  {
    SortDesc(buckets, Burden(feeRate))
  }

  /** Taken worst first, the buckets that do not pay for themselves come before those that do. */
  lemma WorstFirstSplits(buckets: seq<Bucket>, feeRate: u64, i: nat, j: nat)
    requires i < j < |buckets| && PaysForItself(WorstFirst(buckets, feeRate)[i], feeRate)
    ensures PaysForItself(WorstFirst(buckets, feeRate)[j], feeRate)
  {
    SortDescSorts(buckets, Burden(feeRate));
    var order := WorstFirst(buckets, feeRate);
    assert Burden(feeRate)(order[i]) >= Burden(feeRate)(order[j]);
  }

  /** So no beginning of that order is worth more than nothing or than the whole. */
  lemma BeginningIsWorthLess(buckets: seq<Bucket>, feeRate: u64, k: nat)
    requires k <= |buckets|
    ensures var order := WorstFirst(buckets, feeRate);
            NetSum(order[..k], feeRate) <= 0 || NetSum(order[..k], feeRate) <= NetSum(order, feeRate)
  {
    var order := WorstFirst(buckets, feeRate);
    assert order == order[..k] + order[k..];
    NetSumConcat(order[..k], order[k..], feeRate);
    NetSumSign(order[..k], feeRate);
    NetSumSign(order[k..], feeRate);
    if k < |order| && PaysForItself(order[k], feeRate) {
      forall j | k < j < |order|
        ensures PaysForItself(order[j], feeRate)
      {
        WorstFirstSplits(buckets, feeRate, k, j);
      }
    } else if k < |order| {
      forall i | 0 <= i < k
        ensures !PaysForItself(order[i], feeRate)
      {
        if PaysForItself(order[i], feeRate) {
          WorstFirstSplits(buckets, feeRate, i, k);
        }
      }
    }
  }

  lemma {:induction false} NeverReaches(order: seq<Bucket>, target: nat, feeRate: u64, i: nat)
    requires i <= |order| && forall k :: i < k <= |order| ==> !Sufficient(order[..k], target, feeRate)
    ensures Reach(order, target, feeRate, i).None?
    decreases |order| - i
  {
    if i < |order| {
      NeverReaches(order, target, feeRate, i + 1);
    }
  }

  /** When all buckets together do not suffice, an attempt that takes them worst
      first finds nothing, whatever subset would suffice. */
  lemma WorstFirstFindsNothing(buckets: seq<Bucket>, target: nat, feeRate: u64)
    requires !Sufficient(buckets, target, feeRate)
    ensures AttemptAt(WorstFirst(buckets, feeRate), target, feeRate).None?
  {
    var order := WorstFirst(buckets, feeRate);
    SortDescSorts(buckets, Burden(feeRate));
    SufficientOfPermutation(order, buckets, target, feeRate);
    SufficientByNet(order, target, feeRate);
    Sel.ProductGrows(BASE_SIZE, feeRate);
    forall k | 0 < k <= |order|
      ensures !Sufficient(order[..k], target, feeRate)
    {
      BeginningIsWorthLess(buckets, feeRate, k);
      SufficientByNet(order[..k], target, feeRate);
      if Free(target, feeRate) {
        FreeSuffices(order, target, feeRate);
      }
    }
    NeverReaches(order, target, feeRate, 0);
  }

  /** Every draw the same order. */
  function SameDraws(order: seq<Bucket>): (orders: seq<seq<Bucket>>)
    ensures |orders| == Rounds(|order|) && forall k :: 0 <= k < |orders| ==> orders[k] == order
  {
    seq(Rounds(|order|), _ => order)
  }

  lemma SameDrawsFind(order: seq<Bucket>, target: nat, feeRate: u64, x: seq<Bucket>)
    requires x in FoundIn(SameDraws(order), target, feeRate)
    ensures AttemptAt(order, target, feeRate) == Some(x)
  {
    FoundFrom(SameDraws(order), target, feeRate, x);
  }

  /** Draws that find nothing: worst first, every time. */
  lemma WorstDraws(coins: seq<Coin>, buckets: seq<Bucket>, target: u64, feeRate: u64) returns (orders: seq<seq<Bucket>>)
    requires Grouped(coins, buckets) && NeitherOneNorAll(coins, target, feeRate)
    ensures Drawn(buckets, orders) && CandidatesIn(buckets, orders, target, feeRate) == []
  {
    AllBucketsTotals(coins, buckets, target, feeRate);
    NoLoneBucket(coins, buckets, target, feeRate);
    WorstFirstFindsNothing(buckets, target, feeRate);
    SortDescSorts(buckets, Burden(feeRate));
    var order := WorstFirst(buckets, feeRate);
    orders := SameDraws(order);
    NoSingles(buckets, target, feeRate);
    var found := FoundIn(orders, target, feeRate);
    if found != [] {
      SameDrawsFind(order, target, feeRate, found[0]);
    }
  }

  lemma {:induction false} NoSingles(buckets: seq<Bucket>, target: nat, feeRate: u64)
    requires forall b :: b in buckets ==> !Sufficient([b], target, feeRate)
    ensures SinglesOf(buckets, target, feeRate) == []
  {
    if buckets != [] {
      NoSingles(buckets[..|buckets| - 1], target, feeRate);
    }
  }

  lemma NoLoneBucket(coins: seq<Coin>, buckets: seq<Bucket>, target: u64, feeRate: u64)
    requires Grouped(coins, buckets) && NeitherOneNorAll(coins, target, feeRate)
    ensures forall b :: b in buckets ==> !Sufficient([b], target, feeRate)
  {
    forall b | b in buckets
      ensures !Sufficient([b], target, feeRate)
    {
      assert HoldsKey(coins, b);
      assert CoinsOfKey(coins, b.desc) != [];
      TotalOfOne(b, BucketValue);
      TotalOfOne(b, BucketSize);
    }
  }

  /** Three keys, one of them dust: two of the keys together pay 890 satoshis and
      their fee, one alone is too little, and all three are too little again. */
  const DUSTY: seq<Coin> := [Coin([], 0, 600, 1, 148), Coin([], 1, 600, 2, 148), Coin([], 2, 5, 3, 148)]

  lemma DustCanHideAFit(privacy: bool)
    ensures var pair := DUSTY[..2]; Value(pair) >= 890 + InputFee(pair, 1)
    ensures exists r :: RandomResult(DUSTY, 890, 1, privacy, r) && r.Err?
  {
    var a, b, d := DUSTY[0], DUSTY[1], DUSTY[2];
    DustyTotals();
    DustyKeys();
    var buckets := [Bucket(1, 148, 600, [a]), Bucket(2, 148, 600, [b]), Bucket(3, 148, 5, [d])];
    DustyBuckets(buckets);
    MayFailIff(DUSTY, buckets, 890, 1, privacy);
  }

  lemma DustyTotals()
    ensures Value(DUSTY) == 1205 && Size(DUSTY) == 444
    ensures Value(DUSTY[..2]) == 1200 && Size(DUSTY[..2]) == 296
  {
    var a, b, d := DUSTY[0], DUSTY[1], DUSTY[2];
    assert DUSTY[..2] == [a] + [b] && DUSTY == [a] + [b] + [d];
    ThreeTotals(a, b, d, ValueOf);
    ThreeTotals(a, b, d, SizeOf);
  }

  lemma ThreeTotals(a: Coin, b: Coin, d: Coin, w: Coin -> nat)
    ensures Total([a] + [b], w) == w(a) + w(b)
    ensures Total([a] + [b] + [d], w) == w(a) + w(b) + w(d)
  {
    TotalOfOne(a, w);
    TotalOfOne(b, w);
    TotalOfOne(d, w);
    TotalConcat([a], [b], w);
    TotalConcat([a] + [b], [d], w);
  }

  /** The coins of each key of the wallet. */
  lemma DustyKeys()
    ensures forall key :: CoinsOfKey(DUSTY, key) ==
              (if key == 1 then [DUSTY[0]] else if key == 2 then [DUSTY[1]] else if key == 3 then [DUSTY[2]] else [])
    ensures NeitherOneNorAll(DUSTY, 890, 1)
  {
    var a, b, d := DUSTY[0], DUSTY[1], DUSTY[2];
    DustyTotals();
    forall key: int
      ensures CoinsOfKey(DUSTY, key) == (if key == 1 then [a] else if key == 2 then [b] else if key == 3 then [d] else [])
    {
      assert DUSTY == [a] + ([b] + ([d] + []));
      KeyCons(a, [b] + ([d] + []), key);
      KeyCons(b, [d] + [], key);
      KeyCons(d, [], key);
    }
    OneCoin(a);
    OneCoin(b);
    OneCoin(d);
  }

  lemma OneCoin(c: Coin)
    ensures Value([c]) == c.value && Size([c]) == c.estimatedSize
  {
    TotalOfOne(c, ValueOf);
    TotalOfOne(c, SizeOf);
  }

  lemma DustyBuckets(buckets: seq<Bucket>)
    requires buckets == [Bucket(1, 148, 600, [DUSTY[0]]), Bucket(2, 148, 600, [DUSTY[1]]), Bucket(3, 148, 5, [DUSTY[2]])]
    ensures Grouped(DUSTY, buckets)
  {
    DustyHold(buckets);
    DustyCovered(buckets);
  }

  lemma DustyHold(buckets: seq<Bucket>)
    requires buckets == [Bucket(1, 148, 600, [DUSTY[0]]), Bucket(2, 148, 600, [DUSTY[1]]), Bucket(3, 148, 5, [DUSTY[2]])]
    ensures forall i :: 0 <= i < |buckets| ==> HoldsKey(DUSTY, buckets[i])
  {
    DustyBucket(0);
    DustyBucket(1);
    DustyBucket(2);
  }

  lemma DustyCovered(buckets: seq<Bucket>)
    requires |buckets| == 3 && forall i :: 0 <= i < 3 ==> buckets[i].desc == i + 1
    ensures forall c :: c in DUSTY ==> HasBucket(buckets, c.keyinstanceId)
  {
    forall c | c in DUSTY
      ensures HasBucket(buckets, c.keyinstanceId)
    {
      DustyHasBucket(buckets, c);
    }
  }

  lemma DustyHasBucket(buckets: seq<Bucket>, c: Coin)
    requires |buckets| == 3 && forall i :: 0 <= i < 3 ==> buckets[i].desc == i + 1
    requires c in DUSTY
    ensures HasBucket(buckets, c.keyinstanceId)
  {
    assert buckets[c.keyinstanceId - 1].desc == c.keyinstanceId;
  }

  lemma DustyBucket(i: nat)
    requires i < 3
    ensures HoldsKey(DUSTY, Bucket(i + 1, 148, DUSTY[i].value, [DUSTY[i]]))
  {
    DustyKeys();
    OneCoin(DUSTY[i]);
  }

  // ----- what may be selected ---------------------------------------------

  /** No key sufficient alone has a smaller penalty. */
  ghost predicate NoLoneKeyBetter(buckets: seq<Bucket>, target: u64, feeRate: u64, privacy: bool, c: seq<Bucket>)
    requires |c| <= U64_MAX
  {
    forall b :: b in buckets && Sufficient([b], target, feeRate) ==>
                  Penalty(c, target, privacy) <= Penalty([b], target, privacy)
  }

  /** Every key sufficient alone has a greater penalty. */
  ghost predicate EveryLoneKeyWorse(buckets: seq<Bucket>, target: u64, feeRate: u64, privacy: bool, c: seq<Bucket>)
    requires |c| <= U64_MAX
  {
    forall b :: b in buckets && Sufficient([b], target, feeRate) ==>
                  Penalty(c, target, privacy) < Penalty([b], target, privacy)
  }

  /** Some order of the buckets makes an attempt find this choice. */
  ghost predicate SomeAttemptFinds(buckets: seq<Bucket>, target: nat, feeRate: u64, c: seq<Bucket>)
  {
    exists order :: multiset(order) == multiset(buckets) && AttemptAt(order, target, feeRate) == Some(c)
  }

  /** The choices of keys that some order of the buckets and some draws select. Keys
      sufficient alone come first and only a smaller penalty beats them; so a single
      key wins if no other sufficient key is better, and several keys win only if
      every sufficient key is worse. */
  ghost predicate MayWin(buckets: seq<Bucket>, target: u64, feeRate: u64, privacy: bool, c: seq<Bucket>)
  {
    && |c| <= U64_MAX
    && if |c| == 1
       then c[0] in buckets && Sufficient(c, target, feeRate) && NoLoneKeyBetter(buckets, target, feeRate, privacy, c)
       else SomeAttemptFinds(buckets, target, feeRate, c) && EveryLoneKeyWorse(buckets, target, feeRate, privacy, c)
  }

  lemma BucketInBoth(coins: seq<Coin>, a: seq<Bucket>, b: seq<Bucket>, x: Bucket)
    requires Grouped(coins, a) && Grouped(coins, b) && x in a
    ensures x in b
  {
    assert HoldsKey(coins, x);
    var y := OwnBucket(coins, b, x.desc);
    assert x == y;
  }

  /** The buckets of a wallet are determined up to their order. */
  lemma SameBuckets(coins: seq<Coin>, a: seq<Bucket>, b: seq<Bucket>)
    requires Grouped(coins, a) && Grouped(coins, b)
    ensures multiset(a) == multiset(b)
  {
    forall x: Bucket
      ensures multiset(a)[x] == multiset(b)[x]
    {
      if x in a {
        BucketInBoth(coins, a, b, x);
        OnceOnly(coins, a, x);
        OnceOnly(coins, b, x);
      } else if x in b {
        BucketInBoth(coins, b, a, x);
      }
    }
  }

  /** Any order of the buckets is an order they may come in. */
  lemma AnyOrderIsGrouped(coins: seq<Coin>, a: seq<Bucket>, b: seq<Bucket>)
    requires Grouped(coins, a) && multiset(a) == multiset(b)
    ensures Grouped(coins, b)
  {
    PartOfGrouped(coins, a, b);
    forall c | c in coins
      ensures HasBucket(b, c.keyinstanceId)
    {
      var i :| 0 <= i < |a| && a[i].desc == c.keyinstanceId;
      assert a[i] in multiset(b);
      var j :| 0 <= j < |b| && b[j] == a[i];
    }
  }

  /** What a trace's winner beats: every lone sufficient key, strictly unless it is
      itself one of the first candidates. */
  lemma WinnerBeatsLoneKeys(coins: seq<Coin>, target: u64, feeRate: u64, privacy: bool, t: Trace, b: Bucket)
    requires TraceOf(coins, target, feeRate, t) && Wins(target, privacy, t)
    requires b in t.buckets && Sufficient([b], target, feeRate)
    ensures |t.winner| <= U64_MAX && Penalty(t.winner, target, privacy) <= Penalty([b], target, privacy)
    ensures |t.winner| != 1 ==> Penalty(t.winner, target, privacy) < Penalty([b], target, privacy)
  {
    var best: nat :| FirstBest(t.candidates, target, privacy, best) && t.candidates[best] == t.winner;
    var singles := SinglesOf(t.buckets, target, feeRate);
    SinglesAre(t.buckets, target, feeRate, [b]);
    FirstOfTwo(singles, FoundIn(t.orders, target, feeRate), target, privacy, best, [b]);
    SinglesAre(t.buckets, target, feeRate, t.winner);
  }

  /** The first best of two lists beats every member of the first list, strictly
      if it is not of the first list itself. */
  lemma FirstOfTwo(singles: seq<seq<Bucket>>, found: seq<seq<Bucket>>, target: u64, privacy: bool, best: nat, x: seq<Bucket>)
    requires FirstBest(singles + found, target, privacy, best) && x in singles
    ensures var w := (singles + found)[best];
            && |w| <= U64_MAX && |x| <= U64_MAX
            && Penalty(w, target, privacy) <= Penalty(x, target, privacy)
            && (w in singles || Penalty(w, target, privacy) < Penalty(x, target, privacy))
  {
    var i :| 0 <= i < |singles| && singles[i] == x;
    assert (singles + found)[i] == x;
    if best < |singles| {
      assert (singles + found)[best] == singles[best];
    }
  }

  lemma WinnerIsFound(coins: seq<Coin>, target: u64, feeRate: u64, privacy: bool, t: Trace)
    requires TraceOf(coins, target, feeRate, t) && Wins(target, privacy, t) && |t.winner| != 1
    ensures SomeAttemptFinds(t.buckets, target, feeRate, t.winner)
  {
    WinnerIsIn(target, privacy, t);
    SinglesAre(t.buckets, target, feeRate, t.winner);
    assert t.winner in FoundIn(t.orders, target, feeRate);
    FoundFrom(t.orders, target, feeRate, t.winner);
  }

  /** Whatever the order of the buckets and the draws, the winner is such a choice. */
  lemma WinnerMayWin(coins: seq<Coin>, buckets: seq<Bucket>, target: u64, feeRate: u64, privacy: bool, t: Trace)
    requires Grouped(coins, buckets) && TraceOf(coins, target, feeRate, t) && Wins(target, privacy, t)
    ensures MayWin(buckets, target, feeRate, privacy, t.winner) && multiset(t.winner) <= multiset(buckets)
  {
    SameBuckets(coins, buckets, t.buckets);
    WinnerIsCandidate(coins, target, feeRate, privacy, t);
    OwnWinnerMayWin(coins, target, feeRate, privacy, t);
    MayWinInAnyOrder(t.buckets, buckets, target, feeRate, privacy, t.winner);
  }

  lemma OwnWinnerMayWin(coins: seq<Coin>, target: u64, feeRate: u64, privacy: bool, t: Trace)
    requires TraceOf(coins, target, feeRate, t) && Wins(target, privacy, t)
    ensures MayWin(t.buckets, target, feeRate, privacy, t.winner)
  {
    var best: nat :| FirstBest(t.candidates, target, privacy, best) && t.candidates[best] == t.winner;
    WinnerIsCandidate(coins, target, feeRate, privacy, t);
    forall b | b in t.buckets && Sufficient([b], target, feeRate)
      ensures Penalty(t.winner, target, privacy) <= Penalty([b], target, privacy)
      ensures |t.winner| != 1 ==> Penalty(t.winner, target, privacy) < Penalty([b], target, privacy)
    {
      WinnerBeatsLoneKeys(coins, target, feeRate, privacy, t, b);
    }
    if |t.winner| == 1 {
      assert t.winner[0] in multiset(t.winner);
      assert t.winner[0] in multiset(t.buckets);
    } else {
      WinnerIsFound(coins, target, feeRate, privacy, t);
    }
  }

  lemma MayWinInAnyOrder(a: seq<Bucket>, b: seq<Bucket>, target: u64, feeRate: u64, privacy: bool, c: seq<Bucket>)
    requires multiset(a) == multiset(b) && MayWin(a, target, feeRate, privacy, c)
    ensures MayWin(b, target, feeRate, privacy, c)
  {
    forall x
      ensures x in a <==> x in b
    {
      assert x in multiset(a) <==> x in multiset(b);
    }
    if |c| != 1 {
      var order :| multiset(order) == multiset(a) && AttemptAt(order, target, feeRate) == Some(c);
      assert multiset(order) == multiset(b);
    }
  }

  /** The first bucket, if it suffices alone, is the first candidate. */
  lemma {:induction false} FirstSingle(buckets: seq<Bucket>, target: nat, feeRate: u64)
    requires buckets != [] && Sufficient([buckets[0]], target, feeRate)
    ensures SinglesOf(buckets, target, feeRate) != [] && SinglesOf(buckets, target, feeRate)[0] == [buckets[0]]
  {
    if |buckets| > 1 {
      FirstSingle(buckets[..|buckets| - 1], target, feeRate);
    }
  }

  /** With the key first in the order, it is found at once. */
  lemma LoneKeyFound(order: seq<Bucket>, target: nat, feeRate: u64)
    requires order != [] && Sufficient([order[0]], target, feeRate)
    ensures AttemptAt(order, target, feeRate) == Some([order[0]])
  {
    var c := [order[0]];
    assert order[..1] == c;
    assert Reach(order, target, feeRate, 0) == Some(1);
    assert ByValue(c) == c by {
      assert c[1..] == [];
      assert SortDesc(c, Lightness) == InsertDesc(c[0], [], Lightness);
    }
    assert Cut(c, target, feeRate, 0) == 0;
    assert c[0..] == c;
  }

  /** A single key that may win does so when it comes first and is drawn first. */
  lemma LoneKeyWins(buckets: seq<Bucket>, target: u64, feeRate: u64, privacy: bool, c: seq<Bucket>)
    requires |c| == 1 && MayWin(buckets, target, feeRate, privacy, c)
    requires buckets[0] == c[0]
    ensures var orders := SameDraws(buckets);
            Wins(target, privacy, Trace(buckets, orders, CandidatesIn(buckets, orders, target, feeRate), c))
  {
    var candidates := CandidatesIn(buckets, SameDraws(buckets), target, feeRate);
    assert c == [c[0]];
    FirstSingle(buckets, target, feeRate);
    forall i | 0 <= i < |candidates|
      ensures |candidates[i]| == 1 && Penalty(c, target, privacy) <= Penalty(candidates[i], target, privacy)
    {
      SinglesAre(buckets, target, feeRate, candidates[i]);
      if candidates[i] in SinglesOf(buckets, target, feeRate) {
        assert candidates[i] == [candidates[i][0]];
      } else {
        assert candidates[i] in FoundIn(SameDraws(buckets), target, feeRate);
        SameDrawsFind(buckets, target, feeRate, candidates[i]);
        LoneKeyFound(buckets, target, feeRate);
      }
    }
    assert FirstBest(candidates, target, privacy, 0);
  }

  /** Several keys that may win do so when every draw finds them. */
  lemma SeveralKeysWin(buckets: seq<Bucket>, order: seq<Bucket>, target: u64, feeRate: u64, privacy: bool, c: seq<Bucket>)
    requires multiset(order) == multiset(buckets) && buckets != [] && AttemptAt(order, target, feeRate) == Some(c)
    requires |c| <= U64_MAX && EveryLoneKeyWorse(buckets, target, feeRate, privacy, c)
    ensures var orders := SameDraws(order);
            Wins(target, privacy, Trace(buckets, orders, CandidatesIn(buckets, orders, target, feeRate), c))
  {
    var orders := SameDraws(order);
    var singles, found := SinglesOf(buckets, target, feeRate), FoundIn(orders, target, feeRate);
    var candidates := CandidatesIn(buckets, orders, target, feeRate);
    assert |order| == |multiset(order)| == |multiset(buckets)| == |buckets|;
    assert orders[0] == order;
    FoundFrom(orders, target, feeRate, c);
    forall i | 0 <= i < |candidates|
      ensures |candidates[i]| <= U64_MAX
      ensures i < |singles| ==> Penalty(c, target, privacy) < Penalty(candidates[i], target, privacy)
      ensures i >= |singles| ==> candidates[i] == c
    {
      if i < |singles| {
        SinglesAre(buckets, target, feeRate, singles[i]);
        assert candidates[i] == singles[i] == [singles[i][0]];
      } else {
        assert candidates[i] == found[i - |singles|];
        SameDrawsFind(order, target, feeRate, candidates[i]);
      }
    }
    assert FirstBest(candidates, target, privacy, |singles|);
  }

  /** A trace in which a choice that may win does win. */
  lemma WinningTrace(coins: seq<Coin>, buckets: seq<Bucket>, target: u64, feeRate: u64, privacy: bool, c: seq<Bucket>)
    returns (t: Trace)
    requires Grouped(coins, buckets) && MayWin(buckets, target, feeRate, privacy, c)
    ensures TraceOf(coins, target, feeRate, t) && Wins(target, privacy, t) && t.winner == c
  {
    if |c| == 1 {
      t := LoneKeyTrace(coins, buckets, target, feeRate, privacy, c);
    } else {
      var order :| multiset(order) == multiset(buckets) && AttemptAt(order, target, feeRate) == Some(c);
      assert |order| == |multiset(order)| == |multiset(buckets)| == |buckets|;
      SeveralKeysWin(buckets, order, target, feeRate, privacy, c);
      t := Trace(buckets, SameDraws(order), CandidatesIn(buckets, SameDraws(order), target, feeRate), c);
    }
  }

  lemma LoneKeyTrace(coins: seq<Coin>, buckets: seq<Bucket>, target: u64, feeRate: u64, privacy: bool, c: seq<Bucket>)
    returns (t: Trace)
    requires Grouped(coins, buckets) && MayWin(buckets, target, feeRate, privacy, c) && |c| == 1
    ensures TraceOf(coins, target, feeRate, t) && Wins(target, privacy, t) && t.winner == c
  {
    var i :| 0 <= i < |buckets| && buckets[i] == c[0];
    var first := [buckets[i]] + DropAt(buckets, i);
    MultisetDropAt(buckets, i);
    assert multiset(first) == multiset(buckets);
    AnyOrderIsGrouped(coins, buckets, first);
    MayWinInAnyOrder(buckets, first, target, feeRate, privacy, c);
    LoneKeyWins(first, target, feeRate, privacy, c);
    t := Trace(first, SameDraws(first), CandidatesIn(first, SameDraws(first), target, feeRate), c);
  }

  /** Conversely, each such choice is the result of some run. */
  lemma MayWinIsResult(coins: seq<Coin>, buckets: seq<Bucket>, target: u64, feeRate: u64, privacy: bool, c: seq<Bucket>)
    returns (r: ChooserResult)
    requires Grouped(coins, buckets) && MayWin(buckets, target, feeRate, privacy, c)
    requires Value(coins) <= U64_MAX && target + InputFee(coins, feeRate) <= U64_MAX
    ensures multiset(c) <= multiset(buckets)
    ensures r.Ok? && r.value.coins == AllCoins(c) && r.value.totalInput == Total(c, BucketValue)
    ensures RandomResult(coins, target, feeRate, privacy, r)
  {
    var t := WinningTrace(coins, buckets, target, feeRate, privacy, c);
    WinnerIsCandidate(coins, target, feeRate, privacy, t);
    SameBuckets(coins, buckets, t.buckets);
    CandidateResult(coins, target, feeRate, t.buckets, c);
    PartTotals(coins, buckets, c);
    var all := AllCoins(c);
    var fee := InputFee(all, feeRate);
    r := Ok(Chosen(all, Value(all), fee, Value(all) - target - fee));
    assert RandomOutcome(coins, target, feeRate, privacy, r, t);
  }
}
