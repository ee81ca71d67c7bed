/** The deterministic byte generator that drives random selection (core/coinchooser.rs).
    SHA-256 is a parameter: any total function with 32-byte digests. */
module Prng {
  import opened Common
  import opened Lists
  import opened CoinChooser

  type Hash = seq<byte> -> seq<byte>

  ghost predicate Digests(h: Hash)
  {
    forall x :: |h(x)| == 32
  }

  /** The generator's value: the next 32-byte block and the bytes not yet handed out. */
  datatype Gen = Gen(state: seq<byte>, pool: seq<byte>)

  ghost predicate Ready(h: Hash, g: Gen)
  {
    Digests(h) && |g.state| == 32
  }

  /** Topping the pool up to at least `n` bytes, block by block. */
  ghost function Fill(h: Hash, g: Gen, n: nat): (r: Gen)
    requires Ready(h, g)
    ensures Ready(h, r) && |r.pool| >= n
    decreases n - |g.pool|
  {
    if |g.pool| >= n then g else Fill(h, Gen(h(g.state), g.pool + g.state), n)
  }

  /** The next `n` bytes. */
  ghost function Bytes(h: Hash, g: Gen, n: nat): (r: seq<byte>)
    requires Ready(h, g)
    ensures |r| == n
  {
    Fill(h, g, n).pool[..n]
  }

  /** The generator after handing out `n` bytes. */
  ghost function After(h: Hash, g: Gen, n: nat): (r: Gen)
    requires Ready(h, g)
    ensures Ready(h, r)
  {
    Gen(Fill(h, g, n).state, Fill(h, g, n).pool[n..])
  }

  lemma {:induction false} FillTwice(h: Hash, g: Gen, a: nat, b: nat)
    requires Ready(h, g) && a <= b
    ensures Fill(h, Fill(h, g, a), b) == Fill(h, g, b)
    decreases a - |g.pool|
  {
    if |g.pool| < a {
      FillTwice(h, Gen(h(g.state), g.pool + g.state), a, b);
    }
  }

  lemma {:induction false} FillShifted(h: Hash, g: Gen, a: nat, b: nat)
    requires Ready(h, g) && a <= |g.pool|
    ensures var full := Fill(h, g, a + b);
            |full.pool| >= a && Fill(h, Gen(g.state, g.pool[a..]), b) == Gen(full.state, full.pool[a..])
    decreases a + b - |g.pool|
  {
    if |g.pool| < a + b {
      assert (g.pool + g.state)[a..] == g.pool[a..] + g.state;
      FillShifted(h, Gen(h(g.state), g.pool + g.state), a, b);
    }
  }

  /** Splitting a request changes nothing: the same bytes in the same order, and
      the same generator afterwards. */
  lemma RequestSplits(h: Hash, g: Gen, a: nat, b: nat)
    requires Ready(h, g)
    ensures Bytes(h, g, a + b) == Bytes(h, g, a) + Bytes(h, After(h, g, a), b)
    ensures After(h, g, a + b) == After(h, After(h, g, a), b)
  {
    FillTwice(h, g, a, a + b);
    FillPrefix(h, Fill(h, g, a), a + b);
    FillShifted(h, Fill(h, g, a), a, b);
  }

  lemma {:induction false} FillPrefix(h: Hash, g: Gen, n: nat)
    requires Ready(h, g)
    ensures |Fill(h, g, n).pool| >= |g.pool| && Fill(h, g, n).pool[..|g.pool|] == g.pool
    decreases n - |g.pool|
  {
    if |g.pool| < n {
      FillPrefix(h, Gen(h(g.state), g.pool + g.state), n);
    }
  }

  function Sum(ns: seq<nat>): nat
  {
    if ns == [] then 0 else ns[0] + Sum(ns[1..])
  }

  /** Everything handed out by a run of requests. */
  ghost function Served(h: Hash, g: Gen, ns: seq<nat>): seq<byte>
    requires Ready(h, g)
    decreases ns
  {
    if ns == [] then [] else Bytes(h, g, ns[0]) + Served(h, After(h, g, ns[0]), ns[1..])
  }

  /** Main result: whatever the request sizes, a run of requests reads one byte stream. */
  lemma {:induction false} RequestsReadOneStream(h: Hash, g: Gen, ns: seq<nat>)
    requires Ready(h, g)
    ensures Served(h, g, ns) == Bytes(h, g, Sum(ns))
    decreases ns
  {
    if ns != [] {
      RequestsReadOneStream(h, After(h, g, ns[0]), ns[1..]);
      RequestSplits(h, g, ns[0], Sum(ns[1..]));
    }
  }

  /** The digest chain: the state, its hash, the hash of that, and so on. */
  ghost function Chain(h: Hash, state: seq<byte>, blocks: nat): (r: seq<byte>)
    requires Digests(h) && |state| == 32
    ensures |r| == 32 * blocks
    decreases blocks
  {
    if blocks == 0 then [] else state + Chain(h, h(state), blocks - 1)
  }

  /** The stream of a fresh generator is the digest chain of its seed. */
  lemma {:induction false} StreamIsChain(h: Hash, g: Gen, n: nat, blocks: nat)
    requires Ready(h, g) && n <= |g.pool| + 32 * blocks
    ensures Bytes(h, g, n) == (g.pool + Chain(h, g.state, blocks))[..n]
    decreases blocks
  {
    if |g.pool| < n {
      var g' := Gen(h(g.state), g.pool + g.state);
      StreamIsChain(h, g', n, blocks - 1);
      assert g'.pool + Chain(h, g'.state, blocks - 1) == g.pool + Chain(h, g.state, blocks);
    }
  }

  // ----- drawing an integer, shuffling ------------------------------------

  /** Byte after byte, most significant first, until `p` covers the range. */
  ghost function Draw(h: Hash, g: Gen, range: nat, r: nat, p: nat): (d: (nat, Gen))
    requires Ready(h, g) && r < p
    ensures Ready(h, d.1)
    decreases range - p
  {
    if p >= range then (r, g)
    else Draw(h, After(h, g, 1), range, Bytes(h, g, 1)[0] + r * 256, p * 256)
  }

  /** `randint(start, end)`. */
  ghost function Randint(h: Hash, g: Gen, start: nat, end: nat): (d: (nat, Gen))
    requires Ready(h, g) && start < end
    ensures Ready(h, d.1) && start <= d.0 < end
  {
    var d := Draw(h, g, end - start, 0, 1);
    (start + d.0 % (end - start), d.1)
  }

  /** The fewest bytes whose values cover the range. */
  predicate FewestBytes(k: nat, range: nat)
  {
    Pow256(k) >= range && (k > 0 ==> Pow256(k - 1) < range)
  }

  lemma {:induction false} DrawReads(h: Hash, g: Gen, range: nat, k: nat, rest: nat)
    requires Ready(h, g) && FewestBytes(k + rest, range)
    requires BigEndian(Bytes(h, g, k)) < Pow256(k)
    ensures var d := Draw(h, After(h, g, k), range, BigEndian(Bytes(h, g, k)), Pow256(k));
            d == (BigEndian(Bytes(h, g, k + rest)), After(h, g, k + rest))
    decreases rest
  {
    if rest > 0 {
      Pow256Grows(k, k + rest - 1);
      var b := Bytes(h, After(h, g, k), 1);
      RequestSplits(h, g, k, 1);
      BigEndianConcat(Bytes(h, g, k), b);
      assert Pow256(1) == 256;
      DrawReads(h, g, range, k + 1, rest - 1);
    }
  }

  lemma {:induction false} Pow256Grows(a: nat, b: nat)
    requires a <= b
    ensures Pow256(a) <= Pow256(b)
    decreases b - a
  {
    if a < b {
      Pow256Grows(a + 1, b);
    }
  }

  lemma {:induction false} ManyBytesCover(range: nat) returns (k: nat)
    requires range > 0
    ensures FewestBytes(k, range)
  {
    k := 0;
    while Pow256(k) < range
      invariant k > 0 ==> Pow256(k - 1) < range
      decreases range - Pow256(k)
    {
      k := k + 1;
    }
  }

  /** Main result: the number drawn is that of the fewest bytes of the stream that
      cover the range, most significant first, reduced to the range; and those
      bytes are gone from the stream. */
  lemma RandintReads(h: Hash, g: Gen, start: nat, end: nat) returns (k: nat)
    requires Ready(h, g) && start < end
    ensures FewestBytes(k, end - start)
    ensures Randint(h, g, start, end) == (start + BigEndian(Bytes(h, g, k)) % (end - start), After(h, g, k))
  {
    k := ManyBytesCover(end - start);
    assert Bytes(h, g, 0) == [] && g.pool[0..] == g.pool;
    assert After(h, g, 0) == g;
    DrawReads(h, g, end - start, 0, k);
  }

  /** The `usize` that `randint` compares with the range, after `k` rounds. */
  function Power(k: nat): nat
  {
    if k == 0 then 1 else Power(k - 1) * 256 % 0x1_0000_0000_0000_0000
  }

  lemma {:induction false} PowerWraps(k: nat)
    ensures if k <= 7 then Power(k) == Pow256(k) <= 0x100_0000_0000_0000 else Power(k) == 0
  {
    if k > 8 {
      PowerWraps(k - 1);
      assert Power(k - 1) == 0;
    } else if k > 0 {
      PowerWraps(k - 1);
      Pow256AtMost(k);
      assert Pow256(k) == Power(k - 1) * 256;
    }
  }

  lemma Pow256AtMost(k: nat)
    ensures k <= 7 ==> Pow256(k) <= Pow256(7) == 0x100_0000_0000_0000
    ensures k == 8 ==> Pow256(k) == 0x1_0000_0000_0000_0000
  {
    assert Pow256(7) == 0x100_0000_0000_0000;
  }

  /** The loop of `randint` ends if and only if the range is at most 2^56. */
  lemma RandintEndsIff(n: u64)
    ensures (exists k :: Power(k) >= n) <==> n <= 0x100_0000_0000_0000
  {
    if n <= 0x100_0000_0000_0000 {
      PowerWraps(7);
      Pow256AtMost(7);
      assert Power(7) >= n;
    } else {
      forall k
        ensures Power(k) < n
      {
        PowerWraps(k);
      }
    }
  }

  function Swapped<T>(s: seq<T>, i: nat, j: nat): (r: seq<T>)
    requires i < |s| && j < |s|
    ensures |r| == |s|
  {
    s[i := s[j]][j := s[i]]
  }

  /** The Fisher-Yates pass from position `i` down to 1. */
  ghost function Shuffled<T>(h: Hash, g: Gen, s: seq<T>, i: nat): (r: (seq<T>, Gen))
    requires Ready(h, g) && (i == 0 || i < |s|)
    ensures Ready(h, r.1) && |r.0| == |s|
    decreases i
  {
    if i == 0 then (s, g)
    else
      var d := Randint(h, g, 0, i + 1);
      Shuffled(h, d.1, Swapped(s, i, d.0), i - 1)
  }

  /** A shuffle permutes. */
  lemma {:induction false} ShufflePermutes<T>(h: Hash, g: Gen, s: seq<T>, i: nat)
    requires Ready(h, g) && (i == 0 || i < |s|)
    ensures multiset(Shuffled(h, g, s, i).0) == multiset(s)
    decreases i
  {
    if i > 0 {
      var d := Randint(h, g, 0, i + 1);
      ShufflePermutes(h, d.1, Swapped(s, i, d.0), i - 1);
    }
  }

  // ----- every permutation, each in one way -------------------------------

  /** A number to draw for each position from `i` down to 1, none beyond its position. */
  predicate DrawsFor(draws: seq<nat>, i: nat)
  {
    |draws| == i && forall k :: 0 <= k < i ==> draws[k] <= i - k
  }

  /** The pass with the numbers given. */
  function ShuffledBy<T>(s: seq<T>, draws: seq<nat>, i: nat): (r: seq<T>)
    requires DrawsFor(draws, i) && (i == 0 || i < |s|)
    ensures |r| == |s| && forall k :: i < k < |s| ==> r[k] == s[k]
    decreases i
  {
    if i == 0 then s else ShuffledBy(Swapped(s, i, draws[0]), draws[1..], i - 1)
  }

  /** The numbers that a generator draws, one for each position from `i` down to 1. */
  ghost function DrawsOf(h: Hash, g: Gen, i: nat): (d: (seq<nat>, Gen))
    requires Ready(h, g)
    ensures DrawsFor(d.0, i) && Ready(h, d.1)
    decreases i
  {
    if i == 0 then ([], g)
    else
      var first := Randint(h, g, 0, i + 1);
      var later := DrawsOf(h, first.1, i - 1);
      ([first.0] + later.0, later.1)
  }

  /** A shuffle is that pass with the numbers the generator draws. */
  lemma {:induction false} ShuffleDraws<T>(h: Hash, g: Gen, s: seq<T>, i: nat)
    requires Ready(h, g) && (i == 0 || i < |s|)
    ensures Shuffled(h, g, s, i) == (ShuffledBy(s, DrawsOf(h, g, i).0, i), DrawsOf(h, g, i).1)
    decreases i
  {
    if i > 0 {
      var first := Randint(h, g, 0, i + 1);
      ShuffleDraws(h, first.1, Swapped(s, i, first.0), i - 1);
      assert DrawsOf(h, g, i).0[1..] == DrawsOf(h, first.1, i - 1).0;
    }
  }

  lemma SwapPermutes<T>(s: seq<T>, i: nat, j: nat)
    requires i < |s| && j < |s|
    ensures multiset(Swapped(s, i, j)) == multiset(s)
  {
  }

  lemma SameBeginning<T>(s: seq<T>, t: seq<T>, i: nat)
    requires multiset(s) == multiset(t) && |s| == |t| && i < |s| && forall k :: i < k < |s| ==> s[k] == t[k]
    ensures multiset(s[..i + 1]) == multiset(t[..i + 1])
  {
    assert s == s[..i + 1] + s[i + 1..] && t == t[..i + 1] + t[i + 1..];
    assert s[i + 1..] == t[i + 1..];
    assert multiset(s[..i + 1]) == multiset(s) - multiset(s[i + 1..]);
    assert multiset(t[..i + 1]) == multiset(t) - multiset(t[i + 1..]);
  }

  /** Some swap brings the right member to position `i`. */
  lemma SwapIntoPlace<T>(s: seq<T>, t: seq<T>, i: nat) returns (j: nat)
    requires multiset(s) == multiset(t) && |s| == |t| && i < |s| && forall k :: i < k < |s| ==> s[k] == t[k]
    ensures j <= i && multiset(Swapped(s, i, j)) == multiset(t)
    ensures forall k :: i - 1 < k < |s| ==> Swapped(s, i, j)[k] == t[k]
  {
    SameBeginning(s, t, i);
    var all := s[..i + 1];
    assert t[..i + 1][i] in multiset(all);
    var at :| 0 <= at < |all| && all[at] == t[i];
    j := at;
    SwapPermutes(s, i, j);
  }

  /** Main result: some draws lead to every arrangement. */
  lemma {:induction false} ShuffleReachesAll<T>(s: seq<T>, t: seq<T>, i: nat) returns (draws: seq<nat>)
    requires multiset(s) == multiset(t) && |s| == |t| && i < |s| && forall k :: i < k < |s| ==> s[k] == t[k]
    ensures DrawsFor(draws, i) && ShuffledBy(s, draws, i) == t
    decreases i
  {
    if i == 0 {
      draws := [];
      SameBeginning(s, t, 0);
      assert s[..1] == [s[0]] && t[..1] == [t[0]];
      assert s[0] in multiset(t[..1]);
    } else {
      var j := SwapIntoPlace(s, t, i);
      var later := ShuffleReachesAll(Swapped(s, i, j), t, i - 1);
      draws := [j] + later;
      assert draws[1..] == later;
    }
  }

  predicate AllDifferent<T(==)>(s: seq<T>)
  {
    forall i, j :: 0 <= i < j < |s| ==> s[i] != s[j]
  }

  /** And of different things only one list of draws leads to each: a shuffle favours none. */
  lemma {:induction false} ShuffleIsFair<T>(s: seq<T>, draws: seq<nat>, draws': seq<nat>, i: nat)
    requires AllDifferent(s) && DrawsFor(draws, i) && DrawsFor(draws', i) && (i == 0 || i < |s|)
    requires ShuffledBy(s, draws, i) == ShuffledBy(s, draws', i)
    ensures draws == draws'
    decreases i
  {
    if i > 0 {
      var a, b := Swapped(s, i, draws[0]), Swapped(s, i, draws'[0]);
      assert ShuffledBy(a, draws[1..], i - 1)[i] == s[draws[0]];
      assert ShuffledBy(b, draws'[1..], i - 1)[i] == s[draws'[0]];
      assert draws[0] == draws'[0];
      ShuffleIsFair(a, draws[1..], draws'[1..], i - 1);
      assert draws == [draws[0]] + draws[1..] && draws' == [draws'[0]] + draws'[1..];
    }
  }

  class Generator {
    const hash: Hash
    var state: seq<byte>
    var pool: seq<byte>

    ghost predicate Valid()
      reads this
    {
      Ready(hash, Value())
    }

    ghost function Value(): Gen
      reads this
    {
      Gen(state, pool)
    }

    /** `from_seed`; `from_coins` is `FromSeed(h, SeedOf(coins))`. */
    constructor FromSeed(h: Hash, seed: seq<byte>)
      requires Digests(h)
      ensures hash == h && Valid() && Value() == Gen(h(seed), [])
    {
      hash, state, pool := h, h(seed), [];
    }

    method GetBytes(n: nat) returns (bytes: seq<byte>)
      requires Valid()
      modifies this
      ensures Valid() && bytes == Bytes(hash, old(Value()), n) && Value() == After(hash, old(Value()), n)
    {
      while |pool| < n
        invariant Valid() && Fill(hash, Value(), n) == Fill(hash, old(Value()), n)
        decreases n - |pool|
      {
        pool := pool + state;
        state := hash(state);
      }
      bytes := pool[..n];
      pool := pool[n..];
    }

    /** The range must stay within 2^56, where the shift of `p` cannot wrap: for a
        greater range the loop does not end (`RandintEndsIff`). */
    method Next(start: nat, end: nat) returns (i: nat)
      requires Valid() && start < end && end - start <= 0x100_0000_0000_0000
      modifies this
      ensures Valid() && (i, Value()) == Randint(hash, old(Value()), start, end)
    {
      var n := end - start;
      var r: nat, p: nat := 0, 1;
      while p < n
        invariant Valid() && r < p
        invariant Draw(hash, Value(), n, r, p) == Draw(hash, old(Value()), n, 0, 1)
        decreases n - p
      {
        var b := GetBytes(1);
        r := b[0] + r * 256;
        p := p * 256;
      }
      i := start + r % n;
    }

    method Shuffle<T>(a: array<T>)
      requires Valid() && a.Length < 0x100_0000_0000_0000
      modifies this, a
      ensures Valid()
      ensures (a[..], Value()) ==
              Shuffled(hash, old(Value()), old(a[..]), if a.Length == 0 then 0 else a.Length - 1)
    {
      if a.Length < 2 {
        return;
      }
      var i := a.Length - 1;
      while i > 0
        invariant 0 <= i < a.Length && Valid()
        invariant Shuffled(hash, Value(), a[..], i) ==
                  Shuffled(hash, old(Value()), old(a[..]), a.Length - 1)
      {
        ghost var before, g := a[..], Value();
        var j := Next(0, i + 1);
        a[i], a[j] := a[j], a[i];
        assert a[..] == Swapped(before, i, j);
        assert Shuffled(hash, g, before, i) == Shuffled(hash, Value(), a[..], i - 1);
        i := i - 1;
      }
    }
  }

  // ----- the seed ---------------------------------------------------------

  /** Lexicographic order on byte strings. */
  predicate LexLe(a: seq<byte>, b: seq<byte>)
  {
    a == [] || (b != [] && (a[0] < b[0] || (a[0] == b[0] && LexLe(a[1..], b[1..]))))
  }

  lemma {:induction false} LexOrder(a: seq<byte>, b: seq<byte>)
    ensures LexLe(a, b) || LexLe(b, a)
    ensures LexLe(a, b) && LexLe(b, a) ==> a == b
  {
    if a != [] && b != [] && a[0] == b[0] {
      LexOrder(a[1..], b[1..]);
      assert a == [a[0]] + a[1..] && b == [b[0]] + b[1..];
    }
  }

  lemma {:induction false} LexTransitive(a: seq<byte>, b: seq<byte>, c: seq<byte>)
    requires LexLe(a, b) && LexLe(b, c)
    ensures LexLe(a, c)
  {
    if a != [] && a[0] == b[0] == c[0] {
      LexTransitive(a[1..], b[1..], c[1..]);
    }
  }

  function InsertLex(x: seq<byte>, s: seq<seq<byte>>): seq<seq<byte>>
  {
    if s == [] || LexLe(x, s[0]) then [x] + s else [s[0]] + InsertLex(x, s[1..])
  }

  function SortLex(s: seq<seq<byte>>): seq<seq<byte>>
  {
    if s == [] then [] else InsertLex(s[0], SortLex(s[1..]))
  }

  lemma {:induction false} InsertsCommute(x: seq<byte>, y: seq<byte>, s: seq<seq<byte>>)
    ensures InsertLex(x, InsertLex(y, s)) == InsertLex(y, InsertLex(x, s))
  {
    LexOrder(x, y);
    if s != [] {
      if LexLe(x, s[0]) && !LexLe(y, s[0]) {
        LexOrder(y, s[0]);
        if LexLe(y, x) {
          LexTransitive(y, x, s[0]);
        }
      } else if LexLe(y, s[0]) && !LexLe(x, s[0]) {
        LexOrder(x, s[0]);
        if LexLe(x, y) {
          LexTransitive(x, y, s[0]);
        }
      } else if !LexLe(x, s[0]) {
        InsertsCommute(x, y, s[1..]);
      }
    }
  }

  lemma {:induction false} SortLexDropAt(s: seq<seq<byte>>, i: nat)
    requires i < |s|
    ensures SortLex(s) == InsertLex(s[i], SortLex(DropAt(s, i)))
  {
    if i == 0 {
      assert DropAt(s, 0) == s[1..];
    } else {
      SortLexDropAt(s[1..], i - 1);
      assert DropAt(s, i)[1..] == DropAt(s[1..], i - 1);
      InsertsCommute(s[0], s[i], SortLex(DropAt(s[1..], i - 1)));
    }
  }

  lemma {:induction false} SortLexOfPermutation(a: seq<seq<byte>>, b: seq<seq<byte>>)
    requires multiset(a) == multiset(b)
    ensures SortLex(a) == SortLex(b)
  {
    if a == [] {
      assert |b| == |multiset(b)| == 0;
    } else {
      assert a[0] in multiset(b);
      var i :| 0 <= i < |b| && b[i] == a[0];
      MultisetDropAt(a, 0);
      MultisetDropAt(b, i);
      assert DropAt(a, 0) == a[1..];
      SortLexOfPermutation(a[1..], DropAt(b, i));
      SortLexDropAt(b, i);
    }
  }

  /** Four bytes as a number, the least significant first. */
  function Word32(a: nat, b: nat, c: nat, d: nat): nat { a + 256 * (b + 256 * (c + 256 * d)) }

  function LittleEndian32(n: u32): (r: seq<byte>)
    ensures |r| == 4 && n == Word32(r[0], r[1], r[2], r[3])
  {
    LittleEndianDigits(n);
    [n % 256, n / 256 % 256, n / 65536 % 256, n / 16777216]
  }

  lemma LittleEndianDigits(n: u32)
    ensures n == n % 256 + 256 * (n / 256 % 256 + 256 * (n / 65536 % 256 + 256 * (n / 16777216)))
    ensures n / 16777216 < 256
  {
    var a := n / 256;
    var b := a / 256;
    assert n / 65536 == b && n / 16777216 == b / 256;
    assert n == 256 * a + n % 256 && a == 256 * b + a % 256 && b == 256 * (b / 256) + b % 256;
  }

  function PrevoutBytes(c: Coin): seq<byte>
  {
    c.txHash + LittleEndian32(c.txIndex)
  }

  function Flatten(parts: seq<seq<byte>>): seq<byte>
  {
    if parts == [] then [] else parts[0] + Flatten(parts[1..])
  }

  /** The seed of `from_coins`. */
  function SeedOf(coins: seq<Coin>): seq<byte>
  {
    Flatten(SortLex(Map(PrevoutBytes, coins)))
  }

  /** The order in which the server lists the coins cannot influence the seed. */
  lemma SeedIgnoresOrder(a: seq<Coin>, b: seq<Coin>)
    requires multiset(a) == multiset(b)
    ensures SeedOf(a) == SeedOf(b)
  {
    MapOfPermutation(PrevoutBytes, a, b);
    SortLexOfPermutation(Map(PrevoutBytes, a), Map(PrevoutBytes, b));
  }

  lemma {:induction false} InsertLexMembers(x: seq<byte>, s: seq<seq<byte>>)
    ensures multiset(InsertLex(x, s)) == multiset{x} + multiset(s)
  {
    if s != [] && !LexLe(x, s[0]) {
      InsertLexMembers(x, s[1..]);
      assert s == [s[0]] + s[1..];
    }
  }

  ghost predicate LexAscending(s: seq<seq<byte>>)
  {
    forall i, j :: 0 <= i < j < |s| ==> LexLe(s[i], s[j])
  }

  lemma {:induction false} InsertLexAscends(x: seq<byte>, s: seq<seq<byte>>)
    requires LexAscending(s)
    ensures LexAscending(InsertLex(x, s))
  {
    if s == [] || LexLe(x, s[0]) {
      forall j | 0 <= j < |s|
        ensures LexLe(x, s[j])
      {
        if j > 0 {
          LexTransitive(x, s[0], s[j]);
        }
      }
    } else {
      var rest := InsertLex(x, s[1..]);
      InsertLexAscends(x, s[1..]);
      InsertLexMembers(x, s[1..]);
      LexOrder(x, s[0]);
      forall j | 0 <= j < |rest|
        ensures LexLe(s[0], rest[j])
      {
        assert rest[j] in multiset(rest);
        assert rest[j] == x || rest[j] in s[1..];
      }
    }
  }

  /** The parts of the seed: all of them, in lexicographic order. */
  lemma {:induction false} SortLexSorts(s: seq<seq<byte>>)
    ensures multiset(SortLex(s)) == multiset(s) && LexAscending(SortLex(s))
  {
    if s != [] {
      SortLexSorts(s[1..]);
      InsertLexMembers(s[0], SortLex(s[1..]));
      InsertLexAscends(s[0], SortLex(s[1..]));
      assert s == [s[0]] + s[1..];
    }
  }

  ghost predicate PartsOf(parts: seq<seq<byte>>, size: nat)
  {
    forall i :: 0 <= i < |parts| ==> |parts[i]| == size
  }

  lemma {:induction false} FlattenIsInjective(a: seq<seq<byte>>, b: seq<seq<byte>>, size: nat)
    requires size > 0 && PartsOf(a, size) && PartsOf(b, size) && Flatten(a) == Flatten(b)
    ensures a == b
  {
    FlattenLength(a, size);
    FlattenLength(b, size);
    if a != [] {
      assert a[0] == Flatten(a)[..size] && b[0] == Flatten(b)[..size];
      assert Flatten(a[1..]) == Flatten(a)[size..] && Flatten(b[1..]) == Flatten(b)[size..];
      FlattenIsInjective(a[1..], b[1..], size);
      assert a == [a[0]] + a[1..] && b == [b[0]] + b[1..];
    }
  }

  lemma {:induction false} FlattenLength(parts: seq<seq<byte>>, size: nat)
    requires PartsOf(parts, size)
    ensures |Flatten(parts)| == size * |parts|
  {
    if parts != [] {
      FlattenLength(parts[1..], size);
      OneMorePart(size, |parts|);
    }
  }

  lemma OneMorePart(size: nat, n: nat)
    requires n > 0
    ensures size * n == size + size * (n - 1)
  {
  }

  /** The outpoint of a coin, and the one that bytes stand for. */
  function OutpointOf(c: Coin): (seq<byte>, nat) { (c.txHash, c.txIndex) }

  function OutpointIn(length: nat): seq<byte> -> (seq<byte>, nat)
  {
    (bytes: seq<byte>) =>
      if |bytes| != length + 4 then ([], 0)
      else (bytes[..length], Word32(bytes[length], bytes[length + 1], bytes[length + 2], bytes[length + 3]))
  }

  function BytesOf(o: (seq<byte>, nat)): seq<byte>
  {
    if o.1 <= U32_MAX then o.0 + LittleEndian32(o.1) else []
  }

  /** Transaction hashes of one length, as all have: 64 characters of hexadecimal. */
  predicate HashesOf(coins: seq<Coin>, length: nat)
  {
    forall i :: 0 <= i < |coins| ==> |coins[i].txHash| == length
  }

  lemma OutpointsBack(coins: seq<Coin>, length: nat)
    requires HashesOf(coins, length)
    ensures PartsOf(Map(PrevoutBytes, coins), length + 4)
    ensures Map(OutpointIn(length), Map(PrevoutBytes, coins)) == Map(OutpointOf, coins)
    ensures Map(BytesOf, Map(OutpointOf, coins)) == Map(PrevoutBytes, coins)
  {
    forall i | 0 <= i < |coins|
      ensures |PrevoutBytes(coins[i])| == length + 4 && OutpointIn(length)(PrevoutBytes(coins[i])) == OutpointOf(coins[i])
    {
      var b, n := PrevoutBytes(coins[i]), LittleEndian32(coins[i].txIndex);
      assert b[..length] == coins[i].txHash && b[length..] == n;
    }
    var parts := Map(PrevoutBytes, coins);
    forall i | 0 <= i < |coins|
      ensures Map(OutpointIn(length), parts)[i] == Map(OutpointOf, coins)[i]
      ensures Map(BytesOf, Map(OutpointOf, coins))[i] == parts[i]
    {
      assert parts[i] == PrevoutBytes(coins[i]);
    }
  }

  lemma SortedParts(parts: seq<seq<byte>>, size: nat)
    requires PartsOf(parts, size)
    ensures PartsOf(SortLex(parts), size)
  {
    SortLexSorts(parts);
    forall i | 0 <= i < |SortLex(parts)|
      ensures |SortLex(parts)[i]| == size
    {
      assert SortLex(parts)[i] in multiset(parts);
    }
  }

  /** The bytes of an outpoint: the hash, then the index in four bytes, least
      significant first. */
  lemma PrevoutReads(c: Coin)
    ensures |PrevoutBytes(c)| == |c.txHash| + 4 && PrevoutBytes(c)[..|c.txHash|] == c.txHash
    ensures LittleEndian(PrevoutBytes(c)[|c.txHash|..]) == c.txIndex
  {
    var n := LittleEndian32(c.txIndex);
    assert PrevoutBytes(c)[|c.txHash|..] == n;
    assert n == [n[0]] + n[1..] && n[1..] == [n[1]] + n[2..] && n[2..] == [n[2]] + n[3..] && n[3..] == [n[3]] + [];
    FirstByte(n);
    FirstByte(n[1..]);
    FirstByte(n[2..]);
    FirstByte(n[3..]);
  }

  lemma FirstByte(b: seq<byte>)
    requires b != []
    ensures LittleEndian(b) == 256 * LittleEndian(b[1..]) + b[0]
  {
  }

  /** The seed is made of the bytes of all outpoints, one after the other in
      lexicographic order. */
  lemma SeedParts(coins: seq<Coin>) returns (parts: seq<seq<byte>>)
    ensures SeedOf(coins) == Flatten(parts) && LexAscending(parts)
    ensures multiset(parts) == multiset(Map(PrevoutBytes, coins))
  {
    parts := SortLex(Map(PrevoutBytes, coins));
    SortLexSorts(Map(PrevoutBytes, coins));
  }

  /** Main result: two wallets have the same seed exactly when they have the same
      outpoints, in whatever order. */
  lemma SameSeedIffSameOutpoints(a: seq<Coin>, b: seq<Coin>, length: nat)
    requires HashesOf(a, length) && HashesOf(b, length)
    ensures SeedOf(a) == SeedOf(b) <==> multiset(Map(OutpointOf, a)) == multiset(Map(OutpointOf, b))
  {
    var x, y := Map(PrevoutBytes, a), Map(PrevoutBytes, b);
    OutpointsBack(a, length);
    OutpointsBack(b, length);
    if SeedOf(a) == SeedOf(b) {
      SortedParts(x, length + 4);
      SortedParts(y, length + 4);
      FlattenIsInjective(SortLex(x), SortLex(y), length + 4);
      SortLexSorts(x);
      SortLexSorts(y);
      MapOfPermutation(OutpointIn(length), x, y);
    }
    if multiset(Map(OutpointOf, a)) == multiset(Map(OutpointOf, b)) {
      MapOfPermutation(BytesOf, Map(OutpointOf, a), Map(OutpointOf, b));
      SortLexOfPermutation(x, y);
    }
  }
}
