/** Weighted totals, subset choices and the stable sort of Rust's `sort_by`. */
module Lists {

  /** The sum of `w` over `s`. */
  function Total<T>(s: seq<T>, w: T -> nat): nat
  {
    if s == [] then 0 else w(s[0]) + Total(s[1..], w)
  }

  lemma TotalConcat<T>(a: seq<T>, b: seq<T>, w: T -> nat)
    ensures Total(a + b, w) == Total(a, w) + Total(b, w)
  {
    if a == [] {
      assert a + b == b;
    } else {
      assert (a + b)[1..] == a[1..] + b;
      TotalConcat(a[1..], b, w);
    }
  }

  lemma TotalOfOne<T>(x: T, w: T -> nat)
    ensures Total([x], w) == w(x)
  {
  }

  lemma TotalTake<T>(s: seq<T>, k: nat, w: T -> nat)
    requires k < |s|
    ensures Total(s[..k + 1], w) == Total(s[..k], w) + w(s[k])
  {
    assert s[..k + 1] == s[..k] + [s[k]];
    TotalConcat(s[..k], [s[k]], w);
  }

  lemma TotalTakeMono<T>(s: seq<T>, j: nat, k: nat, w: T -> nat)
    requires j <= k <= |s|
    ensures Total(s[..j], w) <= Total(s[..k], w)
  {
    assert s[..k] == s[..j] + s[j..k];
    TotalConcat(s[..j], s[j..k], w);
  }

  function DropAt<T>(s: seq<T>, i: nat): (r: seq<T>)
    requires i < |s|
    ensures |r| == |s| - 1
  {
    s[..i] + s[i + 1..]
  }

  lemma MultisetDropAt<T>(s: seq<T>, i: nat)
    requires i < |s|
    ensures multiset(DropAt(s, i)) == multiset(s) - multiset{s[i]}
  {
    assert s == s[..i] + [s[i]] + s[i + 1..];
  }

  lemma TotalDropAt<T>(s: seq<T>, i: nat, w: T -> nat)
    requires i < |s|
    ensures Total(s, w) == Total(DropAt(s, i), w) + w(s[i])
  {
    assert s == s[..i + 1] + s[i + 1..];
    TotalConcat(s[..i + 1], s[i + 1..], w);
    TotalTake(s, i, w);
    TotalConcat(s[..i], s[i + 1..], w);
  }

  /** A total does not depend on the order of the elements. */
  lemma {:induction false} TotalOfPermutation<T>(a: seq<T>, b: seq<T>, w: T -> nat)
    requires multiset(a) == multiset(b)
    ensures Total(a, w) == Total(b, w)
  {
    if a == [] {
      assert |b| == |multiset(b)| == 0;
    } else {
      assert a[0] in multiset(b);
      var i :| 0 <= i < |b| && b[i] == a[0];
      MultisetDropAt(a, 0);
      MultisetDropAt(b, i);
      assert DropAt(a, 0) == a[1..];
      assert multiset(a[1..]) == multiset(DropAt(b, i));
      TotalOfPermutation(a[1..], DropAt(b, i), w);
      TotalDropAt(b, i, w);
    }
  }

  /** A sub-multiset weighs no more than the whole. */
  lemma {:induction false} TotalOfPart<T>(part: seq<T>, whole: seq<T>, w: T -> nat)
    requires multiset(part) <= multiset(whole)
    ensures Total(part, w) <= Total(whole, w)
  {
    if part != [] {
      assert part[0] in multiset(whole);
      var i :| 0 <= i < |whole| && whole[i] == part[0];
      MultisetDropAt(part, 0);
      MultisetDropAt(whole, i);
      assert DropAt(part, 0) == part[1..];
      TotalOfPart(part[1..], DropAt(whole, i), w);
      TotalDropAt(whole, i, w);
    }
  }

  // ----- choosing a subset ------------------------------------------------

  /** The members of `s` that the mask keeps, in order. A mask stands for one
      subset of the positions of `s`. */
  function Pick<T>(s: seq<T>, mask: seq<bool>): (r: seq<T>)
    requires |mask| == |s|
    ensures |r| <= |s|
  {
    if s == [] then []
    else (if mask[0] then [s[0]] else []) + Pick(s[1..], mask[1..])
  }

  lemma PickTotalAtMost<T>(s: seq<T>, mask: seq<bool>, w: T -> nat)
    requires |mask| == |s|
    ensures Total(Pick(s, mask), w) <= Total(s, w)
  {
    if s != [] {
      PickTotalAtMost(s[1..], mask[1..], w);
      if mask[0] {
        assert Pick(s, mask)[1..] == Pick(s[1..], mask[1..]);
      } else {
        assert Pick(s, mask) == Pick(s[1..], mask[1..]);
      }
    }
  }

  // ----- stable sort ------------------------------------------------------

  ghost predicate Descending<T(!new)>(s: seq<T>, key: T -> nat)
  {
    forall i, j :: 0 <= i < j < |s| ==> key(s[i]) >= key(s[j])
  }

  function InsertDesc<T>(x: T, s: seq<T>, key: T -> nat): (r: seq<T>)
    ensures |r| == |s| + 1
  {
    if s == [] || key(x) >= key(s[0]) then [x] + s
    else [s[0]] + InsertDesc(x, s[1..], key)
  }

  /** The stable descending sort: of two members with equal keys the one that
      came first stays first. */
  function SortDesc<T>(s: seq<T>, key: T -> nat): (r: seq<T>)
    ensures |r| == |s|
  {
    if s == [] then [] else InsertDesc(s[0], SortDesc(s[1..], key), key)
  }

  function OfKey<T>(s: seq<T>, key: T -> nat, k: nat): seq<T>
  {
    if s == [] then []
    else (if key(s[0]) == k then [s[0]] else []) + OfKey(s[1..], key, k)
  }

  lemma {:induction false} InsertDescMembers<T>(x: T, s: seq<T>, key: T -> nat)
    ensures multiset(InsertDesc(x, s, key)) == multiset{x} + multiset(s)
  {
    if s != [] && key(x) < key(s[0]) {
      InsertDescMembers(x, s[1..], key);
      assert s == [s[0]] + s[1..];
    }
  }

  lemma {:induction false} InsertDescSorts<T(!new)>(x: T, s: seq<T>, key: T -> nat)
    requires Descending(s, key)
    ensures Descending(InsertDesc(x, s, key), key)
  {
    if s != [] && key(x) < key(s[0]) {
      var rest := InsertDesc(x, s[1..], key);
      InsertDescSorts(x, s[1..], key);
      forall j | 0 <= j < |rest|
        ensures key(s[0]) >= key(rest[j])
      {
        InsertDescMembers(x, s[1..], key);
        assert rest[j] in multiset(rest);
        assert rest[j] == x || rest[j] in s[1..];
      }
    }
  }

  /** The sort orders its input and loses nothing. */
  lemma {:induction false} SortDescSorts<T(!new)>(s: seq<T>, key: T -> nat)
    ensures Descending(SortDesc(s, key), key)
    ensures multiset(SortDesc(s, key)) == multiset(s)
  {
    if s != [] {
      SortDescSorts(s[1..], key);
      InsertDescSorts(s[0], SortDesc(s[1..], key), key);
      InsertDescMembers(s[0], SortDesc(s[1..], key), key);
      assert s == [s[0]] + s[1..];
    }
  }

  lemma OfKeyCons<T>(x: T, s: seq<T>, key: T -> nat, k: nat)
    ensures OfKey([x] + s, key, k) == (if key(x) == k then [x] else []) + OfKey(s, key, k)
  {
    assert ([x] + s)[1..] == s;
  }

  lemma {:induction false} InsertDescStable<T(!new)>(x: T, s: seq<T>, key: T -> nat, k: nat)
    requires Descending(s, key)
    ensures OfKey(InsertDesc(x, s, key), key, k) == (if key(x) == k then [x] else []) + OfKey(s, key, k)
  {
    if s == [] || key(x) >= key(s[0]) {
      OfKeyCons(x, s, key, k);
    } else {
      InsertDescStable(x, s[1..], key, k);
      OfKeyCons(s[0], InsertDesc(x, s[1..], key), key, k);
      var rest := OfKey(s[1..], key, k);
      if key(x) == k {
        assert OfKey(s, key, k) == rest;
      } else {
        assert [] + rest == rest && [] + OfKey(s, key, k) == OfKey(s, key, k);
      }
    }
  }

  /** The sort is stable: members of one key keep their order. */
  lemma {:induction false} SortDescStable<T(!new)>(s: seq<T>, key: T -> nat, k: nat)
    ensures OfKey(SortDesc(s, key), key, k) == OfKey(s, key, k)
  {
    if s != [] {
      SortDescStable(s[1..], key, k);
      SortDescSorts(s[1..], key);
      InsertDescStable(s[0], SortDesc(s[1..], key), key, k);
    }
  }

  function Map<T, U>(f: T -> U, s: seq<T>): (r: seq<U>)
    ensures |r| == |s| && forall i :: 0 <= i < |s| ==> r[i] == f(s[i])
  {
    seq(|s|, i requires 0 <= i < |s| => f(s[i]))
  }

  lemma MapDropAt<T, U>(f: T -> U, s: seq<T>, i: nat)
    requires i < |s|
    ensures Map(f, DropAt(s, i)) == DropAt(Map(f, s), i)
  {
    var a, b := Map(f, DropAt(s, i)), DropAt(Map(f, s), i);
    forall k | 0 <= k < |a|
      ensures a[k] == b[k]
    {
      assert a[k] == f(DropAt(s, i)[k]);
    }
  }

  lemma {:induction false} MapOfPermutation<T, U>(f: T -> U, a: seq<T>, b: seq<T>)
    requires multiset(a) == multiset(b)
    ensures multiset(Map(f, a)) == multiset(Map(f, b))
  {
    if a == [] {
      assert |b| == |multiset(b)| == 0;
    } else {
      assert a[0] in multiset(b);
      var i :| 0 <= i < |b| && b[i] == a[0];
      MultisetDropAt(a, 0);
      MultisetDropAt(b, i);
      MapOfPermutation(f, DropAt(a, 0), DropAt(b, i));
      MapDropAt(f, a, 0);
      MapDropAt(f, b, i);
      SameWithOneMore(Map(f, a), 0, Map(f, b), i);
    }
  }

  lemma SameWithOneMore<T>(a: seq<T>, i: nat, b: seq<T>, j: nat)
    requires i < |a| && j < |b| && a[i] == b[j]
    requires multiset(DropAt(a, i)) == multiset(DropAt(b, j))
    ensures multiset(a) == multiset(b)
  {
    assert a == a[..i] + [a[i]] + a[i + 1..];
    assert b == b[..j] + [b[j]] + b[j + 1..];
    assert multiset(a) == multiset(DropAt(a, i)) + multiset{a[i]};
    assert multiset(b) == multiset(DropAt(b, j)) + multiset{b[j]};
  }

  lemma MapCons<T, U>(f: T -> U, x: T, s: seq<T>)
    ensures Map(f, [x] + s) == [f(x)] + Map(f, s)
  {
  }

  lemma {:induction false} InsertDescMap<T(!new), U>(x: T, s: seq<T>, f: T -> U, keyT: T -> nat, keyU: U -> nat)
    requires forall t :: keyU(f(t)) == keyT(t)
    ensures Map(f, InsertDesc(x, s, keyT)) == InsertDesc(f(x), Map(f, s), keyU)
  {
    if s == [] || keyT(x) >= keyT(s[0]) {
      MapCons(f, x, s);
    } else {
      InsertDescMap(x, s[1..], f, keyT, keyU);
      MapCons(f, s[0], InsertDesc(x, s[1..], keyT));
      assert Map(f, s)[1..] == Map(f, s[1..]);
    }
  }

  /** Sorting commutes with a map that keeps the keys. */
  lemma {:induction false} SortDescMap<T(!new), U>(s: seq<T>, f: T -> U, keyT: T -> nat, keyU: U -> nat)
    requires forall t :: keyU(f(t)) == keyT(t)
    ensures Map(f, SortDesc(s, keyT)) == SortDesc(Map(f, s), keyU)
  {
    if s != [] {
      SortDescMap(s[1..], f, keyT, keyU);
      InsertDescMap(s[0], SortDesc(s[1..], keyT), f, keyT, keyU);
      assert Map(f, s)[1..] == Map(f, s[1..]);
    }
  }

  lemma {:induction false} InsertDescPick<T(!new)>(x: T, s: seq<T>, mask: seq<bool>, keep: bool, key: T -> nat)
    returns (mask': seq<bool>)
    requires |mask| == |s|
    ensures |mask'| == |s| + 1
    ensures multiset(Pick(InsertDesc(x, s, key), mask')) ==
            multiset((if keep then [x] else []) + Pick(s, mask))
  {
    if s == [] || key(x) >= key(s[0]) {
      mask' := [keep] + mask;
      assert ([x] + s)[1..] == s && mask'[1..] == mask;
    } else {
      var inner := InsertDescPick(x, s[1..], mask[1..], keep, key);
      mask' := [mask[0]] + inner;
      assert mask'[1..] == inner;
      assert InsertDesc(x, s, key)[1..] == InsertDesc(x, s[1..], key);
    }
  }

  /** Every subset of a list is, with the same members, a subset of the sorted list. */
  lemma {:induction false} SortDescPick<T(!new)>(s: seq<T>, mask: seq<bool>, key: T -> nat) returns (mask': seq<bool>)
    requires |mask| == |s|
    ensures |mask'| == |s|
    ensures multiset(Pick(SortDesc(s, key), mask')) == multiset(Pick(s, mask))
  {
    if s == [] {
      mask' := [];
    } else {
      var inner := SortDescPick(s[1..], mask[1..], key);
      mask' := InsertDescPick(s[0], SortDesc(s[1..], key), inner, mask[0], key);
    }
  }

  lemma {:induction false} InsertDescUnpick<T(!new)>(x: T, s: seq<T>, mask': seq<bool>, key: T -> nat)
    returns (mask: seq<bool>, keep: bool)
    requires |mask'| == |s| + 1
    ensures |mask| == |s|
    ensures multiset(Pick(InsertDesc(x, s, key), mask')) ==
            multiset((if keep then [x] else []) + Pick(s, mask))
  {
    if s == [] || key(x) >= key(s[0]) {
      mask, keep := mask'[1..], mask'[0];
      assert ([x] + s)[1..] == s;
    } else {
      var inner, keep' := InsertDescUnpick(x, s[1..], mask'[1..], key);
      mask, keep := [mask'[0]] + inner, keep';
      assert mask[1..] == inner;
      assert InsertDesc(x, s, key)[1..] == InsertDesc(x, s[1..], key);
    }
  }

  /** Conversely, every subset of the sorted list is one of the original list. */
  lemma {:induction false} SortDescUnpick<T(!new)>(s: seq<T>, mask': seq<bool>, key: T -> nat) returns (mask: seq<bool>)
    requires |mask'| == |s|
    ensures |mask| == |s|
    ensures multiset(Pick(s, mask)) == multiset(Pick(SortDesc(s, key), mask'))
  {
    if s == [] {
      mask := [];
    } else {
      var inner, keep := InsertDescUnpick(s[0], SortDesc(s[1..], key), mask', key);
      var rest := SortDescUnpick(s[1..], inner, key);
      mask := [keep] + rest;
      assert mask[1..] == rest;
    }
  }

  /** The choice of the first `k` positions. */
  function FirstMask(n: nat, k: nat): (r: seq<bool>)
    ensures |r| == n
  {
    seq(n, i => i < k)
  }

  lemma {:induction false} PickFirst<T>(s: seq<T>, k: nat)
    requires k <= |s|
    ensures Pick(s, FirstMask(|s|, k)) == s[..k]
  {
    if s != [] {
      var m := FirstMask(|s|, k);
      if k == 0 {
        assert m[1..] == FirstMask(|s| - 1, 0);
        PickFirst(s[1..], 0);
      } else {
        assert m[1..] == FirstMask(|s| - 1, k - 1);
        PickFirst(s[1..], k - 1);
        assert s[..k] == [s[0]] + s[1..][..k - 1];
      }
    }
  }

  /** The exchange argument: no choice of some number of members of a list
      sorted by value outweighs the first so many. */
  lemma {:induction false} PrefixOutweighs<T(!new)>(s: seq<T>, mask: seq<bool>, w: T -> nat)
    requires |mask| == |s| && Descending(s, w)
    ensures Total(Pick(s, mask), w) <= Total(s[..|Pick(s, mask)|], w)
  {
    if s != [] {
      var p := Pick(s[1..], mask[1..]);
      PrefixOutweighs(s[1..], mask[1..], w);
      if mask[0] {
        assert Pick(s, mask) == [s[0]] + p;
        assert s[..|p| + 1] == [s[0]] + s[1..][..|p|];
      } else {
        assert Pick(s, mask) == p;
        TailPrefixAtMost(s, |p|, w);
      }
    }
  }

  lemma TailPrefixAtMost<T(!new)>(s: seq<T>, k: nat, w: T -> nat)
    requires s != [] && k < |s| && Descending(s, w)
    ensures Total(s[1..][..k], w) <= Total(s[..k], w)
  {
    if k > 0 {
      TotalTake(s[1..], k - 1, w);
      assert s[..k] == [s[0]] + s[1..][..k - 1];
      assert s[1..][k - 1] == s[k];
      assert w(s[0]) >= w(s[k]);
      assert Total(s[..k], w) == w(s[0]) + Total(s[1..][..k - 1], w);
    }
  }
}
