/** The byte-bounded least-recently-used cache (db/cache.rs). */
module LruCache {
  import opened Common
  import opened Lists

  type Key = seq<byte>

  /** One cached transaction; entries are kept least recently used first. */
  datatype Entry = Entry(key: Key, data: seq<byte>)

  function Bytes(e: Entry): nat { |e.data| }

  function Size(entries: seq<Entry>): nat { Total(entries, Bytes) }

  ghost predicate DistinctKeys(entries: seq<Entry>)
  {
    forall i, j :: 0 <= i < j < |entries| ==> entries[i].key != entries[j].key
  }

  predicate HasKey(entries: seq<Entry>, key: Key)
  {
    exists i :: 0 <= i < |entries| && entries[i].key == key
  }

  // ----- the operations on values -----------------------------------------

  function Without(entries: seq<Entry>, key: Key): (r: seq<Entry>)
  {
    if entries == [] then []
    else if entries[0].key == key then entries[1..]
    else [entries[0]] + Without(entries[1..], key)
  }

  /** Dropping from the front until the rest fits, but keeping `least` entries. */
  function Evict(entries: seq<Entry>, maxSize: nat, least: nat): (r: seq<Entry>)
  {
    if Size(entries) > maxSize && |entries| > least then Evict(entries[1..], maxSize, least) else entries
  }

  /** What the cache holds and how much it may hold. */
  datatype Cache = Cache(entries: seq<Entry>, maxSize: nat)

  function Lookup(entries: seq<Entry>, key: Key): Option<seq<byte>>
  {
    if entries == [] then None
    else if entries[0].key == key then Some(entries[0].data)
    else Lookup(entries[1..], key)
  }

  function Touch(entries: seq<Entry>, key: Key): seq<Entry>
  {
    match Lookup(entries, key)
    case None => entries
    case Some(data) => Without(entries, key) + [Entry(key, data)]
  }

  datatype Op = Set(key: Key, data: seq<byte>) | Get(key: Key) | Remove(key: Key) | Resize(maxSize: nat) | Clear

  function Apply(c: Cache, op: Op): Cache
  {
    match op
    case Set(key, data) => c.(entries := Evict(Without(c.entries, key) + [Entry(key, data)], c.maxSize, 1))
    case Get(key) => c.(entries := Touch(c.entries, key))
    case Remove(key) => c.(entries := Without(c.entries, key))
    case Resize(maxSize) => Cache(Evict(c.entries, maxSize, 0), maxSize)
    case Clear => c.(entries := [])
  }

  function Run(c: Cache, ops: seq<Op>): Cache
    decreases |ops|
  {
    if ops == [] then c else Apply(Run(c, ops[..|ops| - 1]), ops[|ops| - 1])
  }

  // ----- the class --------------------------------------------------------

  class LruCache {
    var entries: seq<Entry>
    var totalSize: nat
    var maxSize: nat

    ghost predicate Valid()
      reads this
    {
      DistinctKeys(entries) && totalSize == Size(entries)
    }

    function Value(): Cache
      reads this
    {
      Cache(entries, maxSize)
    }

    constructor (maxSize: nat)
      ensures Valid() && Value() == Cache([], maxSize)
    {
      this.entries, this.totalSize, this.maxSize := [], 0, maxSize;
    }

    method IndexOf(key: Key) returns (r: Option<nat>)
      ensures r.Some? ==> r.value < |entries| && entries[r.value].key == key
      ensures r.None? ==> forall i :: 0 <= i < |entries| ==> entries[i].key != key
    {
      for i := 0 to |entries|
        invariant forall j :: 0 <= j < i ==> entries[j].key != key
      {
        if entries[i].key == key {
          return Some(i);
        }
      }
      return None;
    }

    /** Taking an entry out by position keeps the byte count exact: the
        saturating subtraction never saturates. */
    method RemoveAt(i: nat)
      requires Valid() && i < |entries|
      modifies this`entries, this`totalSize
      ensures Valid() && entries == Without(old(entries), old(entries)[i].key)
      ensures totalSize == old(totalSize) - |old(entries)[i].data|
    {
      WithoutAt(entries, i);
      TotalDropAt(entries, i, Bytes);
      DistinctDropAt(entries, i);
      var oldData := entries[i].data;
      entries := entries[..i] + entries[i + 1..];
      totalSize := MinusAtZero(totalSize, |oldData|);
    }

    method EvictTo(least: nat)
      requires Valid()
      modifies this`entries, this`totalSize
      ensures Valid() && entries == Evict(old(entries), maxSize, least)
    {
      while totalSize > maxSize && |entries| > least
        invariant Valid() && Evict(entries, maxSize, least) == Evict(old(entries), maxSize, least)
        decreases |entries|
      {
        var oldData := entries[0].data;
        entries := entries[1..];
        totalSize := MinusAtZero(totalSize, |oldData|);
      }
    }

    method Set(key: Key, data: seq<byte>)
      requires Valid()
      modifies this`entries, this`totalSize
      ensures Valid() && Value() == Apply(old(Value()), Op.Set(key, data))
    {
      var idx := IndexOf(key);
      if idx.Some? {
        RemoveAt(idx.value);
      } else {
        WithoutAbsent(entries, key);
      }
      AppendedAfterWithout(old(entries), key, data);
      entries := entries + [Entry(key, data)];
      totalSize := totalSize + |data|;
      EvictTo(1);
    }

    method Get(key: Key) returns (r: Option<seq<byte>>)
      requires Valid()
      modifies this`entries
      ensures Valid() && Value() == Apply(old(Value()), Op.Get(key))
      ensures r == Lookup(old(entries), key)
    {
      var idx := IndexOf(key);
      if idx.Some? {
        var entry := entries[idx.value];
        LookupAt(entries, idx.value);
        WithoutAt(entries, idx.value);
        TouchKeeps(entries, key);
        entries := (entries[..idx.value] + entries[idx.value + 1..]) + [entry];
        return Some(entry.data);
      } else {
        LookupAbsent(entries, key);
        return None;
      }
    }

    method Remove(key: Key)
      requires Valid()
      modifies this`entries, this`totalSize
      ensures Valid() && Value() == Apply(old(Value()), Op.Remove(key))
    {
      var idx := IndexOf(key);
      if idx.Some? {
        RemoveAt(idx.value);
      } else {
        WithoutAbsent(entries, key);
      }
    }

    method SetMaxSize(maxSize: nat)
      requires Valid()
      modifies this
      ensures Valid() && Value() == Apply(old(Value()), Resize(maxSize))
    {
      this.maxSize := maxSize;
      EvictTo(0);
    }

    method ClearAll()
      requires Valid()
      modifies this`entries, this`totalSize
      ensures Valid() && Value() == Apply(old(Value()), Clear)
    {
      entries := [];
      totalSize := 0;
    }
  }

  // ----- facts about the operations ---------------------------------------

  lemma DistinctDropAt(entries: seq<Entry>, i: nat)
    requires DistinctKeys(entries) && i < |entries|
    ensures DistinctKeys(DropAt(entries, i)) && !HasKey(DropAt(entries, i), entries[i].key)
  {
  }

  lemma {:induction false} WithoutAt(entries: seq<Entry>, i: nat)
    requires DistinctKeys(entries) && i < |entries|
    ensures Without(entries, entries[i].key) == DropAt(entries, i) == entries[..i] + entries[i + 1..]
  {
    if i > 0 {
      assert entries[0].key != entries[i].key;
      WithoutAt(entries[1..], i - 1);
      assert DropAt(entries, i) == [entries[0]] + DropAt(entries[1..], i - 1);
    }
  }

  lemma {:induction false} WithoutAbsent(entries: seq<Entry>, key: Key)
    requires forall i :: 0 <= i < |entries| ==> entries[i].key != key
    ensures Without(entries, key) == entries
  {
    if entries != [] {
      WithoutAbsent(entries[1..], key);
    }
  }

  /** Removing a key leaves the other entries as they were, in order. */
  lemma WithoutDrops(entries: seq<Entry>, key: Key)
    requires DistinctKeys(entries)
    ensures DistinctKeys(Without(entries, key)) && !HasKey(Without(entries, key), key)
    ensures forall e :: e in Without(entries, key) <==> e in entries && e.key != key
  {
    if HasKey(entries, key) {
      var i :| 0 <= i < |entries| && entries[i].key == key;
      WithoutAt(entries, i);
      DistinctDropAt(entries, i);
    } else {
      WithoutAbsent(entries, key);
    }
  }

  lemma AppendedAfterWithout(entries: seq<Entry>, key: Key, data: seq<byte>)
    requires DistinctKeys(entries)
    ensures var all := Without(entries, key) + [Entry(key, data)];
            DistinctKeys(all) && Size(all) == Size(Without(entries, key)) + |data|
  {
    WithoutDrops(entries, key);
    TotalConcat(Without(entries, key), [Entry(key, data)], Bytes);
    TotalOfOne(Entry(key, data), Bytes);
  }

  lemma {:induction false} LookupAt(entries: seq<Entry>, i: nat)
    requires DistinctKeys(entries) && i < |entries|
    ensures Lookup(entries, entries[i].key) == Some(entries[i].data)
  {
    if i > 0 {
      assert entries[0].key != entries[i].key;
      LookupAt(entries[1..], i - 1);
    }
  }

  lemma {:induction false} LookupAbsent(entries: seq<Entry>, key: Key)
    requires forall i :: 0 <= i < |entries| ==> entries[i].key != key
    ensures Lookup(entries, key).None?
  {
    if entries != [] {
      LookupAbsent(entries[1..], key);
    }
  }

  lemma TouchAt(entries: seq<Entry>, i: nat)
    requires DistinctKeys(entries) && i < |entries|
    ensures Touch(entries, entries[i].key) == DropAt(entries, i) + [entries[i]]
  {
    WithoutAt(entries, i);
    LookupAt(entries, i);
  }

  lemma TouchAbsent(entries: seq<Entry>, key: Key)
    requires !HasKey(entries, key)
    ensures Touch(entries, key) == entries && Lookup(entries, key).None?
  {
    LookupAbsent(entries, key);
  }

  lemma MovedToEnd(entries: seq<Entry>, i: nat)
    requires DistinctKeys(entries) && i < |entries|
    ensures var moved := DropAt(entries, i) + [entries[i]];
            && DistinctKeys(moved) && Size(moved) == Size(entries)
            && forall e :: e in moved <==> e in entries
  {
    DistinctDropAt(entries, i);
    TotalDropAt(entries, i, Bytes);
    TotalConcat(DropAt(entries, i), [entries[i]], Bytes);
  }

  /** A lookup moves an entry but changes neither the members nor their bytes. */
  lemma TouchKeeps(entries: seq<Entry>, key: Key)
    requires DistinctKeys(entries)
    ensures DistinctKeys(Touch(entries, key)) && Size(Touch(entries, key)) == Size(entries)
    ensures |Touch(entries, key)| == |entries|
    ensures forall e :: e in Touch(entries, key) <==> e in entries
  {
    if HasKey(entries, key) {
      var i :| 0 <= i < |entries| && entries[i].key == key;
      TouchAt(entries, i);
      MovedToEnd(entries, i);
    } else {
      TouchAbsent(entries, key);
    }
  }

  // ----- eviction ---------------------------------------------------------

  /** Eviction drops the shortest least-recently-used prefix that suffices. */
  lemma {:induction false} EvictIsMinimal(entries: seq<Entry>, maxSize: nat, least: nat) returns (dropped: nat)
    ensures dropped <= |entries| && Evict(entries, maxSize, least) == entries[dropped..]
    ensures dropped > 0 ==> dropped + least <= |entries|
    ensures Size(entries[dropped..]) <= maxSize || |entries| - dropped <= least
    ensures forall j :: 0 <= j < dropped ==> Size(entries[j..]) > maxSize && |entries| - j > least
  {
    if Size(entries) > maxSize && |entries| > least {
      var d := EvictIsMinimal(entries[1..], maxSize, least);
      dropped := d + 1;
      forall j | 0 <= j < dropped
        ensures Size(entries[j..]) > maxSize && |entries| - j > least
      {
        if j > 0 {
          assert entries[1..][j - 1..] == entries[j..];
        } else {
          assert entries[0..] == entries;
        }
      }
    } else {
      dropped := 0;
    }
  }

  // ----- every reachable cache --------------------------------------------

  /** Within the limit, or a single entry that is larger than the limit. */
  ghost predicate Bounded(c: Cache)
  {
    DistinctKeys(c.entries) && (Size(c.entries) <= c.maxSize || |c.entries| == 1)
  }

  lemma WithoutSize(entries: seq<Entry>, key: Key)
    requires DistinctKeys(entries)
    ensures Size(Without(entries, key)) <= Size(entries)
    ensures Without(entries, key) == entries || |Without(entries, key)| == |entries| - 1
  {
    if HasKey(entries, key) {
      var i :| 0 <= i < |entries| && entries[i].key == key;
      WithoutAt(entries, i);
      TotalDropAt(entries, i, Bytes);
    } else {
      WithoutAbsent(entries, key);
    }
  }

  lemma ApplyKeepsBounded(c: Cache, op: Op)
    requires Bounded(c)
    ensures Bounded(Apply(c, op))
  {
    match op {
      case Set(key, data) =>
        WithoutDrops(c.entries, key);
        var d := EvictIsMinimal(Without(c.entries, key) + [Entry(key, data)], c.maxSize, 1);
      case Get(key) =>
        TouchKeeps(c.entries, key);
      case Remove(key) =>
        WithoutDrops(c.entries, key);
        WithoutSize(c.entries, key);
      case Resize(maxSize) =>
        var d := EvictIsMinimal(c.entries, maxSize, 0);
      case Clear =>
    }
  }

  /** Main result: however it is used, the cache has distinct keys and stays within
      its byte limit, or holds one entry. */
  lemma {:induction false} AlwaysBounded(maxSize: nat, ops: seq<Op>)
    ensures Bounded(Run(Cache([], maxSize), ops))
    decreases |ops|
  {
    if ops != [] {
      AlwaysBounded(maxSize, ops[..|ops| - 1]);
      ApplyKeepsBounded(Run(Cache([], maxSize), ops[..|ops| - 1]), ops[|ops| - 1]);
    }
  }

  /** The key just set is there, most recent, with its data. */
  lemma JustSetIsLast(c: Cache, key: Key, data: seq<byte>)
    ensures var e := Apply(c, Op.Set(key, data)).entries;
            e != [] && e[|e| - 1] == Entry(key, data)
  {
    var d := EvictIsMinimal(Without(c.entries, key) + [Entry(key, data)], c.maxSize, 1);
  }

  // ----- refinement of an unbounded map -----------------------------------

  /** One operation on the unbounded map that the cache stands for. */
  function ApplyToMap(m: map<Key, seq<byte>>, op: Op): map<Key, seq<byte>>
  {
    match op
    case Set(key, data) => m[key := data]
    case Get(_) => m
    case Remove(key) => m - {key}
    case Resize(_) => m
    case Clear => map[]
  }

  function MapAfter(ops: seq<Op>): map<Key, seq<byte>>
    decreases |ops|
  {
    if ops == [] then map[] else ApplyToMap(MapAfter(ops[..|ops| - 1]), ops[|ops| - 1])
  }

  /** Whatever the cache holds, the map holds with the same data. */
  ghost predicate Agrees(entries: seq<Entry>, m: map<Key, seq<byte>>)
  {
    forall e :: e in entries ==> e.key in m && m[e.key] == e.data
  }

  lemma SetKeepsAgreement(entries: seq<Entry>, m: map<Key, seq<byte>>, key: Key, data: seq<byte>, maxSize: nat)
    requires DistinctKeys(entries) && Agrees(entries, m)
    ensures Agrees(Evict(Without(entries, key) + [Entry(key, data)], maxSize, 1), m[key := data])
  {
    WithoutDrops(entries, key);
    var all := Without(entries, key) + [Entry(key, data)];
    assert Agrees(all, m[key := data]);
    var d := EvictIsMinimal(all, maxSize, 1);
  }

  lemma ApplyKeepsAgreement(c: Cache, m: map<Key, seq<byte>>, op: Op)
    requires DistinctKeys(c.entries) && Agrees(c.entries, m)
    ensures Agrees(Apply(c, op).entries, ApplyToMap(m, op))
  {
    match op {
      case Set(key, data) =>
        SetKeepsAgreement(c.entries, m, key, data, c.maxSize);
      case Get(key) =>
        TouchKeeps(c.entries, key);
      case Remove(key) =>
        WithoutDrops(c.entries, key);
      case Resize(maxSize) =>
        var d := EvictIsMinimal(c.entries, maxSize, 0);
      case Clear =>
    }
  }

  lemma {:induction false} AlwaysAgrees(maxSize: nat, ops: seq<Op>)
    ensures Agrees(Run(Cache([], maxSize), ops).entries, MapAfter(ops))
    decreases |ops|
  {
    if ops != [] {
      AlwaysAgrees(maxSize, ops[..|ops| - 1]);
      AlwaysBounded(maxSize, ops[..|ops| - 1]);
      ApplyKeepsAgreement(Run(Cache([], maxSize), ops[..|ops| - 1]), MapAfter(ops[..|ops| - 1]), ops[|ops| - 1]);
    }
  }

  lemma {:induction false} LookupIsMember(entries: seq<Entry>, key: Key)
    ensures Lookup(entries, key).Some? ==> Entry(key, Lookup(entries, key).value) in entries
    ensures Lookup(entries, key).Some? <==> HasKey(entries, key)
  {
    if entries != [] {
      LookupIsMember(entries[1..], key);
      if HasKey(entries[1..], key) {
        var i :| 0 <= i < |entries| - 1 && entries[1..][i].key == key;
        assert entries[i + 1].key == key;
      }
      if HasKey(entries, key) && entries[0].key != key {
        var i :| 0 <= i < |entries| && entries[i].key == key;
        assert entries[1..][i - 1].key == key;
      }
    }
  }

  /** Main result: after any use, a lookup answers with the value last set and not
      removed since, or not at all. */
  lemma LookupIsLastSetOrNothing(maxSize: nat, ops: seq<Op>, key: Key)
    ensures var r := Lookup(Run(Cache([], maxSize), ops).entries, key);
            r.Some? ==> key in MapAfter(ops) && MapAfter(ops)[key] == r.value
  {
    AlwaysAgrees(maxSize, ops);
    LookupIsMember(Run(Cache([], maxSize), ops).entries, key);
  }

  // ----- what an operation leaves -----------------------------------------

  /** The same entries in the same order, but for the one of this key, if there is one. */
  ghost predicate TakenOut(before: seq<Entry>, key: Key, after: seq<Entry>)
  {
    if HasKey(before, key)
    then exists i :: 0 <= i < |before| && before[i].key == key && after == before[..i] + before[i + 1..]
    else after == before
  }

  /** The entry of this key, if there is one, has gone to the end. */
  ghost predicate MovedLast(before: seq<Entry>, key: Key, after: seq<Entry>)
  {
    if HasKey(before, key)
    then exists i :: 0 <= i < |before| && before[i].key == key && after == before[..i] + before[i + 1..] + [before[i]]
    else after == before
  }

  /** The longest part at the end that fits the limit, or the last `least` entries. */
  ghost predicate LongestPart(all: seq<Entry>, maxSize: nat, least: nat, after: seq<Entry>)
  {
    exists d: nat :: d <= |all| && after == all[d..]
                     && (d == 0 || d + least <= |all|)
                     && (Total(after, Bytes) <= maxSize || |after| <= least)
                     && forall j :: 0 <= j < d ==> Total(all[j..], Bytes) > maxSize
  }

  lemma WithoutTakesOut(entries: seq<Entry>, key: Key)
    requires DistinctKeys(entries)
    ensures TakenOut(entries, key, Without(entries, key))
  {
    if HasKey(entries, key) {
      var i :| 0 <= i < |entries| && entries[i].key == key;
      WithoutAt(entries, i);
    } else {
      WithoutAbsent(entries, key);
    }
  }

  lemma TouchMovesLast(entries: seq<Entry>, key: Key)
    requires DistinctKeys(entries)
    ensures MovedLast(entries, key, Touch(entries, key))
  {
    if HasKey(entries, key) {
      var i :| 0 <= i < |entries| && entries[i].key == key;
      TouchAt(entries, i);
    } else {
      TouchAbsent(entries, key);
    }
  }

  lemma EvictKeepsLongestPart(all: seq<Entry>, maxSize: nat, least: nat)
    ensures LongestPart(all, maxSize, least, Evict(all, maxSize, least))
  {
    var d := EvictIsMinimal(all, maxSize, least);
  }

  /** What the last operation of a run does to what the cache holds, in its order:
      setting a key takes out its entry, appends the new one and drops as few from
      the front as the limit demands; a lookup moves the entry to the end; removing
      takes out one entry; a new limit drops as few from the front as it demands. */
  lemma LastOperation(maxSize: nat, ops: seq<Op>) returns (rest: seq<Entry>)
    requires ops != []
    ensures var before, after := Run(Cache([], maxSize), ops[..|ops| - 1]), Run(Cache([], maxSize), ops);
            match ops[|ops| - 1]
            case Set(key, data) =>
              && TakenOut(before.entries, key, rest)
              && LongestPart(rest + [Entry(key, data)], before.maxSize, 1, after.entries)
            case Get(key) => MovedLast(before.entries, key, after.entries)
            case Remove(key) => TakenOut(before.entries, key, after.entries)
            case Resize(limit) => LongestPart(before.entries, limit, 0, after.entries)
            case Clear => after.entries == []
    ensures Run(Cache([], maxSize), ops).maxSize == LimitAfter(maxSize, ops)
  {
    LimitIsKept(maxSize, ops);
    var before := Run(Cache([], maxSize), ops[..|ops| - 1]);
    AlwaysBounded(maxSize, ops[..|ops| - 1]);
    match ops[|ops| - 1] {
      case Set(key, data) =>
        rest := Without(before.entries, key);
        WithoutTakesOut(before.entries, key);
        EvictKeepsLongestPart(rest + [Entry(key, data)], before.maxSize, 1);
      case Get(key) =>
        rest := [];
        TouchMovesLast(before.entries, key);
      case Remove(key) =>
        rest := [];
        WithoutTakesOut(before.entries, key);
      case Resize(limit) =>
        rest := [];
        EvictKeepsLongestPart(before.entries, limit, 0);
      case Clear =>
        rest := [];
    }
  }

  /** The limit last set. */
  function LimitAfter(maxSize: nat, ops: seq<Op>): nat
    decreases |ops|
  {
    if ops == [] then maxSize
    else if ops[|ops| - 1].Resize? then ops[|ops| - 1].maxSize
    else LimitAfter(maxSize, ops[..|ops| - 1])
  }

  lemma {:induction false} LimitIsKept(maxSize: nat, ops: seq<Op>)
    ensures Run(Cache([], maxSize), ops).maxSize == LimitAfter(maxSize, ops)
    decreases |ops|
  {
    if ops != [] {
      LimitIsKept(maxSize, ops[..|ops| - 1]);
    }
  }

  /** After taking out one key, every other key is looked up as before. */
  lemma OtherKeysStay(before: seq<Entry>, key: Key, after: seq<Entry>, other: Key)
    requires DistinctKeys(before) && TakenOut(before, key, after) && other != key
    ensures Lookup(after, other) == Lookup(before, other)
  {
    if HasKey(before, key) {
      var i :| 0 <= i < |before| && before[i].key == key && after == before[..i] + before[i + 1..];
      LookupConcat(before[..i], before[i + 1..], other);
      LookupConcat(before[..i], before[i..], other);
      assert before == before[..i] + before[i..];
      assert before[i..][1..] == before[i + 1..];
    }
  }

  /** The same when the entry of a key goes to the end. */
  lemma OtherKeysStayToo(before: seq<Entry>, key: Key, after: seq<Entry>, other: Key)
    requires DistinctKeys(before) && MovedLast(before, key, after) && other != key
    ensures Lookup(after, other) == Lookup(before, other)
  {
    if HasKey(before, key) {
      var i :| 0 <= i < |before| && before[i].key == key && after == before[..i] + before[i + 1..] + [before[i]];
      var rest := before[..i] + before[i + 1..];
      OtherKeysStay(before, key, rest, other);
      LookupConcat(rest, [before[i]], other);
    }
  }

  lemma {:induction false} LookupConcat(a: seq<Entry>, b: seq<Entry>, key: Key)
    ensures Lookup(a + b, key) == if Lookup(a, key).Some? then Lookup(a, key) else Lookup(b, key)
  {
    if a == [] {
      assert a + b == b;
    } else {
      assert (a + b)[1..] == a[1..] + b;
      LookupConcat(a[1..], b, key);
    }
  }

  /** Neither removing a key nor looking it up changes the answer for another key. */
  lemma RemoveAndGetKeepOthers(maxSize: nat, ops: seq<Op>, key: Key, other: Key)
    requires other != key && ops != [] && ops[|ops| - 1] in {Op.Remove(key), Op.Get(key)}
    ensures Lookup(Run(Cache([], maxSize), ops).entries, other)
            == Lookup(Run(Cache([], maxSize), ops[..|ops| - 1]).entries, other)
  {
    var before := Run(Cache([], maxSize), ops[..|ops| - 1]).entries;
    var after := Run(Cache([], maxSize), ops).entries;
    AlwaysBounded(maxSize, ops[..|ops| - 1]);
    var rest := LastOperation(maxSize, ops);
    if ops[|ops| - 1].Remove? {
      OtherKeysStay(before, key, after, other);
    } else {
      OtherKeysStayToo(before, key, after, other);
    }
  }

  // ----- nothing is lost without need -------------------------------------

  /** The bytes of everything the map holds. */
  ghost function MapBytes(m: map<Key, seq<byte>>): nat
    decreases |m|
  {
    if m == map[] then 0
    else
      var k :| k in m;
      |m[k]| + MapBytes(m - {k})
  }

  /** It does not matter in which order they are counted. */
  lemma {:induction false} MapBytesWithout(m: map<Key, seq<byte>>, key: Key)
    requires key in m
    ensures MapBytes(m) == |m[key]| + MapBytes(m - {key})
    decreases |m|
  {
    var k :| k in m && MapBytes(m) == |m[k]| + MapBytes(m - {k});
    if k != key {
      MapBytesWithout(m - {k}, key);
      MapBytesWithout(m - {key}, k);
      assert m - {k} - {key} == m - {key} - {k};
    }
  }

  /** The cache holds all of the map. */
  ghost predicate HoldsAll(entries: seq<Entry>, m: map<Key, seq<byte>>)
  {
    && DistinctKeys(entries) && Agrees(entries, m)
    && forall key :: key in m ==> HasKey(entries, key)
  }

  lemma {:induction false} SizeOfAll(entries: seq<Entry>, m: map<Key, seq<byte>>)
    requires HoldsAll(entries, m)
    ensures Size(entries) == MapBytes(m)
    decreases |entries|
  {
    if entries == [] {
      assert forall key :: key in m ==> HasKey([], key);
      assert m == map[];
    } else {
      var e := entries[0];
      FirstTakenOut(entries, m);
      SizeOfAll(entries[1..], m - {e.key});
      MapBytesWithout(m, e.key);
    }
  }

  lemma FirstTakenOut(entries: seq<Entry>, m: map<Key, seq<byte>>)
    requires HoldsAll(entries, m) && entries != []
    ensures HoldsAll(entries[1..], m - {entries[0].key})
  {
    var rest := entries[1..];
    forall key | key in m && key != entries[0].key
      ensures HasKey(rest, key)
    {
      var i :| 0 <= i < |entries| && entries[i].key == key;
      assert rest[i - 1].key == key;
    }
  }

  lemma SetHoldsAll(entries: seq<Entry>, m: map<Key, seq<byte>>, key: Key, data: seq<byte>)
    requires HoldsAll(entries, m)
    ensures HoldsAll(Without(entries, key) + [Entry(key, data)], m[key := data])
  {
    WithoutDrops(entries, key);
    var rest := Without(entries, key);
    var all := rest + [Entry(key, data)];
    forall k | k in m[key := data]
      ensures HasKey(all, k)
    {
      if k == key {
        assert all[|rest|].key == key;
      } else {
        StillThere(entries, rest, k, key);
        var j :| 0 <= j < |rest| && rest[j].key == k;
        assert all[j].key == k;
      }
    }
  }

  lemma StillThere(entries: seq<Entry>, rest: seq<Entry>, k: Key, key: Key)
    requires HasKey(entries, k) && k != key
    requires forall e :: e in rest <==> e in entries && e.key != key
    ensures HasKey(rest, k)
  {
    var i :| 0 <= i < |entries| && entries[i].key == k;
    assert entries[i] in rest;
    var j :| 0 <= j < |rest| && rest[j] == entries[i];
  }

  lemma RemoveHoldsAll(entries: seq<Entry>, m: map<Key, seq<byte>>, key: Key)
    requires HoldsAll(entries, m)
    ensures HoldsAll(Without(entries, key), m - {key})
  {
    WithoutDrops(entries, key);
    forall k | k in m - {key}
      ensures HasKey(Without(entries, key), k)
    {
      StillThere(entries, Without(entries, key), k, key);
    }
  }

  lemma GetHoldsAll(entries: seq<Entry>, m: map<Key, seq<byte>>, key: Key)
    requires HoldsAll(entries, m)
    ensures HoldsAll(Touch(entries, key), m)
  {
    TouchKeeps(entries, key);
    forall k | k in m
      ensures HasKey(Touch(entries, key), k)
    {
      var i :| 0 <= i < |entries| && entries[i].key == k;
      assert entries[i] in Touch(entries, key);
      var j :| 0 <= j < |Touch(entries, key)| && Touch(entries, key)[j] == entries[i];
    }
  }

  /** At every moment all that was set and not removed fits the limit in force. */
  ghost predicate AlwaysFits(maxSize: nat, ops: seq<Op>)
  {
    forall n :: 0 <= n <= |ops| ==> MapBytes(MapAfter(ops[..n])) <= LimitAfter(maxSize, ops[..n])
  }

  lemma {:induction false} AlwaysHoldsAll(maxSize: nat, ops: seq<Op>)
    requires AlwaysFits(maxSize, ops)
    ensures HoldsAll(Run(Cache([], maxSize), ops).entries, MapAfter(ops))
    decreases |ops|
  {
    if ops != [] {
      var before := ops[..|ops| - 1];
      forall n | 0 <= n <= |before|
        ensures MapBytes(MapAfter(before[..n])) <= LimitAfter(maxSize, before[..n])
      {
        assert before[..n] == ops[..n];
      }
      AlwaysHoldsAll(maxSize, before);
      assert ops[..|ops|] == ops;
      ApplyHoldsAll(maxSize, ops);
    }
  }

  lemma ApplyHoldsAll(maxSize: nat, ops: seq<Op>)
    requires ops != [] && HoldsAll(Run(Cache([], maxSize), ops[..|ops| - 1]).entries, MapAfter(ops[..|ops| - 1]))
    requires MapBytes(MapAfter(ops)) <= LimitAfter(maxSize, ops)
    ensures HoldsAll(Run(Cache([], maxSize), ops).entries, MapAfter(ops))
  {
    var before := ops[..|ops| - 1];
    var entries, m := Run(Cache([], maxSize), before).entries, MapAfter(before);
    LimitIsKept(maxSize, before);
    match ops[|ops| - 1] {
      case Set(key, data) =>
        SetHoldsAll(entries, m, key, data);
        SizeOfAll(Without(entries, key) + [Entry(key, data)], m[key := data]);
      case Get(key) => GetHoldsAll(entries, m, key);
      case Remove(key) => RemoveHoldsAll(entries, m, key);
      case Resize(_) => SizeOfAll(entries, m);
      case Clear =>
    }
  }

  /** Main result, retention: as long as everything set and not removed has fitted
      the limits in force, the cache is the unbounded map. */
  lemma NothingIsLostWithoutNeed(maxSize: nat, ops: seq<Op>, key: Key)
    requires AlwaysFits(maxSize, ops)
    ensures Lookup(Run(Cache([], maxSize), ops).entries, key)
            == if key in MapAfter(ops) then Some(MapAfter(ops)[key]) else None
  {
    AlwaysHoldsAll(maxSize, ops);
    LookupIsMember(Run(Cache([], maxSize), ops).entries, key);
  }

  // ----- order of use -----------------------------------------------------

  /** The position, counted from one, of the last set or lookup of a key. */
  function LastUse(ops: seq<Op>, key: Key): nat
    decreases |ops|
  {
    if ops == [] then 0
    else
      var op := ops[|ops| - 1];
      if (op.Set? || op.Get?) && op.key == key then |ops| else LastUse(ops[..|ops| - 1], key)
  }

  lemma LastUseBounded(ops: seq<Op>, key: Key)
    ensures LastUse(ops, key) <= |ops|
    decreases |ops|
  {
  }

  ghost predicate InOrderOfUse(entries: seq<Entry>, ops: seq<Op>)
  {
    forall i, j :: 0 <= i < j < |entries| ==> LastUse(ops, entries[i].key) < LastUse(ops, entries[j].key)
  }

  /** Entries other than the one used keep their order of use; the one used goes last. */
  lemma UsedGoesLast(entries: seq<Entry>, ops: seq<Op>, e: Entry)
    requires ops != [] && (ops[|ops| - 1].Set? || ops[|ops| - 1].Get?) && ops[|ops| - 1].key == e.key
    requires InOrderOfUse(entries, ops[..|ops| - 1]) && !HasKey(entries, e.key)
    ensures InOrderOfUse(entries + [e], ops)
  {
    var all := entries + [e];
    forall i, j | 0 <= i < j < |all|
      ensures LastUse(ops, all[i].key) < LastUse(ops, all[j].key)
    {
      assert all[i] == entries[i] && entries[i].key != e.key;
      LastUseBounded(ops[..|ops| - 1], all[i].key);
    }
  }

  lemma OrderWithout(entries: seq<Entry>, ops: seq<Op>, key: Key)
    requires DistinctKeys(entries) && InOrderOfUse(entries, ops)
    ensures InOrderOfUse(Without(entries, key), ops)
  {
    if HasKey(entries, key) {
      var i :| 0 <= i < |entries| && entries[i].key == key;
      WithoutAt(entries, i);
    } else {
      WithoutAbsent(entries, key);
    }
  }

  lemma ApplyKeepsOrder(c: Cache, ops: seq<Op>)
    requires ops != [] && DistinctKeys(c.entries) && InOrderOfUse(c.entries, ops[..|ops| - 1])
    ensures InOrderOfUse(Apply(c, ops[|ops| - 1]).entries, ops)
  {
    var before := ops[..|ops| - 1];
    match ops[|ops| - 1] {
      case Set(key, data) =>
        WithoutDrops(c.entries, key);
        OrderWithout(c.entries, before, key);
        UsedGoesLast(Without(c.entries, key), ops, Entry(key, data));
        var d := EvictIsMinimal(Without(c.entries, key) + [Entry(key, data)], c.maxSize, 1);
      case Get(key) =>
        GetKeepsOrder(c.entries, ops, key);
      case Remove(key) =>
        OrderWithout(c.entries, before, key);
      case Resize(maxSize) =>
        var d := EvictIsMinimal(c.entries, maxSize, 0);
      case Clear =>
    }
  }

  lemma GetKeepsOrder(entries: seq<Entry>, ops: seq<Op>, key: Key)
    requires ops != [] && ops[|ops| - 1] == Op.Get(key)
    requires DistinctKeys(entries) && InOrderOfUse(entries, ops[..|ops| - 1])
    ensures InOrderOfUse(Touch(entries, key), ops)
  {
    LookupIsMember(entries, key);
    if HasKey(entries, key) {
      WithoutDrops(entries, key);
      OrderWithout(entries, ops[..|ops| - 1], key);
      UsedGoesLast(Without(entries, key), ops, Entry(key, Lookup(entries, key).value));
    } else {
      forall i | 0 <= i < |entries|
        ensures LastUse(ops, entries[i].key) == LastUse(ops[..|ops| - 1], entries[i].key)
      {
      }
    }
  }

  /** Main result: at every moment the entries stand in the order of their last use. */
  lemma {:induction false} AlwaysInOrderOfUse(maxSize: nat, ops: seq<Op>)
    ensures InOrderOfUse(Run(Cache([], maxSize), ops).entries, ops)
    decreases |ops|
  {
    if ops != [] {
      AlwaysInOrderOfUse(maxSize, ops[..|ops| - 1]);
      AlwaysBounded(maxSize, ops[..|ops| - 1]);
      ApplyKeepsOrder(Run(Cache([], maxSize), ops[..|ops| - 1]), ops);
    }
  }

  // ----- inclusion --------------------------------------------------------

  predicate Suffix(small: seq<Entry>, large: seq<Entry>)
  {
    |small| <= |large| && large[|large| - |small|..] == small
  }

  lemma {:induction false} WithoutKeepsSuffix(small: seq<Entry>, large: seq<Entry>, key: Key)
    requires Suffix(small, large) && DistinctKeys(large)
    ensures Suffix(Without(small, key), Without(large, key))
    decreases |large|
  {
    if |small| < |large| {
      var rest := large[1..];
      assert rest[|rest| - |small|..] == small;
      if large[0].key == key {
        forall i | 0 <= i < |small|
          ensures small[i].key != key
        {
          assert small[i] == large[|large| - |small| + i];
        }
        WithoutAbsent(small, key);
      } else {
        WithoutKeepsSuffix(small, rest, key);
        assert Without(large, key)[1..] == Without(rest, key);
      }
    } else {
      assert large[0..] == large;
    }
  }

  /** A larger limit keeps at least what a smaller one keeps. */
  lemma {:induction false} EvictKeepsSuffix(small: seq<Entry>, large: seq<Entry>, smallMax: nat, largeMax: nat, least: nat)
    requires Suffix(small, large) && smallMax <= largeMax
    ensures Suffix(Evict(small, smallMax, least), Evict(large, largeMax, least))
    decreases |large|
  {
    if Size(large) > largeMax && |large| > least {
      if |small| == |large| {
        assert large[0..] == large;
        assert large[1..][0..] == small[1..];
        EvictKeepsSuffix(small[1..], large[1..], smallMax, largeMax, least);
      } else {
        assert large[1..][|large| - 1 - |small|..] == small;
        EvictKeepsSuffix(small, large[1..], smallMax, largeMax, least);
      }
    } else {
      var d := EvictIsMinimal(small, smallMax, least);
      assert large[|large| - (|small| - d)..] == small[d..];
    }
  }

  predicate NoLookups(ops: seq<Op>)
  {
    forall i :: 0 <= i < |ops| ==> ops[i].Set? || ops[i].Remove? || ops[i].Clear?
  }

  /** Main result, inclusion: fed the same sets and removals, a cache with a smaller
      limit always holds a most-recent part of what a larger one holds. */
  lemma {:induction false} SmallerIsSuffixOfLarger(smallMax: nat, largeMax: nat, ops: seq<Op>)
    requires smallMax <= largeMax && NoLookups(ops)
    ensures Suffix(Run(Cache([], smallMax), ops).entries, Run(Cache([], largeMax), ops).entries)
    ensures Run(Cache([], smallMax), ops).maxSize == smallMax && Run(Cache([], largeMax), ops).maxSize == largeMax
    decreases |ops|
  {
    if ops != [] {
      var before := ops[..|ops| - 1];
      SmallerIsSuffixOfLarger(smallMax, largeMax, before);
      AlwaysBounded(largeMax, before);
      var small := Run(Cache([], smallMax), before).entries;
      var large := Run(Cache([], largeMax), before).entries;
      var op := ops[|ops| - 1];
      if op.Set? {
        WithoutKeepsSuffix(small, large, op.key);
        var small', large' := Without(small, op.key) + [Entry(op.key, op.data)], Without(large, op.key) + [Entry(op.key, op.data)];
        assert Suffix(small', large');
        EvictKeepsSuffix(small', large', smallMax, largeMax, 1);
      } else if op.Remove? {
        WithoutKeepsSuffix(small, large, op.key);
      }
    }
  }

  /** Lookups are what inclusion cannot stand: one keeps it exactly when it treats
      both caches alike, or the smaller is empty. */
  lemma LookupKeepsInclusionIff(small: seq<Entry>, large: seq<Entry>, key: Key)
    requires Suffix(small, large) && DistinctKeys(large)
    ensures Suffix(Touch(small, key), Touch(large, key)) <==>
            HasKey(small, key) == HasKey(large, key) || small == []
  {
    LookupIsMember(small, key);
    LookupIsMember(large, key);
    if HasKey(small, key) {
      HitInBoth(small, large, key);
    } else if HasKey(large, key) && small != [] {
      TouchKeeps(large, key);
      LookupHitMovesLast(small, large, key);
    }
  }

  const A: Key := [1]
  const B: Key := [2]

  /** Two one-byte entries are set, and the older is looked up. */
  const LOOKUP_RUN: seq<Op> := [Op.Set(A, [10]), Op.Set(B, [20]), Op.Get(A)]

  /** A run on which a lookup does break it: with room for one byte only B is left
      and the lookup misses; with room for two the lookup makes A the last. */
  lemma LookupBreaksInclusion()
    ensures Run(Cache([], 1), LOOKUP_RUN).entries == [Entry(B, [20])]
    ensures Run(Cache([], 2), LOOKUP_RUN).entries == [Entry(B, [20]), Entry(A, [10])]
    ensures !Suffix(Run(Cache([], 1), LOOKUP_RUN).entries, Run(Cache([], 2), LOOKUP_RUN).entries)
  {
    var a, b := Entry(A, [10]), Entry(B, [20]);
    TotalOfOne(a, Bytes);
    TotalOfOne(b, Bytes);
    assert Size([b, a]) == Bytes(b) + Size([a]) by {
      assert [b, a][1..] == [a];
    }
    assert Size([a, b]) == Bytes(a) + Size([b]) by {
      assert [a, b][1..] == [b];
    }
    SetTwice(1);
    SetTwice(2);
    assert LOOKUP_RUN[..2] == [Op.Set(A, [10]), Op.Set(B, [20])];
    assert Without([b], A) == [b] by {
      WithoutAbsent([b], A);
    }
    TouchAbsent([b], A);
    TouchAt([a, b], 0);
    assert DropAt([a, b], 0) == [b];
  }

  /** What the two sets leave. */
  lemma SetTwice(maxSize: nat)
    requires 1 <= maxSize <= 2
    ensures var a, b := Entry(A, [10]), Entry(B, [20]);
            Run(Cache([], maxSize), [Op.Set(A, [10]), Op.Set(B, [20])])
            == Cache(if maxSize == 1 then [b] else [a, b], maxSize)
  {
    var a, b := Entry(A, [10]), Entry(B, [20]);
    var ops := [Op.Set(A, [10]), Op.Set(B, [20])];
    TotalOfOne(a, Bytes);
    TotalOfOne(b, Bytes);
    assert [a, b][1..] == [b];
    assert ops[..1] == [Op.Set(A, [10])] && ops[..1][..0] == [];
    assert Run(Cache([], maxSize), ops[..1]) == Apply(Cache([], maxSize), ops[0]);
    assert Without([], A) + [a] == [a];
    assert Apply(Cache([], maxSize), ops[0]) == Cache([a], maxSize);
    assert Run(Cache([], maxSize), ops) == Apply(Cache([a], maxSize), ops[1]);
    assert Evict([b], maxSize, 1) == [b];
    WithoutAbsent([a], B);
    assert Without([a], B) + [b] == [a, b];
  }

  lemma HitInBoth(small: seq<Entry>, large: seq<Entry>, key: Key)
    requires Suffix(small, large) && DistinctKeys(large) && HasKey(small, key)
    ensures HasKey(large, key) && Suffix(Touch(small, key), Touch(large, key))
  {
    SameLookup(small, large, key);
    WithoutKeepsSuffix(small, large, key);
  }

  lemma SameLookup(small: seq<Entry>, large: seq<Entry>, key: Key)
    requires Suffix(small, large) && DistinctKeys(large) && HasKey(small, key)
    ensures HasKey(large, key) && Lookup(small, key).Some? && Lookup(small, key) == Lookup(large, key)
  {
    var i :| 0 <= i < |small| && small[i].key == key;
    var j := |large| - |small| + i;
    assert large[j] == small[i];
    LookupAt(small, i);
    LookupAt(large, j);
  }

  lemma LookupHitMovesLast(small: seq<Entry>, large: seq<Entry>, key: Key)
    requires small != [] && !HasKey(small, key) && Lookup(large, key).Some?
    ensures !Suffix(small, Touch(large, key))
  {
    var touched := Touch(large, key);
    assert touched[|touched| - 1].key == key;
    if Suffix(small, touched) {
      SuffixSharesLast(small, touched);
    }
  }

  lemma SuffixSharesLast(small: seq<Entry>, large: seq<Entry>)
    requires small != [] && Suffix(small, large)
    ensures small[|small| - 1] == large[|large| - 1]
  {
  }
}
