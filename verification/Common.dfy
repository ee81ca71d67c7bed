/** What every module shares: fixed-width integers, bytes, the outcomes that stand
    for Rust's `Option` and `Result`, and a little about sets. */
module Common {

  const U64_MAX: nat := 0xFFFF_FFFF_FFFF_FFFF
  const U32_MAX: nat := 0xFFFF_FFFF

  type u64 = x: nat | x <= U64_MAX
  type u32 = x: nat | x <= U32_MAX
  type byte = x: nat | x < 256

  datatype Option<+T> = None | Some(value: T)

  datatype Result<+T, +E> = Ok(value: T) | Err(error: E)

  /** 256 to the power `k`. */
  function Pow256(k: nat): (r: nat)
    ensures r > 0
  {
    if k == 0 then 1 else 256 * Pow256(k - 1)
  }

  /** Bytes as a number, the most significant first. */
  function BigEndian(b: seq<byte>): nat
  {
    if b == [] then 0 else 256 * BigEndian(b[..|b| - 1]) + b[|b| - 1]
  }

  /** One byte is its own value, and bytes before others are worth that much more. */
  lemma {:induction false} BigEndianConcat(a: seq<byte>, b: seq<byte>)
    ensures |b| == 1 ==> BigEndian(b) == b[0]
    ensures BigEndian(a + b) == BigEndian(a) * Pow256(|b|) + BigEndian(b)
    decreases |b|
  {
    if b == [] {
      assert a + b == a;
    } else {
      var front, last := b[..|b| - 1], b[|b| - 1];
      assert a + b == (a + front) + [last];
      BigEndianAppend(a + front, last);
      BigEndianConcat(a, front);
      Regroup(BigEndian(a), Pow256(|front|));
      assert |b| == 1 ==> front == [];
    }
  }

  lemma BigEndianAppend(a: seq<byte>, b: byte)
    ensures BigEndian(a + [b]) == 256 * BigEndian(a) + b
  {
    assert (a + [b])[..|a|] == a;
  }

  lemma Regroup(a: nat, b: nat)
    ensures 256 * (a * b) == a * (256 * b)
  {
  }

  /** Bytes as a number, the least significant first. */
  function LittleEndian(b: seq<byte>): nat
  {
    if b == [] then 0 else 256 * LittleEndian(b[1..]) + b[0]
  }

  /** One byte is its own value, and bytes after others are worth that much more. */
  lemma {:induction false} LittleEndianConcat(a: seq<byte>, b: seq<byte>)
    ensures |a| == 1 ==> LittleEndian(a) == a[0]
    ensures LittleEndian(a + b) == LittleEndian(a) + LittleEndian(b) * Pow256(|a|)
    decreases |a|
  {
    if a == [] {
      assert a + b == b;
    } else {
      var first, rest := a[0], a[1..];
      assert (a + b)[1..] == rest + b;
      LittleEndianConcat(rest, b);
      Regroup(LittleEndian(b), Pow256(|rest|));
      assert |a| == 1 ==> rest == [];
    }
  }

  /** Rust's `saturating_sub` on unsigned numbers. */
  function MinusAtZero(a: nat, b: nat): nat { if a >= b then a - b else 0 }

  /** A set that is not empty has a member to take. */
  lemma SomeIn<T>(s: set<T>) returns (x: T)
    requires s != {}
    ensures x in s
  {
    x :| x in s;
  }
}
