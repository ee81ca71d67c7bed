/** Legacy key derivation: the public and the private way to one child key
    (core/legacy_keystore.rs). The curve and the hashes are parameters. */
module LegacyKeystore {
  import opened Common

  type Bytes = seq<byte>

  /** The group of points with its generator, and the SDK's point serialization. */
  datatype Curve<!P(!new)> = Curve(add: (P, P) -> P, zero: P, gen: P, order: nat,
                              encode: P -> Bytes, decode: Bytes -> Option<P>)

  ghost predicate AssociatesAt<P(!new)>(c: Curve<P>, x: P, y: P, z: P)
  {
    c.add(c.add(x, y), z) == c.add(x, c.add(y, z))
  }

  ghost predicate ZeroAddsNothingTo<P(!new)>(c: Curve<P>, x: P)
  {
    c.add(c.zero, x) == x
  }

  ghost predicate RoundTripsAt<P(!new)>(c: Curve<P>, x: P)
  {
    |c.encode(x)| == 64 && c.decode(c.encode(x)) == Some(x)
  }

  /** The group laws the derivations rest on. */
  ghost predicate IsGroup<P(!new)>(c: Curve<P>)
  {
    && (forall x, y, z :: AssociatesAt(c, x, y, z))
    && (forall x :: ZeroAddsNothingTo(c, x))
  }

  /** `k` times a point. */
  function Mul<P(!new)>(c: Curve<P>, k: nat, p: P): P
  {
    if k == 0 then c.zero else c.add(p, Mul(c, k - 1, p))
  }

  /** The curves of the model: a group whose generator has the stated order, and
      64-byte encodings that decode to the point they came from. */
  ghost predicate IsCurve<P(!new)>(c: Curve<P>)
  {
    && IsGroup(c) && c.order > 0 && Mul(c, c.order, c.gen) == c.zero
    && forall x :: RoundTripsAt(c, x)
  }

  lemma {:induction false} MulAdd<P(!new)>(c: Curve<P>, a: nat, b: nat, p: P)
    requires IsGroup(c)
    ensures Mul(c, a + b, p) == c.add(Mul(c, a, p), Mul(c, b, p))
    decreases a
  {
    if a > 0 {
      MulAdd(c, a - 1, b, p);
      assert AssociatesAt(c, p, Mul(c, a - 1, p), Mul(c, b, p));
    } else {
      assert ZeroAddsNothingTo(c, Mul(c, b, p));
    }
  }

  lemma {:induction false} MulOfOrder<P(!new)>(c: Curve<P>, q: nat)
    requires IsCurve(c)
    ensures q * c.order >= 0 && Mul(c, q * c.order, c.gen) == c.zero
    decreases q
  {
    if q > 0 {
      MulOfOrder(c, q - 1);
      MulAdd(c, c.order, (q - 1) * c.order, c.gen);
      assert q * c.order == c.order + (q - 1) * c.order;
      assert ZeroAddsNothingTo(c, c.zero);
    }
  }

  /** Reducing a scalar by the order does not change its point. */
  lemma MulReduced<P(!new)>(c: Curve<P>, k: nat)
    requires IsCurve(c)
    ensures Mul(c, k % c.order, c.gen) == Mul(c, k, c.gen)
  {
    var q, r := k / c.order, k % c.order;
    assert k == q * c.order + r;
    MulOfOrder(c, q);
    MulAdd(c, q * c.order, r, c.gen);
    assert ZeroAddsNothingTo(c, Mul(c, r, c.gen));
  }

  // ----- seeds and sequences ----------------------------------------------

  const STRETCH_ROUNDS: nat := 100_000

  /** `rounds` rounds of hashing the running value with the seed. */
  function Stretched(sha256: Bytes -> Bytes, seed: Bytes, rounds: nat): Bytes
  {
    if rounds == 0 then seed else sha256(Stretched(sha256, seed, rounds - 1) + seed)
  }

  /** The master secret of a seed: all the rounds, read as a number. */
  function MasterSecret(sha256: Bytes -> Bytes, seed: Bytes): nat
  {
    BigEndian(Stretched(sha256, seed, STRETCH_ROUNDS))
  }

  /** With 32-byte digests the secret fits the 32 bytes it is passed on in. */
  lemma {:induction false} SecretFits(b: Bytes)
    ensures BigEndian(b) < Pow256(|b|)
  {
    if b != [] {
      SecretFits(b[..|b| - 1]);
    }
  }

  method StretchKey(sha256: Bytes -> Bytes, seed: Bytes) returns (secexp: nat)
    ensures secexp == MasterSecret(sha256, seed)
    ensures (forall b :: |sha256(b)| == 32) ==> secexp < Pow256(32)
  {
    var x := seed;
    for i := 0 to STRETCH_ROUNDS
      invariant x == Stretched(sha256, seed, i)
    {
      x := sha256(x + seed);
    }
    SecretFits(x);
    secexp := BigEndian(x);
  }

  /** All that stretching goes through: the seed, and a hundred thousand times the
      hash of what came before followed by the seed. */
  ghost predicate Stretches(sha256: Bytes -> Bytes, seed: Bytes, trace: seq<Bytes>)
  {
    && |trace| == 100_001 && trace[0] == seed
    && forall i :: 0 <= i < 100_000 ==> trace[i + 1] == sha256(trace[i] + seed)
  }

  lemma {:induction false} StretchedGoesThrough(sha256: Bytes -> Bytes, seed: Bytes, trace: seq<Bytes>, i: nat)
    requires Stretches(sha256, seed, trace) && i <= 100_000
    ensures trace[i] == Stretched(sha256, seed, i)
    decreases i
  {
    if i > 0 {
      StretchedGoesThrough(sha256, seed, trace, i - 1);
      assert trace[i - 1 + 1] == sha256(trace[i - 1] + seed);
    }
  }

  /** The master secret is the end of that, as a number, most significant byte first. */
  lemma MasterSecretIsLast(sha256: Bytes -> Bytes, seed: Bytes) returns (trace: seq<Bytes>)
    ensures Stretches(sha256, seed, trace) && MasterSecret(sha256, seed) == BigEndian(trace[100_000])
    ensures forall other :: Stretches(sha256, seed, other) ==> other == trace
  {
    trace := seq(100_001, i requires 0 <= i < 100_001 => Stretched(sha256, seed, i));
    forall other | Stretches(sha256, seed, other)
      ensures other == trace
    {
      forall i | 0 <= i < 100_001
        ensures other[i] == trace[i]
      {
        StretchedGoesThrough(sha256, seed, other, i);
      }
    }
  }

  const COLON: byte := 58
  const ZERO: byte := 48

  /** Decimal digits, as `format!` prints them. */
  function Decimal(n: nat): (r: Bytes)
    ensures r != [] && COLON !in r
  {
    if n < 10 then [ZERO + n] else Decimal(n / 10) + [ZERO + n % 10]
  }

  /** The bytes hashed for one child: index before change. */
  function SequenceData(mpk: Bytes, change: u32, index: u32): Bytes
  {
    Decimal(index) + [COLON] + Decimal(change) + [COLON] + mpk
  }

  function Sequence(sha256: Bytes -> Bytes, mpk: Bytes, change: u32, index: u32): nat
  {
    BigEndian(sha256(sha256(SequenceData(mpk, change, index))))
  }

  // ----- the two derivations ----------------------------------------------

  datatype KeyError = InvalidMpkLength(length: nat) | InvalidPoint | InvalidSecret

  /** `derive_mpk` from the stretched secret; the SDK may refuse a secret. */
  function DeriveMpk<P(!new)>(c: Curve<P>, accepts: nat -> bool, secexp: nat): Result<Bytes, KeyError>
  {
    if accepts(secexp) then Ok(c.encode(Mul(c, secexp, c.gen))) else Err(InvalidSecret)
  }

  function DerivePubkey<P(!new)>(c: Curve<P>, sha256: Bytes -> Bytes, mpk: Bytes, change: u32, index: u32): Result<P, KeyError>
  {
    if |mpk| != 64 then Err(InvalidMpkLength(|mpk|))
    else match c.decode(mpk)
      case None => Err(InvalidPoint)
      case Some(master) => Ok(c.add(master, Mul(c, Sequence(sha256, mpk, change, index), c.gen)))
  }

  function DerivePrivateKey<P(!new)>(c: Curve<P>, sha256: Bytes -> Bytes, secexp: nat, mpk: Bytes, change: u32, index: u32): nat
    requires c.order > 0
  {
    (secexp + Sequence(sha256, mpk, change, index)) % c.order
  }

  /** Main result: for every seed that has a master public key, and every change
      and index, the key derived without the secret is the public point of the key
      derived with it, however large the offset. */
  lemma PublicAndPrivateAgree<P(!new)>(c: Curve<P>, accepts: nat -> bool, sha256: Bytes -> Bytes, secexp: nat,
                                       change: u32, index: u32)
    requires IsCurve(c) && DeriveMpk(c, accepts, secexp).Ok?
    ensures var mpk := DeriveMpk(c, accepts, secexp).value;
            DerivePubkey(c, sha256, mpk, change, index)
            == Ok(Mul(c, DerivePrivateKey(c, sha256, secexp, mpk, change, index), c.gen))
  {
    var mpk := DeriveMpk(c, accepts, secexp).value;
    var z := Sequence(sha256, mpk, change, index);
    assert RoundTripsAt(c, Mul(c, secexp, c.gen));
    MulReduced(c, secexp + z);
    MulAdd(c, secexp, z, c.gen);
  }

  /** `derive_mpk`, from the seed: the 64 bytes that decode to the public point of
      the stretched secret, unless the SDK refuses it. */
  method MpkOfSeed<P(!new)>(c: Curve<P>, accepts: nat -> bool, sha256: Bytes -> Bytes, seed: Bytes)
    returns (r: Result<Bytes, KeyError>)
    ensures r.Ok? <==> accepts(MasterSecret(sha256, seed))
    ensures r.Ok? && IsCurve(c) ==>
              |r.value| == 64 && c.decode(r.value) == Some(Mul(c, MasterSecret(sha256, seed), c.gen))
  {
    var secexp := StretchKey(sha256, seed);
    r := DeriveMpk(c, accepts, secexp);
    assert IsCurve(c) ==> RoundTripsAt(c, Mul(c, secexp, c.gen));
  }

  /** `derive_private_key`, from the seed. With the master public key of the same
      seed the result is a reduced scalar, and its point is what anyone derives
      from that master public key alone. */
  method PrivateKeyOfSeed<P(!new)>(c: Curve<P>, sha256: Bytes -> Bytes, seed: Bytes, mpk: Bytes, change: u32, index: u32)
    returns (k: nat)
    requires c.order > 0
    ensures k < c.order
    ensures IsCurve(c) && mpk == c.encode(Mul(c, MasterSecret(sha256, seed), c.gen)) ==>
              DerivePubkey(c, sha256, mpk, change, index) == Ok(Mul(c, k, c.gen))
  {
    var secexp := StretchKey(sha256, seed);
    k := DerivePrivateKey(c, sha256, secexp, mpk, change, index);
    if IsCurve(c) && mpk == c.encode(Mul(c, secexp, c.gen)) {
      PublicAndPrivateAgree(c, x => true, sha256, secexp, change, index);
    }
  }

  // ----- distinct children hash distinct bytes ----------------------------

  function DecimalValue(b: Bytes): int
  {
    if b == [] then 0 else 10 * DecimalValue(b[..|b| - 1]) + (b[|b| - 1] as int - ZERO as int)
  }

  lemma {:induction false} DecimalReads(n: nat)
    ensures DecimalValue(Decimal(n)) == n
  {
    var d := Decimal(n);
    if n < 10 {
      assert d[..0] == [];
    } else {
      DecimalReads(n / 10);
      assert d[..|d| - 1] == Decimal(n / 10);
    }
  }

  predicate Digits(b: Bytes)
  {
    forall i :: 0 <= i < |b| ==> ZERO <= b[i] < ZERO + 10
  }

  /** A number as one writes it: decimal digits, no zero before others. */
  predicate Writes(b: Bytes, n: nat)
  {
    b != [] && Digits(b) && (b[0] == ZERO ==> |b| == 1) && DecimalValue(b) == n
  }

  lemma {:induction false} DecimalWrites(n: nat)
    ensures Digits(Decimal(n)) && (Decimal(n)[0] == ZERO ==> n == 0)
    ensures Writes(Decimal(n), n)
  {
    DecimalReads(n);
    if n >= 10 {
      DecimalWrites(n / 10);
    }
  }

  /** There is only one way to write a number. */
  lemma {:induction false} OneWayToWrite(b: Bytes, n: nat)
    requires Writes(b, n)
    ensures b == Decimal(n)
    decreases |b|
  {
    var front, last := b[..|b| - 1], (b[|b| - 1] - ZERO) as int;
    if front == [] {
      assert b == [b[0]];
      assert DecimalValue([]) == 0;
    } else {
      DigitsValue(front);
      OneWayToWrite(front, DecimalValue(front));
      assert b == front + [b[|b| - 1]];
      assert n / 10 == DecimalValue(front) && n % 10 == last;
    }
  }

  lemma {:induction false} DigitsValue(b: Bytes)
    requires Digits(b)
    ensures DecimalValue(b) >= 0
    ensures b != [] && b[0] != ZERO ==> DecimalValue(b) > 0
  {
    if b != [] {
      DigitsValue(b[..|b| - 1]);
    }
  }

  /** Main result: the child of a chain and an index. However the index and the
      chain are written, index first, each with a colon after it, the child of the
      master key is offset by the double hash of that text and the 64 bytes, read
      as a number, most significant byte first; on the private side it is the
      secret that is offset, modulo the order. */
  lemma ChildIsOffset<P(!new)>(c: Curve<P>, sha256: Bytes -> Bytes, secexp: nat, mpk: Bytes, change: u32, index: u32,
                               indexText: Bytes, changeText: Bytes)
    requires c.order > 0 && |mpk| == 64 && c.decode(mpk).Some?
    requires Writes(indexText, index) && Writes(changeText, change)
    ensures var offset := BigEndian(sha256(sha256(indexText + [58] + changeText + [58] + mpk)));
            && DerivePubkey(c, sha256, mpk, change, index) == Ok(c.add(c.decode(mpk).value, Mul(c, offset, c.gen)))
            && DerivePrivateKey(c, sha256, secexp, mpk, change, index) == (secexp + offset) % c.order
  {
    OneWayToWrite(indexText, index);
    OneWayToWrite(changeText, change);
  }

  /** The first colon splits in only one place. */
  lemma {:induction false} SplitAtColon(a: Bytes, b: Bytes, x: Bytes, y: Bytes)
    requires COLON !in a && COLON !in b
    requires a + [COLON] + x == b + [COLON] + y
    ensures a == b && x == y
    decreases |a|
  {
    var left, right := a + [COLON] + x, b + [COLON] + y;
    HeadOf(a, x);
    HeadOf(b, y);
    if a == [] {
      assert left[1..] == x && right[1..] == y;
    } else {
      assert left[1..] == a[1..] + [COLON] + x && right[1..] == b[1..] + [COLON] + y;
      SplitAtColon(a[1..], b[1..], x, y);
      assert a == [a[0]] + a[1..] && b == [b[0]] + b[1..];
    }
  }

  lemma HeadOf(a: Bytes, x: Bytes)
    ensures (a + [COLON] + x)[0] == if a == [] then COLON else a[0]
    ensures COLON !in a ==> (a == [] <==> (a + [COLON] + x)[0] == COLON)
  {
  }

  /** Main result: the hashed bytes determine the master key, the chain and the
      index, so different children never hash the same bytes. */
  lemma SequenceDataIsInjective(mpk: Bytes, change: u32, index: u32, mpk': Bytes, change': u32, index': u32)
    requires SequenceData(mpk, change, index) == SequenceData(mpk', change', index')
    ensures mpk == mpk' && change == change' && index == index'
  {
    var tail, tail' := Decimal(change) + [COLON] + mpk, Decimal(change') + [COLON] + mpk';
    assert SequenceData(mpk, change, index) == Decimal(index) + [COLON] + tail;
    assert SequenceData(mpk', change', index') == Decimal(index') + [COLON] + tail';
    SplitAtColon(Decimal(index), Decimal(index'), tail, tail');
    SplitAtColon(Decimal(change), Decimal(change'), mpk, mpk');
    DecimalReads(index);
    DecimalReads(index');
    DecimalReads(change);
    DecimalReads(change');
  }
}
