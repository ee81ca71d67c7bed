/** Rebuilding the entropy of a mnemonic whose checksum is wrong (core/mnemonic.rs). */
module Bip39 {
  const WORD_BITS: nat := 11
  const WORDLIST_SIZE: nat := 2048

  /** A position in the word list. */
  type Index = x: nat | x < WORDLIST_SIZE

  /** The word counts `validate_mnemonic` lets through. */
  predicate ValidCount(n: nat)
  {
    n in {12, 15, 18, 21, 24}
  }

  function EntropyBits(words: nat): nat { words * WORD_BITS * 32 / 33 }

  // ----- numbers as bits, most significant first --------------------------

  function BitsOf(v: nat, width: nat): (r: seq<bool>)
    ensures |r| == width
  {
    if width == 0 then [] else BitsOf(v / 2, width - 1) + [v % 2 == 1]
  }

  function Number(bits: seq<bool>): nat
  {
    if bits == [] then 0 else 2 * Number(bits[..|bits| - 1]) + if bits[|bits| - 1] then 1 else 0
  }

  function Pow2(k: nat): (r: nat)
    ensures r > 0
  {
    if k == 0 then 1 else 2 * Pow2(k - 1)
  }

  lemma {:induction false} NumberOfBits(v: nat, width: nat)
    requires v < Pow2(width)
    ensures Number(BitsOf(v, width)) == v
    decreases width
  {
    if width > 0 {
      NumberOfBits(v / 2, width - 1);
      assert BitsOf(v, width)[..width - 1] == BitsOf(v / 2, width - 1);
    }
  }

  /** `v >> k`. */
  function Shr(v: nat, k: nat): nat
    decreases k
  {
    if k == 0 then v else Shr(v / 2, k - 1)
  }

  lemma {:induction false} ShrOnce(v: nat, k: nat)
    ensures Shr(v, k) / 2 == Shr(v, k + 1)
    decreases k
  {
    if k > 0 {
      ShrOnce(v / 2, k - 1);
    }
  }

  lemma {:induction false} ShrFits(v: nat, k: nat, width: nat)
    requires v < Pow2(width) && k <= width
    ensures Shr(v, k) < Pow2(width - k)
    decreases k
  {
    if k > 0 {
      ShrFits(v / 2, k - 1, width - 1);
    }
  }

  /** Leaving out the last bits is a shift to the right. */
  lemma {:induction false} LeadingBits(v: nat, width: nat, drop: nat)
    requires drop <= width
    ensures BitsOf(v, width)[..width - drop] == BitsOf(Shr(v, drop), width - drop)
    decreases drop
  {
    if drop == 0 {
      assert BitsOf(v, width)[..width] == BitsOf(v, width);
    } else {
      LeadingBits(v / 2, width - 1, drop - 1);
      assert BitsOf(v, width)[..width - drop] == BitsOf(v / 2, width - 1)[..width - drop];
    }
  }

  // ----- the bit string of the words --------------------------------------

  function SpelledOut(indices: seq<Index>): (r: seq<bool>)
    ensures |r| == WORD_BITS * |indices|
  {
    if indices == [] then []
    else SpelledOut(indices[..|indices| - 1]) + BitsOf(indices[|indices| - 1], WORD_BITS)
  }

  /** The concatenated 11-bit indices. */
  function AllBits(indices: seq<Index>): (r: seq<bool>)
    ensures |r| == WORD_BITS * |indices|
  {
    SpelledOut(indices)
  }

  lemma {:induction false} WordBits(indices: seq<Index>, i: nat)
    requires i < |indices|
    ensures AllBits(indices)[WORD_BITS * i..WORD_BITS * (i + 1)] == BitsOf(indices[i], WORD_BITS)
    decreases |indices|
  {
    var front := indices[..|indices| - 1];
    if i < |front| {
      WordBits(front, i);
      assert AllBits(indices)[WORD_BITS * i..WORD_BITS * (i + 1)] == AllBits(front)[WORD_BITS * i..WORD_BITS * (i + 1)];
    }
  }

  // ----- bytes ------------------------------------------------------------

  /** The bit at position `j` of a byte, counted from the most significant. */
  function Mask(j: nat): bv8
    requires j < 8
  {
    match j
    case 0 => 0x80
    case 1 => 0x40
    case 2 => 0x20
    case 3 => 0x10
    case 4 => 0x08
    case 5 => 0x04
    case 6 => 0x02
    case 7 => 0x01
  }

  predicate HasBit(b: bv8, j: nat)
    requires j < 8
  {
    b & Mask(j) != 0
  }

  lemma SetBit(b: bv8, j: nat, k: nat)
    requires j < 8 && k < 8
    ensures HasBit(b | Mask(j), k) <==> j == k || HasBit(b, k)
  {
  }

  lemma ZeroHasNoBit(k: nat)
    requires k < 8
    ensures !HasBit(0, k)
  {
  }

  function BitAt(bytes: seq<bv8>, i: nat): bool
    requires i < 8 * |bytes|
  {
    HasBit(bytes[i / 8], i % 8)
  }

  /** The bytes hold the bits below `n`, and nothing beyond. */
  ghost predicate Holds(bytes: seq<bv8>, bits: seq<bool>, n: nat)
    requires n <= |bits|
  {
    forall i {:trigger BitAt(bytes, i)} :: 0 <= i < 8 * |bytes| ==> (BitAt(bytes, i) <==> i < n && bits[i])
  }

  /** `bytes[n / 8] |= 1 << (7 - n % 8)`. */
  function WithBit(bytes: seq<bv8>, n: nat): (r: seq<bv8>)
    requires n < 8 * |bytes|
    ensures |r| == |bytes|
  {
    bytes[n / 8 := bytes[n / 8] | Mask(n % 8)]
  }

  lemma BitOfWithBit(bytes: seq<bv8>, n: nat, i: nat)
    requires n < 8 * |bytes| && i < 8 * |bytes|
    ensures BitAt(WithBit(bytes, n), i) <==> i == n || BitAt(bytes, i)
  {
    if i / 8 == n / 8 {
      SetBit(bytes[n / 8], n % 8, i % 8);
    }
  }

  lemma HoldsMore(bytes: seq<bv8>, bits: seq<bool>, n: nat)
    requires n < |bits| && n < 8 * |bytes| && Holds(bytes, bits, n)
    ensures Holds(if bits[n] then WithBit(bytes, n) else bytes, bits, n + 1)
  {
    if bits[n] {
      forall i | 0 <= i < 8 * |bytes|
        ensures BitAt(WithBit(bytes, n), i) <==> i < n + 1 && bits[i]
      {
        BitOfWithBit(bytes, n, i);
      }
    }
  }

  // ----- what the bytes are worth -----------------------------------------

  /** Bytes as a number, the most significant first. */
  function BigEndian(bytes: seq<bv8>): nat
  {
    if bytes == [] then 0 else 256 * BigEndian(bytes[..|bytes| - 1]) + bytes[|bytes| - 1] as nat
  }

  /** The words as the digits of a number to base 2048, the most significant first. */
  function WordNumber(indices: seq<Index>): nat
  {
    if indices == [] then 0 else WORDLIST_SIZE * WordNumber(indices[..|indices| - 1]) + indices[|indices| - 1]
  }

  lemma {:induction false} NumberConcat(a: seq<bool>, b: seq<bool>)
    ensures Number(a + b) == Number(a) * Pow2(|b|) + Number(b)
    decreases |b|
  {
    if b == [] {
      assert a + b == a;
    } else {
      var front := b[..|b| - 1];
      assert a + b == (a + front) + [b[|front|]];
      NumberStep(a + front, b[|front|]);
      NumberConcat(a, front);
      MoveTwo(Number(a), Pow2(|front|));
    }
  }

  lemma MoveTwo(a: nat, b: nat)
    ensures 2 * (a * b) == a * (2 * b)
  {
  }

  lemma {:induction false} NumberFits(bits: seq<bool>)
    ensures Number(bits) < Pow2(|bits|)
  {
    if bits != [] {
      NumberFits(bits[..|bits| - 1]);
    }
  }

  lemma AppendWord(bits: seq<bool>, word: seq<bool>)
    requires |word| == WORD_BITS
    ensures Number(bits + word) == WORDLIST_SIZE * Number(bits) + Number(word)
  {
    Pow2OfWord();
    SplitNumber(bits, word, WORDLIST_SIZE);
  }

  lemma Pow2OfWord()
    ensures Pow2(WORD_BITS) == WORDLIST_SIZE
  {
    assert Pow2(4) == 16;
    assert Pow2(8) == 256;
  }

  lemma {:induction false} SpelledNumber(indices: seq<Index>)
    ensures Number(AllBits(indices)) == WordNumber(indices)
  {
    if indices != [] {
      var front, last := indices[..|indices| - 1], indices[|indices| - 1];
      SpelledNumber(front);
      NumberOfWord(last);
      AppendWord(SpelledOut(front), BitsOf(last, WORD_BITS));
    }
  }

  function Bit(b: bool): nat { if b then 1 else 0 }

  /** The worth of four bits. */
  function Four(a: bool, b: bool, c: bool, d: bool): nat { 8 * Bit(a) + 4 * Bit(b) + 2 * Bit(c) + Bit(d) }

  lemma EightBits(b: bv8)
    ensures b as nat == 16 * Four(HasBit(b, 0), HasBit(b, 1), HasBit(b, 2), HasBit(b, 3))
                        + Four(HasBit(b, 4), HasBit(b, 5), HasBit(b, 6), HasBit(b, 7))
  {
  }

  lemma SplitNumber(a: seq<bool>, b: seq<bool>, unit: nat)
    requires unit == Pow2(|b|)
    ensures Number(a + b) == unit * Number(a) + Number(b)
  {
    NumberConcat(a, b);
  }

  lemma SmallPowers()
    ensures Pow2(2) == 4 && Pow2(4) == 16 && Pow2(8) == 256
  {
    assert Pow2(4) == 16;
  }

  lemma NumberOfEight(bits: seq<bool>)
    requires |bits| == 8
    ensures Number(bits) == 16 * Four(bits[0], bits[1], bits[2], bits[3]) + Four(bits[4], bits[5], bits[6], bits[7])
  {
    SmallPowers();
    assert bits == bits[..4] + bits[4..];
    SplitNumber(bits[..4], bits[4..], 16);
    NumberOfFour(bits[..4]);
    NumberOfFour(bits[4..]);
  }

  lemma NumberOfFour(bits: seq<bool>)
    requires |bits| == 4
    ensures Number(bits) == Four(bits[0], bits[1], bits[2], bits[3])
  {
    SmallPowers();
    assert bits == bits[..2] + bits[2..];
    SplitNumber(bits[..2], bits[2..], 4);
    NumberOfTwo(bits[..2]);
    NumberOfTwo(bits[2..]);
  }

  lemma NumberOfTwo(bits: seq<bool>)
    requires |bits| == 2
    ensures Number(bits) == 2 * Bit(bits[0]) + Bit(bits[1])
  {
    NumberStep([], bits[0]);
    NumberStep([bits[0]], bits[1]);
    assert [] + [bits[0]] == [bits[0]] && bits == [bits[0]] + [bits[1]];
  }

  lemma NumberStep(bits: seq<bool>, b: bool)
    ensures Number(bits + [b]) == 2 * Number(bits) + Bit(b)
  {
    assert (bits + [b])[..|bits|] == bits;
  }

  lemma BitsOfByte(bytes: seq<bv8>, bits: seq<bool>, k: nat)
    requires k < |bytes| && 8 * |bytes| <= |bits| && Holds(bytes, bits, 8 * |bytes|)
    ensures forall j :: 0 <= j < 8 ==> (HasBit(bytes[k], j) <==> bits[8 * k..8 * k + 8][j])
  {
    forall j | 0 <= j < 8
      ensures HasBit(bytes[k], j) <==> bits[8 * k..8 * k + 8][j]
    {
      assert BitAt(bytes, 8 * k + j) <==> bits[8 * k + j];
    }
  }

  /** A byte is the number of the bits it holds. */
  lemma ByteHolds(bytes: seq<bv8>, bits: seq<bool>, k: nat)
    requires k < |bytes| && 8 * |bytes| <= |bits| && Holds(bytes, bits, 8 * |bytes|)
    ensures bytes[k] as nat == Number(bits[8 * k..8 * k + 8])
  {
    var group := bits[8 * k..8 * k + 8];
    BitsOfByte(bytes, bits, k);
    EightBits(bytes[k]);
    NumberOfEight(group);
  }

  lemma {:induction false} BytesHold(bytes: seq<bv8>, bits: seq<bool>, n: nat)
    requires n <= |bytes| && 8 * |bytes| <= |bits| && Holds(bytes, bits, 8 * |bytes|)
    ensures BigEndian(bytes[..n]) == Number(bits[..8 * n])
    decreases n
  {
    if n > 0 {
      BytesHold(bytes, bits, n - 1);
      ByteHolds(bytes, bits, n - 1);
      assert bytes[..n][..n - 1] == bytes[..n - 1];
      assert bits[..8 * n] == bits[..8 * (n - 1)] + bits[8 * (n - 1)..8 * n];
      SmallPowers();
      SplitNumber(bits[..8 * (n - 1)], bits[8 * (n - 1)..8 * n], 256);
    }
  }

  /** The leading bits of a number are the number without its last ones. */
  lemma LeadingPart(bits: seq<bool>, drop: nat)
    requires drop <= |bits|
    ensures Number(bits[..|bits| - drop]) == Number(bits) / Pow2(drop)
  {
    var front, back := bits[..|bits| - drop], bits[|bits| - drop..];
    assert bits == front + back;
    NumberConcat(front, back);
    NumberFits(back);
    Quotient(Number(front), Pow2(drop), Number(back));
  }

  lemma Quotient(q: nat, d: nat, r: nat)
    requires r < d
    ensures (q * d + r) / d == q
  {
    if (q * d + r) / d < q {
      Below((q * d + r) / d + 1, q, d);
    } else if (q * d + r) / d > q {
      Below(q + 1, (q * d + r) / d, d);
    }
  }

  lemma Below(a: nat, b: nat, d: nat)
    requires a <= b
    ensures a * d <= b * d
  {
  }

  /** Main result: read as a number, most significant byte first, the entropy is the
      number that the words are the digits of to base 2048, without its checksum bits. */
  lemma EntropyIsWordNumber(indices: seq<Index>, entropy: seq<bv8>)
    requires ValidCount(|indices|) && |entropy| == |indices| * 4 / 3
    requires Holds(entropy, AllBits(indices), EntropyBits(|indices|))
    ensures BigEndian(entropy) == WordNumber(indices) / Pow2(|indices| / 3)
    ensures forall k :: 0 <= k < |entropy| ==> entropy[k] as nat == Number(AllBits(indices)[8 * k..8 * k + 8])
  {
    CountArithmetic(|indices|);
    var bits := AllBits(indices);
    BytesHold(entropy, bits, |entropy|);
    assert entropy[..|entropy|] == entropy;
    LeadingPart(bits, |indices| / 3);
    SpelledNumber(indices);
    forall k | 0 <= k < |entropy|
      ensures entropy[k] as nat == Number(bits[8 * k..8 * k + 8])
    {
      ByteHolds(entropy, bits, k);
    }
  }

  // ----- the loops --------------------------------------------------------

  /** The inner loop: one word's bits, from the top. */
  method SpellWord(index: Index) returns (bits: seq<bool>)
    ensures bits == BitsOf(index, WORD_BITS)
  {
    bits := [];
    var j := WORD_BITS;
    while j > 0
      invariant 0 <= j <= WORD_BITS
      invariant bits == BitsOf(Shr(index, j), WORD_BITS - j)
    {
      j := j - 1;
      ShrOnce(index, j);
      bits := bits + [Shr(index, j) % 2 == 1];
    }
  }

  /** The outer loop: the bits of all words. */
  method SpellBits(indices: seq<Index>) returns (bits: seq<bool>)
    ensures bits == AllBits(indices)
  {
    bits := [];
    for n := 0 to |indices|
      invariant bits == SpelledOut(indices[..n])
    {
      var word := SpellWord(indices[n]);
      bits := bits + word;
      assert indices[..n + 1][..n] == indices[..n];
    }
    assert indices[..|indices|] == indices;
  }

  /** The entropy reconstruction of `mnemonic_to_seed`. */
  method RebuildEntropy(indices: seq<Index>) returns (entropy: array<bv8>)
    requires ValidCount(|indices|)
    ensures fresh(entropy) && entropy.Length == |indices| * 4 / 3
    ensures Holds(entropy[..], AllBits(indices), EntropyBits(|indices|))
    ensures BigEndian(entropy[..]) == WordNumber(indices) / Pow2(|indices| / 3)
    ensures forall k :: 0 <= k < entropy.Length ==> entropy[k] as nat == Number(AllBits(indices)[8 * k..8 * k + 8])
  {
    CountArithmetic(|indices|);
    var totalBits := |indices| * WORD_BITS;
    var entBits := totalBits * 32 / 33;
    var entBytes := entBits / 8;
    var bits := SpellBits(indices);
    entropy := new bv8[entBytes](i => 0);
    forall i | 0 <= i < 8 * entBytes
      ensures !BitAt(entropy[..], i)
    {
      ZeroHasNoBit(i % 8);
    }
    for i := 0 to entBits
      invariant Holds(entropy[..], bits, i)
    {
      HoldsMore(entropy[..], bits, i);
      if bits[i] {
        entropy[i / 8] := entropy[i / 8] | Mask(i % 8);
      }
    }
    EntropyIsWordNumber(indices, entropy[..]);
  }

  // ----- the words come back ----------------------------------------------

  /** The entropy read as bits, the way a mnemonic is cut into words. */
  function EntropyAsBits(entropy: seq<bv8>): (r: seq<bool>)
    ensures |r| == 8 * |entropy|
  {
    seq(8 * |entropy|, i requires 0 <= i < 8 * |entropy| => BitAt(entropy, i))
  }

  lemma CountArithmetic(n: nat)
    requires ValidCount(n)
    ensures EntropyBits(n) == WORD_BITS * n - n / 3 == 8 * (n * 4 / 3) && 0 < n / 3 < WORD_BITS
  {
  }

  /** Group `i` of a bit string, eleven bits or what is left of them. */
  function Group(bits: seq<bool>, i: nat): seq<bool>
    requires WORD_BITS * i <= |bits|
  {
    if WORD_BITS * (i + 1) <= |bits| then bits[WORD_BITS * i..WORD_BITS * (i + 1)] else bits[WORD_BITS * i..]
  }

  lemma WordComesBack(indices: seq<Index>, i: nat, ent: nat)
    requires i < |indices| && WORD_BITS * (i + 1) <= ent <= WORD_BITS * |indices|
    ensures Number(Group(AllBits(indices)[..ent], i)) == indices[i]
  {
    GroupIsWord(indices, i, ent);
    NumberOfWord(indices[i]);
  }

  lemma GroupIsWord(indices: seq<Index>, i: nat, ent: nat)
    requires i < |indices| && WORD_BITS * (i + 1) <= ent <= WORD_BITS * |indices|
    ensures Group(AllBits(indices)[..ent], i) == BitsOf(indices[i], WORD_BITS)
  {
    WordBits(indices, i);
  }

  lemma NumberOfWord(v: Index)
    ensures Number(BitsOf(v, WORD_BITS)) == v
  {
    NumberOfBits(v, WORD_BITS);
  }

  /** A bit string cut into `n` groups, read as numbers. */
  function Regroup(bits: seq<bool>, n: nat): (r: seq<nat>)
    requires WORD_BITS * n < |bits| + WORD_BITS
    ensures |r| == n
  {
    seq(n, i requires 0 <= i < n => Number(Group(bits, i)))
  }

  /** The words, with the checksum taken off the last. */
  function WithoutChecksum(indices: seq<Index>, checksum: nat): (r: seq<nat>)
    requires indices != []
    ensures |r| == |indices|
  {
    indices[..|indices| - 1] + [Shr(indices[|indices| - 1], checksum)]
  }

  lemma GroupOfKept(indices: seq<Index>, checksum: nat, i: nat)
    requires i < |indices| && 0 < checksum < WORD_BITS
    ensures Number(Group(AllBits(indices)[..WORD_BITS * |indices| - checksum], i)) == WithoutChecksum(indices, checksum)[i]
  {
    if i < |indices| - 1 {
      WordComesBack(indices, i, WORD_BITS * |indices| - checksum);
    } else {
      LastWord(indices, checksum);
    }
  }

  /** Without the last few bits, every word but the last is intact. */
  lemma PrefixGivesWordsBack(indices: seq<Index>, checksum: nat)
    requires indices != [] && 0 < checksum < WORD_BITS
    ensures Regroup(AllBits(indices)[..WORD_BITS * |indices| - checksum], |indices|) == WithoutChecksum(indices, checksum)
  {
    var bits := AllBits(indices)[..WORD_BITS * |indices| - checksum];
    forall i | 0 <= i < |indices|
      ensures Number(Group(bits, i)) == WithoutChecksum(indices, checksum)[i]
    {
      GroupOfKept(indices, checksum, i);
    }
  }

  /** The same for the entropy, once it is known to be the leading bits. */
  lemma RegroupEntropy(bits: seq<bool>, indices: seq<Index>, checksum: nat)
    requires indices != [] && 0 < checksum < WORD_BITS
    requires bits == AllBits(indices)[..WORD_BITS * |indices| - checksum]
    ensures WORD_BITS * |indices| < |bits| + WORD_BITS
    ensures Regroup(bits, |indices|) == WithoutChecksum(indices, checksum)
  {
    PrefixGivesWordsBack(indices, checksum);
  }

  /** Main result: the entropy is the leading 32/33 of the words' bits, so cutting
      it into 11-bit groups again gives back every word but the last, and the last
      group holds the bits of the last word above its checksum. */
  lemma EntropyGivesWordsBack(indices: seq<Index>, entropy: seq<bv8>)
    requires ValidCount(|indices|) && |entropy| == |indices| * 4 / 3
    requires Holds(entropy, AllBits(indices), EntropyBits(|indices|))
    ensures EntropyAsBits(entropy) == AllBits(indices)[..WORD_BITS * |indices| - |indices| / 3]
    ensures Regroup(EntropyAsBits(entropy), |indices|) == WithoutChecksum(indices, |indices| / 3)
  {
    CountArithmetic(|indices|);
    RegroupEntropy(EntropyAsBits(entropy), indices, |indices| / 3);
  }

  lemma LeadingNumber(v: nat, width: nat, drop: nat)
    requires drop <= width && v < Pow2(width)
    ensures Number(BitsOf(v, width)[..width - drop]) == Shr(v, drop)
  {
    LeadingBits(v, width, drop);
    ShrFits(v, drop, width);
    NumberOfBits(Shr(v, drop), width - drop);
  }

  lemma LastWord(indices: seq<Index>, checksum: nat)
    requires indices != [] && 0 < checksum <= WORD_BITS
    ensures var last := |indices| - 1;
            Number(Group(AllBits(indices)[..WORD_BITS * |indices| - checksum], last)) == Shr(indices[last], checksum)
  {
    var last := |indices| - 1;
    var bits := AllBits(indices);
    WordBits(indices, last);
    assert bits[..WORD_BITS * |indices| - checksum][WORD_BITS * last..]
        == bits[WORD_BITS * last..WORD_BITS * (last + 1)][..WORD_BITS - checksum];
    LeadingNumber(indices[last], WORD_BITS, checksum);
  }
}
