/** The pre-BIP39 mnemonic: eight hex digits to three words and back
    (core/legacy_mnemonic.rs). The word list is a parameter. */
module LegacyMnemonic {
  import opened Common

  const N: nat := 1626

  datatype MnemonicError =
    | InvalidHexLength(length: nat)
    | InvalidHexChar(pos: nat)
    | InvalidWordCount(count: nat)
    | WordNotFound(word: string)

  // ----- characters and hexadecimal ---------------------------------------

  function LowerChar(c: char): char
  {
    if 'A' <= c <= 'Z' then c - 'A' + 'a' else c
  }

  function Lower(s: string): (r: string)
    ensures |r| == |s|
  {
    seq(|s|, i requires 0 <= i < |s| => LowerChar(s[i]))
  }

  predicate IsHexDigit(c: char)
  {
    '0' <= c <= '9' || 'a' <= c <= 'f' || 'A' <= c <= 'F'
  }

  predicate IsHex(s: string)
  {
    forall i :: 0 <= i < |s| ==> IsHexDigit(s[i])
  }

  function HexValue(c: char): (v: nat)
    requires IsHexDigit(c)
    ensures v < 16
  {
    if c <= '9' then (c - '0') as nat
    else if c <= 'F' then (c - 'A') as nat + 10
    else (c - 'a') as nat + 10
  }

  function HexChar(v: nat): (c: char)
    requires v < 16
    ensures IsHexDigit(c) && HexValue(c) == v && LowerChar(c) == c
  {
    if v < 10 then '0' + v as char else 'a' + (v - 10) as char
  }

  /** `from_str_radix(_, 16)`. */
  function ParseHex(s: string): nat
    requires IsHex(s)
  {
    if s == [] then 0 else 16 * ParseHex(s[..|s| - 1]) + HexValue(s[|s| - 1])
  }

  /** `{:0width x}`: at least `width` digits, more when the value needs them. */
  function FormatHex(v: nat, width: nat): (s: string)
    ensures |s| >= width && IsHex(s)
    decreases v + width
  {
    if width == 0 && v == 0 then ""
    else FormatHex(v / 16, if width == 0 then 0 else width - 1) + [HexChar(v % 16)]
  }

  function Pow16(k: nat): (r: nat)
    ensures r > 0
  {
    if k == 0 then 1 else 16 * Pow16(k - 1)
  }

  lemma {:induction false} ParseFormat(v: nat, width: nat)
    ensures ParseHex(FormatHex(v, width)) == v
    decreases v + width
  {
    if width > 0 || v > 0 {
      var w := if width == 0 then 0 else width - 1;
      ParseFormat(v / 16, w);
      var s := FormatHex(v, width);
      assert s[..|s| - 1] == FormatHex(v / 16, w);
    }
  }

  /** Formatting a parsed string at its own length gives it back in lower case. */
  lemma {:induction false} FormatParse(s: string)
    requires IsHex(s)
    ensures ParseHex(s) < Pow16(|s|)
    ensures FormatHex(ParseHex(s), |s|) == Lower(s)
  {
    if s != [] {
      var front := s[..|s| - 1];
      var last := s[|s| - 1];
      FormatParse(front);
      var v := ParseHex(s);
      assert v / 16 == ParseHex(front) && v % 16 == HexValue(last);
      assert Lower(s) == Lower(front) + [LowerChar(last)];
    }
  }

  lemma {:induction false} FormatLength(v: nat, width: nat)
    requires v < 16 * Pow16(width)
    ensures |FormatHex(v, width)| == if v < Pow16(width) then width else width + 1
    decreases width
  {
    if width > 0 {
      FormatLength(v / 16, width - 1);
    } else if v > 0 {
      assert v / 16 == 0;
      assert FormatHex(0, 0) == "";
    }
  }

  // ----- one group --------------------------------------------------------

  type Digit = x: nat | x < N

  /** The word positions of a value: each but the first is offset by the one before. */
  function EncodeGroup(x: nat): (Digit, Digit, Digit)
  {
    var w1 := x % N;
    var w2 := (x / N + w1) % N;
    (w1, w2, (x / N / N + w2) % N)
  }

  const GROUP_VALUES: nat := N * N * N

  /** The value of three word positions; the remainders are those of `rem_euclid`. */
  function DecodeGroup(w: (Digit, Digit, Digit)): (x: nat)
    ensures x < GROUP_VALUES
  {
    w.0 + N * ((w.1 - w.0) % N) + N * N * ((w.2 - w.1) % N)
  }

  /** Every group decodes to a value below `N` cubed, so nothing overflows, and
      re-encodes to the same three words. */
  lemma GroupDecodes(w: (Digit, Digit, Digit))
    ensures DecodeGroup(w) < GROUP_VALUES
    ensures EncodeGroup(DecodeGroup(w)) == w
  {
    var d1, d2 := (w.1 - w.0) % N, (w.2 - w.1) % N;
    var x := DecodeGroup(w);
    assert x == w.0 + N * (d1 + N * d2);
    assert x / N == d1 + N * d2;
    assert x / N / N == d2;
    assert x % N == w.0;
    OffsetBack(w.0, w.1);
    OffsetBack(w.1, w.2);
    assert (x / N + w.0) % N == (d1 + w.0) % N;
  }

  lemma OffsetBack(a: Digit, b: Digit)
    ensures ((b - a) % N + a) % N == b
  {
  }

  /** Every value below `N` cubed, in particular every 32-bit value, survives. */
  lemma GroupEncodes(x: nat)
    requires x < GROUP_VALUES
    ensures DecodeGroup(EncodeGroup(x)) == x
  {
    var w := EncodeGroup(x);
    var q := x / N;
    assert q / N < N;
    OffsetForward(w.0, q);
    OffsetForward(w.1, q / N);
    assert x == w.0 + N * (q % N + N * (q / N));
  }

  lemma OffsetForward(a: Digit, q: nat)
    ensures ((q + a) % N - a) % N == q % N
  {
  }

  // ----- the word list ----------------------------------------------------

  predicate DistinctWords(words: seq<string>)
  {
    forall i, j :: 0 <= i < j < |words| ==> words[i] != words[j]
  }

  /** The properties of the built-in list: its length, no duplicates, lower case. */
  predicate IsWordList(words: seq<string>)
  {
    |words| == N && DistinctWords(words) && forall i :: 0 <= i < |words| ==> Lower(words[i]) == words[i]
  }

  function WordIndex(words: seq<string>, word: string): (r: Option<nat>)
    ensures r.Some? ==> r.value < |words| && words[r.value] == word
    ensures r.None? ==> word !in words
  {
    if words == [] then None
    else if words[0] == word then Some(0)
    else match WordIndex(words[1..], word)
      case None => None
      case Some(i) => Some(i + 1)
  }

  // ----- one chunk of a message -------------------------------------------

  type Encoder = string -> seq<string>

  type Decoder = seq<string> -> Result<string, MnemonicError>

  /** Eight hex digits to three words. */
  function EncodeChunk(words: seq<string>, digits: string): seq<string>
    requires |words| == N && IsHex(digits)
  {
    var w := EncodeGroup(ParseHex(digits));
    [words[w.0], words[w.1], words[w.2]]
  }

  /** The positions of three words, or the first one unknown. */
  function GroupOf(words: seq<string>, list: seq<string>): Result<(Digit, Digit, Digit), MnemonicError>
    requires |words| == N && |list| == 3
  {
    var w1, w2, w3 := WordIndex(words, Lower(list[0])), WordIndex(words, Lower(list[1])), WordIndex(words, Lower(list[2]));
    if w1.None? then Err(WordNotFound(Lower(list[0])))
    else if w2.None? then Err(WordNotFound(Lower(list[1])))
    else if w3.None? then Err(WordNotFound(Lower(list[2])))
    else Ok((w1.value, w2.value, w3.value))
  }

  /** Three words to eight hex digits, or to nine. */
  function DecodeChunk(words: seq<string>, list: seq<string>): Result<string, MnemonicError>
    requires |words| == N && |list| == 3
  {
    match GroupOf(words, list)
    case Err(e) => Err(e)
    case Ok(w) => Ok(FormatHex(DecodeGroup(w), 8))
  }

  function EncoderOf(words: seq<string>): Encoder
  {
    (digits: string) => if |words| == N && IsHex(digits) then EncodeChunk(words, digits) else []
  }

  function DecoderOf(words: seq<string>): Decoder
  {
    (list: seq<string>) =>
      if |words| == N && |list| == 3 then DecodeChunk(words, list) else Err(InvalidWordCount(|list|))
  }

  // ----- whole messages, chunk by chunk -----------------------------------

  function EncodeAll(enc: Encoder, message: string): seq<string>
  {
    if |message| < 8 then [] else enc(message[..8]) + EncodeAll(enc, message[8..])
  }

  function DecodeAll(dec: Decoder, list: seq<string>): Result<string, MnemonicError>
  {
    if |list| < 3 then Ok("")
    else match dec(list[..3])
      case Err(e) => Err(e)
      case Ok(text) => Prepend(text, DecodeAll(dec, list[3..]))
  }

  function Prepend(text: string, r: Result<string, MnemonicError>): Result<string, MnemonicError>
  {
    match r
    case Err(e) => Err(e)
    case Ok(s) => Ok(text + s)
  }

  /** What `mn_encode` returns. */
  function Encoded(words: seq<string>, message: string): Result<seq<string>, MnemonicError>
    requires |words| == N
  {
    if |message| % 8 != 0 then Err(InvalidHexLength(|message|))
    else if !IsHex(message) then Err(InvalidHexChar(FirstNonHex(message)))
    else Ok(EncodeAll(EncoderOf(words), message))
  }

  /** What `mn_decode` returns. */
  function Decoded(words: seq<string>, list: seq<string>): Result<string, MnemonicError>
    requires |words| == N
  {
    if |list| % 3 != 0 then Err(InvalidWordCount(|list|)) else DecodeAll(DecoderOf(words), list)
  }

  function FirstNonHex(s: string): (r: nat)
    requires !IsHex(s)
    ensures r < |s| && !IsHexDigit(s[r]) && forall i :: 0 <= i < r ==> IsHexDigit(s[i])
  {
    if !IsHexDigit(s[0]) then 0 else 1 + FirstNonHex(s[1..])
  }

  // ----- the loops --------------------------------------------------------

  /** The validation loop of `mn_encode`. */
  method CheckHex(message: string) returns (r: Option<nat>)
    ensures if IsHex(message) then r == None else r == Some(FirstNonHex(message))
  {
    for i := 0 to |message|
      invariant forall k :: 0 <= k < i ==> IsHexDigit(message[k])
    {
      if !IsHexDigit(message[i]) {
        return Some(i);
      }
    }
    return None;
  }

  /** The chunk loop of `mn_encode`. */
  method EncodeChunks(enc: Encoder, message: string) returns (out: seq<string>)
    requires |message| % 8 == 0
    ensures out == EncodeAll(enc, message)
  {
    out := [];
    var i := 0;
    assert message[0..] == message;
    while i < |message|
      invariant 0 <= i <= |message| && i % 8 == 0
      invariant out + EncodeAll(enc, message[i..]) == EncodeAll(enc, message)
    {
      assert message[i..][..8] == message[i..i + 8] && message[i..][8..] == message[i + 8..];
      out := out + enc(message[i..i + 8]);
      i := i + 8;
    }
  }

  method MnEncode(words: seq<string>, message: string) returns (r: Result<seq<string>, MnemonicError>)
    requires |words| == N
    ensures r == Encoded(words, message)
    ensures |message| % 8 != 0 ==> r == Err(InvalidHexLength(|message|))
    ensures |message| % 8 == 0 ==>
              if IsHex(message) then r.Ok?
              else && r.Err? && r.error.InvalidHexChar? && r.error.pos < |message| && !IsHexDigit(message[r.error.pos])
                   && forall i :: 0 <= i < r.error.pos ==> IsHexDigit(message[i])
  {
    if |message| % 8 != 0 {
      return Err(InvalidHexLength(|message|));
    }
    var bad := CheckHex(message);
    if bad.Some? {
      return Err(InvalidHexChar(bad.value));
    }
    var out := EncodeChunks(EncoderOf(words), message);
    return Ok(out);
  }

  /** The chunk loop of `mn_decode`. */
  method DecodeChunks(dec: Decoder, list: seq<string>) returns (r: Result<string, MnemonicError>)
    requires |list| % 3 == 0
    ensures r == DecodeAll(dec, list)
  {
    var out := "";
    var i := 0;
    assert list[0..] == list;
    EmptyPrepend(DecodeAll(dec, list));
    while i < |list|
      invariant 0 <= i <= |list| && i % 3 == 0
      invariant Prepend(out, DecodeAll(dec, list[i..])) == DecodeAll(dec, list)
    {
      assert list[i..][..3] == list[i..i + 3] && list[i..][3..] == list[i + 3..];
      var text := dec(list[i..i + 3]);
      if text.Err? {
        return Err(text.error);
      }
      PrependTwice(out, text.value, DecodeAll(dec, list[i + 3..]));
      out := out + text.value;
      i := i + 3;
    }
    assert list[i..] == [] && out + "" == out;
    return Ok(out);
  }

  lemma EmptyPrepend(r: Result<string, MnemonicError>)
    ensures Prepend("", r) == r
  {
    if r.Ok? {
      assert "" + r.value == r.value;
    }
  }

  lemma PrependTwice(a: string, b: string, r: Result<string, MnemonicError>)
    ensures Prepend(a + b, r) == Prepend(a, Prepend(b, r))
  {
    if r.Ok? {
      assert (a + b) + r.value == a + (b + r.value);
    }
  }

  method MnDecode(words: seq<string>, list: seq<string>) returns (r: Result<string, MnemonicError>)
    requires |words| == N
    ensures r == Decoded(words, list)
    ensures |list| % 3 != 0 ==> r == Err(InvalidWordCount(|list|))
    ensures |list| % 3 == 0 ==>
              match r
              case Ok(_) => forall i :: 0 <= i < |list| ==> Known(words, list[i])
              case Err(e) => NamesFirstUnknown(words, list, e)
  {
    if |list| % 3 != 0 {
      return Err(InvalidWordCount(|list|));
    }
    r := DecodeChunks(DecoderOf(words), list);
    DecodeFailsAtFirstUnknown(words, list);
  }

  // ----- decoding what was encoded ----------------------------------------

  lemma ChunkRoundTrip(words: seq<string>, digits: string)
    requires IsWordList(words) && IsHex(digits) && |digits| == 8
    ensures |EncodeChunk(words, digits)| == 3
    ensures DecodeChunk(words, EncodeChunk(words, digits)) == Ok(Lower(digits))
  {
    var w := EncodeGroup(ParseHex(digits));
    FormatParse(digits);
    GroupEncodes(ParseHex(digits));
  }

  /** The decoder undoes the encoder on every chunk of eight digits. */
  ghost predicate Undoes(enc: Encoder, dec: Decoder)
  {
    forall c: string :: UndoesAt(enc, dec, c)
  }

  predicate UndoesAt(enc: Encoder, dec: Decoder, c: string)
  {
    IsHex(c) && |c| == 8 ==> |enc(c)| == 3 && dec(enc(c)) == Ok(Lower(c))
  }

  lemma LowerConcat(a: string, b: string)
    ensures Lower(a + b) == Lower(a) + Lower(b)
  {
  }

  /** A decoder that undoes an encoder on chunks undoes it on messages. */
  lemma {:induction false} MessageRoundTrip(enc: Encoder, dec: Decoder, message: string)
    requires IsHex(message) && |message| % 8 == 0 && Undoes(enc, dec)
    ensures |EncodeAll(enc, message)| % 3 == 0
    ensures DecodeAll(dec, EncodeAll(enc, message)) == Ok(Lower(message))
    decreases |message|
  {
    if message == [] {
      assert Lower("") == "";
    } else {
      var first, rest := message[..8], message[8..];
      MessageRoundTrip(enc, dec, rest);
      assert UndoesAt(enc, dec, first);
      LowerConcat(first, rest);
      assert message == first + rest;
    }
  }

  /** Main result: any hex string that encodes decodes back to itself in lower case. */
  lemma DecodeEncode(words: seq<string>, message: string)
    requires IsWordList(words) && IsHex(message) && |message| % 8 == 0
    ensures Encoded(words, message).Ok?
    ensures Decoded(words, Encoded(words, message).value) == Ok(Lower(message))
  {
    ListIsBackAndForth(words);
    MessageRoundTrip(EncoderOf(words), DecoderOf(words), message);
  }

  // ----- encoding what was decoded ----------------------------------------

  function LowerAll(list: seq<string>): (r: seq<string>)
    ensures |r| == |list|
  {
    seq(|list|, i requires 0 <= i < |list| => Lower(list[i]))
  }

  /** The number of groups whose value needs more than eight digits. */
  function Oversized(dec: Decoder, list: seq<string>): nat
  {
    if |list| < 3 then 0
    else
      var text := dec(list[..3]);
      (if text.Ok? && |text.value| != 8 then 1 else 0) + Oversized(dec, list[3..])
  }

  /** A chunk decodes to eight digits exactly when its value fits 32 bits, to
      nine otherwise; eight digits encode back to the chunk's words. */
  lemma ChunkBack(words: seq<string>, list: seq<string>)
    requires IsWordList(words) && |list| == 3 && GroupOf(words, list).Ok?
    ensures var text := DecodeChunk(words, list).value;
            && IsHex(text)
            && |text| == (if DecodeGroup(GroupOf(words, list).value) < 0x1_0000_0000 then 8 else 9)
            && EncodeChunk(words, text) == LowerAll(list)
  {
    var w := GroupOf(words, list).value;
    GroupDecodes(w);
    FormatLength(DecodeGroup(w), 8);
    ParseFormat(DecodeGroup(w), 8);
  }

  /** What `ChunkBack` says of a pair of chunk functions. */
  ghost predicate BackAndForth(enc: Encoder, dec: Decoder)
  {
    forall c: seq<string> :: BackAt(enc, dec, c)
  }

  predicate BackAt(enc: Encoder, dec: Decoder, c: seq<string>)
  {
    |c| == 3 && dec(c).Ok? ==>
      IsHex(dec(c).value) && 8 <= |dec(c).value| <= 9 && enc(dec(c).value) == LowerAll(c)
  }

  lemma {:induction false} DecodedLength(enc: Encoder, dec: Decoder, list: seq<string>)
    requires BackAndForth(enc, dec) && |list| % 3 == 0 && DecodeAll(dec, list).Ok?
    ensures IsHex(DecodeAll(dec, list).value)
    ensures |DecodeAll(dec, list).value| == |list| / 3 * 8 + Oversized(dec, list)
    decreases |list|
  {
    if list != [] {
      assert BackAt(enc, dec, list[..3]);
      DecodedLength(enc, dec, list[3..]);
    }
  }

  lemma {:induction false} EncodedLength(enc: Encoder, dec: Decoder, message: string)
    requires IsHex(message) && |message| % 8 == 0
    requires Undoes(enc, dec)
    ensures |EncodeAll(enc, message)| == |message| / 8 * 3
    decreases |message|
  {
    if message != [] {
      assert UndoesAt(enc, dec, message[..8]);
      EncodedLength(enc, dec, message[8..]);
    }
  }

  lemma {:induction false} FittingListReencodes(enc: Encoder, dec: Decoder, list: seq<string>)
    requires BackAndForth(enc, dec) && |list| % 3 == 0
    requires DecodeAll(dec, list).Ok? && Oversized(dec, list) == 0
    ensures EncodeAll(enc, DecodeAll(dec, list).value) == LowerAll(list)
    decreases |list|
  {
    if list != [] {
      assert BackAt(enc, dec, list[..3]);
      FittingListReencodes(enc, dec, list[3..]);
      var first, rest := dec(list[..3]).value, DecodeAll(dec, list[3..]).value;
      var text := first + rest;
      assert text[..8] == first && text[8..] == rest;
      assert LowerAll(list) == LowerAll(list[..3]) + LowerAll(list[3..]);
    } else {
      assert LowerAll([]) == [];
    }
  }

  /** A text of the right length for its words holds no oversized group. */
  lemma LengthsTell(words: nat, digits: nat, oversized: nat)
    requires words % 3 == 0 && digits == words / 3 * 8 + oversized && digits % 8 == 0
    ensures digits / 8 * 3 == words ==> oversized == 0
  {
  }

  /** The words decode to the text. */
  predicate Reads(dec: Decoder, list: seq<string>, text: string)
  {
    DecodeAll(dec, list) == Ok(text)
  }

  /** The text encodes to the words. */
  predicate Writes(enc: Encoder, text: string, list: seq<string>)
  {
    |text| % 8 == 0 && EncodeAll(enc, text) == list
  }

  predicate NoneOversized(dec: Decoder, list: seq<string>)
  {
    Oversized(dec, list) == 0
  }

  lemma ReadIsHex(enc: Encoder, dec: Decoder, list: seq<string>, text: string)
    requires BackAndForth(enc, dec) && |list| % 3 == 0 && Reads(dec, list, text)
    ensures IsHex(text)
  {
    DecodedLength(enc, dec, list);
  }

  /** A text that encodes to as many words as it came from holds no oversized group. */
  lemma ReencodedFits(enc: Encoder, dec: Decoder, list: seq<string>, text: string)
    requires BackAndForth(enc, dec) && Undoes(enc, dec) && |list| % 3 == 0
    requires Reads(dec, list, text) && Writes(enc, text, LowerAll(list))
    ensures NoneOversized(dec, list)
  {
    DecodedLength(enc, dec, list);
    EncodedLength(enc, dec, text);
    LengthsTell(|list|, |text|, Oversized(dec, list));
  }

  lemma FittingReencodes(enc: Encoder, dec: Decoder, list: seq<string>, text: string)
    requires BackAndForth(enc, dec) && |list| % 3 == 0
    requires Reads(dec, list, text) && NoneOversized(dec, list)
    ensures Writes(enc, text, LowerAll(list))
  {
    DecodedLength(enc, dec, list);
    FittingListReencodes(enc, dec, list);
  }

  lemma ListIsBackAndForth(words: seq<string>)
    requires IsWordList(words)
    ensures BackAndForth(EncoderOf(words), DecoderOf(words)) && Undoes(EncoderOf(words), DecoderOf(words))
  {
    var enc, dec := EncoderOf(words), DecoderOf(words);
    forall c: seq<string>
      ensures BackAt(enc, dec, c)
    {
      if |c| == 3 && dec(c).Ok? {
        ChunkBack(words, c);
      }
    }
    forall c: string
      ensures UndoesAt(enc, dec, c)
    {
      if IsHex(c) && |c| == 8 {
        ChunkRoundTrip(words, c);
      }
    }
  }

  /** The value of three words fits 32 bits. */
  predicate GroupFits(words: seq<string>, group: seq<string>)
    requires |words| == N && |group| == 3
  {
    GroupOf(words, group).Ok? ==> DecodeGroup(GroupOf(words, group).value) < 0x1_0000_0000
  }

  predicate AllGroupsFit(words: seq<string>, list: seq<string>)
    requires |words| == N
  {
    forall i :: 0 <= i < |list| / 3 ==> GroupFits(words, list[3 * i..3 * i + 3])
  }

  lemma FirstGroupAndRest(words: seq<string>, list: seq<string>)
    requires |words| == N && |list| >= 3
    ensures AllGroupsFit(words, list) <==> GroupFits(words, list[..3]) && AllGroupsFit(words, list[3..])
  {
    var rest := list[3..];
    assert list[3 * 0..3 * 0 + 3] == list[..3];
    if AllGroupsFit(words, list) {
      assert GroupFits(words, list[3 * 0..3 * 0 + 3]);
      forall i | 0 <= i < |rest| / 3
        ensures GroupFits(words, rest[3 * i..3 * i + 3])
      {
        assert GroupFits(words, list[3 * (i + 1)..3 * (i + 1) + 3]);
        GroupOfRest(list, i);
      }
    }
    if GroupFits(words, list[..3]) && AllGroupsFit(words, rest) {
      forall i | 0 <= i < |list| / 3
        ensures GroupFits(words, list[3 * i..3 * i + 3])
      {
        if i > 0 {
          assert GroupFits(words, rest[3 * (i - 1)..3 * (i - 1) + 3]);
          GroupOfRest(list, i - 1);
        }
      }
    }
  }

  lemma GroupOfRest(list: seq<string>, i: nat)
    requires 3 * (i + 1) + 3 <= |list|
    ensures list[3..][3 * i..3 * i + 3] == list[3 * (i + 1)..3 * (i + 1) + 3]
  {
  }

  /** The decoder prints eight digits exactly for the groups that fit. */
  ghost predicate PrintsBySize(words: seq<string>, dec: Decoder)
    requires |words| == N
  {
    forall c: seq<string> :: PrintsAt(words, dec, c)
  }

  predicate PrintsAt(words: seq<string>, dec: Decoder, c: seq<string>)
    requires |words| == N
  {
    |c| == 3 && dec(c).Ok? ==> (|dec(c).value| == 8 <==> GroupFits(words, c))
  }

  lemma ListPrintsBySize(words: seq<string>)
    requires IsWordList(words)
    ensures PrintsBySize(words, DecoderOf(words))
  {
    forall c: seq<string>
      ensures PrintsAt(words, DecoderOf(words), c)
    {
      if |c| == 3 && DecoderOf(words)(c).Ok? {
        ChunkBack(words, c);
      }
    }
  }

  lemma OversizedFirst(dec: Decoder, list: seq<string>)
    requires |list| >= 3 && DecodeAll(dec, list).Ok?
    ensures dec(list[..3]).Ok? && DecodeAll(dec, list[3..]).Ok?
    ensures NoneOversized(dec, list) <==> |dec(list[..3]).value| == 8 && NoneOversized(dec, list[3..])
  {
  }

  lemma TooLargeStep(words: seq<string>, dec: Decoder, list: seq<string>)
    requires |words| == N && PrintsBySize(words, dec) && |list| >= 3 && DecodeAll(dec, list).Ok?
    ensures NoneOversized(dec, list) <==> GroupFits(words, list[..3]) && NoneOversized(dec, list[3..])
    ensures DecodeAll(dec, list[3..]).Ok?
  {
    OversizedFirst(dec, list);
    assert PrintsAt(words, dec, list[..3]);
  }

  /** No group is oversized exactly when every value fits. */
  lemma {:induction false} OversizedIffTooLarge(words: seq<string>, dec: Decoder, list: seq<string>)
    requires |words| == N && PrintsBySize(words, dec)
    requires |list| % 3 == 0 && DecodeAll(dec, list).Ok?
    ensures NoneOversized(dec, list) <==> AllGroupsFit(words, list)
    decreases |list|
  {
    if list != [] {
      TooLargeStep(words, dec, list);
      OversizedIffTooLarge(words, dec, list[3..]);
      FirstGroupAndRest(words, list);
    }
  }

  /** Main result: a list of known words decodes, and the text encodes back to the
      same words (in lower case) exactly when the value of every three words fits
      32 bits. A larger one prints nine digits, and the text no longer splits into
      the groups it came from. */
  lemma ReencodeIffAllGroupsFit(words: seq<string>, list: seq<string>)
    requires IsWordList(words) && Decoded(words, list).Ok?
    ensures Encoded(words, Decoded(words, list).value) == Ok(LowerAll(list))
            <==> AllGroupsFit(words, list)
  {
    var enc, dec := EncoderOf(words), DecoderOf(words);
    var text := Decoded(words, list).value;
    ListIsBackAndForth(words);
    ListPrintsBySize(words);
    OversizedIffTooLarge(words, dec, list);
    ReadIsHex(enc, dec, list, text);
    assert Encoded(words, text) == Ok(LowerAll(list)) <==> Writes(enc, text, LowerAll(list));
    if Writes(enc, text, LowerAll(list)) {
      ReencodedFits(enc, dec, list, text);
    }
    if NoneOversized(dec, list) {
      FittingReencodes(enc, dec, list, text);
    }
  }

  /** The largest group: three words for a value of more than 32 bits. They decode,
      and what they decode to does not encode back to them. */
  lemma OversizedGroupExists(words: seq<string>)
    requires IsWordList(words)
    ensures var list := [words[1625], words[1624], words[1623]];
            && GroupOf(words, list).Ok? && DecodeGroup(GroupOf(words, list).value) == GROUP_VALUES - 1
            && Decoded(words, list).Ok?
            && Encoded(words, Decoded(words, list).value) != Ok(LowerAll(list))
  {
    var list := [words[1625], words[1624], words[1623]];
    assert DecodeGroup((1625, 1624, 1623)) == GROUP_VALUES - 1;
    assert list[..3] == list && list[3..] == [];
    assert DecoderOf(words)(list) == DecodeChunk(words, list);
    assert DecodeAll(DecoderOf(words), list).Ok?;
    assert list[3 * 0..3 * 0 + 3] == list;
    assert !GroupFits(words, list[3 * 0..3 * 0 + 3]);
    ReencodeIffAllGroupsFit(words, list);
  }

  // ----- which words, and which digits ------------------------------------

  /** The value of a digit is its place among the digits. */
  lemma DigitsCount(i: nat)
    requires i < 16
    ensures HexValue("0123456789abcdef"[i]) == i && HexValue("0123456789ABCDEF"[i]) == i
    ensures HexChar(i) == "0123456789abcdef"[i]
  {
  }

  /** A digit before others counts sixteen times as much for each of them. */
  lemma {:induction false} ParseConcat(a: string, b: string)
    requires IsHex(a) && IsHex(b)
    ensures IsHex(a + b) && ParseHex(a + b) == ParseHex(a) * Pow16(|b|) + ParseHex(b)
    ensures |b| == 1 ==> ParseHex(b) == HexValue(b[0])
    decreases |b|
  {
    if b == "" {
      assert a + b == a;
    } else {
      var front, last := b[..|b| - 1], b[|b| - 1];
      assert (a + b)[..|a + b| - 1] == a + front && (a + b)[|a + b| - 1] == last;
      ParseConcat(a, front);
      MoveSixteen(ParseHex(a), Pow16(|front|));
      assert |b| == 1 ==> front == "";
    }
  }

  lemma MoveSixteen(a: nat, b: nat)
    ensures 16 * (a * b) == a * (16 * b)
  {
  }

  /** The three positions of a value are its digits to base 1626, the least first, and
      each but the first is offset by the position before it. */
  lemma GroupSpells(x: nat) returns (d1: nat, d2: nat)
    requires x < GROUP_VALUES
    ensures d1 < 1626 && d2 < 1626
    ensures var w := EncodeGroup(x);
            && x == w.0 + 1626 * d1 + 1626 * 1626 * d2
            && w.1 == (w.0 + d1) % 1626 && w.2 == (w.1 + d2) % 1626
  {
    d1, d2 := x / N % N, x / N / N;
    assert x == x % N + N * (x / N) && x / N == d1 + N * d2;
    assert (x / N + x % N) % N == (d1 + x % N) % N;
  }

  lemma EncodeOneChunk(enc: Encoder, message: string)
    requires |message| >= 8
    ensures EncodeAll(enc, message) == enc(message[..8]) + EncodeAll(enc, message[8..])
  {
  }

  /** Eight digits of a message. */
  function Piece(message: string, i: nat): (r: string)
    requires 8 * i + 8 <= |message|
    ensures |r| == 8
  {
    message[8 * i..8 * i + 8]
  }

  ghost predicate ThreeForEach(enc: Encoder, message: string)
  {
    forall i: nat :: 8 * i + 8 <= |message| ==> |enc(Piece(message, i))| == 3
  }

  lemma PieceOfRest(message: string, i: nat)
    requires 8 * i + 16 <= |message|
    ensures Piece(message[8..], i) == Piece(message, i + 1)
  {
  }

  lemma ThreeForRest(enc: Encoder, message: string)
    requires |message| >= 8 && ThreeForEach(enc, message)
    ensures ThreeForEach(enc, message[8..]) && |enc(message[..8])| == 3
  {
    assert Piece(message, 0) == message[..8];
    forall i: nat | 8 * i + 8 <= |message[8..]|
      ensures |enc(Piece(message[8..], i))| == 3
    {
      PieceOfRest(message, i);
    }
  }

  /** The words of a message are those of its eight-digit pieces, in order. */
  lemma {:induction false} WordsInOrder(enc: Encoder, message: string, i: nat)
    requires |message| % 8 == 0 && 8 * i + 8 <= |message| && ThreeForEach(enc, message)
    ensures |EncodeAll(enc, message)| == 3 * (|message| / 8)
    ensures EncodeAll(enc, message)[3 * i..3 * i + 3] == enc(Piece(message, i))
    decreases |message|
  {
    var rest := message[8..];
    EncodeOneChunk(enc, message);
    ThreeForRest(enc, message);
    if rest != [] {
      WordsInOrder(enc, rest, if i == 0 then 0 else i - 1);
    }
    if i > 0 {
      PieceOfRest(message, i - 1);
    } else {
      assert Piece(message, 0) == message[..8];
    }
  }

  /** Main result: word by word, what a message encodes to. */
  lemma EncodedWords(words: seq<string>, message: string, i: nat)
    requires |words| == N && IsHex(message) && |message| % 8 == 0 && 8 * i + 8 <= |message|
    ensures Encoded(words, message).Ok? && |Encoded(words, message).value| == 3 * (|message| / 8)
    ensures var w := EncodeGroup(ParseHex(Piece(message, i)));
            Encoded(words, message).value[3 * i..3 * i + 3] == [words[w.0], words[w.1], words[w.2]]
  {
    WordsInOrder(EncoderOf(words), message, i);
  }

  /** The word, in lower case, is in the list. */
  predicate Known(words: seq<string>, word: string)
  {
    Lower(word) in words
  }

  /** What three known words decode to: lower-case digits, eight or nine of them,
      for the value of the words' positions. */
  lemma DecodedDigits(words: seq<string>, list: seq<string>)
    requires IsWordList(words) && |list| == 3 && GroupOf(words, list).Ok?
    ensures var w, text := GroupOf(words, list).value, DecodeChunk(words, list).value;
            && words[w.0] == Lower(list[0]) && words[w.1] == Lower(list[1]) && words[w.2] == Lower(list[2])
            && IsHex(text) && Lower(text) == text && 8 <= |text| <= 9
            && ParseHex(text) == w.0 + 1626 * ((w.1 - w.0) % 1626) + 1626 * 1626 * ((w.2 - w.1) % 1626)
            && (|text| == 9 <==> ParseHex(text) >= 0x1_0000_0000)
  {
    var w := GroupOf(words, list).value;
    ChunkBack(words, list);
    ParseFormat(DecodeGroup(w), 8);
    FormatIsLower(DecodeGroup(w), 8);
  }

  lemma {:induction false} FormatIsLower(v: nat, width: nat)
    ensures Lower(FormatHex(v, width)) == FormatHex(v, width)
    decreases v + width
  {
    if width > 0 || v > 0 {
      FormatIsLower(v / 16, if width == 0 then 0 else width - 1);
      LowerConcat(FormatHex(v / 16, if width == 0 then 0 else width - 1), [HexChar(v % 16)]);
    }
  }

  /** Whole triples decode one after the other, and the first error decides. */
  lemma {:induction false} DecodeInOrder(dec: Decoder, a: seq<string>, b: seq<string>)
    requires |a| % 3 == 0
    ensures DecodeAll(dec, a + b) ==
            match DecodeAll(dec, a) case Err(e) => Err(e) case Ok(text) => Prepend(text, DecodeAll(dec, b))
    ensures |b| == 3 ==> DecodeAll(dec, b) == dec(b)
    decreases |a|
  {
    if |b| == 3 {
      assert b[..3] == b && b[3..] == [];
      assert dec(b).Ok? ==> dec(b).value + "" == dec(b).value;
    }
    if a == [] {
      assert a + b == b;
      EmptyPrepend(DecodeAll(dec, b));
    } else {
      assert (a + b)[..3] == a[..3] && (a + b)[3..] == a[3..] + b;
      DecodeInOrder(dec, a[3..], b);
      if dec(a[..3]).Ok? && DecodeAll(dec, a[3..]).Ok? {
        PrependTwice(dec(a[..3]).value, DecodeAll(dec, a[3..]).value, DecodeAll(dec, b));
      }
    }
  }

  /** Position `k` holds the first word that is not in the list. */
  predicate FirstUnknown(words: seq<string>, list: seq<string>, k: nat)
  {
    k < |list| && !Known(words, list[k]) && forall i :: 0 <= i < k ==> Known(words, list[i])
  }

  lemma {:induction false} IndexIffKnown(words: seq<string>, word: string)
    ensures WordIndex(words, word).Some? <==> word in words
  {
    if words != [] && words[0] != word {
      IndexIffKnown(words[1..], word);
    }
  }

  /** The error names, in lower case, the first word that is not in the list. */
  ghost predicate NamesFirstUnknown(words: seq<string>, list: seq<string>, e: MnemonicError)
  {
    exists k: nat :: FirstUnknown(words, list, k) && e == WordNotFound(Lower(list[k]))
  }

  lemma GroupFailsAtFirstUnknown(words: seq<string>, list: seq<string>)
    requires |words| == N && |list| == 3
    ensures match GroupOf(words, list)
            case Ok(_) => forall i :: 0 <= i < 3 ==> Known(words, list[i])
            case Err(e) => NamesFirstUnknown(words, list, e)
  {
    IndexIffKnown(words, Lower(list[0]));
    IndexIffKnown(words, Lower(list[1]));
    IndexIffKnown(words, Lower(list[2]));
    if GroupOf(words, list).Err? {
      var k: nat := if !Known(words, list[0]) then 0 else if !Known(words, list[1]) then 1 else 2;
      assert FirstUnknown(words, list, k);
    }
  }

  /** Main result: a list decodes exactly when every word is known, and otherwise the
      first unknown word is reported. */
  lemma {:induction false} DecodeFailsAtFirstUnknown(words: seq<string>, list: seq<string>)
    requires |words| == N && |list| % 3 == 0
    ensures match Decoded(words, list)
            case Ok(_) => forall i :: 0 <= i < |list| ==> Known(words, list[i])
            case Err(e) => NamesFirstUnknown(words, list, e)
    decreases |list|
  {
    if list != [] {
      var first, rest := list[..3], list[3..];
      GroupFailsAtFirstUnknown(words, first);
      DecodeFailsAtFirstUnknown(words, rest);
      assert list == first + rest;
      if GroupOf(words, first).Err? {
        UnknownHere(words, list, GroupOf(words, first).error);
      } else if Decoded(words, rest).Err? {
        UnknownLater(words, list, Decoded(words, rest).error);
      }
    }
  }

  lemma UnknownHere(words: seq<string>, list: seq<string>, e: MnemonicError)
    requires |list| >= 3 && NamesFirstUnknown(words, list[..3], e)
    ensures NamesFirstUnknown(words, list, e)
  {
    var k: nat :| FirstUnknown(words, list[..3], k) && e == WordNotFound(Lower(list[..3][k]));
    forall i | 0 <= i < k
      ensures Known(words, list[i])
    {
      assert list[i] == list[..3][i];
    }
    assert FirstUnknown(words, list, k);
  }

  lemma UnknownLater(words: seq<string>, list: seq<string>, e: MnemonicError)
    requires |list| >= 3 && NamesFirstUnknown(words, list[3..], e)
    requires forall i :: 0 <= i < 3 ==> Known(words, list[..3][i])
    ensures NamesFirstUnknown(words, list, e)
  {
    var k: nat :| FirstUnknown(words, list[3..], k) && e == WordNotFound(Lower(list[3..][k]));
    forall i | 0 <= i < k + 3
      ensures Known(words, list[i])
    {
      if i < 3 {
        assert list[i] == list[..3][i];
      } else {
        assert list[i] == list[3..][i - 3];
      }
    }
    assert FirstUnknown(words, list, k + 3);
  }
}
