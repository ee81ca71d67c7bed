/** Accumulator multisig: the locking script, the unlocking script, and what the
    two mean on the script machine (core/multisig.rs). */
module Multisig {
  import opened Common
  import opened Script

  datatype MultisigError =
    | NoPublicKeys
    | InvalidThreshold
    | InsufficientSignatures(have: nat, needed: nat)
    | MissingSignature(index: nat)
    | MissingPublicKey(index: nat)

  datatype Output = Output(publicKeys: seq<Bytes>, threshold: i64)

  predicate WellFormed(o: Output)
  {
    1 <= o.threshold <= |o.publicKeys| <= I64_MAX
  }

  function NewOutput(publicKeys: seq<Bytes>, threshold: i64): (r: Result<Output, MultisigError>)
    requires |publicKeys| <= I64_MAX
    ensures r.Ok? <==> 1 <= threshold <= |publicKeys|
    ensures r.Ok? ==> WellFormed(r.value) && r.value == Output(publicKeys, threshold)
  {
    if publicKeys == [] then Err(NoPublicKeys)
    else if threshold < 1 || threshold > |publicKeys| then Err(InvalidThreshold)
    else Ok(Output(publicKeys, threshold))
  }

  // ----- the locking script -----------------------------------------------

  /** A key hash is 20 bytes. */
  ghost predicate ShortHash(hash160: Bytes -> Bytes)
  {
    forall x :: |hash160(x)| == 20
  }

  const OPEN: Bytes := [OP_IF, OP_DUP, OP_HASH160]
  const CLOSE: Bytes := [OP_EQUALVERIFY, OP_CHECKSIGVERIFY, OP_FROMALTSTACK, OP_1ADD, OP_TOALTSTACK, OP_ENDIF]

  function KeyBlock(hash: Bytes): Bytes
    requires |hash| == 20
  {
    OPEN + PushItem(hash) + CLOSE
  }

  function KeyBlocks(hashes: seq<Bytes>): Bytes
    requires forall i :: 0 <= i < |hashes| ==> |hashes[i]| == 20
  {
    if hashes == [] then [] else KeyBlock(hashes[0]) + KeyBlocks(hashes[1..])
  }

  function KeyHashes(hash160: Bytes -> Bytes, keys: seq<Bytes>): (r: seq<Bytes>)
    ensures |r| == |keys| && forall i :: 0 <= i < |r| ==> r[i] == hash160(keys[i])
  {
    seq(|keys|, i requires 0 <= i < |keys| => hash160(keys[i]))
  }

  function LockBytes(hashes: seq<Bytes>, threshold: i64): Bytes
    requires forall i :: 0 <= i < |hashes| ==> |hashes[i]| == 20
  {
    [0, OP_TOALTSTACK] + KeyBlocks(hashes) + [OP_FROMALTSTACK] + PushInt(threshold) + [OP_GREATERTHANOREQUAL]
  }

  lemma {:induction false} KeyBlocksConcat(a: seq<Bytes>, b: seq<Bytes>)
    requires forall i :: 0 <= i < |a| ==> |a[i]| == 20
    requires forall i :: 0 <= i < |b| ==> |b[i]| == 20
    ensures KeyBlocks(a + b) == KeyBlocks(a) + KeyBlocks(b)
  {
    if a == [] {
      assert a + b == b;
    } else {
      assert (a + b)[1..] == a[1..] + b;
      KeyBlocksConcat(a[1..], b);
    }
  }

  lemma KeyBlocksStep(hashes: seq<Bytes>, i: nat)
    requires i < |hashes| && forall k :: 0 <= k < |hashes| ==> |hashes[k]| == 20
    ensures KeyBlocks(hashes[..i + 1]) == KeyBlocks(hashes[..i]) + KeyBlock(hashes[i])
  {
    var one := [hashes[i]];
    assert hashes[..i + 1] == hashes[..i] + one;
    KeyBlocksConcat(hashes[..i], one);
    assert one[1..] == [];
    assert KeyBlocks(one) == KeyBlock(hashes[i]) + KeyBlocks([]);
  }

  lemma {:induction false} BlocksLength(hashes: seq<Bytes>)
    requires forall i :: 0 <= i < |hashes| ==> |hashes[i]| == 20
    ensures |KeyBlocks(hashes)| == 30 * |hashes|
  {
    if hashes != [] {
      BlocksLength(hashes[1..]);
    }
  }

  /** Thirty bytes put before others. */
  lemma BlockBefore(first: Bytes, rest: Bytes, i: nat)
    requires |first| == 30 && 30 * i <= |rest|
    ensures (first + rest)[30 * i..30 * i + 30] == if i == 0 then first else rest[30 * (i - 1)..30 * (i - 1) + 30]
  {
  }

  lemma BlockBytes(hash: Bytes)
    requires |hash| == 20
    ensures KeyBlock(hash) == [0x63, 0x76, 0xa9, 20] + hash + [0x88, 0xad, 0x6c, 0x8b, 0x6b, 0x68]
    ensures |KeyBlock(hash)| == 30
  {
  }

  /** The block of key `i` stands at its place. */
  lemma {:induction false} BlockAt(hashes: seq<Bytes>, i: nat)
    requires i < |hashes| && forall k :: 0 <= k < |hashes| ==> |hashes[k]| == 20
    ensures |KeyBlocks(hashes)| == 30 * |hashes|
    ensures KeyBlocks(hashes)[30 * i..30 * i + 30] == KeyBlock(hashes[i])
  {
    BlocksLength(hashes);
    BlocksLength(hashes[1..]);
    BlockBytes(hashes[0]);
    BlockBefore(KeyBlock(hashes[0]), KeyBlocks(hashes[1..]), i);
    if i > 0 {
      BlockAt(hashes[1..], i - 1);
    }
  }

  /** The locking script, byte for byte: two bytes, thirty for each key in order,
      and the comparison with the threshold. */
  lemma LockLayout(hashes: seq<Bytes>, threshold: i64, i: nat)
    requires i < |hashes| && forall k :: 0 <= k < |hashes| ==> |hashes[k]| == 20
    ensures var script, end := LockBytes(hashes, threshold), 2 + 30 * |hashes|;
            && |script| == end + |PushInt(threshold)| + 2
            && script[..2] == [0x00, 0x6b]
            && script[2 + 30 * i..2 + 30 * i + 30]
               == [0x63, 0x76, 0xa9, 20] + hashes[i] + [0x88, 0xad, 0x6c, 0x8b, 0x6b, 0x68]
            && script[end..] == [0x6c] + PushInt(threshold) + [0xa2]
  {
    BlockAt(hashes, i);
    BlockBytes(hashes[i]);
    LockParts(hashes, threshold);
    TailLayout(threshold);
    LayoutParts(LockBytes(hashes, threshold), KeyBlocks(hashes), Tail(threshold), |hashes|, i, KeyBlock(hashes[i]));
  }

  lemma TailLayout(threshold: i64)
    ensures Tail(threshold) == [0x6c] + PushInt(threshold) + [0xa2] && |Tail(threshold)| == |PushInt(threshold)| + 2
    ensures 1 <= threshold <= 16 ==> PushInt(threshold) == [0x50 + threshold]
  {
  }

  lemma LayoutParts(script: Bytes, blocks: Bytes, tail: Bytes, n: nat, i: nat, block: Bytes)
    requires script == Head() + blocks + tail && |blocks| == 30 * n
    requires i < n && blocks[30 * i..30 * i + 30] == block
    ensures |script| == 2 + 30 * n + |tail| && script[..2] == [0x00, 0x6b]
    ensures script[2 + 30 * i..2 + 30 * i + 30] == block && script[2 + 30 * n..] == tail
  {
  }

  method ToScriptBytes(hash160: Bytes -> Bytes, o: Output) returns (script: Bytes)
    requires ShortHash(hash160)
    ensures script == LockBytes(KeyHashes(hash160, o.publicKeys), o.threshold)
  {
    ghost var hashes := KeyHashes(hash160, o.publicKeys);
    var blocks: Bytes := [];
    for i := 0 to |o.publicKeys|
      invariant blocks == KeyBlocks(hashes[..i])
    {
      var h160 := hash160(o.publicKeys[i]);
      KeyBlocksStep(hashes, i);
      blocks := blocks + KeyBlock(h160);
    }
    assert hashes[..|o.publicKeys|] == hashes;
    var push := BuildPushInt(o.threshold);
    script := [0, OP_TOALTSTACK] + blocks + [OP_FROMALTSTACK] + push + [OP_GREATERTHANOREQUAL];
  }

  // ----- what the locking script parses to --------------------------------

  function Codes(cs: Bytes): (r: seq<Op>)
    ensures |r| == |cs| && forall i :: 0 <= i < |cs| ==> r[i] == Code(cs[i])
  {
    seq(|cs|, i requires 0 <= i < |cs| => Code(cs[i]))
  }

  lemma CodesCons(c: byte, rest: Bytes)
    ensures Codes([c] + rest) == [Code(c)] + Codes(rest)
  {
  }

  lemma {:induction false} ParseCodes(cs: Bytes)
    requires forall i :: 0 <= i < |cs| ==> cs[i] > OP_16
    ensures Parse(cs) == Some(Codes(cs))
  {
    if cs == [] {
      assert Codes(cs) == [];
    } else {
      var c, rest := cs[0], cs[1..];
      assert cs == [c] + rest;
      ParseCodes(rest);
      ParseCode(c);
      ParseConcat([c], rest);
      CodesCons(c, rest);
    }
  }

  function KeyOps(hash: Bytes): seq<Op>
  {
    Codes(OPEN) + [Push(hash)] + Codes(CLOSE)
  }

  lemma ParseKeyBlock(hash: Bytes)
    requires |hash| == 20
    ensures Parse(KeyBlock(hash)) == Some(KeyOps(hash))
  {
    ParseCodes(OPEN);
    ParseCodes(CLOSE);
    ParsePushItem(hash);
    ParseConcat(OPEN, PushItem(hash));
    ParseConcat(OPEN + PushItem(hash), CLOSE);
  }

  function AllKeyOps(hashes: seq<Bytes>): seq<Op>
  {
    if hashes == [] then [] else KeyOps(hashes[0]) + AllKeyOps(hashes[1..])
  }

  lemma {:induction false} ParseKeyBlocks(hashes: seq<Bytes>)
    requires forall i :: 0 <= i < |hashes| ==> |hashes[i]| == 20
    ensures Parse(KeyBlocks(hashes)) == Some(AllKeyOps(hashes))
  {
    if hashes != [] {
      ParseKeyBlock(hashes[0]);
      ParseKeyBlocks(hashes[1..]);
      ParseConcat(KeyBlock(hashes[0]), KeyBlocks(hashes[1..]));
    }
  }

  const PROLOGUE: seq<Op> := [Push([]), Code(OP_TOALTSTACK)]

  function Epilogue(threshold: i64): seq<Op>
  {
    [Code(OP_FROMALTSTACK), Push(EncodeNum(threshold)), Code(OP_GREATERTHANOREQUAL)]
  }

  function Head(): Bytes { [0, OP_TOALTSTACK] }

  function Tail(threshold: i64): Bytes
  {
    [OP_FROMALTSTACK] + PushInt(threshold) + [OP_GREATERTHANOREQUAL]
  }

  lemma ParsePrologue()
    ensures Parse(Head()) == Some(PROLOGUE)
  {
    ParsePushInt(0);
    ParseCode(OP_TOALTSTACK);
    ParseConcat(PushInt(0), [OP_TOALTSTACK]);
    assert [0, OP_TOALTSTACK] == PushInt(0) + [OP_TOALTSTACK];
    assert [Push(EncodeNum(0))] + [Code(OP_TOALTSTACK)] == PROLOGUE;
  }

  lemma ParseEpilogue(threshold: i64)
    ensures Parse(Tail(threshold)) == Some(Epilogue(threshold))
  {
    ParseCode(OP_FROMALTSTACK);
    ParsePushInt(threshold);
    ParseCode(OP_GREATERTHANOREQUAL);
    ParseConcat([OP_FROMALTSTACK], PushInt(threshold));
    ParseConcat([OP_FROMALTSTACK] + PushInt(threshold), [OP_GREATERTHANOREQUAL]);
    assert [Code(OP_FROMALTSTACK)] + [Push(EncodeNum(threshold))] + [Code(OP_GREATERTHANOREQUAL)] == Epilogue(threshold);
  }

  lemma LockParts(hashes: seq<Bytes>, threshold: i64)
    requires forall i :: 0 <= i < |hashes| ==> |hashes[i]| == 20
    ensures LockBytes(hashes, threshold) == Head() + KeyBlocks(hashes) + Tail(threshold)
  {
    Regroup(Head() + KeyBlocks(hashes), [OP_FROMALTSTACK], PushInt(threshold), [OP_GREATERTHANOREQUAL]);
  }

  lemma Regroup(a: Bytes, b: Bytes, c: Bytes, d: Bytes)
    ensures a + b + c + d == a + (b + c + d)
  {
  }

  lemma ParseThree(a: Bytes, b: Bytes, c: Bytes, x: seq<Op>, y: seq<Op>, z: seq<Op>)
    requires Parse(a) == Some(x) && Parse(b) == Some(y) && Parse(c) == Some(z)
    ensures Parse(a + b + c) == Some(x + y + z)
  {
    ParseConcat(a, b);
    ParseConcat(a + b, c);
  }

  lemma ParseLock(hashes: seq<Bytes>, threshold: i64)
    requires forall i :: 0 <= i < |hashes| ==> |hashes[i]| == 20
    ensures Parse(LockBytes(hashes, threshold)) == Some(PROLOGUE + AllKeyOps(hashes) + Epilogue(threshold))
  {
    ParsePrologue();
    ParseKeyBlocks(hashes);
    ParseEpilogue(threshold);
    LockParts(hashes, threshold);
    ParseThree(Head(), KeyBlocks(hashes), Tail(threshold), PROLOGUE, AllKeyOps(hashes), Epilogue(threshold));
  }

  // ----- the meaning of the locking script --------------------------------

  /** The stack still to be consumed and the signatures counted so far. */
  datatype Tally = Tally(main: seq<Bytes>, count: nat)

  /** One key: a false flag passes it by; a true flag must be followed by a public
      key of the right hash and a signature that checks under it. */
  function CheckKey(chain: Chain, hash: Bytes, t: Tally): Option<Tally>
  {
    if t.main == [] then None
    else if !Truthy(t.main[0]) then Some(Tally(t.main[1..], t.count))
    else if |t.main| >= 3 && chain.hash160(t.main[1]) == hash && chain.checkSig(t.main[2], t.main[1])
    then Some(Tally(t.main[3..], t.count + 1))
    else None
  }

  function CheckKeys(chain: Chain, hashes: seq<Bytes>, t: Tally): Option<Tally>
  {
    if hashes == [] then Some(t)
    else match CheckKey(chain, hashes[0], t)
      case None => None
      case Some(next) => CheckKeys(chain, hashes[1..], next)
  }

  function Counting(t: Tally): Machine
  {
    Machine(t.main, [EncodeNum(t.count)], [])
  }

  lemma RunOne(chain: Chain, op: Op, rest: seq<Op>, m: Machine)
    ensures Run(chain, [op] + rest, m) ==
            match Step(chain, op, m) case None => None case Some(next) => Run(chain, rest, next)
  {
    assert ([op] + rest)[1..] == rest;
  }

  /** Inside a branch not taken, only conditionals have an effect. */
  lemma {:induction false} SkipAll(chain: Chain, ops: seq<Op>, m: Machine)
    requires m.conds != [] && !m.conds[0]
    requires forall i :: 0 <= i < |ops| && ops[i].Code? ==> ops[i].opcode !in {OP_IF, OP_NOTIF, OP_ELSE, OP_ENDIF}
    ensures Run(chain, ops, m) == Some(m)
    decreases |ops|
  {
    if ops != [] {
      assert Step(chain, ops[0], m) == Some(m);
      SkipAll(chain, ops[1..], m);
    }
  }

  function Body(hash: Bytes): seq<Op>
  {
    [Code(OP_DUP), Code(OP_HASH160), Push(hash), Code(OP_EQUALVERIFY), Code(OP_CHECKSIGVERIFY)]
  }

  const BUMP: seq<Op> := [Code(OP_FROMALTSTACK), Code(OP_1ADD), Code(OP_TOALTSTACK)]

  lemma KeyOpsParts(hash: Bytes)
    ensures KeyOps(hash) == [Code(OP_IF)] + (Body(hash) + (BUMP + [Code(OP_ENDIF)]))
  {
  }

  /** The three operations that put the hash of the key above the expected one. */
  lemma HashKeyRuns(chain: Chain, hash: Bytes, main: seq<Bytes>, alt: seq<Bytes>)
    ensures Run(chain, [Code(OP_DUP), Code(OP_HASH160), Push(hash)], Machine(main, alt, [true])) ==
            if main == [] then None
            else Some(Machine([hash, chain.hash160(main[0])] + main, alt, [true]))
  {
    var b := [Code(OP_DUP), Code(OP_HASH160), Push(hash)];
    var m := Machine(main, alt, [true]);
    assert b == [b[0]] + b[1..] && b[1..] == [b[1]] + b[2..] && b[2..] == [b[2]];
    RunOne(chain, b[0], b[1..], m);
    if main != [] {
      var m1 := Machine([main[0]] + main, alt, [true]);
      assert m1.main[1..] == main;
      RunOne(chain, b[1], b[2..], m1);
      var m2 := Machine([chain.hash160(main[0])] + main, alt, [true]);
      RunOne(chain, b[2], [], m2);
      assert [hash] + m2.main == [hash, chain.hash160(main[0])] + main;
    }
  }

  /** The two operations that compare and check. */
  lemma VerifyRuns(chain: Chain, hash: Bytes, found: Bytes, main: seq<Bytes>, alt: seq<Bytes>)
    ensures Run(chain, [Code(OP_EQUALVERIFY), Code(OP_CHECKSIGVERIFY)], Machine([hash, found] + main, alt, [true])) ==
            if found == hash && |main| >= 2 && chain.checkSig(main[1], main[0])
            then Some(Machine(main[2..], alt, [true])) else None
  {
    var b := [Code(OP_EQUALVERIFY), Code(OP_CHECKSIGVERIFY)];
    assert b == [b[0]] + [b[1]] && [b[1]] == [b[1]] + [];
    var m := Machine([hash, found] + main, alt, [true]);
    assert m.main[2..] == main;
    RunOne(chain, b[0], [b[1]], m);
    if hash == found {
      RunOne(chain, b[1], [], Machine(main, alt, [true]));
    }
  }

  /** Inside the taken branch: the key and signature are checked and consumed. */
  lemma BodyRuns(chain: Chain, hash: Bytes, main: seq<Bytes>, alt: seq<Bytes>)
    ensures Run(chain, Body(hash), Machine(main, alt, [true])) ==
            if |main| >= 2 && chain.hash160(main[0]) == hash && chain.checkSig(main[1], main[0])
            then Some(Machine(main[2..], alt, [true])) else None
  {
    var prepare, verify := [Code(OP_DUP), Code(OP_HASH160), Push(hash)], [Code(OP_EQUALVERIFY), Code(OP_CHECKSIGVERIFY)];
    assert Body(hash) == prepare + verify;
    RunConcat(chain, prepare, verify, Machine(main, alt, [true]));
    HashKeyRuns(chain, hash, main, alt);
    if main != [] {
      VerifyRuns(chain, hash, chain.hash160(main[0]), main, alt);
    }
  }

  /** The counter goes up by one. */
  lemma BumpRuns(chain: Chain, main: seq<Bytes>, count: nat)
    ensures Run(chain, BUMP, Machine(main, [EncodeNum(count)], [true])) ==
            Some(Machine(main, [EncodeNum(count + 1)], [true]))
  {
    DecodeEncode(count);
    EncodeIsMinimal(count);
    var m0 := Machine(main, [EncodeNum(count)], [true]);
    var m1 := Machine([EncodeNum(count)] + main, [], [true]);
    var m2 := Machine([EncodeNum(count + 1)] + main, [], [true]);
    var m3 := Machine(main, [EncodeNum(count + 1)], [true]);
    assert BUMP[1..] == [BUMP[1]] + BUMP[2..] && BUMP[2..] == [BUMP[2]];
    assert BUMP == [BUMP[0]] + BUMP[1..];
    assert m0.alt[1..] == [] && m1.main[1..] == main;
    RunOne(chain, BUMP[0], BUMP[1..], m0);
    assert Step(chain, BUMP[0], m0) == Some(m1);
    RunOne(chain, BUMP[1], BUMP[2..], m1);
    assert Step(chain, BUMP[1], m1) == Some(m2);
    assert m2.main[1..] == main;
    RunOne(chain, BUMP[2], [], m2);
    assert [m2.main[0]] + m2.alt == m3.alt;
    assert Step(chain, BUMP[2], m2) == Some(m3);
  }

  /** The operations of one key do to the machine what `CheckKey` says. */
  lemma KeyOpsMean(chain: Chain, hash: Bytes, t: Tally)
    ensures Run(chain, KeyOps(hash), Counting(t)) ==
            match CheckKey(chain, hash, t) case None => None case Some(next) => Some(Counting(next))
  {
    KeyOpsParts(hash);
    var tail := BUMP + [Code(OP_ENDIF)];
    var m := Counting(t);
    RunOne(chain, Code(OP_IF), Body(hash) + tail, m);
    if t.main != [] {
      assert [Truthy(t.main[0])] + m.conds == [Truthy(t.main[0])];
      assert Step(chain, Code(OP_IF), m) == Some(Machine(t.main[1..], m.alt, [Truthy(t.main[0])]));
      if Truthy(t.main[0]) {
        TakenBranch(chain, hash, t);
      } else {
        var skipping := Machine(t.main[1..], m.alt, [false]);
        SkipAll(chain, Body(hash) + BUMP, skipping);
        RunConcat(chain, Body(hash) + BUMP, [Code(OP_ENDIF)], skipping);
        assert Body(hash) + tail == Body(hash) + BUMP + [Code(OP_ENDIF)];
        RunOne(chain, Code(OP_ENDIF), [], skipping);
        assert skipping.conds[1..] == [];
        assert [Code(OP_ENDIF)] + [] == [Code(OP_ENDIF)];
      }
    }
  }

  lemma TakenBranch(chain: Chain, hash: Bytes, t: Tally)
    requires t.main != [] && Truthy(t.main[0])
    ensures Run(chain, Body(hash) + (BUMP + [Code(OP_ENDIF)]), Machine(t.main[1..], [EncodeNum(t.count)], [true])) ==
            match CheckKey(chain, hash, t) case None => None case Some(next) => Some(Counting(next))
  {
    var main := t.main[1..];
    var taken := Machine(main, [EncodeNum(t.count)], [true]);
    BodyRuns(chain, hash, main, taken.alt);
    RunConcat(chain, Body(hash), BUMP + [Code(OP_ENDIF)], taken);
    if CheckKey(chain, hash, t).Some? {
      assert main[2..] == t.main[3..];
      var checked := Machine(main[2..], taken.alt, [true]);
      BumpRuns(chain, main[2..], t.count);
      RunConcat(chain, BUMP, [Code(OP_ENDIF)], checked);
      var bumped := Machine(main[2..], [EncodeNum(t.count + 1)], [true]);
      RunOne(chain, Code(OP_ENDIF), [], bumped);
      assert bumped.conds[1..] == [];
      assert [Code(OP_ENDIF)] + [] == [Code(OP_ENDIF)];
    }
  }

  lemma {:induction false} AllKeyOpsMean(chain: Chain, hashes: seq<Bytes>, t: Tally)
    ensures Run(chain, AllKeyOps(hashes), Counting(t)) ==
            match CheckKeys(chain, hashes, t) case None => None case Some(end) => Some(Counting(end))
    decreases |hashes|
  {
    if hashes != [] {
      KeyOpsMean(chain, hashes[0], t);
      RunConcat(chain, KeyOps(hashes[0]), AllKeyOps(hashes[1..]), Counting(t));
      var next := CheckKey(chain, hashes[0], t);
      if next.Some? {
        AllKeyOpsMean(chain, hashes[1..], next.value);
      }
    }
  }

  function Flag(yes: bool): Bytes { if yes then TRUE else FALSE }

  lemma EpilogueMeans(chain: Chain, threshold: i64, t: Tally)
    ensures Run(chain, Epilogue(threshold), Counting(t)) ==
            Some(Machine([Flag(t.count >= threshold)] + t.main, [], []))
  {
    DecodeEncode(t.count);
    EncodeIsMinimal(t.count);
    DecodeEncode(threshold);
    EncodeIsMinimal(threshold);
    var e := Epilogue(threshold);
    assert e == [e[0]] + e[1..] && e[1..] == [e[1]] + e[2..] && e[2..] == [e[2]];
    var m0 := Counting(t);
    var m1 := Machine([EncodeNum(t.count)] + t.main, [], []);
    var m2 := Machine([EncodeNum(threshold)] + m1.main, [], []);
    assert m0.alt[1..] == [];
    RunOne(chain, e[0], e[1..], m0);
    RunOne(chain, e[1], e[2..], m1);
    RunOne(chain, e[2], [], m2);
    assert m2.main[2..] == t.main;
  }

  lemma PrologueMeans(chain: Chain, main: seq<Bytes>)
    ensures Run(chain, PROLOGUE, Machine(main, [], [])) == Some(Counting(Tally(main, 0)))
  {
    var m0 := Machine(main, [], []);
    var m1 := Machine([[]] + main, [], []);
    assert PROLOGUE == [PROLOGUE[0]] + PROLOGUE[1..] && PROLOGUE[1..] == [PROLOGUE[1]];
    RunOne(chain, PROLOGUE[0], PROLOGUE[1..], m0);
    RunOne(chain, PROLOGUE[1], [], m1);
    assert m1.main[1..] == main;
    assert [m1.main[0]] + m1.alt == [EncodeNum(0)];
  }

  /** Main result: the emitted bytes, parsed and run on any main stack, decide
      exactly "at least `threshold` of the keys checked". */
  lemma LockMeans(chain: Chain, hashes: seq<Bytes>, threshold: i64, main: seq<Bytes>)
    requires forall i :: 0 <= i < |hashes| ==> |hashes[i]| == 20
    ensures Execute(chain, LockBytes(hashes, threshold), main) ==
            match CheckKeys(chain, hashes, Tally(main, 0))
            case None => None
            case Some(end) => Some(Machine([Flag(end.count >= threshold)] + end.main, [], []))
  {
    ParseLock(hashes, threshold);
    var m := Machine(main, [], []);
    RunConcat(chain, PROLOGUE + AllKeyOps(hashes), Epilogue(threshold), m);
    RunConcat(chain, PROLOGUE, AllKeyOps(hashes), m);
    PrologueMeans(chain, main);
    AllKeyOpsMean(chain, hashes, Tally(main, 0));
    var end := CheckKeys(chain, hashes, Tally(main, 0));
    if end.Some? {
      EpilogueMeans(chain, threshold, end.value);
    }
  }

  // ----- soundness --------------------------------------------------------

  /** The stack holds a signature valid under a public key of that hash. */
  ghost predicate SignedOn(chain: Chain, hash: Bytes, main: seq<Bytes>)
  {
    exists sig, pubkey :: sig in main && pubkey in main && chain.hash160(pubkey) == hash && chain.checkSig(sig, pubkey)
  }

  /** Every unit of the count stands for a different key index with a valid
      signature on the stack. */
  lemma {:induction false} CountedKeysSigned(chain: Chain, hashes: seq<Bytes>, t: Tally, stack: seq<Bytes>)
    returns (signers: set<nat>)
    requires CheckKeys(chain, hashes, t).Some?
    requires forall x :: x in t.main ==> x in stack
    ensures |signers| == CheckKeys(chain, hashes, t).value.count - t.count
    ensures forall i :: i in signers ==> i < |hashes| && SignedOn(chain, hashes[i], stack)
    decreases |hashes|
  {
    if hashes == [] {
      signers := {};
    } else {
      var next := CheckKey(chain, hashes[0], t).value;
      var later := CountedKeysSigned(chain, hashes[1..], next, stack);
      var shifted := ShiftUp(later);
      if next.count == t.count {
        signers := shifted;
      } else {
        assert t.main[1] in stack && t.main[2] in stack;
        assert SignedOn(chain, hashes[0], stack);
        signers := {0} + shifted;
      }
    }
  }

  lemma ShiftUp(s: set<nat>) returns (r: set<nat>)
    ensures |r| == |s| && forall i :: i in r <==> i > 0 && i - 1 in s
  {
    r := {};
    var left := s;
    while left != {}
      invariant left <= s && |r| + |left| == |s|
      invariant forall i :: i in r <==> i > 0 && i - 1 in s && i - 1 !in left
      decreases left
    {
      var x := SomeIn(left);
      left := left - {x};
      r := r + {x + 1};
    }
  }

  lemma FlagIsTruthy()
    ensures Truthy(TRUE) && !Truthy(FALSE)
  {
    assert TRUE[0] != 0;
  }

  /** Main result, soundness: whatever main stack the spender leaves, if the
      locking script accepts, at least `threshold` different key indices each had
      a valid signature on that stack under a public key of that key's hash. */
  lemma AcceptanceNeedsThresholdSigners(chain: Chain, hash160: Bytes -> Bytes, o: Output, main: seq<Bytes>)
    returns (signers: set<nat>)
    requires ShortHash(hash160)
    requires Accepts(chain, LockBytes(KeyHashes(hash160, o.publicKeys), o.threshold), main)
    ensures |signers| >= o.threshold
    ensures forall i :: i in signers ==> i < |o.publicKeys| && SignedOn(chain, hash160(o.publicKeys[i]), main)
  {
    var hashes := KeyHashes(hash160, o.publicKeys);
    LockMeans(chain, hashes, o.threshold, main);
    FlagIsTruthy();
    signers := CountedKeysSigned(chain, hashes, Tally(main, 0), main);
  }

  /** The stack holds this public key and a signature valid under it. */
  ghost predicate KeySigns(chain: Chain, pubkey: Bytes, main: seq<Bytes>)
  {
    pubkey in main && exists sig :: sig in main && chain.checkSig(sig, pubkey)
  }

  predicate IsOneOf(chain: Chain, pubkey: Bytes, hashes: seq<Bytes>, i: nat)
  {
    i < |hashes| && chain.hash160(pubkey) == hashes[i]
  }

  /** Different hashes need different public keys. */
  lemma PubkeysOf(chain: Chain, hashes: seq<Bytes>, signers: set<nat>, main: seq<Bytes>) returns (pubkeys: set<Bytes>)
    requires PairwiseDistinct(hashes)
    requires forall i :: i in signers ==> i < |hashes| && SignedOn(chain, hashes[i], main)
    ensures |pubkeys| == |signers|
    ensures forall p :: p in pubkeys ==> KeySigns(chain, p, main) && exists i :: IsOneOf(chain, p, hashes, i)
  {
    pubkeys := {};
    var left := signers;
    while left != {}
      invariant left <= signers && |pubkeys| + |left| == |signers|
      invariant forall p :: p in pubkeys ==> KeySigns(chain, p, main)
      invariant forall p :: p in pubkeys ==> exists i :: IsOneOf(chain, p, hashes, i) && i !in left
      decreases left
    {
      var x := SomeIn(left);
      assert SignedOn(chain, hashes[x], main);
      var sig, p :| sig in main && p in main && chain.hash160(p) == hashes[x] && chain.checkSig(sig, p);
      assert IsOneOf(chain, p, hashes, x);
      assert p !in pubkeys;
      left := left - {x};
      pubkeys := pubkeys + {p};
    }
  }

  /** When the output's key hashes are pairwise distinct, acceptance needs at least
      `threshold` different public keys, each of one of the hashes and with a
      valid signature on the stack. */
  lemma AcceptanceNeedsThresholdKeys(chain: Chain, hash160: Bytes -> Bytes, o: Output, main: seq<Bytes>)
    returns (pubkeys: set<Bytes>)
    requires ShortHash(hash160)
    requires forall i, j :: 0 <= i < j < |o.publicKeys| ==> hash160(o.publicKeys[i]) != hash160(o.publicKeys[j])
    requires Accepts(chain, LockBytes(KeyHashes(hash160, o.publicKeys), o.threshold), main)
    ensures |pubkeys| >= o.threshold
    ensures forall p :: p in pubkeys ==>
              KeySigns(chain, p, main) && exists i :: IsOneOf(chain, p, KeyHashes(hash160, o.publicKeys), i)
  {
    var hashes := KeyHashes(hash160, o.publicKeys);
    var signers := AcceptanceNeedsThresholdSigners(chain, hash160, o, main);
    forall i, j | 0 <= i < j < |hashes|
      ensures hashes[i] != hashes[j]
    {
      assert hash160(o.publicKeys[i]) != hash160(o.publicKeys[j]);
    }
    pubkeys := PubkeysOf(chain, hashes, signers, main);
  }

  // ----- the unlocking script ---------------------------------------------

  /** What the spender brings: who signs, and by key index the signatures and public keys. */
  datatype Spend = Spend(signing: seq<nat>, signatures: map<nat, Bytes>, pubkeys: map<nat, Bytes>)

  predicate HasParts(s: Spend, i: nat)
  {
    i in s.signatures && i in s.pubkeys
    && |s.signatures[i]| < 0x1_0000_0000 && |s.pubkeys[i]| < 0x1_0000_0000
  }

  /** Every signing index from `i` up to the number of keys has its signature and public key. */
  predicate Complete(s: Spend, i: nat, n: nat)
  {
    forall k :: i <= k < n && k in s.signing ==> HasParts(s, k)
  }

  function UnlockPart(s: Spend, i: nat): Bytes
    requires i in s.signing ==> HasParts(s, i)
  {
    if i in s.signing then PushItem(s.signatures[i]) + PushItem(s.pubkeys[i]) + [OP_1] else [0]
  }

  /** The pushes for keys `n - 1` down to `i`. */
  function UnlockFrom(s: Spend, i: nat, n: nat): Bytes
    requires i <= n && Complete(s, i, n)
    decreases n - i
  {
    if i == n then [] else UnlockFrom(s, i + 1, n) + UnlockPart(s, i)
  }

  /** Pushable data only: no signature or key of 4 GiB or more. */
  predicate Bounded(s: Spend)
  {
    && (forall i :: i in s.signatures ==> |s.signatures[i]| < 0x1_0000_0000)
    && (forall i :: i in s.pubkeys ==> |s.pubkeys[i]| < 0x1_0000_0000)
  }

  /** The error for the last key that signs and lacks a part: its signature first. */
  predicate LastIncomplete(s: Spend, n: nat, e: MultisigError)
  {
    && (e.MissingSignature? || e.MissingPublicKey?)
    && e.index < n && e.index in s.signing && Complete(s, e.index + 1, n)
    && if e.index !in s.signatures then e.MissingSignature? else e.MissingPublicKey? && e.index !in s.pubkeys
  }

  method BuildUnlockingScript(o: Output, s: Spend) returns (r: Result<Bytes, MultisigError>)
    requires WellFormed(o) && Bounded(s)
    ensures |s.signing| < o.threshold ==> r == Err(InsufficientSignatures(|s.signing|, o.threshold))
    ensures r.Ok? <==> |s.signing| >= o.threshold && Complete(s, 0, |o.publicKeys|)
    ensures r.Ok? ==> r.value == UnlockFrom(s, 0, |o.publicKeys|)
    ensures r.Err? && |s.signing| >= o.threshold ==> LastIncomplete(s, |o.publicKeys|, r.error)
  {
    if |s.signing| < o.threshold {
      return Err(InsufficientSignatures(|s.signing|, o.threshold));
    }
    var n := |o.publicKeys|;
    var script: Bytes := [];
    var i := n;
    while i > 0
      invariant 0 <= i <= n
      invariant Complete(s, i, n) && script == UnlockFrom(s, i, n)
    {
      i := i - 1;
      if i in s.signing {
        if i !in s.signatures {
          return Err(MissingSignature(i));
        }
        if i !in s.pubkeys {
          return Err(MissingPublicKey(i));
        }
        script := script + (PushItem(s.signatures[i]) + PushItem(s.pubkeys[i]) + [OP_1]);
      } else {
        script := script + [0];
      }
    }
    return Ok(script);
  }

  // ----- completeness -----------------------------------------------------

  /** What the pushes for key `i` leave, top first. */
  function Items(s: Spend, i: nat): seq<Bytes>
    requires i in s.signing ==> HasParts(s, i)
  {
    if i in s.signing then [TRUE, s.pubkeys[i], s.signatures[i]] else [FALSE]
  }

  function StackFrom(s: Spend, i: nat, n: nat): seq<Bytes>
    requires i <= n && Complete(s, i, n)
    decreases n - i
  {
    if i == n then [] else Items(s, i) + StackFrom(s, i + 1, n)
  }

  function PartOps(s: Spend, i: nat): seq<Op>
    requires i in s.signing ==> HasParts(s, i)
  {
    if i in s.signing then [Push(s.signatures[i]), Push(s.pubkeys[i]), Push(TRUE)] else [Push(FALSE)]
  }

  lemma ParsePart(s: Spend, i: nat)
    requires i in s.signing ==> HasParts(s, i)
    ensures Parse(UnlockPart(s, i)) == Some(PartOps(s, i))
  {
    if i in s.signing {
      var sig, pubkey := s.signatures[i], s.pubkeys[i];
      ParsePushItem(sig);
      ParsePushItem(pubkey);
      ParsePushInt(1);
      SmallNumbers(1);
      ParseConcat(PushItem(sig), PushItem(pubkey));
      ParseConcat(PushItem(sig) + PushItem(pubkey), [OP_1]);
      assert PushInt(1) == [OP_1];
      assert [Push(sig)] + [Push(pubkey)] + [Push(TRUE)] == PartOps(s, i);
    } else {
      ParsePushInt(0);
      assert PushInt(0) == [0];
    }
  }

  lemma RunPart(chain: Chain, s: Spend, i: nat, main: seq<Bytes>)
    requires i in s.signing ==> HasParts(s, i)
    ensures Run(chain, PartOps(s, i), Machine(main, [], [])) == Some(Machine(Items(s, i) + main, [], []))
  {
    var ops := PartOps(s, i);
    var m0 := Machine(main, [], []);
    if i in s.signing {
      var m1 := Machine([s.signatures[i]] + main, [], []);
      var m2 := Machine([s.pubkeys[i]] + m1.main, [], []);
      assert ops == [ops[0]] + ops[1..] && ops[1..] == [ops[1]] + ops[2..] && ops[2..] == [ops[2]];
      RunOne(chain, ops[0], ops[1..], m0);
      RunOne(chain, ops[1], ops[2..], m1);
      RunOne(chain, ops[2], [], m2);
      assert [TRUE] + m2.main == Items(s, i) + main;
    } else {
      RunOne(chain, ops[0], [], m0);
    }
  }

  /** The unlocking script pushes exactly the stack the locking script expects. */
  lemma {:induction false} UnlockPushes(chain: Chain, s: Spend, i: nat, n: nat)
    requires i <= n && Complete(s, i, n)
    ensures Parse(UnlockFrom(s, i, n)).Some?
    ensures Run(chain, Parse(UnlockFrom(s, i, n)).value, Machine([], [], [])) == Some(Machine(StackFrom(s, i, n), [], []))
    decreases n - i
  {
    if i < n {
      UnlockPushes(chain, s, i + 1, n);
      ParsePart(s, i);
      ParseConcat(UnlockFrom(s, i + 1, n), UnlockPart(s, i));
      RunConcat(chain, Parse(UnlockFrom(s, i + 1, n)).value, PartOps(s, i), Machine([], [], []));
      RunPart(chain, s, i, StackFrom(s, i + 1, n));
    }
  }

  /** The keys, from `i` on, that sign: repeats count once, indices out of range not at all. */
  function Signers(s: Spend, i: nat, n: nat): set<nat>
  {
    set k | i <= k < n && k in s.signing
  }

  lemma SignersStep(s: Spend, i: nat, n: nat)
    requires i < n
    ensures |Signers(s, i, n)| == |Signers(s, i + 1, n)| + if i in s.signing then 1 else 0
  {
    if i in s.signing {
      assert Signers(s, i, n) == {i} + Signers(s, i + 1, n);
    } else {
      assert Signers(s, i, n) == Signers(s, i + 1, n);
    }
  }

  /** Every signing key brings a public key of its hash and a signature valid under it. */
  ghost predicate Valid(chain: Chain, hashes: seq<Bytes>, s: Spend, i: nat)
  {
    Complete(s, i, |hashes|) &&
    forall k :: i <= k < |hashes| && k in s.signing ==>
      chain.hash160(s.pubkeys[k]) == hashes[k] && chain.checkSig(s.signatures[k], s.pubkeys[k])
  }

  lemma {:induction false} CheckOwnStack(chain: Chain, hashes: seq<Bytes>, s: Spend, i: nat, count: nat)
    requires i <= |hashes| && Valid(chain, hashes, s, i)
    ensures CheckKeys(chain, hashes[i..], Tally(StackFrom(s, i, |hashes|), count)) ==
            Some(Tally([], count + |Signers(s, i, |hashes|)|))
    decreases |hashes| - i
  {
    var n := |hashes|;
    if i == n {
      assert Signers(s, n, n) == {};
    } else {
      CheckOwnFirst(chain, hashes, s, i, count);
      assert hashes[i..][1..] == hashes[i + 1..];
      SignersStep(s, i, n);
      CheckOwnStack(chain, hashes, s, i + 1, if i in s.signing then count + 1 else count);
    }
  }

  /** One key's items are consumed by that key's check. */
  lemma CheckOwnFirst(chain: Chain, hashes: seq<Bytes>, s: Spend, i: nat, count: nat)
    requires i < |hashes| && Valid(chain, hashes, s, i)
    ensures CheckKey(chain, hashes[i], Tally(StackFrom(s, i, |hashes|), count)) ==
            Some(Tally(StackFrom(s, i + 1, |hashes|), if i in s.signing then count + 1 else count))
    ensures i in s.signing ==> |StackFrom(s, i, |hashes|)| >= 3 && StackFrom(s, i, |hashes|)[1] == s.pubkeys[i]
  {
    var rest := StackFrom(s, i + 1, |hashes|);
    var stack := Items(s, i) + rest;
    FlagIsTruthy();
    if i in s.signing {
      assert stack[3..] == rest;
    } else {
      assert stack[1..] == rest;
    }
  }

  /** The unlocking script alone leaves its stack and nothing else. */
  lemma UnlockLeaves(chain: Chain, s: Spend, n: nat)
    requires Complete(s, 0, n)
    ensures Execute(chain, UnlockFrom(s, 0, n), []) == Some(Machine(StackFrom(s, 0, n), [], []))
  {
    UnlockPushes(chain, s, 0, n);
  }

  lemma LockDecides(chain: Chain, hashes: seq<Bytes>, threshold: i64, s: Spend)
    requires forall i :: 0 <= i < |hashes| ==> |hashes[i]| == 20
    requires Valid(chain, hashes, s, 0)
    ensures Execute(chain, LockBytes(hashes, threshold), StackFrom(s, 0, |hashes|))
            == Some(Machine([Flag(|Signers(s, 0, |hashes|)| >= threshold)], [], []))
  {
    LockMeans(chain, hashes, threshold, StackFrom(s, 0, |hashes|));
    CheckOwnStack(chain, hashes, s, 0, 0);
    assert hashes[0..] == hashes;
    var flag := Flag(|Signers(s, 0, |hashes|)| >= threshold);
    assert [flag] + [] == [flag];
  }

  /** Main result: with valid signatures, unlocking and then locking leaves one
      flag and an empty alt stack, and the flag is true exactly when enough
      different keys of the script sign. */
  lemma UnlockThenLock(chain: Chain, hash160: Bytes -> Bytes, o: Output, s: Spend)
    requires ShortHash(hash160) && WellFormed(o)
    requires Valid(chain, KeyHashes(hash160, o.publicKeys), s, 0)
    ensures var n := |o.publicKeys|;
            var stack := StackFrom(s, 0, n);
            && Execute(chain, UnlockFrom(s, 0, n), []) == Some(Machine(stack, [], []))
            && Execute(chain, LockBytes(KeyHashes(hash160, o.publicKeys), o.threshold), stack)
               == Some(Machine([Flag(|Signers(s, 0, n)| >= o.threshold)], [], []))
  {
    UnlockLeaves(chain, s, |o.publicKeys|);
    LockDecides(chain, KeyHashes(hash160, o.publicKeys), o.threshold, s);
  }

  predicate DifferentIndices(s: seq<nat>, n: nat)
  {
    && (forall i :: 0 <= i < |s| ==> s[i] < n)
    && (forall i, j :: 0 <= i < j < |s| ==> s[i] != s[j])
  }

  lemma {:induction false} DistinctCount(s: seq<nat>, n: nat)
    requires DifferentIndices(s, n)
    ensures |set k | 0 <= k < n && k in s| == |s|
  {
    if s == [] {
      assert (set k | 0 <= k < n && k in s) == {};
    } else {
      var last := |s| - 1;
      DistinctCount(s[..last], n);
      assert s == s[..last] + [s[last]];
      assert (set k | 0 <= k < n && k in s) == (set k | 0 <= k < n && k in s[..last]) + {s[last]};
    }
  }

  /** Completeness for honest callers: distinct, in-range signers that the builder
      accepts always unlock the output. */
  lemma DistinctSignersUnlock(chain: Chain, hash160: Bytes -> Bytes, o: Output, s: Spend)
    requires ShortHash(hash160) && WellFormed(o)
    requires Valid(chain, KeyHashes(hash160, o.publicKeys), s, 0)
    requires DifferentIndices(s.signing, |o.publicKeys|) && |s.signing| >= o.threshold
    ensures Execute(chain, LockBytes(KeyHashes(hash160, o.publicKeys), o.threshold), StackFrom(s, 0, |o.publicKeys|))
            == Some(Machine([TRUE], [], []))
  {
    UnlockThenLock(chain, hash160, o, s);
    DistinctCount(s.signing, |o.publicKeys|);
    assert Signers(s, 0, |o.publicKeys|) == set k | 0 <= k < |o.publicKeys| && k in s.signing;
  }

  // ----- how many different keys ------------------------------------------

  /** The public keys that the checks of these hashes consume. */
  function KeysUsed(chain: Chain, hashes: seq<Bytes>, t: Tally): set<Bytes>
  {
    if hashes == [] then {}
    else match CheckKey(chain, hashes[0], t)
      case None => {}
      case Some(next) =>
        (if next.count > t.count then {t.main[1]} else {}) + KeysUsed(chain, hashes[1..], next)
  }

  /** Somebody can sign for this key hash. */
  ghost predicate Signable(chain: Chain, hash: Bytes)
  {
    exists signer :: SignsFor(chain, hash, signer)
  }

  /** A signature and a public key that satisfy the check of this hash. */
  predicate SignsFor(chain: Chain, hash: Bytes, signer: (Bytes, Bytes))
  {
    && |signer.0| < 0x1_0000_0000 && |signer.1| < 0x1_0000_0000
    && chain.hash160(signer.1) == hash && chain.checkSig(signer.0, signer.1)
  }

  predicate PairwiseDistinct(hashes: seq<Bytes>)
  {
    forall i, j :: 0 <= i < j < |hashes| ==> hashes[i] != hashes[j]
  }

  /** Different hashes: every unit of the count used another public key. */
  lemma {:induction false} DistinctHashesUseDistinctKeys(chain: Chain, hashes: seq<Bytes>, t: Tally)
    requires CheckKeys(chain, hashes, t).Some? && PairwiseDistinct(hashes)
    ensures |KeysUsed(chain, hashes, t)| == CheckKeys(chain, hashes, t).value.count - t.count
    ensures forall p :: p in KeysUsed(chain, hashes, t) ==> chain.hash160(p) in hashes
    decreases |hashes|
  {
    if hashes != [] {
      var next := CheckKey(chain, hashes[0], t).value;
      DistinctHashesUseDistinctKeys(chain, hashes[1..], next);
      assert hashes[0] !in hashes[1..];
      if next.count > t.count {
        assert t.main[1] !in KeysUsed(chain, hashes[1..], next);
      }
    }
  }

  /** Whatever the hashes, counting anything uses some key. */
  lemma {:induction false} CountingUsesAKey(chain: Chain, hashes: seq<Bytes>, t: Tally)
    requires CheckKeys(chain, hashes, t).Some? && CheckKeys(chain, hashes, t).value.count > t.count
    ensures KeysUsed(chain, hashes, t) != {}
    decreases |hashes|
  {
    var next := CheckKey(chain, hashes[0], t).value;
    if next.count == t.count {
      CountingUsesAKey(chain, hashes[1..], next);
    }
  }

  /** The checks of a spend's own stack use the public keys of its signers only. */
  lemma {:induction false} KeysUsedOnOwnStack(chain: Chain, hashes: seq<Bytes>, s: Spend, i: nat, count: nat, keys: set<Bytes>)
    requires i <= |hashes| && Valid(chain, hashes, s, i)
    requires forall k :: i <= k < |hashes| && k in s.signing ==> s.pubkeys[k] in keys
    ensures KeysUsed(chain, hashes[i..], Tally(StackFrom(s, i, |hashes|), count)) <= keys
    decreases |hashes| - i
  {
    if i < |hashes| {
      CheckOwnFirst(chain, hashes, s, i, count);
      assert hashes[i..][1..] == hashes[i + 1..];
      KeysUsedOnOwnStack(chain, hashes, s, i + 1, if i in s.signing then count + 1 else count, keys);
    }
  }

  /** The public keys of these indices. */
  function PubkeysFor(s: Spend, signing: seq<nat>): (r: set<Bytes>)
    requires forall a :: 0 <= a < |signing| ==> signing[a] in s.pubkeys
    ensures |r| <= |signing|
    ensures forall a :: 0 <= a < |signing| ==> s.pubkeys[signing[a]] in r
  {
    if signing == [] then {} else {s.pubkeys[signing[0]]} + PubkeysFor(s, signing[1..])
  }

  /** Of `n` indices, `m` different ones that begin with `i` and `j`. */
  lemma IndicesWith(i: nat, j: nat, m: nat, n: nat) returns (s: seq<nat>)
    requires i < j < n && 2 <= m <= n
    ensures DifferentIndices(s, n) && |s| == m && s[0] == i && s[1] == j
  {
    s := [i, j];
    var k: nat := 0;
    while |s| < m
      invariant |s| == k + 2 - (if i < k then 1 else 0) - (if j < k then 1 else 0) && k <= n
      invariant 2 <= |s| <= m && s[0] == i && s[1] == j
      invariant forall a :: 0 <= a < |s| ==> s[a] < n && (s[a] == i || s[a] == j || s[a] < k)
      invariant forall a, b :: 0 <= a < b < |s| ==> s[a] != s[b]
      decreases n - k
    {
      if k != i && k != j {
        s := s + [k];
      }
      k := k + 1;
    }
  }

  /** A signer for the hash, the same for the same hash. */
  ghost function SignerOf(chain: Chain, hash: Bytes): (signer: (Bytes, Bytes))
    requires Signable(chain, hash)
    ensures SignsFor(chain, hash, signer)
  {
    var signer :| SignsFor(chain, hash, signer);
    signer
  }

  /** These indices sign, each with the signer of its hash. */
  ghost function SpendBy(chain: Chain, hashes: seq<Bytes>, signing: seq<nat>): Spend
    requires forall i :: 0 <= i < |hashes| ==> Signable(chain, hashes[i])
  {
    Spend(signing,
          map k: nat | k < |hashes| :: SignerOf(chain, hashes[k]).0,
          map k: nat | k < |hashes| :: SignerOf(chain, hashes[k]).1)
  }

  lemma SpendByIsValid(chain: Chain, hashes: seq<Bytes>, signing: seq<nat>)
    requires forall i :: 0 <= i < |hashes| ==> Signable(chain, hashes[i])
    ensures Valid(chain, hashes, SpendBy(chain, hashes, signing), 0)
  {
    var s := SpendBy(chain, hashes, signing);
    forall k | 0 <= k < |hashes| && k in signing
      ensures HasParts(s, k) && chain.hash160(s.pubkeys[k]) == hashes[k] && chain.checkSig(s.signatures[k], s.pubkeys[k])
    {
      assert SignsFor(chain, hashes[k], SignerOf(chain, hashes[k]));
    }
  }

  /** Signers two of whom share a key hash use fewer keys than there are signers. */
  lemma SharedHashUsesFewerKeys(chain: Chain, hashes: seq<Bytes>, signing: seq<nat>)
    requires forall i :: 0 <= i < |hashes| ==> Signable(chain, hashes[i])
    requires DifferentIndices(signing, |hashes|) && |signing| >= 2
    requires hashes[signing[0]] == hashes[signing[1]]
    requires Valid(chain, hashes, SpendBy(chain, hashes, signing), 0)
    ensures |KeysUsed(chain, hashes, Tally(StackFrom(SpendBy(chain, hashes, signing), 0, |hashes|), 0))| < |signing|
  {
    var s := SpendBy(chain, hashes, signing);
    var keys := PubkeysFor(s, signing[1..]);
    forall k | k in signing
      ensures s.pubkeys[k] in keys
    {
      var a :| 0 <= a < |signing| && signing[a] == k;
      var later := if a == 0 then 0 else a - 1;
      assert s.pubkeys[signing[1..][later]] in keys;
    }
    KeysUsedOnOwnStack(chain, hashes, s, 0, 0, keys);
    assert hashes[0..] == hashes;
    SubsetIsSmaller(KeysUsed(chain, hashes, Tally(StackFrom(s, 0, |hashes|), 0)), keys);
  }

  /** Two keys of one hash: the least number of signers, both among them, unlocks
      the output with one public key for the two. */
  lemma FewerKeysAccepted(chain: Chain, hash160: Bytes -> Bytes, o: Output, i: nat, j: nat) returns (main: seq<Bytes>)
    requires ShortHash(hash160) && WellFormed(o) && o.threshold > 1
    requires forall k :: 0 <= k < |o.publicKeys| ==> Signable(chain, hash160(o.publicKeys[k]))
    requires i < j < |o.publicKeys| && hash160(o.publicKeys[i]) == hash160(o.publicKeys[j])
    ensures Accepts(chain, LockBytes(KeyHashes(hash160, o.publicKeys), o.threshold), main)
    ensures |KeysUsed(chain, KeyHashes(hash160, o.publicKeys), Tally(main, 0))| < o.threshold
  {
    var hashes := KeyHashes(hash160, o.publicKeys);
    var signing := IndicesWith(i, j, o.threshold, |hashes|);
    SpendByIsValid(chain, hashes, signing);
    var s := SpendBy(chain, hashes, signing);
    main := StackFrom(s, 0, |hashes|);
    SharedHashUsesFewerKeys(chain, hashes, signing);
    DistinctSignersUnlock(chain, hash160, o, s);
    FlagIsTruthy();
  }

  lemma SubsetIsSmaller(a: set<Bytes>, b: set<Bytes>)
    requires a <= b
    ensures |a| <= |b|
  {
    assert b == a + (b - a);
  }

  /** The exact condition for "m of n means m different public keys". If somebody can
      sign for each key hash, every stack the lock accepts has used at least
      `threshold` different public keys if and only if the threshold is 1 or the
      key hashes are pairwise distinct. */
  lemma ThresholdKeysIff(chain: Chain, hash160: Bytes -> Bytes, o: Output)
    requires ShortHash(hash160) && WellFormed(o)
    requires forall i :: 0 <= i < |o.publicKeys| ==> Signable(chain, hash160(o.publicKeys[i]))
    ensures (forall main :: Accepts(chain, LockBytes(KeyHashes(hash160, o.publicKeys), o.threshold), main) ==>
               |KeysUsed(chain, KeyHashes(hash160, o.publicKeys), Tally(main, 0))| >= o.threshold)
            <==> o.threshold == 1 || PairwiseDistinct(KeyHashes(hash160, o.publicKeys))
  {
    var hashes := KeyHashes(hash160, o.publicKeys);
    if o.threshold == 1 || PairwiseDistinct(hashes) {
      forall main | Accepts(chain, LockBytes(hashes, o.threshold), main)
        ensures |KeysUsed(chain, hashes, Tally(main, 0))| >= o.threshold
      {
        AcceptedUsesThresholdKeys(chain, hashes, o.threshold, main);
      }
    } else {
      var i, j :| 0 <= i < j < |hashes| && hashes[i] == hashes[j];
      var main := FewerKeysAccepted(chain, hash160, o, i, j);
    }
  }

  lemma AcceptedUsesThresholdKeys(chain: Chain, hashes: seq<Bytes>, threshold: i64, main: seq<Bytes>)
    requires forall i :: 0 <= i < |hashes| ==> |hashes[i]| == 20
    requires Accepts(chain, LockBytes(hashes, threshold), main)
    requires threshold == 1 || PairwiseDistinct(hashes)
    ensures |KeysUsed(chain, hashes, Tally(main, 0))| >= threshold
  {
    LockMeans(chain, hashes, threshold, main);
    FlagIsTruthy();
    if PairwiseDistinct(hashes) {
      DistinctHashesUseDistinctKeys(chain, hashes, Tally(main, 0));
    } else {
      CountingUsesAKey(chain, hashes, Tally(main, 0));
    }
  }

  /** Without distinct keys one signer can be enough: `new` accepts the same key
      twice, and one signature then counts for both. */
  lemma RepeatedKeySignsTwice(chain: Chain, hash160: Bytes -> Bytes, key: Bytes, sig: Bytes, pubkey: Bytes)
    requires ShortHash(hash160)
    requires |sig| < 0x1_0000_0000 && |pubkey| < 0x1_0000_0000
    requires chain.hash160(pubkey) == hash160(key) && chain.checkSig(sig, pubkey)
    ensures var o := Output([key, key], 2);
            var s := Spend([0, 1], map[0 := sig, 1 := sig], map[0 := pubkey, 1 := pubkey]);
            && NewOutput([key, key], 2) == Ok(o) && Complete(s, 0, 2)
            && Execute(chain, LockBytes(KeyHashes(hash160, o.publicKeys), 2), StackFrom(s, 0, 2))
               == Some(Machine([TRUE], [], []))
  {
    var o := Output([key, key], 2);
    var s := Spend([0, 1], map[0 := sig, 1 := sig], map[0 := pubkey, 1 := pubkey]);
    DistinctSignersUnlock(chain, hash160, o, s);
  }

  /** The builder counts list entries, not keys. Naming key 0 twice satisfies its
      threshold check for a 2-of-2 output, and the script it then builds is refused. */
  lemma RepeatedSignerIsBuiltButRefused(chain: Chain, hash160: Bytes -> Bytes, o: Output, sig: Bytes, pubkey: Bytes)
    requires ShortHash(hash160) && |o.publicKeys| == 2 && o.threshold == 2
    requires |sig| < 0x1_0000_0000 && |pubkey| < 0x1_0000_0000
    requires chain.hash160(pubkey) == hash160(o.publicKeys[0]) && chain.checkSig(sig, pubkey)
    ensures var s := Spend([0, 0], map[0 := sig], map[0 := pubkey]);
            && |s.signing| >= o.threshold && Complete(s, 0, 2)
            && Execute(chain, LockBytes(KeyHashes(hash160, o.publicKeys), 2), StackFrom(s, 0, 2))
               == Some(Machine([FALSE], [], []))
  {
    var s := Spend([0, 0], map[0 := sig], map[0 := pubkey]);
    assert Signers(s, 0, 2) == {0};
    UnlockThenLock(chain, hash160, o, s);
  }
}
