/** Bitcoin script: pushes and their parser, script numbers, and a machine with
    a main stack, an alt stack and nested conditionals. The push builders are
    those of core/multisig.rs. */
module Script {
  import opened Common

  type Bytes = seq<byte>

  const OP_PUSHDATA1: byte := 0x4c
  const OP_PUSHDATA2: byte := 0x4d
  const OP_PUSHDATA4: byte := 0x4e
  const OP_1NEGATE: byte := 0x4f
  const OP_1: byte := 0x51
  const OP_16: byte := 0x60
  const OP_IF: byte := 0x63
  const OP_NOTIF: byte := 0x64
  const OP_ELSE: byte := 0x67
  const OP_ENDIF: byte := 0x68
  const OP_TOALTSTACK: byte := 0x6b
  const OP_FROMALTSTACK: byte := 0x6c
  const OP_DUP: byte := 0x76
  const OP_EQUALVERIFY: byte := 0x88
  const OP_1ADD: byte := 0x8b
  const OP_GREATERTHANOREQUAL: byte := 0xa2
  const OP_HASH160: byte := 0xa9
  const OP_CHECKSIGVERIFY: byte := 0xad

  // ----- script numbers ---------------------------------------------------

  /** Little-endian base 256, no leading zero. */
  function Magnitude(v: nat): (r: Bytes)
    ensures v > 0 ==> r != []
  {
    if v == 0 then [] else [v % 256] + Magnitude(v / 256)
  }

  /** Room for the sign: a byte of its own when the top bit is taken, the top bit otherwise. */
  function WithSign(bytes: Bytes, negative: bool): Bytes
    requires bytes != []
  {
    var last := bytes[|bytes| - 1];
    if last >= 128 then bytes + [if negative then 128 else 0]
    else if negative then bytes[..|bytes| - 1] + [last + 128]
    else bytes
  }

  function Abs(n: int): nat { if n < 0 then -n else n }

  function EncodeNum(n: int): Bytes
  {
    if n == 0 then [] else WithSign(Magnitude(Abs(n)), n < 0)
  }

  /** Sign and magnitude of a nonempty payload. */
  function SignMagnitude(b: Bytes): (bool, nat)
    requires b != []
  {
    if |b| == 1 then (b[0] >= 128, b[0] % 128)
    else
      var rest := SignMagnitude(b[1..]);
      (rest.0, b[0] + 256 * rest.1)
  }

  function DecodeNum(b: Bytes): int
  {
    if b == [] then 0
    else
      var sm := SignMagnitude(b);
      if sm.0 then 0 - sm.1 else sm.1
  }

  /** The interpreter's minimal-encoding rule: no byte that only pads. */
  predicate MinimalNum(b: Bytes)
  {
    b == [] || b[|b| - 1] % 128 != 0 || (|b| > 1 && b[|b| - 2] >= 128)
  }

  lemma WithSignTail(bytes: Bytes, negative: bool)
    requires |bytes| > 1
    ensures WithSign(bytes, negative) == [bytes[0]] + WithSign(bytes[1..], negative)
  {
    assert bytes == [bytes[0]] + bytes[1..];
  }

  lemma WithSignNonempty(bytes: Bytes, negative: bool)
    requires bytes != []
    ensures WithSign(bytes, negative) != []
  {
  }

  lemma {:induction false} SignMagnitudeOfMagnitude(v: nat, negative: bool)
    requires v > 0
    ensures SignMagnitude(WithSign(Magnitude(v), negative)) == (negative, v)
  {
    var m := Magnitude(v);
    if v / 256 == 0 {
      assert v % 256 == v && Magnitude(0) == [];
      assert m == [v];
      if v >= 128 {
        var signed := WithSign(m, negative);
        assert signed == [v, if negative then 128 else 0];
        assert signed[1..] == [if negative then 128 else 0];
      } else if negative {
        assert WithSign(m, negative) == [v + 128];
      }
    } else {
      SignMagnitudeOfMagnitude(v / 256, negative);
      assert m[1..] == Magnitude(v / 256);
      WithSignTail(m, negative);
      WithSignNonempty(m[1..], negative);
      assert WithSign(m, negative)[1..] == WithSign(m[1..], negative);
    }
  }

  /** Decoding inverts encoding, for every integer. */
  lemma DecodeEncode(n: int)
    ensures DecodeNum(EncodeNum(n)) == n
  {
    if n != 0 {
      SignMagnitudeOfMagnitude(Abs(n), n < 0);
      WithSignNonempty(Magnitude(Abs(n)), n < 0);
    }
  }

  /** The bytes without the sign. */
  function Unsigned(b: Bytes): Bytes
    requires b != []
  {
    b[..|b| - 1] + [b[|b| - 1] % 128]
  }

  lemma {:induction false} SignMagnitudeReads(b: Bytes)
    requires b != []
    ensures SignMagnitude(b) == (b[|b| - 1] >= 128, LittleEndian(Unsigned(b)))
  {
    if |b| == 1 {
      assert Unsigned(b) == [b[0] % 128];
      LittleEndianConcat([b[0] % 128], []);
    } else {
      SignMagnitudeReads(b[1..]);
      assert Unsigned(b) == [b[0]] + Unsigned(b[1..]);
      LittleEndianConcat([b[0]], Unsigned(b[1..]));
      assert Pow256(1) == 256;
    }
  }

  /** What an encoded number is, bit by bit: the top bit of its last byte is the sign,
      and the rest is the magnitude, least significant byte first. */
  lemma EncodingReads(n: int)
    ensures n == 0 ==> EncodeNum(n) == []
    ensures n != 0 ==> var b := EncodeNum(n);
                       && b != [] && (b[|b| - 1] >= 128 <==> n < 0)
                       && LittleEndian(Unsigned(b)) == Abs(n)
  {
    if n != 0 {
      SignMagnitudeOfMagnitude(Abs(n), n < 0);
      WithSignNonempty(Magnitude(Abs(n)), n < 0);
      SignMagnitudeReads(EncodeNum(n));
    }
  }

  lemma {:induction false} MagnitudeTop(v: nat)
    requires v > 0
    ensures Magnitude(v)[|Magnitude(v)| - 1] != 0
  {
    if v / 256 > 0 {
      MagnitudeTop(v / 256);
    }
  }

  /** Encoded numbers obey the minimal-encoding rule. */
  lemma EncodeIsMinimal(n: int)
    ensures MinimalNum(EncodeNum(n))
  {
    if n != 0 {
      MagnitudeTop(Abs(n));
    }
  }

  lemma {:induction false} EncodeLength(v: nat, bound: nat)
    requires v < Pow256(bound)
    ensures |Magnitude(v)| <= bound
  {
    if v > 0 {
      assert bound > 0;
      EncodeLength(v / 256, bound - 1);
    }
  }

  // ----- pushes -----------------------------------------------------------

  /** `push_item`: data with the shortest length header. */
  function PushItem(data: Bytes): Bytes
    requires |data| < 0x1_0000_0000
  {
    var len := |data|;
    if len <= 75 then [len] + data
    else if len <= 255 then [OP_PUSHDATA1, len] + data
    else if len <= 65535 then [OP_PUSHDATA2, len % 256, len / 256] + data
    else [OP_PUSHDATA4, len % 256, len / 256 % 256, len / 65536 % 256, len / 16777216] + data
  }

  const I64_MIN: int := -0x8000_0000_0000_0000
  const I64_MAX: int := 0x7FFF_FFFF_FFFF_FFFF

  type i64 = n: int | I64_MIN <= n <= I64_MAX

  /** What `push_int` emits: one opcode for -1..16, a direct push otherwise. */
  function PushInt(n: i64): Bytes
  {
    if n == 0 then [0]
    else if n == -1 then [OP_1NEGATE]
    else if 1 <= n <= 16 then [OP_1 + (n - 1)]
    else
      NumFits(n);
      [|EncodeNum(n)|] + EncodeNum(n)
  }

  lemma NumFits(n: i64)
    ensures |EncodeNum(n)| <= 9
  {
    assert Pow256(4) == 0x1_0000_0000;
    assert Pow256(8) == 0x1_0000_0000_0000_0000;
    EncodeLength(Abs(n), 8);
  }

  /** The byte loop of `push_minimal_signed`. */
  method MagnitudeBytes(v: nat) returns (bytes: Bytes)
    ensures bytes == Magnitude(v)
  {
    bytes := [];
    var val := v;
    while val != 0
      invariant bytes + Magnitude(val) == Magnitude(v)
      decreases val
    {
      StepMagnitude(bytes, val);
      bytes := bytes + [val % 256];
      val := val / 256;
    }
  }

  method PushMinimalSigned(n: i64) returns (r: Bytes)
    ensures n == 0 ==> r == [0]
    ensures n != 0 ==> |EncodeNum(n)| <= 9 && r == [|EncodeNum(n)|] + EncodeNum(n)
  {
    if n == 0 {
      return [0];
    }
    var bytes := MagnitudeBytes(Abs(n));
    var last := |bytes| - 1;
    if bytes[last] >= 128 {
      bytes := bytes + [if n < 0 then 128 else 0];
    } else if n < 0 {
      bytes := bytes[last := bytes[last] + 128];
    }
    assert bytes == EncodeNum(n);
    NumFits(n);
    r := LengthPrefixed(bytes);
  }

  function LengthPrefixed(bytes: Bytes): Bytes
    requires |bytes| <= 255
  {
    if |bytes| <= 75 then [|bytes|] + bytes else [OP_PUSHDATA1, |bytes|] + bytes
  }

  lemma StepMagnitude(bytes: Bytes, val: nat)
    requires val != 0
    ensures (bytes + [val % 256]) + Magnitude(val / 256) == bytes + Magnitude(val)
  {
  }

  method BuildPushInt(n: i64) returns (r: Bytes)
    ensures r == PushInt(n)
  {
    if n == 0 {
      return [0];
    }
    if n == -1 {
      return [OP_1NEGATE];
    }
    if 1 <= n <= 16 {
      return [OP_1 + (n - 1)];
    }
    r := PushMinimalSigned(n);
  }

  // ----- parsing ----------------------------------------------------------

  /** A parsed operation: data pushed, or an opcode. */
  datatype Op = Push(data: Bytes) | Code(opcode: byte)

  function Le2(a: nat, b: nat): nat { a + 256 * b }

  function Le4(a: nat, b: nat, c: nat, d: nat): nat { a + 256 * b + 65536 * c + 16777216 * d }

  function Take(s: Bytes, header: nat, len: nat): Option<(Op, nat)>
    requires header > 0
  {
    if header + len <= |s| then Some((Push(s[header..header + len]), header + len)) else None
  }

  /** The first operation of a script and the bytes it occupies. */
  function ParseOne(s: Bytes): (r: Option<(Op, nat)>)
    requires s != []
    ensures r.Some? ==> 0 < r.value.1 <= |s|
  {
    var b := s[0];
    if b < OP_PUSHDATA1 then Take(s, 1, b)
    else if b == OP_PUSHDATA1 then
      if |s| < 2 then None else Take(s, 2, s[1])
    else if b == OP_PUSHDATA2 then
      if |s| < 3 then None else Take(s, 3, Le2(s[1], s[2]))
    else if b == OP_PUSHDATA4 then
      if |s| < 5 then None else Take(s, 5, Le4(s[1], s[2], s[3], s[4]))
    else if b == OP_1NEGATE then Some((Push([0x81]), 1))
    else if OP_1 <= b <= OP_16 then Some((Push([b - OP_1 + 1]), 1))
    else Some((Code(b), 1))
  }

  function Parse(s: Bytes): Option<seq<Op>>
  {
    if s == [] then Some([])
    else match ParseOne(s)
      case None => None
      case Some((op, n)) =>
        match Parse(s[n..])
        case None => None
        case Some(rest) => Some([op] + rest)
  }

  lemma TakeMore(a: Bytes, b: Bytes, header: nat, len: nat)
    requires header > 0 && header + len <= |a|
    ensures Take(a + b, header, len) == Take(a, header, len)
  {
    assert (a + b)[header..header + len] == a[header..header + len];
  }

  lemma ParseOneMore(a: Bytes, b: Bytes)
    requires a != [] && ParseOne(a).Some?
    ensures ParseOne(a + b) == ParseOne(a)
  {
    var c := a[0];
    assert (a + b)[0] == c;
    if c < OP_PUSHDATA1 {
      TakeMore(a, b, 1, c);
    } else if c == OP_PUSHDATA1 {
      TakeMore(a, b, 2, a[1]);
    } else if c == OP_PUSHDATA2 {
      TakeMore(a, b, 3, Le2(a[1], a[2]));
    } else if c == OP_PUSHDATA4 {
      TakeMore(a, b, 5, Le4(a[1], a[2], a[3], a[4]));
    }
  }

  lemma ParseFirst(s: Bytes, op: Op, n: nat)
    requires s != [] && ParseOne(s) == Some((op, n))
    ensures n <= |s|
    ensures Parse(s) == match Parse(s[n..]) case None => None case Some(rest) => Some([op] + rest)
  {
  }

  /** Parsing a concatenation of complete scripts concatenates their operations. */
  lemma {:induction false} ParseConcat(a: Bytes, b: Bytes)
    requires Parse(a).Some? && Parse(b).Some?
    ensures Parse(a + b) == Some(Parse(a).value + Parse(b).value)
    decreases |a|
  {
    if a == [] {
      assert a + b == b;
      assert Parse(a).value + Parse(b).value == Parse(b).value;
    } else {
      var one := ParseOne(a).value;
      ParseFirst(a, one.0, one.1);
      ParseOneMore(a, b);
      ParseFirst(a + b, one.0, one.1);
      assert (a + b)[one.1..] == a[one.1..] + b;
      ParseConcat(a[one.1..], b);
      ConsConcat(one.0, Parse(a[one.1..]).value, Parse(b).value);
    }
  }

  lemma ConsConcat(op: Op, a: seq<Op>, b: seq<Op>)
    ensures [op] + a + b == [op] + (a + b)
  {
  }

  lemma ParseSingle(s: Bytes, op: Op)
    requires s != [] && ParseOne(s) == Some((op, |s|))
    ensures Parse(s) == Some([op])
  {
    assert s[|s|..] == [];
    assert Parse(s[|s|..]) == Some([]);
    assert [op] + [] == [op];
  }

  lemma TakeAll(header: Bytes, data: Bytes)
    requires header != []
    ensures Take(header + data, |header|, |data|) == Some((Push(data), |header + data|))
  {
    assert (header + data)[|header|..|header| + |data|] == data;
  }

  lemma LengthBytes(len: nat)
    requires len < 0x1_0000_0000
    ensures Le4(len % 256, len / 256 % 256, len / 65536 % 256, len / 16777216) == len
    ensures len <= 65535 ==> Le2(len % 256, len / 256) == len
  {
    var rest := len / 256;
    assert len == 256 * rest + len % 256;
    assert len / 65536 == rest / 256 && len / 16777216 == rest / 256 / 256;
  }

  /** A pushed item parses back to itself. */
  lemma ParsePushItem(data: Bytes)
    requires |data| < 0x1_0000_0000
    ensures Parse(PushItem(data)) == Some([Push(data)])
  {
    var len := |data|;
    LengthBytes(len);
    if len <= 75 {
      TakeAll([len], data);
    } else if len <= 255 {
      TakeAll([OP_PUSHDATA1, len], data);
    } else if len <= 65535 {
      TakeAll([OP_PUSHDATA2, len % 256, len / 256], data);
    } else {
      TakeAll([OP_PUSHDATA4, len % 256, len / 256 % 256, len / 65536 % 256, len / 16777216], data);
    }
    ParseSingle(PushItem(data), Push(data));
  }

  /** The single bytes that an opcode of their own pushes. */
  predicate HasOpcode(data: Bytes)
  {
    |data| == 1 && (1 <= data[0] <= 16 || data[0] == 0x81)
  }

  lemma SingleOperation(s: Bytes, op: Op)
    requires Parse(s) == Some([op])
    ensures s != [] && ParseOne(s) == Some((op, |s|))
  {
    assert s != [];
    var one := ParseOne(s).value;
    ParseFirst(s, one.0, one.1);
    var rest := s[one.1..];
    assert [one.0] + Parse(rest).value == [op];
    assert Parse(rest).value == [];
    assert rest == [];
  }

  lemma NoShorterPush(s: Bytes, data: Bytes)
    requires |data| < 0x1_0000_0000 && s != [] && ParseOne(s) == Some((Push(data), |s|))
    ensures |s| >= |PushItem(data)| || HasOpcode(data)
  {
  }

  /** The exact condition under which the header is the shortest: no script that
      pushes the same data, and nothing else, is shorter, if and only if the data
      has no opcode of its own. */
  lemma PushItemIsShortestIff(data: Bytes)
    requires |data| < 0x1_0000_0000
    ensures (forall s :: Parse(s) == Some([Push(data)]) ==> |s| >= |PushItem(data)|) <==> !HasOpcode(data)
  {
    forall s | Parse(s) == Some([Push(data)])
      ensures |s| >= |PushItem(data)| || HasOpcode(data)
    {
      SingleOperation(s, Push(data));
      NoShorterPush(s, data);
    }
    if HasOpcode(data) {
      var n: i64 := if data[0] == 0x81 then -1 else data[0];
      ParsePushInt(n);
      SmallNumbers(n);
      assert data == [data[0]];
      assert Parse(PushInt(n)) == Some([Push(data)]) && |PushInt(n)| < |PushItem(data)|;
    }
  }

  lemma ParseCode(c: byte)
    requires c > OP_16
    ensures Parse([c]) == Some([Code(c)])
  {
    ParseSingle([c], Code(c));
  }

  /** A pushed number parses back to a push whose payload is minimal and decodes
      to that number. */
  lemma ParsePushInt(n: i64)
    ensures Parse(PushInt(n)) == Some([Push(EncodeNum(n))])
    ensures DecodeNum(EncodeNum(n)) == n && MinimalNum(EncodeNum(n))
  {
    DecodeEncode(n);
    EncodeIsMinimal(n);
    NumFits(n);
    if n == 0 || n == -1 || 1 <= n <= 16 {
      SmallNumbers(n);
      assert PushInt(n)[1..1] == [];
      assert ParseOne(PushInt(n)) == Some((Push(EncodeNum(n)), 1));
      ParseSingle(PushInt(n), Push(EncodeNum(n)));
    } else {
      assert PushInt(n) == PushItem(EncodeNum(n));
      ParsePushItem(EncodeNum(n));
    }
  }

  lemma SmallNumbers(n: i64)
    requires n == 0 || n == -1 || 1 <= n <= 16
    ensures EncodeNum(n) == if n == 0 then [] else if n == -1 then [0x81] else [n]
  {
    if n != 0 {
      assert Magnitude(Abs(n)) == [Abs(n)];
    }
  }

  // ----- the builders parse back ------------------------------------------

  /** One thing to push. */
  datatype Pushed = Item(data: Bytes) | Number(n: i64)

  predicate Pushable(p: Pushed) { p.Item? ==> |p.data| < 0x1_0000_0000 }

  function PushBytes(p: Pushed): Bytes
    requires Pushable(p)
  {
    match p
    case Item(data) => PushItem(data)
    case Number(n) => PushInt(n)
  }

  function Payload(p: Pushed): Bytes
  {
    match p
    case Item(data) => data
    case Number(n) => EncodeNum(n)
  }

  function PushAll(ps: seq<Pushed>): Bytes
    requires forall i :: 0 <= i < |ps| ==> Pushable(ps[i])
  {
    if ps == [] then [] else PushBytes(ps[0]) + PushAll(ps[1..])
  }

  function Payloads(ps: seq<Pushed>): seq<Op>
  {
    if ps == [] then [] else [Push(Payload(ps[0]))] + Payloads(ps[1..])
  }

  /** Main result: any script made of the two push builders parses back to
      exactly the items and numbers, in order. */
  lemma {:induction false} PushesParseBack(ps: seq<Pushed>)
    requires forall i :: 0 <= i < |ps| ==> Pushable(ps[i])
    ensures Parse(PushAll(ps)) == Some(Payloads(ps))
  {
    if ps != [] {
      PushesParseBack(ps[1..]);
      match ps[0] {
        case Item(data) => ParsePushItem(data);
        case Number(n) => ParsePushInt(n);
      }
      ParseConcat(PushBytes(ps[0]), PushAll(ps[1..]));
    }
  }

  // ----- the machine ------------------------------------------------------

  /** What script can ask of its surroundings. */
  datatype Chain = Chain(hash160: Bytes -> Bytes, checkSig: (Bytes, Bytes) -> bool)

  /** Stacks have their top first; `conds` holds the enclosing conditionals, innermost first. */
  datatype Machine = Machine(main: seq<Bytes>, alt: seq<Bytes>, conds: seq<bool>)

  /** Any nonzero byte makes a value true, except a lone sign bit at the end. */
  predicate Truthy(v: Bytes)
  {
    exists i :: 0 <= i < |v| && v[i] != 0 && !(i == |v| - 1 && v[i] == 0x80)
  }

  const TRUE: Bytes := [1]
  const FALSE: Bytes := []

  predicate Executing(m: Machine)
  {
    forall i :: 0 <= i < |m.conds| ==> m.conds[i]
  }

  /** One operation; `None` is script failure. */
  function Step(chain: Chain, op: Op, m: Machine): Option<Machine>
  {
    match op
    case Push(data) => Some(if Executing(m) then m.(main := [data] + m.main) else m)
    case Code(c) =>
      if c == OP_IF || c == OP_NOTIF then
        if !Executing(m) then Some(m.(conds := [false] + m.conds))
        else if m.main == [] then None
        else Some(m.(main := m.main[1..], conds := [Truthy(m.main[0]) == (c == OP_IF)] + m.conds))
      else if c == OP_ELSE then
        if m.conds == [] then None else Some(m.(conds := [!m.conds[0]] + m.conds[1..]))
      else if c == OP_ENDIF then
        if m.conds == [] then None else Some(m.(conds := m.conds[1..]))
      else if !Executing(m) then Some(m)
      else Apply(chain, c, m)
  }

  /** The opcodes other than conditionals. */
  function Apply(chain: Chain, c: byte, m: Machine): Option<Machine>
  {
    if c == OP_TOALTSTACK then
      if m.main == [] then None else Some(m.(main := m.main[1..], alt := [m.main[0]] + m.alt))
    else if c == OP_FROMALTSTACK then
      if m.alt == [] then None else Some(m.(main := [m.alt[0]] + m.main, alt := m.alt[1..]))
    else if c == OP_DUP then
      if m.main == [] then None else Some(m.(main := [m.main[0]] + m.main))
    else if c == OP_HASH160 then
      if m.main == [] then None else Some(m.(main := [chain.hash160(m.main[0])] + m.main[1..]))
    else if c == OP_EQUALVERIFY then
      if |m.main| < 2 || m.main[0] != m.main[1] then None else Some(m.(main := m.main[2..]))
    else if c == OP_CHECKSIGVERIFY then
      if |m.main| < 2 || !chain.checkSig(m.main[1], m.main[0]) then None else Some(m.(main := m.main[2..]))
    else if c == OP_1ADD then
      if m.main == [] || !MinimalNum(m.main[0]) then None
      else Some(m.(main := [EncodeNum(DecodeNum(m.main[0]) + 1)] + m.main[1..]))
    else if c == OP_GREATERTHANOREQUAL then
      if |m.main| < 2 || !MinimalNum(m.main[0]) || !MinimalNum(m.main[1]) then None
      else Some(m.(main := [if DecodeNum(m.main[1]) >= DecodeNum(m.main[0]) then TRUE else FALSE] + m.main[2..]))
    else None
  }

  function Run(chain: Chain, ops: seq<Op>, m: Machine): Option<Machine>
  {
    if ops == [] then Some(m)
    else match Step(chain, ops[0], m)
      case None => None
      case Some(next) => Run(chain, ops[1..], next)
  }

  lemma {:induction false} RunConcat(chain: Chain, a: seq<Op>, b: seq<Op>, m: Machine)
    ensures Run(chain, a + b, m) ==
            match Run(chain, a, m) case None => None case Some(next) => Run(chain, b, next)
    decreases |a|
  {
    if a == [] {
      assert a + b == b;
    } else {
      assert (a + b)[1..] == a[1..] + b;
      var next := Step(chain, a[0], m);
      if next.Some? {
        RunConcat(chain, a[1..], b, next.value);
      }
    }
  }

  /** A whole script on a main stack: an empty alt stack to begin with, all
      conditionals closed at the end. */
  function Execute(chain: Chain, script: Bytes, main: seq<Bytes>): Option<Machine>
  {
    match Parse(script)
    case None => None
    case Some(ops) =>
      match Run(chain, ops, Machine(main, [], []))
      case None => None
      case Some(m) => if m.conds == [] then Some(m) else None
  }

  /** A spend succeeds when the locking script ends with a true value on top. */
  predicate Accepts(chain: Chain, script: Bytes, main: seq<Bytes>)
  {
    var r := Execute(chain, script, main);
    r.Some? && r.value.main != [] && Truthy(r.value.main[0])
  }
}
