/** The embedded VM's stack items, its two stacks and the stack and
    push-data opcodes. A stack is a sequence whose element 0 is the top,
    so `s[n]` is the item at depth n. */
module Simulator {
  import opened Codec

  /** What an interop item wraps, as far as the syscall validators look. */
  datatype Interop =
    | NilObject
    | BlockObject(transactions: nat)
    | TransactionObject
    | TxAttributeObject
    | HeaderObject
    | DeployCodeObject(isNilPointer: bool)
    | OtherObject

  datatype StackItem =
    | ByteArray(bytes: seq<byte>)
    | Boolean(b: bool)
    | Integer(i: int)
    | InteropItem(obj: Interop)
    | Array(items: seq<StackItem>)
    | Struct(items: seq<StackItem>)

  type Stack = seq<StackItem>

  /** The evaluation stack and the alt stack together. */
  datatype Stacks = Stacks(eval: Stack, alt: Stack)

  // ------------------------------------------------ moves between stacks

  /** TOALTSTACK: the evaluation top moves onto the alt stack. */
  function ToAltStack(st: Stacks): (r: Stacks)
    requires |st.eval| >= 1
    ensures |r.eval| + 1 == |st.eval| && |r.alt| == |st.alt| + 1
    ensures r.alt[0] == st.eval[0] && r.alt[1..] == st.alt && r.eval == st.eval[1..]
  {
    Stacks(st.eval[1..], [st.eval[0]] + st.alt)
  }

  /** FROMALTSTACK: the alt top moves onto the evaluation stack. */
  function FromAltStack(st: Stacks): (r: Stacks)
    requires |st.alt| >= 1
    ensures |r.alt| + 1 == |st.alt| && |r.eval| == |st.eval| + 1
    ensures r.eval[0] == st.alt[0] && r.eval[1..] == st.eval && r.alt == st.alt[1..]
  {
    Stacks([st.alt[0]] + st.eval, st.alt[1..])
  }

  /** DUPFROMALTSTACK: a copy of the alt top goes onto the evaluation stack. */
  function DupFromAltStack(st: Stacks): (r: Stacks)
    requires |st.alt| >= 1
    ensures r.alt == st.alt && r.eval == [st.alt[0]] + st.eval
  {
    Stacks([st.alt[0]] + st.eval, st.alt)
  }

  /** Moving to the alt stack and back restores both stacks, either way round. */
  lemma AltRoundTrips(st: Stacks)
    ensures |st.eval| >= 1 ==> FromAltStack(ToAltStack(st)) == st
    ensures |st.alt| >= 1 ==> ToAltStack(FromAltStack(st)) == st
  {
    if |st.eval| >= 1 {
      assert [st.eval[0]] + st.eval[1..] == st.eval;
    }
    if |st.alt| >= 1 {
      assert [st.alt[0]] + st.alt[1..] == st.alt;
    }
  }

  /** Duplicating from the alt stack is moving from it without the pop. */
  lemma DupIsFromWithoutPop(st: Stacks)
    requires |st.alt| >= 1
    ensures DupFromAltStack(st).eval == FromAltStack(st).eval
    ensures DupFromAltStack(st).alt == [st.alt[0]] + FromAltStack(st).alt
  {
  }

  // ------------------------------------------ evaluation-stack rewrites

  /** The index operand on top of the stack, when it is an integer that
      names one of the items below it. */
  predicate IndexOnTop(s: Stack)
  {
    |s| >= 1 && s[0].Integer? && 0 <= s[0].i < |s| - 1
  }

  /** XDROP: pops n and removes the item at depth n. */
  function XDrop(s: Stack): (r: Stack)
    requires IndexOnTop(s)
    ensures |r| == |s| - 2
    ensures forall i :: 0 <= i < s[0].i ==> r[i] == s[i + 1]
    ensures forall i :: s[0].i <= i < |r| ==> r[i] == s[i + 2]
  {
    var n, rest := s[0].i, s[1..];
    rest[..n] + rest[n + 1..]
  }

  /** XSWAP: pops n and swaps the top with the item at depth n. */
  function XSwap(s: Stack): (r: Stack)
    requires IndexOnTop(s)
    ensures |r| == |s| - 1
    ensures r[0] == s[s[0].i + 1] && r[s[0].i] == s[1]
    ensures forall i :: 0 < i < |r| && i != s[0].i ==> r[i] == s[i + 1]
  {
    var n, rest := s[0].i, s[1..];
    rest[0 := rest[n]][n := rest[0]]
  }

  /** DEPTH: pushes the number of items. */
  function Depth(s: Stack): (r: Stack)
    ensures |r| == |s| + 1 && r[0] == Integer(|s|) && r[1..] == s
  {
    [Integer(|s|)] + s
  }

  /** DROP: removes the top. */
  function Drop(s: Stack): (r: Stack)
    requires |s| >= 1
    ensures |r| == |s| - 1 && [s[0]] + r == s
  {
    s[1..]
  }

  /** DUP: pushes a copy of the top. */
  function Dup(s: Stack): (r: Stack)
    requires |s| >= 1
    ensures |r| == |s| + 1 && r[0] == r[1] == s[0] && r[1..] == s
  {
    [s[0]] + s
  }

  /** NIP: removes the second item. */
  function Nip(s: Stack): (r: Stack)
    requires |s| >= 2
    ensures |r| == |s| - 1 && r[0] == s[0] && r[1..] == s[2..]
  {
    [s[0]] + s[2..]
  }

  /** OVER: pushes a copy of the second item. */
  function Over(s: Stack): (r: Stack)
    requires |s| >= 2
    ensures |r| == |s| + 1 && r[0] == s[1] && r[1..] == s
  {
    [s[1]] + s
  }

  /** PICK: pops n and pushes a copy of the item at depth n. */
  function Pick(s: Stack): (r: Stack)
    requires IndexOnTop(s)
    ensures |r| == |s| && r[0] == s[s[0].i + 1] && r[1..] == s[1..]
  {
    var n, rest := s[0].i, s[1..];
    [rest[n]] + rest
  }

  /** ROT: the third item comes to the top. */
  function Rot(s: Stack): (r: Stack)
    requires |s| >= 3
    ensures |r| == |s| && r[0] == s[2] && r[1] == s[0] && r[2] == s[1] && r[3..] == s[3..]
  {
    [s[2], s[0], s[1]] + s[3..]
  }

  /** SWAP: the top two items trade places. */
  function Swap(s: Stack): (r: Stack)
    requires |s| >= 2
    ensures |r| == |s| && r[0] == s[1] && r[1] == s[0] && r[2..] == s[2..]
  {
    [s[1], s[0]] + s[2..]
  }

  /** TUCK: a copy of the top goes below the second item. */
  function Tuck(s: Stack): (r: Stack)
    requires |s| >= 2
    ensures |r| == |s| + 1 && r[0] == r[2] == s[0] && r[1] == s[1] && r[3..] == s[2..]
  {
    [s[0], s[1], s[0]] + s[2..]
  }

  /** SWAP undoes itself and only rearranges. */
  lemma SwapInvolution(s: Stack)
    requires |s| >= 2
    ensures Swap(Swap(s)) == s && multiset(Swap(s)) == multiset(s)
  {
    var t := s[2..];
    assert s == [s[0], s[1]] + t;
    assert Swap(s) == [s[1], s[0]] + t;
    assert multiset([s[1], s[0]]) == multiset([s[0], s[1]]);
  }

  /** ROT three times is the identity, and ROT only rearranges. */
  lemma RotCycle(s: Stack)
    requires |s| >= 3
    ensures Rot(Rot(Rot(s))) == s && multiset(Rot(s)) == multiset(s)
  {
    var t := s[3..];
    assert s == [s[0], s[1], s[2]] + t;
    assert Rot(s) == [s[2], s[0], s[1]] + t;
    assert Rot(Rot(s)) == [s[1], s[2], s[0]] + t;
    assert multiset([s[2], s[0], s[1]]) == multiset([s[0], s[1], s[2]]);
  }

  /** XSWAP is its own inverse for the same operand. */
  lemma XSwapInvolution(n: nat, s: Stack)
    requires n < |s|
    ensures XSwap([Integer(n)] + XSwap([Integer(n)] + s)) == s
  {
    var t := [Integer(n)] + s;
    assert t[1..] == s;
    var u := [Integer(n)] + XSwap(t);
    assert u[1..] == XSwap(t);
  }

  /** TUCK is SWAP then OVER, and NIP is SWAP then DROP. */
  lemma Compositions(s: Stack)
    requires |s| >= 2
    ensures Tuck(s) == Over(Swap(s))
    ensures Nip(s) == Drop(Swap(s))
  {
  }

  /** The indexed operators at the small operands are the fixed ones. */
  lemma IndexedSpecialCases(s: Stack)
    ensures |s| >= 1 ==> XDrop([Integer(0)] + s) == Drop(s) && Pick([Integer(0)] + s) == Dup(s)
    ensures |s| >= 2 ==> XSwap([Integer(1)] + s) == Swap(s) && Pick([Integer(1)] + s) == Over(s)
  {
    var t := [Integer(0)] + s;
    assert t[1..] == s;
    var u := [Integer(1)] + s;
    assert u[1..] == s;
    if |s| >= 2 {
      assert XSwap(u) == [s[1], s[0]] + s[2..];
    }
  }

  /** The stacks the opcode tests set up and expect (tops first). */
  lemma StackTestVectors()
    ensures XDrop([Integer(1), Integer(7777), Integer(8888), Integer(9999)]) == [Integer(7777), Integer(9999)]
    ensures XSwap([Integer(1), Integer(7777), Integer(8888), Integer(9999)]) == [Integer(8888), Integer(7777), Integer(9999)]
    ensures XSwap([Integer(2), Integer(7777), Integer(8888), Integer(9999)]) == [Integer(9999), Integer(8888), Integer(7777)]
    ensures Pick([Integer(3), Integer(6666), Integer(7777), Integer(8888), Integer(9999)])
            == [Integer(9999), Integer(6666), Integer(7777), Integer(8888), Integer(9999)]
    ensures Rot([Integer(7777), Integer(8888), Integer(9999)]) == [Integer(9999), Integer(7777), Integer(8888)]
    ensures Tuck([Integer(8888), Integer(9999)]) == [Integer(8888), Integer(9999), Integer(8888)]
    ensures Depth([Integer(8888), Integer(9999)])[0] == Integer(2)
  {
    var a := [Integer(1), Integer(7777), Integer(8888), Integer(9999)];
    assert a[1..] == [Integer(7777), Integer(8888), Integer(9999)];
    var b := [Integer(2), Integer(7777), Integer(8888), Integer(9999)];
    assert b[1..] == [Integer(7777), Integer(8888), Integer(9999)];
    var c := [Integer(3), Integer(6666), Integer(7777), Integer(8888), Integer(9999)];
    assert c[1..] == [Integer(6666), Integer(7777), Integer(8888), Integer(9999)];
  }

  // ----------------------------------------------------------- push data

  const PUSH0: byte := 0x00
  const PUSHBYTES1: byte := 0x01
  const PUSHBYTES75: byte := 0x4B
  const PUSHDATA1: byte := 0x4C
  const PUSHDATA2: byte := 0x4D
  const PUSHDATA4: byte := 0x4E
  const PUSHM1: byte := 0x4F
  const PUSH1: byte := 0x51
  const PUSH16: byte := 0x60

  /** The opcodes whose data getPushData reads. */
  predicate IsPushOp(op: byte)
  {
    op <= PUSHM1 || PUSH1 <= op <= PUSH16
  }

  /** What getPushData yields: bytes, a small integer (an int8), nothing
      (any other opcode), or a read past the end of the script. */
  datatype PushDatum = Bytes(bytes: seq<byte>) | SmallInt(v: int) | NoDatum | ShortRead

  /** A byte as a Go int8. */
  function Int8(x: byte): (r: int)
    ensures -128 <= r < 128 && (r - x) % 256 == 0
  {
    if x < 128 then x else x - 256
  }

  /** The four bytes of a little-endian int32. */
  function Int32Of(b: seq<byte>): (r: int)
    requires |b| == 4
    ensures -0x8000_0000 <= r < 0x8000_0000
  {
    var u := b[0] as int + 256 * b[1] as int + 65536 * b[2] as int + 16777216 * b[3] as int;
    if u < 0x8000_0000 then u else u - 0x1_0000_0000
  }

  /** The reader's ReadBytes(n) at cursor `pos`. */
  function ReadBytes(code: seq<byte>, pos: nat, n: int): (r: (PushDatum, nat))
    ensures r.0.Bytes? ==> n >= 0 && |r.0.bytes| == n && r.1 == pos + n <= |code| && r.0.bytes == code[pos..pos + n]
    ensures r.0.ShortRead? <==> n < 0 || pos + n > |code|
    ensures r.0.Bytes? || r.0.ShortRead?
  {
    if n < 0 || pos + n > |code| then (ShortRead, pos) else (Bytes(code[pos..pos + n]), pos + n)
  }

  /** getPushData: the datum an opcode pushes and the cursor after it. */
  function GetPushData(op: byte, code: seq<byte>, pos: nat): (r: (PushDatum, nat))
    ensures r.1 >= pos
    ensures !IsPushOp(op) ==> r == (NoDatum, pos)
    ensures PUSH1 <= op <= PUSH16 ==> r == (SmallInt(op - 0x50), pos)
    ensures op == PUSHM1 ==> r == (SmallInt(-1), pos)
    ensures op == PUSH0 ==> r == (SmallInt(0), pos)
    ensures PUSHBYTES1 <= op <= PUSHBYTES75 ==> r == ReadBytes(code, pos, op)
  {
    if PUSHBYTES1 <= op <= PUSHBYTES75 then ReadBytes(code, pos, op)
    else if op == PUSH0 then (SmallInt(0), pos)
    else if op == PUSHDATA1 then
      if pos + 1 > |code| then (ShortRead, pos) else ReadBytes(code, pos + 1, code[pos])
    else if op == PUSHDATA2 then
      if pos + 2 > |code| then (ShortRead, pos) else ReadBytes(code, pos + 2, code[pos] as int + 256 * code[pos + 1] as int)
    else if op == PUSHDATA4 then
      if pos + 4 > |code| then (ShortRead, pos) else ReadBytes(code, pos + 4, Int32Of(code[pos..pos + 4]))
    else if op == PUSHM1 || PUSH1 <= op <= PUSH16 then (SmallInt(Int8((op as int - PUSH1 as int + 1) % 256)), pos)
    else (NoDatum, pos)
  }

  /** The push instruction for a byte array, shortest form first. */
  function EncodePushBytes(b: seq<byte>): (r: seq<byte>)
    requires |b| < 0x8000_0000
    ensures |r| > |b|
  {
    var n := |b|;
    if 1 <= n <= 75 then [n] + b
    else if n < 0x100 then [PUSHDATA1, n] + b
    else if n < 0x10000 then [PUSHDATA2, n % 256, n / 256] + b
    else [PUSHDATA4, n % 256, (n / 256) % 256, (n / 65536) % 256, n / 16777216] + b
  }

  lemma LittleEndian32(n: nat)
    requires n < 0x8000_0000
    ensures Int32Of([n % 256, (n / 256) % 256, (n / 65536) % 256, n / 16777216]) == n
  {
    var q1, q2, q3 := n / 256, n / 65536, n / 16777216;
    assert q2 == q1 / 256 && q3 == q2 / 256;
    assert n == n % 256 + 256 * q1;
    assert q1 == q1 % 256 + 256 * q2;
    assert q2 == q2 % 256 + 256 * q3;
  }

  /** The payload sits at the end of its push instruction. */
  lemma PayloadAtEnd(b: seq<byte>, rest: seq<byte>)
    requires |b| < 0x8000_0000
    ensures var e := EncodePushBytes(b);
            |e| >= |b| && (e + rest)[|e| - |b|..|e|] == b
  {
  }

  /** Reading back a push instruction yields the bytes and moves the cursor
      past it, whatever follows. */
  lemma PushBytesRoundTrip(b: seq<byte>, rest: seq<byte>)
    requires |b| < 0x8000_0000
    ensures var code := EncodePushBytes(b) + rest;
            GetPushData(code[0], code, 1) == (Bytes(b), |EncodePushBytes(b)|)
  {
    var e := EncodePushBytes(b);
    var code := e + rest;
    var n := |b|;
    PayloadAtEnd(b, rest);
    if 1 <= n <= 75 {
      assert code[0] == n;
      assert GetPushData(code[0], code, 1) == ReadBytes(code, 1, n);
    } else if n < 0x100 {
      assert code[0] == PUSHDATA1 && code[1] == n;
      assert GetPushData(code[0], code, 1) == ReadBytes(code, 2, n);
    } else if n < 0x10000 {
      assert code[0] == PUSHDATA2 && code[1] == n % 256 && code[2] == n / 256;
      assert GetPushData(code[0], code, 1) == ReadBytes(code, 3, n);
    } else {
      assert code[0] == PUSHDATA4;
      assert code[1..5] == [n % 256, (n / 256) % 256, (n / 65536) % 256, n / 16777216];
      LittleEndian32(n);
      assert GetPushData(code[0], code, 1) == ReadBytes(code, 5, n);
    }
  }

  /** The small-integer opcodes yield -1 and 1..16 by byte wrap-around. */
  lemma SmallIntegers(op: byte)
    requires op == PUSHM1 || PUSH1 <= op <= PUSH16
    ensures var d := GetPushData(op, [], 0).0;
            d.SmallInt? && -1 <= d.v <= 16 && d.v != 0 && (d.v == -1 <==> op == PUSHM1)
  {
  }

  /** The stack item PushData makes from a datum. */
  function ItemOf(d: PushDatum): StackItem
    requires d.Bytes? || d.SmallInt?
  {
    if d.Bytes? then ByteArray(d.bytes) else Integer(d.v)
  }

  datatype VmState = NONE | FAULT

  /** The parts of the execution engine these opcodes touch: the two stacks,
      the current opcode and the script reader's cursor. */
  class ExecutionEngine {
    var evaluationStack: Stack
    var altStack: Stack
    var opCode: byte
    var code: seq<byte>
    var ip: nat

    constructor (eval: Stack, alt: Stack)
      ensures evaluationStack == eval && altStack == alt && opCode == 0 && code == [] && ip == 0
    {
      evaluationStack := eval;
      altStack := alt;
      opCode := 0;
      code := [];
      ip := 0;
    }

    function Both(): Stacks
      reads this
    {
      Stacks(evaluationStack, altStack)
    }

    method OpToAltStack()
      requires |evaluationStack| >= 1
      modifies this
      ensures Both() == ToAltStack(old(Both())) && opCode == old(opCode) && code == old(code) && ip == old(ip)
    {
      altStack := [evaluationStack[0]] + altStack;
      evaluationStack := evaluationStack[1..];
    }

    method OpFromAltStack()
      requires |altStack| >= 1
      modifies this
      ensures Both() == FromAltStack(old(Both())) && opCode == old(opCode) && code == old(code) && ip == old(ip)
    {
      evaluationStack := [altStack[0]] + evaluationStack;
      altStack := altStack[1..];
    }

    method OpToDupFromAltStack()
      requires |altStack| >= 1
      modifies this
      ensures Both() == DupFromAltStack(old(Both())) && opCode == old(opCode) && code == old(code) && ip == old(ip)
    {
      evaluationStack := [altStack[0]] + evaluationStack;
    }

    /** The evaluation-stack opcodes, each by its rewrite. */
    method OpXDrop()
      requires IndexOnTop(evaluationStack)
      modifies this
      ensures evaluationStack == XDrop(old(evaluationStack)) && altStack == old(altStack)
    {
      var n := evaluationStack[0].i;
      evaluationStack := evaluationStack[1..];
      evaluationStack := evaluationStack[..n] + evaluationStack[n + 1..];
    }

    method OpXSwap()
      requires IndexOnTop(evaluationStack)
      modifies this
      ensures evaluationStack == XSwap(old(evaluationStack)) && altStack == old(altStack)
    {
      var n := evaluationStack[0].i;
      evaluationStack := evaluationStack[1..];
      var top, item := evaluationStack[0], evaluationStack[n];
      evaluationStack := evaluationStack[0 := item][n := top];
    }

    method OpDepth()
      modifies this
      ensures evaluationStack == Depth(old(evaluationStack)) && altStack == old(altStack)
    {
      evaluationStack := [Integer(|evaluationStack|)] + evaluationStack;
    }

    method OpDrop()
      requires |evaluationStack| >= 1
      modifies this
      ensures evaluationStack == Drop(old(evaluationStack)) && altStack == old(altStack)
    {
      evaluationStack := evaluationStack[1..];
    }

    method OpDup()
      requires |evaluationStack| >= 1
      modifies this
      ensures evaluationStack == Dup(old(evaluationStack)) && altStack == old(altStack)
    {
      evaluationStack := [evaluationStack[0]] + evaluationStack;
    }

    method OpNip()
      requires |evaluationStack| >= 2
      modifies this
      ensures evaluationStack == Nip(old(evaluationStack)) && altStack == old(altStack)
    {
      var top := evaluationStack[0];
      evaluationStack := [top] + evaluationStack[2..];
    }

    method OpOver()
      requires |evaluationStack| >= 2
      modifies this
      ensures evaluationStack == Over(old(evaluationStack)) && altStack == old(altStack)
    {
      evaluationStack := [evaluationStack[1]] + evaluationStack;
    }

    method OpPick()
      requires IndexOnTop(evaluationStack)
      modifies this
      ensures evaluationStack == Pick(old(evaluationStack)) && altStack == old(altStack)
    {
      var n := evaluationStack[0].i;
      evaluationStack := evaluationStack[1..];
      evaluationStack := [evaluationStack[n]] + evaluationStack;
    }

    method OpRot()
      requires |evaluationStack| >= 3
      modifies this
      ensures evaluationStack == Rot(old(evaluationStack)) && altStack == old(altStack)
    {
      var s := evaluationStack;
      evaluationStack := [s[2], s[0], s[1]] + s[3..];
    }

    method OpSwap()
      requires |evaluationStack| >= 2
      modifies this
      ensures evaluationStack == Swap(old(evaluationStack)) && altStack == old(altStack)
    {
      var s := evaluationStack;
      evaluationStack := [s[1], s[0]] + s[2..];
    }

    method OpTuck()
      requires |evaluationStack| >= 2
      modifies this
      ensures evaluationStack == Tuck(old(evaluationStack)) && altStack == old(altStack)
    {
      var s := evaluationStack;
      evaluationStack := [s[0], s[1], s[0]] + s[2..];
    }

    /** opPushData: reads the datum of the current push opcode and pushes
        it; a read past the end of the script faults and changes nothing. */
    method OpPushData() returns (state: VmState)
      requires IsPushOp(opCode)
      modifies this
      ensures var (d, next) := GetPushData(old(opCode), old(code), old(ip));
              (state == FAULT <==> d.ShortRead?)
              && (d.ShortRead? ==> unchanged(this))
              && (!d.ShortRead? ==> evaluationStack == [ItemOf(d)] + old(evaluationStack) && ip == next)
      ensures altStack == old(altStack) && code == old(code) && opCode == old(opCode)
    {
      var (d, next) := GetPushData(opCode, code, ip);
      if d.ShortRead? {
        return FAULT;
      }
      evaluationStack := [ItemOf(d)] + evaluationStack;
      ip := next;
      state := NONE;
    }
  }
}
