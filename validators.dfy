/** The argument guards the embedded syscalls run before they execute:
    each looks at the evaluation stack's count and peeks at its top items,
    and accepts or refuses. */
module Validators {
  import opened Wrappers
  import opened Simulator

  datatype Validator =
    | Attribute | Block | BlockTransaction
    | BlockChainHeader | BlockChainBlock | BlockChainTransaction | BlockChainContract
    | Header | Transaction | GetCode
    | CheckWitness | Notify | Log | Serialize | Deserialize

  /** The guards that only ask for one argument to be present. */
  predicate CountOnly(v: Validator)
  {
    v in {BlockChainHeader, BlockChainBlock, BlockChainTransaction, BlockChainContract,
          CheckWitness, Notify, Log, Serialize, Validator.Deserialize}
  }

  /** PeekInteropInterface: the object an interop item on top wraps. */
  function PeekInterop(s: Stack): (r: Option<Interop>)
    ensures r.Some? <==> |s| >= 1 && s[0].InteropItem?
    ensures r.Some? ==> r.value == s[0].obj
  {
    if |s| >= 1 && s[0].InteropItem? then Some(s[0].obj) else None
  }

  /** peekBlock: the block on top (its transaction count), when the top
      wraps a block. */
  function PeekBlock(s: Stack): (r: Option<nat>)
    ensures r.Some? <==> |s| >= 1 && s[0].InteropItem? && s[0].obj.BlockObject?
    ensures r.Some? ==> r.value == s[0].obj.transactions
    ensures r.None? <==> PeekInterop(s).None? || !PeekInterop(s).value.BlockObject?
  {
    match PeekInterop(s)
    case None => None
    case Some(d) =>
      if d == NilObject then None
      else if d.BlockObject? then Some(d.transactions)
      else None
  }

  /** big.Int's Int64: the low 64 bits read as a signed integer. */
  function Int64Of(i: int): (r: int)
    ensures -0x8000_0000_0000_0000 <= r < 0x8000_0000_0000_0000
    ensures (r - i) % 0x1_0000_0000_0000_0000 == 0
    ensures -0x8000_0000_0000_0000 <= i < 0x8000_0000_0000_0000 ==> r == i
  {
    var u := i % 0x1_0000_0000_0000_0000;
    if u < 0x8000_0000_0000_0000 then u else u - 0x1_0000_0000_0000_0000
  }

  /** PeekNBigInt(1): the integer at depth 1. */
  function PeekSecondInt(s: Stack): (r: Option<int>)
    requires |s| >= 2
    ensures r.Some? <==> s[1].Integer?
  {
    if s[1].Integer? then Some(s[1].i) else None
  }

  function Validate(v: Validator, s: Stack): (ok: bool)
    ensures ok ==> |s| >= 1
    ensures ok && v == BlockTransaction ==> |s| >= 2 && PeekBlock(s).Some?
  {
    if |s| < 1 then false
    else match v
      case Attribute =>
        var d := PeekInterop(s);
        d.Some? && d.value != NilObject && d.value.TxAttributeObject?
      case Block => PeekBlock(s).Some?
      case BlockTransaction =>
        if |s| < 2 then false
        else
          var block := PeekBlock(s);
          if block.None? then false
          else
            var item := PeekSecondInt(s);
            item.Some? && 0 <= Int64Of(item.value) < block.value
      case Header =>
        var d := PeekInterop(s);
        d.Some? && d.value != NilObject
      case Transaction =>
        var d := PeekInterop(s);
        d.Some? && d.value != NilObject && d.value.TransactionObject?
      case GetCode =>
        var d := PeekInterop(s);
        d.Some? && d.value != NilObject && d.value.DeployCodeObject? && !d.value.isNilPointer
      case _ => true
  }

  /** The one-argument guards fail exactly on an empty stack. */
  lemma CountOnlyGuards(v: Validator, s: Stack)
    requires CountOnly(v)
    ensures Validate(v, s) <==> |s| >= 1
  {
  }

  /** The typed guards accept exactly a non-nil object of their kind on top. */
  lemma TypedGuards(s: Stack)
    ensures Validate(Attribute, s) <==> |s| >= 1 && s[0] == InteropItem(TxAttributeObject)
    ensures Validate(Transaction, s) <==> |s| >= 1 && s[0] == InteropItem(TransactionObject)
    ensures Validate(GetCode, s) <==> |s| >= 1 && s[0] == InteropItem(DeployCodeObject(false))
    ensures Validate(Header, s) <==> |s| >= 1 && s[0].InteropItem? && s[0].obj != NilObject
    ensures Validate(Block, s) <==> |s| >= 1 && s[0].InteropItem? && s[0].obj.BlockObject?
  {
  }

  /** The block-transaction guard: a block on top and, below it, an index
      into its transactions (an index outside int64 is first wrapped the
      way big.Int's Int64 does). */
  lemma BlockTransactionGuard(s: Stack)
    ensures Validate(BlockTransaction, s) <==>
              |s| >= 2 && s[0].InteropItem? && s[0].obj.BlockObject? && s[1].Integer?
              && 0 <= Int64Of(s[1].i) < s[0].obj.transactions
    ensures |s| >= 2 && s[1].Integer? && -0x8000_0000_0000_0000 <= s[1].i < 0x8000_0000_0000_0000 ==>
              (Validate(BlockTransaction, s) <==>
                 s[0].InteropItem? && s[0].obj.BlockObject? && 0 <= s[1].i < s[0].obj.transactions)
  {
  }

  /** The guards only peek: stacks that agree on their top two items and
      on whether they hold at least two get the same verdict. */
  lemma OnlyPeeks(v: Validator, s: Stack, t: Stack)
    requires |s| >= 2 && |t| >= 2 && s[..2] == t[..2]
    ensures Validate(v, s) == Validate(v, t)
  {
    assert s[0] == s[..2][0] && s[1] == s[..2][1];
    assert t[0] == t[..2][0] && t[1] == t[..2][1];
  }
}
