/** The native-contract dispatcher: a registry of method handlers and the
    invocation that swaps the execution fields around a handler call.
    What a handler does is given by a behaviour function: its reply to the
    input it is handed. */
module NativeDispatch {
  import opened Wrappers
  import opened Ints
  import opened Codec

  /** A method name, as its bytes. */
  type Name = seq<byte>

  /** A registered handler, known by its identity. */
  datatype Handler = Handler(id: nat)

  /** A notification raised by a handler. */
  datatype Notice = Notice(contract: Address, states: seq<byte>)

  /** A handler run, seen from the dispatcher: its result bytes, whether it
      returned an error, and the notifications it left. */
  datatype Reply = Reply(result: seq<byte>, failed: bool, notices: seq<Notice>)

  /** The handlers' behaviour: the reply of a handler to the input it sees. */
  type Behaviour = (Handler, seq<byte>) -> Reply

  /** A contract's registration callback, as the Register calls it makes. */
  type Registration = seq<(Name, Handler)>

  /** The code of a native call: contract address, method and arguments. */
  datatype Contract = Contract(address: Address, methodName: Name, args: seq<byte>)

  /** The outcome of an invocation. */
  datatype Outcome =
    | BadCode               // the code is not a serialized contract
    | NoContract            // the address has no registration callback
    | NoMethod              // the method is not in the service map
    | Failed(result: seq<byte>)
    | Done(result: seq<byte>)

  /** Lengths fit the varuint prefix. */
  predicate Encodable(c: Contract)
  {
    |c.methodName| < U64 && |c.args| < U64
  }

  function EncodeContract(c: Contract): (r: seq<byte>)
    requires Encodable(c)
    ensures |r| >= 23 + |c.methodName| + |c.args|
  {
    EncodeAddress(c.address) + EncodeVarBytes(c.methodName) + EncodeVarBytes(c.args)
  }

  function DecodeContract(s: seq<byte>): (r: Option<Contract>)
    ensures r.Some? ==> Encodable(r.value)
  {
    match DecodeAddress(s)
    case None => None
    case Some((a, s1)) =>
      match DecodeVarBytes(s1)
      case None => None
      case Some((m, s2)) =>
        match DecodeVarBytes(s2)
        case None => None
        case Some((args, _)) => Some(Contract(a, m, args))
  }

  /** The decoder never reads past its input: a decoded call takes at
      least as many bytes as encoding it again would. */
  lemma DecodeContractWithin(s: seq<byte>)
    ensures var r := DecodeContract(s);
            r.Some? ==> 23 + |r.value.methodName| + |r.value.args| <= |s|
  {
  }

  lemma ContractRoundTrip(c: Contract)
    requires Encodable(c)
    ensures DecodeContract(EncodeContract(c)) == Some(c)
  {
    var m, g := EncodeVarBytes(c.methodName), EncodeVarBytes(c.args);
    AddressRoundTrip(c.address, m + g);
    assert EncodeContract(c) == EncodeAddress(c.address) + (m + g);
    VarBytesRoundTrip(c.methodName, g);
    VarBytesRoundTrip(c.args, []);
    assert g + [] == g;
  }

  /** The service map after a run of Register calls. */
  function Registered(m: map<Name, Handler>, regs: Registration): map<Name, Handler>
    decreases |regs|
  {
    if regs == [] then m else Registered(m[regs[0].0 := regs[0].1], regs[1..])
  }

  /** The names a registration callback registers. */
  function Names(regs: Registration): (r: set<Name>)
    ensures forall i :: 0 <= i < |regs| ==> regs[i].0 in r
  {
    set i | 0 <= i < |regs| :: regs[i].0
  }

  /** Registering adds exactly the registered names, the last registration
      of a name wins, and other names keep their handlers. */
  lemma RegisteredMap(m: map<Name, Handler>, regs: Registration)
    ensures Registered(m, regs).Keys == m.Keys + Names(regs)
    ensures forall n :: n in m && n !in Names(regs) ==> Registered(m, regs)[n] == m[n]
    ensures forall i :: 0 <= i < |regs| && (forall j :: i < j < |regs| ==> regs[j].0 != regs[i].0) ==>
              Registered(m, regs)[regs[i].0] == regs[i].1
  {
    RegisteredKeys(m, regs);
    forall i | 0 <= i < |regs| && (forall j :: i < j < |regs| ==> regs[j].0 != regs[i].0)
      ensures Registered(m, regs)[regs[i].0] == regs[i].1
    {
      RegisteredLast(m, regs, i);
    }
  }

  lemma NamesCons(regs: Registration)
    requires regs != []
    ensures Names(regs) == {regs[0].0} + Names(regs[1..])
  {
    var rest := regs[1..];
    forall n | n in Names(regs) ensures n in {regs[0].0} + Names(rest) {
      var i :| 0 <= i < |regs| && regs[i].0 == n;
      if i > 0 {
        assert rest[i - 1].0 == n;
      }
    }
  }

  /** The keys after registering, and the handlers of names not registered. */
  lemma {:induction false} RegisteredKeys(m: map<Name, Handler>, regs: Registration)
    ensures Registered(m, regs).Keys == m.Keys + Names(regs)
    ensures forall n :: n in m && n !in Names(regs) ==> Registered(m, regs)[n] == m[n]
    decreases |regs|
  {
    if regs != [] {
      RegisteredKeys(m[regs[0].0 := regs[0].1], regs[1..]);
      NamesCons(regs);
    }
  }

  /** A registration not followed by another of the same name is the one kept. */
  lemma {:induction false} RegisteredLast(m: map<Name, Handler>, regs: Registration, i: nat)
    requires i < |regs| && forall j :: i < j < |regs| ==> regs[j].0 != regs[i].0
    ensures regs[i].0 in Registered(m, regs) && Registered(m, regs)[regs[i].0] == regs[i].1
    decreases |regs|
  {
    var m', rest := m[regs[0].0 := regs[0].1], regs[1..];
    RegisteredKeys(m', rest);
    if i == 0 {
      assert regs[0].0 !in Names(rest) by {
        forall j | 0 <= j < |rest| ensures rest[j].0 != regs[0].0 {
          assert rest[j] == regs[j + 1];
        }
      }
    } else {
      assert rest[i - 1] == regs[i];
      forall j | i - 1 < j < |rest| ensures rest[j].0 != rest[i - 1].0 {
        assert rest[j] == regs[j + 1];
      }
      RegisteredLast(m', rest, i - 1);
    }
  }

  /** The fields of a native service that the dispatcher reads and writes.
      ContextRef is modelled by its context stack and the notification
      batches pushed to it. */
  class NativeService {
    var serviceMap: map<Name, Handler>
    var notifications: seq<Notice>
    var code: seq<byte>
    var input: seq<byte>
    var contexts: seq<Address>
    var pushed: seq<seq<Notice>>

    constructor (code: seq<byte>, input: seq<byte>)
      ensures this.code == code && this.input == input
      ensures serviceMap == map[] && notifications == [] && contexts == [] && pushed == []
    {
      this.code := code;
      this.input := input;
      serviceMap := map[];
      notifications := [];
      contexts := [];
      pushed := [];
    }

    /** Register stores the handler under its name, replacing any earlier one. */
    method Register(name: Name, h: Handler)
      modifies this
      ensures serviceMap == old(serviceMap)[name := h]
      ensures notifications == old(notifications) && code == old(code) && input == old(input)
      ensures contexts == old(contexts) && pushed == old(pushed)
    {
      serviceMap := serviceMap[name := h];
    }

    /** Runs a contract's registration callback. */
    method RunRegistration(regs: Registration)
      modifies this
      ensures serviceMap == Registered(old(serviceMap), regs)
      ensures notifications == old(notifications) && code == old(code) && input == old(input)
      ensures contexts == old(contexts) && pushed == old(pushed)
    {
      var i := 0;
      while i < |regs|
        invariant 0 <= i <= |regs|
        invariant Registered(old(serviceMap), regs) == Registered(serviceMap, regs[i..])
        invariant notifications == old(notifications) && code == old(code) && input == old(input)
        invariant contexts == old(contexts) && pushed == old(pushed)
      {
        assert regs[i..][1..] == regs[i + 1..];
        Register(regs[i].0, regs[i].1);
        i := i + 1;
      }
    }

    /** Invoke: decode the code, run the contract's registration, look the
        method up, and call its handler with Input set to the arguments
        and Notifications emptied. On success the context is popped, the
        handler's notifications are pushed and Input and Notifications are
        restored; on a handler error none of that is undone. */
    method Invoke(contracts: map<Address, Registration>, behave: Behaviour) returns (r: Outcome)
      modifies this
      ensures code == old(code)
      ensures DecodeContract(old(code)).None? ==> r == BadCode && unchanged(this)
      ensures DecodeContract(old(code)).Some? && DecodeContract(old(code)).value.address !in contracts ==>
                r == NoContract && unchanged(this)
      ensures DecodeContract(old(code)).Some? && DecodeContract(old(code)).value.address in contracts ==>
                var c := DecodeContract(old(code)).value;
                serviceMap == Registered(old(serviceMap), contracts[c.address])
                && (c.methodName !in serviceMap ==>
                      r == NoMethod && notifications == old(notifications) && input == old(input)
                      && contexts == old(contexts) && pushed == old(pushed))
                && (c.methodName in serviceMap ==>
                      var reply := behave(serviceMap[c.methodName], c.args);
                      (reply.failed ==>
                         r == Failed(reply.result) && input == c.args && notifications == reply.notices
                         && contexts == old(contexts) + [c.address] && pushed == old(pushed))
                      && (!reply.failed ==>
                         r == Done(reply.result) && input == old(input) && notifications == old(notifications)
                         && contexts == old(contexts) && pushed == old(pushed) + [reply.notices]))
    {
      var decoded := DecodeContract(code);
      if decoded.None? {
        return BadCode;
      }
      var c := decoded.value;
      if c.address !in contracts {
        return NoContract;
      }
      RunRegistration(contracts[c.address]);
      if c.methodName !in serviceMap {
        return NoMethod;
      }
      var service := serviceMap[c.methodName];
      var args := input;
      input := c.args;
      contexts := contexts + [c.address];
      var saved := notifications;
      notifications := [];
      var reply := behave(service, input);
      notifications := reply.notices;
      if reply.failed {
        return Failed(reply.result);
      }
      contexts := contexts[..|contexts| - 1];
      pushed := pushed + [notifications];
      notifications := saved;
      input := args;
      r := Done(reply.result);
    }

    /** NativeCall serializes the call into Code and invokes it. */
    method NativeCall(address: Address, methodName: Name, args: seq<byte>,
                      contracts: map<Address, Registration>, behave: Behaviour) returns (r: Outcome)
      requires |methodName| < U64 && |args| < U64
      modifies this
      ensures code == EncodeContract(Contract(address, methodName, args))
      ensures r != BadCode
      ensures address !in contracts ==> r == NoContract
      ensures address in contracts ==> serviceMap == Registered(old(serviceMap), contracts[address])
      ensures address in contracts && methodName in serviceMap ==>
                var reply := behave(serviceMap[methodName], args);
                (reply.failed <==> r == Failed(reply.result))
                && (!reply.failed ==>
                      r == Done(reply.result) && input == old(input) && notifications == old(notifications)
                      && contexts == old(contexts) && pushed == old(pushed) + [reply.notices])
      ensures address in contracts && methodName !in serviceMap ==> r == NoMethod
    {
      code := EncodeContract(Contract(address, methodName, args));
      ContractRoundTrip(Contract(address, methodName, args));
      r := Invoke(contracts, behave);
    }
  }
}
