/** How the WASM service hands parameters to an embedded contract: typed
    arguments are converted from their tags, then emitted as push
    instructions, last parameter first, with nested lists packed. The
    meaning of the instructions is given by a small stack machine. */
module EmbeddedParams {
  import opened Wrappers
  import opened Codec

  /** A parameter, by its Go dynamic type. */
  datatype Param =
    | PBool(b: bool)
    | PInt(i: int)
    | PUint(u: nat)
    | PInt32(i: int)
    | PUint32(u: nat)
    | PInt64(i: int)
    | PFixed64(data: int)
    | PUint64(u: nat)
    | PString(s: seq<byte>)
    | PBigInt(i: int)
    | PBytes(bytes: seq<byte>)
    | PList(items: seq<Param>)
    | PUnsupported

  datatype Instr = PushBool(b: bool) | PushInteger(i: int) | PushBytes(bytes: seq<byte>) | Pack

  const TwoTo63: int := 0x8000_0000_0000_0000
  const TwoTo64: int := 0x1_0000_0000_0000_0000

  /** Go's int64(v) for an unsigned 64-bit v. */
  function Int64Cast(u: nat): (r: int)
    ensures -TwoTo63 <= r < TwoTo63
    ensures u < TwoTo63 ==> r == u
  {
    var w := u % TwoTo64;
    if w < TwoTo63 then w else w - TwoTo64
  }

  /** The integer a scalar integer parameter stands for. */
  function IntegerOf(p: Param): int
    requires p.PInt? || p.PUint? || p.PInt32? || p.PUint32? || p.PInt64? || p.PFixed64? || p.PUint64? || p.PBigInt?
  {
    match p
    case PInt(i) => i
    case PUint(u) => u
    case PInt32(i) => i
    case PUint32(u) => u
    case PInt64(i) => i
    case PFixed64(d) => d
    case PUint64(u) => u
    case PBigInt(i) => i
  }

  /** The integer the source emits: a Go uint goes through int64(v). */
  function IntegerOfAsWritten(p: Param): int
    requires p.PInt? || p.PUint? || p.PInt32? || p.PUint32? || p.PInt64? || p.PFixed64? || p.PUint64? || p.PBigInt?
  {
    if p.PUint? then Int64Cast(p.u) else IntegerOf(p)
  }

  /** The two differ exactly for a uint of 2^63 or more (in range). */
  lemma UintWrapAsWritten(p: Param)
    requires p.PInt? || p.PUint? || p.PInt32? || p.PUint32? || p.PInt64? || p.PFixed64? || p.PUint64? || p.PBigInt?
    requires p.PUint? ==> p.u < TwoTo64
    ensures IntegerOfAsWritten(p) != IntegerOf(p) <==> p.PUint? && p.u >= TwoTo63
    ensures IntegerOfAsWritten(PUint(TwoTo63)) == -TwoTo63
  {
  }

  /** What an emission left in the builder and whether it finished. */
  datatype Emission = Emission(instrs: seq<Instr>, ok: bool)

  /** e, then f unless e failed. */
  function Then(e: Emission, f: Emission): (r: Emission)
    ensures r.ok <==> e.ok && f.ok
  {
    if !e.ok then e else Emission(e.instrs + f.instrs, f.ok)
  }

  /** One parameter's instructions. */
  function EmitOne(p: Param): Emission
    decreases p, 1
  {
    match p
    case PBool(b) => Emission([PushBool(b)], true)
    case PString(s) => Emission([PushBytes(s)], true)
    case PBytes(b) => Emission([PushBytes(b)], true)
    case PList(items) => Then(EmitAll(items), Emission([PushInteger(|items|), Pack], true))
    case PUnsupported => Emission([], false)
    case _ => Emission([PushInteger(IntegerOf(p))], true)
  }

  /** buildEmbeddedParamInter: the later parameters first, then ps[0]. */
  function EmitAll(ps: seq<Param>): Emission
    decreases ps, 0
  {
    if ps == [] then Emission([], true)
    else Then(EmitAll(ps[1..]), EmitOne(ps[0]))
  }

  function Supported(p: Param): bool
    decreases p, 1
  {
    match p
    case PUnsupported => false
    case PList(items) => SupportedAll(items)
    case _ => true
  }

  function SupportedAll(ps: seq<Param>): bool
    decreases ps, 0
  {
    ps == [] || (Supported(ps[0]) && SupportedAll(ps[1..]))
  }

  /** Emission finishes exactly when no parameter, at any depth, has an
      unsupported type. */
  lemma {:induction false} EmitOneOk(p: Param)
    ensures EmitOne(p).ok <==> Supported(p)
    decreases p, 1
  {
    if p.PList? {
      EmitAllOk(p.items);
    }
  }

  lemma {:induction false} EmitAllOk(ps: seq<Param>)
    ensures EmitAll(ps).ok <==> SupportedAll(ps)
    decreases ps, 0
  {
    if ps != [] {
      EmitAllOk(ps[1..]);
      EmitOneOk(ps[0]);
    }
  }

  /** Emission runs from the last parameter: a parameter list's code is its
      tail's code, then the head's; once a later parameter fails, the
      earlier ones are never emitted. */
  lemma {:induction false} EmitConcat(a: seq<Param>, b: seq<Param>)
    ensures EmitAll(a + b) == Then(EmitAll(b), EmitAll(a))
    decreases |a|
  {
    if a == [] {
      assert a + b == b;
      var e := EmitAll(b);
      if e.ok {
        assert e.instrs + [] == e.instrs;
      }
    } else {
      assert (a + b)[1..] == a[1..] + b;
      EmitConcat(a[1..], b);
      var eb, ea', e0 := EmitAll(b), EmitAll(a[1..]), EmitOne(a[0]);
      if eb.ok && ea'.ok {
        assert eb.instrs + ea'.instrs + e0.instrs == eb.instrs + (ea'.instrs + e0.instrs);
      }
    }
  }

  /** A value on the stack machine. */
  datatype Value = VBool(b: bool) | VInt(i: int) | VBytes(bytes: seq<byte>) | VArray(items: seq<Value>)

  /** The stack machine (element 0 is the top). PACK pops a count n, then n
      items, the first popped becoming element 0. */
  function Run(instrs: seq<Instr>, st: seq<Value>): Option<seq<Value>>
    decreases |instrs|
  {
    if instrs == [] then Some(st)
    else
      var rest := instrs[1..];
      match instrs[0]
      case PushBool(b) => Run(rest, [VBool(b)] + st)
      case PushInteger(i) => Run(rest, [VInt(i)] + st)
      case PushBytes(bs) => Run(rest, [VBytes(bs)] + st)
      case Pack =>
        if |st| >= 1 && st[0].VInt? && 0 <= st[0].i <= |st| - 1
        then Run(rest, [VArray(st[1..1 + st[0].i])] + st[1 + st[0].i..])
        else None
  }

  lemma {:induction false} RunConcat(a: seq<Instr>, b: seq<Instr>, st: seq<Value>)
    ensures Run(a + b, st) == (match Run(a, st) case None => None case Some(mid) => Run(b, mid))
    decreases |a|
  {
    if a == [] {
      assert a + b == b;
    } else {
      assert (a + b)[0] == a[0] && (a + b)[1..] == a[1..] + b;
      match a[0]
      case PushBool(v) => RunConcat(a[1..], b, [VBool(v)] + st);
      case PushInteger(i) => RunConcat(a[1..], b, [VInt(i)] + st);
      case PushBytes(bs) => RunConcat(a[1..], b, [VBytes(bs)] + st);
      case Pack =>
        if |st| >= 1 && st[0].VInt? && 0 <= st[0].i <= |st| - 1 {
          RunConcat(a[1..], b, [VArray(st[1..1 + st[0].i])] + st[1 + st[0].i..]);
        }
    }
  }

  /** The value a supported parameter stands for. */
  function ValueOf(p: Param): Value
    requires Supported(p)
    decreases p, 1
  {
    match p
    case PBool(b) => VBool(b)
    case PString(s) => VBytes(s)
    case PBytes(b) => VBytes(b)
    case PList(items) => VArray(ValuesOf(items))
    case _ => VInt(IntegerOf(p))
  }

  function ValuesOf(ps: seq<Param>): (r: seq<Value>)
    requires SupportedAll(ps)
    ensures |r| == |ps|
    decreases ps, 0
  {
    if ps == [] then [] else [ValueOf(ps[0])] + ValuesOf(ps[1..])
  }

  /** Running one parameter's code pushes its value. */
  lemma {:induction false} RunEmitOne(p: Param, st: seq<Value>)
    requires Supported(p)
    ensures EmitOne(p).ok && Run(EmitOne(p).instrs, st) == Some([ValueOf(p)] + st)
    decreases p, 1
  {
    EmitOneOk(p);
    match p
    case PList(items) =>
      RunEmitAll(items, st);
      var inner := EmitAll(items).instrs;
      var mid := ValuesOf(items) + st;
      RunConcat(inner, [PushInteger(|items|), Pack], st);
      var top := [VInt(|items|)] + mid;
      assert Run([PushInteger(|items|), Pack], mid) == Run([Pack], top);
      assert top[1..1 + |items|] == ValuesOf(items) && top[1 + |items|..] == st;
    case _ =>
  }

  /** Running the whole emission leaves the parameters on the stack in
      order, the first parameter on top: the reversed emission is what
      makes the callee see them in declaration order. */
  lemma {:induction false} RunEmitAll(ps: seq<Param>, st: seq<Value>)
    requires SupportedAll(ps)
    ensures EmitAll(ps).ok && Run(EmitAll(ps).instrs, st) == Some(ValuesOf(ps) + st)
    decreases ps, 0
  {
    EmitAllOk(ps);
    if ps != [] {
      var tail := EmitAll(ps[1..]).instrs;
      var head := EmitOne(ps[0]).instrs;
      RunEmitAll(ps[1..], st);
      RunEmitOne(ps[0], ValuesOf(ps[1..]) + st);
      assert EmitAll(ps).instrs == tail + head;
      RunConcat(tail, head, st);
      assert ValuesOf(ps) == [ValueOf(ps[0])] + ValuesOf(ps[1..]);
      assert [ValueOf(ps[0])] + (ValuesOf(ps[1..]) + st) == ValuesOf(ps) + st;
    } else {
      assert ValuesOf(ps) + st == st;
    }
  }

  /** The instruction buffer of a ParamsBuilder. */
  class ParamsBuilder {
    var instrs: seq<Instr>

    constructor ()
      ensures instrs == []
    {
      instrs := [];
    }

    /** buildEmbeddedParamInter: walks the parameters from the last,
        recursing into nested lists; an unsupported parameter stops it with
        what was emitted so far left in the buffer. */
    method BuildEmbeddedParamInter(ps: seq<Param>) returns (ok: bool)
      modifies this
      ensures instrs == old(instrs) + EmitAll(ps).instrs && ok == EmitAll(ps).ok
      decreases ps, 0
    {
      var i := |ps|;
      assert ps[|ps|..] == [];
      while i > 0
        invariant 0 <= i <= |ps|
        invariant EmitAll(ps[i..]).ok
        invariant instrs == old(instrs) + EmitAll(ps[i..]).instrs
      {
        assert ps[i - 1..][1..] == ps[i..];
        var p := ps[i - 1];
        assert p in ps;
        var one := EmitParam(p);
        if !one {
          EmitConcat(ps[..i - 1], ps[i - 1..]);
          assert ps[..i - 1] + ps[i - 1..] == ps;
          return false;
        }
        i := i - 1;
      }
      assert ps[0..] == ps;
      ok := true;
    }

    /** One parameter of the switch. */
    method EmitParam(p: Param) returns (ok: bool)
      modifies this
      ensures instrs == old(instrs) + EmitOne(p).instrs && ok == EmitOne(p).ok
      decreases p, 1
    {
      match p {
        case PBool(b) => instrs := instrs + [PushBool(b)];
        case PString(s) => instrs := instrs + [PushBytes(s)];
        case PBytes(bs) => instrs := instrs + [PushBytes(bs)];
        case PUnsupported =>
          assert instrs + [] == instrs;
          return false;
        case PList(items) =>
          var inner := BuildEmbeddedParamInter(items);
          if !inner {
            return false;
          }
          instrs := instrs + [PushInteger(|items|), Pack];
        case _ => instrs := instrs + [PushInteger(IntegerOf(p))];
      }
      ok := true;
    }
  }

  // ------------------------------------------------------ tag conversion

  /** strings.ToLower on the ASCII letters. */
  function ToLowerAscii(s: seq<byte>): (r: seq<byte>)
    ensures |r| == |s|
    ensures forall i :: 0 <= i < |s| ==> r[i] == (if 65 <= s[i] <= 90 then s[i] + 32 else s[i])
  {
    seq(|s|, i requires 0 <= i < |s| => if 65 <= s[i] <= 90 then s[i] + 32 else s[i])
  }

  lemma ToLowerIdempotent(s: seq<byte>)
    ensures ToLowerAscii(ToLowerAscii(s)) == ToLowerAscii(s)
  {
  }

  predicate IsDigit(c: byte)
  {
    48 <= c <= 57
  }

  predicate AllDigits(s: seq<byte>)
  {
    forall i :: 0 <= i < |s| ==> IsDigit(s[i])
  }

  /** The number a digit string spells. */
  function DigitsValue(s: seq<byte>): nat
    requires AllDigits(s)
    decreases |s|
  {
    if s == [] then 0 else 10 * DigitsValue(s[..|s| - 1]) + (s[|s| - 1] - 48)
  }

  predicate InInt64(v: int)
  {
    -TwoTo63 <= v < TwoTo63
  }

  /** strconv.Atoi and strconv.ParseInt(s, 10, 64): an optional sign and at
      least one decimal digit, within int64. */
  function ParseDecimal(s: seq<byte>): (r: Option<int>)
    ensures r.Some? ==> InInt64(r.value)
  {
    if |s| == 0 then None
    else
      var neg := s[0] == 45;
      var body := if s[0] == 45 || s[0] == 43 then s[1..] else s;
      if |body| == 0 || !AllDigits(body) then None
      else
        var v: int := if neg then 0 - (DigitsValue(body) as int) else DigitsValue(body);
        if InInt64(v) then Some(v) else None
  }

  /** The decimal digits of n, most significant first. */
  function DigitsOf(n: nat): (r: seq<byte>)
    ensures |r| >= 1 && AllDigits(r) && (r[0] == 48 ==> n == 0)
    decreases n
  {
    if n < 10 then [48 + n] else DigitsOf(n / 10) + [48 + n % 10]
  }

  lemma {:induction false} DigitsRoundTrip(n: nat)
    ensures DigitsValue(DigitsOf(n)) == n
    decreases n
  {
    if n >= 10 {
      DigitsRoundTrip(n / 10);
      var d := DigitsOf(n);
      assert d[..|d| - 1] == DigitsOf(n / 10);
    }
  }

  /** strconv.Itoa. */
  function FormatDecimal(v: int): seq<byte>
  {
    if v < 0 then [45] + DigitsOf(-v) else DigitsOf(v)
  }

  /** Every int64 survives formatting and parsing back. */
  lemma ParseFormat(v: int)
    requires InInt64(v)
    ensures ParseDecimal(FormatDecimal(v)) == Some(v)
  {
    var n := if v < 0 then -v else v;
    DigitsRoundTrip(n);
    var s := FormatDecimal(v);
    if v < 0 {
      assert s[1..] == DigitsOf(n);
    }
  }

  /** The tags "string", "int" and "int64", as ASCII bytes. */
  const TagString: seq<byte> := [115, 116, 114, 105, 110, 103]
  const TagInt: seq<byte> := [105, 110, 116]
  const TagInt64: seq<byte> := [105, 110, 116, 54, 52]

  /** One typed argument: lower-cased tag "string" or an unknown tag keeps
      the text; "int" and "int64" parse it as decimal. */
  function ConvertArg(tag: seq<byte>, value: seq<byte>): (r: Option<Param>)
    ensures r.None? <==> ToLowerAscii(tag) in {TagInt, TagInt64} && ParseDecimal(value).None?
    ensures r.Some? && ToLowerAscii(tag) !in {TagInt, TagInt64} ==> r.value == PString(value)
    ensures r.Some? ==> Supported(r.value) && !r.value.PList?
  {
    var t := ToLowerAscii(tag);
    if t == TagString then Some(PString(value))
    else if t == TagInt then
      match ParseDecimal(value)
      case None => None
      case Some(n) => Some(PInt(n))
    else if t == TagInt64 then
      match ParseDecimal(value)
      case None => None
      case Some(n) => Some(PInt64(n))
    else Some(PString(value))
  }

  /** A number tagged "int" or "int64" arrives as that number. */
  lemma ConvertFormatted(tag: seq<byte>, v: int)
    requires InInt64(v) && ToLowerAscii(tag) in {TagInt, TagInt64}
    ensures ConvertArg(tag, FormatDecimal(v)).Some? && IntegerOf(ConvertArg(tag, FormatDecimal(v)).value) == v
  {
    ParseFormat(v);
  }

  /** marshalEmbeddedParams: exactly one environment parameter; the typed
      (tag, value) pairs it points to are converted in order, a parse
      error aborting; the arguments are emitted as one packed list. */
  method MarshalEmbeddedParams(envParams: nat, pairs: seq<(seq<byte>, seq<byte>)>) returns (r: Option<seq<Instr>>)
    ensures envParams != 1 ==> r.None?
    ensures envParams == 1 ==> (r.None? <==> exists i :: 0 <= i < |pairs| && ConvertArg(pairs[i].0, pairs[i].1).None?)
    ensures r.Some? ==> exists args: seq<Param> ::
              |args| == |pairs| && SupportedAll(args)
              && (forall i :: 0 <= i < |args| ==> ConvertArg(pairs[i].0, pairs[i].1) == Some(args[i]))
              && r.value == EmitAll([PList(args)]).instrs
              && Run(r.value, []) == Some([VArray(ValuesOf(args))])
  {
    if envParams != 1 {
      return None;
    }
    var args: seq<Param> := [];
    var i := 0;
    while i < |pairs|
      invariant 0 <= i <= |pairs| && |args| == i
      invariant forall j :: 0 <= j < i ==> ConvertArg(pairs[j].0, pairs[j].1) == Some(args[j])
      invariant forall j :: 0 <= j < i ==> Supported(args[j])
    {
      var a := ConvertArg(pairs[i].0, pairs[i].1);
      if a.None? {
        return None;
      }
      args := args + [a.value];
      i := i + 1;
    }
    SupportedFromEach(args);
    var builder := new ParamsBuilder();
    var ok := builder.BuildEmbeddedParamInter([PList(args)]);
    assert Supported(PList(args));
    assert SupportedAll([PList(args)]) by {
      assert [PList(args)][0] == PList(args) && [PList(args)][1..] == [];
    }
    RunEmitAll([PList(args)], []);
    assert ValuesOf([PList(args)]) == [VArray(ValuesOf(args))] by {
      assert [PList(args)][1..] == [];
    }
    r := Some(builder.instrs);
    assert |args| == |pairs| && SupportedAll(args)
           && (forall i :: 0 <= i < |args| ==> ConvertArg(pairs[i].0, pairs[i].1) == Some(args[i]))
           && r.value == EmitAll([PList(args)]).instrs
           && Run(r.value, []) == Some([VArray(ValuesOf(args))]);
  }

  lemma {:induction false} SupportedFromEach(ps: seq<Param>)
    requires forall j :: 0 <= j < |ps| ==> Supported(ps[j])
    ensures SupportedAll(ps)
    decreases |ps|
  {
    if ps != [] {
      SupportedFromEach(ps[1..]);
    }
  }
}
