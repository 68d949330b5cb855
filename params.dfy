/** The parameter records of the governance contract and their byte
    encodings: every Serialize is a function to a byte sequence (None where
    the Go code refuses to write), every Deserialize a function of the
    unread input that yields the record and the remaining input, or None.
    A Go decoder assigns its fields only after every read has succeeded; a
    decoder here returns no record at all on failure, so a failed decode
    never leaves a half-filled record behind. */
module GovernanceParams {
  import opened Wrappers
  import opened Ints
  import opened Codec

  /** Go strings are byte strings; peer public keys are hex strings. */
  type Str = seq<byte>

  predicate StrOk(s: Str) { |s| < U64 }
  predicate AllStrOk(l: seq<Str>) { forall i :: 0 <= i < |l| ==> StrOk(l[i]) }
  predicate AllBelow(l: seq<nat>, bound: nat) { forall i :: 0 <= i < |l| ==> l[i] < bound }

  // ------------------------------------------------------------ list coders

  function EncodeStrings(l: seq<Str>): (r: seq<byte>)
    requires AllStrOk(l)
  {
    if l == [] then [] else EncodeVarBytes(l[0]) + EncodeStrings(l[1..])
  }

  function DecodeStrings(s: seq<byte>, n: nat): (r: Option<(seq<Str>, seq<byte>)>)
    ensures r.Some? ==> |r.value.0| == n
    ensures r.Some? ==> AllStrOk(r.value.0) && |r.value.1| <= |s|
  {
    if n == 0 then Some(([], s))
    else
      match DecodeVarBytes(s)
      case None => None
      case Some((head, t)) =>
        match DecodeStrings(t, n - 1)
        case None => None
        case Some((tail, u)) => Some(([head] + tail, u))
  }

  lemma {:induction false} StringsRoundTrip(l: seq<Str>, rest: seq<byte>)
    requires AllStrOk(l)
    ensures DecodeStrings(EncodeStrings(l) + rest, |l|) == Some((l, rest))
    decreases |l|
  {
    if l != [] {
      var tail := EncodeStrings(l[1..]) + rest;
      assert EncodeStrings(l) + rest == EncodeVarBytes(l[0]) + tail;
      VarBytesRoundTrip(l[0], tail);
      StringsRoundTrip(l[1..], rest);
      assert [l[0]] + l[1..] == l;
    } else {
      assert EncodeStrings(l) + rest == rest;
    }
  }

  function EncodeUints(l: seq<nat>): (r: seq<byte>)
    requires AllBelow(l, U64)
    ensures |l| <= |r| <= 9 * |l|
  {
    if l == [] then [] else EncodeVarUint(l[0]) + EncodeUints(l[1..])
  }

  /** Reads `n` varuints, refusing any value above `max`. */
  function DecodeUints(s: seq<byte>, n: nat, max: nat): (r: Option<(seq<nat>, seq<byte>)>)
    ensures r.Some? ==> |r.value.0| == n
    ensures r.Some? ==> forall i :: 0 <= i < n ==> r.value.0[i] <= max && r.value.0[i] < U64
  {
    if n == 0 then Some(([], s))
    else
      match DecodeVarUint(s)
      case None => None
      case Some((v, t)) =>
        if v > max then None
        else
          match DecodeUints(t, n - 1, max)
          case None => None
          case Some((tail, u)) => Some(([v] + tail, u))
  }

  lemma {:induction false} UintsRoundTrip(l: seq<nat>, max: nat, rest: seq<byte>)
    requires AllBelow(l, U64)
    requires forall i :: 0 <= i < |l| ==> l[i] <= max
    ensures DecodeUints(EncodeUints(l) + rest, |l|, max) == Some((l, rest))
    decreases |l|
  {
    if l != [] {
      var tail := EncodeUints(l[1..]) + rest;
      assert EncodeUints(l) + rest == EncodeVarUint(l[0]) + tail;
      VarUintRoundTrip(l[0], tail);
      UintsRoundTrip(l[1..], max, rest);
      assert [l[0]] + l[1..] == l;
    } else {
      assert EncodeUints(l) + rest == rest;
    }
  }

  /** A list is refused as soon as one entry exceeds `max`. */
  lemma {:induction false} UintsRejectAbove(l: seq<nat>, max: nat, j: nat, rest: seq<byte>)
    requires AllBelow(l, U64)
    requires j < |l| && l[j] > max
    ensures DecodeUints(EncodeUints(l) + rest, |l|, max) == None
    decreases |l|
  {
    var tail := EncodeUints(l[1..]) + rest;
    assert EncodeUints(l) + rest == EncodeVarUint(l[0]) + tail;
    VarUintRoundTrip(l[0], tail);
    if j > 0 {
      UintsRejectAbove(l[1..], max, j - 1, rest);
    }
  }

  // ------------------------------------------------ RegisterCandidateParam

  datatype RegisterCandidateParam = RegisterCandidateParam(
    peerPubkey: Str, address: Address, initPos: nat, caller: seq<byte>, keyNo: nat)

  predicate RegisterCandidateParamOk(p: RegisterCandidateParam)
  {
    StrOk(p.peerPubkey) && StrOk(p.caller) && IsU64(p.initPos) && IsU32(p.keyNo)
  }

  function EncodeRegisterCandidate(p: RegisterCandidateParam): (r: seq<byte>)
    requires RegisterCandidateParamOk(p)
  {
    EncodeVarBytes(p.peerPubkey) + (EncodeAddress(p.address) + (EncodeVarUint(p.initPos)
      + (EncodeVarBytes(p.caller) + EncodeVarUint(p.keyNo))))
  }

  function DecodeRegisterCandidate(s: seq<byte>): (r: Option<(RegisterCandidateParam, seq<byte>)>)
    ensures r.Some? ==> r.value.0.initPos <= MaxInt64 && IsU32(r.value.0.keyNo)
  {
    match DecodeVarBytes(s)
    case None => None
    case Some((peer, s1)) =>
      match DecodeAddress(s1)
      case None => None
      case Some((addr, s2)) =>
        match DecodeVarUint(s2)
        case None => None
        case Some((initPos, s3)) =>
          if initPos > MaxInt64 then None
          else
            match DecodeVarBytes(s3)
            case None => None
            case Some((caller, s4)) =>
              match DecodeVarUint(s4)
              case None => None
              case Some((keyNo, s5)) =>
                if keyNo > MaxUint32 then None
                else Some((RegisterCandidateParam(peer, addr, initPos, caller, keyNo), s5))
  }

  /** Round trip; it needs InitPos within int64, which Serialize does not check. */
  lemma RegisterCandidateRoundTrip(p: RegisterCandidateParam, rest: seq<byte>)
    requires RegisterCandidateParamOk(p) && p.initPos <= MaxInt64
    ensures DecodeRegisterCandidate(EncodeRegisterCandidate(p) + rest) == Some((p, rest))
  {
    var t4 := EncodeVarUint(p.keyNo) + rest;
    var t3 := EncodeVarBytes(p.caller) + t4;
    var t2 := EncodeVarUint(p.initPos) + t3;
    var t1 := EncodeAddress(p.address) + t2;
    assert EncodeRegisterCandidate(p) + rest == EncodeVarBytes(p.peerPubkey) + t1;
    VarBytesRoundTrip(p.peerPubkey, t1);
    AddressRoundTrip(p.address, t2);
    VarUintRoundTrip(p.initPos, t3);
    VarBytesRoundTrip(p.caller, t4);
    VarUintRoundTrip(p.keyNo, rest);
  }

  /** An InitPos above int64 is written but refused on the way back. */
  lemma RegisterCandidateRejectsLargeInitPos(p: RegisterCandidateParam, rest: seq<byte>)
    requires RegisterCandidateParamOk(p) && p.initPos > MaxInt64
    ensures DecodeRegisterCandidate(EncodeRegisterCandidate(p) + rest) == None
  {
    var t3 := EncodeVarBytes(p.caller) + (EncodeVarUint(p.keyNo) + rest);
    var t2 := EncodeVarUint(p.initPos) + t3;
    var t1 := EncodeAddress(p.address) + t2;
    assert EncodeRegisterCandidate(p) + rest == EncodeVarBytes(p.peerPubkey) + t1;
    VarBytesRoundTrip(p.peerPubkey, t1);
    AddressRoundTrip(p.address, t2);
    VarUintRoundTrip(p.initPos, t3);
  }

  // ------------------------------------------ peer-and-address parameters

  /** UnRegisterCandidate, GetVoteInfo, QuitNode and TransferPenalty all
      carry a public key followed by an address. */
  datatype PeerAddressParam = PeerAddressParam(peerPubkey: Str, address: Address)

  function EncodePeerAddress(p: PeerAddressParam): (r: seq<byte>)
    requires StrOk(p.peerPubkey)
  {
    EncodeVarBytes(p.peerPubkey) + EncodeAddress(p.address)
  }

  function DecodePeerAddress(s: seq<byte>): (r: Option<(PeerAddressParam, seq<byte>)>)
    ensures r.Some? ==> StrOk(r.value.0.peerPubkey) && |r.value.0.peerPubkey| + |r.value.1| + 22 <= |s|
  {
    match DecodeVarBytes(s)
    case None => None
    case Some((peer, s1)) =>
      match DecodeAddress(s1)
      case None => None
      case Some((addr, s2)) => Some((PeerAddressParam(peer, addr), s2))
  }

  lemma PeerAddressRoundTrip(p: PeerAddressParam, rest: seq<byte>)
    requires StrOk(p.peerPubkey)
    ensures DecodePeerAddress(EncodePeerAddress(p) + rest) == Some((p, rest))
  {
    var t1 := EncodeAddress(p.address) + rest;
    assert EncodePeerAddress(p) + rest == EncodeVarBytes(p.peerPubkey) + t1;
    VarBytesRoundTrip(p.peerPubkey, t1);
    AddressRoundTrip(p.address, rest);
  }

  /** ApproveCandidate, RejectCandidate, CheckVoteInfo and WhiteNode carry a
      public key alone; WithdrawGala an address alone. Their coders are
      EncodeVarBytes/DecodeVarBytes and EncodeAddress/DecodeAddress. */

  // --------------------------------------------------------- BlackNodeParam

  /** A count followed by that many public keys; unlike the vote lists there
      is no cap on the count. */
  function EncodeBlackNode(peers: seq<Str>): (r: seq<byte>)
    requires AllStrOk(peers) && |peers| < U64
  {
    EncodeVarUint(|peers|) + EncodeStrings(peers)
  }

  function DecodeBlackNode(s: seq<byte>): (r: Option<(seq<Str>, seq<byte>)>)
    ensures r.Some? ==> |r.value.0| < U64 && AllStrOk(r.value.0) && |r.value.1| < |s|
  {
    match DecodeVarUint(s)
    case None => None
    case Some((n, t)) => DecodeStrings(t, n)
  }

  lemma BlackNodeRoundTrip(peers: seq<Str>, rest: seq<byte>)
    requires AllStrOk(peers) && |peers| < U64
    ensures DecodeBlackNode(EncodeBlackNode(peers) + rest) == Some((peers, rest))
  {
    var t := EncodeStrings(peers) + rest;
    assert EncodeBlackNode(peers) + rest == EncodeVarUint(|peers|) + t;
    VarUintRoundTrip(|peers|, t);
    StringsRoundTrip(peers, rest);
  }

  // ------------------------------------- VoteForPeerParam and WithdrawParam

  /** VoteForPeer and Withdraw carry an address, a list of public keys and a
      list of amounts, with identical encodings and identical rules. */
  datatype PosListParam = PosListParam(address: Address, peers: seq<Str>, amounts: seq<nat>)

  const MaxListLength: nat := 1024

  function EncodePosList(p: PosListParam): (r: Option<seq<byte>>)
    requires AllStrOk(p.peers) && AllBelow(p.amounts, U64)
    ensures r.None? <==> |p.peers| > MaxListLength || |p.peers| != |p.amounts|
  {
    if |p.peers| > MaxListLength then None
    else if |p.peers| != |p.amounts| then None
    else Some(EncodeAddress(p.address) + (EncodeVarUint(|p.peers|) + (EncodeStrings(p.peers)
                + (EncodeVarUint(|p.amounts|) + EncodeUints(p.amounts)))))
  }

  function DecodePosList(s: seq<byte>): (r: Option<(PosListParam, seq<byte>)>)
    ensures r.Some? ==> |r.value.0.peers| <= MaxListLength
    ensures r.Some? ==> |r.value.0.peers| == |r.value.0.amounts|
    ensures r.Some? ==> forall i :: 0 <= i < |r.value.0.amounts| ==> r.value.0.amounts[i] <= MaxInt64
  {
    match DecodeAddress(s)
    case None => None
    case Some((addr, s1)) =>
      match DecodeVarUint(s1)
      case None => None
      case Some((n, s2)) =>
        if n > MaxListLength then None
        else
          match DecodeStrings(s2, n)
          case None => None
          case Some((peers, s3)) =>
            match DecodeVarUint(s3)
            case None => None
            case Some((m, s4)) =>
              match DecodeUints(s4, m, MaxInt64)
              case None => None
              case Some((amounts, s5)) =>
                if m != n then None
                else Some((PosListParam(addr, peers, amounts), s5))
  }

  /** Round trip for in-bounds lists whose amounts fit in int64. */
  lemma PosListRoundTrip(p: PosListParam, rest: seq<byte>)
    requires AllStrOk(p.peers) && AllBelow(p.amounts, U64)
    requires |p.peers| <= MaxListLength && |p.peers| == |p.amounts|
    requires forall i :: 0 <= i < |p.amounts| ==> p.amounts[i] <= MaxInt64
    ensures EncodePosList(p).Some?
    ensures DecodePosList(EncodePosList(p).value + rest) == Some((p, rest))
  {
    var t4 := EncodeUints(p.amounts) + rest;
    var t3 := EncodeVarUint(|p.amounts|) + t4;
    var t2 := EncodeStrings(p.peers) + t3;
    var t1 := EncodeVarUint(|p.peers|) + t2;
    assert EncodePosList(p).value + rest == EncodeAddress(p.address) + t1;
    AddressRoundTrip(p.address, t1);
    VarUintRoundTrip(|p.peers|, t2);
    StringsRoundTrip(p.peers, t3);
    VarUintRoundTrip(|p.amounts|, t4);
    UintsRoundTrip(p.amounts, MaxInt64, rest);
  }

  /** Serialize writes an amount above int64 that Deserialize then refuses. */
  lemma PosListRejectsLargeAmount(p: PosListParam, j: nat, rest: seq<byte>)
    requires AllStrOk(p.peers) && AllBelow(p.amounts, U64)
    requires |p.peers| <= MaxListLength && |p.peers| == |p.amounts|
    requires j < |p.amounts| && p.amounts[j] > MaxInt64
    ensures EncodePosList(p).Some?
    ensures DecodePosList(EncodePosList(p).value + rest) == None
  {
    var t4 := EncodeUints(p.amounts) + rest;
    var t3 := EncodeVarUint(|p.amounts|) + t4;
    var t2 := EncodeStrings(p.peers) + t3;
    var t1 := EncodeVarUint(|p.peers|) + t2;
    assert EncodePosList(p).value + rest == EncodeAddress(p.address) + t1;
    AddressRoundTrip(p.address, t1);
    VarUintRoundTrip(|p.peers|, t2);
    StringsRoundTrip(p.peers, t3);
    VarUintRoundTrip(|p.amounts|, t4);
    UintsRejectAbove(p.amounts, MaxInt64, j, rest);
  }

  /** Lists of unequal length or over 1024 entries never decode, whatever
      bytes follow. */
  lemma PosListRejectsBadShape(addr: Address, peers: seq<Str>, amounts: seq<nat>, rest: seq<byte>)
    requires AllStrOk(peers) && AllBelow(amounts, U64) && |peers| < U64 && |amounts| < U64
    requires |peers| > MaxListLength || |peers| != |amounts|
    ensures DecodePosList(EncodeAddress(addr) + (EncodeVarUint(|peers|) + (EncodeStrings(peers)
              + (EncodeVarUint(|amounts|) + (EncodeUints(amounts) + rest))))) == None
  {
    var t4 := EncodeUints(amounts) + rest;
    var t3 := EncodeVarUint(|amounts|) + t4;
    var t2 := EncodeStrings(peers) + t3;
    var t1 := EncodeVarUint(|peers|) + t2;
    AddressRoundTrip(addr, t1);
    VarUintRoundTrip(|peers|, t2);
    if |peers| <= MaxListLength {
      StringsRoundTrip(peers, t3);
      VarUintRoundTrip(|amounts|, t4);
      if forall i :: 0 <= i < |amounts| ==> amounts[i] <= MaxInt64 {
        UintsRoundTrip(amounts, MaxInt64, rest);
      } else {
        var j :| 0 <= j < |amounts| && amounts[j] > MaxInt64;
        UintsRejectAbove(amounts, MaxInt64, j, rest);
      }
    }
  }

  // ---------------------------------------------------------- Configuration

  datatype Configuration = Configuration(
    n: nat, c: nat, k: nat, l: nat, blockMsgDelay: nat, hashMsgDelay: nat,
    peerHandshakeTimeout: nat, maxBlockChangeView: nat)

  /** The eight fields in wire order. */
  function ConfigurationFields(c: Configuration): (r: seq<nat>)
    ensures |r| == 8
  {
    [c.n, c.c, c.k, c.l, c.blockMsgDelay, c.hashMsgDelay, c.peerHandshakeTimeout, c.maxBlockChangeView]
  }

  predicate ConfigurationOk(c: Configuration)
  {
    AllBelow(ConfigurationFields(c), U32)
  }

  function EncodeConfiguration(c: Configuration): (r: seq<byte>)
    requires ConfigurationOk(c)
    ensures 8 <= |r| <= 72
  {
    EncodeUints(ConfigurationFields(c))
  }

  /** All eight varuints are read first; the uint32 checks come after. */
  function DecodeConfiguration(s: seq<byte>): (r: Option<(Configuration, seq<byte>)>)
    ensures r.Some? ==> ConfigurationOk(r.value.0)
  {
    match DecodeUints(s, 8, MaxUint64)
    case None => None
    case Some((f, t)) =>
      if exists i :: 0 <= i < 8 && f[i] > MaxUint32 then None
      else
        var c := Configuration(f[0], f[1], f[2], f[3], f[4], f[5], f[6], f[7]);
        assert ConfigurationFields(c) == f;
        Some((c, t))
  }

  lemma ConfigurationRoundTrip(c: Configuration, rest: seq<byte>)
    requires ConfigurationOk(c)
    ensures DecodeConfiguration(EncodeConfiguration(c) + rest) == Some((c, rest))
  {
    UintsRoundTrip(ConfigurationFields(c), MaxUint64, rest);
  }

  /** A field above uint32 is refused even though it was read. */
  lemma ConfigurationRejectsWide(c: Configuration, j: nat, rest: seq<byte>)
    requires AllBelow(ConfigurationFields(c), U64)
    requires j < 8 && ConfigurationFields(c)[j] > MaxUint32
    ensures DecodeConfiguration(EncodeUints(ConfigurationFields(c)) + rest) == None
  {
    UintsRoundTrip(ConfigurationFields(c), MaxUint64, rest);
  }

  // ------------------------------------------------------------ GlobalParam

  datatype GlobalParam = GlobalParam(
    candidateFee: nat, minInitStake: nat, candidateNum: nat, posLimit: nat,
    a: nat, b: nat, yita: nat, penalty: nat)

  function GlobalParamFields(g: GlobalParam): (r: seq<nat>)
    ensures |r| == 8
  {
    [g.candidateFee, g.minInitStake, g.candidateNum, g.posLimit, g.a, g.b, g.yita, g.penalty]
  }

  /** CandidateFee and MinInitStake are uint64, the other six uint32. */
  predicate GlobalParamOk(g: GlobalParam)
  {
    IsU64(g.candidateFee) && IsU64(g.minInitStake)
    && forall i :: 2 <= i < 8 ==> IsU32(GlobalParamFields(g)[i])
  }

  function EncodeGlobalParam(g: GlobalParam): (r: seq<byte>)
    requires GlobalParamOk(g)
    ensures 8 <= |r| <= 72
  {
    EncodeUints(GlobalParamFields(g))
  }

  /** The MinInitStake check against MaxUint64 can never fire, since a varuint
      is below 2^64; only the six uint32 fields are really checked. */
  function DecodeGlobalParam(s: seq<byte>): (r: Option<(GlobalParam, seq<byte>)>)
    ensures r.Some? ==> GlobalParamOk(r.value.0)
  {
    match DecodeUints(s, 8, MaxUint64)
    case None => None
    case Some((f, t)) =>
      if f[1] > MaxUint64 then None
      else if exists i :: 2 <= i < 8 && f[i] > MaxUint32 then None
      else
        var g := GlobalParam(f[0], f[1], f[2], f[3], f[4], f[5], f[6], f[7]);
        assert GlobalParamFields(g) == f;
        Some((g, t))
  }

  lemma GlobalParamRoundTrip(g: GlobalParam, rest: seq<byte>)
    requires GlobalParamOk(g)
    ensures DecodeGlobalParam(EncodeGlobalParam(g) + rest) == Some((g, rest))
  {
    UintsRoundTrip(GlobalParamFields(g), MaxUint64, rest);
  }

  // ------------------------------------------------------------- SplitCurve

  const SplitCurveLength: nat := 101

  function EncodeSplitCurve(yi: seq<nat>): (r: Option<seq<byte>>)
    requires AllBelow(yi, U32)
    ensures r.Some? <==> |yi| == SplitCurveLength
  {
    if |yi| != SplitCurveLength then None
    else
      assert AllBelow(yi, U64);
      Some(EncodeVarUint(|yi|) + EncodeUints(yi))
  }

  /** Any length is accepted on the way in; only entries above uint32 are refused. */
  function DecodeSplitCurve(s: seq<byte>): (r: Option<(seq<nat>, seq<byte>)>)
    ensures r.Some? ==> AllBelow(r.value.0, U32)
  {
    match DecodeVarUint(s)
    case None => None
    case Some((n, t)) => DecodeUints(t, n, MaxUint32)
  }

  lemma SplitCurveRoundTrip(yi: seq<nat>, rest: seq<byte>)
    requires AllBelow(yi, U32) && |yi| == SplitCurveLength
    ensures DecodeSplitCurve(EncodeSplitCurve(yi).value + rest) == Some((yi, rest))
  {
    var t := EncodeUints(yi) + rest;
    assert EncodeSplitCurve(yi).value + rest == EncodeVarUint(|yi|) + t;
    VarUintRoundTrip(|yi|, t);
    UintsRoundTrip(yi, MaxUint32, rest);
  }

  /** A curve of another length decodes although it could not be written. */
  lemma SplitCurveAcceptsAnyLength(yi: seq<nat>, rest: seq<byte>)
    requires AllBelow(yi, U32) && |yi| < U64
    ensures DecodeSplitCurve(EncodeVarUint(|yi|) + (EncodeUints(yi) + rest)) == Some((yi, rest))
  {
    VarUintRoundTrip(|yi|, EncodeUints(yi) + rest);
    UintsRoundTrip(yi, MaxUint32, rest);
  }
}
