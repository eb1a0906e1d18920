/** gp/proto/DatacenterAuthMessageService.cpp: the key exchange as a state machine. Hashes, AES, RSA and modular
    exponentiation are arbitrary functions; random draws and the factor found for pq are inputs of the step. */
module DatacenterAuths {
  import opened Bytes
  import opened Options
  import opened Tl
  import opened InternalParser
  import NumberTheory
  import Crypto
  import Common
  import InternalParserMethods

  datatype Stage = Pq | ReqDh | KeyVerification | Done

  /** None is the null result of a foreign call. */
  datatype Primitives = Primitives(
    sha1: seq<byte> -> seq<byte>,
    sha256: seq<byte> -> seq<byte>,
    aesEncrypt: (seq<byte>, seq<byte>, seq<byte>) -> seq<byte>,
    aesDecrypt: (seq<byte>, seq<byte>, seq<byte>) -> Option<seq<byte>>,
    rsaEncrypt: (u64, seq<byte>) -> Option<seq<byte>>,
    modExp: (seq<byte>, seq<byte>, seq<byte>) -> seq<byte>)
  {
    ghost predicate Valid() {
      (forall d :: |sha1(d)| == 20) && (forall d :: |sha256(d)| == 32)
    }
  }

  datatype AuthKey = AuthKey(key: seq<byte>, id: i64, serverSalt: i64)

  /** A reply the exchange moved forward on, with what was read from it. */
  datatype Accepted =
    | PqReply(message: Message, factor: u64)
    | DhReply(message: Message, inner: Message, randoms: Randoms)
    | OkReply(message: Message)

  /** accepted is specification only: the replies accepted since the last reset. */
  datatype State = State(
    stage: Stage,
    nonce: Option<seq<byte>>,
    serverNonce: Option<seq<byte>>,
    newNonce: Option<seq<byte>>,
    dhP: Option<seq<byte>>,
    dhQ: Option<seq<byte>>,
    publicKeyFingerprint: u64,
    dhEncryptedData: Option<seq<byte>>,
    authKey: Option<AuthKey>,
    encryptedClientData: Option<seq<byte>>,
    publicKeys: set<u64>,
    currentTransactionId: int,
    currentMessageId: int,
    currentMessageSeqNo: int,
    accepted: seq<Accepted>)

  /** What a received message led to. Told carries the key handed to the delegate; Raised is an exception of the parser
      that nothing catches. */
  datatype Outcome = Ignored | Restarted | Advanced | Told(authKey: AuthKey) | Raised

  /** padding gives the random bytes that fill the last block, one draw each. */
  datatype Randoms = Randoms(newNonce: seq<byte>, b: seq<byte>, padding: nat -> byte, factor: u64)

  const DEFAULT_KEYS: set<u64> := {0x3996e1558cf963eb, 0xbf47247de570f86f, 0xc7ef29b0ddd8ca23, 0xea182ae529ffce57}

  const INITIAL := State(Pq, None, None, None, None, None, 0, None, None, None, {}, 0, 0, 0, [])

  /** reset() leaves the encrypted pq data of the previous attempt in place. */
  function Reset(s: State): State {
    State(Pq, None, None, None, None, None, 0, s.dhEncryptedData, None, None, DEFAULT_KEYS, 0, 0, 0, [])
  }

  function Advance(s: State, stage: Stage, a: Accepted): State {
    s.(stage := stage, currentTransactionId := 0, currentMessageId := 0, currentMessageSeqNo := 0,
       accepted := s.accepted + [a])
  }

  // ---------- outgoing messages ----------

  function Unwrapped(x: Option<seq<byte>>): seq<byte> {
    if x.Some? then x.value else []
  }

  /** The fields the current stage's message dereferences are set. */
  predicate CanSend(s: State) {
    match s.stage
    case Pq => true
    case ReqDh => s.nonce.Some? && s.serverNonce.Some? && s.dhP.Some? && s.dhQ.Some? && s.dhEncryptedData.Some?
    case KeyVerification => s.nonce.Some? && s.serverNonce.Some? && s.encryptedClientData.Some?
    case Done => true
  }

  function ReqPqBytes(nonce: seq<byte>): seq<byte> {
    U32Bytes(0xfbf22646) + nonce
  }

  function ReqDhBytes(s: State): seq<byte> {
    U32Bytes(0x92471d27) + Unwrapped(s.nonce) + Unwrapped(s.serverNonce)
    + TlBytes(Unwrapped(s.dhP)) + TlBytes(Unwrapped(s.dhQ))
    + U64Bytes(s.publicKeyFingerprint) + TlBytes(Unwrapped(s.dhEncryptedData))
  }

  function SetDhBytes(s: State): seq<byte> {
    U32Bytes(0xead9f280) + Unwrapped(s.nonce) + Unwrapped(s.serverNonce) + TlBytes(Unwrapped(s.encryptedClientData))
  }

  /** protoMessageTransaction: the state after it and the message it sends, if any. */
  function Send(s: State, freshNonce: seq<byte>): (State, Option<seq<byte>>)
    requires CanSend(s)
  {
    if s.currentTransactionId != 0 then (s, None) else
      match s.stage
      case Pq =>
        var t := s.(nonce := if s.nonce == None then Some(freshNonce) else s.nonce, publicKeys := DEFAULT_KEYS);
        (t, Some(ReqPqBytes(Unwrapped(t.nonce))))
      case ReqDh => (s, Some(ReqDhBytes(s)))
      case KeyVerification => (s, Some(SetDhBytes(s)))
      case Done => (s, None)
  }

  function Register(s: State, messageId: int, seqNo: int): State {
    s.(currentMessageId := messageId, currentMessageSeqNo := seqNo, currentTransactionId := 1)
  }

  /** The prepared callback of the first stage. */
  function OnPrepared(s: State, messageId: int, seqNo: int): State {
    if s.stage == Pq then Register(s, messageId, seqNo) else s
  }

  /** The completed callbacks of the other two stages; both test for stage reqDh. */
  function OnCompleted(s: State, messageId: int, seqNo: int): State {
    if s.stage == ReqDh then Register(s, messageId, seqNo) else s
  }

  /** The request of the second stage goes out once; that of the third is sent again by every pass, because its
      completion callback never registers it. */
  lemma SentAgainAfterCompletion(s: State, messageId: int, seqNo: int, freshNonce: seq<byte>)
    requires CanSend(s) && s.currentTransactionId == 0 && s.stage in {ReqDh, KeyVerification}
    ensures Send(OnCompleted(s, messageId, seqNo), freshNonce).1.Some? <==> s.stage == KeyVerification
  {
  }

  // ---------- first reply ----------

  /** The big-endian number of pq, in 64 bits. */
  function PqValue(pq: seq<byte>): u64 {
    FromBigEndian(pq) % 0x1_0000_0000_0000_0000
  }

  /** Eight big-endian bytes. */
  function FactorBytes(n: u64): seq<byte> {
    Reverse(U64Bytes(n))
  }

  function PqInnerData(s: State, pq: seq<byte>): seq<byte> {
    U32Bytes(0xeb59a005) + TlBytes(pq) + TlBytes(Unwrapped(s.dhP)) + TlBytes(Unwrapped(s.dhQ))
    + Unwrapped(s.nonce) + Unwrapped(s.serverNonce) + Unwrapped(s.newNonce)
  }

  function ReceivePq(p: Primitives, s: State, m: Message, r: Randoms): (State, Outcome)
    requires s.stage == Pq
  {
    if !m.ResPq? || s.nonce == None || s.nonce.value != m.nonce then (s, Ignored)
    else if m.fingerprint !in s.publicKeys || r.factor == 0 then (Reset(s), Restarted)
    else
      var t := s.(publicKeyFingerprint := m.fingerprint,
                  dhP := Some(FactorBytes(r.factor)), dhQ := Some(FactorBytes(Quotient(PqValue(m.pq), r.factor))),
                  serverNonce := Some(m.serverNonce), newNonce := Some(r.newNonce));
      var inner := PqInnerData(t, m.pq);
      match p.rsaEncrypt(m.fingerprint, p.sha1(inner) + inner)
      case None => (t, Ignored)
      case Some(encrypted) => (Advance(t.(dhEncryptedData := Some(encrypted)), ReqDh, PqReply(m, r.factor)), Advanced)
  }

  function Quotient(n: u64, d: u64): (q: u64)
    requires d > 0
  {
    Crypto.DivisionShrinks(n, d);
    n / d
  }

  // ---------- second reply ----------

  function TempKey(p: Primitives, newNonce: seq<byte>, serverNonce: seq<byte>): (k: seq<byte>)
    requires p.Valid()
    ensures |k| == 32 && k[..20] == p.sha1(newNonce + serverNonce)
    ensures k[20..] + TempIv(p, newNonce, serverNonce)[..8] == p.sha1(serverNonce + newNonce)
  {
    p.sha1(newNonce + serverNonce) + p.sha1(serverNonce + newNonce)[0..12]
  }

  function TempIv(p: Primitives, newNonce: seq<byte>, serverNonce: seq<byte>): (iv: seq<byte>)
    requires p.Valid()
    ensures |iv| == 16 && iv[8..] == p.sha1(newNonce + newNonce)[12..]
  {
    p.sha1(serverNonce + newNonce)[12..20] + p.sha1(newNonce + newNonce)[12..20]
  }

  /** The hash is tried on the data and on up to fifteen shorter prefixes of it. */
  function VerifiedAnswer(p: Primitives, hash: seq<byte>, data: seq<byte>, tries: nat): Option<seq<byte>>
    decreases tries
  {
    if tries == 0 then None
    else if p.sha1(data) == hash then Some(data)
    else VerifiedAnswer(p, hash, if |data| > 0 then data[..|data| - 1] else data, tries - 1)
  }

  predicate IsSafeG(g: i32) {
    2 <= g <= 7
  }

  /** The four bytes of g, byte-swapped. */
  function GBytes(g: i32): seq<byte> {
    Reverse(I32Bytes(g))
  }

  function XorByte(a: byte, b: byte): byte {
    ((a as bv8) ^ (b as bv8)) as int as byte
  }

  function XorBytes(a: seq<byte>, b: seq<byte>, n: nat): (x: seq<byte>)
    requires |a| >= n && |b| >= n
    ensures |x| == n
  {
    seq(n, i requires 0 <= i < n => XorByte(a[i], b[i]))
  }

  /** The number whose little-endian bytes these are. */
  function NumberOf(s: seq<byte>): (x: i64)
    requires |s| == 8
    ensures I64Bytes(x) == s
  {
    Widths();
    EncodeFromLittleEndian(s);
    Signed64(FromLittleEndian(s))
  }

  function XorSalt(a: seq<byte>, b: seq<byte>): i64
    requires |a| >= 8 && |b| >= 8
  {
    NumberOf(XorBytes(a, b, 8))
  }

  function NewAuthKey(p: Primitives, newNonce: seq<byte>, serverNonce: seq<byte>, inner: Message, b: seq<byte>): AuthKey
    requires p.Valid() && inner.ServerDhInnerData? && |newNonce| >= 8 && |serverNonce| >= 8
  {
    var key := p.modExp(inner.ga, b, inner.dhPrime);
    AuthKey(key, NumberOf(p.sha256(key)[24..32]), XorSalt(newNonce, serverNonce))
  }

  /** The client's half of the exchange, hashed, padded to whole blocks and encrypted under the temporary key. */
  function ClientData(p: Primitives, nonce: seq<byte>, serverNonce: seq<byte>, newNonce: seq<byte>, inner: Message,
                      r: Randoms): seq<byte>
    requires p.Valid() && inner.ServerDhInnerData?
  {
    var gb := p.modExp(GBytes(inner.g), r.b, inner.dhPrime);
    var data := U32Bytes(0x706fb308) + nonce + serverNonce + I64Bytes(0) + TlBytes(gb);
    var hashed := p.sha1(data) + data;
    var n := (16 - |hashed| % 16) % 16;
    var filled := hashed + seq<byte>(n, i requires 0 <= i < n => r.padding(i));
    p.aesEncrypt(TempKey(p, newNonce, serverNonce), TempIv(p, newNonce, serverNonce), filled)
  }

  /** What the inner data must satisfy for the exchange to go on. */
  predicate InnerAccepted(nonce: seq<byte>, serverNonce: seq<byte>, newNonce: seq<byte>, inner: Message) {
    && inner.ServerDhInnerData?
    && inner.nonce == nonce && inner.serverNonce == serverNonce
    && IsSafeG(inner.g)
    && |newNonce| >= 8 && |serverNonce| >= 8
  }

  function ReceiveInner(p: Primitives, s: State, m: Message, answer: seq<byte>, r: Randoms): (State, Outcome)
    requires p.Valid()
  {
    match ParseMessage(answer)
    case Thrown(_) => (s, Raised)
    case Got(inner, _) =>
      if inner == None || !InnerAccepted(Unwrapped(s.nonce), Unwrapped(s.serverNonce), Unwrapped(s.newNonce), inner.value)
      then (Reset(s), Restarted)
      else
        var t := s.(authKey := Some(NewAuthKey(p, Unwrapped(s.newNonce), Unwrapped(s.serverNonce), inner.value, r.b)),
                    encryptedClientData := Some(ClientData(p, Unwrapped(s.nonce), Unwrapped(s.serverNonce),
                                                           Unwrapped(s.newNonce), inner.value, r)));
        (Advance(t, KeyVerification, DhReply(m, inner.value, r)), Advanced)
  }

  function ReceiveDh(p: Primitives, s: State, m: Message, r: Randoms): (State, Outcome)
    requires p.Valid() && s.stage == ReqDh
  {
    if !m.ServerDhParamsFail? && !m.ServerDhParamsOk? then (s, Ignored)
    else if Unwrapped(s.nonce) != m.nonce || Unwrapped(s.serverNonce) != m.serverNonce then (s, Ignored)
    else if m.ServerDhParamsFail? then (Reset(s), Restarted)
    else
      var decrypted := p.aesDecrypt(TempKey(p, Unwrapped(s.newNonce), Unwrapped(s.serverNonce)),
                                    TempIv(p, Unwrapped(s.newNonce), Unwrapped(s.serverNonce)), m.encryptedResponse);
      if decrypted == None || |decrypted.value| < 20 + 16 then (s, Ignored)
      else
        match VerifiedAnswer(p, decrypted.value[..20], decrypted.value[20..], 16)
        case None => (Reset(s), Restarted)
        case Some(answer) => ReceiveInner(p, s, m, answer, r)
  }

  // ---------- third reply ----------

  /** Suffix 16 of the hash of the new nonce, a marker byte and the short hash of the key. */
  function NewNonceHash(p: Primitives, newNonce: seq<byte>, marker: byte, key: seq<byte>): seq<byte>
    requires p.Valid()
  {
    p.sha1(newNonce + [marker] + p.sha1(key)[0..8])[4..20]
  }

  function ReceiveVerification(p: Primitives, s: State, m: Message): (State, Outcome)
    requires p.Valid() && s.stage == KeyVerification && s.authKey.Some?
  {
    if !m.DhGenOk? && !m.DhGenRetry? && !m.DhGenFail? then (s, Ignored)
    else if Unwrapped(s.nonce) != m.nonce || Unwrapped(s.serverNonce) != m.serverNonce then (s, Ignored)
    else if m.DhGenOk? && m.nextNonceHash == NewNonceHash(p, Unwrapped(s.newNonce), 1, s.authKey.value.key) then
      (Advance(s, Done, OkReply(m)), Told(s.authKey.value))
    else (Reset(s), Restarted)
  }

  function Receive(p: Primitives, s: State, m: Message, r: Randoms): (State, Outcome)
    requires p.Valid() && (s.stage == KeyVerification ==> s.authKey.Some?)
  {
    match s.stage
    case Pq => ReceivePq(p, s, m, r)
    case ReqDh => ReceiveDh(p, s, m, r)
    case KeyVerification => ReceiveVerification(p, s, m)
    case Done => (s, Ignored)
  }

  // ---------- the invariant ----------

  ghost predicate PqAccepted(p: Primitives, s: State, a: Accepted) {
    a.PqReply? && a.message.ResPq? && s.nonce == Some(a.message.nonce) && s.serverNonce == Some(a.message.serverNonce)
    && a.message.fingerprint in DEFAULT_KEYS && s.publicKeyFingerprint == a.message.fingerprint
    && a.factor >= 1 && s.dhP == Some(FactorBytes(a.factor))
    && s.dhQ == Some(FactorBytes(Quotient(PqValue(a.message.pq), a.factor)))
    && var inner := PqInnerData(s, a.message.pq);
       s.dhEncryptedData == p.rsaEncrypt(s.publicKeyFingerprint, p.sha1(inner) + inner)
  }

  ghost predicate DhAccepted(p: Primitives, s: State, a: Accepted)
    requires p.Valid()
  {
    && a.DhReply? && a.message.ServerDhParamsOk?
    && s.nonce == Some(a.message.nonce) && s.serverNonce == Some(a.message.serverNonce)
    && InnerAccepted(Unwrapped(s.nonce), Unwrapped(s.serverNonce), Unwrapped(s.newNonce), a.inner)
    && s.authKey == Some(NewAuthKey(p, Unwrapped(s.newNonce), Unwrapped(s.serverNonce), a.inner, a.randoms.b))
    && s.encryptedClientData == Some(ClientData(p, Unwrapped(s.nonce), Unwrapped(s.serverNonce), Unwrapped(s.newNonce),
                                                a.inner, a.randoms))
  }

  ghost predicate OkAccepted(p: Primitives, s: State, a: Accepted)
    requires p.Valid() && s.authKey.Some?
  {
    && a.OkReply? && a.message.DhGenOk?
    && s.nonce == Some(a.message.nonce) && s.serverNonce == Some(a.message.serverNonce)
    && s.newNonce.Some? && a.message.nextNonceHash == NewNonceHash(p, s.newNonce.value, 1, s.authKey.value.key)
  }

  /** What each stage can rely on: the fields its message needs, and the replies that led to it. */
  ghost predicate Inv(p: Primitives, s: State)
    requires p.Valid()
  {
    && s.publicKeys <= DEFAULT_KEYS
    && CanSend(s)
    && match s.stage
       case Pq => s.accepted == []
       case ReqDh => s.newNonce.Some? && |s.accepted| == 1 && PqAccepted(p, s, s.accepted[0])
       case KeyVerification =>
         s.newNonce.Some? && |s.accepted| == 2 && PqAccepted(p, s, s.accepted[0]) && DhAccepted(p, s, s.accepted[1])
       case Done =>
         |s.accepted| == 3 && PqAccepted(p, s, s.accepted[0]) && DhAccepted(p, s, s.accepted[1])
         && OkAccepted(p, s, s.accepted[2])
  }

  datatype Action =
    | Transaction(freshNonce: seq<byte>)
    | Prepared(messageId: int, seqNo: int)
    | Completed(messageId: int, seqNo: int)
    | Incoming(message: Message, randoms: Randoms)
    | ChangeSession

  ghost predicate Enabled(p: Primitives, s: State, a: Action) {
    match a
    case Transaction(_) => CanSend(s)
    case Incoming(_, _) => s.stage == KeyVerification ==> s.authKey.Some?
    case _ => true
  }

  ghost function Apply(p: Primitives, s: State, a: Action): (State, Outcome)
    requires p.Valid() && Enabled(p, s, a)
  {
    match a
    case Transaction(freshNonce) => (Send(s, freshNonce).0, Ignored)
    case Prepared(messageId, seqNo) => (OnPrepared(s, messageId, seqNo), Ignored)
    case Completed(messageId, seqNo) => (OnCompleted(s, messageId, seqNo), Ignored)
    case Incoming(message, randoms) => Receive(p, s, message, randoms)
    case ChangeSession => (Reset(s), Restarted)
  }

  lemma ReceivePqKeeps(p: Primitives, s: State, m: Message, r: Randoms)
    requires p.Valid() && Inv(p, s) && s.stage == Pq
    ensures Inv(p, ReceivePq(p, s, m, r).0) && !ReceivePq(p, s, m, r).1.Told?
  {
    hide FactorBytes, TlBytes, U32Bytes, Primitives.Valid;
  }

  lemma ReceiveInnerKeeps(p: Primitives, s: State, m: Message, answer: seq<byte>, r: Randoms)
    requires p.Valid() && Inv(p, s) && s.stage == ReqDh && m.ServerDhParamsOk?
    requires s.nonce == Some(m.nonce) && s.serverNonce == Some(m.serverNonce)
    ensures Inv(p, ReceiveInner(p, s, m, answer, r).0) && !ReceiveInner(p, s, m, answer, r).1.Told?
  {
    hide NewAuthKey, ClientData, ParseMessage, Primitives.Valid;
  }

  lemma ReceiveDhKeeps(p: Primitives, s: State, m: Message, r: Randoms)
    requires p.Valid() && Inv(p, s) && s.stage == ReqDh
    ensures Inv(p, ReceiveDh(p, s, m, r).0) && !ReceiveDh(p, s, m, r).1.Told?
  {
    hide TempKey, TempIv, VerifiedAnswer, NewAuthKey, ClientData, ParseMessage, Primitives.Valid;
  }

  lemma ReceiveVerificationKeeps(p: Primitives, s: State, m: Message)
    requires p.Valid() && Inv(p, s) && s.stage == KeyVerification
    ensures Inv(p, ReceiveVerification(p, s, m).0)
    ensures ReceiveVerification(p, s, m).1.Told? ==>
              ReceiveVerification(p, s, m).0.stage == Done && Some(ReceiveVerification(p, s, m).1.authKey) == s.authKey
  {
    hide NewNonceHash, NewAuthKey, ClientData, FactorBytes, TlBytes, U32Bytes, PqValue, Reset, Primitives.Valid;
    ResetInv(p, s);
  }

  lemma ResetInv(p: Primitives, s: State)
    requires p.Valid()
    ensures Inv(p, Reset(s))
  {
    hide Primitives.Valid;
  }

  lemma Step(p: Primitives, s: State, a: Action)
    requires p.Valid() && Inv(p, s)
    ensures Enabled(p, s, a) && Inv(p, Apply(p, s, a).0)
    ensures Apply(p, s, a).1.Told? ==>
              && s.stage == KeyVerification && Apply(p, s, a).0.stage == Done
              && Apply(p, s, a).0.authKey == Some(Apply(p, s, a).1.authKey)
  {
    hide Primitives.Valid, NewAuthKey, NewNonceHash, ReceivePq, ReceiveDh;
    match a {
      case Incoming(m, r) =>
        match s.stage {
          case Pq => ReceivePqKeeps(p, s, m, r);
          case ReqDh => ReceiveDhKeeps(p, s, m, r);
          case KeyVerification => ReceiveVerificationKeeps(p, s, m);
          case Done =>
        }
      case _ =>
    }
  }

  // ---------- runs ----------

  /** The state after a run. Every action is enabled in every reachable state, which Step shows along the way. */
  ghost function Exec(p: Primitives, s: State, run: seq<Action>): State
    requires p.Valid() && Inv(p, s)
    decreases |run|
  {
    if run == [] then s else
      Step(p, s, run[0]);
      Exec(p, Apply(p, s, run[0]).0, run[1..])
  }

  ghost function Notices(p: Primitives, s: State, run: seq<Action>): nat
    requires p.Valid() && Inv(p, s)
    decreases |run|
  {
    if run == [] then 0 else
      Step(p, s, run[0]);
      (if Apply(p, s, run[0]).1.Told? then 1 else 0) + Notices(p, Apply(p, s, run[0]).0, run[1..])
  }

  ghost function Restarts(p: Primitives, s: State, run: seq<Action>): nat
    requires p.Valid() && Inv(p, s)
    decreases |run|
  {
    if run == [] then 0 else
      Step(p, s, run[0]);
      (if Apply(p, s, run[0]).1.Restarted? then 1 else 0) + Restarts(p, Apply(p, s, run[0]).0, run[1..])
  }

  /** The state reached by a run from the start. */
  ghost function Reached(p: Primitives, run: seq<Action>): State
    requires p.Valid()
  {
    Exec(p, INITIAL, run)
  }

  lemma {:induction false} InvHolds(p: Primitives, s: State, run: seq<Action>)
    requires p.Valid() && Inv(p, s)
    ensures Inv(p, Exec(p, s, run))
    decreases |run|
  {
    hide Inv, Apply;
    if run != [] {
      Step(p, s, run[0]);
      InvHolds(p, Apply(p, s, run[0]).0, run[1..]);
    }
  }

  /** In every reachable state the message of the current stage can be built: nothing it dereferences is null. */
  lemma NothingNullIsSent(p: Primitives, run: seq<Action>)
    requires p.Valid()
    ensures CanSend(Reached(p, run))
  {
    InvHolds(p, INITIAL, run);
  }

  /** What a told key and the replies behind it have to do with each other. */
  ghost predicate KeyExplained(p: Primitives, s: State, key: AuthKey)
    requires p.Valid()
  {
    && s.authKey == Some(key) && |s.accepted| == 3 && s.newNonce.Some?
    && s.accepted[0].PqReply? && s.accepted[0].message.ResPq?
    && s.accepted[1].DhReply? && s.accepted[1].message.ServerDhParamsOk?
    && s.accepted[2].OkReply? && s.accepted[2].message.DhGenOk?
    && (forall i :: 0 <= i < 3 ==> s.nonce == Some(NonceOf(s.accepted[i].message))
                                   && s.serverNonce == Some(ServerNonceOf(s.accepted[i].message)))
    && var inner := s.accepted[1].inner;
       && inner.ServerDhInnerData? && 2 <= inner.g <= 7
       && s.nonce == Some(inner.nonce) && s.serverNonce == Some(inner.serverNonce)
       && key.key == p.modExp(inner.ga, s.accepted[1].randoms.b, inner.dhPrime)
       && I64Bytes(key.id) == p.sha256(key.key)[24..]
       && |s.newNonce.value| >= 8 && |inner.serverNonce| >= 8
       && I64Bytes(key.serverSalt) == XorBytes(s.newNonce.value, inner.serverNonce, 8)
       && s.accepted[2].message.nextNonceHash == p.sha1(s.newNonce.value + [1] + p.sha1(key.key)[..8])[4..]
  }

  lemma NewKeyBytes(p: Primitives, newNonce: seq<byte>, serverNonce: seq<byte>, inner: Message, b: seq<byte>)
    requires p.Valid() && inner.ServerDhInnerData? && |newNonce| >= 8 && |serverNonce| >= 8
    ensures var key := NewAuthKey(p, newNonce, serverNonce, inner, b);
            && key.key == p.modExp(inner.ga, b, inner.dhPrime)
            && I64Bytes(key.id) == p.sha256(key.key)[24..]
            && I64Bytes(key.serverSalt) == XorBytes(newNonce, serverNonce, 8)
  {
    hide I64Bytes, XorBytes;
  }

  lemma NonceHashBytes(p: Primitives, newNonce: seq<byte>, key: seq<byte>)
    requires p.Valid()
    ensures NewNonceHash(p, newNonce, 1, key) == p.sha1(newNonce + [1] + p.sha1(key)[..8])[4..]
  {
    assert p.sha1(key)[0..8] == p.sha1(key)[..8];
  }

  lemma DoneIsExplained(p: Primitives, s: State)
    requires p.Valid() && Inv(p, s) && s.stage == Done
    ensures s.authKey.Some? && KeyExplained(p, s, s.authKey.value)
  {
    hide Primitives.Valid, NewAuthKey, NewNonceHash, ClientData, PqInnerData, FactorBytes, I64Bytes, XorBytes;
    var a := s.accepted[1];
    NewKeyBytes(p, s.newNonce.value, s.serverNonce.value, a.inner, a.randoms.b);
    NonceHashBytes(p, s.newNonce.value, s.authKey.value.key);
  }

  /** Whenever the delegate is told of a key, three replies have been accepted since the last reset: a first one signed
      with a known key, a second one whose inner data gave the key, and a last one whose hash covers the new nonce and the
      key; all carry the nonce and the server nonce of the exchange. */
  lemma KeyAfterThreeReplies(p: Primitives, run: seq<Action>, a: Action)
    requires p.Valid() && Enabled(p, Reached(p, run), a) && Apply(p, Reached(p, run), a).1.Told?
    ensures var t := Apply(p, Reached(p, run), a).0;
            KeyExplained(p, t, Apply(p, Reached(p, run), a).1.authKey) && t.accepted[0].message.fingerprint in DEFAULT_KEYS
  {
    hide Exec, Primitives.Valid, NewNonceHash, Apply, KeyExplained;
    InvHolds(p, INITIAL, run);
    Step(p, Reached(p, run), a);
    DoneIsExplained(p, Apply(p, Reached(p, run), a).0);
    ExplainedKeyIs(p, Apply(p, Reached(p, run), a).0);
  }

  lemma ExplainedKeyIs(p: Primitives, s: State)
    requires p.Valid() && Inv(p, s) && s.stage == Done
    ensures |s.accepted| == 3 && s.accepted[0].message.ResPq? && s.accepted[0].message.fingerprint in DEFAULT_KEYS
  {
    hide Primitives.Valid, NewAuthKey, NewNonceHash, ClientData, PqInnerData, FactorBytes;
  }

  /** The nonces of a handshake message; empty for any other. */
  function NonceOf(m: Message): seq<byte> {
    if m.ResPq? || m.ServerDhParamsOk? || m.DhGenOk? then m.nonce else []
  }

  function ServerNonceOf(m: Message): seq<byte> {
    if m.ResPq? || m.ServerDhParamsOk? || m.DhGenOk? then m.serverNonce else []
  }

  /** Between two restarts the delegate is told at most once. */
  lemma {:induction false} ToldOncePerExchange(p: Primitives, s: State, run: seq<Action>)
    requires p.Valid() && Inv(p, s)
    ensures Notices(p, s, run) <= Restarts(p, s, run) + if s.stage == Done then 0 else 1
    decreases |run|
  {
    if run != [] {
      Step(p, s, run[0]);
      var t := Apply(p, s, run[0]).0;
      ToldOncePerExchange(p, t, run[1..]);
      OnlyRestartLeavesDone(p, s, run[0]);
    }
  }

  lemma OnlyRestartLeavesDone(p: Primitives, s: State, a: Action)
    requires p.Valid() && Inv(p, s) && Enabled(p, s, a)
    ensures s.stage == Done && Apply(p, s, a).0.stage != Done ==> Apply(p, s, a).1.Restarted?
  {
    hide Primitives.Valid, Inv;
  }

  // ---------- the factors ----------

  /** What the search promises of the factor it returns for a number. */
  ghost predicate IsFactor(pq: u64, f: u64) {
    f >= 1 && (pq > 0 ==> NumberTheory.Divides(f, pq) && f * f <= pq)
  }

  /** Every first reply of the run came with such a factor. */
  ghost predicate FactorsFound(run: seq<Action>) {
    forall i :: 0 <= i < |run| && run[i].Incoming? && run[i].message.ResPq? ==>
      IsFactor(PqValue(run[i].message.pq), run[i].randoms.factor)
  }

  ghost predicate FactorKept(s: State) {
    s.accepted != [] && s.accepted[0].PqReply? && s.accepted[0].message.ResPq? ==>
      IsFactor(PqValue(s.accepted[0].message.pq), s.accepted[0].factor)
  }

  lemma FactorStep(p: Primitives, s: State, a: Action)
    requires p.Valid() && Inv(p, s) && Enabled(p, s, a) && FactorKept(s)
    requires a.Incoming? && a.message.ResPq? ==> IsFactor(PqValue(a.message.pq), a.randoms.factor)
    ensures FactorKept(Apply(p, s, a).0)
  {
    hide IsFactor, PqValue, Primitives.Valid, NewAuthKey, NewNonceHash, ClientData, ParseMessage, TempKey, TempIv, FactorBytes;
  }

  lemma {:induction false} FactorHolds(p: Primitives, s: State, run: seq<Action>)
    requires p.Valid() && Inv(p, s) && FactorKept(s) && FactorsFound(run)
    ensures FactorKept(Exec(p, s, run))
    decreases |run|
  {
    hide Inv, Apply, FactorKept, IsFactor;
    if run != [] {
      Step(p, s, run[0]);
      FactorStep(p, s, run[0]);
      var rest := run[1..];
      assert forall i :: 0 <= i < |rest| ==> rest[i] == run[i + 1];
      FactorHolds(p, Apply(p, s, run[0]).0, rest);
    }
  }

  lemma FactorsMultiply(pq: u64, f: u64)
    requires IsFactor(pq, f)
    ensures FromBigEndian(FactorBytes(f)) == f && FromBigEndian(FactorBytes(Quotient(pq, f))) == Quotient(pq, f)
    ensures f * Quotient(pq, f) == pq && (pq > 0 ==> f <= Quotient(pq, f))
  {
    ReversedIsBigEndian(U64Bytes(f));
    ReversedIsBigEndian(U64Bytes(Quotient(pq, f)));
    Decode64(f);
    Decode64(Quotient(pq, f));
    Crypto.ExactDivision(pq, f);
  }

  /** Over every run, from the first accepted reply on the two factors that are sent, read as big-endian numbers, multiply
      to that reply's number, the smaller first. */
  lemma FactorsSentMultiply(p: Primitives, run: seq<Action>)
    requires p.Valid() && FactorsFound(run) && Reached(p, run).stage != Pq
    ensures var s := Reached(p, run);
            && s.accepted != [] && s.accepted[0].message.ResPq? && s.dhP.Some? && s.dhQ.Some?
            && var pq := FromBigEndian(s.accepted[0].message.pq) % 0x1_0000_0000_0000_0000;
               && FromBigEndian(s.dhP.value) * FromBigEndian(s.dhQ.value) == pq
               && (pq > 0 ==> FromBigEndian(s.dhP.value) <= FromBigEndian(s.dhQ.value))
  {
    hide Exec, Primitives.Valid, NewAuthKey, NewNonceHash, InnerAccepted, IsFactor, PqValue, FactorBytes;
    InvHolds(p, INITIAL, run);
    FactorHolds(p, INITIAL, run);
    var s := Reached(p, run);
    FactorsMultiply(PqValue(s.accepted[0].message.pq), s.accepted[0].factor);
    PqValueIs(s.accepted[0].message.pq);
  }

  lemma PqValueIs(pq: seq<byte>)
    ensures PqValue(pq) == FromBigEndian(pq) % 0x1_0000_0000_0000_0000
  {
  }

  // ---------- the service ----------

  /** One reception took s to t with this outcome. */
  ghost predicate Received(p: Primitives, s: State, m: Message, r: Randoms, t: State, outcome: Outcome)
    requires p.Valid()
  {
    (s.stage == KeyVerification ==> s.authKey.Some?) && (t, outcome) == Receive(p, s, m, r)
  }

  lemma OtherMessagesIgnored(p: Primitives, s: State, m: Message, r: Randoms)
    requires p.Valid() && (s.stage == KeyVerification ==> s.authKey.Some?)
    requires s.stage == Pq ==> !m.ResPq?
    requires s.stage == ReqDh ==> !m.ServerDhParamsFail? && !m.ServerDhParamsOk?
    requires s.stage == KeyVerification ==> !m.DhGenOk? && !m.DhGenRetry? && !m.DhGenFail?
    ensures Receive(p, s, m, r) == (s, Ignored)
  {
  }

  /** serverDhParams: the temporary key, then the sixteen tries at the hash with the data cut by one byte each time. */
  method VerifyAnswer(p: Primitives, hash: seq<byte>, data: seq<byte>) returns (answer: Option<seq<byte>>)
    ensures answer == VerifiedAnswer(p, hash, data, 16)
  {
    var answerData := data;
    var i := 0;
    while i < 16
      invariant 0 <= i <= 16
      invariant VerifiedAnswer(p, hash, answerData, 16 - i) == VerifiedAnswer(p, hash, data, 16)
    {
      var computedHash := p.sha1(answerData);
      if computedHash == hash {
        return Some(answerData);
      }
      if |answerData| > 0 {
        answerData := answerData[..|answerData| - 1];
      }
      i := i + 1;
    }
    answer := None;
  }

  method ReadPq(pqBytes: seq<byte>) returns (pq: u64)
    ensures pq == PqValue(pqBytes)
  {
    pq := 0;
    var i := 0;
    while i < |pqBytes|
      invariant 0 <= i <= |pqBytes| && pq == PqValue(pqBytes[..i])
    {
      Crypto.AppendByte(pqBytes[..i], pqBytes[i], pq);
      assert pqBytes[..i + 1] == pqBytes[..i] + [pqBytes[i]];
      pq := pq * 256 % 0x1_0000_0000_0000_0000;
      pq := pq + pqBytes[i];
      i := i + 1;
    }
    assert pqBytes[..i] == pqBytes;
  }

  class DatacenterAuthMessageService {
    const p: Primitives
    var stage: Stage
    var nonce: Option<seq<byte>>
    var serverNonce: Option<seq<byte>>
    var newNonce: Option<seq<byte>>
    var dhP: Option<seq<byte>>
    var dhQ: Option<seq<byte>>
    var publicKeyFingerprint: u64
    var dhEncryptedData: Option<seq<byte>>
    var authKey: Option<AuthKey>
    var encryptedClientData: Option<seq<byte>>
    var publicKeys: set<u64>
    var currentStateTransactionId: int
    var currentStateMessageId: int
    var currentStateMessageSeqNo: int
    ghost var accepted: seq<Accepted>

    ghost function Snapshot(): State
      reads this
    {
      State(stage, nonce, serverNonce, newNonce, dhP, dhQ, publicKeyFingerprint, dhEncryptedData, authKey,
            encryptedClientData, publicKeys, currentStateTransactionId, currentStateMessageId, currentStateMessageSeqNo,
            accepted)
    }

    ghost predicate Valid()
      reads this
    {
      p.Valid() && Inv(p, Snapshot())
    }

    constructor (p: Primitives)
      requires p.Valid()
      ensures Valid() && Snapshot() == INITIAL && this.p == p
    {
      this.p := p;
      stage, nonce, serverNonce, newNonce, dhP, dhQ := Pq, None, None, None, None, None;
      publicKeyFingerprint, dhEncryptedData, authKey, encryptedClientData, publicKeys := 0, None, None, None, {};
      currentStateTransactionId, currentStateMessageId, currentStateMessageSeqNo, accepted := 0, 0, 0, [];
    }

    method ResetState()
      requires Valid()
      modifies this
      ensures Valid() && Snapshot() == Reset(old(Snapshot()))
    {
      hide Inv, Primitives.Valid;
      ghost var before := Snapshot();
      ResetInv(p, before);
      stage, currentStateMessageId, currentStateMessageSeqNo, currentStateTransactionId := Pq, 0, 0, 0;
      nonce, serverNonce, newNonce := None, None, None;
      dhP, dhQ, publicKeyFingerprint := None, None, 0;
      authKey, encryptedClientData := None, None;
      publicKeys := DEFAULT_KEYS;
      accepted := [];
      assert Snapshot() == Reset(before);
    }

    /** No null is dereferenced: the precondition is the invariant alone. */
    method ProtoMessageTransaction(freshNonce: seq<byte>) returns (message: Option<seq<byte>>)
      requires Valid()
      modifies this`nonce, this`publicKeys
      ensures Valid() && (Snapshot(), message) == Send(old(Snapshot()), freshNonce)
    {
      if currentStateTransactionId != 0 {
        return None;
      }
      match stage {
        case Pq =>
          if nonce == None {
            nonce := Some(freshNonce);
          }
          publicKeys := DEFAULT_KEYS;
          message := Some(U32Bytes(0xfbf22646) + nonce.value);
        case ReqDh =>
          message := Some(U32Bytes(0x92471d27) + nonce.value + serverNonce.value + TlBytes(dhP.value) + TlBytes(dhQ.value)
                          + U64Bytes(publicKeyFingerprint) + TlBytes(dhEncryptedData.value));
        case KeyVerification =>
          message := Some(U32Bytes(0xead9f280) + nonce.value + serverNonce.value + TlBytes(encryptedClientData.value));
        case Done =>
          message := None;
      }
    }

    method MessagePrepared(messageId: int, seqNo: int)
      requires Valid()
      modifies this`currentStateMessageId, this`currentStateMessageSeqNo, this`currentStateTransactionId
      ensures Valid() && Snapshot() == OnPrepared(old(Snapshot()), messageId, seqNo)
    {
      if stage == Pq {
        currentStateMessageId, currentStateMessageSeqNo, currentStateTransactionId := messageId, seqNo, 1;
      }
    }

    method TransactionCompleted(messageId: int, seqNo: int)
      requires Valid()
      modifies this`currentStateMessageId, this`currentStateMessageSeqNo, this`currentStateTransactionId
      ensures Valid() && Snapshot() == OnCompleted(old(Snapshot()), messageId, seqNo)
    {
      if stage == ReqDh {
        currentStateMessageId, currentStateMessageSeqNo, currentStateTransactionId := messageId, seqNo, 1;
      }
    }

    /** The first reply; the factor comes from the search, for arbitrary random draws. */
    method HandleResPq(m: Message, randomNonce: seq<byte>, smallDraws: nat -> Crypto.SmallDraw, wideDraws: nat -> u64)
      returns (outcome: Outcome, ghost r: Randoms)
      requires Valid() && stage == Pq && m.ResPq?
      modifies this
      ensures r.newNonce == randomNonce && IsFactor(PqValue(m.pq), r.factor)
      ensures (Snapshot(), outcome) == ReceivePq(p, old(Snapshot()), m, r) && Valid()
    {
      hide Inv, Primitives.Valid, FactorBytes, NumberTheory.Divides, PqInnerData, PqValue;
      var pBytes, qBytes, factor := FactorPq(m.pq, smallDraws, wideDraws);
      r := Randoms(randomNonce, [], _ => 0, factor);
      ReceivePqKeeps(p, Snapshot(), m, r);
      if nonce == None || nonce.value != m.nonce {
        return Ignored, r;
      }
      if m.fingerprint !in publicKeys {
        ResetState();
        return Restarted, r;
      }
      StorePq(m, pBytes, qBytes, randomNonce);
      var encrypted := EncryptPq(m);
      if encrypted == None {
        return Ignored, r;
      }
      dhEncryptedData := encrypted;
      MoveTo(ReqDh, PqReply(m, factor));
      outcome := Advanced;
    }

    method StorePq(m: Message, pBytes: seq<byte>, qBytes: seq<byte>, randomNonce: seq<byte>)
      requires m.ResPq?
      modifies this`publicKeyFingerprint, this`dhP, this`dhQ, this`serverNonce, this`newNonce
      ensures Snapshot() == old(Snapshot()).(publicKeyFingerprint := m.fingerprint, dhP := Some(pBytes), dhQ := Some(qBytes),
                                             serverNonce := Some(m.serverNonce), newNonce := Some(randomNonce))
    {
      publicKeyFingerprint := m.fingerprint;
      dhP, dhQ := Some(pBytes), Some(qBytes);
      serverNonce, newNonce := Some(m.serverNonce), Some(randomNonce);
    }

    /** The two factors as they are sent. */
    method FactorPq(pqBytes: seq<byte>, smallDraws: nat -> Crypto.SmallDraw, wideDraws: nat -> u64)
      returns (pBytes: seq<byte>, qBytes: seq<byte>, ghost factor: u64)
      ensures IsFactor(PqValue(pqBytes), factor)
      ensures pBytes == FactorBytes(factor) && qBytes == FactorBytes(Quotient(PqValue(pqBytes), factor))
    {
      hide NumberTheory.Divides, PqValue;
      var pq := ReadPq(pqBytes);
      var factP, _, _, _ := Crypto.PqFactorize(pq, smallDraws, wideDraws);
      var factQ := Quotient(pq, factP);
      var swappedP := Common.ByteSwapUInt64(factP);
      var swappedQ := Common.ByteSwapUInt64(factQ);
      pBytes, qBytes, factor := U64Bytes(swappedP), U64Bytes(swappedQ), factP;
    }

    method EncryptPq(m: Message) returns (encrypted: Option<seq<byte>>)
      requires m.ResPq? && dhP.Some? && dhQ.Some? && nonce.Some? && serverNonce.Some? && newNonce.Some?
      ensures var inner := PqInnerData(Snapshot(), m.pq); encrypted == p.rsaEncrypt(m.fingerprint, p.sha1(inner) + inner)
    {
      hide TlBytes, U32Bytes;
      var inner := U32Bytes(0xeb59a005) + TlBytes(m.pq) + TlBytes(dhP.value) + TlBytes(dhQ.value)
                   + nonce.value + serverNonce.value + newNonce.value;
      encrypted := p.rsaEncrypt(m.fingerprint, p.sha1(inner) + inner);
    }

    method MoveTo(next: Stage, ghost a: Accepted)
      modifies this`stage, this`accepted
      modifies this`currentStateMessageId, this`currentStateMessageSeqNo, this`currentStateTransactionId
      ensures Snapshot() == Advance(old(Snapshot()), next, a)
    {
      stage, currentStateMessageId, currentStateMessageSeqNo, currentStateTransactionId := next, 0, 0, 0;
      accepted := accepted + [a];
    }

    /** The second reply. */
    method HandleServerDhParams(m: Message, r: Randoms) returns (outcome: Outcome)
      requires Valid() && stage == ReqDh && (m.ServerDhParamsFail? || m.ServerDhParamsOk?)
      modifies this
      ensures (Snapshot(), outcome) == ReceiveDh(p, old(Snapshot()), m, r) && Valid()
    {
      hide Inv, Primitives.Valid, TempKey, TempIv, NewAuthKey, ClientData, ParseMessage, VerifiedAnswer, InnerAccepted;
      ReceiveDhKeeps(p, Snapshot(), m, r);
      NoncesSet();
      if nonce.value != m.nonce || serverNonce.value != m.serverNonce {
        return Ignored;
      }
      if m.ServerDhParamsFail? {
        ResetState();
        return Restarted;
      }
      var decrypted := p.aesDecrypt(TempKey(p, newNonce.value, serverNonce.value),
                                    TempIv(p, newNonce.value, serverNonce.value), m.encryptedResponse);
      if decrypted == None || |decrypted.value| < 20 + 16 {
        return Ignored;
      }
      var answer := VerifyAnswer(p, decrypted.value[..20], decrypted.value[20..]);
      if answer == None {
        ResetState();
        return Restarted;
      }
      outcome := HandleInner(m, answer.value, r);
    }

    lemma NoncesSet()
      requires Valid() && stage in {ReqDh, KeyVerification}
      ensures nonce.Some? && serverNonce.Some? && newNonce.Some? && (stage == KeyVerification ==> authKey.Some?)
    {
      hide Primitives.Valid, NewAuthKey;
    }

    /** The decrypted inner data; an exception of the parser leaves everything as it was. */
    method HandleInner(m: Message, answer: seq<byte>, r: Randoms) returns (outcome: Outcome)
      requires Valid() && stage == ReqDh && m.ServerDhParamsOk?
      requires nonce == Some(m.nonce) && serverNonce == Some(m.serverNonce)
      modifies this
      ensures (Snapshot(), outcome) == ReceiveInner(p, old(Snapshot()), m, answer, r) && Valid()
    {
      hide Inv, Primitives.Valid, NewAuthKey, ClientData, ParseMessage;
      ReceiveInnerKeeps(p, Snapshot(), m, answer, r);
      NoncesSet();
      var parsed := InternalParserMethods.Parse(answer);
      if parsed.Thrown? {
        return Raised;
      }
      if parsed.value == None || !InnerAccepted(nonce.value, serverNonce.value, newNonce.value, parsed.value.value) {
        ResetState();
        return Restarted;
      }
      var inner := parsed.value.value;
      var key := MakeAuthKey(inner, r.b);
      var clientData := MakeClientData(inner, r);
      authKey, encryptedClientData := Some(key), Some(clientData);
      MoveTo(KeyVerification, DhReply(m, inner, r));
      outcome := Advanced;
    }

    /** The shared key, its id, and the first salt, built up byte by byte. */
    method MakeAuthKey(inner: Message, b: seq<byte>) returns (made: AuthKey)
      requires p.Valid() && inner.ServerDhInnerData? && newNonce.Some? && serverNonce.Some?
      requires |newNonce.value| >= 8 && |serverNonce.value| >= 8
      ensures made == NewAuthKey(p, newNonce.value, serverNonce.value, inner, b)
    {
      hide XorByte, NumberOf;
      var key := p.modExp(inner.ga, b, inner.dhPrime);
      var serverSaltData: seq<byte> := [];
      for i := 0 to 8
        invariant serverSaltData == XorBytes(newNonce.value, serverNonce.value, i)
      {
        serverSaltData := serverSaltData + [XorByte(newNonce.value[i], serverNonce.value[i])];
      }
      made := AuthKey(key, NumberOf(p.sha256(key)[24..32]), NumberOf(serverSaltData));
    }

    /** The client's half: hashed, filled up with single random bytes, encrypted. */
    method MakeClientData(inner: Message, r: Randoms) returns (data: seq<byte>)
      requires p.Valid() && inner.ServerDhInnerData? && nonce.Some? && newNonce.Some? && serverNonce.Some?
      ensures data == ClientData(p, nonce.value, serverNonce.value, newNonce.value, inner, r)
    {
      hide U32Bytes, I64Bytes, TlBytes, TempKey, TempIv, GBytes, Primitives.Valid;
      var gb := p.modExp(GBytes(inner.g), r.b, inner.dhPrime);
      var clientInnerData := U32Bytes(0x706fb308) + nonce.value + serverNonce.value + I64Bytes(0) + TlBytes(gb);
      var clientDataWithHash := p.sha1(clientInnerData) + clientInnerData;
      ghost var hashed := clientDataWithHash;
      ghost var n := (16 - |hashed| % 16) % 16;
      var i := 0;
      while |clientDataWithHash| % 16 != 0
        invariant i <= n && clientDataWithHash == hashed + seq<byte>(i, k requires 0 <= k < i => r.padding(k))
        decreases n - i
      {
        BlockPending(|hashed|, i);
        clientDataWithHash := clientDataWithHash + [r.padding(i)];
        i := i + 1;
      }
      BlockPending(|hashed|, i);
      data := p.aesEncrypt(TempKey(p, newNonce.value, serverNonce.value), TempIv(p, newNonce.value, serverNonce.value),
                           clientDataWithHash);
    }

    lemma BlockPending(size: nat, i: nat)
      requires i <= (16 - size % 16) % 16
      ensures (size + i) % 16 != 0 <==> i < (16 - size % 16) % 16
    {
    }

    /** The third reply. */
    method HandleClientDhResponse(m: Message) returns (outcome: Outcome)
      requires Valid() && stage == KeyVerification && authKey.Some? && (m.DhGenOk? || m.DhGenRetry? || m.DhGenFail?)
      modifies this
      ensures (Snapshot(), outcome) == ReceiveVerification(p, old(Snapshot()), m) && Valid()
    {
      hide Inv, Primitives.Valid, NewNonceHash;
      NoncesSet();
      ReceiveVerificationKeeps(p, Snapshot(), m);
      if nonce.value != m.nonce || serverNonce.value != m.serverNonce {
        return Ignored;
      }
      if m.DhGenOk? {
        var newNonceHash1 := NewNonceHash(p, newNonce.value, 1, authKey.value.key);
        if m.nextNonceHash == newNonceHash1 {
          MoveTo(Done, OkReply(m));
          return Told(authKey.value);
        }
      }
      ResetState();
      outcome := Restarted;
    }

    /** The dispatch on stage and message; used are the random values the step consumed. */
    method ProtoDidReceiveMessage(m: Message, r: Randoms, smallDraws: nat -> Crypto.SmallDraw, wideDraws: nat -> u64)
      returns (outcome: Outcome, ghost used: Randoms)
      requires Valid()
      modifies this
      ensures Valid() && Received(p, old(Snapshot()), m, used, Snapshot(), outcome)
      ensures old(stage) == Pq && m.ResPq? ==> IsFactor(PqValue(m.pq), used.factor)
    {
      hide Inv, Primitives.Valid, ReceivePq, ReceiveDh, ReceiveVerification;
      used, outcome := r, Ignored;
      if stage in {ReqDh, KeyVerification} {
        NoncesSet();
      }
      if stage == Pq && m.ResPq? {
        outcome, used := HandleResPq(m, r.newNonce, smallDraws, wideDraws);
      } else if stage == ReqDh && (m.ServerDhParamsFail? || m.ServerDhParamsOk?) {
        outcome := HandleServerDhParams(m, r);
      } else if stage == KeyVerification && (m.DhGenOk? || m.DhGenRetry? || m.DhGenFail?) {
        outcome := HandleClientDhResponse(m);
      } else {
        OtherMessagesIgnored(p, Snapshot(), m, r);
      }
    }
  }
}
