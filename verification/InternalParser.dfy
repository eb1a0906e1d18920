/** gp/proto/InternalParser.h: the parser of service messages, with the printers found across the repository. */
module InternalParser {
  import opened Bytes
  import opened Options
  import opened Tl

  datatype SubMessage = SubMessage(messageId: i64, seqNo: i32, body: seq<byte>)
  datatype FutureSalt = FutureSalt(validSince: i32, validUntil: i32, salt: i64)

  datatype Message =
    | ResPq(nonce: seq<byte>, serverNonce: seq<byte>, pq: seq<byte>, fingerprint: u64)
    | ServerDhParamsFail(nonce: seq<byte>, serverNonce: seq<byte>, nextNonceHash: seq<byte>)
    | ServerDhParamsOk(nonce: seq<byte>, serverNonce: seq<byte>, encryptedResponse: seq<byte>)
    | ServerDhInnerData(nonce: seq<byte>, serverNonce: seq<byte>, g: i32, dhPrime: seq<byte>, ga: seq<byte>, serverTime: i32)
    | DhGenOk(nonce: seq<byte>, serverNonce: seq<byte>, nextNonceHash: seq<byte>)
    | DhGenRetry(nonce: seq<byte>, serverNonce: seq<byte>, nextNonceHash: seq<byte>)
    | DhGenFail(nonce: seq<byte>, serverNonce: seq<byte>, nextNonceHash: seq<byte>)
    | Ping(pingId: i64)
    | RpcResult(requestMessageId: i64, responseData: seq<byte>)
    | RpcError(code: i32, description: seq<byte>)
    | Pong(messageId: i64, pingId: i64)
    | MsgsAck(messageIds: seq<i64>)
    | Container(messages: seq<SubMessage>)
    | FutureSalts(requestMessageId: i64, now: i32, salts: seq<FutureSalt>)
    | BadMsgNotification(badMessageId: i64, badSeqNo: i32, errorCode: i32)
    | BadServerSalt(badMessageId: i64, badSeqNo: i32, errorCode: i32, validServerSalt: i64)

  const RES_PQ: u32 := 0x15d04c69
  const SERVER_DH_FAIL: u32 := 0xcb73e0c5
  const SERVER_DH_OK: u32 := 0xf026f3c8
  const SERVER_DH_INNER: u32 := 0xefeab3aa
  const DH_GEN_OK: u32 := 0x73d45989
  const DH_GEN_RETRY: u32 := 0x5b04490c
  const DH_GEN_FAIL: u32 := 0x7250ae2a
  const PING: u32 := 0x7abe77ec
  const RPC_RESULT: u32 := 0xf35c6d01
  const RPC_ERROR: u32 := 0x2144ca19
  const PONG: u32 := 0x347773c5
  const MSGS_ACK: u32 := 0x62d6b459
  const VECTOR: u32 := 0x1cb5c415
  const CONTAINER: u32 := 0x73f1f8dc
  const FUTURE_SALTS: u32 := 0xae500895
  const BAD_MSG: u32 := 0xa7eff811
  const BAD_SALT: u32 := 0xedab447b
  const GZIP_PACKED: u32 := 0x3072cfa1

  const MAX_ACKS := 500
  const MAX_SALTS := 300
  const MAX_BODY := 16 * 1024 * 1024

  // ---------- the parser as a function ----------

  /** Got(None, _) is the null message; Thrown is a stream exception. */
  type Parse = Read<Option<Message>>

  function ReadI64s(s: seq<byte>, count: nat): Read<seq<i64>> {
    if count == 0 then Got([], s) else
      var (x, s1) :- ReadI64(s);
      var (xs, s2) :- ReadI64s(s1, count - 1);
      Got([x] + xs, s2)
  }

  function ReadSalts(s: seq<byte>, count: nat): Read<seq<FutureSalt>> {
    if count == 0 then Got([], s) else
      var (since, s1) :- ReadI32(s);
      var (until, s2) :- ReadI32(s1);
      var (salt, s3) :- ReadI64(s2);
      var (xs, s4) :- ReadSalts(s3, count - 1);
      Got([FutureSalt(since, until, salt)] + xs, s4)
  }

  function ReadSubMessage(s: seq<byte>, totalDataSize: nat): Read<Option<SubMessage>> {
    var (messageId, s1) :- ReadI64(s);
    var (seqNo, s2) :- ReadI32(s1);
    var (length, s3) :- ReadI32(s2);
    if length < 0 || length > MAX_BODY || length > totalDataSize then Got(None, s3) else
      var (body, s4) :- ReadData(s3, length);
      Got(Some(SubMessage(messageId, seqNo, body)), s4)
  }

  /** None when some length field is invalid. */
  function ReadSubMessages(s: seq<byte>, count: nat, totalDataSize: nat): Read<Option<seq<SubMessage>>> {
    if count == 0 then Got(Some([]), s) else
      var (first, s1) :- ReadSubMessage(s, totalDataSize);
      if first == None then Got(None, s1) else
        var (others, s2) :- ReadSubMessages(s1, count - 1, totalDataSize);
        Got(if others == None then None else Some([first.value] + others.value), s2)
  }

  function ParseAcks(s: seq<byte>): Parse {
    var (vectorSignature, s1) :- ReadI32(s);
    if vectorSignature != VECTOR then Got(None, s1) else
      var (count, s2) :- ReadI32(s1);
      if count < 0 || count > MAX_ACKS then Got(None, s2) else
        var (ids, s3) :- ReadI64s(s2, count);
        Got(Some(MsgsAck(ids)), s3)
  }

  function ParseContainer(s: seq<byte>, totalDataSize: nat): Parse {
    var (count, s1) :- ReadI32(s);
    if count < 0 then Got(None, s1) else
      var (messages, s2) :- ReadSubMessages(s1, count, totalDataSize);
      Got(if messages == None then None else Some(Container(messages.value)), s2)
  }

  function ParseSalts(s: seq<byte>): Parse {
    var (requestMessageId, s1) :- ReadI64(s);
    var (now, s2) :- ReadI32(s1);
    var (count, s3) :- ReadI32(s2);
    if count < 0 || count > MAX_SALTS then Got(None, s3) else
      var (salts, s4) :- ReadSalts(s3, count);
      Got(Some(FutureSalts(requestMessageId, now, salts)), s4)
  }

  /** The messages of the key exchange, all of which start with the two nonces. */
  function ParseHandshake(signature: u32, s: seq<byte>): Parse {
    var (nonce, s1) :- ReadData(s, 16);
    var (serverNonce, s2) :- ReadData(s1, 16);
    if signature == RES_PQ then
      var (pq, s3) :- ReadBytes(s2);
      var (fingerprint, s4) :- ReadU64(s3);
      Got(Some(ResPq(nonce, serverNonce, pq, fingerprint)), s4)
    else if signature == SERVER_DH_OK then
      var (encrypted, s3) :- ReadBytes(s2);
      Got(Some(ServerDhParamsOk(nonce, serverNonce, encrypted)), s3)
    else if signature == SERVER_DH_INNER then
      var (g, s3) :- ReadI32(s2);
      var (dhPrime, s4) :- ReadBytes(s3);
      var (ga, s5) :- ReadBytes(s4);
      var (serverTime, s6) :- ReadI32(s5);
      Got(Some(ServerDhInnerData(nonce, serverNonce, g, dhPrime, ga, serverTime)), s6)
    else
      var (hash, s3) :- ReadData(s2, 16);
      Got(Some(
        if signature == SERVER_DH_FAIL then ServerDhParamsFail(nonce, serverNonce, hash)
        else if signature == DH_GEN_OK then DhGenOk(nonce, serverNonce, hash)
        else if signature == DH_GEN_RETRY then DhGenRetry(nonce, serverNonce, hash)
        else DhGenFail(nonce, serverNonce, hash)), s3)
  }

  function ParseBadMsg(s: seq<byte>, withSalt: bool): Parse {
    var (badMessageId, s1) :- ReadI64(s);
    var (badSeqNo, s2) :- ReadI32(s1);
    var (errorCode, s3) :- ReadI32(s2);
    if withSalt then
      var (salt, s4) :- ReadI64(s3);
      Got(Some(BadServerSalt(badMessageId, badSeqNo, errorCode, salt)), s4)
    else
      Got(Some(BadMsgNotification(badMessageId, badSeqNo, errorCode)), s3)
  }

  function ParsePing(s: seq<byte>): Parse {
    var (pingId, s1) :- ReadI64(s);
    Got(Some(Ping(pingId)), s1)
  }

  function ParsePong(s: seq<byte>): Parse {
    var (messageId, s1) :- ReadI64(s);
    var (pingId, s2) :- ReadI64(s1);
    Got(Some(Pong(messageId, pingId)), s2)
  }

  function ParseRpcResult(s: seq<byte>): Parse {
    var (requestMessageId, s1) :- ReadI64(s);
    var (responseData, s2) :- ReadRemaining(s1);
    Got(Some(RpcResult(requestMessageId, responseData)), s2)
  }

  function ParseRpcError(s: seq<byte>): Parse {
    var (code, s1) :- ReadI32(s);
    var (description, s2) :- ReadBytes(s1);
    Got(Some(RpcError(code, description)), s2)
  }

  predicate IsHandshake(signature: u32) {
    signature in {RES_PQ, SERVER_DH_FAIL, SERVER_DH_OK, SERVER_DH_INNER, DH_GEN_OK, DH_GEN_RETRY, DH_GEN_FAIL}
  }

  function ParseBody(signature: u32, s: seq<byte>, totalDataSize: nat): Parse {
    if IsHandshake(signature) then ParseHandshake(signature, s)
    else if signature == PING then ParsePing(s)
    else if signature == RPC_RESULT then ParseRpcResult(s)
    else if signature == RPC_ERROR then ParseRpcError(s)
    else if signature == PONG then ParsePong(s)
    else if signature == MSGS_ACK then ParseAcks(s)
    else if signature == CONTAINER then ParseContainer(s, totalDataSize)
    else if signature == FUTURE_SALTS then ParseSalts(s)
    else if signature == BAD_MSG then ParseBadMsg(s, false)
    else if signature == BAD_SALT then ParseBadMsg(s, true)
    else Got(None, s)
  }

  function ParseMessage(data: seq<byte>): Parse {
    var (signature, s) :- ReadU32(data);
    ParseBody(signature, s, |data|)
  }

  // ---------- printers ----------

  function I64sBytes(ids: seq<i64>): seq<byte> {
    if ids == [] then [] else I64Bytes(ids[0]) + I64sBytes(ids[1..])
  }

  function AcksBytes(ids: seq<i64>): seq<byte> {
    U32Bytes(MSGS_ACK) + (U32Bytes(VECTOR) + (I32Bytes(CastI32(|ids|)) + I64sBytes(ids)))
  }

  function SubMessageBytes(m: SubMessage): seq<byte> {
    I64Bytes(m.messageId) + (I32Bytes(m.seqNo) + (I32Bytes(CastI32(|m.body|)) + m.body))
  }

  function SubMessagesBytes(ms: seq<SubMessage>): seq<byte> {
    if ms == [] then [] else SubMessageBytes(ms[0]) + SubMessagesBytes(ms[1..])
  }

  function ContainerBytes(ms: seq<SubMessage>): seq<byte> {
    U32Bytes(CONTAINER) + (I32Bytes(CastI32(|ms|)) + SubMessagesBytes(ms))
  }

  function PingBytes(pingId: i64): seq<byte> {
    U32Bytes(PING) + I64Bytes(pingId)
  }

  function PongBytes(messageId: i64, pingId: i64): seq<byte> {
    U32Bytes(PONG) + (I64Bytes(messageId) + I64Bytes(pingId))
  }

  // ---------- the parser inverts the printers ----------

  lemma {:induction false} ReadI64sExact(s: seq<byte>, n: nat, ids: seq<i64>, rest: seq<byte>)
    ensures ReadI64s(s, n) == Got(ids, rest) <==> |ids| == n && s == I64sBytes(ids) + rest
    decreases n
  {
    hide ReadI64, I64Bytes;
    if n > 0 && ids != [] {
      var t := I64sBytes(ids[1..]) + rest;
      ReadI64Exact(s, ids[0], t);
      assert s == I64sBytes(ids) + rest <==> s == I64Bytes(ids[0]) + t by {
        assert I64sBytes(ids) + rest == I64Bytes(ids[0]) + t;
      }
      match ReadI64(s) {
        case Thrown(_) =>
        case Got(x, s1) =>
          ReadI64Exact(s, x, s1);
          ReadI64sExact(s1, n - 1, ids[1..], rest);
          SplitHead(ids, x);
      }
    } else if n > 0 {
      NonEmptyResult(s, n);
    } else if ids != [] {
    } else {
      assert I64sBytes(ids) + rest == rest;
    }
  }

  lemma SplitHead<T>(xs: seq<T>, x: T)
    requires xs != []
    ensures forall ys: seq<T> :: [x] + ys == xs <==> x == xs[0] && ys == xs[1..]
  {
    forall ys: seq<T>
      ensures [x] + ys == xs <==> x == xs[0] && ys == xs[1..]
    {
      assert ([x] + ys)[1..] == ys;
      assert xs == [xs[0]] + xs[1..];
    }
  }

  lemma NonEmptyResult(s: seq<byte>, n: nat)
    requires n > 0
    ensures ReadI64s(s, n).Got? ==> ReadI64s(s, n).value != []
  {
  }

  /** Associativity in the shape the printers produce. */
  lemma Regroup(a: seq<byte>, b: seq<byte>, rest: seq<byte>)
    ensures (a + b) + rest == a + (b + rest)
  {
  }

  lemma SmallCast(n: nat)
    requires n < 0x8000_0000
    ensures CastI32(n) == n
  {
  }

  lemma SubMessageWritten(m: SubMessage, totalDataSize: nat, rest: seq<byte>)
    requires |m.body| <= MAX_BODY && |m.body| <= totalDataSize
    ensures ReadSubMessage(SubMessageBytes(m) + rest, totalDataSize) == Got(Some(m), rest)
  {
    hide ReadI64, ReadI32, ReadData, I64Bytes, I32Bytes, CastI32;
    SmallCast(|m.body|);
    var s3 := m.body + rest;
    var s2 := I32Bytes(|m.body|) + s3;
    var s1 := I32Bytes(m.seqNo) + s2;
    var s := SubMessageBytes(m) + rest;
    assert s == I64Bytes(m.messageId) + s1;
    ReadI64Exact(s, m.messageId, s1);
    ReadI32Exact(s1, m.seqNo, s2);
    ReadI32Exact(s2, |m.body|, s3);
    ReadDataExact(s3, |m.body|, m.body, rest);
  }

  lemma SubMessageExact(s: seq<byte>, totalDataSize: nat, m: SubMessage, rest: seq<byte>)
    ensures ReadSubMessage(s, totalDataSize) == Got(Some(m), rest)
            <==> |m.body| <= MAX_BODY && |m.body| <= totalDataSize && s == SubMessageBytes(m) + rest
  {
    hide ReadI64, ReadI32, ReadData, I64Bytes, I32Bytes, CastI32;
    if |m.body| <= MAX_BODY && |m.body| <= totalDataSize && s == SubMessageBytes(m) + rest {
      SubMessageWritten(m, totalDataSize, rest);
    }
    if ReadSubMessage(s, totalDataSize) == Got(Some(m), rest) {
      var s1 := ReadI64(s).rest;
      var s2 := ReadI32(s1).rest;
      var s3 := ReadI32(s2).rest;
      var length := ReadI32(s2).value;
      ReadI64Exact(s, m.messageId, s1);
      ReadI32Exact(s1, m.seqNo, s2);
      ReadI32Exact(s2, length, s3);
      ReadDataExact(s3, length, m.body, rest);
      SmallCast(|m.body|);
      assert s == SubMessageBytes(m) + rest;
    }
  }

  ghost predicate BodiesFit(ms: seq<SubMessage>, totalDataSize: nat) {
    forall k :: 0 <= k < |ms| ==> |ms[k].body| <= MAX_BODY && |ms[k].body| <= totalDataSize
  }

  lemma {:induction false} SubMessagesExact(s: seq<byte>, n: nat, totalDataSize: nat, ms: seq<SubMessage>, rest: seq<byte>)
    ensures ReadSubMessages(s, n, totalDataSize) == Got(Some(ms), rest)
            <==> |ms| == n && BodiesFit(ms, totalDataSize) && s == SubMessagesBytes(ms) + rest
    decreases n
  {
    hide ReadSubMessage, SubMessageBytes;
    if n > 0 && ms != [] {
      var t := SubMessagesBytes(ms[1..]) + rest;
      SubMessageExact(s, totalDataSize, ms[0], t);
      assert SubMessagesBytes(ms) + rest == SubMessageBytes(ms[0]) + t;
      assert BodiesFit(ms, totalDataSize) <==>
        |ms[0].body| <= MAX_BODY && |ms[0].body| <= totalDataSize && BodiesFit(ms[1..], totalDataSize);
      var head := ReadSubMessage(s, totalDataSize);
      if head.Got? && head.value.Some? {
        SubMessageExact(s, totalDataSize, head.value.value, head.rest);
        SubMessagesExact(head.rest, n - 1, totalDataSize, ms[1..], rest);
        SplitHead(ms, head.value.value);
      }
    } else if n > 0 {
      NonEmptySubMessages(s, n, totalDataSize);
    } else if ms == [] {
      assert SubMessagesBytes(ms) + rest == rest;
    }
  }

  lemma NonEmptySubMessages(s: seq<byte>, n: nat, totalDataSize: nat)
    requires n > 0
    ensures var r := ReadSubMessages(s, n, totalDataSize); r.Got? && r.value.Some? ==> r.value.value != []
  {
  }

  // ---------- main characterisations: what parses to a printed message ----------

  /** The signature word selects the parser of the remainder. */
  lemma ParseAfterSignature(signature: u32, body: seq<byte>)
    ensures ParseMessage(U32Bytes(signature) + body) == ParseBody(signature, body, 4 + |body|)
  {
    ReadU32Exact(U32Bytes(signature) + body, signature, body);
  }

  lemma SignatureOf(data: seq<byte>)
    ensures ParseMessage(data).Got? ==>
              ReadU32(data).Got? && data == U32Bytes(ReadU32(data).value) + ReadU32(data).rest
  {
    if ParseMessage(data).Got? {
      ReadU32Exact(data, ReadU32(data).value, ReadU32(data).rest);
    }
  }

  /** Which signature a parsed message came from. */
  lemma SignatureOfResult(data: seq<byte>, m: Message)
    requires ParseMessage(data).Got? && ParseMessage(data).value == Some(m)
    ensures ReadU32(data).Got?
    ensures m.MsgsAck? ==> ReadU32(data).value == MSGS_ACK
    ensures m.Container? ==> ReadU32(data).value == CONTAINER
    ensures m.Ping? ==> ReadU32(data).value == PING
    ensures m.Pong? ==> ReadU32(data).value == PONG
  {
    hide ReadI64, ReadI32, ReadU64, ReadData, ReadBytes, ReadRemaining, ReadU32, ReadI64s, ReadSalts, ReadSubMessages;
  }

  /** A byte string parses to an acknowledgement of ids exactly when it starts with the printed form of at most 500
      ids; trailing bytes are ignored. */
  lemma AcksExact(data: seq<byte>, ids: seq<i64>)
    ensures ParseMessage(data).Got? && ParseMessage(data).value == Some(MsgsAck(ids))
            <==> |ids| <= MAX_ACKS && AcksBytes(ids) <= data
  {
    hide ReadI64, ReadI32, I64Bytes, I32Bytes, U32Bytes, I64sBytes, ReadI64s, CastI32, ReadU32;
    if |ids| <= MAX_ACKS && AcksBytes(ids) <= data {
      var rest := data[|AcksBytes(ids)|..];
      SmallCast(|ids|);
      var s2 := I64sBytes(ids) + rest;
      var s1 := I32Bytes(|ids|) + s2;
      var s := U32Bytes(VECTOR) + s1;
      assert data == AcksBytes(ids) + rest == U32Bytes(MSGS_ACK) + s;
      VectorWord();
      ParseAfterSignature(MSGS_ACK, s);
      ReadI32Exact(s, VECTOR, s1);
      ReadI32Exact(s1, |ids|, s2);
      ReadI64sExact(s2, |ids|, ids, rest);
    }
    if ParseMessage(data).Got? && ParseMessage(data).value == Some(MsgsAck(ids)) {
      SignatureOf(data);
      SignatureOfResult(data, MsgsAck(ids));
      var s := ReadU32(data).rest;
      var s1 := ReadI32(s).rest;
      var s2 := ReadI32(s1).rest;
      var count := ReadI32(s1).value;
      ReadI32Exact(s, VECTOR, s1);
      VectorWord();
      ReadI32Exact(s1, count, s2);
      ReadI64sExact(s2, count, ids, ReadI64s(s2, count).rest);
      SmallCast(|ids|);
      assert data == AcksBytes(ids) + ReadI64s(s2, count).rest;
    }
  }

  lemma VectorWord()
    ensures I32Bytes(VECTOR) == U32Bytes(VECTOR)
  {
  }

  /** The same for containers: fewer than 2^31 messages of at most 16 MiB each. */
  lemma ContainerExact(data: seq<byte>, ms: seq<SubMessage>)
    ensures ParseMessage(data).Got? && ParseMessage(data).value == Some(Container(ms))
            <==> |ms| < 0x8000_0000 && BodiesFit(ms, MAX_BODY) && ContainerBytes(ms) <= data
  {
    hide ReadI32, I32Bytes, U32Bytes, SubMessagesBytes, ReadSubMessages, CastI32, ReadU32;
    if |ms| < 0x8000_0000 && BodiesFit(ms, MAX_BODY) && ContainerBytes(ms) <= data {
      var rest := data[|ContainerBytes(ms)|..];
      SmallCast(|ms|);
      var s1 := SubMessagesBytes(ms) + rest;
      var s := I32Bytes(|ms|) + s1;
      assert data == ContainerBytes(ms) + rest == U32Bytes(CONTAINER) + s;
      ParseAfterSignature(CONTAINER, s);
      ReadI32Exact(s, |ms|, s1);
      BodiesInside(ms);
      SubMessagesExact(s1, |ms|, |data|, ms, rest);
    }
    if ParseMessage(data).Got? && ParseMessage(data).value == Some(Container(ms)) {
      SignatureOf(data);
      SignatureOfResult(data, Container(ms));
      var s := ReadU32(data).rest;
      var s1 := ReadI32(s).rest;
      var count := ReadI32(s).value;
      ReadI32Exact(s, count, s1);
      var rest := ReadSubMessages(s1, count, |data|).rest;
      SubMessagesExact(s1, count, |data|, ms, rest);
      SmallCast(|ms|);
      assert data == ContainerBytes(ms) + rest;
    }
  }

  lemma {:induction false} BodiesInside(ms: seq<SubMessage>)
    ensures forall k :: 0 <= k < |ms| ==> |ms[k].body| <= |SubMessagesBytes(ms)|
  {
    if ms != [] {
      BodiesInside(ms[1..]);
      forall k | 0 <= k < |ms|
        ensures |ms[k].body| <= |SubMessagesBytes(ms)|
      {
        if k > 0 {
          assert ms[k] == ms[1..][k - 1];
        }
      }
    }
  }

  lemma PingExact(data: seq<byte>, pingId: i64)
    ensures ParseMessage(data).Got? && ParseMessage(data).value == Some(Ping(pingId)) <==> PingBytes(pingId) <= data
  {
    hide ReadI64, I64Bytes, U32Bytes, ReadU32;
    if PingBytes(pingId) <= data {
      var rest := data[|PingBytes(pingId)|..];
      var s := I64Bytes(pingId) + rest;
      assert data == U32Bytes(PING) + s;
      ParseAfterSignature(PING, s);
      ReadI64Exact(s, pingId, rest);
    }
    if ParseMessage(data).Got? && ParseMessage(data).value == Some(Ping(pingId)) {
      SignatureOf(data);
      SignatureOfResult(data, Ping(pingId));
      var s := ReadU32(data).rest;
      ReadI64Exact(s, pingId, ReadI64(s).rest);
      assert data == PingBytes(pingId) + ReadI64(s).rest;
    }
  }

  lemma PongExact(data: seq<byte>, messageId: i64, pingId: i64)
    ensures ParseMessage(data).Got? && ParseMessage(data).value == Some(Pong(messageId, pingId))
            <==> PongBytes(messageId, pingId) <= data
  {
    hide ReadI64, I64Bytes, U32Bytes, ReadU32;
    var m := Pong(messageId, pingId);
    if PongBytes(messageId, pingId) <= data {
      var rest := data[|PongBytes(messageId, pingId)|..];
      var s1 := I64Bytes(pingId) + rest;
      var s := I64Bytes(messageId) + s1;
      assert data == U32Bytes(PONG) + s;
      ParseAfterSignature(PONG, s);
      ReadI64Exact(s, messageId, s1);
      ReadI64Exact(s1, pingId, rest);
    }
    if ParseMessage(data).Got? && ParseMessage(data).value == Some(m) {
      SignatureOf(data);
      SignatureOfResult(data, m);
      var s := ReadU32(data).rest;
      var s1 := ReadI64(s).rest;
      ReadI64Exact(s, messageId, s1);
      ReadI64Exact(s1, pingId, ReadI64(s1).rest);
      assert data == PongBytes(messageId, pingId) + ReadI64(s1).rest;
    }
  }
}
