/** The parser and the printers in the form the repository gives them: a moving cursor, counted loops, and buffers
    filled by successive writes. Each is proved against the functions of InternalParser. */
module InternalParserMethods {
  import opened Bytes
  import opened Options
  import opened Tl
  import opened InputStreams
  import opened OutputStreams
  import opened InternalParser

  // ---------- reading ----------

  /** What remains to be parsed, put behind what has been. */
  function Prepend<T>(xs: seq<T>, r: Read<seq<T>>): Read<seq<T>> {
    match r
    case Got(ys, rest) => Got(xs + ys, rest)
    case Thrown(rest) => Thrown(rest)
  }

  lemma PrependLaws<T>(xs: seq<T>, x: T, r: Read<seq<T>>)
    ensures Prepend([], r) == r
    ensures Prepend(xs, Prepend([x], r)) == Prepend(xs + [x], r)
  {
    if r.Got? {
      assert [] + r.value == r.value;
      assert xs + ([x] + r.value) == (xs + [x]) + r.value;
    }
  }

  method ReadIds(stream: InputStream, count: nat) returns (r: Read<seq<i64>>)
    requires stream.Valid()
    modifies stream
    ensures stream.Valid() && r == ReadI64s(old(stream.Remaining()), count) && stream.Remaining() == r.rest
  {
    hide ReadI64;
    var ids: seq<i64> := [];
    var i := 0;
    PrependLaws(ids, 0, ReadI64s(stream.Remaining(), count));
    while i < count
      invariant 0 <= i <= count && stream.Valid()
      invariant ReadI64s(old(stream.Remaining()), count) == Prepend(ids, ReadI64s(stream.Remaining(), count - i))
    {
      var x :- stream.ReadInt64();
      PrependLaws(ids, x.0, ReadI64s(stream.Remaining(), count - i - 1));
      ids := ids + [x.0];
      i := i + 1;
    }
    assert ids + [] == ids;
    r := Got(ids, stream.Remaining());
  }

  method ParseAcksFrom(stream: InputStream) returns (r: Parse)
    requires stream.Valid()
    modifies stream
    ensures stream.Valid() && r == ParseAcks(old(stream.Remaining())) && stream.Remaining() == r.rest
  {
    hide ReadI32, ReadI64s;
    var vectorSignature :- stream.ReadInt32();
    if vectorSignature.0 != VECTOR {
      return Got(None, stream.Remaining());
    }
    var count :- stream.ReadInt32();
    if count.0 < 0 || count.0 > MAX_ACKS {
      return Got(None, stream.Remaining());
    }
    var ids :- ReadIds(stream, count.0);
    r := Got(Some(MsgsAck(ids.0)), stream.Remaining());
  }

  function PrependSubMessages(ms: seq<SubMessage>, r: Read<Option<seq<SubMessage>>>): Read<Option<seq<SubMessage>>> {
    match r
    case Got(Some(xs), rest) => Got(Some(ms + xs), rest)
    case Got(None, rest) => Got(None, rest)
    case Thrown(rest) => Thrown(rest)
  }

  lemma PrependSubMessageLaws(ms: seq<SubMessage>, m: SubMessage, r: Read<Option<seq<SubMessage>>>)
    ensures PrependSubMessages([], r) == r
    ensures PrependSubMessages(ms, PrependSubMessages([m], r)) == PrependSubMessages(ms + [m], r)
  {
    if r.Got? && r.value.Some? {
      assert [] + r.value.value == r.value.value;
      assert ms + ([m] + r.value.value) == (ms + [m]) + r.value.value;
    }
  }

  method ReadOneSubMessage(stream: InputStream, totalDataSize: nat) returns (r: Read<Option<SubMessage>>)
    requires stream.Valid()
    modifies stream
    ensures stream.Valid() && stream.Remaining() == r.rest
    ensures r == ReadSubMessage(old(stream.Remaining()), totalDataSize)
  {
    hide ReadI64, ReadI32, Tl.ReadData;
    var messageId :- stream.ReadInt64();
    var seqNo :- stream.ReadInt32();
    var length :- stream.ReadInt32();
    if length.0 < 0 || length.0 > MAX_BODY || length.0 > totalDataSize {
      return Got(None, stream.Remaining());
    }
    var body :- stream.ReadData(length.0);
    r := Got(Some(SubMessage(messageId.0, seqNo.0, body.0)), stream.Remaining());
  }

  method ReadAllSubMessages(stream: InputStream, count: nat, totalDataSize: nat)
    returns (r: Read<Option<seq<SubMessage>>>)
    requires stream.Valid()
    modifies stream
    ensures stream.Valid() && stream.Remaining() == r.rest
    ensures r == ReadSubMessages(old(stream.Remaining()), count, totalDataSize)
  {
    hide ReadSubMessage;
    var messages: seq<SubMessage> := [];
    var i := 0;
    PrependSubMessageLaws(messages, SubMessage(0, 0, []), ReadSubMessages(stream.Remaining(), count, totalDataSize));
    while i < count
      invariant 0 <= i <= count && stream.Valid()
      invariant ReadSubMessages(old(stream.Remaining()), count, totalDataSize)
                == PrependSubMessages(messages, ReadSubMessages(stream.Remaining(), count - i, totalDataSize))
    {
      var m :- ReadOneSubMessage(stream, totalDataSize);
      if m.0 == None {
        return Got(None, stream.Remaining());
      }
      PrependSubMessageLaws(messages, m.0.value, ReadSubMessages(stream.Remaining(), count - i - 1, totalDataSize));
      messages := messages + [m.0.value];
      i := i + 1;
    }
    assert messages + [] == messages;
    r := Got(Some(messages), stream.Remaining());
  }

  method ParseContainerFrom(stream: InputStream, totalDataSize: nat) returns (r: Parse)
    requires stream.Valid()
    modifies stream
    ensures stream.Valid() && stream.Remaining() == r.rest
    ensures r == ParseContainer(old(stream.Remaining()), totalDataSize)
  {
    hide ReadI32, ReadSubMessages;
    var count :- stream.ReadInt32();
    if count.0 < 0 {
      return Got(None, stream.Remaining());
    }
    var messages :- ReadAllSubMessages(stream, count.0, totalDataSize);
    r := Got(if messages.0 == None then None else Some(Container(messages.0.value)), stream.Remaining());
  }

  method ReadAllSalts(stream: InputStream, count: nat) returns (r: Read<seq<FutureSalt>>)
    requires stream.Valid()
    modifies stream
    ensures stream.Valid() && r == ReadSalts(old(stream.Remaining()), count) && stream.Remaining() == r.rest
  {
    hide ReadI64, ReadI32;
    var salts: seq<FutureSalt> := [];
    var i := 0;
    PrependLaws(salts, FutureSalt(0, 0, 0), ReadSalts(stream.Remaining(), count));
    while i < count
      invariant 0 <= i <= count && stream.Valid()
      invariant ReadSalts(old(stream.Remaining()), count) == Prepend(salts, ReadSalts(stream.Remaining(), count - i))
    {
      var since :- stream.ReadInt32();
      var until :- stream.ReadInt32();
      var salt :- stream.ReadInt64();
      PrependLaws(salts, FutureSalt(since.0, until.0, salt.0), ReadSalts(stream.Remaining(), count - i - 1));
      salts := salts + [FutureSalt(since.0, until.0, salt.0)];
      i := i + 1;
    }
    assert salts + [] == salts;
    r := Got(salts, stream.Remaining());
  }

  method ParseSaltsFrom(stream: InputStream) returns (r: Parse)
    requires stream.Valid()
    modifies stream
    ensures stream.Valid() && r == ParseSalts(old(stream.Remaining())) && stream.Remaining() == r.rest
  {
    hide ReadI32, ReadI64, ReadSalts;
    var requestMessageId :- stream.ReadInt64();
    var now :- stream.ReadInt32();
    var count :- stream.ReadInt32();
    if count.0 < 0 || count.0 > MAX_SALTS {
      return Got(None, stream.Remaining());
    }
    var salts :- ReadAllSalts(stream, count.0);
    r := Got(Some(FutureSalts(requestMessageId.0, now.0, salts.0)), stream.Remaining());
  }

  method ParseHandshakeFrom(stream: InputStream, signature: u32) returns (r: Parse)
    requires stream.Valid()
    modifies stream
    ensures stream.Valid() && r == ParseHandshake(signature, old(stream.Remaining())) && stream.Remaining() == r.rest
  {
    hide ReadI32, ReadU64, Tl.ReadData, Tl.ReadBytes;
    var nonce :- stream.ReadData(16);
    var serverNonce :- stream.ReadData(16);
    if signature == RES_PQ {
      var pq :- stream.ReadBytes();
      var fingerprint :- stream.ReadUInt64();
      return Got(Some(ResPq(nonce.0, serverNonce.0, pq.0, fingerprint.0)), stream.Remaining());
    } else if signature == SERVER_DH_OK {
      var encrypted :- stream.ReadBytes();
      return Got(Some(ServerDhParamsOk(nonce.0, serverNonce.0, encrypted.0)), stream.Remaining());
    } else if signature == SERVER_DH_INNER {
      var g :- stream.ReadInt32();
      var dhPrime :- stream.ReadBytes();
      var ga :- stream.ReadBytes();
      var serverTime :- stream.ReadInt32();
      return Got(Some(ServerDhInnerData(nonce.0, serverNonce.0, g.0, dhPrime.0, ga.0, serverTime.0)), stream.Remaining());
    }
    var hash :- stream.ReadData(16);
    var m :=
      if signature == SERVER_DH_FAIL then ServerDhParamsFail(nonce.0, serverNonce.0, hash.0)
      else if signature == DH_GEN_OK then DhGenOk(nonce.0, serverNonce.0, hash.0)
      else if signature == DH_GEN_RETRY then DhGenRetry(nonce.0, serverNonce.0, hash.0)
      else DhGenFail(nonce.0, serverNonce.0, hash.0);
    r := Got(Some(m), stream.Remaining());
  }

  method ParseBadMsgFrom(stream: InputStream, withSalt: bool) returns (r: Parse)
    requires stream.Valid()
    modifies stream
    ensures stream.Valid() && r == ParseBadMsg(old(stream.Remaining()), withSalt) && stream.Remaining() == r.rest
  {
    hide ReadI32, ReadI64;
    var badMessageId :- stream.ReadInt64();
    var badSeqNo :- stream.ReadInt32();
    var errorCode :- stream.ReadInt32();
    if withSalt {
      var salt :- stream.ReadInt64();
      return Got(Some(BadServerSalt(badMessageId.0, badSeqNo.0, errorCode.0, salt.0)), stream.Remaining());
    }
    r := Got(Some(BadMsgNotification(badMessageId.0, badSeqNo.0, errorCode.0)), stream.Remaining());
  }

  /** Ping, pong and the two RPC messages. */
  method ParseShortFrom(stream: InputStream, signature: u32) returns (r: Parse)
    requires stream.Valid() && signature in {PING, PONG, RPC_RESULT, RPC_ERROR}
    modifies stream
    ensures stream.Valid() && stream.Remaining() == r.rest
    ensures var s := old(stream.Remaining());
            r == if signature == PING then ParsePing(s)
                 else if signature == PONG then ParsePong(s)
                 else if signature == RPC_RESULT then ParseRpcResult(s)
                 else ParseRpcError(s)
  {
    hide ReadI32, ReadI64, Tl.ReadBytes, ReadRemaining;
    if signature == RPC_ERROR {
      var code :- stream.ReadInt32();
      var description :- stream.ReadBytes();
      return Got(Some(RpcError(code.0, description.0)), stream.Remaining());
    }
    var first :- stream.ReadInt64();
    if signature == PING {
      return Got(Some(Ping(first.0)), stream.Remaining());
    } else if signature == PONG {
      var pingId :- stream.ReadInt64();
      return Got(Some(Pong(first.0, pingId.0)), stream.Remaining());
    }
    var responseData := stream.ReadRemainingData();
    r := Got(Some(RpcResult(first.0, responseData.value)), stream.Remaining());
  }

  /** InternalParser::parseMessage */
  method Parse(data: seq<byte>) returns (r: InternalParser.Parse)
    ensures r == ParseMessage(data)
  {
    hide ReadU32, ParseHandshake, ParsePing, ParsePong, ParseRpcResult, ParseRpcError, ParseAcks, ParseContainer,
         ParseSalts, ParseBadMsg;
    var stream := new InputStream(data);
    var totalDataSize := |data|;
    var signature :- stream.ReadUInt32();
    if IsHandshake(signature.0) {
      r := ParseHandshakeFrom(stream, signature.0);
    } else if signature.0 == PING || signature.0 == PONG || signature.0 == RPC_RESULT || signature.0 == RPC_ERROR {
      r := ParseShortFrom(stream, signature.0);
    } else if signature.0 == MSGS_ACK {
      r := ParseAcksFrom(stream);
    } else if signature.0 == CONTAINER {
      r := ParseContainerFrom(stream, totalDataSize);
    } else if signature.0 == FUTURE_SALTS {
      r := ParseSaltsFrom(stream);
    } else if signature.0 == BAD_MSG || signature.0 == BAD_SALT {
      r := ParseBadMsgFrom(stream, signature.0 == BAD_SALT);
    } else {
      r := Got(None, stream.Remaining());
    }
  }

  // ---------- writing ----------

  /** The acknowledgement message of transportReadyForTransaction. */
  method GenerateAcks(ids: seq<i64>) returns (data: seq<byte>)
    ensures data == AcksBytes(ids)
  {
    hide U32Bytes, I32Bytes, I64Bytes, CastI32, I64sBytes;
    var stream := new OutputStream();
    stream.WriteUInt32(MSGS_ACK);
    stream.WriteUInt32(VECTOR);
    stream.WriteInt32(CastI32(|ids|));
    ghost var header := stream.Contents();
    assert header == U32Bytes(MSGS_ACK) + (U32Bytes(VECTOR) + I32Bytes(CastI32(|ids|)));
    var i := 0;
    IdsSplit(ids, 0);
    while i < |ids|
      invariant 0 <= i <= |ids| && stream.Valid() && fresh(stream) && fresh(stream.bytes)
      invariant stream.Contents() == header + I64sBytes(ids[..i])
    {
      stream.WriteInt64(ids[i]);
      IdsSplit(ids, i);
      i := i + 1;
    }
    assert ids[..i] == ids;
    data := stream.Contents();
    Regroup(U32Bytes(MSGS_ACK), U32Bytes(VECTOR) + I32Bytes(CastI32(|ids|)), I64sBytes(ids));
    Regroup(U32Bytes(VECTOR), I32Bytes(CastI32(|ids|)), I64sBytes(ids));
  }

  lemma IdsSplit(ids: seq<i64>, i: nat)
    requires i <= |ids|
    ensures I64sBytes(ids[..0]) == []
    ensures i < |ids| ==> I64sBytes(ids[..i + 1]) == I64sBytes(ids[..i]) + I64Bytes(ids[i])
  {
    if i < |ids| {
      IdsSnoc(ids[..i], ids[i]);
      assert ids[..i] + [ids[i]] == ids[..i + 1];
    }
  }

  lemma {:induction false} IdsSnoc(ids: seq<i64>, x: i64)
    ensures I64sBytes(ids + [x]) == I64sBytes(ids) + I64Bytes(x)
  {
    hide I64Bytes;
    if ids == [] {
      assert [x][1..] == [];
    } else {
      IdsSnoc(ids[1..], x);
      assert (ids + [x])[1..] == ids[1..] + [x];
    }
  }

  /** The body of dataForEncryptedContainer up to containerData. */
  method GenerateContainer(ms: seq<SubMessage>) returns (data: seq<byte>)
    ensures data == ContainerBytes(ms)
  {
    hide U32Bytes, I32Bytes, CastI32, SubMessagesBytes, SubMessageBytes;
    var stream := new OutputStream();
    stream.WriteUInt32(CONTAINER);
    stream.WriteInt32(CastI32(|ms|));
    ghost var header := stream.Contents();
    assert header == U32Bytes(CONTAINER) + I32Bytes(CastI32(|ms|));
    var i := 0;
    SubMessagesSplit(ms, 0);
    while i < |ms|
      invariant 0 <= i <= |ms| && stream.Valid() && fresh(stream) && fresh(stream.bytes)
      invariant stream.Contents() == header + SubMessagesBytes(ms[..i])
    {
      WriteSubMessage(stream, ms[i]);
      SubMessagesSplit(ms, i);
      i := i + 1;
    }
    assert ms[..i] == ms;
    data := stream.Contents();
    Regroup(U32Bytes(CONTAINER), I32Bytes(CastI32(|ms|)), SubMessagesBytes(ms));
  }

  lemma SubMessagesSplit(ms: seq<SubMessage>, i: nat)
    requires i <= |ms|
    ensures SubMessagesBytes(ms[..0]) == []
    ensures i < |ms| ==> SubMessagesBytes(ms[..i + 1]) == SubMessagesBytes(ms[..i]) + SubMessageBytes(ms[i])
  {
    if i < |ms| {
      SubMessagesSnoc(ms[..i], ms[i]);
      assert ms[..i] + [ms[i]] == ms[..i + 1];
    }
  }

  method WriteSubMessage(stream: OutputStream, m: SubMessage)
    requires stream.Valid()
    modifies stream, stream.bytes
    ensures stream.Valid() && (stream.bytes == old(stream.bytes) || fresh(stream.bytes))
    ensures stream.Contents() == old(stream.Contents()) + SubMessageBytes(m)
  {
    hide U32Bytes, I32Bytes, I64Bytes, CastI32;
    stream.WriteInt64(m.messageId);
    stream.WriteInt32(m.seqNo);
    stream.WriteInt32(CastI32(|m.body|));
    stream.WriteData(m.body);
    assert stream.Contents() == old(stream.Contents()) + SubMessageBytes(m);
  }

  lemma {:induction false} SubMessagesSnoc(ms: seq<SubMessage>, m: SubMessage)
    ensures SubMessagesBytes(ms + [m]) == SubMessagesBytes(ms) + SubMessageBytes(m)
  {
    hide SubMessageBytes;
    if ms == [] {
      assert [m][1..] == [];
    } else {
      SubMessagesSnoc(ms[1..], m);
      assert (ms + [m])[1..] == ms[1..] + [m];
    }
  }
}
