/** parseIncomingMessages and parseMessage of gp/proto/Proto.cpp, and the end-to-end results they give with the
    envelope: what one side seals, the other side reads back as the same messages. */
module IncomingMessages {
  import opened Bytes
  import opened Options
  import opened Tl
  import opened InputStreams
  import OutputStreams
  import opened Sequences
  import opened InternalParser
  import opened Envelope
  import opened MessageForms

  /** Code that is not part of this model: zlib inflation (None is its null result) and the application's parser. */
  datatype Environment = Environment(gunzip: seq<byte> -> Option<seq<byte>>, supported: seq<byte> -> Option<seq<byte>>)

  datatype Payload = Service(message: Message) | Application(data: seq<byte>)

  datatype Incoming = Incoming(messageId: i64, seqNo: i32, timestamp: i32, length: int, body: Payload)

  /** A value, a stream exception, or a null dereference (a packed body that cannot be inflated). */
  datatype Outcome<+T> = Value(value: T) | Raised | Fault {
    predicate IsFailure() { !Value? }
    function PropagateFailure<U>(): Outcome<U>
      requires !Value?
    {
      if Raised? then Raised else Fault
    }
    function Extract(): T
      requires Value?
    {
      value
    }
  }

  datatype Decoded = Messages(messages: seq<Incoming>) | ParseError | Undefined

  function FromRead<T>(r: Read<T>): Outcome<T> {
    if r.Got? then Value(r.value) else Raised
  }

  /** InternalParser::unwrapMessage; None is the null result. */
  function Unwrap(env: Environment, data: seq<byte>): Option<seq<byte>> {
    if |data| < 4 || data[..4] != U32Bytes(GZIP_PACKED) then Some(data) else
      var packed := Tl.ReadBytes(data[4..]);
      if packed.Thrown? then None else env.gunzip(packed.value)
  }

  /** Proto::parseMessage */
  function ParseAny(env: Environment, data: seq<byte>): Outcome<Option<Payload>> {
    var unwrapped := Unwrap(env, data);
    if unwrapped == None then Fault else
      var internal :- FromRead(ParseMessage(unwrapped.value));
      if internal.Some? then Value(Some(Service(internal.value))) else
        match env.supported(unwrapped.value)
        case None => Value(None)
        case Some(app) => Value(Some(Application(app)))
  }

  /** The parts of a container; those no parser recognises are dropped. */
  function ParseParts(env: Environment, parts: seq<SubMessage>, timestamp: i32): Outcome<seq<Incoming>> {
    if parts == [] then Value([]) else
      var first :- ParseAny(env, parts[0].body);
      var others :- ParseParts(env, parts[1..], timestamp);
      Value((if first.Some? then [PartMessage(parts[0], timestamp, first.value)] else []) + others)
  }

  function PartMessage(part: SubMessage, timestamp: i32, body: Payload): Incoming {
    Incoming(part.messageId, part.seqNo, timestamp, |part.body|, body)
  }

  /** (int32_t)(messageId / 4294967296), truncating toward zero. */
  function Timestamp(messageId: i64): i32 {
    var m: int := messageId;
    if m >= 0 then m / 0x1_0000_0000 else -((-m) / 0x1_0000_0000)
  }

  function ParseTop(env: Environment, messageId: i64, seqNo: i32, size: i32, data: seq<byte>): Outcome<Option<seq<Incoming>>> {
    var top :- ParseAny(env, data);
    if top == None then Value(None)
    else if top.value.Service? && top.value.message.Container? then
      var parts :- ParseParts(env, top.value.message.messages, Timestamp(messageId));
      Value(Some(parts))
    else
      Value(Some([Incoming(messageId, seqNo, Timestamp(messageId), size, top.value)]))
  }

  function ParseAuthorized(env: Environment, sessionId: i64, data: seq<byte>): Outcome<Option<seq<Incoming>>> {
    var salt :- FromRead(ReadI64(data));
    var s1 := ReadI64(data).rest;
    var embeddedSession :- FromRead(ReadI64(s1));
    var s2 := ReadI64(s1).rest;
    if embeddedSession != sessionId then Value(None) else
      var messageId :- FromRead(ReadI64(s2));
      var s3 := ReadI64(s2).rest;
      var seqNo :- FromRead(ReadI32(s3));
      var s4 := ReadI32(s3).rest;
      var size :- FromRead(ReadI32(s4));
      ParseTop(env, messageId, seqNo, size, ReadRemaining(ReadI32(s4).rest).value)
  }

  function ParseUnauthorized(env: Environment, data: seq<byte>): Outcome<Option<seq<Incoming>>> {
    var authKeyId :- FromRead(ReadI64(data));
    var s1 := ReadI64(data).rest;
    if authKeyId != 0 then Value(None) else
      var messageId :- FromRead(ReadI64(s1));
      var s2 := ReadI64(s1).rest;
      var size :- FromRead(ReadI32(s2));
      if size < 4 then Value(None) else
        ParseTop(env, messageId, 0, size, ReadRemaining(ReadI32(s2).rest).value)
  }

  /** A stream exception is caught and leaves no messages and no parse error. */
  function Decode(r: Outcome<Option<seq<Incoming>>>): Decoded {
    match r
    case Raised => Messages([])
    case Fault => Undefined
    case Value(None) => ParseError
    case Value(Some(messages)) => Messages(messages)
  }

  function ParseIncoming(env: Environment, authorized: bool, sessionId: i64, data: seq<byte>): Decoded {
    Decode(if authorized then ParseAuthorized(env, sessionId, data) else ParseUnauthorized(env, data))
  }

  // ---------- the methods ----------

  method ParseAnyMessage(env: Environment, data: seq<byte>) returns (r: Outcome<Option<Payload>>)
    ensures r == ParseAny(env, data)
  {
    hide ParseMessage;
    var unwrapped := Unwrap(env, data);
    if unwrapped == None {
      return Fault;
    }
    var internal := InternalParserMethods.Parse(unwrapped.value);
    if internal.Thrown? {
      return Raised;
    }
    if internal.value.Some? {
      return Value(Some(Service(internal.value.value)));
    }
    match env.supported(unwrapped.value) {
      case None => r := Value(None);
      case Some(app) => r := Value(Some(Application(app)));
    }
  }

  function PrependParts(messages: seq<Incoming>, r: Outcome<seq<Incoming>>): Outcome<seq<Incoming>> {
    match r
    case Value(xs) => Value(messages + xs)
    case Raised => Raised
    case Fault => Fault
  }

  method ParseContainerParts(env: Environment, parts: seq<SubMessage>, timestamp: i32)
    returns (r: Outcome<seq<Incoming>>)
    ensures r == ParseParts(env, parts, timestamp)
  {
    hide ParseAny;
    var messages: seq<Incoming> := [];
    var i := 0;
    assert parts[0..] == parts;
    assert PrependParts([], ParseParts(env, parts, timestamp)) == ParseParts(env, parts, timestamp) by {
      var rest := ParseParts(env, parts, timestamp);
      if rest.Value? {
        assert [] + rest.value == rest.value;
      }
    }
    while i < |parts|
      invariant 0 <= i <= |parts|
      invariant ParseParts(env, parts, timestamp) == PrependParts(messages, ParseParts(env, parts[i..], timestamp))
    {
      var body := ParseAnyMessage(env, parts[i].body);
      assert parts[i..][1..] == parts[i + 1..];
      if body.Raised? {
        return Raised;
      }
      if body.Fault? {
        return Fault;
      }
      ghost var rest := ParseParts(env, parts[i + 1..], timestamp);
      if body.value.Some? {
        ghost var message := PartMessage(parts[i], timestamp, body.value.value);
        if rest.Value? {
          assert messages + ([message] + rest.value) == (messages + [message]) + rest.value;
        }
        messages := messages + [PartMessage(parts[i], timestamp, body.value.value)];
      } else if rest.Value? {
        assert [] + rest.value == rest.value;
      }
      i := i + 1;
    }
    assert messages + [] == messages;
    r := Value(messages);
  }

  method ParseTopMessage(env: Environment, messageId: i64, seqNo: i32, size: i32, data: seq<byte>)
    returns (r: Outcome<Option<seq<Incoming>>>)
    ensures r == ParseTop(env, messageId, seqNo, size, data)
  {
    hide ParseAny, ParseParts;
    var top :- ParseAnyMessage(env, data);
    if top == None {
      return Value(None);
    }
    var timestamp := Timestamp(messageId);
    if top.value.Service? && top.value.message.Container? {
      var parts :- ParseContainerParts(env, top.value.message.messages, timestamp);
      return Value(Some(parts));
    }
    r := Value(Some([Incoming(messageId, seqNo, timestamp, size, top.value)]));
  }

  /** Proto::parseIncomingMessages */
  method ParseIncomingMessages(env: Environment, useUnauthorizedMode: bool, sessionId: i64, data: seq<byte>)
    returns (r: Decoded)
    ensures r == ParseIncoming(env, !useUnauthorizedMode, sessionId, data)
  {
    hide ReadI64, ReadI32, ParseTop;
    var stream := new InputStream(data);
    var messageId: Read<i64>, seqNo: i32 := Thrown([]), 0;
    if useUnauthorizedMode {
      var authKeyId := stream.ReadInt64();
      if authKeyId.Thrown? {
        return Messages([]);
      }
      if authKeyId.value != 0 {
        return ParseError;
      }
      messageId := stream.ReadInt64();
      if messageId.Thrown? {
        return Messages([]);
      }
    } else {
      var salt := stream.ReadInt64();
      if salt.Thrown? {
        return Messages([]);
      }
      var embeddedSession := stream.ReadInt64();
      if embeddedSession.Thrown? {
        return Messages([]);
      }
      if embeddedSession.value != sessionId {
        return ParseError;
      }
      messageId := stream.ReadInt64();
      if messageId.Thrown? {
        return Messages([]);
      }
      var readSeqNo := stream.ReadInt32();
      if readSeqNo.Thrown? {
        return Messages([]);
      }
      seqNo := readSeqNo.value;
    }
    var size := stream.ReadInt32();
    if size.Thrown? {
      return Messages([]);
    }
    if useUnauthorizedMode && size.value < 4 {
      return ParseError;
    }
    var topData := stream.ReadRemainingData();
    var parsed := ParseTopMessage(env, messageId.value, seqNo, size.value, topData.value);
    r := Decode(parsed);
  }

  // ---------- end to end ----------

  /** The reader recovers every header field of a plaintext and hands the body, with its padding, to the parser. */
  lemma HeaderReadBack(env: Environment, salt: i64, sessionId: i64, messageId: i64, seqNo: i32, body: seq<byte>,
                       padding: seq<byte>)
    requires |body| + |padding| <= INT32_MAX
    ensures ParseAuthorized(env, sessionId, Plaintext(salt, sessionId, messageId, seqNo, body) + padding)
            == ParseTop(env, messageId, seqNo, |body|, body + padding)
  {
    hide ReadI64, ReadI32, I64Bytes, I32Bytes, CastI32, ParseTop;
    SmallCast(|body|);
    var s5 := body + padding;
    var s4 := I32Bytes(|body|) + s5;
    var s3 := I32Bytes(seqNo) + s4;
    var s2 := I64Bytes(messageId) + s3;
    var s1 := I64Bytes(sessionId) + s2;
    var s := Plaintext(salt, sessionId, messageId, seqNo, body) + padding;
    assert s == I64Bytes(salt) + s1;
    ReadI64Exact(s, salt, s1);
    ReadI64Exact(s1, sessionId, s2);
    ReadI64Exact(s2, messageId, s3);
    ReadI32Exact(s3, seqNo, s4);
    ReadI32Exact(s4, |body|, s5);
    assert s5[..|s5|] == s5;
  }

  /** A message of another session is a parse error, whatever it contains. */
  lemma ForeignSessionIsRefused(env: Environment, expected: i64, salt: i64, sessionId: i64, messageId: i64, seqNo: i32,
                                body: seq<byte>, padding: seq<byte>)
    requires expected != sessionId
    ensures ParseIncoming(env, true, expected, Plaintext(salt, sessionId, messageId, seqNo, body) + padding) == ParseError
  {
    hide ReadI64, ReadI32, I64Bytes, I32Bytes, CastI32, ParseTop;
    var s2 := I64Bytes(messageId) + (I32Bytes(seqNo) + (I32Bytes(CastI32(|body|)) + (body + padding)));
    var s1 := I64Bytes(sessionId) + s2;
    var s := Plaintext(salt, sessionId, messageId, seqNo, body) + padding;
    assert s == I64Bytes(salt) + s1;
    ReadI64Exact(s, salt, s1);
    ReadI64Exact(s1, sessionId, s2);
  }

  /** So are, in plain mode, bytes that name a key. */
  lemma PlainModeKnowsNoKey(env: Environment, sessionId: i64, keyId: i64, rest: seq<byte>)
    requires keyId != 0
    ensures ParseIncoming(env, false, sessionId, I64Bytes(keyId) + rest) == ParseError
  {
    hide ReadI64, ReadI32, I64Bytes, ParseTop;
    ReadI64Exact(I64Bytes(keyId) + rest, keyId, rest);
  }

  /** A body that starts with the print of a service message is not unwrapped as gzip and parses as that message. */
  lemma PrintedBody(env: Environment, data: seq<byte>, m: Message)
    requires ParseMessage(data).Got? && ParseMessage(data).value == Some(m)
    requires |data| >= 4 && data[..4] != U32Bytes(GZIP_PACKED)
    ensures ParseAny(env, data) == Value(Some(Service(m)))
  {
    hide ParseMessage;
  }

  lemma WordsDiffer(x: u32, y: u32)
    requires x != y
    ensures U32Bytes(x) != U32Bytes(y)
  {
    Decode32(x);
    Decode32(y);
  }

  // ---------- the parts of a container ----------

  /** The parts some parser recognises, in order. */
  function Recognised(env: Environment, parts: seq<SubMessage>): seq<SubMessage> {
    if parts == [] then [] else
      var first := ParseAny(env, parts[0].body);
      (if first.Value? && first.value.Some? then [parts[0]] else []) + Recognised(env, parts[1..])
  }

  ghost predicate AllReadable(env: Environment, parts: seq<SubMessage>) {
    forall k :: 0 <= k < |parts| ==> ParseAny(env, parts[k].body).Value?
  }

  /** The second the message id was issued in, truncated toward zero. */
  ghost predicate SecondOf(messageId: i64, second: i32) {
    var r := messageId - second * 0x1_0000_0000;
    if messageId >= 0 then 0 <= r < 0x1_0000_0000 else -0x1_0000_0000 < r <= 0
  }

  lemma TimestampIsSecond(messageId: i64)
    ensures SecondOf(messageId, Timestamp(messageId))
  {
  }

  /** The messages are the parts, one by one: id, sequence number, size and body of each. */
  ghost predicate Received(env: Environment, messages: seq<Incoming>, parts: seq<SubMessage>, timestamp: i32) {
    |messages| == |parts|
    && forall k :: 0 <= k < |messages| ==>
         && messages[k].messageId == parts[k].messageId
         && messages[k].seqNo == parts[k].seqNo
         && messages[k].length == |parts[k].body|
         && messages[k].timestamp == timestamp
         && ParseAny(env, parts[k].body) == Value(Some(messages[k].body))
  }

  /** The first part that cannot be read decides how the container fails. */
  ghost predicate FirstFailure(env: Environment, parts: seq<SubMessage>, k: nat) {
    k < |parts| && !ParseAny(env, parts[k].body).Value?
    && forall j :: 0 <= j < k ==> ParseAny(env, parts[j].body).Value?
  }

  lemma {:induction false} PartsExact(env: Environment, parts: seq<SubMessage>, timestamp: i32)
    ensures var r := ParseParts(env, parts, timestamp);
            && (r.Value? <==> AllReadable(env, parts))
            && (r.Value? ==> Received(env, r.value, Recognised(env, parts), timestamp))
            && forall k: nat :: FirstFailure(env, parts, k) ==>
                 (r.Raised? <==> ParseAny(env, parts[k].body).Raised?) && (r.Fault? <==> ParseAny(env, parts[k].body).Fault?)
  {
    hide ParseAny;
    if parts != [] {
      PartsExact(env, parts[1..], timestamp);
      AllReadableSplit(env, parts);
      forall k: nat | FirstFailure(env, parts, k) && k > 0
        ensures FirstFailure(env, parts[1..], k - 1)
      {
        assert forall j :: 0 <= j < |parts[1..]| ==> parts[1..][j] == parts[j + 1];
      }
    }
  }

  lemma AllReadableSplit(env: Environment, parts: seq<SubMessage>)
    requires parts != []
    ensures AllReadable(env, parts) <==> ParseAny(env, parts[0].body).Value? && AllReadable(env, parts[1..])
  {
    hide ParseAny;
    assert forall j :: 0 <= j < |parts[1..]| ==> parts[1..][j] == parts[j + 1];
  }

  lemma {:induction false} AllRecognised(env: Environment, parts: seq<SubMessage>)
    requires forall k :: 0 <= k < |parts| ==> ParseAny(env, parts[k].body).Value? && ParseAny(env, parts[k].body).value.Some?
    ensures Recognised(env, parts) == parts
  {
    hide ParseAny;
    if parts != [] {
      AllRecognised(env, parts[1..]);
    }
  }

  /** A sealed container is opened and decoded into exactly its parts: same ids, sequence numbers, sizes and bodies, in
      order, without those no parser recognises. One unreadable part loses them all, without a parse error. */
  lemma ContainerEndToEnd(p: Primitives, auth: AuthInfo, env: Environment, salt: i64, sessionId: i64, messageId: i64,
                          seqNo: i32, parts: seq<SubMessage>, random: seq<byte>)
    requires p.Valid() && |auth.authKey| >= 76 && |random| == 16
    requires |parts| < 0x8000_0000 && BodiesFit(parts, MAX_BODY)
    requires HEADER_SIZE + |ContainerBytes(parts)| <= MAX_PLAIN
    ensures var sealed := Seal(p, auth, Plaintext(salt, sessionId, messageId, seqNo, ContainerBytes(parts)), random);
            var received := Open(p, Some(auth), sealed);
            && received.Some?
            && var r := ParseIncoming(env, true, sessionId, received.value);
               && (AllReadable(env, parts) ==>
                     && r.Messages?
                     && exists second :: SecondOf(messageId, second)
                                         && Received(env, r.messages, Recognised(env, parts), second))
               && (forall k: nat :: FirstFailure(env, parts, k) ==>
                     r == if ParseAny(env, parts[k].body).Raised? then Messages([]) else Undefined)
  {
    hide Primitives.Valid, ParseMessage, Seal, Open, Plaintext, ContainerBytes, ParseAny, ParseTop, ParseIncoming,
      AllReadable, FirstFailure, Received, Recognised;
    var body := ContainerBytes(parts);
    ContainerPrefix(parts, []);
    var padding := SealedBody(p, auth, env, salt, sessionId, messageId, seqNo, body, random);
    ContainerTop(env, messageId, seqNo, parts, padding);
  }

  /** A sealed body is opened, and reaches the parser with its padding behind it. */
  lemma SealedBody(p: Primitives, auth: AuthInfo, env: Environment, salt: i64, sessionId: i64, messageId: i64,
                   seqNo: i32, body: seq<byte>, random: seq<byte>) returns (padding: seq<byte>)
    requires p.Valid() && |auth.authKey| >= 76 && |random| == 16
    requires 1 <= |body| && HEADER_SIZE + |body| <= MAX_PLAIN
    ensures var received := Open(p, Some(auth), Seal(p, auth, Plaintext(salt, sessionId, messageId, seqNo, body), random));
            && received.Some?
            && ParseIncoming(env, true, sessionId, received.value)
               == Decode(ParseTop(env, messageId, seqNo, |body|, body + padding))
  {
    hide Primitives.Valid, Seal, Open, Plaintext, ParseTop, ParseAuthorized;
    var plain := Plaintext(salt, sessionId, messageId, seqNo, body);
    padding := random[..BlockPad(|plain|)];
    OpenSealed(p, auth, salt, sessionId, messageId, seqNo, body, random);
    PaddedFits(|plain|);
    HeaderReadBack(env, salt, sessionId, messageId, seqNo, body, padding);
  }

  lemma ContainerTop(env: Environment, messageId: i64, seqNo: i32, parts: seq<SubMessage>, padding: seq<byte>)
    requires |parts| < 0x8000_0000 && BodiesFit(parts, MAX_BODY) && |ContainerBytes(parts)| < 0x8000_0000
    ensures 1 <= |ContainerBytes(parts)|
    ensures var r := Decode(ParseTop(env, messageId, seqNo, |ContainerBytes(parts)|, ContainerBytes(parts) + padding));
            && (AllReadable(env, parts) ==>
                  && r.Messages?
                  && exists second :: SecondOf(messageId, second)
                                      && Received(env, r.messages, Recognised(env, parts), second))
            && (forall k: nat :: FirstFailure(env, parts, k) ==>
                  r == if ParseAny(env, parts[k].body).Raised? then Messages([]) else Undefined)
  {
    hide ParseMessage, ContainerBytes, ParseAny, ParseParts, Received, Recognised, AllReadable;
    ContainerPrefix(parts, padding);
    ContainerExact(ContainerBytes(parts) + padding, parts);
    PrintedBody(env, ContainerBytes(parts) + padding, Container(parts));
    PartsExact(env, parts, Timestamp(messageId));
    TimestampIsSecond(messageId);
    forall k: nat | FirstFailure(env, parts, k)
      ensures !AllReadable(env, parts)
    {
      FailureIsUnreadable(env, parts, k);
    }
  }

  lemma FailureIsUnreadable(env: Environment, parts: seq<SubMessage>, k: nat)
    requires FirstFailure(env, parts, k)
    ensures !AllReadable(env, parts)
  {
    hide ParseAny;
  }

  /** Any service message but an RPC result or a container, in any of its forms, arrives as itself, with the id, sequence
      number and size it was sealed under. */
  lemma ServiceEndToEnd(p: Primitives, auth: AuthInfo, env: Environment, salt: i64, sessionId: i64, messageId: i64,
                        seqNo: i32, body: seq<byte>, m: Message, random: seq<byte>)
    requires p.Valid() && |auth.authKey| >= 76 && |random| == 16
    requires !m.RpcResult? && !m.Container? && SizesAllowed(m) && Matches(body, LayoutOf(m), [])
    requires HEADER_SIZE + |body| <= MAX_PLAIN
    ensures var sealed := Seal(p, auth, Plaintext(salt, sessionId, messageId, seqNo, body), random);
            var received := Open(p, Some(auth), sealed);
            && received.Some?
            && ParseIncoming(env, true, sessionId, received.value)
               == Messages([Incoming(messageId, seqNo, Timestamp(messageId), |body|, Service(m))])
  {
    hide Primitives.Valid, ParseMessage, Seal, Open, Plaintext, ParseAny, ParseTop, ParseIncoming, Matches, SizesAllowed;
    ServiceBody(env, body, m, []);
    var padding := SealedBody(p, auth, env, salt, sessionId, messageId, seqNo, body, random);
    ServiceBody(env, body, m, padding);
    TopIsService(env, messageId, seqNo, |body|, body + padding, m);
  }

  /** Every form of a service message, whatever is behind it, is read as that message. */
  lemma ServiceBody(env: Environment, body: seq<byte>, m: Message, more: seq<byte>)
    requires !m.RpcResult? && SizesAllowed(m) && Matches(body, LayoutOf(m), [])
    ensures ParseAny(env, body + more) == Value(Some(Service(m))) && |body| >= 4
  {
    hide ParseMessage, Matches, SizesAllowed, U32Bytes;
    ParsedWithMore(body, m, [], more);
    StartsWithSignature(body, m, []);
    NotPacked(m);
    assert (body + more)[..4] == body[..4];
    PrintedBody(env, body + more, m);
  }

  lemma NotPacked(m: Message)
    ensures LayoutOf(m).Then? && LayoutOf(m).field.Word? && U32Bytes(LayoutOf(m).field.word) != U32Bytes(GZIP_PACKED)
  {
    hide U32Bytes;
    WordsDiffer(LayoutOf(m).field.word, GZIP_PACKED);
  }

  /** A gzip-packed body is received as its content; a content that is packed again is not unpacked a second time. */
  lemma PackedIsUnpacked(env: Environment, e: seq<byte>, z: seq<byte>, more: seq<byte>)
    requires StringForm(e, z)
    ensures ParseAny(env, U32Bytes(0x3072cfa1) + (e + more))
            == match env.gunzip(z)
               case None => Fault
               case Some(d) =>
                 match ParseMessage(d)
                 case Thrown(_) => Raised
                 case Got(Some(m), _) => Value(Some(Service(m)))
                 case Got(None, _) => match env.supported(d) case None => Value(None) case Some(app) => Value(Some(Application(app)))
  {
    hide ParseMessage, U32Bytes, Tl.ReadBytes;
    var data := U32Bytes(0x3072cfa1) + (e + more);
    StringRead(e, z, more);
    assert data[..4] == U32Bytes(GZIP_PACKED) && data[4..] == e + more;
  }

  // ---------- plain mode ----------

  /** dataForPlainMessage */
  function PlainMessage(messageId: i64, body: seq<byte>): seq<byte> {
    I64Bytes(0) + (I64Bytes(messageId) + (I32Bytes(CastI32(|body|)) + body))
  }

  method DataForPlainMessage(messageId: i64, body: seq<byte>) returns (data: seq<byte>)
    ensures data == PlainMessage(messageId, body)
  {
    hide I64Bytes, I32Bytes, CastI32;
    var os := new OutputStreams.OutputStream();
    os.WriteInt64(0);
    os.WriteInt64(messageId);
    os.WriteInt32(CastI32(|body|));
    os.WriteData(body);
    data := os.Contents();
    Associative(I64Bytes(0) + I64Bytes(messageId), I32Bytes(CastI32(|body|)), body);
  }

  /** What one side sends in plain mode the other receives under the same id, with sequence number 0, if and only if it is
      at least four bytes long; anything shorter is a parse error. */
  lemma PlainEndToEnd(env: Environment, sessionId: i64, messageId: i64, body: seq<byte>, m: Message)
    requires |body| <= INT32_MAX
    ensures |body| < 4 ==> ParseIncoming(env, false, sessionId, PlainMessage(messageId, body)) == ParseError
    ensures !m.RpcResult? && !m.Container? && SizesAllowed(m) && Matches(body, LayoutOf(m), []) ==>
              ParseIncoming(env, false, sessionId, PlainMessage(messageId, body))
              == Messages([Incoming(messageId, 0, Timestamp(messageId), |body|, Service(m))])
  {
    hide ReadI64, ReadI32, I64Bytes, I32Bytes, CastI32, ParseTop, Matches, SizesAllowed, ParseMessage, ParseAny, LayoutOf;
    SmallCast(|body|);
    var s2 := I32Bytes(|body|) + body;
    var s1 := I64Bytes(messageId) + s2;
    ReadI64Exact(I64Bytes(0) + s1, 0, s1);
    ReadI64Exact(s1, messageId, s2);
    ReadI32Exact(s2, |body|, body);
    assert body[..|body|] == body;
    if !m.RpcResult? && !m.Container? && SizesAllowed(m) && Matches(body, LayoutOf(m), []) {
      ServiceBody(env, body, m, []);
      assert body + [] == body;
      TopIsService(env, messageId, 0, |body|, body, m);
    }
  }

  lemma TopIsService(env: Environment, messageId: i64, seqNo: i32, size: i32, data: seq<byte>, m: Message)
    requires ParseAny(env, data) == Value(Some(Service(m))) && !m.Container?
    ensures ParseTop(env, messageId, seqNo, size, data)
            == Value(Some([Incoming(messageId, seqNo, Timestamp(messageId), size, Service(m))]))
  {
    hide ParseAny;
  }

  lemma ContainerPrefix(parts: seq<SubMessage>, padding: seq<byte>)
    ensures var data := ContainerBytes(parts) + padding;
            && ContainerBytes(parts) <= data && |ContainerBytes(parts)| >= 4 && data[..4] != U32Bytes(GZIP_PACKED)
  {
    hide U32Bytes, I32Bytes;
    WordsDiffer(CONTAINER, GZIP_PACKED);
    assert ContainerBytes(parts)[..4] == U32Bytes(CONTAINER);
    assert (ContainerBytes(parts) + padding)[..4] == U32Bytes(CONTAINER);
  }

  /** A sealed acknowledgement of at most 500 ids arrives as that acknowledgement. */
  lemma AcksEndToEnd(p: Primitives, auth: AuthInfo, env: Environment, salt: i64, sessionId: i64, messageId: i64,
                     seqNo: i32, ids: seq<i64>, random: seq<byte>)
    requires p.Valid() && |auth.authKey| >= 76 && |random| == 16
    requires |ids| <= MAX_ACKS
    ensures var sealed := Seal(p, auth, Plaintext(salt, sessionId, messageId, seqNo, AcksBytes(ids)), random);
            var received := Open(p, Some(auth), sealed);
            && received.Some?
            && ParseIncoming(env, true, sessionId, received.value)
               == Messages([Incoming(messageId, seqNo, Timestamp(messageId), 12 + 8 * |ids|, Service(MsgsAck(ids)))])
  {
    hide Primitives.Valid, ParseMessage, Seal, Open, Plaintext, AcksBytes, ParseAny, ParseAuthorized, ParseParts;
    var body := AcksBytes(ids);
    var plain := Plaintext(salt, sessionId, messageId, seqNo, body);
    var padding := random[..BlockPad(|plain|)];
    AcksPrefix(ids, padding);
    OpenSealed(p, auth, salt, sessionId, messageId, seqNo, body, random);
    PaddedFits(|plain|);
    HeaderReadBack(env, salt, sessionId, messageId, seqNo, body, padding);
    AcksExact(body + padding, ids);
    PrintedBody(env, body + padding, MsgsAck(ids));
  }

  lemma AcksPrefix(ids: seq<i64>, padding: seq<byte>)
    ensures var data := AcksBytes(ids) + padding;
            && AcksBytes(ids) <= data && |AcksBytes(ids)| == 12 + 8 * |ids| && data[..4] != U32Bytes(GZIP_PACKED)
  {
    hide U32Bytes, I32Bytes;
    WordsDiffer(MSGS_ACK, GZIP_PACKED);
    IdsLength(ids);
    assert AcksBytes(ids)[..4] == U32Bytes(MSGS_ACK);
    assert (AcksBytes(ids) + padding)[..4] == U32Bytes(MSGS_ACK);
  }

  lemma {:induction false} IdsLength(ids: seq<i64>)
    ensures |I64sBytes(ids)| == 8 * |ids|
  {
    hide I64Bytes;
    if ids != [] {
      IdsLength(ids[1..]);
    }
  }
}
