/** The wire form of every message gp/proto/InternalParser.h knows, field by field, and the proof that the parser accepts
    exactly these forms. */
module MessageForms {
  import opened Bytes
  import opened Options
  import opened Tl
  import opened InternalParser

  // ---------- fields ----------

  datatype Field =
    | Word(word: u32)
    | Int(int32: i32)
    | Long(int64: i64)
    | ULong(uint64: u64)
    | Raw(data: seq<byte>)
    | Str(bytes: seq<byte>)

  /** Fields in wire order; Remaining is everything that is left, up to INT32_MAX bytes. */
  datatype Layout = End | Then(field: Field, next: Layout) | Remaining(data: seq<byte>)

  ghost predicate Padded(e: seq<byte>, header: seq<byte>, d: seq<byte>) {
    |e| == |header| + |d| + PadLength(|header| + |d|) && header + d <= e
  }

  /** The byte strings readBytes takes for d: the long header is accepted for any length, the content of the padding is
      ignored, and a zero byte alone is the empty string. */
  ghost predicate StringForm(e: seq<byte>, d: seq<byte>) {
    || (d == [] && e == [0])
    || (1 <= |d| <= 253 && Padded(e, [|d|], d))
    || (|d| < LENGTH_LIMIT && Padded(e, [254] + LittleEndian(|d|, 3), d))
  }

  ghost predicate FieldForm(e: seq<byte>, f: Field) {
    match f
    case Word(x) => e == U32Bytes(x)
    case Int(x) => e == I32Bytes(x)
    case Long(x) => e == I64Bytes(x)
    case ULong(x) => e == U64Bytes(x)
    case Raw(d) => e == d
    case Str(d) => StringForm(e, d)
  }

  /** The bytes s are the fields of the layout in order, followed by rest. */
  ghost predicate Matches(s: seq<byte>, layout: Layout, rest: seq<byte>)
    decreases layout
  {
    match layout
    case End => s == rest
    case Then(f, next) => exists n: nat :: n <= |s| && FieldForm(s[..n], f) && Matches(s[n..], next, rest)
    case Remaining(d) => s == d + rest && |d| <= 0x7fff_ffff && (rest != [] ==> |d| == 0x7fff_ffff)
  }

  // ---------- the forms of the messages ----------

  function SaltsBytes(salts: seq<FutureSalt>): seq<byte> {
    if salts == [] then [] else
      I32Bytes(salts[0].validSince) + (I32Bytes(salts[0].validUntil) + (I64Bytes(salts[0].salt) + SaltsBytes(salts[1..])))
  }

  function Nonces(nonce: seq<byte>, serverNonce: seq<byte>, next: Layout): Layout {
    Then(Raw(nonce), Then(Raw(serverNonce), next))
  }

  function LayoutOf(m: Message): Layout {
    match m
    case ResPq(n, s, pq, fingerprint) => Then(Word(0x15d04c69), Nonces(n, s, Then(Str(pq), Then(ULong(fingerprint), End))))
    case ServerDhParamsFail(n, s, hash) => Then(Word(0xcb73e0c5), Nonces(n, s, Then(Raw(hash), End)))
    case ServerDhParamsOk(n, s, encrypted) => Then(Word(0xf026f3c8), Nonces(n, s, Then(Str(encrypted), End)))
    case ServerDhInnerData(n, s, g, dhPrime, ga, serverTime) =>
      Then(Word(0xefeab3aa), Nonces(n, s, Then(Int(g), Then(Str(dhPrime), Then(Str(ga), Then(Int(serverTime), End))))))
    case DhGenOk(n, s, hash) => Then(Word(0x73d45989), Nonces(n, s, Then(Raw(hash), End)))
    case DhGenRetry(n, s, hash) => Then(Word(0x5b04490c), Nonces(n, s, Then(Raw(hash), End)))
    case DhGenFail(n, s, hash) => Then(Word(0x7250ae2a), Nonces(n, s, Then(Raw(hash), End)))
    case Ping(pingId) => Then(Word(0x7abe77ec), Then(Long(pingId), End))
    case RpcResult(requestMessageId, data) => Then(Word(0xf35c6d01), Then(Long(requestMessageId), Remaining(data)))
    case RpcError(code, description) => Then(Word(0x2144ca19), Then(Int(code), Then(Str(description), End)))
    case Pong(messageId, pingId) => Then(Word(0x347773c5), Then(Long(messageId), Then(Long(pingId), End)))
    case MsgsAck(ids) =>
      Then(Word(0x62d6b459), Then(Word(0x1cb5c415), Then(Int(CastI32(|ids|)), Then(Raw(I64sBytes(ids)), End))))
    case Container(ms) => Then(Word(0x73f1f8dc), Then(Int(CastI32(|ms|)), Then(Raw(SubMessagesBytes(ms)), End)))
    case FutureSalts(requestMessageId, now, salts) =>
      Then(Word(0xae500895), Then(Long(requestMessageId), Then(Int(now),
        Then(Int(CastI32(|salts|)), Then(Raw(SaltsBytes(salts)), End)))))
    case BadMsgNotification(badMessageId, badSeqNo, errorCode) =>
      Then(Word(0xa7eff811), Then(Long(badMessageId), Then(Int(badSeqNo), Then(Int(errorCode), End))))
    case BadServerSalt(badMessageId, badSeqNo, errorCode, salt) =>
      Then(Word(0xedab447b), Then(Long(badMessageId), Then(Int(badSeqNo), Then(Int(errorCode), Then(Long(salt), End)))))
  }

  /** The sizes the parser insists on. */
  ghost predicate SizesAllowed(m: Message) {
    match m
    case ResPq(n, s, _, _) => |n| == |s| == 16
    case ServerDhParamsFail(n, s, hash) => |n| == |s| == |hash| == 16
    case ServerDhParamsOk(n, s, _) => |n| == |s| == 16
    case ServerDhInnerData(n, s, _, _, _, _) => |n| == |s| == 16
    case DhGenOk(n, s, hash) => |n| == |s| == |hash| == 16
    case DhGenRetry(n, s, hash) => |n| == |s| == |hash| == 16
    case DhGenFail(n, s, hash) => |n| == |s| == |hash| == 16
    case MsgsAck(ids) => |ids| <= 500
    case Container(ms) => |ms| < 0x8000_0000 && forall k :: 0 <= k < |ms| ==> |ms[k].body| <= 16 * 1024 * 1024
    case FutureSalts(_, _, salts) => |salts| <= 300
    case _ => true
  }

  // ---------- reading one field ----------

  function Expected<T(==)>(r: Read<T>, x: T): Option<seq<byte>> {
    if r.Got? && r.value == x then Some(r.rest) else None
  }

  /** What is left after reading the field, if it has that value. */
  function After(s: seq<byte>, f: Field): Option<seq<byte>> {
    match f
    case Word(x) => Expected(ReadU32(s), x)
    case Int(x) => Expected(ReadI32(s), x)
    case Long(x) => Expected(ReadI64(s), x)
    case ULong(x) => Expected(ReadU64(s), x)
    case Raw(d) => Expected(ReadData(s, |d|), d)
    case Str(d) => Expected(ReadBytes(s), d)
  }

  ghost predicate Prefixed(s: seq<byte>, f: Field, t: seq<byte>) {
    exists n: nat :: n <= |s| && FieldForm(s[..n], f) && t == s[n..]
  }

  lemma PrefixedBy(s: seq<byte>, f: Field, e: seq<byte>, t: seq<byte>)
    requires s == e + t && FieldForm(e, f)
    ensures Prefixed(s, f, t)
  {
    assert s[..|e|] == e && s[|e|..] == t;
  }

  lemma FixedForm(s: seq<byte>, f: Field, e: seq<byte>, t: seq<byte>)
    requires forall d :: FieldForm(d, f) <==> d == e
    ensures Prefixed(s, f, t) <==> s == e + t
  {
    if Prefixed(s, f, t) {
      var n: nat :| n <= |s| && FieldForm(s[..n], f) && t == s[n..];
      assert s == s[..n] + s[n..];
    }
    if s == e + t {
      PrefixedBy(s, f, e, t);
    }
  }

  lemma StringRead(e: seq<byte>, d: seq<byte>, rest: seq<byte>)
    requires StringForm(e, d)
    ensures ReadBytes(e + rest) == Got(d, rest)
  {
    hide PadLength, LittleEndian, ReadBody;
    var s := e + rest;
    if d == [] && e == [0] {
      assert s[1..] == rest;
    } else if 1 <= |d| <= 253 && Padded(e, [|d|], d) {
      BodyRead(e, [|d|], d, rest);
    } else {
      var header := [254] + LittleEndian(|d|, 3);
      BodyRead(e, header, d, rest);
      Widths();
      DecodeLittleEndian(|d|, 3);
      assert s[0] == 254 && s[1..4] == header[1..4] == LittleEndian(|d|, 3);
    }
  }

  lemma BodyRead(e: seq<byte>, header: seq<byte>, d: seq<byte>, rest: seq<byte>)
    requires Padded(e, header, d)
    ensures |e| >= |header| && ReadBody((e + rest)[|header|..], |d|, |header|) == Got(d, rest)
    ensures (e + rest)[..|header|] == header
  {
    hide PadLength;
    var s := e + rest;
    var body := s[|header|..];
    assert header + d <= s;
    assert s[|header|..|header| + |d|] == d;
    assert body[..|d|] == d;
    assert body[|d| + PadLength(|header| + |d|)..] == rest;
  }

  lemma BodyForm(s: seq<byte>, header: seq<byte>, size: nat)
    requires header <= s && ReadBody(s[|header|..], size, |header|).Got?
    ensures var r := ReadBody(s[|header|..], size, |header|);
            |r.rest| <= |s| && r.rest == s[|s| - |r.rest|..] && |r.value| == size
            && Padded(s[..|s| - |r.rest|], header, r.value)
  {
    hide PadLength;
    var body := s[|header|..];
    var pad := PadLength(|header| + size);
    var e := s[..|header| + size + pad];
    assert s[|header| + size + pad..] == body[size + pad..];
    assert header + body[..size] <= e;
  }

  lemma StringAccepted(s: seq<byte>)
    requires ReadBytes(s).Got?
    ensures var r := ReadBytes(s);
            |r.rest| <= |s| && r.rest == s[|s| - |r.rest|..] && StringForm(s[..|s| - |r.rest|], r.value)
  {
    hide PadLength, ReadBody;
    if s[0] == 0 {
      assert s[..1] == [0];
    } else if s[0] <= 253 {
      BodyForm(s, [s[0]], s[0]);
    } else {
      var n := FromLittleEndian(s[1..4]);
      Widths();
      EncodeFromLittleEndian(s[1..4]);
      var header := [254] + s[1..4];
      assert header == s[..4];
      BodyForm(s, header, n);
    }
  }

  /** Reading a field succeeds with its value exactly on a form of it. */
  lemma FieldExact(s: seq<byte>, f: Field, t: seq<byte>)
    ensures After(s, f) == Some(t) <==> Prefixed(s, f, t)
  {
    hide ReadU32, ReadI32, ReadU64, ReadI64, ReadData, ReadBytes, U32Bytes, I32Bytes, I64Bytes, U64Bytes, StringForm, Prefixed;
    match f {
      case Word(x) => FixedForm(s, f, U32Bytes(x), t); ReadU32Exact(s, x, t);
      case Int(x) => FixedForm(s, f, I32Bytes(x), t); ReadI32Exact(s, x, t);
      case Long(x) => FixedForm(s, f, I64Bytes(x), t); ReadI64Exact(s, x, t);
      case ULong(x) => FixedForm(s, f, U64Bytes(x), t); ReadU64Exact(s, x, t);
      case Raw(d) => FixedForm(s, f, d, t); ReadDataExact(s, |d|, d, t);
      case Str(d) => StringExact(s, d, t);
    }
  }

  lemma StringExact(s: seq<byte>, d: seq<byte>, t: seq<byte>)
    ensures ReadBytes(s) == Got(d, t) <==> Prefixed(s, Str(d), t)
  {
    hide ReadBytes, StringForm;
    if ReadBytes(s) == Got(d, t) {
      StringAccepted(s);
      PrefixedBy(s, Str(d), s[..|s| - |t|], t);
    }
    if Prefixed(s, Str(d), t) {
      var n: nat :| n <= |s| && FieldForm(s[..n], Str(d)) && t == s[n..];
      StringRead(s[..n], d, t);
      assert s == s[..n] + t;
    }
  }

  // ---------- reading a layout ----------

  predicate Reads(s: seq<byte>, layout: Layout, rest: seq<byte>)
    decreases layout
  {
    match layout
    case End => s == rest
    case Then(f, next) => After(s, f).Some? && Reads(After(s, f).value, next, rest)
    case Remaining(d) => ReadRemaining(s) == Got(d, rest)
  }

  lemma {:induction false} ReadsExact(s: seq<byte>, layout: Layout, rest: seq<byte>)
    ensures Reads(s, layout, rest) <==> Matches(s, layout, rest)
    decreases layout
  {
    hide After, FieldForm;
    match layout {
      case End =>
      case Then(f, next) =>
        if Reads(s, layout, rest) {
          FieldExact(s, f, After(s, f).value);
          ReadsExact(After(s, f).value, next, rest);
        }
        if Matches(s, layout, rest) {
          var n: nat :| n <= |s| && FieldForm(s[..n], f) && Matches(s[n..], next, rest);
          assert Prefixed(s, f, s[n..]);
          FieldExact(s, f, s[n..]);
          ReadsExact(s[n..], next, rest);
        }
      case Remaining(d) =>
        if s == d + rest {
          assert s[..|d|] == d && s[|d|..] == rest;
        }
        var n := if |s| < 0x8000_0000 then |s| else 0x7fff_ffff;
        assert s == s[..n] + s[n..];
    }
  }

  // ---------- the messages ----------

  lemma {:induction false} ReadSaltsExact(s: seq<byte>, n: nat, salts: seq<FutureSalt>, rest: seq<byte>)
    ensures ReadSalts(s, n) == Got(salts, rest) <==> |salts| == n && s == SaltsBytes(salts) + rest
    decreases n
  {
    hide ReadI32, ReadI64, I32Bytes, I64Bytes;
    if n > 0 && salts != [] {
      var t := SaltsBytes(salts[1..]) + rest;
      SaltExact(s, n, salts[0], t);
      var head := ReadSalt(s);
      if head.Got? {
        SaltExact(s, n, head.value, head.rest);
        ReadSaltsExact(head.rest, n - 1, salts[1..], rest);
        SplitHead(salts, head.value);
      }
      SaltsBytesCons(salts, rest);
    } else if n > 0 {
      NoSalts(s, n);
    } else if salts == [] {
      assert SaltsBytes(salts) + rest == rest;
    }
  }

  lemma NoSalts(s: seq<byte>, n: nat)
    requires n > 0
    ensures ReadSalts(s, n).Got? ==> ReadSalts(s, n).value != []
  {
    hide ReadI32, ReadI64;
  }

  function SaltBytes(x: FutureSalt): seq<byte> {
    I32Bytes(x.validSince) + (I32Bytes(x.validUntil) + I64Bytes(x.salt))
  }

  lemma SaltsBytesCons(salts: seq<FutureSalt>, rest: seq<byte>)
    requires salts != []
    ensures SaltsBytes(salts) + rest == SaltBytes(salts[0]) + (SaltsBytes(salts[1..]) + rest)
  {
    hide I32Bytes, I64Bytes;
  }

  function ReadSalt(s: seq<byte>): Read<FutureSalt> {
    var (since, s1) :- ReadI32(s);
    var (until, s2) :- ReadI32(s1);
    var (salt, s3) :- ReadI64(s2);
    Got(FutureSalt(since, until, salt), s3)
  }

  /** The head of the salt loop. */
  lemma SaltExact(s: seq<byte>, n: nat, x: FutureSalt, t: seq<byte>)
    requires n > 0
    ensures ReadSalt(s) == Got(x, t) <==> s == SaltBytes(x) + t
    ensures ReadSalts(s, n).Got? ==> ReadSalt(s).Got?
    ensures ReadSalt(s).Got? ==>
              var others := ReadSalts(ReadSalt(s).rest, n - 1);
              && (ReadSalts(s, n).Got? <==> others.Got?)
              && (others.Got? ==> ReadSalts(s, n) == Got([ReadSalt(s).value] + others.value, others.rest))
  {
    hide ReadI32, ReadI64, I32Bytes, I64Bytes;
    if s == SaltBytes(x) + t {
      var s2 := I64Bytes(x.salt) + t;
      var s1 := I32Bytes(x.validUntil) + s2;
      assert s == I32Bytes(x.validSince) + s1;
      ReadI32Exact(s, x.validSince, s1);
      ReadI32Exact(s1, x.validUntil, s2);
      ReadI64Exact(s2, x.salt, t);
    }
    if ReadSalt(s) == Got(x, t) {
      var s1 := ReadI32(s).rest;
      var s2 := ReadI32(s1).rest;
      ReadI32Exact(s, x.validSince, s1);
      ReadI32Exact(s1, x.validUntil, s2);
      ReadI64Exact(s2, x.salt, t);
      assert s == SaltBytes(x) + t;
    }
  }

  /** What the parser makes of the bytes behind the signature. */
  ghost predicate Accepts(signature: u32, s: seq<byte>, total: nat, m: Message, rest: seq<byte>) {
    ParseBody(signature, s, total) == Got(Some(m), rest)
  }

  /** Each kind of message has its own signature. */
  lemma SignatureFixed(signature: u32, s: seq<byte>, total: nat, m: Message, rest: seq<byte>)
    requires Accepts(signature, s, total, m, rest)
    ensures LayoutOf(m).Then? && LayoutOf(m).field == Word(signature)
  {
    hide ReadI64, ReadI32, ReadU64, ReadData, ReadBytes, ReadRemaining, ReadU32, ReadI64s, ReadSalts, ReadSubMessages;
  }

  lemma Step(s: seq<byte>, f: Field, next: Layout, rest: seq<byte>)
    ensures Reads(s, Then(f, next), rest) <==> After(s, f).Some? && Reads(After(s, f).value, next, rest)
  {
    hide After;
  }

  lemma NoncesRead(s: seq<byte>, n: seq<byte>, sn: seq<byte>, next: Layout, rest: seq<byte>)
    requires |n| == |sn| == 16
    ensures Reads(s, Nonces(n, sn, next), rest) <==>
              var r := ReadData(s, 16);
              r.Got? && r.value == n && var q := ReadData(r.rest, 16); q.Got? && q.value == sn && Reads(q.rest, next, rest)
  {
    hide ReadData;
    Step(s, Raw(n), Then(Raw(sn), next), rest);
    if After(s, Raw(n)).Some? {
      Step(After(s, Raw(n)).value, Raw(sn), next, rest);
    }
  }

  ghost predicate AllowedReads(m: Message, s: seq<byte>, rest: seq<byte>) {
    SizesAllowed(m) && LayoutOf(m).Then? && Reads(s, LayoutOf(m).next, rest)
  }

  lemma DataSize(s: seq<byte>, n: nat)
    ensures ReadData(s, n).Got? ==> |ReadData(s, n).value| == n
  {
  }

  lemma HashedExact(signature: u32, s: seq<byte>, m: Message, rest: seq<byte>)
    requires m.ServerDhParamsFail? || m.DhGenOk? || m.DhGenRetry? || m.DhGenFail?
    requires LayoutOf(m).field == Word(signature)
    ensures ParseHandshake(signature, s) == Got(Some(m), rest) <==> AllowedReads(m, s, rest)
  {
    hide ReadData, Reads, ReadBytes, ReadU64, ReadI32;
    var r := ReadData(s, 16);
    DataSize(s, 16);
    if r.Got? {
      var q := ReadData(r.rest, 16);
      DataSize(r.rest, 16);
      if q.Got? {
        DataSize(q.rest, 16);
        var h := ReadData(q.rest, 16);
        if h.Got? {
          DoneReads(h.rest, rest);
        }
        Step(q.rest, Raw(m.nextNonceHash), End, rest);
      }
    }
    if SizesAllowed(m) {
      NoncesRead(s, m.nonce, m.serverNonce, Then(Raw(m.nextNonceHash), End), rest);
    }
  }

  lemma DoneReads(s: seq<byte>, rest: seq<byte>)
    ensures Reads(s, End, rest) <==> s == rest
  {
  }

  /** Both nonces are read; q is the read of the second. */
  lemma AfterNonces(s: seq<byte>, m: Message, next: Layout, rest: seq<byte>) returns (q: Read<seq<byte>>)
    requires m.ResPq? || m.ServerDhParamsOk? || m.ServerDhInnerData?
    requires LayoutOf(m).next == Nonces(m.nonce, m.serverNonce, next)
    ensures q == (if ReadData(s, 16).Got? then ReadData(ReadData(s, 16).rest, 16) else Thrown(s))
    ensures AllowedReads(m, s, rest)
            <==> q.Got? && ReadData(s, 16).value == m.nonce && q.value == m.serverNonce && Reads(q.rest, next, rest)
  {
    hide ReadData, Reads;
    q := if ReadData(s, 16).Got? then ReadData(ReadData(s, 16).rest, 16) else Thrown(s);
    DataSize(s, 16);
    DataSize(ReadData(s, 16).rest, 16);
    if |m.nonce| == |m.serverNonce| == 16 {
      NoncesRead(s, m.nonce, m.serverNonce, next, rest);
    }
  }

  lemma ResPqExact(s: seq<byte>, m: Message, rest: seq<byte>)
    requires m.ResPq?
    ensures ParseHandshake(RES_PQ, s) == Got(Some(m), rest) <==> AllowedReads(m, s, rest)
  {
    hide ReadData, Reads, ReadBytes, ReadU64, ReadI32, AllowedReads;
    var last := Then(ULong(m.fingerprint), End);
    var q := AfterNonces(s, m, Then(Str(m.pq), last), rest);
    if q.Got? {
      Step(q.rest, Str(m.pq), last, rest);
      var pq := ReadBytes(q.rest);
      if pq.Got? {
        Step(pq.rest, ULong(m.fingerprint), End, rest);
        DoneReads(ReadU64(pq.rest).rest, rest);
      }
    }
  }

  lemma ServerDhOkExact(s: seq<byte>, m: Message, rest: seq<byte>)
    requires m.ServerDhParamsOk?
    ensures ParseHandshake(SERVER_DH_OK, s) == Got(Some(m), rest) <==> AllowedReads(m, s, rest)
  {
    hide ReadData, Reads, ReadBytes, ReadU64, ReadI32, AllowedReads;
    var q := AfterNonces(s, m, Then(Str(m.encryptedResponse), End), rest);
    if q.Got? {
      Step(q.rest, Str(m.encryptedResponse), End, rest);
      DoneReads(ReadBytes(q.rest).rest, rest);
    }
  }

  lemma InnerDataExact(s: seq<byte>, m: Message, rest: seq<byte>)
    requires m.ServerDhInnerData?
    ensures ParseHandshake(SERVER_DH_INNER, s) == Got(Some(m), rest) <==> AllowedReads(m, s, rest)
  {
    hide ReadData, Reads, ReadBytes, ReadU64, ReadI32, AllowedReads;
    var last := Then(Int(m.serverTime), End);
    var third := Then(Str(m.ga), last);
    var second := Then(Str(m.dhPrime), third);
    var q := AfterNonces(s, m, Then(Int(m.g), second), rest);
    if q.Got? {
      Step(q.rest, Int(m.g), second, rest);
      var g := ReadI32(q.rest);
      if g.Got? {
        Step(g.rest, Str(m.dhPrime), third, rest);
        var prime := ReadBytes(g.rest);
        if prime.Got? {
          Step(prime.rest, Str(m.ga), last, rest);
          var ga := ReadBytes(prime.rest);
          if ga.Got? {
            Step(ga.rest, Int(m.serverTime), End, rest);
            DoneReads(ReadI32(ga.rest).rest, rest);
          }
        }
      }
    }
  }

  lemma HandshakeExact(signature: u32, s: seq<byte>, m: Message, rest: seq<byte>)
    requires LayoutOf(m).field == Word(signature) && IsHandshake(signature)
    ensures ParseHandshake(signature, s) == Got(Some(m), rest) <==> AllowedReads(m, s, rest)
  {
    hide ParseHandshake, AllowedReads;
    match m {
      case ResPq(_, _, _, _) => ResPqExact(s, m, rest);
      case ServerDhParamsOk(_, _, _) => ServerDhOkExact(s, m, rest);
      case ServerDhInnerData(_, _, _, _, _, _) => InnerDataExact(s, m, rest);
      case _ => HashedExact(signature, s, m, rest);
    }
  }

  lemma PingPongExact(s: seq<byte>, m: Message, rest: seq<byte>)
    requires m.Ping? || m.Pong?
    ensures m.Ping? ==> (ParsePing(s) == Got(Some(m), rest) <==> AllowedReads(m, s, rest))
    ensures m.Pong? ==> (ParsePong(s) == Got(Some(m), rest) <==> AllowedReads(m, s, rest))
  {
    hide ReadI64, Reads;
    var first := ReadI64(s);
    match m {
      case Ping(pingId) =>
        Step(s, Long(pingId), End, rest);
        DoneReads(first.rest, rest);
      case Pong(messageId, pingId) =>
        Step(s, Long(messageId), Then(Long(pingId), End), rest);
        if first.Got? {
          Step(first.rest, Long(pingId), End, rest);
          DoneReads(ReadI64(first.rest).rest, rest);
        }
      case _ =>
    }
  }

  lemma RpcExact(s: seq<byte>, m: Message, rest: seq<byte>)
    requires m.RpcResult? || m.RpcError?
    ensures m.RpcResult? ==> (ParseRpcResult(s) == Got(Some(m), rest) <==> AllowedReads(m, s, rest))
    ensures m.RpcError? ==> (ParseRpcError(s) == Got(Some(m), rest) <==> AllowedReads(m, s, rest))
  {
    hide ReadI64, ReadI32, ReadBytes, ReadRemaining, Reads;
    match m {
      case RpcResult(requestMessageId, data) =>
        Step(s, Long(requestMessageId), Remaining(data), rest);
        RemainingReads(ReadI64(s).rest, data, rest);
      case RpcError(code, description) =>
        Step(s, Int(code), Then(Str(description), End), rest);
        var c := ReadI32(s);
        if c.Got? {
          Step(c.rest, Str(description), End, rest);
          DoneReads(ReadBytes(c.rest).rest, rest);
        }
      case _ =>
    }
  }

  lemma RemainingReads(s: seq<byte>, data: seq<byte>, rest: seq<byte>)
    ensures Reads(s, Remaining(data), rest) <==> ReadRemaining(s) == Got(data, rest)
  {
  }

  lemma BadExact(s: seq<byte>, m: Message, rest: seq<byte>)
    requires m.BadMsgNotification? || m.BadServerSalt?
    ensures ParseBadMsg(s, m.BadServerSalt?) == Got(Some(m), rest) <==> AllowedReads(m, s, rest)
  {
    hide ReadI64, ReadI32, Reads;
    var last := if m.BadServerSalt? then Then(Long(m.validServerSalt), End) else End;
    Step(s, Long(m.badMessageId), Then(Int(m.badSeqNo), Then(Int(m.errorCode), last)), rest);
    var id := ReadI64(s);
    if id.Got? {
      Step(id.rest, Int(m.badSeqNo), Then(Int(m.errorCode), last), rest);
      var seqNo := ReadI32(id.rest);
      if seqNo.Got? {
        Step(seqNo.rest, Int(m.errorCode), last, rest);
        var code := ReadI32(seqNo.rest);
        if code.Got? {
          DoneReads(code.rest, rest);
          if m.BadServerSalt? {
            Step(code.rest, Long(m.validServerSalt), End, rest);
            DoneReads(ReadI64(code.rest).rest, rest);
          }
        }
      }
    }
  }

  lemma RawLast(s: seq<byte>, d: seq<byte>, rest: seq<byte>)
    ensures Reads(s, Then(Raw(d), End), rest) <==> s == d + rest
  {
    hide ReadData;
    Step(s, Raw(d), End, rest);
    if After(s, Raw(d)).Some? {
      ReadDataExact(s, |d|, d, After(s, Raw(d)).value);
    }
    ReadDataExact(s, |d|, d, rest);
  }

  lemma AcksFormExact(s: seq<byte>, m: Message, rest: seq<byte>)
    requires m.MsgsAck?
    ensures ParseAcks(s) == Got(Some(m), rest) <==> AllowedReads(m, s, rest)
  {
    hide ReadI32, ReadU32, Reads, ReadI64s, I64sBytes, CastI32;
    var ids := m.messageIds;
    var last := Then(Raw(I64sBytes(ids)), End);
    Step(s, Word(VECTOR), Then(Int(CastI32(|ids|)), last), rest);
    VectorRead(s);
    var vector := ReadI32(s);
    if vector.Got? && vector.value == VECTOR {
      Step(vector.rest, Int(CastI32(|ids|)), last, rest);
      var count := ReadI32(vector.rest);
      if count.Got? && 0 <= count.value {
        ReadI64sExact(count.rest, count.value, ids, rest);
        RawLast(count.rest, I64sBytes(ids), rest);
      }
      if |ids| <= MAX_ACKS {
        SmallCast(|ids|);
      }
    }
  }

  /** The vector word is read as a signed number of the same bits. */
  lemma VectorRead(s: seq<byte>)
    ensures Expected(ReadU32(s), VECTOR) == Expected(ReadI32(s), VECTOR)
  {
  }

  lemma ContainerFormExact(s: seq<byte>, total: nat, m: Message, rest: seq<byte>)
    requires m.Container? && total >= |s|
    ensures ParseContainer(s, total) == Got(Some(m), rest) <==> AllowedReads(m, s, rest)
  {
    hide ReadI32, Reads, ReadSubMessages, SubMessagesBytes, CastI32;
    var ms := m.messages;
    Step(s, Int(CastI32(|ms|)), Then(Raw(SubMessagesBytes(ms)), End), rest);
    var count := ReadI32(s);
    if count.Got? {
      if 0 <= count.value {
        SubMessagesExact(count.rest, count.value, total, ms, rest);
        RawLast(count.rest, SubMessagesBytes(ms), rest);
        ReadI32Exact(s, count.value, count.rest);
        BodiesInside(ms);
      }
      if |ms| < 0x8000_0000 {
        SmallCast(|ms|);
      }
    }
  }

  lemma SaltsFormExact(s: seq<byte>, m: Message, rest: seq<byte>)
    requires m.FutureSalts?
    ensures ParseSalts(s) == Got(Some(m), rest) <==> AllowedReads(m, s, rest)
  {
    hide ReadI32, ReadI64, Reads, ReadSalts, SaltsBytes, CastI32;
    var salts := m.salts;
    var last := Then(Raw(SaltsBytes(salts)), End);
    Step(s, Long(m.requestMessageId), Then(Int(m.now), Then(Int(CastI32(|salts|)), last)), rest);
    var id := ReadI64(s);
    if id.Got? {
      Step(id.rest, Int(m.now), Then(Int(CastI32(|salts|)), last), rest);
      var now := ReadI32(id.rest);
      if now.Got? {
        Step(now.rest, Int(CastI32(|salts|)), last, rest);
        var count := ReadI32(now.rest);
        if count.Got? && 0 <= count.value {
          ReadSaltsExact(count.rest, count.value, salts, rest);
          RawLast(count.rest, SaltsBytes(salts), rest);
        }
        if |salts| <= MAX_SALTS {
          SmallCast(|salts|);
        }
      }
    }
  }

  lemma BodyExact(signature: u32, s: seq<byte>, total: nat, m: Message, rest: seq<byte>)
    requires LayoutOf(m).field == Word(signature) && total >= |s|
    ensures Accepts(signature, s, total, m, rest) <==> AllowedReads(m, s, rest)
  {
    hide ParseHandshake, ParsePing, ParsePong, ParseRpcResult, ParseRpcError, ParseAcks, ParseContainer, ParseSalts,
      ParseBadMsg, AllowedReads;
    match m {
      case Ping(_) => PingPongExact(s, m, rest);
      case Pong(_, _) => PingPongExact(s, m, rest);
      case RpcResult(_, _) => RpcExact(s, m, rest);
      case RpcError(_, _) => RpcExact(s, m, rest);
      case MsgsAck(_) => AcksFormExact(s, m, rest);
      case Container(_) => ContainerFormExact(s, total, m, rest);
      case FutureSalts(_, _, _) => SaltsFormExact(s, m, rest);
      case BadMsgNotification(_, _, _) => BadExact(s, m, rest);
      case BadServerSalt(_, _, _, _) => BadExact(s, m, rest);
      case _ => HandshakeExact(signature, s, m, rest);
    }
  }

  /** For every message of every kind and all bytes: the parser yields the message and leaves rest if and only if the bytes
      are the message's fields in wire order, within the sizes allowed, followed by rest. */
  lemma ParseExact(data: seq<byte>, m: Message, rest: seq<byte>)
    ensures ParseMessage(data) == Got(Some(m), rest) <==> SizesAllowed(m) && Matches(data, LayoutOf(m), rest)
  {
    hide ReadU32, Reads, Matches, ParseBody, SizesAllowed, LayoutOf;
    ReadsExact(data, LayoutOf(m), rest);
    StartsWithWord(m);
    var w, next := LayoutOf(m).field, LayoutOf(m).next;
    Step(data, w, next, rest);
    var signature := ReadU32(data);
    if signature.Got? {
      ReadU32Exact(data, signature.value, signature.rest);
      if w == Word(signature.value) {
        BodyExact(signature.value, signature.rest, |data|, m, rest);
      } else if ParseMessage(data) == Got(Some(m), rest) {
        SignatureFixed(signature.value, signature.rest, |data|, m, rest);
      }
    }
  }

  lemma StartsWithWord(m: Message)
    ensures LayoutOf(m).Then? && LayoutOf(m).field.Word?
  {
  }

  // ---------- forms with something behind them ----------

  predicate Bounded(layout: Layout)
    decreases layout
  {
    match layout
    case End => true
    case Then(_, next) => Bounded(next)
    case Remaining(_) => false
  }

  lemma {:induction false} MatchesWithMore(s: seq<byte>, layout: Layout, rest: seq<byte>, more: seq<byte>)
    requires Matches(s, layout, rest) && Bounded(layout)
    ensures Matches(s + more, layout, rest + more)
    decreases layout
  {
    hide FieldForm;
    match layout {
      case End =>
      case Then(f, next) =>
        var n: nat :| n <= |s| && FieldForm(s[..n], f) && Matches(s[n..], next, rest);
        MatchesWithMore(s[n..], next, rest, more);
        assert (s + more)[..n] == s[..n] && (s + more)[n..] == s[n..] + more;
    }
  }

  lemma OnlyResultsAreOpen(m: Message)
    ensures Bounded(LayoutOf(m)) <==> !m.RpcResult?
  {
    forall f: Field, next: Layout
      ensures Bounded(Then(f, next)) <==> Bounded(next)
    {
    }
  }

  /** Only an RPC result takes what lies behind it for its own. */
  lemma ParsedWithMore(data: seq<byte>, m: Message, rest: seq<byte>, more: seq<byte>)
    requires !m.RpcResult? && SizesAllowed(m) && Matches(data, LayoutOf(m), rest)
    ensures ParseMessage(data + more) == Got(Some(m), rest + more)
  {
    hide Matches, SizesAllowed, ParseMessage;
    OnlyResultsAreOpen(m);
    MatchesWithMore(data, LayoutOf(m), rest, more);
    ParseExact(data + more, m, rest + more);
  }

  /** The form writeBytes gives a string is one that readBytes takes. */
  lemma WrittenIsForm(d: seq<byte>)
    requires 1 <= |d| < LENGTH_LIMIT
    ensures StringForm(TlBytes(d), d)
  {
    hide PadLength, LittleEndian, Zeros;
    var header := LengthPrefix(|d|);
    assert header + d <= TlBytes(d);
  }

  lemma StartsWithSignature(data: seq<byte>, m: Message, rest: seq<byte>)
    requires Matches(data, LayoutOf(m), rest)
    ensures LayoutOf(m).Then? && LayoutOf(m).field.Word? && |data| >= 4 && data[..4] == U32Bytes(LayoutOf(m).field.word)
  {
    hide U32Bytes;
    StartsWithWord(m);
    var n: nat :| n <= |data| && FieldForm(data[..n], LayoutOf(m).field) && Matches(data[n..], LayoutOf(m).next, rest);
  }
}
