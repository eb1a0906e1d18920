/** What the other end makes of the key exchange in DatacenterAuths: the messages read back field by field, the key both
    ends share, and the exchange with an honest server from the first reply to the notice of the key. */
module KeyAgreement {
  import opened Bytes
  import opened Options
  import opened Tl
  import opened InternalParser
  import opened MessageForms
  import opened Sequences
  import opened DatacenterAuths

  /** AES is an inverse pair on whole blocks. */
  ghost predicate AesInverts(p: Primitives) {
    forall key, iv, d :: |key| == 32 && |iv| == 16 && |d| % 16 == 0 ==> p.aesDecrypt(key, iv, p.aesEncrypt(key, iv, d)) == Some(d)
  }

  /** Exponents commute. */
  ghost predicate Commutes(p: Primitives) {
    forall g, a, b, m :: p.modExp(p.modExp(g, a, m), b, m) == p.modExp(p.modExp(g, b, m), a, m)
  }

  ghost predicate Writable(d: seq<byte>) {
    1 <= |d| < LENGTH_LIMIT
  }

  // ---------- the messages, read back ----------

  /** The message of a stage, field by field. */
  function Outgoing(s: State): Layout {
    match s.stage
    case Pq => Then(Word(0xfbf22646), Then(Raw(Unwrapped(s.nonce)), End))
    case ReqDh =>
      Then(Word(0x92471d27), Nonces(Unwrapped(s.nonce), Unwrapped(s.serverNonce),
        Then(Str(Unwrapped(s.dhP)), Then(Str(Unwrapped(s.dhQ)), Then(ULong(s.publicKeyFingerprint),
          Then(Str(Unwrapped(s.dhEncryptedData)), End))))))
    case KeyVerification =>
      Then(Word(0xead9f280), Nonces(Unwrapped(s.nonce), Unwrapped(s.serverNonce), Then(Str(Unwrapped(s.encryptedClientData)), End)))
    case Done => End
  }

  /** What the server decrypts of the first message of the exchange proper. */
  function PqInner(s: State, pq: seq<byte>): Layout {
    Then(Word(0xeb59a005), Then(Str(pq), Then(Str(Unwrapped(s.dhP)), Then(Str(Unwrapped(s.dhQ)),
      Nonces(Unwrapped(s.nonce), Unwrapped(s.serverNonce), Then(Raw(Unwrapped(s.newNonce)), End))))))
  }

  function ClientInner(s: State, gb: seq<byte>): Layout {
    Then(Word(0x706fb308), Nonces(Unwrapped(s.nonce), Unwrapped(s.serverNonce), Then(Long(0), Then(Str(gb), End))))
  }

  lemma FieldFirst(e: seq<byte>, f: Field, s: seq<byte>, next: Layout, rest: seq<byte>)
    requires FieldForm(e, f) && Matches(s, next, rest)
    ensures Matches(e + s, Then(f, next), rest)
  {
    hide FieldForm;
    assert (e + s)[..|e|] == e && (e + s)[|e|..] == s;
  }

  lemma StringFirst(d: seq<byte>, s: seq<byte>, next: Layout, rest: seq<byte>)
    requires Writable(d) && Matches(s, next, rest)
    ensures Matches(TlBytes(d) + s, Then(Str(d), next), rest)
  {
    hide TlBytes, StringForm;
    WrittenIsForm(d);
    FieldFirst(TlBytes(d), Str(d), s, next, rest);
  }

  lemma NothingLeft()
    ensures Matches([], End, [])
  {
  }

  lemma Regroup4<T>(a: seq<T>, b: seq<T>, c: seq<T>, d: seq<T>)
    ensures ((a + b) + c) + d == a + (b + (c + d))
  {
    Associative(a + b, c, d);
    Associative(a, b, c + d);
  }

  lemma Regroup7<T>(a: seq<T>, b: seq<T>, c: seq<T>, d: seq<T>, e: seq<T>, f: seq<T>, g: seq<T>)
    ensures (((((a + b) + c) + d) + e) + f) + g == a + (b + (c + (d + (e + (f + g)))))
  {
    Regroup4((a + b) + c, d, e, f);
    Associative((a + b) + c, d + (e + f), g);
    Associative(d, e + f, g);
    Associative(e, f, g);
    Regroup4(a, b, c, d + (e + (f + g)));
  }

  /** Every message of the exchange is its fields in wire order and nothing else. */
  lemma SentReadsBack(s: State, freshNonce: seq<byte>)
    requires CanSend(s) && s.currentTransactionId == 0 && s.stage != Done
    requires s.stage == ReqDh ==> Writable(s.dhP.value) && Writable(s.dhQ.value) && Writable(s.dhEncryptedData.value)
    requires s.stage == KeyVerification ==> Writable(s.encryptedClientData.value)
    ensures var (t, message) := Send(s, freshNonce);
            && message.Some? && Matches(message.value, Outgoing(t), [])
            && t.nonce == (if s.stage == Pq && s.nonce == None then Some(freshNonce) else s.nonce)
  {
    match s.stage {
      case Pq => ReqPqReadsBack(Send(s, freshNonce).0);
      case ReqDh => ReqDhReadsBack(s);
      case KeyVerification => SetDhReadsBack(s);
      case Done =>
    }
  }

  lemma ReqPqReadsBack(s: State)
    requires s.stage == Pq && s.nonce.Some?
    ensures Matches(ReqPqBytes(s.nonce.value), Outgoing(s), [])
  {
    hide U32Bytes;
    NothingLeft();
    FieldFirst(s.nonce.value, Raw(s.nonce.value), [], End, []);
    assert s.nonce.value + [] == s.nonce.value;
    FieldFirst(U32Bytes(0xfbf22646), Word(0xfbf22646), s.nonce.value, Then(Raw(s.nonce.value), End), []);
  }

  lemma NoncesFirst(n: seq<byte>, sn: seq<byte>, s: seq<byte>, next: Layout, rest: seq<byte>)
    requires Matches(s, next, rest)
    ensures Matches(n + (sn + s), Nonces(n, sn, next), rest)
  {
    FieldFirst(sn, Raw(sn), s, next, rest);
    FieldFirst(n, Raw(n), sn + s, Then(Raw(sn), next), rest);
  }

  lemma ReqDhReadsBack(s: State)
    requires s.stage == ReqDh && CanSend(s)
    requires Writable(s.dhP.value) && Writable(s.dhQ.value) && Writable(s.dhEncryptedData.value)
    ensures Matches(ReqDhBytes(s), Outgoing(s), [])
  {
    hide U32Bytes, U64Bytes, TlBytes, Matches;
    var n, sn, dhP, dhQ, encrypted := s.nonce.value, s.serverNonce.value, s.dhP.value, s.dhQ.value, s.dhEncryptedData.value;
    var last := Then(Str(encrypted), End);
    var fourth := Then(ULong(s.publicKeyFingerprint), last);
    var third := Then(Str(dhQ), fourth);
    var second := Then(Str(dhP), third);
    var fp := U64Bytes(s.publicKeyFingerprint);
    NothingLeft();
    assert TlBytes(encrypted) + [] == TlBytes(encrypted);
    StringFirst(encrypted, [], End, []);
    FieldFirst(fp, ULong(s.publicKeyFingerprint), TlBytes(encrypted), last, []);
    StringFirst(dhQ, fp + TlBytes(encrypted), fourth, []);
    StringFirst(dhP, TlBytes(dhQ) + (fp + TlBytes(encrypted)), third, []);
    NoncesFirst(n, sn, TlBytes(dhP) + (TlBytes(dhQ) + (fp + TlBytes(encrypted))), second, []);
    FieldFirst(U32Bytes(0x92471d27), Word(0x92471d27), n + (sn + (TlBytes(dhP) + (TlBytes(dhQ) + (fp + TlBytes(encrypted))))),
               Nonces(n, sn, second), []);
    Regroup7(U32Bytes(0x92471d27), n, sn, TlBytes(dhP), TlBytes(dhQ), fp, TlBytes(encrypted));
  }

  lemma SetDhReadsBack(s: State)
    requires s.stage == KeyVerification && CanSend(s) && Writable(s.encryptedClientData.value)
    ensures Matches(SetDhBytes(s), Outgoing(s), [])
  {
    hide U32Bytes, TlBytes, Matches;
    var n, sn, data := s.nonce.value, s.serverNonce.value, s.encryptedClientData.value;
    NothingLeft();
    assert TlBytes(data) + [] == TlBytes(data);
    StringFirst(data, [], End, []);
    NoncesFirst(n, sn, TlBytes(data), Then(Str(data), End), []);
    FieldFirst(U32Bytes(0xead9f280), Word(0xead9f280), n + (sn + TlBytes(data)), Nonces(n, sn, Then(Str(data), End)), []);
    Regroup4(U32Bytes(0xead9f280), n, sn, TlBytes(data));
  }

  lemma PqInnerReadsBack(s: State, pq: seq<byte>)
    requires s.nonce.Some? && s.serverNonce.Some? && s.newNonce.Some? && s.dhP.Some? && s.dhQ.Some?
    requires Writable(pq) && Writable(s.dhP.value) && Writable(s.dhQ.value)
    ensures Matches(PqInnerData(s, pq), PqInner(s, pq), [])
  {
    hide U32Bytes, TlBytes, Matches;
    var n, sn, nn := s.nonce.value, s.serverNonce.value, s.newNonce.value;
    var dhP, dhQ := s.dhP.value, s.dhQ.value;
    var nonces := Nonces(n, sn, Then(Raw(nn), End));
    NothingLeft();
    assert nn + [] == nn;
    FieldFirst(nn, Raw(nn), [], End, []);
    NoncesFirst(n, sn, nn, Then(Raw(nn), End), []);
    StringFirst(dhQ, n + (sn + nn), nonces, []);
    StringFirst(dhP, TlBytes(dhQ) + (n + (sn + nn)), Then(Str(dhQ), nonces), []);
    StringFirst(pq, TlBytes(dhP) + (TlBytes(dhQ) + (n + (sn + nn))), Then(Str(dhP), Then(Str(dhQ), nonces)), []);
    FieldFirst(U32Bytes(0xeb59a005), Word(0xeb59a005), TlBytes(pq) + (TlBytes(dhP) + (TlBytes(dhQ) + (n + (sn + nn)))),
               Then(Str(pq), Then(Str(dhP), Then(Str(dhQ), nonces))), []);
    Regroup7(U32Bytes(0xeb59a005), TlBytes(pq), TlBytes(dhP), TlBytes(dhQ), n, sn, nn);
  }

  /** Over every run: from the first accepted reply on, what was encrypted with the key of the accepted fingerprint is the
      hash of a text, followed by the text, and the text is the server's number, the two factors, and the three nonces, in
      wire order. */
  lemma EncryptedPqReadsBack(p: Primitives, run: seq<Action>)
    requires p.Valid() && Reached(p, run).stage != Pq
    ensures var s := Reached(p, run);
            && s.accepted != [] && s.accepted[0].message.ResPq?
            && var m := s.accepted[0].message;
               Writable(m.pq) ==>
                 exists text :: s.dhEncryptedData == p.rsaEncrypt(m.fingerprint, p.sha1(text) + text)
                                && Matches(text, PqInner(s, m.pq), [])
  {
    hide Exec, Primitives.Valid, NewAuthKey, NewNonceHash, ClientData, FactorBytes, PqInnerData, Matches, PqInner;
    InvHolds(p, INITIAL, run);
    var s := Reached(p, run);
    FactorsAreWritable(s.accepted[0].factor);
    FactorsAreWritable(Quotient(PqValue(s.accepted[0].message.pq), s.accepted[0].factor));
    if Writable(s.accepted[0].message.pq) {
      PqInnerReadsBack(s, s.accepted[0].message.pq);
    }
  }

  lemma FactorsAreWritable(n: u64)
    ensures Writable(FactorBytes(n))
  {
  }

  // ---------- the shared key ----------

  function ClientText(s: State, gb: seq<byte>): seq<byte> {
    U32Bytes(0x706fb308) + Unwrapped(s.nonce) + Unwrapped(s.serverNonce) + I64Bytes(0) + TlBytes(gb)
  }

  lemma ClientReadsBack(s: State, gb: seq<byte>)
    requires Writable(gb)
    ensures Matches(ClientText(s, gb), ClientInner(s, gb), [])
  {
    hide U32Bytes, I64Bytes, TlBytes, Matches;
    var n, sn := Unwrapped(s.nonce), Unwrapped(s.serverNonce);
    var nonces := Nonces(n, sn, Then(Long(0), Then(Str(gb), End)));
    NothingLeft();
    assert TlBytes(gb) + [] == TlBytes(gb);
    StringFirst(gb, [], End, []);
    FieldFirst(I64Bytes(0), Long(0), TlBytes(gb), Then(Str(gb), End), []);
    NoncesFirst(n, sn, I64Bytes(0) + TlBytes(gb), Then(Long(0), Then(Str(gb), End)), []);
    FieldFirst(U32Bytes(0x706fb308), Word(0x706fb308), n + (sn + (I64Bytes(0) + TlBytes(gb))), nonces, []);
    Regroup4(U32Bytes(0x706fb308), n, sn, I64Bytes(0));
    Associative(U32Bytes(0x706fb308), n + (sn + I64Bytes(0)), TlBytes(gb));
    Regroup3(n, sn, I64Bytes(0), TlBytes(gb));
  }

  lemma Regroup3<T>(a: seq<T>, b: seq<T>, c: seq<T>, d: seq<T>)
    ensures (a + (b + c)) + d == a + (b + (c + d))
  {
    Associative(a, b + c, d);
    Associative(b, c, d);
  }

  /** What the server finds when it decrypts the client's half: the hash of a text, the text, and less than a block of
      filling. */
  ghost predicate ClientHalf(p: Primitives, s: State, decrypted: seq<byte>, gb: seq<byte>) {
    exists text, filling :: && decrypted == p.sha1(text) + text + filling && |filling| < 16
                            && Matches(text, ClientInner(s, gb), [])
  }

  lemma DecryptedHalf(p: Primitives, s: State, inner: Message, r: Randoms)
    requires p.Valid() && AesInverts(p) && inner.ServerDhInnerData?
    requires Writable(p.modExp(GBytes(inner.g), r.b, inner.dhPrime))
    ensures var (n, sn, nn) := (Unwrapped(s.nonce), Unwrapped(s.serverNonce), Unwrapped(s.newNonce));
            var decrypted := p.aesDecrypt(TempKey(p, nn, sn), TempIv(p, nn, sn), ClientData(p, n, sn, nn, inner, r));
            decrypted.Some? && ClientHalf(p, s, decrypted.value, p.modExp(GBytes(inner.g), r.b, inner.dhPrime))
  {
    hide Primitives.Valid, TempKey, TempIv, GBytes, Matches, ClientInner, ClientText, ClientData, AesInverts;
    var gb := p.modExp(GBytes(inner.g), r.b, inner.dhPrime);
    ClientReadsBack(s, gb);
    var filling := ClientDataIs(p, s, inner, r);
    var text := ClientText(s, gb);
    Opens(p, TempKey(p, Unwrapped(s.newNonce), Unwrapped(s.serverNonce)),
          TempIv(p, Unwrapped(s.newNonce), Unwrapped(s.serverNonce)), p.sha1(text) + text + filling);
  }

  lemma ClientDataIs(p: Primitives, s: State, inner: Message, r: Randoms) returns (filling: seq<byte>)
    requires p.Valid() && inner.ServerDhInnerData?
    ensures var (n, sn, nn) := (Unwrapped(s.nonce), Unwrapped(s.serverNonce), Unwrapped(s.newNonce));
            var text := ClientText(s, p.modExp(GBytes(inner.g), r.b, inner.dhPrime));
            && |filling| < 16 && |p.sha1(text) + text + filling| % 16 == 0
            && ClientData(p, n, sn, nn, inner, r) == p.aesEncrypt(TempKey(p, nn, sn), TempIv(p, nn, sn), p.sha1(text) + text + filling)
  {
    hide Primitives.Valid, TempKey, TempIv, U32Bytes, I64Bytes, TlBytes, GBytes;
    var text := ClientText(s, p.modExp(GBytes(inner.g), r.b, inner.dhPrime));
    var hashed := p.sha1(text) + text;
    var n := (16 - |hashed| % 16) % 16;
    filling := seq<byte>(n, i requires 0 <= i < n => r.padding(i));
    WholeBlocks(|hashed|);
  }

  lemma WholeBlocks(size: nat)
    ensures var n := (16 - size % 16) % 16; n < 16 && (size + n) % 16 == 0
  {
  }

  lemma Opens(p: Primitives, key: seq<byte>, iv: seq<byte>, d: seq<byte>)
    requires AesInverts(p) && |key| == 32 && |iv| == 16 && |d| % 16 == 0
    ensures p.aesDecrypt(key, iv, p.aesEncrypt(key, iv, d)) == Some(d)
  {
  }

  /** g as four big-endian bytes. */
  lemma GIsBigEndian(g: i32)
    requires 0 <= g
    ensures |GBytes(g)| == 4 && FromBigEndian(GBytes(g)) == g
  {
    ReversedIsBigEndian(I32Bytes(g));
    Decode32(g);
  }

  /** Over every run, while the key is being verified: the server decrypts the client's half under the temporary key,
      reads back the nonces and some power gb of g, and if the ga it sent is a power of g itself, its power of gb is the
      client's key. */
  lemma BothEndsShareTheKey(p: Primitives, run: seq<Action>, a: seq<byte>)
    requires p.Valid() && AesInverts(p) && Commutes(p) && Reached(p, run).stage == KeyVerification
    ensures var s := Reached(p, run);
            && |s.accepted| == 2 && s.accepted[1].DhReply? && s.accepted[1].inner.ServerDhInnerData?
            && s.authKey.Some? && s.encryptedClientData.Some? && s.newNonce.Some? && s.serverNonce.Some?
            && var inner := s.accepted[1].inner;
               var g := GBytes(inner.g);
               var gb := p.modExp(g, s.accepted[1].randoms.b, inner.dhPrime);
               && |g| == 4 && FromBigEndian(g) == inner.g
               && (Writable(gb) ==>
                     var decrypted := p.aesDecrypt(TempKey(p, s.newNonce.value, s.serverNonce.value),
                                                   TempIv(p, s.newNonce.value, s.serverNonce.value), s.encryptedClientData.value);
                     decrypted.Some? && ClientHalf(p, s, decrypted.value, gb))
               && (inner.ga == p.modExp(g, a, inner.dhPrime) ==> p.modExp(gb, a, inner.dhPrime) == s.authKey.value.key)
  {
    hide Exec, Primitives.Valid, NewNonceHash, ClientData, PqInnerData, FactorBytes, TempKey, TempIv, GBytes, AesInverts,
      ClientHalf, NumberOf, XorBytes;
    InvHolds(p, INITIAL, run);
    var s := Reached(p, run);
    var accepted := s.accepted[1];
    GIsBigEndian(accepted.inner.g);
    if Writable(p.modExp(GBytes(accepted.inner.g), accepted.randoms.b, accepted.inner.dhPrime)) {
      DecryptedHalf(p, s, accepted.inner, accepted.randoms);
    }
  }

  // ---------- the exchange with an honest server ----------

  /** The hash of an answer is found under any filling of less than sixteen bytes, at the answer or a longer prefix. */
  lemma {:induction false} HashIsFound(p: Primitives, answer: seq<byte>, filling: seq<byte>, tries: nat)
    requires |filling| < tries
    ensures var found := VerifiedAnswer(p, p.sha1(answer), answer + filling, tries);
            found.Some? && exists more :: found.value == answer + more
    decreases tries
  {
    var data := answer + filling;
    if filling == [] {
      assert data == answer;
    } else if p.sha1(data) != p.sha1(answer) {
      HashIsFound(p, answer, filling[..|filling| - 1], tries - 1);
      assert data[..|data| - 1] == answer + filling[..|filling| - 1];
    }
  }

  /** The first reply of an honest server is accepted. */
  lemma HonestPq(p: Primitives, s: State, n: seq<byte>, sn: seq<byte>, pq: seq<byte>, fingerprint: u64, r: Randoms)
    requires s.stage == Pq && s.nonce == Some(n) && fingerprint in s.publicKeys && r.factor > 0
    requires var t := s.(publicKeyFingerprint := fingerprint, dhP := Some(FactorBytes(r.factor)),
                         dhQ := Some(FactorBytes(Quotient(PqValue(pq), r.factor))),
                         serverNonce := Some(sn), newNonce := Some(r.newNonce));
             p.rsaEncrypt(fingerprint, p.sha1(PqInnerData(t, pq)) + PqInnerData(t, pq)).Some?
    ensures var (t, outcome) := ReceivePq(p, s, ResPq(n, sn, pq, fingerprint), r);
            && outcome == Advanced && t.stage == ReqDh
            && t.nonce == Some(n) && t.serverNonce == Some(sn) && t.newNonce == Some(r.newNonce)
  {
    hide PqInnerData, FactorBytes, PqValue;
  }

  /** The second: its answer is what the server wrote, hashed, filled up and encrypted under the temporary key. */
  lemma HonestDh(p: Primitives, s: State, n: seq<byte>, sn: seq<byte>, nn: seq<byte>, inner: Message, answer: seq<byte>,
                 filling: seq<byte>, r: Randoms)
    requires p.Valid() && AesInverts(p) && s.stage == ReqDh
    requires s.nonce == Some(n) && s.serverNonce == Some(sn) && s.newNonce == Some(nn)
    requires |n| == |sn| == 16 && |nn| >= 8
    requires inner.ServerDhInnerData? && inner.nonce == n && inner.serverNonce == sn && 2 <= inner.g <= 7
    requires Matches(answer, LayoutOf(inner), []) && |filling| < 16 && (20 + |answer| + |filling|) % 16 == 0
    ensures var encrypted := p.aesEncrypt(TempKey(p, nn, sn), TempIv(p, nn, sn), p.sha1(answer) + (answer + filling));
            var (t, outcome) := ReceiveDh(p, s, ServerDhParamsOk(n, sn, encrypted), r);
            && outcome == Advanced && t.stage == KeyVerification && t.authKey.Some?
            && t.authKey.value.key == p.modExp(inner.ga, r.b, inner.dhPrime)
            && t.nonce == Some(n) && t.serverNonce == Some(sn) && t.newNonce == Some(nn)
  {
    hide Primitives.Valid, TempKey, TempIv, AesInverts, VerifiedAnswer, ParseMessage, Matches, ReceiveInner, ReceiveDh;
    var encrypted := p.aesEncrypt(TempKey(p, nn, sn), TempIv(p, nn, sn), p.sha1(answer) + (answer + filling));
    var found := AnswerIsFound(p, s, n, sn, nn, inner, answer, filling, r);
    InnerIsAccepted(p, s, ServerDhParamsOk(n, sn, encrypted), inner, found, r);
  }

  lemma AnswerIsFound(p: Primitives, s: State, n: seq<byte>, sn: seq<byte>, nn: seq<byte>, inner: Message, answer: seq<byte>,
                      filling: seq<byte>, r: Randoms) returns (found: seq<byte>)
    requires p.Valid() && AesInverts(p) && s.stage == ReqDh
    requires s.nonce == Some(n) && s.serverNonce == Some(sn) && s.newNonce == Some(nn) && |n| == 16
    requires inner.ServerDhInnerData? && inner.nonce == n && SizesAllowed(inner)
    requires Matches(answer, LayoutOf(inner), []) && |filling| < 16 && (20 + |answer| + |filling|) % 16 == 0
    ensures ParseMessage(found).Got? && ParseMessage(found).value == Some(inner)
    ensures var encrypted := p.aesEncrypt(TempKey(p, nn, sn), TempIv(p, nn, sn), p.sha1(answer) + (answer + filling));
            var m := ServerDhParamsOk(n, sn, encrypted);
            ReceiveDh(p, s, m, r) == ReceiveInner(p, s, m, found, r)
  {
    hide Primitives.Valid, TempKey, TempIv, AesInverts, VerifiedAnswer, ParseMessage, Matches, ReceiveInner, LayoutOf;
    var key, iv := TempKey(p, nn, sn), TempIv(p, nn, sn);
    var plain := p.sha1(answer) + (answer + filling);
    ShortHashSize(p, answer);
    Opens(p, key, iv, plain);
    assert plain[..20] == p.sha1(answer) && plain[20..] == answer + filling;
    AnswerIsLong(answer, inner);
    HashIsFound(p, answer, filling, 16);
    found := VerifiedAnswer(p, p.sha1(answer), answer + filling, 16).value;
    var more :| found == answer + more;
    ParsedWithMore(answer, inner, [], more);
  }

  lemma ShortHashSize(p: Primitives, d: seq<byte>)
    requires p.Valid()
    ensures |p.sha1(d)| == 20
  {
  }

  lemma InnerIsAccepted(p: Primitives, s: State, m: Message, inner: Message, found: seq<byte>, r: Randoms)
    requires p.Valid() && ParseMessage(found).Got? && ParseMessage(found).value == Some(inner)
    requires inner.ServerDhInnerData? && s.nonce == Some(inner.nonce) && s.serverNonce == Some(inner.serverNonce)
    requires s.newNonce.Some? && |s.newNonce.value| >= 8 && |inner.serverNonce| == 16 && 2 <= inner.g <= 7
    ensures var (t, outcome) := ReceiveInner(p, s, m, found, r);
            && outcome == Advanced && t.stage == KeyVerification && t.authKey.Some?
            && t.authKey.value.key == p.modExp(inner.ga, r.b, inner.dhPrime)
            && t.nonce == s.nonce && t.serverNonce == s.serverNonce && t.newNonce == s.newNonce
  {
    hide Primitives.Valid, ParseMessage, NumberOf, XorBytes, ClientData;
  }

  lemma WordTakes(s: seq<byte>, w: u32, next: Layout, rest: seq<byte>)
    requires Matches(s, Then(Word(w), next), rest)
    ensures |s| >= 4 && Matches(s[4..], next, rest)
  {
    var n: nat :| n <= |s| && FieldForm(s[..n], Word(w)) && Matches(s[n..], next, rest);
  }

  lemma RawTakes(s: seq<byte>, d: seq<byte>, next: Layout, rest: seq<byte>)
    requires Matches(s, Then(Raw(d), next), rest)
    ensures |s| >= |d|
  {
    var n: nat :| n <= |s| && FieldForm(s[..n], Raw(d)) && Matches(s[n..], next, rest);
  }

  lemma AnswerIsLong(answer: seq<byte>, inner: Message)
    requires inner.ServerDhInnerData? && |inner.nonce| == 16 && Matches(answer, LayoutOf(inner), [])
    ensures |answer| >= 20
  {
    hide Matches;
    var behind := LayoutOf(inner).next;
    WordTakes(answer, 0xefeab3aa, behind, []);
    RawTakes(answer[4..], inner.nonce, behind.next, []);
  }

  /** The third: the right hash and nothing else makes the client tell its key. */
  lemma HonestOk(p: Primitives, s: State, n: seq<byte>, sn: seq<byte>, nn: seq<byte>)
    requires p.Valid() && s.stage == KeyVerification && s.authKey.Some?
    requires s.nonce == Some(n) && s.serverNonce == Some(sn) && s.newNonce == Some(nn)
    ensures var hash := p.sha1(nn + [1] + p.sha1(s.authKey.value.key)[..8])[4..];
            var (t, outcome) := ReceiveVerification(p, s, DhGenOk(n, sn, hash));
            outcome == Told(s.authKey.value) && t.stage == Done
    ensures forall m: Message :: (m.DhGenOk? || m.DhGenRetry? || m.DhGenFail?) && m.nonce == n && m.serverNonce == sn ==>
              (ReceiveVerification(p, s, m).1.Told?
               <==> m.DhGenOk? && m.nextNonceHash == p.sha1(nn + [1] + p.sha1(s.authKey.value.key)[..8])[4..])
              && (!ReceiveVerification(p, s, m).1.Told? ==> ReceiveVerification(p, s, m) == (Reset(s), Restarted))
  {
    hide NewNonceHash, Primitives.Valid;
    NonceHashBytes(p, nn, s.authKey.value.key);
  }

  /** An honest server gets the client from the first reply to the notice of the key, whatever random values the client
      draws and whatever forms and fillings the server chooses, and both have the same key. */
  lemma HonestExchangeCompletes(p: Primitives, s: State, n: seq<byte>, sn: seq<byte>, pq: seq<byte>, fingerprint: u64,
                                r1: Randoms, inner: Message, answer: seq<byte>, filling: seq<byte>, r2: Randoms, a: seq<byte>)
    requires p.Valid() && AesInverts(p) && Commutes(p)
    requires s.stage == Pq && s.nonce == Some(n) && s.publicKeys == DEFAULT_KEYS && fingerprint in DEFAULT_KEYS
    requires |n| == |sn| == 16 && |r1.newNonce| == 32 && r1.factor > 0
    requires var t := s.(publicKeyFingerprint := fingerprint, dhP := Some(FactorBytes(r1.factor)),
                         dhQ := Some(FactorBytes(Quotient(PqValue(pq), r1.factor))),
                         serverNonce := Some(sn), newNonce := Some(r1.newNonce));
             p.rsaEncrypt(fingerprint, p.sha1(PqInnerData(t, pq)) + PqInnerData(t, pq)).Some?
    requires inner.ServerDhInnerData? && inner.nonce == n && inner.serverNonce == sn && 2 <= inner.g <= 7
    requires inner.ga == p.modExp(GBytes(inner.g), a, inner.dhPrime)
    requires Matches(answer, LayoutOf(inner), []) && |filling| < 16 && (20 + |answer| + |filling|) % 16 == 0
    ensures var gb := p.modExp(GBytes(inner.g), r2.b, inner.dhPrime);
            var serverKey := p.modExp(gb, a, inner.dhPrime);
            var (s1, first) := ReceivePq(p, s, ResPq(n, sn, pq, fingerprint), r1);
            && first == Advanced && s1.stage == ReqDh
            && var encrypted := p.aesEncrypt(TempKey(p, r1.newNonce, sn), TempIv(p, r1.newNonce, sn),
                                             p.sha1(answer) + (answer + filling));
               var (s2, second) := ReceiveDh(p, s1, ServerDhParamsOk(n, sn, encrypted), r2);
               && second == Advanced && s2.stage == KeyVerification && s2.authKey.Some?
               && var hash := p.sha1(r1.newNonce + [1] + p.sha1(serverKey)[..8])[4..];
                  var third := ReceiveVerification(p, s2, DhGenOk(n, sn, hash)).1;
                  third.Told? && third.authKey.key == serverKey
  {
    hide ReceivePq, ReceiveDh, ReceiveVerification, Primitives.Valid, AesInverts, Matches, TempKey, TempIv, GBytes, FactorBytes,
      PqInnerData, PqValue;
    var nn := r1.newNonce;
    HonestPq(p, s, n, sn, pq, fingerprint, r1);
    var s1 := ReceivePq(p, s, ResPq(n, sn, pq, fingerprint), r1).0;
    HonestDh(p, s1, n, sn, nn, inner, answer, filling, r2);
    var encrypted := p.aesEncrypt(TempKey(p, nn, sn), TempIv(p, nn, sn), p.sha1(answer) + (answer + filling));
    var s2 := ReceiveDh(p, s1, ServerDhParamsOk(n, sn, encrypted), r2).0;
    assert s2.authKey.value.key == p.modExp(p.modExp(GBytes(inner.g), r2.b, inner.dhPrime), a, inner.dhPrime);
    HonestOk(p, s2, n, sn, nn);
  }

  /** A reply with a foreign nonce changes nothing. */
  lemma ForeignRepliesAreIgnored(p: Primitives, s: State, m: Message, r: Randoms)
    requires p.Valid() && Inv(p, s) && s.nonce.Some?
    requires m.ResPq? || m.ServerDhParamsFail? || m.ServerDhParamsOk? || m.DhGenOk? || m.DhGenRetry? || m.DhGenFail?
    requires m.nonce != s.nonce.value || (s.stage != Pq && m.serverNonce != Unwrapped(s.serverNonce))
    ensures s.stage == KeyVerification ==> s.authKey.Some?
    ensures Receive(p, s, m, r) == (s, Ignored)
  {
    hide Primitives.Valid, NewAuthKey, ClientData, PqInnerData, FactorBytes;
  }

  /** An answer is only taken from what hashes to the hash in front of it. */
  lemma {:induction false} AnswerIsVerified(p: Primitives, hash: seq<byte>, data: seq<byte>, tries: nat)
    ensures var found := VerifiedAnswer(p, hash, data, tries);
            found.Some? ==> p.sha1(found.value) == hash && found.value <= data && |data| < |found.value| + tries
    decreases tries
  {
    if tries > 0 && p.sha1(data) != hash && |data| > 0 {
      AnswerIsVerified(p, hash, data[..|data| - 1], tries - 1);
    } else if tries > 0 && p.sha1(data) != hash {
      AnswerIsVerified(p, hash, data, tries - 1);
    }
  }

  /** The second reply moves the exchange on only with inner data that was encrypted under the temporary key behind its own
      hash, carries the nonces of the exchange, and has g from 2 to 7. */
  lemma SecondReplyIsVerified(p: Primitives, s: State, m: Message, r: Randoms)
    requires p.Valid() && Inv(p, s) && s.stage == ReqDh && ReceiveDh(p, s, m, r).1 == Advanced
    ensures m.ServerDhParamsOk? && s.nonce == Some(m.nonce) && s.serverNonce == Some(m.serverNonce) && s.newNonce.Some?
    ensures var decrypted := p.aesDecrypt(TempKey(p, s.newNonce.value, m.serverNonce), TempIv(p, s.newNonce.value, m.serverNonce),
                                          m.encryptedResponse);
            decrypted.Some? && |decrypted.value| >= 36
            && exists answer, inner :: && answer <= decrypted.value[20..] && p.sha1(answer) == decrypted.value[..20]
                                       && |decrypted.value| < 20 + |answer| + 16
                                       && IsInner(s, answer, inner)
  {
    hide Primitives.Valid, TempKey, TempIv, VerifiedAnswer, ParseMessage, NewAuthKey, ClientData, PqInnerData, FactorBytes, IsInner;
    var decrypted := p.aesDecrypt(TempKey(p, s.newNonce.value, m.serverNonce), TempIv(p, s.newNonce.value, m.serverNonce),
                                  m.encryptedResponse).value;
    AnswerIsVerified(p, decrypted[..20], decrypted[20..], 16);
    var answer := VerifiedAnswer(p, decrypted[..20], decrypted[20..], 16).value;
    InnerIs(s, answer, ParseMessage(answer).value.value);
  }

  ghost predicate IsInner(s: State, answer: seq<byte>, inner: Message) {
    && inner.ServerDhInnerData? && ParseMessage(answer).Got? && ParseMessage(answer).value == Some(inner)
    && s.nonce == Some(inner.nonce) && s.serverNonce == Some(inner.serverNonce) && 2 <= inner.g <= 7
  }

  lemma InnerIs(s: State, answer: seq<byte>, inner: Message)
    requires ParseMessage(answer).Got? && ParseMessage(answer).value == Some(inner)
    requires s.nonce.Some? && s.serverNonce.Some? && s.newNonce.Some?
    requires InnerAccepted(s.nonce.value, s.serverNonce.value, s.newNonce.value, inner)
    ensures IsInner(s, answer, inner)
  {
    hide ParseMessage;
  }

  /** The request of the first stage goes out once it is prepared, and then no more until a reply or a restart; a restart
      draws a new nonce. */
  lemma FirstRequestIsSentOnce(s: State, messageId: int, seqNo: int, freshNonce: seq<byte>)
    requires s.stage == Pq
    ensures Send(OnPrepared(s, messageId, seqNo), freshNonce).1 == None
    ensures CanSend(Reset(s)) && Send(Reset(s), freshNonce).0.nonce == Some(freshNonce)
    ensures Send(Reset(s), freshNonce).1.Some? && Send(Reset(s), freshNonce).0.publicKeys == DEFAULT_KEYS
    ensures Reset(s).serverNonce == None && Reset(s).newNonce == None && Reset(s).authKey == None && Reset(s).accepted == []
  {
  }
}
