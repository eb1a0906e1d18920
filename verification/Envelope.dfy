/** The encrypted envelope of gp/proto/Proto.cpp: dataForEncryptedMessage, dataForEncryptedContainer, paddedData,
    decryptIncomingTransportData and parseIncomingMessages. SHA-256 is an arbitrary function with 32-byte results and
    AES-256-CBC an arbitrary pair of length-preserving functions that are inverse on whole blocks. */
module Envelope {
  import opened Bytes
  import opened Options
  import opened Sequences
  import opened Tl
  import opened InputStreams
  import opened OutputStreams
  import opened InternalParser
  import InternalParserMethods

  datatype Primitives = Primitives(
    sha256: seq<byte> -> seq<byte>,
    encrypt: (seq<byte>, seq<byte>, seq<byte>) -> seq<byte>,
    decrypt: (seq<byte>, seq<byte>, seq<byte>) -> seq<byte>)
  {
    ghost predicate Valid() {
      && (forall d :: |sha256(d)| == 32)
      && (forall key, iv, d :: |encrypt(key, iv, d)| == |d| && |decrypt(key, iv, d)| == |d|)
      && (forall key, iv, d :: |key| == 32 && |iv| == 16 && |d| % 16 == 0 ==> decrypt(key, iv, encrypt(key, iv, d)) == d)
    }
  }

  datatype AuthInfo = AuthInfo(authKey: seq<byte>, authKeyId: i64)

  const INT32_MAX := 0x7fff_ffff
  /** Plaintexts above this size no longer fit the INT32_MAX bytes that readRemainingData returns. */
  const MAX_PLAIN := 0x7fff_fff0
  const HEADER_SIZE := 32

  // ---------- keys ----------

  /** MessageEncryptionKey::messageEncryptionKeyForAuthKey; it dereferences 76 bytes of the auth key. */
  function EncryptionKey(p: Primitives, authKey: seq<byte>, messageKey: seq<byte>): (r: (seq<byte>, seq<byte>))
    requires p.Valid() && |authKey| >= 76 && |messageKey| == 16
    ensures |r.0| == 32 && |r.1| == 16
  {
    var a := p.sha256(messageKey + authKey[0..36]);
    var b := p.sha256(authKey[40..76] + messageKey);
    (a[0..8] + b[8..16] + b[16..24] + a[24..32], a[8..16] + b[24..32])
  }

  /** The low half of the plaintext's hash. */
  function MessageKey(p: Primitives, plain: seq<byte>): (r: seq<byte>)
    requires p.Valid()
    ensures |r| == 16
  {
    p.sha256(plain)[16..32]
  }

  /** Byte by byte: the key is the first hash with its middle half taken from the second, and the initialisation vector
      is what the key left out, the first hash's eight bytes before the second's. */
  lemma KeyBytes(p: Primitives, authKey: seq<byte>, messageKey: seq<byte>)
    requires p.Valid() && |authKey| >= 76 && |messageKey| == 16
    ensures var a, b := p.sha256(messageKey + authKey[..36]), p.sha256(authKey[40..76] + messageKey);
            var (key, iv) := EncryptionKey(p, authKey, messageKey);
            && (forall i :: 0 <= i < 32 ==> key[i] == if 8 <= i < 24 then b[i] else a[i])
            && (forall i :: 0 <= i < 16 ==> iv[i] == if i < 8 then a[8 + i] else b[16 + i])
  {
    var a, b := p.sha256(messageKey + authKey[..36]), p.sha256(authKey[40..76] + messageKey);
    assert authKey[0..36] == authKey[..36];
    hide Primitives.Valid;
    Woven(a, b);
  }

  lemma Woven(a: seq<byte>, b: seq<byte>)
    requires |a| == |b| == 32
    ensures var key, iv := a[0..8] + b[8..16] + b[16..24] + a[24..32], a[8..16] + b[24..32];
            && (forall i :: 0 <= i < 32 ==> key[i] == if 8 <= i < 24 then b[i] else a[i])
            && (forall i :: 0 <= i < 16 ==> iv[i] == if i < 8 then a[8 + i] else b[16 + i])
  {
  }

  // ---------- sealing ----------

  function Plaintext(salt: i64, sessionId: i64, messageId: i64, seqNo: i32, body: seq<byte>): (s: seq<byte>)
    ensures |s| == HEADER_SIZE + |body|
  {
    I64Bytes(salt) + (I64Bytes(sessionId) + (I64Bytes(messageId) + (I32Bytes(seqNo) + (I32Bytes(CastI32(|body|)) + body))))
  }

  function BlockPad(n: nat): (p: nat)
    ensures p < 16 && (n + p) % 16 == 0
  {
    (16 - n % 16) % 16
  }

  function Padded(plain: seq<byte>, random: seq<byte>): seq<byte>
    requires |random| == 16
  {
    plain + random[..BlockPad(|plain|)]
  }

  function Seal(p: Primitives, auth: AuthInfo, plain: seq<byte>, random: seq<byte>): seq<byte>
    requires p.Valid() && |auth.authKey| >= 76 && |random| == 16
  {
    var messageKey := MessageKey(p, plain);
    var (key, iv) := EncryptionKey(p, auth.authKey, messageKey);
    I64Bytes(auth.authKeyId) + (messageKey + p.encrypt(key, iv, Padded(plain, random)))
  }

  method PadData(stream: OutputStream, random: seq<byte>)
    requires stream.Valid() && |random| == 16
    modifies stream, stream.bytes
    ensures stream.Valid() && (stream.bytes == old(stream.bytes) || fresh(stream.bytes))
    ensures stream.Contents() == Padded(old(stream.Contents()), random)
  {
    var index := 0;
    ghost var plain := stream.Contents();
    while stream.currentSize % 16 != 0
      invariant 0 <= index <= BlockPad(|plain|)
      invariant stream.Valid() && (stream.bytes == old(stream.bytes) || fresh(stream.bytes))
      invariant stream.Contents() == plain + random[..index]
      decreases BlockPad(|plain|) - index
    {
      StillUnaligned(|plain|, index);
      stream.WriteUInt8(random[index]);
      assert random[..index] + [random[index]] == random[..index + 1];
      index := index + 1;
    }
    AlignedMeansPadded(|plain|, index);
  }

  lemma StillUnaligned(n: nat, k: nat)
    requires k <= BlockPad(n) && (n + k) % 16 != 0
    ensures k < BlockPad(n)
  {
  }

  lemma AlignedMeansPadded(n: nat, k: nat)
    requires k <= BlockPad(n) && (n + k) % 16 == 0
    ensures k == BlockPad(n)
  {
  }

  /** The header and body of an envelope, as both dataFor... methods write them. */
  method WritePlaintext(stream: OutputStream, salt: i64, sessionId: i64, messageId: i64, seqNo: i32, body: seq<byte>)
    requires stream.Valid() && stream.Contents() == []
    modifies stream, stream.bytes
    ensures stream.Valid() && (stream.bytes == old(stream.bytes) || fresh(stream.bytes))
    ensures stream.Contents() == Plaintext(salt, sessionId, messageId, seqNo, body)
  {
    hide I64Bytes, I32Bytes, CastI32;
    EmptyIsNeutral(I64Bytes(salt));
    stream.WriteInt64(salt);
    stream.WriteInt64(sessionId);
    stream.WriteInt64(messageId);
    stream.WriteInt32(seqNo);
    stream.WriteInt32(CastI32(|body|));
    stream.WriteData(body);
    RegroupHeader(I64Bytes(salt), I64Bytes(sessionId), I64Bytes(messageId), I32Bytes(seqNo), I32Bytes(CastI32(|body|)), body);
  }

  lemma RegroupHeader<T>(a: seq<T>, b: seq<T>, c: seq<T>, d: seq<T>, e: seq<T>, f: seq<T>)
    ensures ((((a + b) + c) + d) + e) + f == a + (b + (c + (d + (e + f))))
  {
    Associative(a, b, c);
    Associative(a, b + c, d);
    Associative(b, c, d);
    assert (((a + b) + c) + d) + e == a + (b + (c + (d + e)));
  }

  /** Hashes, pads and encrypts what the stream holds, then frames it with the key id and the message key. */
  method SealStream(p: Primitives, auth: AuthInfo, decrypted: OutputStream, random: seq<byte>) returns (data: seq<byte>)
    requires p.Valid() && |auth.authKey| >= 76 && |random| == 16 && decrypted.Valid()
    modifies decrypted, decrypted.bytes
    ensures data == Seal(p, auth, old(decrypted.Contents()), random)
  {
    hide Primitives.Valid, I64Bytes, EncryptionKey, MessageKey, Padded;
    var messageKey := MessageKey(p, decrypted.Contents());
    PadData(decrypted, random);
    var keyIv := EncryptionKey(p, auth.authKey, messageKey);
    var cipher := p.encrypt(keyIv.0, keyIv.1, decrypted.Contents());
    var encrypted := new OutputStream();
    encrypted.WriteInt64(auth.authKeyId);
    encrypted.WriteData(messageKey);
    encrypted.WriteData(cipher);
    data := encrypted.Contents();
    assert data == I64Bytes(auth.authKeyId) + (messageKey + cipher);
  }

  /** dataForEncryptedMessage */
  method DataForEncryptedMessage(p: Primitives, auth: AuthInfo, salt: i64, sessionId: i64, messageId: i64, seqNo: i32,
                                 body: seq<byte>, random: seq<byte>)
    returns (data: seq<byte>)
    requires p.Valid() && |auth.authKey| >= 76 && |random| == 16
    ensures data == Seal(p, auth, Plaintext(salt, sessionId, messageId, seqNo, body), random)
  {
    hide Primitives.Valid, Plaintext, Seal;
    var decrypted := new OutputStream();
    WritePlaintext(decrypted, salt, sessionId, messageId, seqNo, body);
    data := SealStream(p, auth, decrypted, random);
  }

  /** dataForEncryptedContainer, once the session has issued the container's own id and sequence number. */
  method DataForEncryptedContainer(p: Primitives, auth: AuthInfo, salt: i64, sessionId: i64, containerMessageId: i64,
                                   containerSeqNo: i32, messages: seq<SubMessage>, random: seq<byte>)
    returns (data: seq<byte>)
    requires p.Valid() && |auth.authKey| >= 76 && |random| == 16
    ensures data == Seal(p, auth, Plaintext(salt, sessionId, containerMessageId, containerSeqNo, ContainerBytes(messages)), random)
  {
    hide Primitives.Valid, Plaintext, Seal, ContainerBytes;
    var containerData := InternalParserMethods.GenerateContainer(messages);
    var decrypted := new OutputStream();
    WritePlaintext(decrypted, salt, sessionId, containerMessageId, containerSeqNo, containerData);
    data := SealStream(p, auth, decrypted, random);
  }

  // ---------- opening ----------

  /** decryptIncomingTransportData: None is the null result. */
  function Open(p: Primitives, auth: Option<AuthInfo>, data: seq<byte>): Option<seq<byte>>
    requires p.Valid() && (auth.Some? ==> |auth.value.authKey| >= 76)
  {
    if |data| < 24 + 36 || auth == None then None else
      var keyId := ReadI64(data);
      if keyId.Thrown? || keyId.value != auth.value.authKeyId then None else
        var embeddedKey := keyId.rest[..16];
        var remaining := ReadRemaining(keyId.rest[16..]).value;
        var (key, iv) := EncryptionKey(p, auth.value.authKey, embeddedKey);
        var decrypted := p.decrypt(key, iv, remaining);
        if |decrypted| < HEADER_SIZE then None else
          var length := FromLittleEndian(decrypted[28..32]);
          if length > |decrypted| - HEADER_SIZE then None
          else if MessageKey(p, decrypted[..HEADER_SIZE + length]) != embeddedKey then None
          else Some(decrypted)
  }

  method DecryptIncomingTransportData(p: Primitives, auth: Option<AuthInfo>, data: seq<byte>)
    returns (r: Option<seq<byte>>)
    requires p.Valid() && (auth.Some? ==> |auth.value.authKey| >= 76)
    ensures r == Open(p, auth, data)
  {
    hide Primitives.Valid, ReadI64, EncryptionKey, MessageKey, ReadRemaining, FromLittleEndian;
    if |data| < 24 + 36 {
      return None;
    }
    if auth == None {
      return None;
    }
    var stream := new InputStream(data);
    var authKeyId := stream.ReadInt64();
    if authKeyId.Thrown? || authKeyId.value != auth.value.authKeyId {
      return None;
    }
    ReadI64Exact(data, authKeyId.value, authKeyId.rest);
    var embeddedKey := stream.ReadData(16);
    var remaining := stream.ReadRemainingData();
    var keyIv := EncryptionKey(p, auth.value.authKey, embeddedKey.value);
    var decrypted := p.decrypt(keyIv.0, keyIv.1, remaining.value);
    if |decrypted| < HEADER_SIZE {
      return None;
    }
    var length := FromLittleEndian(decrypted[28..32]);
    if length > |decrypted| - HEADER_SIZE {
      return None;
    }
    if MessageKey(p, decrypted[..HEADER_SIZE + length]) != embeddedKey.value {
      return None;
    }
    r := Some(decrypted);
  }

  /** What is opened is authentic, and all that is authentic is opened: an envelope yields a plaintext if and only if it
      names the key, decrypts to that plaintext under the key its message key gives, and the message key is the hash of the
      header and as many bytes as the header says. */
  lemma OpenExact(p: Primitives, auth: AuthInfo, data: seq<byte>, plain: seq<byte>)
    requires p.Valid() && |auth.authKey| >= 76
    ensures Open(p, Some(auth), data) == Some(plain) <==>
              && |data| >= 60 && data[..8] == I64Bytes(auth.authKeyId)
              && (var (key, iv) := EncryptionKey(p, auth.authKey, data[8..24]);
                  plain == p.decrypt(key, iv, if |data| - 24 <= INT32_MAX then data[24..] else data[24..24 + INT32_MAX]))
              && |plain| >= 32 && 32 + FromLittleEndian(plain[28..32]) <= |plain|
              && p.sha256(plain[..32 + FromLittleEndian(plain[28..32])])[16..] == data[8..24]
    ensures Open(p, None, data) == None
  {
    hide ReadI64, EncryptionKey, Primitives.Valid, I64Bytes, FromLittleEndian;
    if |data| >= 60 {
      KeyIdRead(data, auth.authKeyId);
      var s := ReadI64(data).rest;
      assert s[..16] == data[8..24] && s[16..] == data[24..];
      assert |data| - 24 > INT32_MAX ==> data[24..][..INT32_MAX] == data[24..24 + INT32_MAX];
      assert |data| - 24 <= INT32_MAX ==> data[24..][..|data| - 24] == data[24..];
      if |plain| >= 32 && 32 + FromLittleEndian(plain[28..32]) <= |plain| {
        HashSize(p, plain[..32 + FromLittleEndian(plain[28..32])]);
      }
    }
  }

  lemma KeyIdRead(data: seq<byte>, id: i64)
    requires |data| >= 8
    ensures ReadI64(data).Got? && ReadI64(data).rest == data[8..]
    ensures ReadI64(data).value == id <==> data[..8] == I64Bytes(id)
  {
    ReadI64Exact(data, id, data[8..]);
    assert data == data[..8] + data[8..];
  }

  /** An envelope opens under its own key to the padded plaintext exactly when the body is non-empty and the plaintext
      within the reach of readRemainingData: an empty body leaves 56 bytes, below the floor of 60. */
  lemma OpenSealed(p: Primitives, auth: AuthInfo, salt: i64, sessionId: i64, messageId: i64, seqNo: i32,
                   body: seq<byte>, random: seq<byte>)
    requires p.Valid() && |auth.authKey| >= 76 && |random| == 16
    ensures var plain := Plaintext(salt, sessionId, messageId, seqNo, body);
            Open(p, Some(auth), Seal(p, auth, plain, random)) == Some(Padded(plain, random))
            <==> 1 <= |body| && |plain| <= MAX_PLAIN
  {
    hide ReadI64, EncryptionKey, I64Bytes, I32Bytes, MessageKey, Plaintext;
    var plain := Plaintext(salt, sessionId, messageId, seqNo, body);
    var padded := Padded(plain, random);
    var messageKey := MessageKey(p, plain);
    var (key, iv) := EncryptionKey(p, auth.authKey, messageKey);
    var cipher := p.encrypt(key, iv, padded);
    var data := Seal(p, auth, plain, random);
    assert data == I64Bytes(auth.authKeyId) + (messageKey + cipher);
    ReadI64Exact(data, auth.authKeyId, messageKey + cipher);
    assert (messageKey + cipher)[..16] == messageKey && (messageKey + cipher)[16..] == cipher;
    PaddedFits(|plain|);
    if |plain| <= MAX_PLAIN {
      assert cipher[..|cipher|] == cipher;
      assert ReadRemaining(cipher).value == cipher;
      LengthField(salt, sessionId, messageId, seqNo, body);
      assert padded[28..32] == plain[28..32];
      assert padded[..|plain|] == plain;
    } else {
      assert |ReadRemaining(cipher).value| == INT32_MAX != |padded|;
    }
  }

  /** What an observer of the wire sees, and what the holder of the key makes of it: the key id, the last sixteen bytes of
      the hash of the unpadded plaintext, and whole blocks that decrypt, under the key those sixteen bytes give, to the
      plaintext with less than a block behind it; and where the fields of the plaintext are. */
  lemma EnvelopeOnTheWire(p: Primitives, auth: AuthInfo, salt: i64, sessionId: i64, messageId: i64, seqNo: i32,
                          body: seq<byte>, random: seq<byte>)
    requires p.Valid() && |auth.authKey| >= 76 && |random| == 16 && |body| < 0x8000_0000
    ensures var plain := Plaintext(salt, sessionId, messageId, seqNo, body);
            var e := Seal(p, auth, plain, random);
            && |e| >= 24 && (|e| - 24) % 16 == 0
            && e[..8] == I64Bytes(auth.authKeyId)
            && e[8..24] == p.sha256(plain)[16..]
            && var (key, iv) := EncryptionKey(p, auth.authKey, e[8..24]);
               plain <= p.decrypt(key, iv, e[24..]) && |p.decrypt(key, iv, e[24..])| < |plain| + 16
    ensures var plain := Plaintext(salt, sessionId, messageId, seqNo, body);
            && plain[..8] == I64Bytes(salt) && plain[8..16] == I64Bytes(sessionId) && plain[16..24] == I64Bytes(messageId)
            && plain[24..28] == I32Bytes(seqNo) && plain[28..32] == I32Bytes(|body|) && plain[32..] == body
  {
    hide I64Bytes, I32Bytes, EncryptionKey, Plaintext, Seal, Primitives.Valid;
    PlaintextOffsets(salt, sessionId, messageId, seqNo, body);
    SealedOffsets(p, auth, Plaintext(salt, sessionId, messageId, seqNo, body), random);
  }

  lemma SealedOffsets(p: Primitives, auth: AuthInfo, plain: seq<byte>, random: seq<byte>)
    requires p.Valid() && |auth.authKey| >= 76 && |random| == 16
    ensures var e := Seal(p, auth, plain, random);
            && |e| >= 24 && (|e| - 24) % 16 == 0
            && e[..8] == I64Bytes(auth.authKeyId)
            && e[8..24] == p.sha256(plain)[16..]
            && var (key, iv) := EncryptionKey(p, auth.authKey, e[8..24]);
               plain <= p.decrypt(key, iv, e[24..]) && |p.decrypt(key, iv, e[24..])| < |plain| + 16
  {
    hide I64Bytes, EncryptionKey, Primitives.Valid;
    var messageKey := MessageKey(p, plain);
    var padded := Padded(plain, random);
    var (key, iv) := EncryptionKey(p, auth.authKey, messageKey);
    var cipher := p.encrypt(key, iv, padded);
    var e := Seal(p, auth, plain, random);
    CipherOpens(p, key, iv, padded);
    HashSize(p, plain);
    ThreeParts(I64Bytes(auth.authKeyId), messageKey, cipher);
  }

  lemma CipherOpens(p: Primitives, key: seq<byte>, iv: seq<byte>, d: seq<byte>)
    requires p.Valid() && |key| == 32 && |iv| == 16 && |d| % 16 == 0
    ensures |p.encrypt(key, iv, d)| == |d| && p.decrypt(key, iv, p.encrypt(key, iv, d)) == d
  {
  }

  lemma HashSize(p: Primitives, d: seq<byte>)
    requires p.Valid()
    ensures |p.sha256(d)| == 32
  {
  }

  lemma ThreeParts(a: seq<byte>, b: seq<byte>, c: seq<byte>)
    ensures var s := a + (b + c); s[..|a|] == a && s[|a|..|a| + |b|] == b && s[|a| + |b|..] == c
  {
  }

  lemma PlaintextOffsets(salt: i64, sessionId: i64, messageId: i64, seqNo: i32, body: seq<byte>)
    requires |body| < 0x8000_0000
    ensures var plain := Plaintext(salt, sessionId, messageId, seqNo, body);
            && plain[..8] == I64Bytes(salt) && plain[8..16] == I64Bytes(sessionId) && plain[16..24] == I64Bytes(messageId)
            && plain[24..28] == I32Bytes(seqNo) && plain[28..32] == I32Bytes(|body|) && plain[32..] == body
  {
    hide I64Bytes, I32Bytes;
    SmallCast(|body|);
  }

  lemma PaddedFits(n: nat)
    ensures n + BlockPad(n) <= INT32_MAX <==> n <= MAX_PLAIN
    ensures n == 32 ==> BlockPad(n) == 0
    ensures n > 32 ==> n + BlockPad(n) >= 48
  {
  }

  lemma LengthField(salt: i64, sessionId: i64, messageId: i64, seqNo: i32, body: seq<byte>)
    requires |body| < 0x8000_0000
    ensures FromLittleEndian(Plaintext(salt, sessionId, messageId, seqNo, body)[28..32]) == |body|
  {
    hide I64Bytes;
    var s := Plaintext(salt, sessionId, messageId, seqNo, body);
    assert s[28..32] == I32Bytes(CastI32(|body|));
    SmallCast(|body|);
    Decode32(|body|);
  }
}
