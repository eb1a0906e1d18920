/** The TL wire format of the stream classes, as functions on byte strings: what OutputStream appends and what
    InputStream makes of the bytes that remain under its cursor. */
module Tl {
  import opened Bytes

  const LENGTH_LIMIT := 0x100_0000

  // ---------- writing ----------

  function Zeros(n: nat): (s: seq<byte>)
    ensures |s| == n && forall k :: 0 <= k < n ==> s[k] == 0
  {
    seq(n, _ => 0)
  }

  /** Number of bytes that bring n to a multiple of four. */
  function PadLength(n: nat): (p: nat)
    ensures p < 4 && (n + p) % 4 == 0
  {
    (4 - n % 4) % 4
  }

  lemma PadPending(n: nat, p: nat)
    requires p <= PadLength(n)
    ensures (n + p) % 4 != 0 <==> p < PadLength(n)
  {
  }

  lemma ZerosSnoc(n: nat)
    ensures Zeros(n) + [0] == Zeros(n + 1)
  {
  }

  function LengthPrefix(n: nat): (s: seq<byte>)
    ensures |s| == if n <= 253 then 1 else 4
  {
    if n <= 253 then [n] else [254] + LittleEndian(n % LENGTH_LIMIT, 3)
  }

  function TlBytes(d: seq<byte>): seq<byte> {
    LengthPrefix(|d|) + d + Zeros(PadLength(|LengthPrefix(|d|)| + |d|))
  }

  /** The prefix that strlen sees. */
  function CString(s: seq<byte>): seq<byte> {
    if s == [] || s[0] == 0 then [] else [s[0]] + CString(s[1..])
  }

  function TlString(s: seq<byte>): seq<byte> {
    if s == [] then [0] else TlBytes(CString(s))
  }

  // ---------- reading ----------

  /** A guarded read either yields a value or throws; rest is what the cursor has not passed. */
  datatype Read<+T> = Got(value: T, rest: seq<byte>) | Thrown(rest: seq<byte>) {
    predicate IsFailure() { Thrown? }
    function PropagateFailure<U>(): Read<U>
      requires Thrown?
    {
      Thrown(rest)
    }
    function Extract(): (T, seq<byte>)
      requires Got?
    {
      (value, rest)
    }
  }

  function ReadData(s: seq<byte>, n: nat): Read<seq<byte>> {
    if |s| < n then Thrown(s) else Got(s[..n], s[n..])
  }

  function ReadU32(s: seq<byte>): Read<u32> {
    if |s| < 4 then Thrown(s) else Widths(); EncodeFromLittleEndian(s[..4]); Got(FromLittleEndian(s[..4]), s[4..])
  }

  function ReadI32(s: seq<byte>): Read<i32> {
    var (x, t) :- ReadU32(s);
    Got(Signed32(x), t)
  }

  function ReadU64(s: seq<byte>): Read<u64> {
    if |s| < 8 then Thrown(s) else Widths(); EncodeFromLittleEndian(s[..8]); Got(FromLittleEndian(s[..8]), s[8..])
  }

  function ReadI64(s: seq<byte>): Read<i64> {
    var (x, t) :- ReadU64(s);
    Got(Signed64(x), t)
  }

  /** readRemainingData stops at INT32_MAX bytes. */
  function ReadRemaining(s: seq<byte>): (r: Read<seq<byte>>)
    ensures r.Got?
  {
    var n := if |s| < 0x8000_0000 then |s| else 0x7fff_ffff;
    Got(s[..n], s[n..])
  }

  /** size payload bytes, then padding read one byte at a time. */
  function ReadBody(s: seq<byte>, size: nat, headerSize: nat): Read<seq<byte>> {
    if |s| < size then Thrown(s)
    else if |s| - size < PadLength(headerSize + size) then Thrown([])
    else Got(s[..size], s[size + PadLength(headerSize + size)..])
  }

  lemma ReadBodySplit(s: seq<byte>, size: nat, headerSize: nat)
    requires size <= |s|
    ensures var pad, tail := PadLength(headerSize + size), s[size..];
            ReadBody(s, size, headerSize) == if |tail| < pad then Thrown([]) else Got(s[..size], tail[pad..])
  {
    hide PadLength;
    var pad := PadLength(headerSize + size);
    if |s| - size >= pad {
      assert s[size..][pad..] == s[size + pad..];
    }
  }

  function ReadBytes(s: seq<byte>): Read<seq<byte>> {
    if s == [] then Thrown(s)
    else if s[0] == 0 then Got([], s[1..])
    else if s[0] <= 253 then ReadBody(s[1..], s[0], 1)
    else if s[0] == 254 then
      if |s| < 4 then Thrown(s[1..]) else ReadBody(s[4..], FromLittleEndian(s[1..4]), 4)
    else Thrown(s[1..])
  }

  // ---------- numbers read back ----------

  /** A guarded number read succeeds exactly on the written form of its value, followed by what it leaves unread. */
  lemma ReadU32Exact(s: seq<byte>, x: u32, rest: seq<byte>)
    ensures ReadU32(s) == Got(x, rest) <==> s == U32Bytes(x) + rest
  {
    Decode32(x);
    if s == U32Bytes(x) + rest {
      assert s[..4] == U32Bytes(x) && s[4..] == rest;
    }
    if |s| >= 4 {
      EncodeFromLittleEndian(s[..4]);
      assert s == s[..4] + s[4..];
    }
  }

  lemma ReadI32Exact(s: seq<byte>, x: i32, rest: seq<byte>)
    ensures ReadI32(s) == Got(x, rest) <==> s == I32Bytes(x) + rest
  {
    ReadU32Exact(s, Unsigned32(x), rest);
  }

  lemma ReadU64Exact(s: seq<byte>, x: u64, rest: seq<byte>)
    ensures ReadU64(s) == Got(x, rest) <==> s == U64Bytes(x) + rest
  {
    Decode64(x);
    if s == U64Bytes(x) + rest {
      assert s[..8] == U64Bytes(x) && s[8..] == rest;
    }
    if |s| >= 8 {
      EncodeFromLittleEndian(s[..8]);
      assert s == s[..8] + s[8..];
    }
  }

  lemma ReadI64Exact(s: seq<byte>, x: i64, rest: seq<byte>)
    ensures ReadI64(s) == Got(x, rest) <==> s == I64Bytes(x) + rest
  {
    ReadU64Exact(s, Unsigned64(x), rest);
  }

  lemma ReadDataExact(s: seq<byte>, n: nat, d: seq<byte>, rest: seq<byte>)
    ensures ReadData(s, n) == Got(d, rest) <==> |d| == n && s == d + rest
  {
    if |s| >= n {
      assert s == s[..n] + s[n..];
    }
  }

  // ---------- byte strings ----------

  lemma TlBytesAligned(d: seq<byte>)
    ensures |TlBytes(d)| % 4 == 0
  {
  }

  lemma ReadBodyWritten(d: seq<byte>, header: nat, rest: seq<byte>)
    ensures ReadBody(d + Zeros(PadLength(header + |d|)) + rest, |d|, header) == Got(d, rest)
  {
    var p := PadLength(header + |d|);
    var s := d + Zeros(p) + rest;
    assert s[..|d|] == d && s[|d| + p..] == rest;
  }

  lemma ReadBytesWritten(d: seq<byte>, rest: seq<byte>)
    requires 1 <= |d| < LENGTH_LIMIT
    ensures ReadBytes(TlBytes(d) + rest) == Got(d, rest)
  {
    hide Zeros, PadLength, LittleEndian, ReadBody;
    var prefix := LengthPrefix(|d|);
    var tail := d + Zeros(PadLength(|prefix| + |d|)) + rest;
    var s := TlBytes(d) + rest;
    assert s == prefix + tail;
    assert s[|prefix|..] == tail;
    if |d| > 253 {
      Widths();
      DecodeLittleEndian(|d|, 3);
      assert s[1..4] == LittleEndian(|d|, 3);
    }
    ReadBodyWritten(d, |prefix|, rest);
  }

  lemma OverlongIsCut(d: seq<byte>, rest: seq<byte>)
    requires |d| >= LENGTH_LIMIT
    ensures var r := ReadBytes(TlBytes(d) + rest); r.Got? ==> |r.value| == |d| % LENGTH_LIMIT < |d|
  {
    var s := TlBytes(d) + rest;
    Widths();
    DecodeLittleEndian(|d| % LENGTH_LIMIT, 3);
    assert s[0] == 254 && s[1..4] == LittleEndian(|d| % LENGTH_LIMIT, 3);
  }

  /** readBytes inverts writeBytes, leaving any suffix unread, exactly for lengths 1 to 2^24 - 1; the value alone
      also survives for the empty string, whose three padding bytes stay unread. */
  lemma BytesRoundTrip(d: seq<byte>, rest: seq<byte>)
    ensures ReadBytes(TlBytes(d) + rest) == Got(d, rest) <==> 1 <= |d| < LENGTH_LIMIT
    ensures (ReadBytes(TlBytes(d) + rest).Got? && ReadBytes(TlBytes(d) + rest).value == d) <==> |d| < LENGTH_LIMIT
    ensures d == [] ==> ReadBytes(TlBytes(d) + rest) == Got([], Zeros(3) + rest)
  {
    if d == [] {
      var s := TlBytes(d) + rest;
      assert s[1..] == Zeros(3) + rest;
    } else if |d| < LENGTH_LIMIT {
      ReadBytesWritten(d, rest);
    } else {
      OverlongIsCut(d, rest);
    }
  }

  lemma {:induction false} CStringCuts(s: seq<byte>)
    ensures |CString(s)| <= |s|
    ensures CString(s) == s <==> 0 !in s
  {
    if s != [] && s[0] != 0 {
      CStringCuts(s[1..]);
      assert s == [s[0]] + s[1..];
      if CString(s) == s {
        assert CString(s)[1..] == s[1..];
      }
    }
  }

  /** readString inverts writeString exactly for the NUL-free strings below 2^24 bytes. */
  lemma StringRoundTrip(s: seq<byte>, rest: seq<byte>)
    ensures ReadBytes(TlString(s) + rest) == Got(s, rest) <==> 0 !in s && |s| < LENGTH_LIMIT
  {
    CStringCuts(s);
    if s == [] {
      assert ([0] + rest)[1..] == rest;
    } else {
      hide TlBytes, ReadBytes, CString;
      var c := CString(s);
      BytesRoundTrip(c, rest);
      if |c| >= LENGTH_LIMIT {
        OverlongIsCut(c, rest);
      }
    }
  }

  ghost predicate Suffix(t: seq<byte>, s: seq<byte>) {
    |t| <= |s| && t == s[|s| - |t|..]
  }

  /** Whatever the bytes say, readBytes leaves the cursor inside the buffer, having consumed some prefix. */
  lemma ReadBytesStaysInside(s: seq<byte>)
    ensures Suffix(ReadBytes(s).rest, s)
    ensures ReadBytes(s).Got? ==> |ReadBytes(s).rest| < |s|
  {
  }
}
