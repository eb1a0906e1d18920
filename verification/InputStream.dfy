/** gputils/gp/utils/InputStream.cpp: a cursor over a private copy of a buffer. A method whose result is Thrown raises
    the stream exception of the original. */
module InputStreams {
  import opened Bytes
  import opened Tl

  class InputStream {
    const bytes: array<byte>
    var currentPosition: nat

    ghost predicate Valid()
      reads this
    {
      currentPosition <= bytes.Length
    }

    /** The bytes the cursor has not passed. */
    function Remaining(): seq<byte>
      reads this, bytes
      requires Valid()
    {
      bytes[currentPosition..]
    }

    constructor (data: seq<byte>)
      ensures Valid() && fresh(bytes) && Remaining() == data
    {
      var copy := new byte[|data|](i requires 0 <= i < |data| => data[i]);
      bytes := copy;
      currentPosition := 0;
    }

    function RemainingSize(): (n: nat)
      reads this, bytes
      requires Valid()
      ensures n == |Remaining()|
    {
      bytes.Length - currentPosition
    }

    /** Unguarded: the caller has checked the size. */
    method ReadSlice(size: nat) returns (s: seq<byte>)
      requires Valid() && size <= |Remaining()|
      modifies this
      ensures Valid() && s == old(Remaining())[..size] && Remaining() == old(Remaining())[size..]
    {
      s := bytes[currentPosition..currentPosition + size];
      currentPosition := currentPosition + size;
    }

    method ReadData(length: nat) returns (r: Read<seq<byte>>)
      requires Valid()
      modifies this
      ensures Valid() && r == Tl.ReadData(old(Remaining()), length) && Remaining() == r.rest
    {
      if RemainingSize() < length {
        return Thrown(Remaining());
      }
      var s := ReadSlice(length);
      r := Got(s, Remaining());
    }

    method ReadUInt32() returns (r: Read<u32>)
      requires Valid()
      modifies this
      ensures Valid() && r == ReadU32(old(Remaining())) && Remaining() == r.rest
    {
      if RemainingSize() < 4 {
        return Thrown(Remaining());
      }
      var s := ReadSlice(4);
      EncodeFromLittleEndian(s);
      r := Got(FromLittleEndian(s), Remaining());
    }

    method ReadInt32() returns (r: Read<i32>)
      requires Valid()
      modifies this
      ensures Valid() && r == ReadI32(old(Remaining())) && Remaining() == r.rest
    {
      var u := ReadUInt32();
      r := if u.Thrown? then Thrown(u.rest) else Got(Signed32(u.value), u.rest);
    }

    method ReadUInt64() returns (r: Read<u64>)
      requires Valid()
      modifies this
      ensures Valid() && r == ReadU64(old(Remaining())) && Remaining() == r.rest
    {
      if RemainingSize() < 8 {
        return Thrown(Remaining());
      }
      var s := ReadSlice(8);
      EncodeFromLittleEndian(s);
      r := Got(FromLittleEndian(s), Remaining());
    }

    method ReadInt64() returns (r: Read<i64>)
      requires Valid()
      modifies this
      ensures Valid() && r == ReadI64(old(Remaining())) && Remaining() == r.rest
    {
      var u := ReadUInt64();
      r := if u.Thrown? then Thrown(u.rest) else Got(Signed64(u.value), u.rest);
    }

    method ReadRemainingData() returns (r: Read<seq<byte>>)
      requires Valid()
      modifies this
      ensures Valid() && r == ReadRemaining(old(Remaining())) && Remaining() == r.rest
    {
      var length := if 0x7fff_ffff <= RemainingSize() then 0x7fff_ffff else RemainingSize();
      var s := ReadSlice(length);
      r := Got(s, Remaining());
    }

    method ReadBytes() returns (r: Read<seq<byte>>)
      requires Valid()
      modifies this
      ensures Valid() && r == Tl.ReadBytes(old(Remaining())) && Remaining() == r.rest
    {
      if RemainingSize() < 1 {
        return Thrown(Remaining());
      }
      var marker := ReadSlice(1);
      var length: nat := marker[0];
      var extraBytes := 0;
      if length == 0 {
        return Got([], Remaining());
      }
      if length <= 253 {
        extraBytes := 1;
      } else if length == 254 {
        if RemainingSize() < 3 {
          return Thrown(Remaining());
        }
        var lengthBytes := ReadSlice(3);
        assert lengthBytes == old(Remaining())[1..4];
        assert Remaining() == old(Remaining())[4..];
        length := FromLittleEndian(lengthBytes);
        extraBytes := 4;
      } else {
        return Thrown(Remaining());
      }
      r := ReadPadded(length, extraBytes);
    }

    /** The payload, then its padding one byte at a time. */
    method ReadPadded(size: nat, headerSize: nat) returns (r: Read<seq<byte>>)
      requires Valid()
      modifies this
      ensures Valid() && r == ReadBody(old(Remaining()), size, headerSize) && Remaining() == r.rest
    {
      hide PadLength, ReadBody;
      if RemainingSize() < size {
        TooShort(Remaining(), size, headerSize);
        return Thrown(Remaining());
      }
      ReadBodySplit(Remaining(), size, headerSize);
      var slice := ReadSlice(size);
      var padded := SkipPadding(headerSize, size);
      r := if padded then Got(slice, Remaining()) else Thrown(Remaining());
    }

    lemma TooShort(s: seq<byte>, size: nat, headerSize: nat)
      requires |s| < size
      ensures ReadBody(s, size, headerSize) == Thrown(s)
    {
    }

    method SkipPadding(headerSize: nat, size: nat) returns (padded: bool)
      requires Valid()
      modifies this
      ensures Valid() && (padded <==> |old(Remaining())| >= PadLength(headerSize + size))
      ensures Remaining() == if padded then old(Remaining())[PadLength(headerSize + size)..] else []
    {
      hide PadLength;
      ghost var before, pad := Remaining(), PadLength(headerSize + size);
      var extraBytes := headerSize;
      ghost var skipped := 0;
      while (extraBytes + size) % 4 != 0
        invariant Valid() && skipped <= pad && extraBytes == headerSize + skipped
        invariant skipped <= |before| && Remaining() == before[skipped..]
        decreases pad - skipped
      {
        if RemainingSize() < 1 {
          return false;
        }
        var _ := ReadSlice(1);
        extraBytes, skipped := extraBytes + 1, skipped + 1;
      }
      PadPending(headerSize + size, skipped);
      padded := true;
    }
  }
}
