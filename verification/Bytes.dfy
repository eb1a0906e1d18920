/** Fixed-width integers and their little-endian byte strings; the host is little-endian. */
module Bytes {
  type byte = x: int | 0 <= x < 0x100
  type u32 = x: int | 0 <= x < 0x1_0000_0000
  type u64 = x: int | 0 <= x < 0x1_0000_0000_0000_0000
  type i32 = x: int | -0x8000_0000 <= x < 0x8000_0000
  type i64 = x: int | -0x8000_0000_0000_0000 <= x < 0x8000_0000_0000_0000

  function Pow256(n: nat): nat {
    if n == 0 then 1 else 256 * Pow256(n - 1)
  }

  /** The low n bytes of v, least significant first. */
  function LittleEndian(v: nat, n: nat): (s: seq<byte>)
    ensures |s| == n
  {
    if n == 0 then [] else [v % 256] + LittleEndian(v / 256, n - 1)
  }

  function FromLittleEndian(s: seq<byte>): nat {
    if s == [] then 0 else s[0] + 256 * FromLittleEndian(s[1..])
  }

  function FromBigEndian(s: seq<byte>): nat {
    if s == [] then 0 else 256 * FromBigEndian(s[..|s| - 1]) + s[|s| - 1]
  }

  function Reverse<T>(s: seq<T>): (r: seq<T>)
    ensures |r| == |s|
    ensures forall k :: 0 <= k < |s| ==> r[k] == s[|s| - 1 - k]
  {
    if s == [] then [] else Reverse(s[1..]) + [s[0]]
  }

  /** C++ reinterpretation of a signed value as unsigned of the same width, and back. */
  function Unsigned32(x: i32): u32 { if x < 0 then x + 0x1_0000_0000 else x }
  function Signed32(x: u32): i32 { if x < 0x8000_0000 then x else x - 0x1_0000_0000 }
  function Unsigned64(x: i64): u64 { if x < 0 then x + 0x1_0000_0000_0000_0000 else x }
  function Signed64(x: u64): i64 { if x < 0x8000_0000_0000_0000 then x else x - 0x1_0000_0000_0000_0000 }

  function U32Bytes(x: u32): (s: seq<byte>) ensures |s| == 4 { LittleEndian(x, 4) }
  function I32Bytes(x: i32): (s: seq<byte>) ensures |s| == 4 { LittleEndian(Unsigned32(x), 4) }
  function I64Bytes(x: i64): (s: seq<byte>) ensures |s| == 8 { LittleEndian(Unsigned64(x), 8) }
  function U64Bytes(x: u64): (s: seq<byte>) ensures |s| == 8 { LittleEndian(x, 8) }

  /** The cast static_cast<int32_t>(n) of a size. */
  function CastI32(n: nat): i32 { Signed32(n % 0x1_0000_0000) }

  lemma {:induction false} DecodeLittleEndian(v: nat, n: nat)
    requires v < Pow256(n)
    ensures FromLittleEndian(LittleEndian(v, n)) == v
  {
    if n > 0 {
      DecodeLittleEndian(v / 256, n - 1);
      assert LittleEndian(v, n)[1..] == LittleEndian(v / 256, n - 1);
    }
  }

  lemma {:induction false} EncodeFromLittleEndian(s: seq<byte>)
    ensures LittleEndian(FromLittleEndian(s), |s|) == s
    ensures FromLittleEndian(s) < Pow256(|s|)
  {
    if s != [] {
      EncodeFromLittleEndian(s[1..]);
      var v := FromLittleEndian(s);
      assert v / 256 == FromLittleEndian(s[1..]) && v % 256 == s[0];
    }
  }

  lemma {:induction false} ReversedIsBigEndian(s: seq<byte>)
    ensures FromBigEndian(Reverse(s)) == FromLittleEndian(s)
  {
    if s != [] {
      ReversedIsBigEndian(s[1..]);
      var r := Reverse(s);
      assert r[..|r| - 1] == Reverse(s[1..]);
    }
  }

  /** Trailing zero bytes carry no value. */
  lemma {:induction false} TrailingZero(s: seq<byte>)
    requires s != [] && s[|s| - 1] == 0
    ensures FromLittleEndian(s[..|s| - 1]) == FromLittleEndian(s)
  {
    if |s| > 1 {
      TrailingZero(s[1..]);
      assert s[..|s| - 1][1..] == s[1..][..|s| - 2];
    }
  }

  lemma Widths()
    ensures Pow256(3) == 0x100_0000 && Pow256(4) == 0x1_0000_0000 && Pow256(8) == 0x1_0000_0000_0000_0000
  {
    assert Pow256(4) == 256 * 256 * 256 * 256;
    assert Pow256(8) == 256 * 256 * 256 * 256 * Pow256(4);
  }

  lemma Decode32(x: u32)
    ensures FromLittleEndian(U32Bytes(x)) == x
  {
    Widths();
    DecodeLittleEndian(x, 4);
  }

  lemma Decode64(x: u64)
    ensures FromLittleEndian(U64Bytes(x)) == x
  {
    Widths();
    DecodeLittleEndian(x, 8);
  }
}
