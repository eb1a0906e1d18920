/** gputils/gp/utils/Common.cpp: base64 and the byte-order swap. Characters are their byte codes. */
module Common {
  import opened Bytes

  type sextet = x: int | 0 <= x < 64

  const EQUALS: byte := 61

  // ---------- symbols ----------

  /** The encoding table, entry by entry: A-Z, a-z, 0-9, '+', '/'. */
  function Symbol(v: sextet): (c: byte)
    ensures IsSymbol(c) && c != EQUALS && SextetOf(c) == v
  {
    if v < 26 then 65 + v else if v < 52 then 97 + (v - 26) else if v < 62 then 48 + (v - 52) else if v == 62 then 43 else 47
  }

  const UPPER := "ABCDEFGHIJKLMNOPQRSTUVWXYZ"
  const LOWER := "abcdefghijklmnopqrstuvwxyz"
  const DIGITS := "0123456789+/"

  lemma LettersAndDigits(v: nat)
    ensures |UPPER| == |LOWER| == 26 && |DIGITS| == 12
    ensures v < 26 ==> UPPER[v] as int == 65 + v && LOWER[v] as int == 97 + v
    ensures v < 10 ==> DIGITS[v] as int == 48 + v
    ensures DIGITS[10] == '+' && DIGITS[11] == '/'
  {
  }

  /** The alphabet of section 4 of RFC 4648. */
  lemma SymbolsAreTheAlphabet(v: sextet)
    ensures |UPPER + LOWER + DIGITS| == 64 && Symbol(v) == (UPPER + LOWER + DIGITS)[v] as int
  {
    LettersAndDigits(if v < 26 then v else if v < 52 then v - 26 else v - 52);
  }

  predicate IsSymbol(c: byte) {
    65 <= c <= 90 || 97 <= c <= 122 || 48 <= c <= 57 || c == 43 || c == 47
  }

  predicate Readable(c: byte) {
    IsSymbol(c) || c == EQUALS
  }

  /** The sextet of a character; the padding character counts as zero. */
  function SextetOf(c: byte): sextet
    requires Readable(c)
  {
    if c == EQUALS then 0
    else if c >= 97 then c - 71
    else if c >= 65 then c - 65
    else if c >= 48 then c + 4
    else if c == 43 then 62
    else 63
  }

  /** Entries the loop does not write stay arbitrary. */
  method BuildDecodingTable() returns (table: array<byte>)
    ensures fresh(table) && table.Length == 256
    ensures forall c: byte :: IsSymbol(c) ==> table[c] == SextetOf(c)
  {
    table := new byte[256];
    for i := 0 to 64
      invariant forall v: sextet :: v < i ==> table[Symbol(v)] == v
    {
      table[Symbol(i)] := i;
    }
    forall c: byte | IsSymbol(c)
      ensures table[c] == SextetOf(c)
    {
      assert Symbol(SextetOf(c)) == c;
    }
  }

  // ---------- encoding as a function ----------

  function EncodeGroup(a: byte, b: byte, c: byte): (s: seq<byte>)
    ensures |s| == 4
  {
    var triple := a * 0x1_0000 + b * 0x100 + c;
    [Symbol(triple / 0x4_0000 % 64), Symbol(triple / 0x1000 % 64), Symbol(triple / 64 % 64), Symbol(triple % 64)]
  }

  function EncodeGroups(z: seq<byte>): (s: seq<byte>)
    requires |z| % 3 == 0
    ensures |s| == |z| / 3 * 4
  {
    if z == [] then [] else EncodeGroup(z[0], z[1], z[2]) + EncodeGroups(z[3..])
  }

  function Fill(n: nat, c: byte): (s: seq<byte>)
    ensures |s| == n && forall k :: 0 <= k < n ==> s[k] == c
  {
    seq(n, _ => c)
  }

  /** mod_table */
  function Missing(n: nat): (m: nat)
    ensures m < 3 && (n + m) % 3 == 0
  {
    [0, 2, 1][n % 3]
  }

  function ZeroFilled(d: seq<byte>): (z: seq<byte>)
    ensures |z| % 3 == 0 && |z| == (|d| + 2) / 3 * 3
  {
    d + Fill(Missing(|d|), 0)
  }

  function Encode(d: seq<byte>): (s: seq<byte>)
    ensures |s| == 4 * ((|d| + 2) / 3)
  {
    var e := EncodeGroups(ZeroFilled(d));
    e[..|e| - Missing(|d|)] + Fill(Missing(|d|), EQUALS)
  }

  // ---------- decoding as a function ----------

  ghost predicate WellFormed(s: seq<byte>) {
    |s| % 4 == 0 && forall k :: 0 <= k < |s| ==> Readable(s[k])
  }

  function DecodeGroup(w: sextet, x: sextet, y: sextet, z: sextet): (d: seq<byte>)
    ensures |d| == 3
  {
    var triple := w * 0x4_0000 + x * 0x1000 + y * 64 + z;
    [triple / 0x1_0000 % 256, triple / 0x100 % 256, triple % 256]
  }

  function DecodeGroups(s: seq<byte>): (d: seq<byte>)
    requires WellFormed(s)
    ensures |d| == |s| / 4 * 3
  {
    if s == [] then [] else
      DecodeGroup(SextetOf(s[0]), SextetOf(s[1]), SextetOf(s[2]), SextetOf(s[3])) + DecodeGroups(s[4..])
  }

  function DecodedLength(s: seq<byte>): (n: nat)
    requires |s| % 4 == 0 && s != []
    ensures n <= |s| / 4 * 3
  {
    |s| / 4 * 3 - (if s[|s| - 1] == EQUALS then 1 else 0) - (if s[|s| - 2] == EQUALS then 1 else 0)
  }

  function Decode(s: seq<byte>): seq<byte>
    requires WellFormed(s) && s != []
  {
    DecodeGroups(s)[..DecodedLength(s)]
  }

  // ---------- the round trip ----------

  lemma SextetDigits(t: nat)
    requires t < 0x100_0000
    ensures (t / 0x4_0000 % 64) * 0x4_0000 + (t / 0x1000 % 64) * 0x1000 + (t / 64 % 64) * 64 + t % 64 == t
  {
    var t1 := t / 64;
    var t2 := t1 / 64;
    assert t / 0x1000 == t2;
    assert t / 0x4_0000 == t2 / 64;
    assert t2 / 64 < 64;
  }

  lemma OctetDigits(a: byte, b: byte, c: byte)
    ensures var t := a * 0x1_0000 + b * 0x100 + c;
            t < 0x100_0000 && t / 0x1_0000 % 256 == a && t / 0x100 % 256 == b && t % 256 == c
  {
  }

  lemma GroupInverse(a: byte, b: byte, c: byte)
    ensures var s := EncodeGroup(a, b, c);
            DecodeGroup(SextetOf(s[0]), SextetOf(s[1]), SextetOf(s[2]), SextetOf(s[3])) == [a, b, c]
  {
    hide Symbol, SextetOf;
    OctetDigits(a, b, c);
    SextetDigits(a * 0x1_0000 + b * 0x100 + c);
  }

  lemma WellFormedConcat(s: seq<byte>, t: seq<byte>)
    requires WellFormed(s) && WellFormed(t)
    ensures WellFormed(s + t)
  {
  }

  lemma GroupSymbols(a: byte, b: byte, c: byte)
    ensures WellFormed(EncodeGroup(a, b, c))
    ensures forall k :: 0 <= k < 4 ==> EncodeGroup(a, b, c)[k] != EQUALS
  {
    hide Symbol, SextetOf;
  }

  lemma {:induction false} GroupsInverse(z: seq<byte>)
    requires |z| % 3 == 0
    ensures WellFormed(EncodeGroups(z)) && DecodeGroups(EncodeGroups(z)) == z
  {
    if z != [] {
      hide EncodeGroup, DecodeGroup, SextetOf, WellFormed;
      GroupsInverse(z[3..]);
      GroupInverse(z[0], z[1], z[2]);
      GroupSymbols(z[0], z[1], z[2]);
      var head := EncodeGroup(z[0], z[1], z[2]);
      var tail := EncodeGroups(z[3..]);
      WellFormedConcat(head, tail);
      assert (head + tail)[4..] == tail;
      DecodeConcat(head, tail);
      assert z == [z[0], z[1], z[2]] + z[3..];
    }
  }

  lemma DecodeConcat(head: seq<byte>, tail: seq<byte>)
    requires WellFormed(head) && WellFormed(tail) && WellFormed(head + tail) && |head| == 4
    ensures DecodeGroups(head + tail)
            == DecodeGroup(SextetOf(head[0]), SextetOf(head[1]), SextetOf(head[2]), SextetOf(head[3])) + DecodeGroups(tail)
  {
    hide DecodeGroup, SextetOf;
    assert (head + tail)[4..] == tail;
  }

  /** Characters with equal sextets decode alike. */
  lemma {:induction false} SameSextets(s: seq<byte>, t: seq<byte>)
    requires WellFormed(s) && WellFormed(t) && |s| == |t|
    requires forall k :: 0 <= k < |s| ==> SextetOf(s[k]) == SextetOf(t[k])
    ensures DecodeGroups(s) == DecodeGroups(t)
  {
    hide DecodeGroup, SextetOf;
    if s != [] {
      SameSextets(s[4..], t[4..]);
    }
  }

  /** The symbols that the padding overwrites stand for zero, and no other symbol is the padding character. */
  lemma {:induction false} ZeroTail(d: seq<byte>)
    requires d != []
    ensures var e := EncodeGroups(ZeroFilled(d));
            && |e| >= 4
            && (forall k :: |e| - Missing(|d|) <= k < |e| ==> e[k] == Symbol(0))
            && (forall k :: 0 <= k < |e| ==> e[k] != EQUALS)
    decreases |d|
  {
    hide EncodeGroup;
    var z := ZeroFilled(d);
    var e := EncodeGroups(z);
    var head := EncodeGroup(z[0], z[1], z[2]);
    GroupSymbols(z[0], z[1], z[2]);
    if |d| <= 3 {
      assert z[3..] == [];
      LastGroup(z[0], z[1], z[2], Missing(|d|));
      assert e == head;
    } else {
      assert z[3..] == ZeroFilled(d[3..]);
      ZeroTail(d[3..]);
      TailPart(head, EncodeGroups(z[3..]), Missing(|d|));
    }
  }

  lemma LastGroup(a: byte, b: byte, c: byte, m: nat)
    requires m < 3 && (m >= 1 ==> c == 0) && (m == 2 ==> b == 0)
    ensures forall k :: 4 - m <= k < 4 ==> EncodeGroup(a, b, c)[k] == Symbol(0)
  {
    hide Symbol;
    if m == 2 {
      assert a * 0x1_0000 + b * 0x100 + c == 64 * (a * 0x400);
      WholeSextet(a * 0x400);
      WholeSextet(a * 0x10);
    } else if m == 1 {
      assert a * 0x1_0000 + b * 0x100 + c == 64 * (a * 0x400 + b * 4);
      WholeSextet(a * 0x400 + b * 4);
    }
  }

  lemma WholeSextet(n: nat)
    ensures 64 * n % 64 == 0 && 64 * n / 64 == n
  {
  }

  lemma TailPart(head: seq<byte>, tail: seq<byte>, m: nat)
    requires |head| == 4 && m <= |tail|
    requires forall k :: |tail| - m <= k < |tail| ==> tail[k] == Symbol(0)
    requires forall k :: 0 <= k < |tail| ==> tail[k] != EQUALS
    requires forall k :: 0 <= k < 4 ==> head[k] != EQUALS
    ensures var e := head + tail;
            && (forall k :: |e| - m <= k < |e| ==> e[k] == Symbol(0))
            && (forall k :: 0 <= k < |e| ==> e[k] != EQUALS)
  {
  }

  /** Decoding inverts encoding for every non-empty byte string; the padding characters are fixed by its length
      modulo three. */
  lemma RoundTrip(d: seq<byte>)
    requires d != []
    ensures WellFormed(Encode(d)) && Decode(Encode(d)) == d
    ensures forall k :: 0 <= k < |Encode(d)| ==> (Encode(d)[k] == EQUALS <==> k >= |Encode(d)| - Missing(|d|))
  {
    hide EncodeGroups, DecodeGroups;
    var z := ZeroFilled(d);
    var e := EncodeGroups(z);
    var s := Encode(d);
    GroupsInverse(z);
    ZeroTail(d);
    SameSextets(s, e);
    assert z[..|d|] == d;
    assert DecodedLength(s) == |d|;
  }

  // ---------- the methods ----------

  lemma {:induction false} GroupsSnoc(z: seq<byte>, a: byte, b: byte, c: byte)
    requires |z| % 3 == 0
    ensures EncodeGroups(z + [a, b, c]) == EncodeGroups(z) + EncodeGroup(a, b, c)
  {
    hide EncodeGroup;
    if z == [] {
      assert [a, b, c][3..] == [];
      assert z + [a, b, c] == [a, b, c];
    } else {
      GroupsSnoc(z[3..], a, b, c);
      assert (z + [a, b, c])[3..] == z[3..] + [a, b, c];
    }
  }

  lemma OneMoreGroup(z: seq<byte>, g: nat, a: byte, b: byte, c: byte)
    requires 3 * g + 3 <= |z| && z[3 * g] == a && z[3 * g + 1] == b && z[3 * g + 2] == c
    ensures EncodeGroups(z[..3 * g + 3]) == EncodeGroups(z[..3 * g]) + EncodeGroup(a, b, c)
  {
    GroupsSnoc(z[..3 * g], a, b, c);
    assert z[..3 * g + 3] == z[..3 * g] + [a, b, c];
  }

  method Base64Encode(data: seq<byte>) returns (encoded: array<byte>)
    ensures fresh(encoded) && encoded[..] == Encode(data)
  {
    hide EncodeGroups;
    encoded := new byte[4 * ((|data| + 2) / 3)];
    StoreAll(data, encoded);
    OverwriteTail(encoded, [0, 2, 1][|data| % 3]);
  }

  /** The main loop, before the padding characters are put in. */
  method StoreAll(data: seq<byte>, encoded: array<byte>)
    requires encoded.Length == 4 * ((|data| + 2) / 3)
    modifies encoded
    ensures encoded[..] == EncodeGroups(ZeroFilled(data))
  {
    hide EncodeGroups, EncodeGroup, Symbol;
    var n := |data|;
    ghost var z := ZeroFilled(data);
    var i, j := 0, 0;
    ghost var g := 0;
    assert z[..0] == [] && EncodeGroups([]) == [] by { EmptyGroups(); }
    while i < n
      invariant g <= (n + 2) / 3 && j == 4 * g && i == if 3 * g <= n then 3 * g else n
      invariant encoded[..j] == EncodeGroups(z[..3 * g])
    {
      var a: byte, b: byte, c: byte;
      a, b, c, i := NextOctets(data, i);
      var symbols := GroupOfTriple(a * 0x1_0000 + b * 0x100 + c, a, b, c);
      StoreGroup(encoded, j, symbols);
      OneMoreGroup(z, g, a, b, c);
      j := j + 4;
      g := g + 1;
    }
    assert z[..3 * g] == z;
    assert encoded[..] == encoded[..j];
  }

  method OverwriteTail(encoded: array<byte>, missing: nat)
    requires missing <= encoded.Length
    modifies encoded
    ensures encoded[..] == old(encoded[..])[..encoded.Length - missing] + Fill(missing, EQUALS)
  {
    for k := 0 to missing
      invariant encoded[..] == old(encoded[..])[..encoded.Length - k] + Fill(k, EQUALS)
    {
      encoded[encoded.Length - 1 - k] := EQUALS;
    }
  }

  /** Up to three octets, zero for those past the end. */
  method NextOctets(data: seq<byte>, from: nat) returns (a: byte, b: byte, c: byte, i: nat)
    requires from < |data|
    ensures i == if from + 3 <= |data| then from + 3 else |data|
    ensures a == data[from]
    ensures b == if from + 1 < |data| then data[from + 1] else 0
    ensures c == if from + 2 < |data| then data[from + 2] else 0
  {
    b, c, i := 0, 0, from;
    a, i := data[i], i + 1;
    if i < |data| {
      b, i := data[i], i + 1;
    }
    if i < |data| {
      c, i := data[i], i + 1;
    }
  }

  method StoreGroup(encoded: array<byte>, j: nat, symbols: seq<byte>)
    requires j + 4 <= encoded.Length && |symbols| == 4
    modifies encoded
    ensures encoded[..j + 4] == old(encoded[..j]) + symbols
  {
    encoded[j], encoded[j + 1], encoded[j + 2], encoded[j + 3] := symbols[0], symbols[1], symbols[2], symbols[3];
  }

  lemma EmptyGroups()
    ensures EncodeGroups([]) == []
  {
  }

  /** The four table look-ups of one loop iteration. */
  method GroupOfTriple(triple: nat, ghost a: byte, ghost b: byte, ghost c: byte) returns (s: seq<byte>)
    requires triple == a * 0x1_0000 + b * 0x100 + c
    ensures s == EncodeGroup(a, b, c)
  {
    s := [Symbol(triple / 0x4_0000 % 64), Symbol(triple / 0x1000 % 64), Symbol(triple / 64 % 64), Symbol(triple % 64)];
  }

  lemma {:induction false} DecodeSnoc(s: seq<byte>, t: seq<byte>)
    requires WellFormed(s) && WellFormed(t) && |t| == 4
    ensures WellFormed(s + t)
    ensures DecodeGroups(s + t)
            == DecodeGroups(s) + DecodeGroup(SextetOf(t[0]), SextetOf(t[1]), SextetOf(t[2]), SextetOf(t[3]))
  {
    hide DecodeGroups, DecodeGroup, SextetOf;
    WellFormedConcat(s, t);
    EmptyDecode();
    if s == [] {
      DecodeConcat(t, []);
      assert s + t == t == t + [];
    } else {
      var head, rest := s[..4], s[4..];
      DecodeSnoc(rest, t);
      DecodeConcat(head, rest);
      DecodeConcat(head, rest + t);
      assert s == head + rest && s + t == head + (rest + t);
    }
  }

  /** Null for a length that is no multiple of four. A character outside the alphabet reads a table entry that was never
      set, so only the length of the result is fixed then. */
  method Base64Decode(s: seq<byte>) returns (result: array?<byte>)
    requires s != []
    ensures result == null <==> |s| % 4 != 0
    ensures result != null ==> fresh(result) && result.Length == DecodedLength(s)
    ensures result != null && WellFormed(s) ==> result[..] == Decode(s)
  {
    hide Decode, DecodedLength;
    var table := BuildDecodingTable();
    if |s| % 4 != 0 {
      return null;
    }
    result := DecodeInto(table, s);
  }

  method DecodeInto(table: array<byte>, s: seq<byte>) returns (decoded: array<byte>)
    requires |s| % 4 == 0 && s != []
    requires table.Length == 256 && forall c: byte :: IsSymbol(c) ==> table[c] == SextetOf(c)
    ensures fresh(decoded) && decoded.Length == DecodedLength(s)
    ensures WellFormed(s) ==> decoded[..] == Decode(s)
  {
    hide DecodeGroups, DecodeGroup, SextetOf, DecodedLength;
    var outputLength := OutputLength(s);
    decoded := new byte[outputLength];
    var i, j := 0, 0;
    ghost var all: seq<byte> := [];
    assert s[..0] == [];
    while i < |s|
      invariant 0 <= i <= |s| && i % 4 == 0
      invariant |all| == i / 4 * 3 && (WellFormed(s) ==> all == DecodeGroups(s[..i]))
      invariant j == if |all| <= outputLength then |all| else outputLength
      invariant decoded[..j] == all[..j]
      invariant forall c: byte :: IsSymbol(c) ==> table[c] == SextetOf(c)
    {
      var group := DecodeFour(table, s[i], s[i + 1], s[i + 2], s[i + 3]);
      if WellFormed(s) {
        DecodeSnoc(s[..i], s[i..i + 4]);
        assert s[..i] + s[i..i + 4] == s[..i + 4];
      }
      i := i + 4;
      j := StoreWithin(decoded, all, group, j);
      all := all + group;
    }
    assert s[..i] == s;
  }

  method OutputLength(s: seq<byte>) returns (n: nat)
    requires |s| % 4 == 0 && s != []
    ensures n == DecodedLength(s)
  {
    n := |s| / 4 * 3;
    if s[|s| - 1] == EQUALS {
      n := n - 1;
    }
    if s[|s| - 2] == EQUALS {
      n := n - 1;
    }
  }

  method DecodeFour(table: array<byte>, c0: byte, c1: byte, c2: byte, c3: byte) returns (group: seq<byte>)
    requires table.Length == 256 && forall k: byte :: IsSymbol(k) ==> table[k] == SextetOf(k)
    ensures |group| == 3
    ensures Readable(c0) && Readable(c1) && Readable(c2) && Readable(c3) ==>
              group == DecodeGroup(SextetOf(c0), SextetOf(c1), SextetOf(c2), SextetOf(c3))
  {
    var w: int := LookUp(table, c0);
    var x: int := LookUp(table, c1);
    var y: int := LookUp(table, c2);
    var z: int := LookUp(table, c3);
    var triple: int := w * 0x4_0000 + x * 0x1000 + y * 64 + z;
    group := [triple / 0x1_0000 % 256, triple / 0x100 % 256, triple % 256];
  }

  /** Appends a group to the output, dropping what lies past its end. */
  method StoreWithin(decoded: array<byte>, ghost all: seq<byte>, group: seq<byte>, from: nat) returns (j: nat)
    requires |group| == 3 && from == (if |all| <= decoded.Length then |all| else decoded.Length)
    requires decoded[..from] == all[..from]
    modifies decoded
    ensures j == if |all| + 3 <= decoded.Length then |all| + 3 else decoded.Length
    ensures decoded[..j] == (all + group)[..j]
  {
    j := from;
    if j < decoded.Length {
      decoded[j] := group[0];
      j := j + 1;
    }
    if j < decoded.Length {
      decoded[j] := group[1];
      j := j + 1;
    }
    if j < decoded.Length {
      decoded[j] := group[2];
      j := j + 1;
    }
    assert forall k :: 0 <= k < from ==> decoded[k] == old(decoded[..from])[k] == all[k];
    assert forall k :: 0 <= k < j ==> decoded[k] == (all + group)[k];
  }

  lemma EmptyDecode()
    ensures DecodeGroups([]) == []
  {
  }

  method LookUp(table: array<byte>, c: byte) returns (v: byte)
    requires table.Length == 256 && forall k: byte :: IsSymbol(k) ==> table[k] == SextetOf(k)
    ensures Readable(c) ==> v == SextetOf(c)
  {
    v := if c == EQUALS then 0 else table[c];
  }

  // ---------- byte order ----------

  /** Swaps the eight bytes of a number end to end. Written out little-endian, the result is the big-endian form of the
      number, which is how the handshake sends its factors. */
  method ByteSwapUInt64(number: u64) returns (swapped: u64)
    ensures U64Bytes(swapped) == Reverse(U64Bytes(number))
    ensures FromBigEndian(U64Bytes(swapped)) == number
  {
    hide U64Bytes, Reverse, FromLittleEndian, FromBigEndian;
    var bytes := U64Bytes(number);
    var p := new byte[8](i requires 0 <= i < 8 => bytes[i]);
    var lo, hi := 0, 7;
    while hi > lo
      invariant lo + hi == 7 && 0 <= lo <= 4
      invariant forall k :: 0 <= k < lo ==> p[k] == bytes[7 - k] && p[7 - k] == bytes[k]
      invariant forall k :: lo <= k <= hi ==> p[k] == bytes[k]
    {
      var tmp := p[lo];
      p[lo] := p[hi];
      p[hi] := tmp;
      lo, hi := lo + 1, hi - 1;
    }
    ghost var r := Reverse(bytes);
    assert p[..] == r;
    SwappedBytes(number);
    swapped := FromLittleEndian(p[..]);
    assert U64Bytes(swapped) == r;
  }

  lemma SwappedBytes(number: u64)
    ensures var r := Reverse(U64Bytes(number));
            FromLittleEndian(r) < 0x1_0000_0000_0000_0000 && U64Bytes(FromLittleEndian(r)) == r && FromBigEndian(r) == number
  {
    var r := Reverse(U64Bytes(number));
    EncodeFromLittleEndian(r);
    Widths();
    ReversedIsBigEndian(U64Bytes(number));
    Decode64(number);
  }

}
