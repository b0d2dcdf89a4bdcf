/** The load generator's base64url decoder (RFC 4648, section 5, unpadded): a loop over a 32-bit
    buffer that is never masked, so its high bits are dropped by the shift. */
module Base64Url {
  import opened Bits
  import opened Wrappers

  type Byte = b: nat | b < 256
  type Sextet = v: nat | v < 64

  const U32: nat := 0x1_0000_0000

  /** A–Z, a–z, 0–9, then `-` and `_`. */
  const ALPHABET: string :=
    seq(26, i requires 0 <= i < 26 => 'A' + i as char) + seq(26, i requires 0 <= i < 26 => 'a' + i as char)
    + seq(10, i requires 0 <= i < 10 => '0' + i as char) + "-_"

  /** Where a character stands in the alphabet. */
  function Position(c: char): Option<Sextet> {
    if 'A' <= c <= 'Z' then Some(c as int - 'A' as int)
    else if 'a' <= c <= 'z' then Some(26 + (c as int - 'a' as int))
    else if '0' <= c <= '9' then Some(52 + (c as int - '0' as int))
    else if c == '-' then Some(62)
    else if c == '_' then Some(63)
    else None
  }

  function CharAt(v: Sextet): (c: char)
    ensures Position(c) == Some(v)
  {
    if v < 26 then 'A' + v as char
    else if v < 52 then 'a' + (v - 26) as char
    else if v < 62 then '0' + (v - 52) as char
    else if v == 62 then '-' else '_'
  }

  lemma PositionIsIndex(c: char, v: Sextet)
    ensures |ALPHABET| == 64
    ensures Position(c) == Some(v) <==> ALPHABET[v] == c
  {
  }

  /** `(buffer << 6) | value` on a `u32`: the shift drops the high bits and leaves six zero bits
      below, so the OR adds. */
  function Shift(buffer: nat, value: Sextet): (r: nat)
    ensures r < U32
  {
    buffer * 64 % U32 + value
  }

  predicate BitCount(bits: nat) { bits in {0, 2, 4, 6} }

  /** 2^bits, the divisor of a right shift by `bits`. */
  function Scale(bits: nat): (s: nat)
    requires BitCount(bits)
    ensures s > 0
  {
    if bits == 0 then 1 else if bits == 2 then 4 else if bits == 4 then 16 else 64
  }

  lemma ScaleIsPowerOfTwo(bits: nat)
    requires BitCount(bits)
    ensures Scale(bits) == Pow2(bits)
  {
    assert Pow2(0) == 1 && Pow2(2) == 4;
    assert Pow2(4) == 2 * Pow2(3) && Pow2(6) == 2 * Pow2(5);
  }

  /** The byte above the `bits` lowest bits of the buffer. */
  function ByteAbove(buffer: nat, bits: nat): Byte
    requires BitCount(bits)
  {
    buffer / Scale(bits) % 256
  }

  function Prepend(front: seq<Byte>, rest: Option<seq<Byte>>): Option<seq<Byte>> {
    match rest
    case None => None
    case Some(bytes) => Some(front + bytes)
  }

  /** What the loop appends for the characters still to come. */
  function Decode(chars: string, buffer: nat, bits: nat): Option<seq<Byte>>
    requires BitCount(bits)
  {
    if chars == "" then Some([])
    else match Position(chars[0])
      case None => None
      case Some(value) =>
        var buffer' := Shift(buffer, value);
        if bits == 0 then Decode(chars[1..], buffer', 6)
        else Prepend([ByteAbove(buffer', bits - 2)], Decode(chars[1..], buffer', bits - 2))
  }

  /** The loop itself. */
  method DecodePayload(payload: string) returns (result: Option<seq<Byte>>)
    ensures result == Decode(payload, 0, 0)
  {
    var decoded: seq<Byte> := [];
    var buffer: nat, bits: nat := 0, 0;
    assert payload[0..] == payload;
    PrependNothing(Decode(payload, 0, 0));
    for i := 0 to |payload|
      invariant BitCount(bits)
      invariant Decode(payload, 0, 0) == Prepend(decoded, Decode(payload[i..], buffer, bits))
    {
      assert payload[i..][1..] == payload[i + 1..];
      var position := Position(payload[i]);
      if position.None? {
        return None;
      }
      buffer := Shift(buffer, position.value);
      bits := bits + 6;
      if bits >= 8 {
        bits := bits - 8;
        var byte := MaskedByte(buffer, bits);
        PrependMore(decoded, byte, Decode(payload[i + 1..], buffer, bits));
        decoded := decoded + [byte];
      }
    }
    assert decoded + [] == decoded;
    result := Some(decoded);
  }

  /** `(buffer >> bits) & 0xFF` always fits a byte. */
  function MaskedByte(buffer: nat, bits: nat): (byte: Byte)
    requires BitCount(bits)
    ensures byte == ByteAbove(buffer, bits)
  {
    LowByte(buffer / Scale(bits));
    BitAnd(buffer / Scale(bits), 0xFF)
  }

  lemma LowByte(x: nat)
    ensures BitAnd(x, 0xFF) == x % 256
  {
    assert Pow2(4) == 16 && Pow2(8) == 16 * Pow2(4);
    MaskIsRemainder(x, 8);
  }

  lemma PrependNothing(rest: Option<seq<Byte>>)
    ensures Prepend([], rest) == rest
  {
    if rest.Some? { assert [] + rest.value == rest.value; }
  }

  lemma PrependMore(front: seq<Byte>, byte: Byte, rest: Option<seq<Byte>>)
    ensures Prepend(front, Prepend([byte], rest)) == Prepend(front + [byte], rest)
  {
    if rest.Some? { assert front + ([byte] + rest.value) == front + [byte] + rest.value; }
  }

  // ----- the dropped high bits do not matter

  lemma ShiftDropsHighBits(buffer: nat, value: Sextet)
    ensures Shift(buffer, value) == buffer % 0x400_0000 * 64 + value
  {
    var q, kept := buffer / 0x400_0000, buffer % 0x400_0000;
    assert buffer * 64 == q * U32 + kept * 64;
    assert buffer * 64 % U32 == kept * 64;
  }

  /** The byte made of the upper bits of `low` and what is left over, for each number of bits kept. */
  lemma Shift0(b: nat, v: Sextet)
    ensures Shift(b, v) % 64 == v
  {
    ShiftDropsHighBits(b, v);
  }

  lemma Shift2(b: nat, v: Sextet)
    ensures Shift(b, v) % 256 == b % 4 * 64 + v
  {
    ShiftDropsHighBits(b, v);
    var k := b % 0x400_0000 / 4;
    assert b % 0x400_0000 % 4 == b % 4;
    assert Shift(b, v) == 256 * k + (b % 4 * 64 + v);
  }

  lemma Shift4(b: nat, v: Sextet)
    ensures var x := b % 16 * 64 + v; Shift(b, v) / 4 % 256 == x / 4 && Shift(b, v) % 4 == x % 4
  {
    ShiftDropsHighBits(b, v);
    var k := b % 0x400_0000 / 16;
    assert b % 0x400_0000 % 16 == b % 16;
    assert Shift(b, v) == 1024 * k + (b % 16 * 64 + v);
    Upper4(k, b % 16 * 64 + v);
  }

  lemma Upper4(k: nat, x: nat)
    requires x < 1024
    ensures (1024 * k + x) / 4 % 256 == x / 4 && (1024 * k + x) % 4 == x % 4
  {
    assert (1024 * k + x) / 4 == 256 * k + x / 4;
  }

  lemma Shift6(b: nat, v: Sextet)
    ensures var x := b % 64 * 64 + v; Shift(b, v) / 16 % 256 == x / 16 && Shift(b, v) % 16 == x % 16
  {
    ShiftDropsHighBits(b, v);
    var k := b % 0x400_0000 / 64;
    assert b % 0x400_0000 % 64 == b % 64;
    assert Shift(b, v) == 4096 * k + (b % 64 * 64 + v);
    Upper6(k, b % 64 * 64 + v);
  }

  lemma Upper6(k: nat, x: nat)
    requires x < 4096
    ensures (4096 * k + x) / 16 % 256 == x / 16 && (4096 * k + x) % 16 == x % 16
  {
    assert (4096 * k + x) / 16 == 256 * k + x / 16;
  }

  lemma {:induction false} OnlyLowBitsMatter(chars: string, b: nat, c: nat, bits: nat)
    requires BitCount(bits) && b % Scale(bits) == c % Scale(bits)
    ensures Decode(chars, b, bits) == Decode(chars, c, bits)
    decreases |chars|
  {
    if chars != "" && Position(chars[0]).Some? {
      var v := Position(chars[0]).value;
      if bits == 0 {
        Shift0(b, v); Shift0(c, v);
        OnlyLowBitsMatter(chars[1..], Shift(b, v), Shift(c, v), 6);
      } else if bits == 2 {
        Shift2(b, v); Shift2(c, v);
        OnlyLowBitsMatter(chars[1..], Shift(b, v), Shift(c, v), 0);
      } else if bits == 4 {
        Shift4(b, v); Shift4(c, v);
        OnlyLowBitsMatter(chars[1..], Shift(b, v), Shift(c, v), 2);
      } else {
        Shift6(b, v); Shift6(c, v);
        OnlyLowBitsMatter(chars[1..], Shift(b, v), Shift(c, v), 4);
      }
    }
  }

  // ----- one character at a time, on the meaningful bits

  lemma Step0(v: Sextet, rest: string, buffer: nat)
    ensures Decode([CharAt(v)] + rest, buffer, 0) == Decode(rest, v, 6)
  {
    assert ([CharAt(v)] + rest)[1..] == rest;
    Shift0(buffer, v);
    OnlyLowBitsMatter(rest, Shift(buffer, v), v, 6);
  }

  /** Few enough bits lose nothing in the shift. */
  lemma SmallShift(low: nat, v: Sextet)
    requires low < 64
    ensures Shift(low, v) == low * 64 + v < 4096
  {
  }

  lemma UpperOf6(x: nat)
    requires x < 4096
    ensures x / 16 < 256 && ByteAbove(x, 4) == x / 16 && x % Scale(4) == x % 16 % Scale(4)
  {
  }

  lemma Step6(v: Sextet, rest: string, low: nat)
    requires low < 64
    ensures var x := low * 64 + v;
            Decode([CharAt(v)] + rest, low, 6) == Prepend([x / 16], Decode(rest, x % 16, 4))
  {
    assert ([CharAt(v)] + rest)[1..] == rest;
    var x := low * 64 + v;
    SmallShift(low, v);
    UpperOf6(x);
    OnlyLowBitsMatter(rest, x, x % 16, 4);
  }

  lemma Step4(v: Sextet, rest: string, low: nat)
    requires low < 16
    ensures var x := low * 64 + v;
            Decode([CharAt(v)] + rest, low, 4) == Prepend([x / 4], Decode(rest, x % 4, 2))
  {
    assert ([CharAt(v)] + rest)[1..] == rest;
    SmallShift(low, v);
    assert (low * 64 + v) / 4 < 256;
    OnlyLowBitsMatter(rest, Shift(low, v), (low * 64 + v) % 4, 2);
  }

  lemma Step2(v: Sextet, rest: string, low: nat)
    requires low < 4
    ensures Decode([CharAt(v)] + rest, low, 2) == Prepend([low * 64 + v], Decode(rest, 0, 0))
  {
    assert ([CharAt(v)] + rest)[1..] == rest;
    SmallShift(low, v);
    OnlyLowBitsMatter(rest, Shift(low, v), 0, 0);
  }

  // ----- what any four characters decode to

  lemma CharOfPosition(c: char, v: Sextet)
    requires Position(c) == Some(v)
    ensures CharAt(v) == c
  {
  }

  /** Four characters give three bytes: their 24 bits, eight at a time, and the rest decodes alone. */
  lemma FourCharactersDecode(s: string, v0: Sextet, v1: Sextet, v2: Sextet, v3: Sextet, rest: string)
    requires |s| == 4 && Position(s[0]) == Some(v0) && Position(s[1]) == Some(v1)
    requires Position(s[2]) == Some(v2) && Position(s[3]) == Some(v3)
    ensures Decode(s + rest, 0, 0) ==
            Prepend([v0 * 4 + v1 / 16],
                    Prepend([v1 % 16 * 16 + v2 / 4], Prepend([v2 % 4 * 64 + v3], Decode(rest, 0, 0))))
  {
    CharOfPosition(s[0], v0);
    CharOfPosition(s[1], v1);
    CharOfPosition(s[2], v2);
    CharOfPosition(s[3], v3);
    var s3 := [CharAt(v3)] + rest;
    var s2 := [CharAt(v2)] + s3;
    var s1 := [CharAt(v1)] + s2;
    assert s + rest == [CharAt(v0)] + s1;
    Step0(v0, s1, 0);
    SecondCharacter(v0, v1, s2);
    ThirdCharacter(v1 % 16, v2, s3);
    Step2(v3, rest, v2 % 4);
  }

  lemma SixteenFour(v0: Sextet, v1: Sextet)
    ensures (v0 * 64 + v1) / 16 == v0 * 4 + v1 / 16 && (v0 * 64 + v1) % 16 == v1 % 16
  {
    assert v0 * 64 + v1 == 16 * (v0 * 4 + v1 / 16) + v1 % 16;
  }

  lemma SecondCharacter(v0: Sextet, v1: Sextet, rest: string)
    ensures Decode([CharAt(v1)] + rest, v0, 6) == Prepend([v0 * 4 + v1 / 16], Decode(rest, v1 % 16, 4))
  {
    SixteenFour(v0, v1);
    Step6(v1, rest, v0);
  }

  lemma FourSixteen(low: nat, v2: Sextet)
    requires low < 16
    ensures (low * 64 + v2) / 4 == low * 16 + v2 / 4 && (low * 64 + v2) % 4 == v2 % 4
  {
    assert low * 64 + v2 == 4 * (low * 16 + v2 / 4) + v2 % 4;
  }

  lemma ThirdCharacter(low: nat, v2: Sextet, rest: string)
    requires low < 16
    ensures Decode([CharAt(v2)] + rest, low, 4) == Prepend([low * 16 + v2 / 4], Decode(rest, v2 % 4, 2))
  {
    FourSixteen(low, v2);
    Step4(v2, rest, low);
  }

  /** A tail of one character gives nothing, one of two gives a byte and one of three gives two; the
      bits left over are dropped, whatever they are. */
  lemma TailOfOne(c0: char, v0: Sextet)
    requires Position(c0) == Some(v0)
    ensures Decode([c0], 0, 0) == Some([])
  {
    CharOfPosition(c0, v0);
    assert [c0] == [CharAt(v0)] + "";
    Step0(v0, "", 0);
  }

  lemma TailOfTwo(c0: char, c1: char, v0: Sextet, v1: Sextet)
    requires Position(c0) == Some(v0) && Position(c1) == Some(v1)
    ensures Decode([c0, c1], 0, 0) == Some([v0 * 4 + v1 / 16])
  {
    CharOfPosition(c0, v0);
    CharOfPosition(c1, v1);
    assert [c0, c1] == [CharAt(v0)] + ([CharAt(v1)] + "");
    Step0(v0, [CharAt(v1)] + "", 0);
    SecondCharacter(v0, v1, "");
    assert Decode("", v1 % 16, 4) == Some([]);
    assert [v0 * 4 + v1 / 16] + [] == [v0 * 4 + v1 / 16];
  }

  lemma TailOfThree(c0: char, c1: char, c2: char, v0: Sextet, v1: Sextet, v2: Sextet)
    requires Position(c0) == Some(v0) && Position(c1) == Some(v1) && Position(c2) == Some(v2)
    ensures Decode([c0, c1, c2], 0, 0) == Some([v0 * 4 + v1 / 16, v1 % 16 * 16 + v2 / 4])
  {
    CharOfPosition(c0, v0);
    CharOfPosition(c1, v1);
    CharOfPosition(c2, v2);
    assert [c0, c1, c2] == [CharAt(v0)] + ([CharAt(v1)] + ([CharAt(v2)] + ""));
    Step0(v0, [CharAt(v1)] + ([CharAt(v2)] + ""), 0);
    SecondCharacter(v0, v1, [CharAt(v2)] + "");
    ThirdCharacter(v1 % 16, v2, "");
    assert Decode("", v2 % 4, 2) == Some([]);
    assert [v0 * 4 + v1 / 16] + ([v1 % 16 * 16 + v2 / 4] + []) == [v0 * 4 + v1 / 16, v1 % 16 * 16 + v2 / 4];
  }

  // ----- the round trip

  /** Unpadded base64url: three bytes to four characters, a tail of one or two bytes to two or three. */
  function Encode(bytes: seq<Byte>): string {
    if |bytes| == 0 then ""
    else if |bytes| == 1 then [CharAt(bytes[0] / 4), CharAt(bytes[0] % 4 * 16)]
    else if |bytes| == 2 then
      [CharAt(bytes[0] / 4), CharAt(bytes[0] % 4 * 16 + bytes[1] / 16), CharAt(bytes[1] % 16 * 4)]
    else Group(bytes[0], bytes[1], bytes[2]) + Encode(bytes[3..])
  }

  function Group(a: Byte, b: Byte, c: Byte): string {
    [CharAt(a / 4), CharAt(a % 4 * 16 + b / 16), CharAt(b % 16 * 4 + c / 64), CharAt(c % 64)]
  }

  lemma RejoinFirst(a: Byte, next: nat)
    requires next < 16
    ensures (a / 4 * 64 + (a % 4 * 16 + next)) / 16 == a && (a / 4 * 64 + (a % 4 * 16 + next)) % 16 == next
  {
    assert a / 4 * 64 + (a % 4 * 16 + next) == 16 * a + next;
  }

  lemma RejoinSecond(b: Byte, next: nat)
    requires next < 4
    ensures (b / 16 * 64 + (b % 16 * 4 + next)) / 4 == b && (b / 16 * 64 + (b % 16 * 4 + next)) % 4 == next
  {
    assert b / 16 * 64 + (b % 16 * 4 + next) == 4 * b + next;
  }

  lemma DecodesOne(a: Byte, next: nat, rest: string, buffer: nat)
    requires next < 16
    ensures Decode([CharAt(a / 4)] + ([CharAt(a % 4 * 16 + next)] + rest), buffer, 0)
         == Prepend([a], Decode(rest, next, 4))
  {
    Step0(a / 4, [CharAt(a % 4 * 16 + next)] + rest, buffer);
    RejoinFirst(a, next);
    Step6(a % 4 * 16 + next, rest, a / 4);
  }

  lemma DecodesTwo(a: Byte, b: Byte, next: nat, rest: string, buffer: nat)
    requires next < 4
    ensures Decode([CharAt(a / 4)] + ([CharAt(a % 4 * 16 + b / 16)] + ([CharAt(b % 16 * 4 + next)] + rest)), buffer, 0)
         == Prepend([a], Prepend([b], Decode(rest, next, 2)))
  {
    var tail := [CharAt(b % 16 * 4 + next)] + rest;
    DecodesOne(a, b / 16, tail, buffer);
    RejoinSecond(b, next);
    Step4(b % 16 * 4 + next, rest, b / 16);
  }

  lemma DecodesGroup(a: Byte, b: Byte, c: Byte, rest: string, buffer: nat)
    ensures Decode(Group(a, b, c) + rest, buffer, 0)
         == Prepend([a], Prepend([b], Prepend([c], Decode(rest, 0, 0))))
  {
    assert Group(a, b, c) + rest ==
           [CharAt(a / 4)] + ([CharAt(a % 4 * 16 + b / 16)] +
                              ([CharAt(b % 16 * 4 + c / 64)] + ([CharAt(c % 64)] + rest)));
    DecodesTwo(a, b, c / 64, [CharAt(c % 64)] + rest, buffer);
    Step2(c % 64, rest, c / 64);
  }

  lemma DecodesTailOfOne(a: Byte)
    ensures Decode(Encode([a]), 0, 0) == Some([a])
  {
    var c, d := CharAt(a / 4), CharAt(a % 4 * 16 + 0);
    assert Encode([a]) == [c] + ([d] + "");
    DecodesOne(a, 0, "", 0);
    assert Decode("", 0, 4) == Some([]);
    assert [a] + [] == [a];
  }

  lemma DecodesTailOfTwo(a: Byte, b: Byte)
    ensures Decode(Encode([a, b]), 0, 0) == Some([a, b])
  {
    var c, d, e := CharAt(a / 4), CharAt(a % 4 * 16 + b / 16), CharAt(b % 16 * 4 + 0);
    assert Encode([a, b]) == [c] + ([d] + ([e] + ""));
    DecodesTwo(a, b, 0, "", 0);
    assert Decode("", 0, 2) == Some([]);
    assert [a] + ([b] + []) == [a, b];
  }

  lemma Regroup(bytes: seq<Byte>)
    requires |bytes| > 2
    ensures bytes == [bytes[0]] + ([bytes[1]] + ([bytes[2]] + bytes[3..]))
  {
  }

  /** The decoder inverts the encoding of every byte string. */
  lemma {:induction false} DecodeInvertsEncode(bytes: seq<Byte>)
    ensures Decode(Encode(bytes), 0, 0) == Some(bytes)
    decreases |bytes|
  {
    if |bytes| == 1 {
      assert bytes == [bytes[0]];
      DecodesTailOfOne(bytes[0]);
    } else if |bytes| == 2 {
      assert bytes == [bytes[0], bytes[1]];
      DecodesTailOfTwo(bytes[0], bytes[1]);
    } else if bytes != [] {
      var a, b, c, rest := bytes[0], bytes[1], bytes[2], bytes[3..];
      calc {
        Decode(Encode(bytes), 0, 0);
        Decode(Group(a, b, c) + Encode(rest), 0, 0);
        { DecodesGroup(a, b, c, Encode(rest), 0); }
        Prepend([a], Prepend([b], Prepend([c], Decode(Encode(rest), 0, 0))));
        { DecodeInvertsEncode(rest); }
        Some([a] + ([b] + ([c] + rest)));
        { Regroup(bytes); }
        Some(bytes);
      }
    }
  }

  /** Test vectors of section 10 of RFC 4648: f, fo and foob. */
  lemma EncodesOne()
    ensures Encode([]) == "" && Encode([0x66]) == "Zg"
  {
  }

  lemma EncodesTwo()
    ensures Encode([0x66, 0x6F]) == "Zm8"
  {
  }

  lemma EncodesFour()
    ensures Encode([0x66, 0x6F, 0x6F, 0x62]) == "Zm9vYg"
  {
    var foob: seq<Byte> := [0x66, 0x6F, 0x6F, 0x62];
    assert foob[3..] == [0x62];
    EncodesFoo();
    assert CharAt(0x62 / 4) == 'Y' && CharAt(0x62 % 4 * 16) == 'g';
  }

  lemma EncodesFoo()
    ensures Group(0x66, 0x6F, 0x6F) == "Zm9v"
  {
  }

  /** Decoding succeeds exactly on strings over the alphabet, and n characters give 6n/8 bytes,
      rounded down. */
  lemma {:induction false} DecodedLength(chars: string, buffer: nat, bits: nat)
    requires BitCount(bits)
    ensures Decode(chars, buffer, bits).Some? <==> forall i | 0 <= i < |chars| :: Position(chars[i]).Some?
    ensures Decode(chars, buffer, bits).Some? ==> |Decode(chars, buffer, bits).value| == (bits + 6 * |chars|) / 8
  {
    if chars != "" && Position(chars[0]).Some? {
      DecodedLength(chars[1..], Shift(buffer, Position(chars[0]).value), if bits == 0 then 6 else bits - 2);
      assert forall i | 1 <= i < |chars| :: chars[i] == chars[1..][i - 1];
    }
  }
}
