/** Python's `s.encode()` and `b.decode("utf-8", errors="replace")`. Well-formed UTF-8 is the
    syntax of section 4 of RFC 3629; a character is a Unicode scalar value. */
module Utf8 {
  type Byte = b: int | 0 <= b < 256
  type Bytes = seq<Byte>

  const REPLACEMENT: char := '\U{FFFD}'

  /** Six bits to a byte, the last ones last. */
  function EncodeChar(c: char): (b: Bytes)
    ensures 1 <= |b| <= 4
  {
    var n := c as int;
    if n < 0x80 then [n]
    else if n < 0x800 then [0xC0 + n / 64, TailOf(n)]
    else if n < 0x10000 then [0xE0 + n / 64 / 64, TailOf(n / 64), TailOf(n)]
    else [0xF0 + n / 64 / 64 / 64, TailOf(n / 64 / 64), TailOf(n / 64), TailOf(n)]
  }

  function TailOf(n: nat): Byte { 0x80 + n % 64 }

  function Encode(s: string): Bytes {
    if s == "" then [] else EncodeChar(s[0]) + Encode(s[1..])
  }

  // ---------------------------------------------------------------------------------------
  // The syntax

  predicate IsTail(b: Byte) { 0x80 <= b <= 0xBF }

  /** How many bytes a character with this first byte has; 0 if none starts so. */
  function Length(first: Byte): nat {
    if first < 0x80 then 1
    else if 0xC2 <= first <= 0xDF then 2
    else if 0xE0 <= first <= 0xEF then 3
    else if 0xF0 <= first <= 0xF4 then 4
    else 0
  }

  /** Overlong forms, surrogates and what lies beyond U+10FFFF are excluded. */
  predicate IsSecond(first: Byte, second: Byte) {
    if first == 0xE0 then 0xA0 <= second <= 0xBF
    else if first == 0xED then 0x80 <= second <= 0x9F
    else if first == 0xF0 then 0x90 <= second <= 0xBF
    else if first == 0xF4 then 0x80 <= second <= 0x8F
    else IsTail(second)
  }

  /** How many bytes in front begin, or are, a character. */
  function Begun(b: Bytes): (n: nat)
    requires b != []
    ensures n <= |b| && n <= Length(b[0])
  {
    var length := Length(b[0]);
    if length < 2 then length
    else if |b| < 2 || !IsSecond(b[0], b[1]) then 1
    else if length == 2 || |b| < 3 || !IsTail(b[2]) then 2
    else if length == 3 || |b| < 4 || !IsTail(b[3]) then 3
    else 4
  }

  predicate StartsWithChar(b: Bytes) { b != [] && Length(b[0]) > 0 && Begun(b) == Length(b[0]) }

  predicate IsUtf8(b: Bytes) {
    b == [] || (StartsWithChar(b) && IsUtf8(b[Length(b[0])..]))
  }

  // ---------------------------------------------------------------------------------------
  // The decoder

  function Joined(high: int, b: Byte): int { 64 * high + (b as int - 0x80) }

  function CodePoint(b: Bytes): (n: int)
    requires StartsWithChar(b)
    ensures 0 <= n < 0xD800 || 0xE000 <= n < 0x110000
  {
    var length, first := Length(b[0]), b[0] as int;
    if length == 1 then first
    else if length == 2 then Joined(first - 0xC0, b[1])
    else if length == 3 then Joined(Joined(first - 0xE0, b[1]), b[2])
    else Joined(Joined(Joined(first - 0xF0, b[1]), b[2]), b[3])
  }

  /** What cannot be a character is replaced, as far as it had begun like one. */
  function Decode(b: Bytes): string {
    if b == [] then ""
    else if StartsWithChar(b) then [CodePoint(b) as char] + Decode(b[Length(b[0])..])
    else [REPLACEMENT] + Decode(b[if Begun(b) == 0 then 1 else Begun(b)..])
  }

  // ---------------------------------------------------------------------------------------
  // Round trips

  lemma Split64(n: nat)
    ensures Joined(n / 64, TailOf(n)) == n && IsTail(TailOf(n))
  {
  }

  lemma Join64(high: nat, b: Byte)
    requires IsTail(b)
    ensures Joined(high, b) / 64 == high && TailOf(Joined(high, b)) == b
  {
  }

  lemma CharBack(b: Bytes)
    requires StartsWithChar(b)
    ensures EncodeChar(CodePoint(b) as char) == b[..Length(b[0])]
  {
    var length, first := Length(b[0]), b[0] as int;
    if length == 2 {
      Join64(first - 0xC0, b[1]);
    } else if length == 3 {
      Join64(first - 0xE0, b[1]);
      Join64(Joined(first - 0xE0, b[1]), b[2]);
    } else if length == 4 {
      Join64(first - 0xF0, b[1]);
      Join64(Joined(first - 0xF0, b[1]), b[2]);
      Join64(Joined(Joined(first - 0xF0, b[1]), b[2]), b[3]);
    }
  }

  lemma TwoBytes(n: nat, b: Bytes)
    requires 0x80 <= n < 0x800 && |b| >= 2 && b[0] == 0xC0 + n / 64 && b[1] == TailOf(n)
    ensures StartsWithChar(b) && Length(b[0]) == 2 && CodePoint(b) == n
  {
    Split64(n);
    assert Length(b[0]) == 2 && IsSecond(b[0], b[1]);
  }

  lemma ThreeBytes(n: nat, b: Bytes)
    requires 0x800 <= n < 0x10000 && !(0xD800 <= n < 0xE000)
    requires |b| >= 3 && b[0] == 0xE0 + n / 64 / 64 && b[1] == TailOf(n / 64) && b[2] == TailOf(n)
    ensures StartsWithChar(b) && Length(b[0]) == 3 && CodePoint(b) == n
  {
    Split64(n);
    Split64(n / 64);
    assert Length(b[0]) == 3 && IsSecond(b[0], b[1]) && IsTail(b[2]);
  }

  lemma FourBytes(n: nat, b: Bytes)
    requires 0x10000 <= n < 0x110000
    requires |b| >= 4 && b[0] == 0xF0 + n / 64 / 64 / 64 && b[1] == TailOf(n / 64 / 64) && b[2] == TailOf(n / 64) && b[3] == TailOf(n)
    ensures StartsWithChar(b) && Length(b[0]) == 4 && CodePoint(b) == n
  {
    Split64(n);
    Split64(n / 64);
    Split64(n / 64 / 64);
    assert Length(b[0]) == 4 && IsSecond(b[0], b[1]) && IsTail(b[2]) && IsTail(b[3]);
  }

  lemma EncodedCharStarts(c: char, rest: Bytes)
    ensures var b := EncodeChar(c) + rest;
            StartsWithChar(b) && Length(b[0]) == |EncodeChar(c)| && CodePoint(b) == c as int
  {
    var n, b := c as int, EncodeChar(c) + rest;
    if n < 0x80 {
      assert b[0] == n;
    } else if n < 0x800 {
      assert b[0] == 0xC0 + n / 64 && b[1] == TailOf(n);
      TwoBytes(n, b);
    } else if n < 0x10000 {
      assert b[0] == 0xE0 + n / 64 / 64 && b[1] == TailOf(n / 64) && b[2] == TailOf(n);
      ThreeBytes(n, b);
    } else {
      assert b[0] == 0xF0 + n / 64 / 64 / 64 && b[1] == TailOf(n / 64 / 64) && b[2] == TailOf(n / 64) && b[3] == TailOf(n);
      FourBytes(n, b);
    }
  }

  /** Encoded text is well-formed, and decoding gives it back. */
  lemma {:induction false} EncodeThenDecode(s: string)
    ensures IsUtf8(Encode(s)) && Decode(Encode(s)) == s
  {
    if s != "" {
      EncodeThenDecode(s[1..]);
      EncodedCharStarts(s[0], Encode(s[1..]));
      assert Encode(s)[|EncodeChar(s[0])|..] == Encode(s[1..]);
    }
  }

  lemma DecodeFirst(b: Bytes)
    requires StartsWithChar(b)
    ensures Decode(b) == [CodePoint(b) as char] + Decode(b[Length(b[0])..])
  {
  }

  lemma EncodeFirst(c: char, s: string)
    ensures Encode([c] + s) == EncodeChar(c) + Encode(s)
  {
    assert ([c] + s)[1..] == s;
  }

  lemma {:induction false} Utf8Back(b: Bytes)
    requires IsUtf8(b)
    ensures Encode(Decode(b)) == b
  {
    if b != [] {
      var n, c := Length(b[0]), CodePoint(b) as char;
      calc {
        Encode(Decode(b));
        { DecodeFirst(b); }
        Encode([c] + Decode(b[n..]));
        { EncodeFirst(c, Decode(b[n..])); }
        EncodeChar(c) + Encode(Decode(b[n..]));
        { CharBack(b); Utf8Back(b[n..]); }
        b[..n] + b[n..];
        b;
      }
    }
  }

  /** Decoding and encoding again gives the same bytes exactly when they are well-formed. */
  lemma DecodeThenEncode(b: Bytes)
    ensures Encode(Decode(b)) == b <==> IsUtf8(b)
  {
    if IsUtf8(b) { Utf8Back(b); }
    EncodeThenDecode(Decode(b));
  }

  predicate IsAscii(s: string) { forall c | c in s :: (c as int) < 128 }

  /** ASCII text has one byte for each character. */
  lemma {:induction false} AsciiBytes(s: string)
    requires IsAscii(s)
    ensures |Encode(s)| == |s| && forall i | 0 <= i < |s| :: Encode(s)[i] == s[i] as int
  {
    if s != "" {
      assert s[0] in s && EncodeChar(s[0]) == [s[0] as int];
      assert forall c | c in s[1..] :: c in s;
      AsciiBytes(s[1..]);
    }
  }

  lemma StartsAlike(a: Bytes, b: Bytes)
    requires StartsWithChar(a)
    ensures StartsWithChar(a + b) && (a + b)[0] == a[0] && CodePoint(a + b) == CodePoint(a)
    ensures (a + b)[Length(a[0])..] == a[Length(a[0])..] + b
  {
    var c := a + b;
    assert forall i | 0 <= i < |a| :: c[i] == a[i];
  }

  /** Well-formed bytes decode on their own, whatever follows. */
  lemma {:induction false} DecodeSplits(a: Bytes, b: Bytes)
    requires IsUtf8(a)
    ensures Decode(a + b) == Decode(a) + Decode(b)
  {
    if a == [] {
      assert a + b == b;
    } else {
      var n, c := Length(a[0]), CodePoint(a) as char;
      StartsAlike(a, b);
      calc {
        Decode(a + b);
        { DecodeFirst(a + b); }
        [c] + Decode(a[n..] + b);
        { DecodeSplits(a[n..], b); }
        [c] + (Decode(a[n..]) + Decode(b));
        ([c] + Decode(a[n..])) + Decode(b);
        { DecodeFirst(a); }
        Decode(a) + Decode(b);
      }
    }
  }

  /** What is not well-formed leaves a replacement character behind. */
  lemma {:induction false} DecodeMarksDamage(b: Bytes)
    requires !IsUtf8(b)
    ensures '\U{FFFD}' in Decode(b)
  {
    if StartsWithChar(b) {
      DecodeMarksDamage(b[Length(b[0])..]);
      assert forall c | c in Decode(b[Length(b[0])..]) :: c in Decode(b);
    } else {
      assert Decode(b)[0] == REPLACEMENT;
    }
  }
}
