/**
  The UTF-8 decoder of src/ime.cpp and the encoding of RFC 3629 it has to undo. A byte is held in a word, as after
  the promotions of the source.
*/
module Utf8 {
  type Byte = b: bv32 | b < 0x100

  /** A Unicode scalar value other than the terminating zero. */
  predicate Scalar(ch: bv32) {
    0 < ch < 0xD800 || 0xDFFF < ch <= 0x10FFFF
  }

  /** Section 3 of RFC 3629. */
  function Encode(ch: bv32): seq<Byte>
    requires ch <= 0x10FFFF
  {
    if ch < 0x80 then [ch]
    else if ch < 0x800 then [0xC0 | (ch >> 6), 0x80 | (ch & 0x3F)]
    else if ch < 0x10000 then [0xE0 | (ch >> 12), 0x80 | ((ch >> 6) & 0x3F), 0x80 | (ch & 0x3F)]
    else [0xF0 | (ch >> 18), 0x80 | ((ch >> 12) & 0x3F), 0x80 | ((ch >> 6) & 0x3F), 0x80 | (ch & 0x3F)]
  }

  /** utf8_size of a character that starts with u8; 0 also for a byte that starts none. */
  function Size(u8: Byte): nat {
    if u8 == 0 then 0
    else if u8 & 0x80 == 0 then 1
    else if u8 & 0xE0 == 0xC0 then 2
    else if u8 & 0xF0 == 0xE0 then 3
    else if u8 & 0xF8 == 0xF0 then 4
    else 0
  }

  const INVALID: bv32 := 0xFFFD

  function Mask(size: nat): bv32
    requires 1 <= size <= 4
  {
    if size == 1 then 0x7F else if size == 2 then 0x1F else if size == 3 then 0x0F else 0x07
  }

  /** One turn of the decoding loop. */
  function Join(ret: bv32, b: Byte): bv32 {
    (ret << 6) | (b & 0x3F)
  }

  function Lead(b: Byte, size: nat): bv32
    requires 1 <= size <= 4
  {
    b & Mask(size)
  }

  /** What the decoding loop has put together of the first `i` bytes. */
  function Gather(str: seq<Byte>, i: nat): bv32
    requires 1 <= i <= |str| <= 4
  {
    if i == 1 then Lead(str[0], |str|) else Join(Gather(str, i - 1), str[i - 1])
  }

  /** utf8_decode reads whole characters: its callers pass text in which no character is cut off. */
  predicate Whole(str: seq<Byte>) {
    str != [] && Size(str[0]) <= |str|
  }

  function Decode(str: seq<Byte>): bv32
    requires Whole(str)
  {
    var size := Size(str[0]);
    if size == 0 then INVALID else Gather(str[..size], size)
  }

  function Advance(str: seq<Byte>): seq<Byte>
    requires Whole(str)
  {
    if Size(str[0]) == 0 then str[1..] else str[Size(str[0])..]
  }

  method Utf8Decode(str: seq<Byte>) returns (ret: bv32, rest: seq<Byte>)
    requires Whole(str)
    ensures ret == Decode(str) && rest == Advance(str)
  {
    var size := Size(str[0]);
    if size == 0 {
      return INVALID, str[1..];
    }
    rest := str[size..];
    ret := str[0] & Mask(size);
    for i := 1 to size
      invariant ret == Gather(str[..size], i)
    {
      ret := ret << 6;
      ret := ret | (str[i] & 0x3F);
    }
  }

  // ----- Round trips -----

  lemma SizeOfEncoded(ch: bv32)
    requires Scalar(ch)
    ensures Size(Encode(ch)[0]) == |Encode(ch)|
  {}

  lemma Gathered(s: seq<Byte>)
    requires 1 <= |s| <= 4
    ensures |s| == 1 ==> Gather(s, 1) == Lead(s[0], 1)
    ensures |s| == 2 ==> Gather(s, 2) == Join(Lead(s[0], 2), s[1])
    ensures |s| == 3 ==> Gather(s, 3) == Join(Join(Lead(s[0], 3), s[1]), s[2])
    ensures |s| == 4 ==> Gather(s, 4) == Join(Join(Join(Lead(s[0], 4), s[1]), s[2]), s[3])
  {
    hide Lead, Join;
    assert Gather(s, 1) == Lead(s[0], |s|);
    assert |s| >= 2 ==> Gather(s, 2) == Join(Gather(s, 1), s[1]);
    assert |s| >= 3 ==> Gather(s, 3) == Join(Gather(s, 2), s[2]);
  }

  lemma Split1(ch: bv32)
    requires 0 < ch < 0x80
    ensures Lead(ch, 1) == ch
  {}

  lemma Split2(ch: bv32)
    requires ch < 0x800
    ensures Join(Lead(0xC0 | (ch >> 6), 2), 0x80 | (ch & 0x3F)) == ch
  {}

  lemma Split3(ch: bv32)
    requires ch < 0x10000
    ensures Join(Join(Lead(0xE0 | (ch >> 12), 3), 0x80 | ((ch >> 6) & 0x3F)), 0x80 | (ch & 0x3F)) == ch
  {}

  lemma Split4(ch: bv32)
    requires ch <= 0x10FFFF
    ensures Join(Join(Join(Lead(0xF0 | (ch >> 18), 4), 0x80 | ((ch >> 12) & 0x3F)), 0x80 | ((ch >> 6) & 0x3F)),
                 0x80 | (ch & 0x3F)) == ch
  {}

  lemma GatherOfEncoded(ch: bv32)
    requires Scalar(ch)
    ensures Gather(Encode(ch), |Encode(ch)|) == ch
  {
    Gathered(Encode(ch));
    hide Gather, Join, Lead;
    if ch < 0x80 { Split1(ch); } else if ch < 0x800 { Split2(ch); }
    else if ch < 0x10000 { Split3(ch); } else { Split4(ch); }
  }

  /** Decoding undoes encoding and goes on right behind the character. */
  lemma DecodeOfEncode(ch: bv32, rest: seq<Byte>)
    requires Scalar(ch)
    ensures var str := Encode(ch) + rest; Whole(str) && Decode(str) == ch && Advance(str) == rest
  {
    SizeOfEncoded(ch);
    GatherOfEncoded(ch);
    var e := Encode(ch);
    hide Encode, Size, Gather;
    assert (e + rest)[..|e|] == e && (e + rest)[|e|..] == rest;
  }

  predicate Tail(b: Byte) {
    0x80 <= b <= 0xBF
  }

  /** One character by the grammar of section 4 of RFC 3629. */
  predicate ByTheGrammar(s: seq<Byte>) {
    match |s|
    case 1 => 0 < s[0] <= 0x7F
    case 2 => 0xC2 <= s[0] <= 0xDF && Tail(s[1])
    case 3 =>
      && Tail(s[1]) && Tail(s[2])
      && ((s[0] == 0xE0 && 0xA0 <= s[1]) || 0xE1 <= s[0] <= 0xEC || (s[0] == 0xED && s[1] <= 0x9F)
          || 0xEE <= s[0] <= 0xEF)
    case 4 =>
      && Tail(s[1]) && Tail(s[2]) && Tail(s[3])
      && ((s[0] == 0xF0 && 0x90 <= s[1]) || 0xF1 <= s[0] <= 0xF3 || (s[0] == 0xF4 && s[1] <= 0x8F))
    case _ => false
  }

  lemma SizeByTheGrammar(s: seq<Byte>)
    requires ByTheGrammar(s)
    ensures Size(s[0]) == |s|
  {}

  /** And encoding undoes decoding: on what the grammar allows the decoder is a bijection to the scalar values. */
  lemma EncodeOfDecode(s: seq<Byte>)
    requires ByTheGrammar(s)
    ensures Whole(s) && Scalar(Decode(s)) && Encode(Decode(s)) == s
  {
    SizeByTheGrammar(s);
    assert s[..|s|] == s;
    Gathered(s);
    hide Gather, Size, Join, Lead, Encode;
    match |s|
    case 1 => Joined1(s[0]); assert s == [s[0]];
    case 2 => Joined2(s[0], s[1]); assert s == [s[0], s[1]];
    case 3 => Joined3(s[0], s[1], s[2]); assert s == [s[0], s[1], s[2]];
    case 4 => Joined4(s[0], s[1], s[2], s[3]); assert s == [s[0], s[1], s[2], s[3]];
  }

  lemma Joined1(a: Byte)
    requires ByTheGrammar([a])
    ensures var ch := Lead(a, 1); Scalar(ch) && Encode(ch) == [a]
  {}

  lemma Joined2(a: Byte, b: Byte)
    requires ByTheGrammar([a, b])
    ensures var ch := Join(Lead(a, 2), b); Scalar(ch) && Encode(ch) == [a, b]
  {}

  lemma Joined3(a: Byte, b: Byte, c: Byte)
    requires ByTheGrammar([a, b, c])
    ensures var ch := Join(Join(Lead(a, 3), b), c); Scalar(ch) && Encode(ch) == [a, b, c]
  {
    var ch := Join(Join(Lead(a, 3), b), c);
    assert 0x800 <= ch < 0x10000 && Scalar(ch);
    assert 0xE0 | (ch >> 12) == a;
    assert 0x80 | ((ch >> 6) & 0x3F) == b;
  }

  lemma Joined4(a: Byte, b: Byte, c: Byte, d: Byte)
    requires ByTheGrammar([a, b, c, d])
    ensures var ch := Join(Join(Join(Lead(a, 4), b), c), d); Scalar(ch) && Encode(ch) == [a, b, c, d]
  {}

  /** A byte that starts no character by section 3 of RFC 3629 is U+FFFD on its own, and the next one starts afresh. */
  lemma StrayByteIsInvalid(str: seq<Byte>)
    requires str != [] && (0x80 <= str[0] <= 0xBF || 0xF8 <= str[0])
    ensures Whole(str) && Decode(str) == 0xFFFD && Advance(str) == str[1..]
  {
    StraySize(str[0]);
  }

  lemma StraySize(b: Byte)
    requires 0x80 <= b <= 0xBF || 0xF8 <= b
    ensures Size(b) == 0
  {}

  // ----- Whole texts -----

  predicate Scalars(chars: seq<bv32>) {
    forall i :: 0 <= i < |chars| ==> Scalar(chars[i])
  }

  function EncodeAll(chars: seq<bv32>): seq<Byte>
    requires Scalars(chars)
  {
    if chars == [] then [] else Encode(chars[0]) + EncodeAll(chars[1..])
  }

  /** The bytes of a C string in which no character is cut off by the end; they may still be malformed. */
  predicate WholeText(text: seq<Byte>)
    decreases |text|
  {
    text == [] || (text[0] != 0 && Whole(text) && WholeText(Advance(text)))
  }

  /** What repeated calls of the decoder return, U+FFFD for each byte that starts no character. */
  function DecodeAll(text: seq<Byte>): seq<bv32>
    requires WholeText(text)
    decreases |text|
  {
    if text == [] then [] else [Decode(text)] + DecodeAll(Advance(text))
  }

  /** Every text in UTF-8 is decoded to its characters. */
  lemma {:induction false} DecodeAllOfEncodeAll(chars: seq<bv32>)
    requires Scalars(chars)
    ensures WholeText(EncodeAll(chars)) && DecodeAll(EncodeAll(chars)) == chars
  {
    if chars != [] {
      DecodeAllOfEncodeAll(chars[1..]);
      DecodeOfEncode(chars[0], EncodeAll(chars[1..]));
      StartsNonZero(chars[0]);
      hide Encode, Decode, Advance, Whole;
      assert [chars[0]] + chars[1..] == chars;
    }
  }

  lemma StartsNonZero(ch: bv32)
    requires Scalar(ch)
    ensures Encode(ch)[0] != 0
  {}
}
