/** UTF-8, the byte form of every Rust string, with a decoder that undoes it. */
module Utf8 {
  import opened Bytes

  /** A Unicode scalar value in one to four bytes. */
  function EncodeChar(c: char): (b: seq<byte>)
    ensures 1 <= |b| <= 4
  {
    var v := c as int;
    if v < 0x80 then [v]
    else if v < 0x800 then [0xC0 + v / 0x40, 0x80 + v % 0x40]
    else if v < 0x1_0000 then [0xE0 + v / 0x1000, 0x80 + v / 0x40 % 0x40, 0x80 + v % 0x40]
    else [0xF0 + v / 0x4_0000, 0x80 + v / 0x1000 % 0x40, 0x80 + v / 0x40 % 0x40, 0x80 + v % 0x40]
  }

  function Encode(s: string): (b: seq<byte>)
    ensures |b| >= |s|
  {
    if s == [] then [] else EncodeChar(s[0]) + Encode(s[1..])
  }

  function CharLength(lead: byte): (n: nat)
    ensures 1 <= n <= 4
  {
    if lead < 0xC0 then 1 else if lead < 0xE0 then 2 else if lead < 0xF0 then 3 else 4
  }

  function CharValue(b: seq<byte>): int
    requires b != [] && CharLength(b[0]) <= |b|
  {
    var n := CharLength(b[0]);
    var lead: int := b[0];
    if n == 1 then lead
    else if n == 2 then (lead - 0xC0) * 0x40 + Low(b, 1)
    else if n == 3 then (lead - 0xE0) * 0x1000 + Low(b, 1) * 0x40 + Low(b, 2)
    else (lead - 0xF0) * 0x4_0000 + Low(b, 1) * 0x1000 + Low(b, 2) * 0x40 + Low(b, 3)
  }

  /** The payload of a continuation byte. */
  function Low(b: seq<byte>, i: nat): int
    requires i < |b|
  {
    b[i] as int - 0x80
  }

  predicate IsScalar(v: int) {
    0 <= v < 0xD800 || 0xE000 <= v < 0x11_0000
  }

  /** Reads a string back from its own encoding; other bytes give some string. */
  function Decode(b: seq<byte>): string {
    if b == [] then ""
    else
      var n := CharLength(b[0]);
      if |b| < n then ['\U{FFFD}']
      else
        var v := CharValue(b);
        [if IsScalar(v) then v as char else '\U{FFFD}'] + Decode(b[n..])
  }

  lemma CharRoundTrip(c: char, rest: seq<byte>)
    ensures var b := EncodeChar(c) + rest;
      && CharLength(b[0]) == |EncodeChar(c)|
      && CharValue(b) == c as int
      && b[|EncodeChar(c)|..] == rest
  {
    var v := c as int;
    assert v / 0x40 / 0x40 == v / 0x1000;
    assert v / 0x1000 / 0x40 == v / 0x4_0000;
  }

  /** ASCII text is written as it is, one byte a character. */
  lemma {:induction false} AsciiBytes(s: string)
    requires forall i :: 0 <= i < |s| ==> s[i] as int < 128
    ensures |Encode(s)| == |s| && forall i :: 0 <= i < |s| ==> Encode(s)[i] == s[i] as int
  {
    if s != [] {
      AsciiBytes(s[1..]);
    }
  }

  lemma {:induction false} RoundTrip(s: string)
    ensures Decode(Encode(s)) == s
  {
    if s != [] {
      CharRoundTrip(s[0], Encode(s[1..]));
      assert IsScalar(s[0] as int);
      RoundTrip(s[1..]);
      assert s == [s[0]] + s[1..];
    }
  }
}
