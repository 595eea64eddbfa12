/**
  Bytes, and Python's strict UTF-8 codec (`str.encode("utf-8")`, `bytes.decode("utf-8")`).
  Characters are Unicode scalar values, so every string encodes; decoding refuses overlong
  forms, surrogates, values above U+10FFFF and truncated sequences.
*/
module Utf8 {
  import opened Wrappers

  type Byte = b: int | 0 <= b < 256

  predicate IsAscii(s: string) {
    forall i :: 0 <= i < |s| ==> s[i] as int < 128
  }

  predicate IsContinuation(b: Byte) {
    0x80 <= b < 0xC0
  }

  /** The bytes of one character. */
  function EncodeChar(c: char): (bs: seq<Byte>)
    ensures 1 <= |bs| <= 4
    ensures (c as int < 128) <==> |bs| == 1
  {
    var n := c as int;
    if n < 0x80 then [n]
    else if n < 0x800 then [0xC0 + n / 64, 0x80 + n % 64]
    else if n < 0x10000 then [0xE0 + n / 4096, 0x80 + (n / 64) % 64, 0x80 + n % 64]
    else [0xF0 + n / 262144, 0x80 + (n / 4096) % 64, 0x80 + (n / 64) % 64, 0x80 + n % 64]
  }

  /** `s.encode("utf-8")` */
  function Encode(s: string): (bs: seq<Byte>)
    ensures |bs| >= |s|
  {
    if |s| == 0 then [] else EncodeChar(s[0]) + Encode(s[1..])
  }

  /**
    The first character of `bs` and how many bytes it took, under the well-formed byte
    sequences of table 3-7 of the Unicode standard; `None` when `bs` does not start with one.
  */
  function DecodeFirst(bs: seq<Byte>): (r: Option<(char, nat)>)
    ensures r.Some? ==> 1 <= r.value.1 <= |bs| && r.value.1 <= 4
  {
    if |bs| == 0 then None
    else
      var b0 := bs[0] as int;
      if b0 < 0x80 then Some((b0 as char, 1))
      else if 0xC2 <= b0 <= 0xDF then
        if |bs| >= 2 && IsContinuation(bs[1]) then
          Some((((b0 - 0xC0) * 64 + (bs[1] as int - 0x80)) as char, 2))
        else None
      else if 0xE0 <= b0 <= 0xEF then
        var lo := if b0 == 0xE0 then 0xA0 else 0x80;
        var hi := if b0 == 0xED then 0xA0 else 0xC0;
        if |bs| >= 3 && lo <= bs[1] < hi && IsContinuation(bs[2]) then
          Some((((b0 - 0xE0) * 4096 + (bs[1] as int - 0x80) * 64 + (bs[2] as int - 0x80)) as char, 3))
        else None
      else if 0xF0 <= b0 <= 0xF4 then
        var lo := if b0 == 0xF0 then 0x90 else 0x80;
        var hi := if b0 == 0xF4 then 0x90 else 0xC0;
        if |bs| >= 4 && lo <= bs[1] < hi && IsContinuation(bs[2]) && IsContinuation(bs[3]) then
          Some((((b0 - 0xF0) * 262144 + (bs[1] as int - 0x80) * 4096 + (bs[2] as int - 0x80) * 64 + (bs[3] as int - 0x80)) as char, 4))
        else None
      else None
  }

  /** `bs.decode("utf-8")`: `None` stands for the `UnicodeDecodeError`. */
  function Decode(bs: seq<Byte>): Option<string>
    decreases |bs|
  {
    if |bs| == 0 then Some("")
    else match DecodeFirst(bs)
      case None => None
      case Some((c, k)) =>
        match Decode(bs[k..])
        case None => None
        case Some(rest) => Some([c] + rest)
  }

  /** Each character's bytes decode back to it, whatever follows. */
  lemma DecodeFirstEncodeChar(c: char, rest: seq<Byte>)
    ensures DecodeFirst(EncodeChar(c) + rest) == Some((c, |EncodeChar(c)|))
  {
    var n := c as int;
    var bs := EncodeChar(c) + rest;
    if n < 0x80 {
    } else if n < 0x800 {
      TwoBytes(n);
    } else if n < 0x10000 {
      ThreeBytes(n);
      assert n < 0xD800 || n >= 0xE000;
    } else {
      FourBytes(n);
    }
  }

  lemma TwoBytes(n: int)
    requires 0x80 <= n < 0x800
    ensures 0xC2 <= 0xC0 + n / 64 <= 0xDF && (n / 64) * 64 + n % 64 == n
  {
  }

  lemma ThreeBytes(n: int)
    requires 0x800 <= n < 0x10000
    ensures var b0 := 0xE0 + n / 4096; var b1 := 0x80 + (n / 64) % 64;
      && 0xE0 <= b0 <= 0xEF
      && (b0 == 0xE0 ==> b1 >= 0xA0)
      && (b0 == 0xED ==> (b1 < 0xA0 <==> n < 0xD800))
      && (n / 4096) * 4096 + ((n / 64) % 64) * 64 + n % 64 == n
  {
  }

  lemma FourBytes(n: int)
    requires 0x10000 <= n < 0x110000
    ensures var b0 := 0xF0 + n / 262144; var b1 := 0x80 + (n / 4096) % 64;
      && 0xF0 <= b0 <= 0xF4
      && (b0 == 0xF0 ==> b1 >= 0x90)
      && (b0 == 0xF4 ==> b1 < 0x90)
      && (n / 262144) * 262144 + ((n / 4096) % 64) * 4096 + ((n / 64) % 64) * 64 + n % 64 == n
  {
  }

  /** Decoding inverts encoding. */
  lemma {:induction false} DecodeEncode(s: string)
    ensures Decode(Encode(s)) == Some(s)
  {
    if |s| > 0 {
      var head := EncodeChar(s[0]);
      var bs := Encode(s);
      DecodeFirstEncodeChar(s[0], Encode(s[1..]));
      assert bs[|head|..] == Encode(s[1..]);
      DecodeEncode(s[1..]);
      assert [s[0]] + s[1..] == s;
    }
  }

  /** An ASCII string encodes one byte per character, each the character's code. */
  lemma {:induction false} EncodeAscii(s: string)
    requires IsAscii(s)
    ensures var bs := Encode(s);
      |bs| == |s| && forall i :: 0 <= i < |s| ==> bs[i] == s[i] as int
  {
    if |s| > 0 {
      EncodeAscii(s[1..]);
      var bs := Encode(s);
      assert bs == [s[0] as int] + Encode(s[1..]);
      forall i | 1 <= i < |s| ensures bs[i] == s[i] as int {
        assert s[1..][i - 1] == s[i];
      }
    }
  }

  /** A byte of 0x80 or more never starts the encoding of an ASCII character. */
  lemma NonAsciiEncoding(c: char)
    requires c as int >= 128
    ensures EncodeChar(c)[0] >= 0xC0
  {
  }
}
