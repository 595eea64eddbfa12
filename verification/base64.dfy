/**
  The URL-safe base64 alphabet of section 5 of RFC 4648, as Python's `base64` module uses it:
  `urlsafe_b64encode` (padded output) and `urlsafe_b64decode`, which maps '-' and '_' back to
  '+' and '/' and then runs the lenient decoder of `binascii.a2b_base64`.
*/
module Base64 {
  import opened Wrappers
  import opened Strings
  import opened Utf8

  /** The character of a six-bit value: A-Z, a-z, 0-9, then '-' and '_'. */
  function CharOf(v: nat): (c: char)
    requires v < 64
    ensures c != '=' && !IsSpace(c) && c as int < 128
  {
    if v < 26 then ('A' as int + v) as char
    else if v < 52 then ('a' as int + v - 26) as char
    else if v < 62 then ('0' as int + v - 52) as char
    else if v == 62 then '-'
    else '_'
  }

  /** The decoder's table: the URL-safe alphabet plus the standard '+' and '/'; `None` for any other character. */
  function ValueOf(c: char): (r: Option<nat>)
    ensures r.Some? ==> r.value < 64
  {
    if 'A' <= c <= 'Z' then Some(c as int - 'A' as int)
    else if 'a' <= c <= 'z' then Some(c as int - 'a' as int + 26)
    else if '0' <= c <= '9' then Some(c as int - '0' as int + 52)
    else if c == '-' || c == '+' then Some(62)
    else if c == '_' || c == '/' then Some(63)
    else None
  }

  lemma ValueOfCharOf(v: nat)
    requires v < 64
    ensures ValueOf(CharOf(v)) == Some(v)
  {
  }

  /** The four characters of three bytes: their 24 bits, six at a time. */
  function Group3(a: Byte, b: Byte, c: Byte): (s: string)
    ensures |s| == 4
  {
    [CharOf(a / 4), CharOf((a % 4) * 16 + b / 16), CharOf((b % 16) * 4 + c / 64), CharOf(c % 64)]
  }

  /** `urlsafe_b64encode(bs)`: four characters per three bytes, the last group padded with '='. */
  function Encode(bs: seq<Byte>): (s: string)
    ensures |s| % 4 == 0
    decreases |bs|
  {
    if |bs| == 0 then ""
    else if |bs| == 1 then [CharOf(bs[0] / 4), CharOf((bs[0] % 4) * 16)] + "=="
    else if |bs| == 2 then [CharOf(bs[0] / 4), CharOf((bs[0] % 4) * 16 + bs[1] / 16), CharOf((bs[1] % 16) * 4)] + "="
    else Group3(bs[0], bs[1], bs[2]) + Encode(bs[3..])
  }

  /** The padding `Encode` adds: none, two or one '='. */
  function PadCount(n: nat): nat {
    if n % 3 == 0 then 0 else if n % 3 == 1 then 2 else 1
  }

  /** The decoder's state between characters: position in the quad, pending bits, and '=' seen. */
  datatype Quad = Quad(pos: nat, left: nat, pads: nat)

  predicate ValidQuad(q: Quad) {
    q.pos < 4 && q.left < 64
  }

  /** The lenient decoder, character by character, emitting into `out`. */
  function Run(s: string, q: Quad, out: seq<Byte>): (r: Result<seq<Byte>>)
    requires ValidQuad(q)
    decreases |s|
  {
    if |s| == 0 then
      if q.pos == 0 then Success(out)
      else if q.pos == 1 then
        Failure("Invalid base64-encoded string: number of data characters ("
                + NatToString(|out| / 3 * 4 + 1) + ") cannot be 1 more than a multiple of 4")
      else Failure("Incorrect padding")
    else if s[0] == '=' then
      // A '=' completing a quad ends decoding; any other '=' is skipped.
      if q.pos >= 2 && q.pos + q.pads + 1 >= 4 then Success(out)
      else Run(s[1..], q.(pads := if q.pos >= 2 then q.pads + 1 else q.pads), out)
    else match ValueOf(s[0])
      case None => Run(s[1..], q, out)
      case Some(v) =>
        if q.pos == 0 then Run(s[1..], Quad(1, v, 0), out)
        else if q.pos == 1 then Run(s[1..], Quad(2, v % 16, 0), out + [q.left * 4 + v / 16])
        else if q.pos == 2 then
          assert q.left < 16 ==> q.left * 16 + v / 4 < 256;
          if q.left < 16 then Run(s[1..], Quad(3, v % 4, 0), out + [q.left * 16 + v / 4])
          else Failure("unreachable")
        else if q.left < 4 then Run(s[1..], Quad(0, 0, 0), out + [q.left * 64 + v])
        else Failure("unreachable")
  }

  /** `urlsafe_b64decode(s)` for an ASCII string: the bytes, or the `binascii.Error` message. */
  function Decode(s: string): Result<seq<Byte>> {
    Run(s, Quad(0, 0, 0), [])
  }

  // ----- Round trip -----

  /** One data character at the start of a quad. */
  lemma RunFirst(s: string, out: seq<Byte>, v: nat)
    requires |s| > 0 && v < 64 && s[0] == CharOf(v)
    ensures Run(s, Quad(0, 0, 0), out) == Run(s[1..], Quad(1, v, 0), out)
  {
    ValueOfCharOf(v);
  }

  /** The second data character of a quad completes the first byte. */
  lemma RunSecond(s: string, left: nat, out: seq<Byte>, v: nat)
    requires |s| > 0 && left < 64 && v < 64 && s[0] == CharOf(v)
    ensures Run(s, Quad(1, left, 0), out) == Run(s[1..], Quad(2, v % 16, 0), out + [left * 4 + v / 16])
  {
    ValueOfCharOf(v);
  }

  /** The third data character completes the second byte. */
  lemma RunThird(s: string, left: nat, out: seq<Byte>, v: nat)
    requires |s| > 0 && left < 16 && v < 64 && s[0] == CharOf(v)
    ensures Run(s, Quad(2, left, 0), out) == Run(s[1..], Quad(3, v % 4, 0), out + [left * 16 + v / 4])
  {
    ValueOfCharOf(v);
  }

  /** The fourth data character completes the third byte and the quad. */
  lemma RunFourth(s: string, left: nat, out: seq<Byte>, v: nat)
    requires |s| > 0 && left < 4 && v < 64 && s[0] == CharOf(v)
    ensures Run(s, Quad(3, left, 0), out) == Run(s[1..], Quad(0, 0, 0), out + [left * 64 + v])
  {
    ValueOfCharOf(v);
  }

  /** The bytes the decoder rebuilds from the six-bit pieces of `Group3`. */
  lemma Pieces(a: Byte, b: Byte, c: Byte)
    ensures var v1 := (a % 4) * 16 + b / 16; var v2 := (b % 16) * 4 + c / 64;
      && (a / 4) * 4 + v1 / 16 == a && v1 % 16 == b / 16
      && (b / 16) * 16 + v2 / 4 == b && v2 % 4 == c / 64
      && (c / 64) * 64 + c % 64 == c
  {
  }

  /** Three bytes in, three bytes out, back at the start of a quad. */
  lemma RunGroup3(a: Byte, b: Byte, c: Byte, rest: string, out: seq<Byte>)
    ensures Run(Group3(a, b, c) + rest, Quad(0, 0, 0), out) == Run(rest, Quad(0, 0, 0), out + [a, b, c])
  {
    var v1 := (a % 4) * 16 + b / 16;
    var v2 := (b % 16) * 4 + c / 64;
    Pieces(a, b, c);
    var s := Group3(a, b, c) + rest;
    var t1 := s[1..];
    var t2 := t1[1..];
    var t3 := t2[1..];
    assert t3[1..] == rest;
    RunFirst(s, out, a / 4);
    RunSecond(t1, a / 4, out, v1);
    RunThird(t2, b / 16, out + [a], v2);
    RunFourth(t3, c / 64, out + [a] + [b], c % 64);
    assert out + [a] + [b] + [c] == out + [a, b, c];
  }

  lemma RunTail1(a: Byte, out: seq<Byte>)
    ensures Run([CharOf(a / 4), CharOf((a % 4) * 16)] + "==", Quad(0, 0, 0), out) == Success(out + [a])
  {
    var s := [CharOf(a / 4), CharOf((a % 4) * 16)] + "==";
    RunFirst(s, out, a / 4);
    RunSecond(s[1..], a / 4, out, (a % 4) * 16);
    assert s[1..][1..] == "==";
    assert Run("==", Quad(2, 0, 0), out + [a]) == Run("=", Quad(2, 0, 1), out + [a]);
  }

  lemma RunTail2(a: Byte, b: Byte, out: seq<Byte>)
    ensures Run([CharOf(a / 4), CharOf((a % 4) * 16 + b / 16), CharOf((b % 16) * 4)] + "=", Quad(0, 0, 0), out)
      == Success(out + [a, b])
  {
    var v1 := (a % 4) * 16 + b / 16;
    Pieces(a, b, 0);
    var s := [CharOf(a / 4), CharOf(v1), CharOf((b % 16) * 4)] + "=";
    var t1 := s[1..];
    var t2 := t1[1..];
    assert t2[1..] == "=";
    RunFirst(s, out, a / 4);
    RunSecond(t1, a / 4, out, v1);
    RunThird(t2, b / 16, out + [a], (b % 16) * 4);
    assert out + [a] + [b] == out + [a, b];
  }

  lemma SplitHead3<T>(out: seq<T>, bs: seq<T>)
    requires |bs| >= 3
    ensures out + [bs[0], bs[1], bs[2]] + bs[3..] == out + bs
  {
    assert [bs[0], bs[1], bs[2]] + bs[3..] == bs;
  }

  /** Decoding continues an encoding from wherever the output stands. */
  lemma {:induction false} RunEncode(bs: seq<Byte>, out: seq<Byte>)
    ensures Run(Encode(bs), Quad(0, 0, 0), out) == Success(out + bs)
    decreases |bs|
  {
    if |bs| == 0 {
      assert out + bs == out;
    } else if |bs| == 1 {
      RunTail1(bs[0], out);
      assert [bs[0]] == bs;
    } else if |bs| == 2 {
      RunTail2(bs[0], bs[1], out);
      assert [bs[0], bs[1]] == bs;
    } else {
      RunGroup3(bs[0], bs[1], bs[2], Encode(bs[3..]), out);
      RunEncode(bs[3..], out + [bs[0], bs[1], bs[2]]);
      SplitHead3(out, bs);
    }
  }

  /** `urlsafe_b64decode(urlsafe_b64encode(bs)) == bs` */
  lemma DecodeEncode(bs: seq<Byte>)
    ensures Decode(Encode(bs)) == Success(bs)
  {
    RunEncode(bs, []);
    assert [] + bs == bs;
  }

  // ----- Padding -----

  /** The encoding ends in exactly `PadCount(|bs|)` '=' characters, after a data character. */
  lemma {:induction false} EncodePadding(bs: seq<Byte>)
    ensures var s := Encode(bs); var p := PadCount(|bs|);
      && p <= |s|
      && (forall i :: |s| - p <= i < |s| ==> s[i] == '=')
      && (forall i :: 0 <= i < |s| - p ==> s[i] != '=' && !IsSpace(s[i]) && s[i] as int < 128)
    decreases |bs|
  {
    if |bs| >= 3 {
      EncodePadding(bs[3..]);
      var s := Encode(bs);
      var t := Encode(bs[3..]);
      assert s == Group3(bs[0], bs[1], bs[2]) + t;
      assert PadCount(|bs|) == PadCount(|bs| - 3);
      forall i | 4 <= i < |s| ensures s[i] == t[i - 4] {}
    }
  }

  /** Python's `s.rstrip("=")` */
  function StripPadding(s: string): (r: string)
    ensures |r| <= |s| && r == s[..|r|]
    ensures r == [] || r[|r| - 1] != '='
    ensures forall i :: |r| <= i < |s| ==> s[i] == '='
  {
    if |s| > 0 && s[|s| - 1] == '=' then StripPadding(s[..|s| - 1]) else s
  }

  /** Enough '=' to reach a multiple of four: `(4 - len % 4) % 4` of them. */
  function Repad(s: string): (r: string)
    ensures |r| % 4 == 0
  {
    var k := (4 - |s| % 4) % 4;
    PadReaches(|s|);
    s + seq(k, _ => '=')
  }

  lemma PadReaches(n: nat)
    ensures (n + (4 - n % 4) % 4) % 4 == 0
  {
    var q := n / 4;
    assert n == 4 * q + n % 4;
  }

  /** Text already a multiple of four long gets no padding. */
  lemma RepadAligned(s: string)
    requires |s| % 4 == 0
    ensures Repad(s) == s
  {
    assert (4 - |s| % 4) % 4 == 0;
    assert seq(0, _ => '=') == [];
  }

  /** `rstrip("=")` removes exactly the trailing run of '='. */
  lemma {:induction false} StripPaddingLength(s: string, k: nat)
    requires k <= |s| && (forall i :: |s| - k <= i < |s| ==> s[i] == '=')
    requires k == |s| || s[|s| - k - 1] != '='
    ensures |StripPadding(s)| == |s| - k
    decreases k
  {
    if k > 0 {
      var t := s[..|s| - 1];
      assert s[|s| - 1] == '=';
      StripPaddingLength(t, k - 1);
    }
  }

  /** Stripping an encoding leaves exactly its data characters. */
  lemma StrippedLength(bs: seq<Byte>)
    ensures |StripPadding(Encode(bs))| == |Encode(bs)| - PadCount(|bs|)
  {
    var s := Encode(bs);
    var p := PadCount(|bs|);
    EncodePadding(bs);
    assert p == |s| || s[|s| - p - 1] != '=';
    StripPaddingLength(s, p);
  }

  lemma RepadCount(n: nat, p: nat)
    requires n % 4 == 0 && p <= 2 && p <= n
    ensures (4 - (n - p) % 4) % 4 == p
  {
  }

  /** Stripping the padding and padding again gives the encoding back. */
  lemma RepadStripped(bs: seq<Byte>)
    ensures Repad(StripPadding(Encode(bs))) == Encode(bs)
  {
    var s := Encode(bs);
    var p := PadCount(|bs|);
    EncodePadding(bs);
    StrippedLength(bs);
    var r := StripPadding(s);
    RepadCount(|s|, p);
    var t := r + seq(p, _ => '=');
    assert |t| == |s|;
    forall i | 0 <= i < |s| ensures t[i] == s[i] {
      if i >= |r| {
        assert t[i] == '=';
      }
    }
  }

  /** The stripped encoding has no '=' and no whitespace, and is ASCII. */
  lemma StrippedShape(bs: seq<Byte>)
    ensures var r := StripPadding(Encode(bs));
      forall i :: 0 <= i < |r| ==> r[i] != '=' && !IsSpace(r[i]) && r[i] as int < 128
  {
    EncodePadding(bs);
    StrippedLength(bs);
  }
}
