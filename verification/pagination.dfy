/**
  The mock service's paging parameters: the `limit` query bound and the opaque cursor, a
  base64url token (padding stripped) over the compact JSON `{"created_at": ..., "id": ...}`.
*/
module Pagination {
  import opened Wrappers
  import opened Strings
  import opened Utf8
  import opened Json
  import JsonText
  import Base64

  const DefaultLimit: nat := 50
  const MaxLimit: nat := 200

  const LimitNotInteger := "limit must be an integer"
  const LimitOutOfRange := "limit must be between 1 and 200"
  const CursorBlank := "cursor must be a non-empty string"
  const CursorInvalid := "cursor is invalid"

  /** The position a page ends at: the last row's creation time and id. */
  datatype Cursor = Cursor(createdAt: string, id: string)

  // ----- int() -----

  /** Decimal digits, with single underscores allowed between two digits (Python's `int` literal grouping). */
  predicate Grouped(s: string) {
    && |s| > 0 && IsDigit(s[0]) && IsDigit(s[|s| - 1])
    && (forall i :: 0 <= i < |s| ==> IsDigit(s[i]) || s[i] == '_')
    && (forall i :: 0 <= i < |s| - 1 ==> s[i] == '_' ==> s[i + 1] != '_')
  }

  /** The digits of `s` with every underscore dropped. */
  function Ungroup(s: string): (r: string)
    ensures |r| <= |s|
    ensures (forall i :: 0 <= i < |s| ==> IsDigit(s[i]) || s[i] == '_') ==>
              forall i :: 0 <= i < |r| ==> IsDigit(r[i])
    ensures (forall i :: 0 <= i < |s| ==> s[i] != '_') ==> r == s
  {
    if |s| == 0 then ""
    else if s[0] == '_' then Ungroup(s[1..])
    else [s[0]] + Ungroup(s[1..])
  }

  /** The value of an unsigned digit group, `None` when it is not one. */
  function ParseDigits(s: string): (r: Option<nat>)
    ensures r.Some? <==> Grouped(s)
  {
    if Grouped(s) then Some(DigitsValue(Ungroup(s))) else None
  }

  /**
    Python's `int(s)` for a string in base 10: surrounding whitespace is ignored, one sign is
    allowed before the digits, and `None` stands for the `ValueError`.
  */
  function ParseInt(s: string): (r: Option<int>)
    ensures var t := Trim(s);
      r.Some? <==> Grouped(t) || (|t| > 0 && (t[0] == '+' || t[0] == '-') && Grouped(t[1..]))
    ensures IsAllDigits(Trim(s)) ==> r == Some(DigitsValue(Trim(s)))
  {
    ParseSigned(Trim(s))
  }

  /** An optional sign followed by a digit group. */
  function ParseSigned(t: string): (r: Option<int>)
    ensures r.Some? ==> |t| > 0
  {
    if |t| > 0 && (t[0] == '+' || t[0] == '-') then
      match ParseDigits(t[1..])
      case None => None
      case Some(n) => var v: int := n; Some(if t[0] == '-' then -v else v)
    else
      match ParseDigits(t)
      case None => None
      case Some(n) => Some(n)
  }

  /** A printed natural number is a digit group with nothing to drop and no whitespace at its ends. */
  lemma PrintedGrouped(n: nat)
    ensures var d := NatToString(n);
      && Grouped(d) && Ungroup(d) == d && DigitsValue(d) == n
      && !IsSpace(d[0]) && !IsSpace(d[|d| - 1]) && d[0] != '+' && d[0] != '-'
  {
    var d := NatToString(n);
    NatToStringValue(n);
    forall k | 0 <= k < |d| ensures d[k] != '_' { assert IsDigit(d[k]); }
    assert IsDigit(d[0]) && IsDigit(d[|d| - 1]);
  }

  lemma SignedOfString(i: int)
    ensures ParseSigned(IntToString(i)) == Some(i)
  {
    var n: nat := if i < 0 then -i else i;
    PrintedGrouped(n);
    if i < 0 {
      assert IntToString(i)[1..] == NatToString(n);
    }
  }

  /** `str(i)` reads back through `int()`. */
  lemma ParseIntOfString(i: int)
    ensures ParseInt(IntToString(i)) == Some(i)
  {
    var n: nat := if i < 0 then -i else i;
    PrintedGrouped(n);
    TrimOfTrimmed(IntToString(i));
    SignedOfString(i);
  }

  /** `int()` ignores the whitespace around its argument. */
  lemma ParseIntIgnoresPadding(pre: string, s: string, post: string)
    requires forall i :: 0 <= i < |pre| ==> IsSpace(pre[i])
    requires forall i :: 0 <= i < |post| ==> IsSpace(post[i])
    ensures ParseInt(pre + s + post) == ParseInt(s)
  {
    TrimIgnoresPadding(pre, s, post);
  }

  // ----- limit -----

  /**
    The `limit` query parameter: absent is `None`; otherwise `int()` of it, which must lie
    between 1 and `MaxLimit`.
  */
  function ParseLimit(raw: Option<string>): (r: Result<Option<int>>)
    ensures raw.None? ==> r == Success(None)
    ensures raw.Some? && ParseInt(raw.value).None? ==> r == Failure(LimitNotInteger)
    ensures raw.Some? && ParseInt(raw.value).Some? ==>
      var v := ParseInt(raw.value).value;
      && (r.Success? <==> 1 <= v <= MaxLimit)
      && (r.Success? ==> r.value == Some(v))
      && (r.Failure? ==> r.error == LimitOutOfRange)
    ensures r.Success? && r.value.Some? ==> 1 <= r.value.value <= MaxLimit
  {
    match raw
    case None => Success(None)
    case Some(s) =>
      match ParseInt(s)
      case None => Failure(LimitNotInteger)
      case Some(v) =>
        if v < 1 || v > MaxLimit then Failure(LimitOutOfRange) else Success(Some(v))
  }

  /** A printed integer is accepted as a limit exactly when it lies in 1..200, and read as itself. */
  lemma LimitOfPrinted(n: int)
    ensures var r := ParseLimit(Some(IntToString(n)));
      && (r.Success? <==> 1 <= n <= MaxLimit)
      && (r.Success? ==> r.value == Some(n))
      && (r.Failure? ==> r.error == LimitOutOfRange)
  {
    ParseIntOfString(n);
  }

  // ----- cursor -----

  /** `json.dumps({"created_at": ..., "id": ...}, separators=(",", ":"))` */
  function CursorJson(c: Cursor): (s: string)
    ensures IsAscii(s) && |s| > 0
  {
    "{\"created_at\":" + JsonText.Quote(c.createdAt) + ",\"id\":" + JsonText.Quote(c.id) + "}"
  }

  /** `encode_cursor`: the base64url text of the JSON's UTF-8 bytes, trailing '=' removed. */
  function EncodeCursor(c: Cursor): (token: string)
    ensures |token| >= 2 && IsAscii(token)
    ensures forall i :: 0 <= i < |token| ==> token[i] != '=' && !IsSpace(token[i])
  {
    var bs := Utf8.Encode(CursorJson(c));
    EncodeNonEmpty(bs);
    Base64.EncodePadding(bs);
    Base64.StrippedLength(bs);
    Base64.StrippedShape(bs);
    Base64.StripPadding(Base64.Encode(bs))
  }

  lemma EncodeNonEmpty(bs: seq<Byte>)
    requires |bs| > 0
    ensures |Base64.Encode(bs)| >= 4
  {
  }

  /**
    `decode_cursor`, with `json.loads` as the parameter `loads` (`None` for a `JSONDecodeError`):
    strip; refuse blank; re-pad to a multiple of four; decode base64url, then UTF-8, then JSON;
    require an object whose `created_at` and `id` are non-empty strings.
  */
  function DecodeCursor(loads: string -> Option<Value>, raw: string): (r: Result<Cursor>)
    ensures Trim(raw) == [] <==> r == Failure(CursorBlank)
    ensures r.Failure? ==> r.error == CursorBlank || r.error == CursorInvalid
    ensures r.Success? ==> r.value.createdAt != [] && r.value.id != []
  {
    var t := Trim(raw);
    if t == [] then Failure(CursorBlank) else DecodeToken(loads, t)
  }

  /** The decoding steps after the blank check; every failure is the same "invalid" error. */
  function DecodeToken(loads: string -> Option<Value>, t: string): (r: Result<Cursor>)
    ensures r.Failure? ==> r.error == CursorInvalid
    ensures r.Success? ==> r.value.createdAt != [] && r.value.id != []
  {
    var padded := Base64.Repad(t);
    if !IsAscii(padded) then Failure(CursorInvalid)
    else match Base64.Decode(padded)
      case Failure(_) => Failure(CursorInvalid)
      case Success(bytes) =>
        match Utf8.Decode(bytes)
        case None => Failure(CursorInvalid)
        case Some(text) => FromJson(loads(text))
  }

  /** The cursor a decoded JSON value stands for. */
  function FromJson(v: Option<Value>): (r: Result<Cursor>)
    ensures r.Success? <==> (v.Some? && v.value.Object?
                             && Get(v.value.fields, "created_at").Str? && Get(v.value.fields, "created_at").s != []
                             && Get(v.value.fields, "id").Str? && Get(v.value.fields, "id").s != [])
    ensures r.Success? ==> r.value == Cursor(Get(v.value.fields, "created_at").s, Get(v.value.fields, "id").s)
    ensures r.Failure? ==> r.error == CursorInvalid
  {
    match v
    case Some(Object(m)) =>
      var createdAt := Get(m, "created_at");
      var id := Get(m, "id");
      if !createdAt.Str? || createdAt.s == [] then Failure(CursorInvalid)
      else if !id.Str? || id.s == [] then Failure(CursorInvalid)
      else Success(Cursor(createdAt.s, id.s))
    case _ => Failure(CursorInvalid)
  }

  /** The JSON value `CursorJson` writes. */
  function CursorObject(c: Cursor): Value {
    Object(map["created_at" := Str(c.createdAt), "id" := Str(c.id)])
  }

  /** `loads` reads every text `CursorJson` writes back as the object it was written from. */
  ghost predicate ReadsCursorJson(loads: string -> Option<Value>) {
    forall c: Cursor {:trigger CursorJson(c)} :: loads(CursorJson(c)) == Some(CursorObject(c))
  }

  /** Re-padding the token gives the full base64url text, which is ASCII. */
  lemma RepadToken(c: Cursor)
    ensures var bs := Utf8.Encode(CursorJson(c));
      && Base64.Repad(EncodeCursor(c)) == Base64.Encode(bs)
      && IsAscii(Base64.Encode(bs))
  {
    var bs := Utf8.Encode(CursorJson(c));
    Base64.RepadStripped(bs);
    Base64.EncodePadding(bs);
  }

  /** The token decodes to the JSON text it was made from. */
  lemma TokenText(c: Cursor)
    ensures var padded := Base64.Repad(EncodeCursor(c));
      && IsAscii(padded)
      && Base64.Decode(padded) == Success(Utf8.Encode(CursorJson(c)))
      && Utf8.Decode(Utf8.Encode(CursorJson(c))) == Some(CursorJson(c))
  {
    RepadToken(c);
    Base64.DecodeEncode(Utf8.Encode(CursorJson(c)));
    Utf8.DecodeEncode(CursorJson(c));
  }

  /** The token's decoding steps end in the JSON value the cursor was written from. */
  lemma DecodeTokenOf(loads: string -> Option<Value>, c: Cursor)
    requires ReadsCursorJson(loads)
    ensures DecodeToken(loads, EncodeCursor(c)) == FromJson(Some(CursorObject(c)))
  {
    TokenText(c);
    assert loads(CursorJson(c)) == Some(CursorObject(c));
  }

  /**
    Round trip: a token decodes back to its cursor exactly when both fields are non-empty;
    otherwise it is refused as invalid.
  */
  lemma DecodeEncodeCursor(loads: string -> Option<Value>, c: Cursor)
    requires ReadsCursorJson(loads)
    ensures c.createdAt != [] && c.id != [] ==> DecodeCursor(loads, EncodeCursor(c)) == Success(c)
    ensures !(c.createdAt != [] && c.id != []) ==> DecodeCursor(loads, EncodeCursor(c)) == Failure(CursorInvalid)
  {
    var token := EncodeCursor(c);
    TrimOfTrimmed(token);
    DecodeTokenOf(loads, c);
    var m := CursorObject(c).fields;
    assert Get(m, "created_at") == Str(c.createdAt) && Get(m, "id") == Str(c.id);
  }

  /** Whitespace around a token does not change what it decodes to. */
  lemma DecodeIgnoresPadding(loads: string -> Option<Value>, pre: string, raw: string, post: string)
    requires forall i :: 0 <= i < |pre| ==> IsSpace(pre[i])
    requires forall i :: 0 <= i < |post| ==> IsSpace(post[i])
    ensures DecodeCursor(loads, pre + raw + post) == DecodeCursor(loads, raw)
  {
    TrimIgnoresPadding(pre, raw, post);
  }

  /** A token given back with its '=' padding restored decodes the same as without it. */
  lemma DecodePaddedToken(loads: string -> Option<Value>, c: Cursor)
    ensures DecodeCursor(loads, Base64.Encode(Utf8.Encode(CursorJson(c)))) == DecodeCursor(loads, EncodeCursor(c))
  {
    var bs := Utf8.Encode(CursorJson(c));
    var full := Base64.Encode(bs);
    var token := EncodeCursor(c);
    RepadToken(c);
    TrimOfTrimmed(token);
    FullTrimmed(bs);
    Base64.RepadAligned(full);
    assert DecodeToken(loads, full) == DecodeToken(loads, token);
  }

  /** A non-empty encoding, padding included, has no whitespace at its ends. */
  lemma FullTrimmed(bs: seq<Byte>)
    requires |bs| > 0
    ensures Trim(Base64.Encode(bs)) == Base64.Encode(bs) && Base64.Encode(bs) != []
  {
    var full := Base64.Encode(bs);
    Base64.EncodePadding(bs);
    EncodeNonEmpty(bs);
    assert !IsSpace(full[0]);
    assert !IsSpace(full[|full| - 1]) by {
      if full[|full| - 1] != '=' { }
    }
    TrimOfTrimmed(full);
  }
}
