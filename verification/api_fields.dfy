/**
  The mock service's request-field validators: required and optional strings, the three
  enumerations (item type, role, principal type), sheet cells, and comma-separated header
  tokens with the `If-None-Match` test built on them.
*/
module ApiFields {
  import opened Wrappers
  import opened Strings
  import opened Json

  // ----- strings -----

  /** `_require_str`: a string that is not blank, returned trimmed; otherwise "{key} is required". */
  function RequireStr(data: map<string, Value>, key: string): (r: Result<string>)
    ensures r.Success? <==> key in data && data[key].Str? && Trim(data[key].s) != []
    ensures r.Success? ==> r.value == Trim(data[key].s) && Trim(r.value) == r.value
    ensures r.Failure? ==> r.error == key + " is required"
  {
    var v := Get(data, key);
    if !v.Str? || Trim(v.s) == [] then Failure(key + " is required")
    else
      TrimIdempotent(v.s);
      Success(Trim(v.s))
  }

  /** `_optional_str`: absent or null is `None`; a string is kept as given (not trimmed). */
  function OptionalStr(data: map<string, Value>, key: string): (r: Result<Option<string>>)
    ensures r.Success? <==> Get(data, key).Null? || Get(data, key).Str?
    ensures r.Success? && r.value.Some? ==> key in data && data[key] == Str(r.value.value)
    ensures r.Success? && r.value.None? ==> Get(data, key).Null?
    ensures r.Failure? ==> r.error == key + " must be a string"
  {
    match Get(data, key)
    case Null => Success(None)
    case Str(s) => Success(Some(s))
    case _ => Failure(key + " must be a string")
  }

  /** A field `RequireStr` accepts is a string `OptionalStr` returns untrimmed. */
  lemma RequiredIsOptional(data: map<string, Value>, key: string)
    requires RequireStr(data, key).Success?
    ensures OptionalStr(data, key).Success? && OptionalStr(data, key).value.Some?
    ensures Trim(OptionalStr(data, key).value.value) == RequireStr(data, key).value
  {
  }

  /** Writing back the value `RequireStr` returned reads the same; surrounding blanks never matter. */
  lemma RequireStrStable(data: map<string, Value>, key: string, pre: string, post: string)
    requires RequireStr(data, key).Success?
    requires forall i :: 0 <= i < |pre| ==> IsSpace(pre[i])
    requires forall i :: 0 <= i < |post| ==> IsSpace(post[i])
    ensures var v := RequireStr(data, key).value;
      RequireStr(data[key := Str(pre + v + post)], key) == Success(v)
  {
    var v := RequireStr(data, key).value;
    TrimIgnoresPadding(pre, v, post);
  }

  // ----- enumerations -----

  datatype ItemType = Folder | Doc | Sheet
  datatype Role = Owner | Editor | Viewer
  datatype PrincipalType = User | Group | Anyone

  function ItemTypeName(t: ItemType): string {
    match t
    case Folder => "folder"
    case Doc => "doc"
    case Sheet => "sheet"
  }

  function RoleName(r: Role): string {
    match r
    case Owner => "owner"
    case Editor => "editor"
    case Viewer => "viewer"
  }

  function PrincipalTypeName(p: PrincipalType): string {
    match p
    case User => "user"
    case Group => "group"
    case Anyone => "anyone"
  }

  /** `_parse_item_type`: one of the three names, or the error listing them. */
  function ParseItemType(value: string): (r: Result<ItemType>)
    ensures r.Success? <==> value in {"folder", "doc", "sheet"}
    ensures r.Success? ==> ItemTypeName(r.value) == value
    ensures r.Failure? ==> r.error == "item_type must be folder, doc, or sheet"
  {
    if value == "folder" then Success(Folder)
    else if value == "doc" then Success(Doc)
    else if value == "sheet" then Success(Sheet)
    else Failure("item_type must be folder, doc, or sheet")
  }

  /** `_parse_role` */
  function ParseRole(value: string): (r: Result<Role>)
    ensures r.Success? <==> value in {"owner", "editor", "viewer"}
    ensures r.Success? ==> RoleName(r.value) == value
    ensures r.Failure? ==> r.error == "role must be owner, editor, or viewer"
  {
    if value == "owner" then Success(Owner)
    else if value == "editor" then Success(Editor)
    else if value == "viewer" then Success(Viewer)
    else Failure("role must be owner, editor, or viewer")
  }

  /** `_parse_principal_type` */
  function ParsePrincipalType(value: string): (r: Result<PrincipalType>)
    ensures r.Success? <==> value in {"user", "group", "anyone"}
    ensures r.Success? ==> PrincipalTypeName(r.value) == value
    ensures r.Failure? ==> r.error == "principal_type must be user, group, or anyone"
  {
    if value == "user" then Success(User)
    else if value == "group" then Success(Group)
    else if value == "anyone" then Success(Anyone)
    else Failure("principal_type must be user, group, or anyone")
  }

  /** Each enumeration's parser inverts its names. */
  lemma ParseNames(t: ItemType, r: Role, p: PrincipalType)
    ensures ParseItemType(ItemTypeName(t)) == Success(t)
    ensures ParseRole(RoleName(r)) == Success(r)
    ensures ParsePrincipalType(PrincipalTypeName(p)) == Success(p)
  {
  }

  // ----- sheet cells -----

  const SheetRequired := "sheet_data required for sheets"
  const SheetNotObject := "sheet_data must be an object"
  const SheetNotStrings := "sheet_data must map string cells to string values"

  predicate AllStrings(m: map<string, Value>) {
    forall k :: k in m ==> m[k].Str?
  }

  /**
    `_parse_sheet_data`: null is `None` unless `required`; otherwise an object whose every
    value is a string, read as a cell map. (A decoded JSON object's keys are always strings,
    so the cell-key half of the source's test never fails.)
  */
  function ParseSheetData(v: Value, required: bool): (r: Result<Option<map<string, string>>>)
    ensures v.Null? ==> (r.Success? <==> !required)
    ensures v.Null? && r.Success? ==> r.value.None?
    ensures v.Null? && r.Failure? ==> r.error == SheetRequired
    ensures !v.Null? && !v.Object? ==> r == Failure(SheetNotObject)
    ensures v.Object? ==> (r.Success? <==> AllStrings(v.fields))
    ensures v.Object? && r.Failure? ==> r.error == SheetNotStrings
    ensures r.Success? && r.value.Some? ==>
      && v.Object? && r.value.value.Keys == v.fields.Keys
      && forall k :: k in r.value.value ==> v.fields[k] == Str(r.value.value[k])
  {
    match v
    case Null => if required then Failure(SheetRequired) else Success(None)
    case Object(m) =>
      if AllStrings(m) then Success(Some(map k | k in m :: m[k].s))
      else Failure(SheetNotStrings)
    case _ => Failure(SheetNotObject)
  }

  /** The JSON object for a cell map. */
  function SheetValue(cells: map<string, string>): Value {
    Object(map k | k in cells :: Str(cells[k]))
  }

  /** Any cell map, written as JSON, parses back to itself. */
  lemma SheetRoundTrip(cells: map<string, string>, required: bool)
    ensures ParseSheetData(SheetValue(cells), required) == Success(Some(cells))
  {
    var r := ParseSheetData(SheetValue(cells), required);
    assert r.Success?;
    assert r.value.value == cells;
  }

  // ----- header tokens -----

  /** The trimmed, non-blank parts, in order. */
  function TrimmedTokens(parts: seq<string>): (r: seq<string>)
    ensures |r| <= |parts|
    ensures forall i :: 0 <= i < |r| ==> r[i] != [] && Trim(r[i]) == r[i]
  {
    if |parts| == 0 then []
    else
      var p := parts[0];
      TokenFacts(p);
      var rest := TrimmedTokens(parts[1..]);
      var head := if Trim(p) != [] then [Trim(p)] else [];
      TokensConcat(head, rest);
      head + rest
  }

  /** Every element is non-blank and already trimmed. */
  predicate Tokens(r: seq<string>) {
    forall i :: 0 <= i < |r| ==> r[i] != [] && Trim(r[i]) == r[i]
  }

  lemma TokensConcat(a: seq<string>, b: seq<string>)
    requires Tokens(a) && Tokens(b)
    ensures Tokens(a + b)
  {
    forall i | 0 <= i < |a + b| ensures (a + b)[i] != [] && Trim((a + b)[i]) == (a + b)[i] {
      if i >= |a| {
        assert (a + b)[i] == b[i - |a|];
      } else {
        assert (a + b)[i] == a[i];
      }
    }
  }

  /** Trimming never brings in a comma. */
  predicate CommaFree(parts: seq<string>) {
    forall i :: 0 <= i < |parts| ==> ',' !in parts[i]
  }

  lemma CommaFreeConcat(a: seq<string>, b: seq<string>)
    requires CommaFree(a) && CommaFree(b)
    ensures CommaFree(a + b)
  {
    forall i | 0 <= i < |a + b| ensures ',' !in (a + b)[i] {
      if i >= |a| {
        assert (a + b)[i] == b[i - |a|];
      }
    }
  }

  lemma CommaFreeTail(parts: seq<string>)
    requires |parts| > 0 && CommaFree(parts)
    ensures CommaFree(parts[1..]) && ',' !in parts[0]
  {
    forall i | 0 <= i < |parts| - 1 ensures ',' !in parts[1..][i] { assert parts[1..][i] == parts[i + 1]; }
  }

  lemma {:induction false} TrimmedTokensCommaFree(parts: seq<string>)
    requires CommaFree(parts)
    ensures CommaFree(TrimmedTokens(parts))
  {
    if |parts| > 0 {
      var t := Trim(parts[0]);
      CommaFreeTail(parts);
      TokenFacts(parts[0]);
      TrimmedTokensCommaFree(parts[1..]);
      var head: seq<string> := if t != [] then [t] else [];
      assert TrimmedTokens(parts) == head + TrimmedTokens(parts[1..]);
      CommaFreeConcat(head, TrimmedTokens(parts[1..]));
    }
  }

  lemma TokenFacts(p: string)
    ensures Trim(Trim(p)) == Trim(p)
    ensures ',' !in p ==> ',' !in Trim(p)
  {
    TrimIdempotent(p);
    if ',' !in p {
      TrimNoNewChars(p, ',');
    }
  }

  /** `_split_header_tokens`: the trimmed non-empty comma-separated tokens, in order. */
  function SplitHeaderTokens(value: string): (r: seq<string>)
    ensures forall i :: 0 <= i < |r| ==> r[i] != [] && Trim(r[i]) == r[i] && ',' !in r[i]
  {
    TrimmedTokensCommaFree(Split(value, ','));
    TrimmedTokens(Split(value, ','))
  }

  /** `strip()` only removes characters. */
  lemma TrimNoNewChars(s: string, c: char)
    requires c !in s
    ensures c !in Trim(s)
  {
    TrimShape(s);
  }

  /** A token list that `SplitHeaderTokens` can produce: non-empty, trimmed, comma-free. */
  predicate HeaderTokens(tokens: seq<string>) {
    forall i :: 0 <= i < |tokens| ==> tokens[i] != [] && Trim(tokens[i]) == tokens[i] && ',' !in tokens[i]
  }

  lemma {:induction false} TrimmedTokensOfTokens(tokens: seq<string>)
    requires HeaderTokens(tokens)
    ensures TrimmedTokens(tokens) == tokens
  {
    if |tokens| > 0 {
      TrimmedTokensOfTokens(tokens[1..]);
      assert tokens == [tokens[0]] + tokens[1..];
    }
  }

  lemma BlankPart()
    ensures TrimmedTokens([""]) == []
  {
    assert Trim("") == "";
    var parts: seq<string> := [""];
    assert parts[1..] == [];
    assert TrimmedTokens(parts[1..]) == [];
  }

  /** Splitting a comma-joined token list gives the tokens back. */
  lemma TokensOfJoin(tokens: seq<string>)
    requires HeaderTokens(tokens)
    ensures SplitHeaderTokens(Join(tokens, ",")) == tokens
  {
    if |tokens| == 0 {
      assert Split("", ',') == [""];
      BlankPart();
    } else {
      SplitJoin(tokens, ',');
      TrimmedTokensOfTokens(tokens);
    }
  }

  /**
    `_if_none_match_matches`: false for a missing or empty header; otherwise whether the
    ETag or "*" is one of its tokens.
  */
  function IfNoneMatchMatches(raw: Option<string>, etag: string): (r: bool)
    ensures r ==> raw.Some? && raw.value != []
  {
    match raw
    case None => false
    case Some(h) =>
      if h == [] then false
      else
        var tokens := SplitHeaderTokens(h);
        etag in tokens || "*" in tokens
  }

  /** A header listing some ETags matches exactly when it lists this one or the wildcard. */
  lemma IfNoneMatchListed(tokens: seq<string>, etag: string)
    requires HeaderTokens(tokens)
    ensures IfNoneMatchMatches(Some(Join(tokens, ",")), etag) <==> etag in tokens || "*" in tokens
  {
    TokensOfJoin(tokens);
    if |tokens| > 0 {
      assert |Join(tokens, ",")| > 0 by { JoinLength(tokens, ","); }
    }
  }

  lemma {:induction false} JoinLength(parts: seq<string>, sep: string)
    requires |parts| > 0 && parts[0] != []
    ensures |Join(parts, sep)| >= |parts[0]|
  {
    if |parts| > 1 {
      assert Join(parts, sep) == parts[0] + sep + Join(parts[1..], sep);
    }
  }
}
