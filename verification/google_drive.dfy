/**
  Drive-side reconciliation: the `gwsynth_*` appProperties tags, tag queries over the files a
  call can see, and the ensure/delete calls. A file is recognised only through its tags, never
  by name.
*/
module GoogleDrive {
  import opened Wrappers
  import opened Strings
  import opened PyDict
  import opened Tenant

  type Props = Dict<string, string>

  /** Python truthiness of an optional string: absent and `""` are both false. */
  predicate Truthy(o: Option<string>) {
    o.Some? && o.value != ""
  }

  const BaseKeys: seq<string> := ["gwsynth_run", "gwsynth_id", "gwsynth_kind", "gwsynth_path"]

  /** The four tags every object carries. */
  function BaseProps(runName: string, stableId: string, kind: string, path: string): (p: Props)
    ensures UniqueKeys(p) && |p| == 4 && forall i :: 0 <= i < 4 ==> p[i].0 == BaseKeys[i]
    ensures Get(p, "gwsynth_run") == Some(runName) && Get(p, "gwsynth_id") == Some(stableId)
    ensures Get(p, "gwsynth_kind") == Some(kind) && Get(p, "gwsynth_path") == Some(path)
    ensures !HasKey(p, "gwsynth_prompt_version") && !HasKey(p, "gwsynth_content_hash")
  {
    var p := [("gwsynth_run", runName), ("gwsynth_id", stableId),
              ("gwsynth_kind", kind), ("gwsynth_path", path)];
    BaseKeysApart(p);
    GetOfUnique(p, 0); GetOfUnique(p, 1); GetOfUnique(p, 2); GetOfUnique(p, 3);
    p
  }

  /** The four base keys differ from each other and from the two generation keys. */
  lemma BaseKeysApart(p: Props)
    requires |p| == 4 && forall i :: 0 <= i < 4 ==> p[i].0 == BaseKeys[i]
    ensures UniqueKeys(p) && !HasKey(p, "gwsynth_prompt_version") && !HasKey(p, "gwsynth_content_hash")
  {
    assert |BaseKeys[0]| == 11 && |BaseKeys[1]| == 10 && |BaseKeys[2]| == 12 && |BaseKeys[3]| == 12;
    assert BaseKeys[2][8] == 'k' && BaseKeys[3][8] == 'p';
    assert |"gwsynth_prompt_version"| == 22 && |"gwsynth_content_hash"| == 20;
  }

  /** `if value: props[key] = value` for a key not yet present. */
  function AddIfTruthy(p: Props, key: string, value: Option<string>): (r: Props)
    requires UniqueKeys(p) && !HasKey(p, key)
    ensures |r| == |p| + (if Truthy(value) then 1 else 0)
    ensures UniqueKeys(r) && forall i :: 0 <= i < |p| ==> r[i] == p[i]
    ensures Get(r, key) == (if Truthy(value) then value else None)
  {
    if Truthy(value) then
      var r := p + [(key, value.value)];
      GetOfUnique(r, |p|);
      r
    else
      p
  }

  /** Adding one tag leaves every other tag as it was. */
  lemma AddIfTruthyKeepsOthers(p: Props, key: string, value: Option<string>, k: string)
    requires UniqueKeys(p) && !HasKey(p, key) && k != key
    ensures Get(AddIfTruthy(p, key, value), k) == Get(p, k)
  {
    if Truthy(value) { GetAppend(p, key, value.value, k); }
  }

  lemma {:induction false} GetAppend(p: Props, key: string, value: string, k: string)
    requires k != key
    ensures Get(p + [(key, value)], k) == Get(p, k)
  {
    if |p| > 0 {
      assert (p + [(key, value)])[1..] == p[1..] + [(key, value)];
      GetAppend(p[1..], key, value, k);
    }
  }

  /** `build_app_properties`: four tags always, prompt version and content hash only when truthy. */
  function BuildAppProperties(runName: string, stableId: string, kind: string, path: string,
                              promptVersion: Option<string>, contentHash: Option<string>): (p: Props)
    ensures UniqueKeys(p)
    ensures Get(p, "gwsynth_run") == Some(runName) && Get(p, "gwsynth_id") == Some(stableId)
    ensures Get(p, "gwsynth_kind") == Some(kind) && Get(p, "gwsynth_path") == Some(path)
    ensures Get(p, "gwsynth_prompt_version") == (if Truthy(promptVersion) then promptVersion else None)
    ensures Get(p, "gwsynth_content_hash") == (if Truthy(contentHash) then contentHash else None)
    ensures |p| == 4 + (if Truthy(promptVersion) then 1 else 0) + (if Truthy(contentHash) then 1 else 0)
  {
    var base := BaseProps(runName, stableId, kind, path);
    var withPrompt := AddIfTruthy(base, "gwsynth_prompt_version", promptVersion);
    AddIfTruthyKeepsOthers(base, "gwsynth_prompt_version", promptVersion, "gwsynth_content_hash");
    var p := AddIfTruthy(withPrompt, "gwsynth_content_hash", contentHash);
    AddIfTruthyKeepsOthers(withPrompt, "gwsynth_content_hash", contentHash, "gwsynth_prompt_version");
    forall k | k in BaseKeys ensures Get(p, k) == Get(base, k) {
      AddIfTruthyKeepsOthers(base, "gwsynth_prompt_version", promptVersion, k);
      AddIfTruthyKeepsOthers(withPrompt, "gwsynth_content_hash", contentHash, k);
    }
    p
  }

  /** The four base tags come first, in their fixed order. */
  lemma AppPropertiesKeyOrder(runName: string, stableId: string, kind: string, path: string,
                              promptVersion: Option<string>, contentHash: Option<string>)
    ensures var p := BuildAppProperties(runName, stableId, kind, path, promptVersion, contentHash);
      |p| >= 4 && forall i :: 0 <= i < 4 ==> p[i].0 == BaseKeys[i]
  {
  }

  // ----- Tag queries -----

  /** The file carries every queried tag with the queried value. */
  predicate Matches(f: File, query: Props) {
    forall i :: 0 <= i < |query| ==> Get(f.props, query[i].0) == Some(query[i].1)
  }

  /** `find_file_by_app_properties`: the first listed match (`pageSize=1`). */
  function FindFile(files: seq<File>, query: Props): (r: Option<nat>)
    ensures r.Some? ==> r.value < |files| && Matches(files[r.value], query)
    ensures r.Some? ==> forall j :: 0 <= j < r.value ==> !Matches(files[j], query)
    ensures r.None? <==> forall j :: 0 <= j < |files| ==> !Matches(files[j], query)
  {
    if |files| == 0 then None
    else if Matches(files[0], query) then Some(0)
    else match FindFile(files[1..], query)
      case None =>
        assert forall j :: 1 <= j < |files| ==> files[j] == files[1..][j - 1];
        None
      case Some(k) =>
        assert forall j :: 1 <= j < |files| ==> files[j] == files[1..][j - 1];
        Some(k + 1)
  }

  /** `list_files_by_app_properties` over every page: the matches, in listing order. */
  function ListFiles(files: seq<File>, query: Props): (r: seq<File>)
    ensures |r| <= |files|
    ensures forall i :: 0 <= i < |r| ==> r[i] in files && Matches(r[i], query)
    ensures forall i :: 0 <= i < |files| && Matches(files[i], query) ==> files[i] in r
  {
    if |files| == 0 then []
    else
      var rest := ListFiles(files[1..], query);
      assert forall i :: 1 <= i < |files| ==> files[i] == files[1..][i - 1];
      if Matches(files[0], query) then [files[0]] + rest else rest
  }

  /** Finding and listing agree: the first listed match is the one found. */
  lemma {:induction false} FindFileIsFirstListed(files: seq<File>, query: Props)
    ensures FindFile(files, query).None? <==> ListFiles(files, query) == []
    ensures FindFile(files, query).Some? ==> ListFiles(files, query)[0] == files[FindFile(files, query).value]
  {
    if |files| > 0 {
      var rest := ListFiles(files[1..], query);
      if Matches(files[0], query) {
        assert FindFile(files, query) == Some(0);
        assert ListFiles(files, query) == [files[0]] + rest;
      } else {
        FindFileIsFirstListed(files[1..], query);
        assert ListFiles(files, query) == rest;
        var k := FindFile(files[1..], query);
        assert FindFile(files, query) == if k.Some? then Some(k.value + 1) else None;
        assert k.Some? ==> files[1..][k.value] == files[k.value + 1];
      }
    }
  }

  /** The file at `k` is found when it matches and no file before it does. */
  lemma FindFileIs(files: seq<File>, q: Props, k: nat)
    requires k < |files| && Matches(files[k], q)
    requires forall j :: 0 <= j < k ==> !Matches(files[j], q)
    ensures FindFile(files, q) == Some(k)
  {
    var r := FindFile(files, q);
    assert r.Some?;
    assert !(r.value < k);
    assert !(r.value > k);
  }

  // ----- Query text -----

  /**
    How the query text writes a key or a value between single quotes. `Unescaped` is how
    `_app_properties_query` writes it; `Escaped` first puts a backslash before each `'` and `\`,
    as Drive's query syntax asks and as the project's tests of `escape_drive_query_string` expect.
  */
  datatype Quoting = Unescaped | Escaped

  /** A string with no quote and no backslash. */
  predicate Quotable(s: string) {
    forall i :: 0 <= i < |s| ==> s[i] != '\'' && s[i] != '\\'
  }

  /** Every key and value of the query is quotable. */
  predicate QuerySafe(query: Props) {
    forall i :: 0 <= i < |query| ==> Quotable(query[i].0) && Quotable(query[i].1)
  }

  /** A query Drive accepts when written with `quoting`. */
  predicate Sendable(query: Props, quoting: Quoting) {
    quoting == Escaped || QuerySafe(query)
  }

  /** A backslash before each quote and each backslash. */
  function Escape(s: string): (e: string)
    ensures Quotable(s) ==> e == s
  {
    if |s| == 0 then ""
    else (if s[0] == '\'' || s[0] == '\\' then ['\\', s[0]] else [s[0]]) + Escape(s[1..])
  }

  function Quote(s: string, quoting: Quoting): string {
    match quoting
    case Unescaped => s
    case Escaped => Escape(s)
  }

  /** The text of a clause after the key's closing quote. */
  function ValueText(value: string, quoting: Quoting): string {
    " and value='" + Quote(value, quoting) + "'" + " }"
  }

  /** One Drive query clause. */
  function Clause(kv: (string, string), quoting: Quoting): string {
    "appProperties has { key='" + Quote(kv.0, quoting) + "'" + ValueText(kv.1, quoting)
  }

  function Clauses(query: Props, quoting: Quoting): (cs: seq<string>)
    ensures |cs| == |query|
    ensures forall i :: 0 <= i < |query| ==> cs[i] == Clause(query[i], quoting)
  {
    if |query| == 0 then [] else [Clause(query[0], quoting)] + Clauses(query[1..], quoting)
  }

  /** `_app_properties_query`: one clause per tag, in dict order, joined by " and ". */
  function AppPropertiesQuery(query: Props, quoting: Quoting): (q: string)
    ensures |query| == 0 ==> q == ""
    ensures |query| == 1 ==> q == Clause(query[0], quoting)
  {
    Join(Clauses(query, quoting), " and ")
  }

  /** Adding a tag to the query adds exactly one trailing clause. */
  lemma AppPropertiesQuerySnoc(query: Props, key: string, value: string, quoting: Quoting)
    requires |query| >= 1
    ensures AppPropertiesQuery(query + [(key, value)], quoting)
         == AppPropertiesQuery(query, quoting) + " and " + Clause((key, value), quoting)
  {
    assert Clauses(query + [(key, value)], quoting) == Clauses(query, quoting) + [Clause((key, value), quoting)];
    JoinSnoc(Clauses(query, quoting), Clause((key, value), quoting), " and ");
  }

  /**
    How Drive reads a string literal after its opening quote: up to the first quote that no
    backslash takes, a backslash taking the next character as it is. The result is the value
    and the text after the closing quote; `None` when the literal never closes.
  */
  function ReadLiteral(t: string): (r: Option<(string, string)>)
    ensures r.Some? ==> |r.value.0| + 1 + |r.value.1| <= |t|
    decreases |t|
  {
    if |t| == 0 then None
    else if t[0] == '\'' then Some(("", t[1..]))
    else if t[0] == '\\' then
      if |t| < 2 then None
      else match ReadLiteral(t[2..])
        case None => None
        case Some((w, rest)) => Some(([t[1]] + w, rest))
    else match ReadLiteral(t[1..])
      case None => None
      case Some((w, rest)) => Some(([t[0]] + w, rest))
  }

  /** A literal read without taking any escape was written as is, with no quote or backslash inside. */
  lemma {:induction false} ReadTight(t: string)
    requires ReadLiteral(t).Some?
    requires |ReadLiteral(t).value.0| + 1 + |ReadLiteral(t).value.1| == |t|
    ensures t == ReadLiteral(t).value.0 + "'" + ReadLiteral(t).value.1 && Quotable(ReadLiteral(t).value.0)
    decreases |t|
  {
    if t[0] != '\'' {
      ReadTight(t[1..]);
      assert t == [t[0]] + t[1..];
    }
  }

  lemma {:induction false} ReadQuotable(v: string, rest: string)
    requires Quotable(v)
    ensures ReadLiteral(v + "'" + rest) == Some((v, rest))
    decreases |v|
  {
    var t := v + "'" + rest;
    if |v| == 0 {
      assert t[1..] == rest;
    } else {
      ReadQuotable(v[1..], rest);
      assert t[1..] == v[1..] + "'" + rest;
      assert [v[0]] + v[1..] == v;
    }
  }

  /** A value written as is reads back exactly when it holds no quote and no backslash. */
  lemma ReadBack(v: string, rest: string)
    ensures ReadLiteral(v + "'" + rest) == Some((v, rest)) <==> Quotable(v)
  {
    if Quotable(v) {
      ReadQuotable(v, rest);
    } else if ReadLiteral(v + "'" + rest) == Some((v, rest)) {
      ReadTight(v + "'" + rest);
    }
  }

  /** An escaped value always reads back. */
  lemma {:induction false} ReadEscaped(v: string, rest: string)
    ensures ReadLiteral(Escape(v) + "'" + rest) == Some((v, rest))
    decreases |v|
  {
    var t := Escape(v) + "'" + rest;
    if |v| == 0 {
      assert t[1..] == rest;
    } else {
      ReadEscaped(v[1..], rest);
      var head := if v[0] == '\'' || v[0] == '\\' then ['\\', v[0]] else [v[0]];
      assert t == head + (Escape(v[1..]) + "'" + rest);
      assert t[|head|..] == Escape(v[1..]) + "'" + rest;
      assert [v[0]] + v[1..] == v;
    }
  }

  /** Drive reads back the key of a clause (after `key='`) and its value (after `value='`) as sent. */
  predicate ClauseReadsBack(kv: (string, string), quoting: Quoting) {
    && ReadLiteral(Quote(kv.0, quoting) + "'" + ValueText(kv.1, quoting)) == Some((kv.0, ValueText(kv.1, quoting)))
    && ReadLiteral(Quote(kv.1, quoting) + "'" + " }") == Some((kv.1, " }"))
  }

  /** Escaped, every clause reads back; written as is, exactly those whose key and value are quotable. */
  lemma ClauseReadsBackIff(kv: (string, string), quoting: Quoting)
    ensures ClauseReadsBack(kv, quoting) <==> quoting == Escaped || (Quotable(kv.0) && Quotable(kv.1))
  {
    if quoting == Escaped {
      ReadEscaped(kv.0, ValueText(kv.1, quoting));
      ReadEscaped(kv.1, " }");
    } else {
      ReadBack(kv.0, ValueText(kv.1, quoting));
      ReadBack(kv.1, " }");
    }
  }

  /** Drive reads back every tag of the query as sent. */
  predicate ReadsBack(query: Props, quoting: Quoting) {
    forall i :: 0 <= i < |query| ==> ClauseReadsBack(query[i], quoting)
  }

  lemma ReadsBackIff(query: Props, quoting: Quoting)
    ensures ReadsBack(query, quoting) <==> Sendable(query, quoting)
  {
    forall i | 0 <= i < |query|
      ensures ClauseReadsBack(query[i], quoting) <==> quoting == Escaped || (Quotable(query[i].0) && Quotable(query[i].1))
    {
      ClauseReadsBackIff(query[i], quoting);
    }
  }

  /**
    `find_file_by_app_properties` as a call. A query whose text Drive does not read back as
    sent has a literal that closes early, and the text after it is not query syntax: Drive
    answers 400 and the exception leaves the call. Otherwise the answer is the first match.
  */
  function FindByQuery(files: seq<File>, query: Props, quoting: Quoting): (r: Result<Option<nat>>)
    ensures r.Failure? <==> quoting == Unescaped && !QuerySafe(query)
    ensures r.Failure? ==> r.error == "HttpError 400"
    ensures r.Success? ==> r.value == FindFile(files, query)
  {
    if Sendable(query, quoting) then Success(FindFile(files, query)) else Failure("HttpError 400")
  }

  /** `list_files_by_app_properties` as a call: refused as `FindByQuery` is, and otherwise every match. */
  function ListByQuery(files: seq<File>, query: Props, quoting: Quoting): (r: Result<seq<File>>)
    ensures r.Failure? <==> quoting == Unescaped && !QuerySafe(query)
    ensures r.Failure? ==> r.error == "HttpError 400"
    ensures r.Success? ==> r.value == ListFiles(files, query)
  {
    if Sendable(query, quoting) then Success(ListFiles(files, query)) else Failure("HttpError 400")
  }

  /** A lookup is refused exactly when Drive would not read its text back as sent. */
  lemma QueryRefusedIffMisread(files: seq<File>, query: Props, quoting: Quoting)
    ensures FindByQuery(files, query, quoting).Failure? <==> !ReadsBack(query, quoting)
    ensures ListByQuery(files, query, quoting).Failure? <==> !ReadsBack(query, quoting)
  {
    ReadsBackIff(query, quoting);
  }

  /**
    A tag whose value holds an apostrophe, such as the folder path "01 - Projects/{department}"
    for the department "Women's Health": as written, the lookup is refused although a file
    carries the tag; escaped, the same lookup finds that file.
  */
  lemma QuotedTagRefused(f: File, key: string, value: string, k: nat)
    requires f.props == [(key, value)] && k < |value| && value[k] == '\''
    ensures var q := [(key, value)];
      && FindByQuery([f], q, Unescaped) == Failure("HttpError 400")
      && ListByQuery([f], q, Unescaped) == Failure("HttpError 400")
      && FindByQuery([f], q, Escaped) == Success(Some(0))
      && ListByQuery([f], q, Escaped) == Success([f])
  {
    var q := [(key, value)];
    assert !Quotable(q[0].1);
    assert Matches(f, q);
    assert [f][1..] == [];
    assert ListFiles([f], q) == [f];
    assert ListByQuery([f], q, Escaped).Success?;
  }

  /** A printed UUID: hex digits and dashes. */
  predicate UuidText(s: string) {
    forall i :: 0 <= i < |s| ==> s[i] in "0123456789abcdef-"
  }

  /** The marker query holds a printed UUID and a constant, so the text as written reads back. */
  lemma MarkerQuerySafe(stableId: string)
    requires UuidText(stableId)
    ensures QuerySafe(MarkerQuery(stableId))
    ensures forall files :: FindByQuery(files, MarkerQuery(stableId), Unescaped) == FindByQuery(files, MarkerQuery(stableId), Escaped)
  {
    var q := MarkerQuery(stableId);
    assert Quotable(q[1].1) by {
      assert q[1].1 == "drive_marker";
    }
  }

  // ----- Shared drives -----

  datatype DriveSyncResult = DriveSyncResult(name: string, driveId: Option<nat>, created: bool, conflict: bool)

  /** `ensure_shared_drive`: a drive with the name is a conflict and is reported, never written. */
  function EnsureSharedDrive(ds: Drives, driveName: string, dryRun: bool): (r: (Drives, DriveSyncResult))
    ensures r.1.name == driveName && !(r.1.created && r.1.conflict)
    ensures r.1.conflict <==> FindDriveByName(ds.shared, driveName).Some?
    ensures r.1.conflict ==> r.1.driveId == Some(ds.shared[FindDriveByName(ds.shared, driveName).value].id)
    ensures r.1.conflict || dryRun ==> r.0 == ds
    ensures !r.1.conflict && dryRun ==> r.1.driveId.None?
    ensures !r.1.conflict && !dryRun ==> (
      && r.1.driveId == Some(ds.nextId)
      && r.0 == ds.(shared := ds.shared + [SharedDrive(ds.nextId, driveName, [], [])], nextId := ds.nextId + 1))
  {
    match FindDriveByName(ds.shared, driveName)
    case Some(i) => (ds, DriveSyncResult(driveName, Some(ds.shared[i].id), false, true))
    case None =>
      if dryRun then (ds, DriveSyncResult(driveName, None, true, false))
      else
        var drive := SharedDrive(ds.nextId, driveName, [], []);
        (ds.(shared := ds.shared + [drive], nextId := ds.nextId + 1),
         DriveSyncResult(driveName, Some(ds.nextId), true, false))
  }

  /** A created drive keeps the counter fresh. */
  lemma EnsureSharedDriveFresh(ds: Drives, driveName: string, dryRun: bool)
    requires FreshCounter(ds)
    ensures FreshCounter(EnsureSharedDrive(ds, driveName, dryRun).0)
  {
    var r := EnsureSharedDrive(ds, driveName, dryRun).0;
    forall u | u in r.myDrives ensures IdsBelow(r.myDrives[u], r.nextId) {
      assert IdsBelow(ds.myDrives[u], ds.nextId);
    }
  }

  // ----- Files -----

  /** Append one new file drawn from the id counter (`files().create`). */
  function CreateFile(sp: Space, name: string, mime: Mime, parent: Option<nat>, props: Props): (r: (Space, nat))
    ensures r.1 == sp.nextId && r.0.nextId == sp.nextId + 1
    ensures r.0.files == sp.files + [File(sp.nextId, name, mime, parent, props, [])]
  {
    (Space(sp.files + [File(sp.nextId, name, mime, parent, props, [])], sp.nextId + 1), sp.nextId)
  }

  function MarkerQuery(stableId: string): (q: Props)
    ensures |q| == 2
  {
    [("gwsynth_id", stableId), ("gwsynth_kind", "drive_marker")]
  }

  const MarkerPath := "/__gwsynth__"

  function MarkerProps(runName: string, stableId: string): Props {
    BuildAppProperties(runName, stableId, "drive_marker", MarkerPath, None, None)
  }

  /** A marker built by `EnsureDriveMarker` answers the marker query. */
  lemma MarkerMatchesQuery(f: File, runName: string, stableId: string)
    requires f.props == MarkerProps(runName, stableId)
    ensures Matches(f, MarkerQuery(stableId))
  {
  }

  /** A new last file that matches is found when no earlier file does. */
  lemma FindFileAppend(files: seq<File>, f: File, query: Props)
    requires FindFile(files, query).None? && Matches(f, query)
    ensures FindFile(files + [f], query) == Some(|files|)
  {
    var xs := files + [f];
    assert xs[|files|] == f;
    forall j | 0 <= j < |files|
      ensures !Matches(xs[j], query)
    {
      assert xs[j] == files[j];
    }
    FindFileIs(xs, query, |files|);
  }

  /** A dict's own pairs form a query it answers. */
  lemma {:induction false} MatchesOwnProps(f: File)
    requires UniqueKeys(f.props)
    ensures Matches(f, f.props)
  {
    forall i | 0 <= i < |f.props| ensures Get(f.props, f.props[i].0) == Some(f.props[i].1) {
      GetOfUnique(f.props, i);
    }
  }

  lemma {:induction false} GetOfUnique(d: Props, i: nat)
    requires UniqueKeys(d) && i < |d|
    ensures Get(d, d[i].0) == Some(d[i].1)
  {
    if i > 0 {
      assert d[0].0 != d[i].0;
      assert UniqueKeys(d[1..]);
      GetOfUnique(d[1..], i - 1);
    }
  }

  // ----- Where a created file is filed -----

  /**
    The files a lookup searches: one shared drive (the source passes its id; here its place in
    the listing of shared drives), or, when no drive id is passed, the caller's own files.
  */
  datatype Scope = DriveScope(index: nat) | OwnScope

  /** A store a new file can be filed in. */
  datatype Place = InShared(index: nat) | InMyDrive(user: string)

  /**
    How Drive files a create whose body names no parent. `AsSent` is its rule for the bodies the
    source sends: the root of the acting user's My Drive, whatever drive the call searched.
    `DriveRoot` is the rule once the body names the drive searched as the parent
    (`parents=[drive_id]`): the root of that drive.
  */
  datatype Placement = AsSent | DriveRoot

  predicate ValidScope(ds: Drives, scope: Scope) {
    scope.DriveScope? ==> scope.index < |ds.shared|
  }

  predicate ValidPlace(ds: Drives, place: Place) {
    place.InShared? ==> place.index < |ds.shared|
  }

  /** The files a lookup in `scope` sees. */
  function ScopeFiles(ds: Drives, actor: string, scope: Scope): seq<File>
    requires ValidScope(ds, scope)
  {
    match scope
    case DriveScope(i) => ds.shared[i].files
    case OwnScope => MyDriveFiles(ds, actor)
  }

  /** The store a lookup in `scope` searches, as a place to file into. */
  function ScopePlace(actor: string, scope: Scope): Place {
    match scope
    case DriveScope(i) => InShared(i)
    case OwnScope => InMyDrive(actor)
  }

  function FilesAt(ds: Drives, place: Place): seq<File>
    requires ValidPlace(ds, place)
  {
    match place
    case InShared(i) => ds.shared[i].files
    case InMyDrive(u) => MyDriveFiles(ds, u)
  }

  /**
    Where Drive files a file `actor` creates in a call scoped to `scope`: in the store of the
    parent when the body names one (a parent the caller cannot see is the service's 404), and
    otherwise as `placement` says.
  */
  function Landing(ds: Drives, actor: string, scope: Scope, parent: Option<nat>, placement: Placement): (r: Result<Place>)
    requires ValidScope(ds, scope)
    ensures r.Success? ==> ValidPlace(ds, r.value) && (r.value.InMyDrive? ==> r.value.user == actor)
    ensures parent.None? ==> r.Success? && (r.value == ScopePlace(actor, scope) <==> placement == DriveRoot || scope.OwnScope?)
    ensures parent.Some? ==> (r.Success? <==> HasFile(ScopeFiles(ds, actor, scope), parent.value)
                                              || HasFile(MyDriveFiles(ds, actor), parent.value))
    ensures parent.Some? && r.Success? ==> HasFile(FilesAt(ds, r.value), parent.value)
    ensures parent.Some? && HasFile(ScopeFiles(ds, actor, scope), parent.value) ==> r == Success(ScopePlace(actor, scope))
  {
    match parent
    case None => if placement == DriveRoot then Success(ScopePlace(actor, scope)) else Success(InMyDrive(actor))
    case Some(p) =>
      if HasFile(ScopeFiles(ds, actor, scope), p) then Success(ScopePlace(actor, scope))
      else if HasFile(MyDriveFiles(ds, actor), p) then Success(InMyDrive(actor))
      else Failure("HttpError 404")
  }

  /** Every store other than `place` is as it was, and the shared drives are the same ones in the same order. */
  ghost predicate Elsewhere(ds: Drives, ds': Drives, place: Place) {
    && |ds'.shared| == |ds.shared|
    && (forall j :: 0 <= j < |ds.shared| ==>
          ds'.shared[j].id == ds.shared[j].id && ds'.shared[j].name == ds.shared[j].name
          && ds'.shared[j].perms == ds.shared[j].perms)
    && (forall j :: 0 <= j < |ds.shared| && place != InShared(j) ==> ds'.shared[j] == ds.shared[j])
    && (forall u :: place != InMyDrive(u) ==> MyDriveFiles(ds', u) == MyDriveFiles(ds, u))
  }

  /** `ds'` is `ds` with `f`, drawn from the counter, appended to the store at `place`. */
  ghost predicate Filed(ds: Drives, ds': Drives, place: Place, f: File) {
    && ValidPlace(ds, place) && ValidPlace(ds', place)
    && FilesAt(ds', place) == FilesAt(ds, place) + [f]
    && f.id == ds.nextId && ds'.nextId == ds.nextId + 1
    && Elsewhere(ds, ds', place)
  }

  /** `files().create`: one new file drawn from the id counter, filed at `place`. */
  function CreateAt(ds: Drives, place: Place, name: string, mime: Mime, parent: Option<nat>, props: Props): (r: (Drives, nat))
    requires ValidPlace(ds, place)
    ensures r.1 == ds.nextId && Filed(ds, r.0, place, File(ds.nextId, name, mime, parent, props, []))
  {
    match place
    case InShared(i) =>
      var (sp, id) := CreateFile(SharedSpace(ds, i), name, mime, parent, props);
      (WithSharedSpace(ds, i, sp), id)
    case InMyDrive(u) =>
      var (sp, id) := CreateFile(MySpace(ds, u), name, mime, parent, props);
      (WithMySpace(ds, u, sp), id)
  }

  /**
    The lookup-then-create the three `ensure_*` calls share: the id of the first file in the
    scope answering `query`; nothing in a dry run; otherwise one new file, filed where `Landing`
    says. The flag is `true` exactly when no file answered. A query Drive refuses as written
    (`FindByQuery`) fails the call before anything is written.
  */
  function Ensure(ds: Drives, actor: string, scope: Scope, query: Props, name: string, mime: Mime,
                  parent: Option<nat>, props: Props, dryRun: bool, placement: Placement, quoting: Quoting)
    : (r: (Drives, Result<(Option<nat>, bool)>))
    requires ValidScope(ds, scope)
    ensures !Sendable(query, quoting) ==> r == (ds, Failure("HttpError 400"))
    ensures Sendable(query, quoting) ==>
      var found := FindFile(ScopeFiles(ds, actor, scope), query);
      var land := Landing(ds, actor, scope, parent, placement);
      && (found.Some? ==> r == (ds, Success((Some(ScopeFiles(ds, actor, scope)[found.value].id), false))))
      && (found.None? && dryRun ==> r == (ds, Success((None, true))))
      && (found.None? && !dryRun && land.Failure? ==> r == (ds, Failure(land.error)))
      && (found.None? && !dryRun && land.Success? ==>
            r.1 == Success((Some(ds.nextId), true)) && Filed(ds, r.0, land.value, File(ds.nextId, name, mime, parent, props, [])))
  {
    var files := ScopeFiles(ds, actor, scope);
    match FindByQuery(files, query, quoting)
    case Failure(e) => (ds, Failure(e))
    case Success(Some(k)) => (ds, Success((Some(files[k].id), false)))
    case Success(None) =>
      if dryRun then (ds, Success((None, true)))
      else match Landing(ds, actor, scope, parent, placement)
        case Failure(e) => (ds, Failure(e))
        case Success(place) =>
          var (ds1, id) := CreateAt(ds, place, name, mime, parent, props);
          (ds1, Success((Some(id), true)))
  }

  /** Appending a file to some store keeps every file the caller could see where it was. */
  lemma FiledKeeps(ds: Drives, ds': Drives, place: Place, f: File, actor: string, scope: Scope, p: nat)
    requires Filed(ds, ds', place, f) && ValidScope(ds, scope)
    ensures ValidScope(ds', scope)
    ensures HasFile(ScopeFiles(ds, actor, scope), p) ==> HasFile(ScopeFiles(ds', actor, scope), p)
    ensures HasFile(MyDriveFiles(ds, actor), p) ==> HasFile(MyDriveFiles(ds', actor), p)
  {
    if HasFile(ScopeFiles(ds, actor, scope), p) {
      var k :| 0 <= k < |ScopeFiles(ds, actor, scope)| && ScopeFiles(ds, actor, scope)[k].id == p;
      if place == ScopePlace(actor, scope) {
        assert ScopeFiles(ds', actor, scope)[k] == ScopeFiles(ds, actor, scope)[k];
      }
    }
    if HasFile(MyDriveFiles(ds, actor), p) {
      var k :| 0 <= k < |MyDriveFiles(ds, actor)| && MyDriveFiles(ds, actor)[k].id == p;
      if place == InMyDrive(actor) {
        assert MyDriveFiles(ds', actor)[k] == MyDriveFiles(ds, actor)[k];
      }
    }
  }

  /** A file filed somewhere other than the scope leaves the scope's files as they were. */
  lemma FiledOutsideScope(ds: Drives, ds': Drives, place: Place, f: File, actor: string, scope: Scope)
    requires Filed(ds, ds', place, f) && ValidScope(ds, scope) && place != ScopePlace(actor, scope)
    ensures ValidScope(ds', scope) && ScopeFiles(ds', actor, scope) == ScopeFiles(ds, actor, scope)
  {
  }

  /**
    The second of two calls in a row: when the first found its file, or filed the new one in
    the store it searched, the second finds that file and writes nothing. When the first filed
    it anywhere else, the second finds nothing either and files one more. A query refused as
    written is refused again, with nothing written by either call.
  */
  lemma {:induction false} EnsureAgain(ds: Drives, actor: string, scope: Scope, name: string, mime: Mime,
                                       parent: Option<nat>, props: Props, query: Props, placement: Placement,
                                       quoting: Quoting)
    requires ValidScope(ds, scope)
    requires forall i :: 0 <= i < |query| ==> Get(props, query[i].0) == Some(query[i].1)
    ensures var first := Ensure(ds, actor, scope, query, name, mime, parent, props, false, placement, quoting);
      var second := Ensure(first.0, actor, scope, query, name, mime, parent, props, false, placement, quoting);
      var found := FindFile(ScopeFiles(ds, actor, scope), query);
      var land := Landing(ds, actor, scope, parent, placement);
      && (!Sendable(query, quoting) ==> first == (ds, Failure("HttpError 400")) && second == first)
      && (Sendable(query, quoting) && (found.Some? || land == Success(ScopePlace(actor, scope))) ==>
            ValidScope(first.0, scope) && second == (first.0, Success((first.1.value.0, false))))
      && (Sendable(query, quoting) && found.None? && land.Success? && land.value != ScopePlace(actor, scope) ==>
            second.1 == Success((Some(first.0.nextId), true))
            && Filed(first.0, second.0, land.value, File(first.0.nextId, name, mime, parent, props, [])))
  {
    var first := Ensure(ds, actor, scope, query, name, mime, parent, props, false, placement, quoting);
    var files := ScopeFiles(ds, actor, scope);
    var land := Landing(ds, actor, scope, parent, placement);
    if Sendable(query, quoting) && FindFile(files, query).None? && land.Success? {
      var place := land.value;
      var f := File(ds.nextId, name, mime, parent, props, []);
      assert Filed(ds, first.0, place, f);
      if place == ScopePlace(actor, scope) {
        assert ScopeFiles(first.0, actor, scope) == files + [f];
        FindFileAppend(files, f, query);
      } else {
        FiledOutsideScope(ds, first.0, place, f, actor, scope);
        if parent.Some? {
          FiledKeeps(ds, first.0, place, f, actor, scope, parent.value);
        }
        assert Landing(first.0, actor, scope, parent, placement) == land;
      }
    }
  }

  /**
    `ensure_drive_marker`: the id of the first file in the drive answering the marker query;
    `""` when there is none in a dry run; otherwise one new marker folder, which names no
    parent, so `placement` decides where it is filed.
  */
  function EnsureDriveMarker(ds: Drives, actor: string, i: nat, runName: string, stableId: string, prefix: string,
                             dryRun: bool, placement: Placement): (r: (Drives, string))
    requires i < |ds.shared|
    ensures var found := FindFile(ds.shared[i].files, MarkerQuery(stableId));
      && (found.Some? ==> r == (ds, NatToString(ds.shared[i].files[found.value].id)))
      && (found.None? && dryRun ==> r == (ds, ""))
      && (found.None? && !dryRun ==>
            r.1 == NatToString(ds.nextId)
            && Filed(ds, r.0, MarkerPlace(actor, i, placement),
                     File(ds.nextId, MarkerName(prefix), FolderMime, None, MarkerProps(runName, stableId), [])))
    ensures r.1 == "" <==> (FindFile(ds.shared[i].files, MarkerQuery(stableId)).None? && dryRun)
  {
    var (ds1, res) := Ensure(ds, actor, DriveScope(i), MarkerQuery(stableId), MarkerName(prefix), FolderMime, None,
                             MarkerProps(runName, stableId), dryRun, placement, Escaped);
    match res
    case Success((Some(id), _)) => (ds1, NatToString(id))
    case _ => (ds1, "")
  }

  /** A marker call leaves the drives before `i` and every store it does not file into as they were. */
  lemma EnsureDriveMarkerFrame(ds: Drives, actor: string, i: nat, runName: string, stableId: string, prefix: string,
                               dryRun: bool, placement: Placement)
    requires i < |ds.shared|
    ensures var r := EnsureDriveMarker(ds, actor, i, runName, stableId, prefix, dryRun, placement);
      && |r.0.shared| == |ds.shared| && r.0.shared[..i] == ds.shared[..i]
      && r.0.shared[i].name == ds.shared[i].name
      && forall u :: (placement == DriveRoot || u != actor) ==> MyDriveFiles(r.0, u) == MyDriveFiles(ds, u)
  {
    var r := EnsureDriveMarker(ds, actor, i, runName, stableId, prefix, dryRun, placement);
    assert forall j :: 0 <= j < i ==> r.0.shared[j] == ds.shared[j];
  }

  function MarkerName(prefix: string): string {
    prefix + " __gwsynth__"
  }

  /** Where a new marker for drive `i` is filed. */
  function MarkerPlace(actor: string, i: nat, placement: Placement): Place {
    if placement == DriveRoot then InShared(i) else InMyDrive(actor)
  }

  /**
    As sent, the marker never reaches the drive: a call on a drive without one files it in the
    acting user's My Drive, the drive still has no marker afterwards, and the next call files
    another.
  */
  lemma EnsureDriveMarkerRepeats(ds: Drives, actor: string, i: nat, runName: string, stableId: string, prefix: string)
    requires i < |ds.shared| && FindFile(ds.shared[i].files, MarkerQuery(stableId)).None?
    ensures var first := EnsureDriveMarker(ds, actor, i, runName, stableId, prefix, false, AsSent);
      var second := EnsureDriveMarker(first.0, actor, i, runName, stableId, prefix, false, AsSent);
      && |first.0.shared| == |ds.shared| && first.0.shared[i] == ds.shared[i]
      && |MyDriveFiles(first.0, actor)| == |MyDriveFiles(ds, actor)| + 1
      && |MyDriveFiles(second.0, actor)| == |MyDriveFiles(ds, actor)| + 2
      && second.1 != first.1
  {
    var first := EnsureDriveMarker(ds, actor, i, runName, stableId, prefix, false, AsSent);
    MarkerAsSent(ds, actor, i, runName, stableId, prefix);
    MarkerAsSent(first.0, actor, i, runName, stableId, prefix);
    var second := EnsureDriveMarker(first.0, actor, i, runName, stableId, prefix, false, AsSent);
    if second.1 == first.1 {
      NatToStringInjective(ds.nextId, ds.nextId + 1);
    }
  }

  /** One as-sent marker call on a drive without a marker: the drive is kept and one more file is in My Drive. */
  lemma MarkerAsSent(ds: Drives, actor: string, i: nat, runName: string, stableId: string, prefix: string)
    requires i < |ds.shared| && FindFile(ds.shared[i].files, MarkerQuery(stableId)).None?
    ensures var r := EnsureDriveMarker(ds, actor, i, runName, stableId, prefix, false, AsSent);
      && |r.0.shared| == |ds.shared| && r.0.shared[i] == ds.shared[i]
      && |MyDriveFiles(r.0, actor)| == |MyDriveFiles(ds, actor)| + 1
      && r.1 == NatToString(ds.nextId) && r.0.nextId == ds.nextId + 1
  {
    var r := EnsureDriveMarker(ds, actor, i, runName, stableId, prefix, false, AsSent);
    assert Filed(ds, r.0, InMyDrive(actor), File(ds.nextId, MarkerName(prefix), FolderMime, None, MarkerProps(runName, stableId), []));
  }

  /** Filed at the drive's root, the marker is found by the next call, which writes nothing. */
  lemma EnsureDriveMarkerIdempotent(ds: Drives, actor: string, i: nat, runName: string, stableId: string, prefix: string)
    requires i < |ds.shared|
    ensures var first := EnsureDriveMarker(ds, actor, i, runName, stableId, prefix, false, DriveRoot);
      i < |first.0.shared| && EnsureDriveMarker(first.0, actor, i, runName, stableId, prefix, false, DriveRoot) == first
  {
    var first := EnsureDriveMarker(ds, actor, i, runName, stableId, prefix, false, DriveRoot);
    if FindFile(ds.shared[i].files, MarkerQuery(stableId)).None? {
      var f := File(ds.nextId, MarkerName(prefix), FolderMime, None, MarkerProps(runName, stableId), []);
      MarkerMatchesQuery(f, runName, stableId);
      assert first.0.shared[i].files == ds.shared[i].files + [f];
      FindFileAppend(ds.shared[i].files, f, MarkerQuery(stableId));
    }
  }

  /**
    `ensure_folder`: the id of the first file in the scope already carrying `props`; `None` in
    a dry run; otherwise the id of one new folder carrying exactly `props`, filed under its
    parent or, with none, as `placement` says. A parent the caller cannot see fails, and so
    does a lookup Drive refuses as written.
  */
  function EnsureFolder(ds: Drives, actor: string, scope: Scope, name: string, parent: Option<nat>, props: Props,
                        dryRun: bool, placement: Placement, quoting: Quoting): (r: (Drives, Result<Option<nat>>))
    requires ValidScope(ds, scope)
    ensures !Sendable(props, quoting) ==> r == (ds, Failure("HttpError 400"))
    ensures Sendable(props, quoting) ==>
      var files := ScopeFiles(ds, actor, scope);
      var found := FindFile(files, props);
      var land := Landing(ds, actor, scope, parent, placement);
      && (found.Some? ==> r == (ds, Success(Some(files[found.value].id))))
      && (found.None? && dryRun ==> r == (ds, Success(None)))
      && (found.None? && !dryRun && land.Failure? ==> r.0 == ds && r.1.Failure?)
      && (found.None? && !dryRun && land.Success? ==>
            r.1 == Success(Some(ds.nextId)) && Filed(ds, r.0, land.value, File(ds.nextId, name, FolderMime, parent, props, [])))
  {
    var (ds1, res) := Ensure(ds, actor, scope, props, name, FolderMime, parent, props, dryRun, placement, quoting);
    match res
    case Success((id, _)) => (ds1, Success(id))
    case Failure(e) => (ds1, Failure(e))
  }

  /**
    With a dict's unique keys, a second call writes nothing exactly when the first found the
    folder or filed it in the store it searched: always for a call on the caller's own files,
    and on a shared drive when the parent is in the drive, or there is none and it is filed at
    the drive's root. A parentless folder filed in My Drive is missed, and filed again. Tags
    refused as written are refused on every call, and nothing is ever filed.
  */
  lemma EnsureFolderIdempotent(ds: Drives, actor: string, scope: Scope, name: string, parent: Option<nat>, props: Props,
                               placement: Placement, quoting: Quoting)
    requires ValidScope(ds, scope) && UniqueKeys(props)
    ensures var first := EnsureFolder(ds, actor, scope, name, parent, props, false, placement, quoting);
      var land := Landing(ds, actor, scope, parent, placement);
      && (!Sendable(props, quoting) ==>
            first == (ds, Failure("HttpError 400")) && EnsureFolder(first.0, actor, scope, name, parent, props, false, placement, quoting) == first)
      && (first.1.Success? ==>
        ((ValidScope(first.0, scope) && EnsureFolder(first.0, actor, scope, name, parent, props, false, placement, quoting) == first) <==>
          (FindFile(ScopeFiles(ds, actor, scope), props).Some? || land == Success(ScopePlace(actor, scope)))))
  {
    var f := File(ds.nextId, name, FolderMime, parent, props, []);
    MatchesOwnProps(f);
    EnsureAgain(ds, actor, scope, name, FolderMime, parent, props, props, placement, quoting);
  }

  /**
    As sent, a folder with no parent asked for on a shared drive never reaches the drive: a call
    that does not find it there files it in the acting user's My Drive, the drive is left as it
    was, and the next call files another folder under a new id. This holds whenever the
    lookup is accepted: always once escaped, and as written for quotable tags.
  */
  lemma ParentlessFolderRepeats(ds: Drives, actor: string, i: nat, name: string, props: Props, quoting: Quoting)
    requires i < |ds.shared| && UniqueKeys(props) && FindFile(ds.shared[i].files, props).None?
    ensures var first := EnsureFolder(ds, actor, DriveScope(i), name, None, props, false, AsSent, quoting);
      var second := EnsureFolder(first.0, actor, DriveScope(i), name, None, props, false, AsSent, quoting);
      Sendable(props, quoting) ==>
      && i < |first.0.shared| && first.0.shared[i] == ds.shared[i]
      && first.1 == Success(Some(ds.nextId)) && second.1 == Success(Some(ds.nextId + 1))
      && |MyDriveFiles(second.0, actor)| == |MyDriveFiles(ds, actor)| + 2
  {
    var f := File(ds.nextId, name, FolderMime, None, props, []);
    MatchesOwnProps(f);
    EnsureAgain(ds, actor, DriveScope(i), name, FolderMime, None, props, props, AsSent, quoting);
  }

  /**
    `ensure_doc_file`: `(existing id, false)`, `(None, true)` in a dry run, or `(new id, true)`;
    a lookup Drive refuses as written fails with nothing written.
  */
  function EnsureDocFile(ds: Drives, actor: string, scope: Scope, name: string, parent: Option<nat>, props: Props,
                         dryRun: bool, placement: Placement, quoting: Quoting): (r: (Drives, Result<(Option<nat>, bool)>))
    requires ValidScope(ds, scope)
    ensures !Sendable(props, quoting) ==> r == (ds, Failure("HttpError 400"))
    ensures Sendable(props, quoting) ==>
      var files := ScopeFiles(ds, actor, scope);
      var found := FindFile(files, props);
      var land := Landing(ds, actor, scope, parent, placement);
      && (r.1.Success? ==> (r.1.value.1 <==> found.None?))
      && (found.Some? ==> r == (ds, Success((Some(files[found.value].id), false))))
      && (found.None? && dryRun ==> r == (ds, Success((None, true))))
      && (found.None? && !dryRun && land.Failure? ==> r.0 == ds && r.1.Failure?)
      && (found.None? && !dryRun && land.Success? ==>
            r.1 == Success((Some(ds.nextId), true)) && Filed(ds, r.0, land.value, File(ds.nextId, name, DocMime, parent, props, [])))
  {
    Ensure(ds, actor, scope, props, name, DocMime, parent, props, dryRun, placement, quoting)
  }

  /**
    A second call finds the document and writes nothing exactly when the first filed it in the
    store it searched. Tags refused as written are refused on every call.
  */
  lemma EnsureDocFileIdempotent(ds: Drives, actor: string, scope: Scope, name: string, parent: Option<nat>, props: Props,
                                placement: Placement, quoting: Quoting)
    requires ValidScope(ds, scope) && UniqueKeys(props)
    ensures var first := EnsureDocFile(ds, actor, scope, name, parent, props, false, placement, quoting);
      var land := Landing(ds, actor, scope, parent, placement);
      && (!Sendable(props, quoting) ==>
            first == (ds, Failure("HttpError 400")) && EnsureDocFile(first.0, actor, scope, name, parent, props, false, placement, quoting) == first)
      && (first.1.Success? ==>
        ((ValidScope(first.0, scope)
          && EnsureDocFile(first.0, actor, scope, name, parent, props, false, placement, quoting) == (first.0, Success((first.1.value.0, false)))) <==>
          (FindFile(ScopeFiles(ds, actor, scope), props).Some? || land == Success(ScopePlace(actor, scope)))))
  {
    var f := File(ds.nextId, name, DocMime, parent, props, []);
    MatchesOwnProps(f);
    EnsureAgain(ds, actor, scope, name, DocMime, parent, props, props, placement, quoting);
  }

  /**
    `ensure_doc_file` seen from the store it searches, for a call whose new document is filed
    in that store and whose lookup Drive accepts: `(existing id, false)`, `(None, true)` in a
    dry run, or `(new id, true)`.
  */
  function EnsureDocIn(sp: Space, name: string, parent: Option<nat>, props: Props, dryRun: bool): (r: (Space, (Option<nat>, bool)))
    ensures var found := FindFile(sp.files, props);
      && (r.1.1 <==> found.None?)
      && (found.Some? ==> r == (sp, (Some(sp.files[found.value].id), false)))
      && (found.None? && dryRun ==> r == (sp, (None, true)))
      && (found.None? && !dryRun ==> (
            && r.0.files == sp.files + [File(sp.nextId, name, DocMime, parent, props, [])]
            && r.0.nextId == sp.nextId + 1 && r.1.0 == Some(sp.nextId)))
  {
    match FindFile(sp.files, props)
    case Some(i) => (sp, (Some(sp.files[i].id), false))
    case None =>
      if dryRun then (sp, (None, true))
      else
        var (sp', id) := CreateFile(sp, name, DocMime, parent, props);
        (sp', (Some(id), true))
  }

  /**
    Where the document is filed in the store searched and the lookup is accepted, `EnsureDocFile`
    is `EnsureDocIn` on that store: the same answer, the same files there, and nothing changed
    anywhere else. A lookup refused as written fails instead.
  */
  lemma EnsureDocFileInScope(ds: Drives, actor: string, scope: Scope, name: string, parent: Option<nat>, props: Props,
                             dryRun: bool, placement: Placement, quoting: Quoting)
    requires ValidScope(ds, scope)
    requires Landing(ds, actor, scope, parent, placement) == Success(ScopePlace(actor, scope))
    ensures var r := EnsureDocFile(ds, actor, scope, name, parent, props, dryRun, placement, quoting);
      !Sendable(props, quoting) ==> r == (ds, Failure("HttpError 400"))
    ensures var r := EnsureDocFile(ds, actor, scope, name, parent, props, dryRun, placement, quoting);
      var s := EnsureDocIn(Space(ScopeFiles(ds, actor, scope), ds.nextId), name, parent, props, dryRun);
      Sendable(props, quoting) ==>
      && r.1 == Success(s.1) && ValidScope(r.0, scope)
      && ScopeFiles(r.0, actor, scope) == s.0.files && r.0.nextId == s.0.nextId
      && Elsewhere(ds, r.0, ScopePlace(actor, scope))
  {
  }

  /**
    How Drive applies the `appProperties` of an update to a file's tags: each key sent is set
    (in place when the file has it, appended otherwise), and every key not sent is kept.
  */
  function Merge(tags: Props, sent: Props): (r: Props)
    ensures |tags| <= |r|
    decreases |sent|
  {
    if |sent| == 0 then tags else Merge(Set(tags, sent[0].0, sent[0].1), sent[1..])
  }

  /** After a merge, a key sent reads as sent and every other key reads as before. */
  lemma {:induction false} GetMerge(tags: Props, sent: Props, k: string)
    requires UniqueKeys(sent)
    ensures Get(Merge(tags, sent), k) == if HasKey(sent, k) then Get(sent, k) else Get(tags, k)
    decreases |sent|
  {
    if |sent| > 0 {
      var (k0, v0) := sent[0];
      var rest := sent[1..];
      HeadNotInTail(sent);
      GetMerge(Set(tags, k0, v0), rest, k);
      GetAfterSet(tags, k0, v0, k);
      if k == k0 {
        assert HasKey(sent, k) && Get(sent, k) == Some(v0);
      } else {
        GetTail(sent, k);
      }
    }
  }

  /** Merging tags a file already carries changes nothing. */
  lemma {:induction false} MergeCarried(tags: Props, sent: Props)
    requires forall i :: 0 <= i < |sent| ==> Get(tags, sent[i].0) == Some(sent[i].1)
    ensures Merge(tags, sent) == tags
    decreases |sent|
  {
    if |sent| > 0 {
      SetCarried(tags, sent[0].0, sent[0].1);
      assert forall i :: 0 <= i < |sent[1..]| ==> sent[1..][i] == sent[i + 1];
      MergeCarried(tags, sent[1..]);
    }
  }

  /** Setting a key to the value it already reads as changes nothing. */
  lemma {:induction false} SetCarried(d: Props, k: string, v: string)
    requires Get(d, k) == Some(v)
    ensures Set(d, k, v) == d
    decreases |d|
  {
    if d[0].0 != k {
      SetCarried(d[1..], k, v);
      assert d == [d[0]] + d[1..];
    }
  }

  /** `files().update(body={"appProperties": ...})`: merge the tags sent into the file with this id. */
  function UpdateAppProperties(sp: Space, fileId: nat, props: Props): (r: Space)
    ensures r.nextId == sp.nextId && |r.files| == |sp.files|
    ensures forall i :: 0 <= i < |sp.files| ==>
      r.files[i] == (if sp.files[i].id == fileId then sp.files[i].(props := Merge(sp.files[i].props, props)) else sp.files[i])
  {
    Space(seq(|sp.files|, i requires 0 <= i < |sp.files| =>
      if sp.files[i].id == fileId then sp.files[i].(props := Merge(sp.files[i].props, props)) else sp.files[i]), sp.nextId)
  }

  /**
    After an update the file with the id carries every tag sent, keeps every tag not sent, and
    no other file changes.
  */
  lemma UpdateAppPropertiesTags(sp: Space, fileId: nat, props: Props, i: nat, k: string)
    requires UniqueKeys(props) && i < |sp.files|
    ensures var f := UpdateAppProperties(sp, fileId, props).files[i];
      && (sp.files[i].id == fileId ==>
            && Matches(f, props)
            && (!HasKey(props, k) ==> Get(f.props, k) == Get(sp.files[i].props, k)))
      && (sp.files[i].id != fileId ==> f == sp.files[i])
  {
    var f := UpdateAppProperties(sp, fileId, props).files[i];
    if sp.files[i].id == fileId {
      GetMerge(sp.files[i].props, props, k);
      forall j | 0 <= j < |props| ensures Get(f.props, props[j].0) == Some(props[j].1) {
        GetMerge(sp.files[i].props, props, props[j].0);
        GetOfUnique(props, j);
      }
    }
  }

  // ----- Deletion -----

  /** The files without the one carrying `fileId`, in order. */
  function Without(files: seq<File>, fileId: nat): (r: seq<File>)
    ensures |r| <= |files|
    ensures forall i :: 0 <= i < |r| ==> r[i].id != fileId && r[i] in files
    ensures forall i :: 0 <= i < |files| && files[i].id != fileId ==> files[i] in r
  {
    if |files| == 0 then []
    else
      var rest := Without(files[1..], fileId);
      assert forall i :: 1 <= i < |files| ==> files[i] == files[1..][i - 1];
      if files[0].id == fileId then rest else [files[0]] + rest
  }

  predicate HasFile(files: seq<File>, fileId: nat) {
    exists i :: 0 <= i < |files| && files[i].id == fileId
  }

  /** The ids of the files. */
  function IdSet(files: seq<File>): (s: set<nat>)
    ensures forall id :: id in s <==> exists i :: 0 <= i < |files| && files[i].id == id
  {
    if |files| == 0 then {}
    else
      assert forall i :: 1 <= i < |files| ==> files[i] == files[1..][i - 1];
      {files[0].id} + IdSet(files[1..])
  }

  /** The files whose id is not in `ids`, in order. */
  function Remove(files: seq<File>, ids: set<nat>): (r: seq<File>)
    ensures |r| <= |files|
    ensures forall i :: 0 <= i < |r| ==> r[i] in files && r[i].id !in ids
    ensures forall i :: 0 <= i < |files| && files[i].id !in ids ==> files[i] in r
  {
    if |files| == 0 then []
    else
      var rest := Remove(files[1..], ids);
      assert forall i :: 1 <= i < |files| ==> files[i] == files[1..][i - 1];
      if files[0].id in ids then rest else [files[0]] + rest
  }

  lemma {:induction false} WithoutIsRemove(files: seq<File>, id: nat)
    ensures Without(files, id) == Remove(files, {id})
  {
    if |files| > 0 {
      WithoutIsRemove(files[1..], id);
    }
  }

  lemma {:induction false} RemoveNothing(files: seq<File>)
    ensures Remove(files, {}) == files
  {
    if |files| > 0 {
      RemoveNothing(files[1..]);
      assert files == [files[0]] + files[1..];
    }
  }

  /** Removing two id sets one after the other removes their union. */
  lemma {:induction false} RemoveRemove(files: seq<File>, a: set<nat>, b: set<nat>)
    ensures Remove(Remove(files, a), b) == Remove(files, a + b)
  {
    if |files| > 0 {
      RemoveRemove(files[1..], a, b);
      if files[0].id !in a {
        assert Remove(files, a)[0] == files[0];
        assert Remove(files, a)[1..] == Remove(files[1..], a);
      }
    }
  }

  /** Ids no file carries change nothing. */
  lemma {:induction false} RemoveUnused(files: seq<File>, a: set<nat>, b: set<nat>)
    requires forall i :: 0 <= i < |files| ==> files[i].id !in b
    ensures Remove(files, a + b) == Remove(files, a)
  {
    if |files| > 0 {
      assert forall i :: 1 <= i < |files| ==> files[i] == files[1..][i - 1];
      RemoveUnused(files[1..], a, b);
    }
  }

  /** The ids of the files filed directly in a file of `s`. */
  function Children(files: seq<File>, s: set<nat>): (r: set<nat>)
    ensures forall id :: id in r <==>
      exists i :: 0 <= i < |files| && files[i].id == id && files[i].parent.Some? && files[i].parent.value in s
  {
    if |files| == 0 then {}
    else
      assert forall i :: 1 <= i < |files| ==> files[i] == files[1..][i - 1];
      (if files[0].parent.Some? && files[0].parent.value in s then {files[0].id} else {}) + Children(files[1..], s)
  }

  /**
    `s` with everything filed below it, at any depth: what deleting the files of `s` takes with
    it. The result contains `s` and every child of its members.
  */
  function Cascade(files: seq<File>, s: set<nat>): (r: set<nat>)
    ensures s <= r && Children(files, r) <= r
    decreases |IdSet(files) - s|
  {
    var added := Children(files, s) - s;
    if added == {} then s
    else
      ShrinkingSet(IdSet(files), s, added);
      Cascade(files, s + added)
  }

  lemma ShrinkingSet(all: set<nat>, s: set<nat>, added: set<nat>)
    requires added != {} && added <= all && added !! s
    ensures |all - (s + added)| < |all - s|
  {
    var x :| x in added;
    SubsetCard(all - (s + added), (all - s) - {x});
  }

  lemma {:induction false} SubsetCard(a: set<nat>, b: set<nat>)
    requires a <= b
    ensures |a| <= |b|
    decreases |a|
  {
    if a != {} {
      var x :| x in a;
      SubsetCard(a - {x}, b - {x});
    }
  }

  lemma ChildrenMono(files: seq<File>, s: set<nat>, t: set<nat>)
    requires s <= t
    ensures Children(files, s) <= Children(files, t)
  {
  }

  /** The cascade is the least set holding `s` that keeps every child of its members. */
  lemma {:induction false} CascadeLeast(files: seq<File>, s: set<nat>, t: set<nat>)
    requires s <= t && Children(files, t) <= t
    ensures Cascade(files, s) <= t
    decreases |IdSet(files) - s|
  {
    var added := Children(files, s) - s;
    if added != {} {
      ChildrenMono(files, s, t);
      ShrinkingSet(IdSet(files), s, added);
      CascadeLeast(files, s + added, t);
    }
  }

  lemma CascadeMono(files: seq<File>, s: set<nat>, t: set<nat>)
    requires s <= t
    ensures Cascade(files, s) <= Cascade(files, t)
  {
    CascadeLeast(files, s, Cascade(files, t));
  }

  /** A set already holding the children of its members is its own cascade. */
  lemma CascadeClosed(files: seq<File>, s: set<nat>)
    requires Children(files, s) <= s
    ensures Cascade(files, s) == s
  {
    CascadeLeast(files, s, s);
  }

  /** Removing files never adds children. */
  lemma ChildrenRemove(files: seq<File>, d: set<nat>, t: set<nat>)
    ensures Children(Remove(files, d), t) <= Children(files, t)
  {
    var rest := Remove(files, d);
    forall id | id in Children(rest, t) ensures id in Children(files, t) {
      var i :| 0 <= i < |rest| && rest[i].id == id && rest[i].parent.Some? && rest[i].parent.value in t;
      var k :| 0 <= k < |files| && files[k] == rest[i];
    }
  }

  /**
    Deleting the cascade of `a` and then, among the files left, the cascade of `s` deletes
    exactly the cascade of both.
  */
  lemma CascadeAfter(files: seq<File>, a: set<nat>, s: set<nat>)
    ensures Cascade(files, a) + Cascade(Remove(files, Cascade(files, a)), s) == Cascade(files, a + s)
  {
    var d := Cascade(files, a);
    var rest := Remove(files, d);
    var t := Cascade(files, a + s);
    CascadeMono(files, a, a + s);
    ChildrenRemove(files, d, t);
    CascadeLeast(rest, s, t);
    var c := Cascade(rest, s);
    var u := d + c;
    forall id | id in Children(files, u) ensures id in u {
      var i :| 0 <= i < |files| && files[i].id == id && files[i].parent.Some? && files[i].parent.value in u;
      if id !in d {
        assert files[i] in rest;
        var j :| 0 <= j < |rest| && rest[j] == files[i];
        assert id in Children(rest, c);
      }
    }
    CascadeLeast(files, a + s, u);
  }

  /** The ids left after removing `d` are the ids there were, less `d`. */
  lemma IdSetRemove(files: seq<File>, d: set<nat>)
    ensures IdSet(Remove(files, d)) == IdSet(files) - d
  {
    var rest := Remove(files, d);
    forall x | x in IdSet(files) - d ensures x in IdSet(rest) {
      var i :| 0 <= i < |files| && files[i].id == x;
      var j :| 0 <= j < |rest| && rest[j] == files[i];
    }
    forall x | x in IdSet(rest) ensures x in IdSet(files) - d {
      var j :| 0 <= j < |rest| && rest[j].id == x;
      var i :| 0 <= i < |files| && files[i] == rest[j];
    }
  }

  /** Removing every id the files carry leaves nothing. */
  lemma {:induction false} RemoveAll(files: seq<File>, s: set<nat>)
    requires IdSet(files) <= s
    ensures Remove(files, s) == []
  {
    if |files| > 0 {
      RemoveAll(files[1..], s);
    }
  }

  lemma CascadeEmpty(files: seq<File>)
    ensures Cascade(files, {}) == {}
  {
    CascadeClosed(files, {});
  }

  /** Adding to `s` ids its cascade already takes changes nothing. */
  lemma CascadeAbsorbs(files: seq<File>, s: set<nat>, t: set<nat>)
    requires s <= t <= Cascade(files, s)
    ensures Cascade(files, t) == Cascade(files, s)
  {
    CascadeMono(files, s, t);
    CascadeLeast(files, t, Cascade(files, s));
  }

  /** Beyond `s`, the cascade takes only files that are filed in some folder. */
  lemma CascadeParented(files: seq<File>, s: set<nat>, x: nat)
    requires x in Cascade(files, s) && x !in s
    ensures exists i :: 0 <= i < |files| && files[i].id == x && files[i].parent.Some?
  {
    var t := s + set i | 0 <= i < |files| && files[i].parent.Some? :: files[i].id;
    CascadeLeast(files, s, t);
  }

  /**
    `delete_file`: a dry run answers `true` and calls nothing; otherwise Drive deletes the file
    and, when it is a folder, everything filed below it. A missing file is the service's 404,
    which the source propagates.
  */
  function DeleteFile(sp: Space, fileId: nat, dryRun: bool): (r: (Space, Result<bool>))
    ensures r.0.nextId == sp.nextId && forall i :: 0 <= i < |r.0.files| ==> r.0.files[i] in sp.files
    ensures dryRun ==> r == (sp, Success(true))
    ensures !dryRun ==> (r.1.Success? <==> HasFile(sp.files, fileId))
    ensures r.1.Failure? ==> r.0 == sp
  {
    if dryRun then (sp, Success(true))
    else if HasFile(sp.files, fileId) then (sp.(files := Remove(sp.files, Cascade(sp.files, {fileId}))), Success(true))
    else (sp, Failure("HttpError 404"))
  }

  /**
    A delete takes the file and its whole subtree and nothing more: the file is gone, no file
    left is filed in a file that went, and every file outside any set that holds the file and
    the children of its members is kept.
  */
  lemma DeleteFileCascades(sp: Space, fileId: nat, t: set<nat>)
    requires HasFile(sp.files, fileId)
    ensures var left := DeleteFile(sp, fileId, false).0.files;
      && !HasFile(left, fileId)
      && (forall i, j :: (0 <= i < |sp.files| && 0 <= j < |sp.files| && sp.files[i].parent == Some(sp.files[j].id)
            && sp.files[j] !in left) ==> sp.files[i] !in left)
      && (fileId in t && Children(sp.files, t) <= t ==>
            forall i :: 0 <= i < |sp.files| && sp.files[i].id !in t ==> sp.files[i] in left)
  {
    var c := Cascade(sp.files, {fileId});
    var left := Remove(sp.files, c);
    forall i, j | 0 <= i < |sp.files| && 0 <= j < |sp.files| && sp.files[i].parent == Some(sp.files[j].id)
        && sp.files[j] !in left
      ensures sp.files[i] !in left
    {
      assert sp.files[j].id in c;
      assert sp.files[i].id in Children(sp.files, c);
    }
    if fileId in t && Children(sp.files, t) <= t {
      CascadeLeast(sp.files, {fileId}, t);
    }
  }

  /** Deleting a file nothing is filed in removes exactly that file. */
  lemma DeleteLeaf(sp: Space, fileId: nat)
    requires HasFile(sp.files, fileId) && Children(sp.files, {fileId}) == {}
    ensures DeleteFile(sp, fileId, false) == (sp.(files := Without(sp.files, fileId)), Success(true))
  {
    CascadeClosed(sp.files, {fileId});
    WithoutIsRemove(sp.files, fileId);
  }

  function DriveIndex(shared: seq<SharedDrive>, driveId: nat): (r: Option<nat>)
    ensures r.Some? ==> r.value < |shared| && shared[r.value].id == driveId
    ensures r.None? ==> forall j :: 0 <= j < |shared| ==> shared[j].id != driveId
  {
    if |shared| == 0 then None
    else if shared[0].id == driveId then Some(0)
    else match DriveIndex(shared[1..], driveId)
      case None => None
      case Some(k) => Some(k + 1)
  }

  /**
    `delete_drive`: a dry run changes nothing. Otherwise the call sends neither
    `allowItemDeletion` nor `useDomainAdminAccess`, so Drive deletes only an empty shared drive
    and refuses one that still holds a file (a 403); a drive it cannot find is a 404.
  */
  function DeleteDrive(ds: Drives, driveId: nat, dryRun: bool): (r: (Drives, Result<bool>))
    ensures dryRun ==> r == (ds, Success(true))
    ensures r.0.myDrives == ds.myDrives && r.0.nextId == ds.nextId
    ensures r.1.Failure? ==> r.0 == ds
    ensures !dryRun ==> (r.1.Success? <==>
      DriveIndex(ds.shared, driveId).Some? && ds.shared[DriveIndex(ds.shared, driveId).value].files == [])
    ensures !dryRun && r.1.Success? ==> (
      var i := DriveIndex(ds.shared, driveId).value;
      r.0.shared == ds.shared[..i] + ds.shared[i + 1..])
    ensures !dryRun && DriveIndex(ds.shared, driveId).None? ==> r == (ds, Failure("HttpError 404"))
    ensures !dryRun && DriveIndex(ds.shared, driveId).Some? && ds.shared[DriveIndex(ds.shared, driveId).value].files != [] ==>
      r == (ds, Failure("HttpError 403"))
  {
    if dryRun then (ds, Success(true))
    else match DriveIndex(ds.shared, driveId)
      case Some(i) =>
        if ds.shared[i].files == [] then (ds.(shared := ds.shared[..i] + ds.shared[i + 1..]), Success(true))
        else (ds, Failure("HttpError 403"))
      case None => (ds, Failure("HttpError 404"))
  }

  // ----- Permissions -----

  /** `_permission_exists`: role and type match, and the address too when one is given. */
  predicate PermissionMatches(p: Permission, role: string, kind: string, email: Option<string>) {
    p.role == role && p.kind == kind && (!Truthy(email) || p.email == email)
  }

  function PermissionExists(perms: seq<Permission>, role: string, kind: string, email: Option<string>): (r: bool)
    ensures r <==> exists i :: 0 <= i < |perms| && PermissionMatches(perms[i], role, kind, email)
  {
    if |perms| == 0 then false
    else if PermissionMatches(perms[0], role, kind, email) then true
    else
      assert forall i :: 1 <= i < |perms| ==> perms[i] == perms[1..][i - 1];
      PermissionExists(perms[1..], role, kind, email)
  }

  /** The permission `ensure_permission` creates: the address is sent only when truthy. */
  function NewPermission(role: string, kind: string, email: Option<string>): Permission {
    Permission(role, kind, if Truthy(email) then email else None)
  }

  /** `ensure_permission`: `true` iff no matching permission existed; created unless dry-run. */
  function EnsurePermission(perms: seq<Permission>, role: string, kind: string, email: Option<string>,
                            dryRun: bool): (r: (seq<Permission>, bool))
    ensures r.1 <==> !PermissionExists(perms, role, kind, email)
    ensures !r.1 || dryRun ==> r.0 == perms
    ensures r.1 && !dryRun ==> r.0 == perms + [NewPermission(role, kind, email)]
  {
    if PermissionExists(perms, role, kind, email) then (perms, false)
    else if dryRun then (perms, true)
    else (perms + [NewPermission(role, kind, email)], true)
  }

  /** A created permission satisfies the next existence check. */
  lemma EnsurePermissionIdempotent(perms: seq<Permission>, role: string, kind: string, email: Option<string>)
    ensures var (p1, _) := EnsurePermission(perms, role, kind, email, false);
      EnsurePermission(p1, role, kind, email, false) == (p1, false)
  {
    var (p1, created) := EnsurePermission(perms, role, kind, email, false);
    if created {
      assert PermissionMatches(p1[|perms|], role, kind, email);
    }
  }
}
