/**
  Directory reconciliation: org units, users and groups. A group belongs to a run when its
  description carries the run's tag; a user belongs to it when it sits in the run's org unit.
*/
module GoogleAdmin {
  import opened Wrappers
  import opened Strings
  import opened Tenant

  const GroupTagPrefix := "gwsynth_run:"

  /**
    The outcome of one user or group sync. The source keeps four independent flags; every
    ensure function below sets exactly one of them.
  */
  datatype SyncResult = SyncResult(email: string, created: bool, updated: bool, skipped: bool, conflict: bool)

  predicate ExactlyOneFlag(r: SyncResult) {
    (if r.created then 1 else 0) + (if r.updated then 1 else 0)
    + (if r.skipped then 1 else 0) + (if r.conflict then 1 else 0) == 1
  }

  function CreatedResult(email: string): SyncResult { SyncResult(email, true, false, false, false) }
  function UpdatedResult(email: string): SyncResult { SyncResult(email, false, true, false, false) }
  function ConflictResult(email: string): SyncResult { SyncResult(email, false, false, false, true) }

  // ----- Group tags -----

  function GroupTag(runName: string): string {
    GroupTagPrefix + runName
  }

  predicate HasGroupTag(description: string, runName: string) {
    Contains(description, GroupTag(runName))
  }

  function TagDescription(description: string, runName: string): (r: string)
    ensures HasGroupTag(description, runName) ==> r == description
    ensures HasGroupTag(r, runName)
  {
    var tag := GroupTag(runName);
    if Contains(description, tag) then description
    else
      var s := description + " [" + tag + "]";
      TagSurvivesStrip(description, tag);
      Trim(s)
  }

  lemma {:induction false} TagSurvivesStrip(description: string, tag: string)
    ensures Contains(Trim(description + " [" + tag + "]"), tag)
  {
    var b := "[" + tag + "]";
    assert description + " [" + tag + "]" == description + " " + b;
    TrimKeepsBracket(description, b);
    BracketContainsTag(tag);
    ContainsTransitive(Trim(description + " " + b), b, tag);
  }

  lemma {:induction false} TrimKeepsBracket(description: string, b: string)
    requires |b| >= 2 && b[0] == '[' && b[|b| - 1] == ']'
    ensures Contains(Trim(description + " " + b), b)
  {
    var s := description + " " + b;
    var lo := |description| + 1;
    assert s[lo..|s|] == b;
    assert s[lo] == b[0] && s[|s| - 1] == b[|b| - 1];
    assert !IsSpace('[') && !IsSpace(']');
    TrimKeepsInterior(s, lo, |s|);
  }

  lemma {:induction false} BracketContainsTag(tag: string)
    ensures Contains("[" + tag + "]", tag)
  {
    var b := "[" + tag + "]";
    assert b[1..1 + |tag|] == tag;
    ContainsAt(b, tag, 1);
  }

  /** Tagging twice is the same as tagging once. */
  lemma TagDescriptionIdempotent(description: string, runName: string)
    ensures TagDescription(TagDescription(description, runName), runName) == TagDescription(description, runName)
  {
  }

  // ----- Org units -----

  /** The path of the org unit `name` under `parent`. */
  function OuPathOf(parent: string, name: string): string {
    if parent == "/" then "/" + name else parent + "/" + name
  }

  /**
    `_split_ou_path`: the parent path and the last segment. Padding, repeated and trailing '/'
    are dropped, so parent and name join back to the path written canonically.
  */
  function SplitOuPath(path: string): (r: Result<(string, string)>)
    ensures r.Success? <==> StartsWith(Trim(path), "/") && NonEmptyParts(Trim(path), '/') != []
    ensures r.Success? ==> r.value.1 != [] && '/' !in r.value.1 && StartsWith(r.value.0, "/")
    ensures r.Success? ==> var parts := NonEmptyParts(Trim(path), '/');
      && r.value.1 == parts[|parts| - 1]
      && OuPathOf(r.value.0, r.value.1) == "/" + Join(parts, "/")
  {
    var stripped := Trim(path);
    if !StartsWith(stripped, "/") then Failure("OU path must start with '/'")
    else
      var parts := NonEmptyParts(stripped, '/');
      if parts == [] then Failure("OU path cannot be root")
      else
        var name := parts[|parts| - 1];
        var parent := if |parts| > 1 then "/" + Join(parts[..|parts| - 1], "/") else "/";
        ParentThenName(parts);
        Success((parent, name))
  }

  /** The parent `_split_ou_path` builds, joined with the last part, spells every part in order. */
  lemma {:induction false} ParentThenName(parts: seq<string>)
    requires |parts| >= 1 && forall i :: 0 <= i < |parts| ==> parts[i] != []
    ensures var parent := if |parts| > 1 then "/" + Join(parts[..|parts| - 1], "/") else "/";
      OuPathOf(parent, parts[|parts| - 1]) == "/" + Join(parts, "/")
  {
    var n := |parts|;
    if n > 1 {
      assert parts == parts[..n - 1] + [parts[n - 1]];
      JoinSnoc(parts[..n - 1], parts[n - 1], "/");
      assert Join(parts[..n - 1], "/") != [] by {
        JoinNonEmpty(parts[..n - 1], "/");
      }
    }
  }

  /** A path with no padding, no empty segment and no trailing '/'. */
  predicate CanonicalOuPath(path: string, segments: seq<string>) {
    |segments| >= 1
    && (forall i :: 0 <= i < |segments| ==> segments[i] != [] && '/' !in segments[i])
    && path == "/" + Join(segments, "/")
    && Trim(path) == path
  }

  /** The segments of a canonical path are exactly its non-empty '/'-separated parts. */
  lemma {:induction false} CanonicalParts(path: string, segments: seq<string>)
    requires CanonicalOuPath(path, segments)
    ensures NonEmptyParts(path, '/') == segments
  {
    var all := [""] + segments;
    assert Join(all, "/") == path;
    forall i | 0 <= i < |all| ensures '/' !in all[i] {
      if i > 0 { assert all[i] == segments[i - 1]; }
    }
    SplitJoin(all, '/');
    assert all[1..] == segments;
    assert FilterNonEmpty(all) == FilterNonEmpty(segments);
    NonEmptyKept(segments);
  }

  /** Splitting a canonical path and re-joining parent and name gives the path back. */
  lemma {:induction false} SplitOuPathRoundTrip(path: string, segments: seq<string>)
    requires CanonicalOuPath(path, segments)
    ensures SplitOuPath(path).Success?
    ensures var (parent, name) := SplitOuPath(path).value; OuPathOf(parent, name) == path
  {
    CanonicalParts(path, segments);
    assert StartsWith(path, "/") by { assert path[..1] == "/"; }
  }

  lemma {:induction false} NonEmptyKept(xs: seq<string>)
    requires forall i :: 0 <= i < |xs| ==> xs[i] != []
    ensures FilterNonEmpty(xs) == xs
  {
    if |xs| > 0 {
      NonEmptyKept(xs[1..]);
      assert xs == [xs[0]] + xs[1..];
    }
  }

  /** The root unit always exists; any other path exists when the directory holds it. */
  predicate UnitExists(dir: Directory, path: string) {
    path == "/" || path in dir.orgUnits
  }

  /**
    `ensure_org_unit`: `false` when the unit exists; `true` when it is missing, and then, unless
    a dry run, `orgunits.insert` under the parent `_split_ou_path` gives. The Directory API
    refuses an insert whose parent unit does not exist, and the exception leaves the call.
  */
  function EnsureOrgUnit(dir: Directory, ouPath: string, dryRun: bool): (r: (Directory, Result<bool>))
    ensures ouPath in dir.orgUnits ==> r == (dir, Success(false))
    ensures ouPath !in dir.orgUnits && dryRun ==> r == (dir, Success(true))
    ensures ouPath !in dir.orgUnits && !dryRun ==>
      (r.1.Success? <==> SplitOuPath(ouPath).Success? && UnitExists(dir, SplitOuPath(ouPath).value.0))
    ensures r.1.Failure? ==> r.0 == dir
    ensures r.0.users == dir.users && r.0.groups == dir.groups && r.0.licenses == dir.licenses
    ensures r.0.orgUnits != dir.orgUnits ==>
      && SplitOuPath(ouPath).Success? && UnitExists(dir, SplitOuPath(ouPath).value.0)
      && r.0.orgUnits == dir.orgUnits + {OuPathOf(SplitOuPath(ouPath).value.0, SplitOuPath(ouPath).value.1)}
  {
    if ouPath in dir.orgUnits then (dir, Success(false))
    else if dryRun then (dir, Success(true))
    else match SplitOuPath(ouPath)
      case Failure(e) => (dir, Failure(e))
      case Success((parent, name)) =>
        if !UnitExists(dir, parent) then (dir, Failure("HttpError 400"))
        else (dir.(orgUnits := dir.orgUnits + {OuPathOf(parent, name)}), Success(true))
  }

  /**
    For a canonical path, a real call succeeds exactly when the unit or its parent exists; the
    unit then exists and a second call changes nothing. A refused call leaves the directory as
    it was, so the next call is refused the same way.
  */
  lemma EnsureOrgUnitIdempotent(dir: Directory, ouPath: string, segments: seq<string>)
    requires CanonicalOuPath(ouPath, segments)
    ensures SplitOuPath(ouPath).Success?
    ensures var (d1, r1) := EnsureOrgUnit(dir, ouPath, false);
      && (r1.Success? <==> ouPath in dir.orgUnits || UnitExists(dir, SplitOuPath(ouPath).value.0))
      && (r1.Success? ==> ouPath in d1.orgUnits && EnsureOrgUnit(d1, ouPath, false) == (d1, Success(false)))
      && (r1.Failure? ==> EnsureOrgUnit(d1, ouPath, false) == (d1, r1))
  {
    SplitOuPathRoundTrip(ouPath, segments);
  }

  /** A canonical path splits into the path of all but its last segment and that segment. */
  lemma CanonicalSplit(path: string, segments: seq<string>)
    requires CanonicalOuPath(path, segments)
    ensures var n := |segments|;
      SplitOuPath(path) == Success((if n > 1 then "/" + Join(segments[..n - 1], "/") else "/", segments[n - 1]))
  {
    CanonicalParts(path, segments);
    assert StartsWith(path, "/") by { assert path[..1] == "/"; }
  }

  /**
    A unit two or more levels down whose parent unit is missing (the default "/Synthetic/Northwind"
    in a tenant without "/Synthetic") is refused, and nothing is written.
  */
  lemma MissingParentRefused(dir: Directory, ouPath: string, segments: seq<string>)
    requires CanonicalOuPath(ouPath, segments) && |segments| >= 2 && ouPath !in dir.orgUnits
    requires "/" + Join(segments[..|segments| - 1], "/") !in dir.orgUnits
    ensures EnsureOrgUnit(dir, ouPath, false) == (dir, Failure("HttpError 400"))
  {
    CanonicalSplit(ouPath, segments);
  }

  // ----- Users -----

  /** `_split_name`: given and family name from a display name. */
  function SplitName(displayName: string): (r: (string, string))
    ensures NonEmptyParts(displayName, ' ') == [] ==> r == ("Synthetic", "User")
    ensures |NonEmptyParts(displayName, ' ')| == 1 ==> r == (NonEmptyParts(displayName, ' ')[0], "User")
    ensures |NonEmptyParts(displayName, ' ')| > 1 ==>
      r.0 == NonEmptyParts(displayName, ' ')[0] && r.1 == Join(NonEmptyParts(displayName, ' ')[1..], " ")
    ensures r.0 != [] && r.1 != []
  {
    var parts := NonEmptyParts(displayName, ' ');
    if parts == [] then ("Synthetic", "User")
    else if |parts| == 1 then (parts[0], "User")
    else
      JoinNonEmpty(parts[1..], " ");
      (parts[0], Join(parts[1..], " "))
  }

  lemma JoinNonEmpty(parts: seq<string>, sep: string)
    requires |parts| >= 1 && parts[0] != []
    ensures Join(parts, sep) != []
  {
  }

  /** The fields `_user_payload` sends; `organizations` is omitted when department and title are both empty. */
  datatype UserPayload = UserPayload(
    primaryEmail: string, givenName: string, familyName: string, orgUnitPath: string,
    organizations: Option<seq<Organization>>)

  function MakeUserPayload(email: string, displayName: string, department: string, jobTitle: string,
                           ouPath: string): (p: UserPayload)
    ensures p.primaryEmail == email && p.orgUnitPath == ouPath
    ensures (p.givenName, p.familyName) == SplitName(displayName)
    ensures p.organizations.Some? <==> department != "" || jobTitle != ""
    ensures p.organizations.Some? ==> p.organizations.value == [Organization(department, jobTitle)]
  {
    var (given, family) := SplitName(displayName);
    UserPayload(email, given, family, ouPath,
      if department != "" || jobTitle != "" then Some([Organization(department, jobTitle)]) else None)
  }

  /** A `users.patch`: fields left out of the payload keep their value. */
  function PatchUser(u: User, p: UserPayload): User {
    User(p.givenName, p.familyName, Some(p.orgUnitPath), p.organizations.GetOr(u.organizations))
  }

  /** A `users.insert` (the random password is not part of the model). */
  function InsertedUser(p: UserPayload): User {
    User(p.givenName, p.familyName, Some(p.orgUnitPath), p.organizations.GetOr([]))
  }

  /** `ensure_user`: a user outside the run's org unit is a conflict and is never written. */
  function EnsureUser(dir: Directory, email: string, displayName: string, department: string,
                      jobTitle: string, ouPath: string, dryRun: bool): (r: (Directory, SyncResult))
    ensures r.1.email == email && ExactlyOneFlag(r.1) && !r.1.skipped
    ensures r.1.conflict <==> email in dir.users && dir.users[email].orgUnitPath != Some(ouPath)
    ensures r.1.created <==> email !in dir.users
    ensures r.1.updated <==> email in dir.users && dir.users[email].orgUnitPath == Some(ouPath)
    ensures r.1.conflict || dryRun ==> r.0 == dir
    ensures r.0.groups == dir.groups && r.0.orgUnits == dir.orgUnits && r.0.licenses == dir.licenses
    ensures r.0.users.Keys == dir.users.Keys + {email} || r.0 == dir
    ensures forall e :: e in dir.users && e != email ==> e in r.0.users && r.0.users[e] == dir.users[e]
    ensures !dryRun && !r.1.conflict ==> email in r.0.users && r.0.users[email].orgUnitPath == Some(ouPath)
  {
    if email in dir.users then
      var existing := dir.users[email];
      if existing.orgUnitPath != Some(ouPath) then (dir, ConflictResult(email))
      else if dryRun then (dir, UpdatedResult(email))
      else
        var payload := MakeUserPayload(email, displayName, department, jobTitle, ouPath);
        (dir.(users := dir.users[email := PatchUser(existing, payload)]), UpdatedResult(email))
    else if dryRun then (dir, CreatedResult(email))
    else
      var payload := MakeUserPayload(email, displayName, department, jobTitle, ouPath);
      (dir.(users := dir.users[email := InsertedUser(payload)]), CreatedResult(email))
  }

  /** A second `ensure_user` with the same arguments reports an update and writes nothing new. */
  lemma EnsureUserIdempotent(dir: Directory, email: string, displayName: string, department: string,
                             jobTitle: string, ouPath: string)
    requires var (_, r1) := EnsureUser(dir, email, displayName, department, jobTitle, ouPath, false); !r1.conflict
    ensures var (d1, _) := EnsureUser(dir, email, displayName, department, jobTitle, ouPath, false);
      var (d2, r2) := EnsureUser(d1, email, displayName, department, jobTitle, ouPath, false);
      d2 == d1 && r2.updated
  {
    var d1 := EnsureUser(dir, email, displayName, department, jobTitle, ouPath, false).0;
    EnsureUserStores(dir, email, displayName, department, jobTitle, ouPath);
    EnsureUserOnStored(d1, email, displayName, department, jobTitle, ouPath);
  }

  /** After a real `ensure_user` that is not a conflict, the stored user already carries the payload. */
  lemma EnsureUserStores(dir: Directory, email: string, displayName: string, department: string,
                         jobTitle: string, ouPath: string)
    requires !EnsureUser(dir, email, displayName, department, jobTitle, ouPath, false).1.conflict
    ensures var d1 := EnsureUser(dir, email, displayName, department, jobTitle, ouPath, false).0;
      var payload := MakeUserPayload(email, displayName, department, jobTitle, ouPath);
      && email in d1.users
      && d1.users[email].orgUnitPath == Some(ouPath)
      && PatchUser(d1.users[email], payload) == d1.users[email]
  {
  }

  /** `ensure_user` on a user that already carries the payload changes nothing. */
  lemma EnsureUserOnStored(d: Directory, email: string, displayName: string, department: string,
                           jobTitle: string, ouPath: string)
    requires email in d.users && d.users[email].orgUnitPath == Some(ouPath)
    requires PatchUser(d.users[email], MakeUserPayload(email, displayName, department, jobTitle, ouPath)) == d.users[email]
    ensures EnsureUser(d, email, displayName, department, jobTitle, ouPath, false) == (d, UpdatedResult(email))
  {
    assert d.users[email := d.users[email]] == d.users;
  }

  // ----- Groups -----

  /** `ensure_group`: an existing group without this run's tag is a conflict and is never written. */
  function EnsureGroup(dir: Directory, groupEmail: string, displayName: string, description: string,
                       runName: string, dryRun: bool): (r: (Directory, SyncResult))
    ensures r.1.email == groupEmail && ExactlyOneFlag(r.1) && !r.1.skipped
    ensures r.1.conflict <==> groupEmail in dir.groups && !HasGroupTag(dir.groups[groupEmail].description, runName)
    ensures r.1.created <==> groupEmail !in dir.groups
    ensures r.1.conflict || dryRun ==> r.0 == dir
    ensures r.0.users == dir.users && r.0.orgUnits == dir.orgUnits && r.0.licenses == dir.licenses
    ensures forall e :: e in dir.groups && e != groupEmail ==> e in r.0.groups && r.0.groups[e] == dir.groups[e]
    ensures r.0.groups.Keys == dir.groups.Keys + {groupEmail} || r.0 == dir
    ensures !dryRun && !r.1.conflict ==>
      groupEmail in r.0.groups && HasGroupTag(r.0.groups[groupEmail].description, runName)
  {
    if groupEmail in dir.groups then
      var existing := dir.groups[groupEmail];
      if !HasGroupTag(existing.description, runName) then (dir, ConflictResult(groupEmail))
      else if dryRun then (dir, UpdatedResult(groupEmail))
      else
        var patched := existing.(name := displayName, description := TagDescription(description, runName));
        (dir.(groups := dir.groups[groupEmail := patched]), UpdatedResult(groupEmail))
    else if dryRun then (dir, CreatedResult(groupEmail))
    else
      var inserted := Group(displayName, TagDescription(description, runName), []);
      (dir.(groups := dir.groups[groupEmail := inserted]), CreatedResult(groupEmail))
  }

  /** A second `ensure_group` with the same arguments reports an update and changes nothing. */
  lemma EnsureGroupIdempotent(dir: Directory, groupEmail: string, displayName: string, description: string,
                              runName: string)
    requires var (_, r1) := EnsureGroup(dir, groupEmail, displayName, description, runName, false); !r1.conflict
    ensures var (d1, _) := EnsureGroup(dir, groupEmail, displayName, description, runName, false);
      var (d2, r2) := EnsureGroup(d1, groupEmail, displayName, description, runName, false);
      d2 == d1 && r2.updated
  {
    var d1 := EnsureGroup(dir, groupEmail, displayName, description, runName, false).0;
    EnsureGroupStores(dir, groupEmail, displayName, description, runName);
    EnsureGroupOnStored(d1, groupEmail, displayName, description, runName);
  }

  /** After a real `ensure_group` that is not a conflict, the group holds the given name and tagged description. */
  lemma EnsureGroupStores(dir: Directory, groupEmail: string, displayName: string, description: string,
                          runName: string)
    requires !EnsureGroup(dir, groupEmail, displayName, description, runName, false).1.conflict
    ensures var d1 := EnsureGroup(dir, groupEmail, displayName, description, runName, false).0;
      && groupEmail in d1.groups
      && d1.groups[groupEmail].name == displayName
      && d1.groups[groupEmail].description == TagDescription(description, runName)
      && HasGroupTag(d1.groups[groupEmail].description, runName)
  {
  }

  /** `ensure_group` on a group that already holds the name and tagged description changes nothing. */
  lemma EnsureGroupOnStored(d: Directory, groupEmail: string, displayName: string, description: string,
                            runName: string)
    requires groupEmail in d.groups
    requires d.groups[groupEmail].name == displayName
    requires d.groups[groupEmail].description == TagDescription(description, runName)
    requires HasGroupTag(d.groups[groupEmail].description, runName)
    ensures EnsureGroup(d, groupEmail, displayName, description, runName, false) == (d, UpdatedResult(groupEmail))
  {
    var g := d.groups[groupEmail];
    assert g.(name := displayName, description := TagDescription(description, runName)) == g;
    assert d.groups[groupEmail := g] == d.groups;
  }

  /** `_list_group_members`: the stored member emails, trimmed, without empty ones. */
  function ListedMembers(members: seq<string>): (r: seq<string>)
    ensures forall i :: 0 <= i < |r| ==> r[i] != []
    ensures |r| <= |members|
  {
    if |members| == 0 then []
    else (if Trim(members[0]) != [] then [Trim(members[0])] else []) + ListedMembers(members[1..])
  }

  /** The desired members not already listed, duplicates and order kept. */
  function MissingMembers(desired: seq<string>, present: seq<string>): (r: seq<string>)
    ensures |r| <= |desired|
    ensures forall e :: e in r <==> e in desired && e !in present
  {
    if |desired| == 0 then []
    else (if desired[0] !in present then [desired[0]] else []) + MissingMembers(desired[1..], present)
  }

  /** Member inserts in order; an insert of a member already stored answers 409 and is skipped. */
  function InsertMembers(members: seq<string>, toAdd: seq<string>): (r: seq<string>)
    ensures |members| <= |r| && r[..|members|] == members
    ensures forall e :: e in toAdd ==> e in r
    ensures forall e :: e in r ==> e in members || e in toAdd
    decreases |toAdd|
  {
    if |toAdd| == 0 then members
    else
      var next := if toAdd[0] in members then members else members + [toAdd[0]];
      var r := InsertMembers(next, toAdd[1..]);
      assert r[..|members|] == next[..|members|];
      assert toAdd[0] in r by {
        var k :| 0 <= k < |next| && next[k] == toAdd[0];
        assert r[..|next|][k] == toAdd[0];
      }
      assert forall e :: e in toAdd ==> e == toAdd[0] || e in toAdd[1..];
      r
  }

  /**
    `sync_group_members`: the number of desired members that were not listed. A missing or
    untagged group is never written and counts 0.
  */
  function SyncGroupMembers(dir: Directory, groupEmail: string, members: seq<string>, runName: string,
                            dryRun: bool): (r: (Directory, nat))
    ensures groupEmail !in dir.groups ==> r == (dir, 0)
    ensures groupEmail in dir.groups && !HasGroupTag(dir.groups[groupEmail].description, runName) ==> r == (dir, 0)
    ensures groupEmail in dir.groups && HasGroupTag(dir.groups[groupEmail].description, runName) ==>
      r.1 == |MissingMembers(members, ListedMembers(dir.groups[groupEmail].members))|
    ensures dryRun ==> r.0 == dir
    ensures r.0.users == dir.users && r.0.orgUnits == dir.orgUnits && r.0.licenses == dir.licenses
    ensures r.0.groups.Keys == dir.groups.Keys
    ensures forall e :: e in dir.groups && e != groupEmail ==> r.0.groups[e] == dir.groups[e]
  {
    if groupEmail !in dir.groups then (dir, 0)
    else
      var group := dir.groups[groupEmail];
      if !HasGroupTag(group.description, runName) then (dir, 0)
      else
        var toAdd := MissingMembers(members, ListedMembers(group.members));
        if dryRun then (dir, |toAdd|)
        else
          var updated := group.(members := InsertMembers(group.members, toAdd));
          (dir.(groups := dir.groups[groupEmail := updated]), |toAdd|)
  }

  /** After a real sync of a tagged group, every desired member is in it and no member was removed. */
  lemma SyncGroupMembersComplete(dir: Directory, groupEmail: string, members: seq<string>, runName: string)
    requires groupEmail in dir.groups && HasGroupTag(dir.groups[groupEmail].description, runName)
    requires forall m :: m in dir.groups[groupEmail].members ==> Trim(m) == m
    ensures var (d, _) := SyncGroupMembers(dir, groupEmail, members, runName, false);
      var before := dir.groups[groupEmail].members;
      var after := d.groups[groupEmail].members;
      (forall e :: e in members ==> e in after) && after[..|before|] == before
  {
    var before := dir.groups[groupEmail].members;
    var listed := ListedMembers(before);
    var toAdd := MissingMembers(members, listed);
    var after := InsertMembers(before, toAdd);
    forall e | e in members ensures e in after {
      if e !in listed {
        assert e in toAdd;
      } else {
        ListedComesFromStored(before, e);
        var m :| m in before && Trim(m) == e;
        assert e in before;
        var k :| 0 <= k < |before| && before[k] == e;
        assert after[..|before|][k] == e;
      }
    }
  }

  /** Every stored member that is not blank once trimmed is listed, trimmed. */
  lemma {:induction false} ListedMembersCover(members: seq<string>, m: string)
    requires m in members && Trim(m) != []
    ensures Trim(m) in ListedMembers(members)
  {
    if members[0] != m {
      ListedMembersCover(members[1..], m);
    }
  }

  /** A listed member is the trimmed form of a stored one; a trimmed stored member is stored as listed. */
  lemma {:induction false} ListedComesFromStored(members: seq<string>, e: string)
    requires e in ListedMembers(members)
    ensures exists m :: m in members && Trim(m) == e
  {
    if |members| > 0 {
      if Trim(members[0]) != [] && e == Trim(members[0]) {
        assert members[0] in members;
      } else {
        ListedComesFromStored(members[1..], e);
        var m :| m in members[1..] && Trim(m) == e;
        assert m in members;
      }
    }
  }
}
