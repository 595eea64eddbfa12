/**
  The desired resource tree of a run: which shared drives each department gets, the folder
  paths inside each drive and one document per archetype. Everything here is computed from
  the blueprint, the identity snapshot and the year, before the tenant is looked at.
*/
module CliLayout {
  import opened Wrappers
  import opened Strings
  import opened PyDict
  import opened PyFormat
  import opened StableIds
  import opened Blueprints
  import opened Entra
  import opened CliDepartments
  import opened ResultSeqs

  // ----- Archetype placement -----

  const KnownArchetypes: set<string> :=
    {"policy", "runbook", "incident_report", "meeting_notes", "prd", "onboarding", "qbr"}

  const AdminFolder := "00 - Admin"
  const ProjectsFolderPrefix := "01 - Projects/"
  const ProcessFolder := "02 - Process & Policy"
  const MeetingNotesFolderPrefix := "03 - Meeting Notes/"

  /** `_folder_for_archetype`; an archetype the table does not know goes to the projects folder. */
  function FolderForArchetype(archetype: string, department: string, year: int): (r: string)
    ensures archetype !in KnownArchetypes ==> r == ProjectsFolderPrefix + department
    ensures r == AdminFolder || r == ProcessFolder || r == ProjectsFolderPrefix + department
            || r == MeetingNotesFolderPrefix + IntToString(year)
  {
    if archetype == "policy" || archetype == "runbook" then ProcessFolder
    else if archetype == "meeting_notes" then MeetingNotesFolderPrefix + IntToString(year)
    else if archetype == "onboarding" then AdminFolder
    else ProjectsFolderPrefix + department
  }

  /** The title stem of `_title_for_archetype`; unknown archetypes get the generic one. */
  function TitleStem(archetype: string): string {
    match archetype
    case "policy" => "Policy Overview"
    case "prd" => "Product Requirements"
    case "runbook" => "Operational Runbook"
    case "incident_report" => "Incident Report"
    case "meeting_notes" => "Meeting Notes"
    case "onboarding" => "Onboarding Guide"
    case "qbr" => "Quarterly Business Review"
    case _ => "Team Document"
  }

  /** `_title_for_archetype`: the stem, then " - " and the department. */
  function TitleForArchetype(archetype: string, department: string): (r: string)
    ensures EndsWith(r, " - " + department)
    ensures archetype !in KnownArchetypes ==> r == "Team Document - " + department
  {
    var r := TitleStem(archetype) + " - " + department;
    assert r[|r| - |" - " + department|..] == " - " + department;
    r
  }

  // ----- Folder paths -----

  /** `_format_path`: `path.format(department=..., year=...)`. */
  function FormatPath(path: string, department: string, year: int): (r: Result<string>)
    ensures NoBraces(path) ==> r == Success(path)
  {
    Format(path, map["department" := department, "year" := IntToString(year)])
  }

  /**
    A literal followed by `{department}` or `{year}` formats to the literal and the value; any
    other bare name is a `KeyError`.
  */
  lemma FormatPathFields(lit: string, name: string, department: string, year: int)
    requires NoBraces(lit) && NoBraces(name) && name != [] && !IsAllDigits(name) && NoSpecOrAccess(name)
    ensures name == "department" ==> FormatPath(lit + "{" + name + "}", department, year) == Success(lit + department)
    ensures name == "year" ==> FormatPath(lit + "{" + name + "}", department, year) == Success(lit + IntToString(year))
    ensures name != "department" && name != "year" ==> FormatPath(lit + "{" + name + "}", department, year).Failure?
  {
    var args := map["department" := department, "year" := IntToString(year)];
    assert lit + "{" + name + "}" == lit + ("{" + name + "}");
    FormatLiteralThenField(lit, name, args);
  }

  /**
    The folder map of one drive: each template path of the tree, formatted, keyed to the id of
    the UNformatted path. A later template that formats to an earlier key overwrites its id.
  */
  function FolderPaths(h: Hashes, runName: string, driveName: string, department: string, year: int,
                       tree: seq<string>): (r: Result<Dict<string, string>>)
    ensures r.Success? <==> forall i :: 0 <= i < |tree| ==> FormatPath(tree[i], department, year).Success?
    ensures r.Success? ==> UniqueKeys(r.value) && |r.value| <= |tree|
    ensures r.Success? ==> forall k :: HasKey(r.value, k) <==> FormattedIn(tree, department, year, k)
  {
    if |tree| == 0 then Success([])
    else
      var n := |tree| - 1;
      var earlier := FolderPaths(h, runName, driveName, department, year, tree[..n]);
      var key := FormatPath(tree[n], department, year);
      assert forall i :: 0 <= i < n ==> tree[..n][i] == tree[i];
      if earlier.Failure? then Failure(earlier.error)
      else if key.Failure? then Failure(key.error)
      else
        var id := StableUuid(h, runName, "folder", driveName + ":" + tree[n]);
        var r := Set(earlier.value, key.value, id);
        SetKeepsUniqueKeys(earlier.value, key.value, id);
        assert forall k :: HasKey(r, k) <==> FormattedIn(tree, department, year, k) by {
          forall k ensures HasKey(r, k) <==> FormattedIn(tree, department, year, k) {
            SetHasKey(earlier.value, key.value, id, k);
            FormattedInSnoc(tree, department, year, k);
          }
        }
        Success(r)
  }

  /** Some template path of the tree formats to `k`. */
  predicate FormattedIn(tree: seq<string>, department: string, year: int, k: string) {
    exists i :: 0 <= i < |tree| && FormatPath(tree[i], department, year) == Success(k)
  }

  lemma FormattedInSnoc(tree: seq<string>, department: string, year: int, k: string)
    requires |tree| > 0
    ensures FormattedIn(tree, department, year, k) <==>
      (FormattedIn(tree[..|tree| - 1], department, year, k) || FormatPath(tree[|tree| - 1], department, year) == Success(k))
  {
    var n := |tree| - 1;
    if FormattedIn(tree, department, year, k) {
      var i :| 0 <= i < |tree| && FormatPath(tree[i], department, year) == Success(k);
      if i < n { assert tree[..n][i] == tree[i]; }
    }
    if FormattedIn(tree[..n], department, year, k) {
      var i :| 0 <= i < n && FormatPath(tree[..n][i], department, year) == Success(k);
      assert tree[i] == tree[..n][i];
    }
  }

  // ----- Documents -----

  datatype DocPlan = DocPlan(stableId: string, name: string, path: string, archetype: string, folderPath: string)

  /** The document one archetype contributes to a drive. */
  function DocFor(h: Hashes, runName: string, driveName: string, department: string, year: int,
                  archetype: string): (d: DocPlan)
    ensures d.archetype == archetype && d.name == TitleForArchetype(archetype, department)
    ensures d.folderPath == FolderForArchetype(archetype, department, year)
    ensures d.path == d.folderPath + "/" + d.name
    ensures d.stableId == StableUuid(h, runName, "doc", driveName + ":" + d.path)
  {
    var folder := FolderForArchetype(archetype, department, year);
    var name := TitleForArchetype(archetype, department);
    var path := folder + "/" + name;
    DocPlan(StableUuid(h, runName, "doc", driveName + ":" + path), name, path, archetype, folder)
  }

  /** `_docs_for_drive`: exactly one document per archetype, in blueprint order. */
  function DocsForDrive(h: Hashes, runName: string, archetypes: seq<string>, driveName: string,
                        department: string, year: int): (docs: seq<DocPlan>)
    ensures |docs| == |archetypes|
    ensures forall i :: 0 <= i < |archetypes| ==>
      docs[i] == DocFor(h, runName, driveName, department, year, archetypes[i])
  {
    seq(|archetypes|, i requires 0 <= i < |archetypes| =>
      DocFor(h, runName, driveName, department, year, archetypes[i]))
  }

  // ----- Drives -----

  /**
    One desired shared drive. The source's `drive_id` field is never set on a plan, so it is
    not kept; `existingDriveId` is filled in by the planner for drives this run already owns.
  */
  datatype DrivePlan = DrivePlan(
    name: string, department: string, markerId: string, existingDriveId: Option<nat>,
    folderPaths: Dict<string, string>, docs: seq<DocPlan>)

  /** `range(count_per_department)`: a count below one yields no drives. */
  function DrivesPerDepartment(b: Blueprint): nat {
    if b.drives.sharedDrives.countPerDepartment <= 0 then 0 else b.drives.sharedDrives.countPerDepartment
  }

  predicate NumberedNames(b: Blueprint) {
    b.drives.sharedDrives.countPerDepartment > 1 && !Contains(b.drives.sharedDrives.naming, "{index}")
  }

  function NamingArgs(prefix: string, department: string): map<string, string> {
    map["prefix" := prefix, "department" := department]
  }

  /**
    The drive name as the source computes it: the template is formatted with `prefix` and
    `department` only, so a template that uses `{index}` always fails with a KeyError.
  */
  function DriveNameAsWritten(b: Blueprint, department: string, index: nat): (r: Result<string>)
    ensures r.Success? ==> var base := Format(b.drives.sharedDrives.naming, NamingArgs(b.run.resourcePrefix, department));
      base.Success? && r.value == (if NumberedNames(b) then base.value + " " + NatToString(index + 1) else base.value)
  {
    var name :- Format(b.drives.sharedDrives.naming, NamingArgs(b.run.resourcePrefix, department));
    if NumberedNames(b) then Success(name + " " + NatToString(index + 1)) else Success(name)
  }

  /** The arguments the naming template is evidently meant to see: also the 1-based `index`. */
  function IndexedNamingArgs(prefix: string, department: string, index: nat): map<string, string> {
    NamingArgs(prefix, department)["index" := NatToString(index + 1)]
  }

  /** The drive name with `{index}` supplied: the naming the `{index}` test evidently expects. */
  function DriveName(b: Blueprint, department: string, index: nat): (r: Result<string>)
    ensures r.Success? ==> var base := Format(b.drives.sharedDrives.naming, IndexedNamingArgs(b.run.resourcePrefix, department, index));
      base.Success? && r.value == (if NumberedNames(b) then base.value + " " + NatToString(index + 1) else base.value)
  {
    var name :- Format(b.drives.sharedDrives.naming, IndexedNamingArgs(b.run.resourcePrefix, department, index));
    if NumberedNames(b) then Success(name + " " + NatToString(index + 1)) else Success(name)
  }

  /**
    The plan of drive number `index` of `department`, named as the source names it: a naming
    template that uses `{index}` cannot be planned.
  */
  function PlanFor(h: Hashes, b: Blueprint, department: string, year: int, index: nat): (r: Result<DrivePlan>)
    ensures r.Success? <==> (DriveNameAsWritten(b, department, index).Success?
      && forall i :: 0 <= i < |b.folders.sharedDriveTree| ==> FormatPath(b.folders.sharedDriveTree[i], department, year).Success?)
    ensures r.Success? ==> var name := DriveNameAsWritten(b, department, index).value;
      && r.value.name == name && r.value.department == department
      && r.value.markerId == StableUuid(h, b.run.name, "drive_marker", name)
      && r.value.existingDriveId.None?
      && r.value.folderPaths == FolderPaths(h, b.run.name, name, department, year, b.folders.sharedDriveTree).value
      && r.value.docs == DocsForDrive(h, b.run.name, b.docs.archetypes, name, department, year)
  {
    var name :- DriveNameAsWritten(b, department, index);
    var folders :- FolderPaths(h, b.run.name, name, department, year, b.folders.sharedDriveTree);
    Success(DrivePlan(name, department, StableUuid(h, b.run.name, "drive_marker", name), None, folders,
                      DocsForDrive(h, b.run.name, b.docs.archetypes, name, department, year)))
  }

  /** The plan of drive number `index` of `department`, as one function of both. */
  function PlanAt(h: Hashes, b: Blueprint, year: int): (f: (string, nat) -> Result<DrivePlan>)
    ensures forall department, index :: f(department, index) == PlanFor(h, b, department, year, index)
  {
    (department: string, index: nat) => PlanFor(h, b, department, year, index)
  }

  /**
    `_desired_drives`: for each department in order, drives number 0 to `count - 1`; the
    first template that fails to format fails the whole plan.
  */
  function DesiredDrives(h: Hashes, b: Blueprint, users: seq<EntraUser>, year: int): (r: Result<seq<DrivePlan>>)
    ensures var ds := DepartmentsFromUsers(users);
      r.Success? <==> forall d, i :: 0 <= d < |ds| && 0 <= i < DrivesPerDepartment(b) ==> PlanFor(h, b, ds[d], year, i).Success?
    ensures r.Success? ==> |r.value| == Offset(|DepartmentsFromUsers(users)|, DrivesPerDepartment(b))
  {
    Blocks(PlanAt(h, b, year), DepartmentsFromUsers(users), DrivesPerDepartment(b))
  }

  /** The drives of `_desired_drives` come department by department, `count` per department. */
  lemma DesiredDrivesOrder(h: Hashes, b: Blueprint, users: seq<EntraUser>, year: int, d: nat, i: nat)
    requires DesiredDrives(h, b, users, year).Success?
    requires d < |DepartmentsFromUsers(users)| && i < DrivesPerDepartment(b)
    ensures var r := DesiredDrives(h, b, users, year).value; var n := DrivesPerDepartment(b);
      && Offset(d, n) + i < |r|
      && r[Offset(d, n) + i] == PlanFor(h, b, DepartmentsFromUsers(users)[d], year, i).value
      && r[Offset(d, n) + i].department == DepartmentsFromUsers(users)[d]
  {
    BlocksPosition(PlanAt(h, b, year), DepartmentsFromUsers(users), DrivesPerDepartment(b), d, i);
  }

  // ----- The `{index}` naming template -----

  const IndexTemplate := "{prefix} {department} {index}"

  /** Wherever the source's naming succeeds, the corrected naming gives the same name. */
  lemma DriveNameAgrees(b: Blueprint, department: string, index: nat)
    requires DriveNameAsWritten(b, department, index).Success?
    ensures DriveName(b, department, index) == DriveNameAsWritten(b, department, index)
  {
    FormatExtraArg(b.drives.sharedDrives.naming, NamingArgs(b.run.resourcePrefix, department),
                   "index", NatToString(index + 1));
  }

  lemma IndexTemplateSpaced()
    ensures IndexTemplate == SpacedFields("prefix", "department", "index")
    ensures Contains(IndexTemplate, "{index}")
  {
    assert IndexTemplate[22..29] == "{index}";
    ContainsAt(IndexTemplate, "{index}", 22);
  }

  lemma FieldPrefix(args: map<string, string>)
    requires "prefix" in args
    ensures Field("prefix", args) == Success(args["prefix"])
  {
    assert "prefix"[0] == 'p';
  }

  lemma FieldDepartment(args: map<string, string>)
    requires "department" in args
    ensures Field("department", args) == Success(args["department"])
  {
    assert "department"[0] == 'd';
  }

  lemma FieldIndex(args: map<string, string>)
    ensures "index" in args ==> Field("index", args) == Success(args["index"])
    ensures "index" !in args ==> Field("index", args) == Failure("KeyError: index")
  {
    assert "index"[0] == 'i';
  }

  lemma FieldYear(args: map<string, string>)
    requires "year" in args
    ensures Field("year", args) == Success(args["year"])
  {
    assert "year"[0] == 'y';
  }

  /** The source checks for `{index}` in the template, yet a template using it can never be formatted. */
  lemma IndexTemplateRejected(b: Blueprint, department: string, index: nat)
    requires b.drives.sharedDrives.naming == IndexTemplate
    ensures DriveNameAsWritten(b, department, index) == Failure("KeyError: index")
  {
    var args := NamingArgs(b.run.resourcePrefix, department);
    IndexTemplateSpaced();
    FieldPrefix(args);
    FieldDepartment(args);
    FieldIndex(args);
    FormatSpacedFields("prefix", "department", "index", args);
  }

  /** With `index` supplied, the same template names drive `index` by its 1-based number. */
  lemma IndexTemplateNames(b: Blueprint, department: string, index: nat)
    requires b.drives.sharedDrives.naming == IndexTemplate
    ensures DriveName(b, department, index)
            == Success(b.run.resourcePrefix + " " + department + " " + NatToString(index + 1))
  {
    var args := IndexedNamingArgs(b.run.resourcePrefix, department, index);
    IndexTemplateSpaced();
    assert !NumberedNames(b);
    FieldPrefix(args);
    FieldDepartment(args);
    FieldIndex(args);
    FormatSpacedFields("prefix", "department", "index", args);
    SpacedRegroup(b.run.resourcePrefix, department, NatToString(index + 1));
  }

  /** Two different numbers after one base give two different names. */
  lemma SuffixedNamesDistinct(base: string, i: nat, j: nat)
    requires i != j
    ensures base + " " + NatToString(i) != base + " " + NatToString(j)
  {
    PrefixCancel(base + " ", NatToString(i), NatToString(j));
    if NatToString(i) == NatToString(j) {
      NatToStringInjective(i, j);
    }
  }

  /** Under the corrected naming, the drives of one department never share a name. */
  lemma IndexTemplateNamesDistinct(b: Blueprint, department: string, i: nat, j: nat)
    requires b.drives.sharedDrives.naming == IndexTemplate && i != j
    ensures DriveName(b, department, i).Success? && DriveName(b, department, j).Success?
    ensures DriveName(b, department, i).value != DriveName(b, department, j).value
  {
    var base := b.run.resourcePrefix + " " + department;
    var ni := base + " " + NatToString(i + 1);
    var nj := base + " " + NatToString(j + 1);
    assert DriveName(b, department, i) == Success(ni) by { IndexTemplateNames(b, department, i); }
    assert DriveName(b, department, j) == Success(nj) by { IndexTemplateNames(b, department, j); }
    assert ni != nj by { SuffixedNamesDistinct(base, i + 1, j + 1); }
  }

  /**
    A template without `{index}` used for several drives per department gets a number
    appended, so those drives never share a name either.
  */
  lemma NumberedNamesDistinct(b: Blueprint, department: string, i: nat, j: nat)
    requires NumberedNames(b) && i != j
    requires DriveNameAsWritten(b, department, i).Success? && DriveNameAsWritten(b, department, j).Success?
    ensures DriveNameAsWritten(b, department, i).value != DriveNameAsWritten(b, department, j).value
  {
    var args := NamingArgs(b.run.resourcePrefix, department);
    SuffixedNamesDistinct(Format(b.drives.sharedDrives.naming, args).value, i + 1, j + 1);
  }

  /**
    Planning as written fails outright for the `{index}` template whenever a department gets a
    drive at all, and there is always at least one department.
  */
  lemma IndexTemplatePlanFails(h: Hashes, b: Blueprint, users: seq<EntraUser>, year: int)
    requires b.drives.sharedDrives.naming == IndexTemplate && b.drives.sharedDrives.countPerDepartment >= 1
    ensures DesiredDrives(h, b, users, year).Failure?
  {
    var ds := DepartmentsFromUsers(users);
    assert |ds| > 0;
    IndexTemplateRejected(b, ds[0], 0);
  }

  // ----- Documents land in the default tree, under distinct ids -----

  /** The formatted folders of the default tree, by position. */
  function DefaultFolder(k: nat, department: string, year: int): string {
    if k == 0 then AdminFolder
    else if k == 1 then ProjectsFolderPrefix + department
    else if k == 2 then ProcessFolder
    else MeetingNotesFolderPrefix + IntToString(year)
  }

  lemma ProjectsFolderFormats(department: string, year: int)
    ensures FormatPath(DefaultTree[1], department, year) == Success(ProjectsFolderPrefix + department)
  {
    var args := map["department" := department, "year" := IntToString(year)];
    assert DefaultTree[1] == ProjectsFolderPrefix + ("{" + "department" + "}");
    FieldDepartment(args);
    FormatLiteralThenField(ProjectsFolderPrefix, "department", args);
  }

  lemma MeetingNotesFolderFormats(department: string, year: int)
    ensures FormatPath(DefaultTree[3], department, year) == Success(MeetingNotesFolderPrefix + IntToString(year))
  {
    var args := map["department" := department, "year" := IntToString(year)];
    assert DefaultTree[3] == MeetingNotesFolderPrefix + ("{" + "year" + "}");
    FieldYear(args);
    FormatLiteralThenField(MeetingNotesFolderPrefix, "year", args);
  }

  lemma FixedFoldersFormat(department: string, year: int)
    ensures FormatPath(DefaultTree[0], department, year) == Success(AdminFolder)
    ensures FormatPath(DefaultTree[2], department, year) == Success(ProcessFolder)
  {
    assert NoBraces(DefaultTree[0]) && NoBraces(DefaultTree[2]);
  }

  lemma DefaultTreeFolder(k: nat, department: string, year: int)
    requires k < 4
    ensures k < |DefaultTree| && FormatPath(DefaultTree[k], department, year) == Success(DefaultFolder(k, department, year))
  {
    if k == 1 {
      ProjectsFolderFormats(department, year);
    } else if k == 3 {
      MeetingNotesFolderFormats(department, year);
    } else {
      FixedFoldersFormat(department, year);
    }
  }

  /** Where in the default tree an archetype's folder sits. */
  function DefaultTreeIndex(archetype: string): nat {
    if archetype == "policy" || archetype == "runbook" then 2
    else if archetype == "meeting_notes" then 3
    else if archetype == "onboarding" then 0
    else 1
  }

  /** Every archetype's folder is one of the folders the default tree creates. */
  lemma ArchetypeFolderInDefaultTree(archetype: string, department: string, year: int)
    ensures exists i :: (0 <= i < |DefaultBlueprint.folders.sharedDriveTree|
      && FormatPath(DefaultBlueprint.folders.sharedDriveTree[i], department, year)
         == Success(FolderForArchetype(archetype, department, year)))
  {
    var k := DefaultTreeIndex(archetype);
    DefaultTreeFolder(k, department, year);
    assert DefaultBlueprint.folders.sharedDriveTree == DefaultTree;
    assert DefaultFolder(k, department, year) == FolderForArchetype(archetype, department, year);
  }

  lemma KnownStemsDistinct(a1: string, a2: string)
    requires a1 in KnownArchetypes && a2 in KnownArchetypes && a1 != a2
    ensures TitleStem(a1) != TitleStem(a2)
  {
  }

  /** Distinct known archetypes get distinct titles in the same department. */
  lemma KnownTitlesDistinct(a1: string, a2: string, department: string)
    requires a1 in KnownArchetypes && a2 in KnownArchetypes && a1 != a2
    ensures TitleForArchetype(a1, department) != TitleForArchetype(a2, department)
  {
    KnownStemsDistinct(a1, a2);
    var t1 := TitleStem(a1);
    var t2 := TitleStem(a2);
    var s := " - " + department;
    assert TitleForArchetype(a1, department) == t1 + s;
    assert TitleForArchetype(a2, department) == t2 + s;
    SuffixCancel(t1, t2, s);
  }

  /** The tree position of an archetype's folder, which is the second character of its name. */
  function FolderDigit(archetype: string): char {
    if archetype == "policy" || archetype == "runbook" then '2'
    else if archetype == "meeting_notes" then '3'
    else if archetype == "onboarding" then '0'
    else '1'
  }

  lemma FolderDigitShown(archetype: string, department: string, year: int)
    ensures var f := FolderForArchetype(archetype, department, year);
      |f| >= 2 && f[1] == FolderDigit(archetype)
  {
  }

  /** Distinct known archetypes of one drive get distinct document paths. */
  lemma DocPathsDistinct(h: Hashes, runName: string, driveName: string, department: string, year: int,
                         a1: string, a2: string)
    requires a1 in KnownArchetypes && a2 in KnownArchetypes && a1 != a2
    ensures DocFor(h, runName, driveName, department, year, a1).path
         != DocFor(h, runName, driveName, department, year, a2).path
  {
    var f1 := FolderForArchetype(a1, department, year);
    var f2 := FolderForArchetype(a2, department, year);
    var n1 := TitleForArchetype(a1, department);
    var n2 := TitleForArchetype(a2, department);
    KnownTitlesDistinct(a1, a2, department);
    FolderDigitShown(a1, department, year);
    FolderDigitShown(a2, department, year);
    if f1 == f2 {
      PrefixCancel(f1 + "/", n1, n2);
    } else {
      assert (f1 + "/" + n1)[1] == f1[1];
      assert (f2 + "/" + n2)[1] == f2[1];
    }
  }

  /**
    Under a collision-free uuid5, distinct known archetypes of one drive get distinct document
    ids; unknown archetypes all share the generic title and projects folder, hence one id.
  */
  lemma DocIdsDistinct(h: Hashes, runName: string, driveName: string, department: string, year: int,
                       a1: string, a2: string)
    requires Injective(h.uuid5)
    requires a1 in KnownArchetypes && a2 in KnownArchetypes && a1 != a2
    ensures DocFor(h, runName, driveName, department, year, a1).stableId
         != DocFor(h, runName, driveName, department, year, a2).stableId
  {
    var p1 := DocFor(h, runName, driveName, department, year, a1).path;
    var p2 := DocFor(h, runName, driveName, department, year, a2).path;
    DocPathsDistinct(h, runName, driveName, department, year, a1, a2);
    var q := driveName + ":";
    PrefixCancel(q, p1, p2);
    DistinctKeysDistinctIds(h, runName, "doc", q + p1, q + p2);
  }
}
