/** The counters and the two reports the engine prints, with their dictionary form. */
module Report {
  import opened Wrappers
  import opened Json

  /** How many objects of each kind a plan would create, update, skip or flag. */
  datatype PlanCounts = PlanCounts(
    usersCreate: nat, usersUpdate: nat, usersSkip: nat, usersConflict: nat,
    groupsCreate: nat, groupsUpdate: nat, groupsSkip: nat, groupsConflict: nat,
    licensesAssign: nat,
    drivesCreate: nat, drivesSkip: nat, drivesConflict: nat,
    foldersCreate: nat,
    docsCreate: nat, docsUpdate: nat,
    permissionsCreate: nat)

  datatype PlanReport = PlanReport(
    runName: string, counts: PlanCounts,
    warnings: seq<string>, conflicts: seq<string>, prerequisites: seq<string>)

  datatype ApplyReport = ApplyReport(
    runName: string,
    created: seq<string>, updated: seq<string>, skipped: seq<string>,
    warnings: seq<string>, conflicts: seq<string>)

  /** Every counter is zero. */
  predicate AllZero(c: PlanCounts) {
    c.usersCreate == 0 && c.usersUpdate == 0 && c.usersSkip == 0 && c.usersConflict == 0
    && c.groupsCreate == 0 && c.groupsUpdate == 0 && c.groupsSkip == 0 && c.groupsConflict == 0
    && c.licensesAssign == 0 && c.drivesCreate == 0 && c.drivesSkip == 0 && c.drivesConflict == 0
    && c.foldersCreate == 0 && c.docsCreate == 0 && c.docsUpdate == 0 && c.permissionsCreate == 0
  }

  /** The number of users classified so far, over the four user buckets. */
  function UsersClassified(c: PlanCounts): nat {
    c.usersCreate + c.usersUpdate + c.usersSkip + c.usersConflict
  }

  /** The number of groups classified so far, over the four group buckets. */
  function GroupsClassified(c: PlanCounts): nat {
    c.groupsCreate + c.groupsUpdate + c.groupsSkip + c.groupsConflict
  }

  /** `PlanCounts()`: the dataclass defaults. */
  function ZeroCounts(): (c: PlanCounts)
    ensures AllZero(c)
  {
    PlanCounts(0, 0, 0, 0, 0, 0, 0, 0, 0, 0, 0, 0, 0, 0, 0, 0)
  }

  /** `PlanReport(run_name=...)` with every list empty. */
  function NewPlanReport(runName: string): (r: PlanReport)
    ensures r.runName == runName && AllZero(r.counts)
    ensures r.warnings == [] && r.conflicts == [] && r.prerequisites == []
  {
    PlanReport(runName, ZeroCounts(), [], [], [])
  }

  /** `ApplyReport(run_name=...)` with every list empty. */
  function NewApplyReport(runName: string): (r: ApplyReport)
    ensures r.runName == runName
    ensures r.created == [] && r.updated == [] && r.skipped == [] && r.warnings == [] && r.conflicts == []
  {
    ApplyReport(runName, [], [], [], [], [])
  }

  const CountKeys: set<string> := {
    "users_create", "users_update", "users_skip", "users_conflict",
    "groups_create", "groups_update", "groups_skip", "groups_conflict",
    "licenses_assign", "drives_create", "drives_skip", "drives_conflict",
    "folders_create", "docs_create", "docs_update", "permissions_create"}

  /** `counts.__dict__`: one integer entry per dataclass field. */
  function CountsToDict(c: PlanCounts): (v: Value)
    ensures v.Object? && v.fields.Keys == CountKeys
  {
    Object(map[
      "users_create" := Int(c.usersCreate), "users_update" := Int(c.usersUpdate),
      "users_skip" := Int(c.usersSkip), "users_conflict" := Int(c.usersConflict),
      "groups_create" := Int(c.groupsCreate), "groups_update" := Int(c.groupsUpdate),
      "groups_skip" := Int(c.groupsSkip), "groups_conflict" := Int(c.groupsConflict),
      "licenses_assign" := Int(c.licensesAssign),
      "drives_create" := Int(c.drivesCreate), "drives_skip" := Int(c.drivesSkip),
      "drives_conflict" := Int(c.drivesConflict),
      "folders_create" := Int(c.foldersCreate),
      "docs_create" := Int(c.docsCreate), "docs_update" := Int(c.docsUpdate),
      "permissions_create" := Int(c.permissionsCreate)])
  }

  function PlanReportToDict(r: PlanReport): (v: Value)
    ensures v.Object? && v.fields.Keys == {"run_name", "counts", "warnings", "conflicts", "prerequisites"}
  {
    Object(map[
      "run_name" := Str(r.runName),
      "counts" := CountsToDict(r.counts),
      "warnings" := StrList(r.warnings),
      "conflicts" := StrList(r.conflicts),
      "prerequisites" := StrList(r.prerequisites)])
  }

  function ApplyReportToDict(r: ApplyReport): (v: Value)
    ensures v.Object? && v.fields.Keys == {"run_name", "created", "updated", "skipped", "warnings", "conflicts"}
  {
    Object(map[
      "run_name" := Str(r.runName),
      "created" := StrList(r.created),
      "updated" := StrList(r.updated),
      "skipped" := StrList(r.skipped),
      "warnings" := StrList(r.warnings),
      "conflicts" := StrList(r.conflicts)])
  }

  /** A non-negative integer entry of a dictionary. */
  function Counter(m: map<string, Value>, key: string): Option<nat> {
    if key in m && m[key].Int? && m[key].i >= 0 then Some(m[key].i) else None
  }

  function StrListAt(m: map<string, Value>, key: string): Option<seq<string>> {
    if key in m then AsStrList(m[key]) else None
  }

  /** Reads counters back from their dictionary form. */
  function CountsFromDict(v: Value): Option<PlanCounts> {
    if !v.Object? then None
    else
      var m := v.fields;
      var a :- Counter(m, "users_create");
      var b :- Counter(m, "users_update");
      var c :- Counter(m, "users_skip");
      var d :- Counter(m, "users_conflict");
      var e :- Counter(m, "groups_create");
      var f :- Counter(m, "groups_update");
      var g :- Counter(m, "groups_skip");
      var h :- Counter(m, "groups_conflict");
      var i :- Counter(m, "licenses_assign");
      var j :- Counter(m, "drives_create");
      var k :- Counter(m, "drives_skip");
      var l :- Counter(m, "drives_conflict");
      var n :- Counter(m, "folders_create");
      var o :- Counter(m, "docs_create");
      var p :- Counter(m, "docs_update");
      var q :- Counter(m, "permissions_create");
      Some(PlanCounts(a, b, c, d, e, f, g, h, i, j, k, l, n, o, p, q))
  }

  /** Reads a plan report back from its dictionary form. */
  function PlanReportFromDict(v: Value): Option<PlanReport> {
    if !v.Object? || "run_name" !in v.fields || !v.fields["run_name"].Str? || "counts" !in v.fields then None
    else
      var counts :- CountsFromDict(v.fields["counts"]);
      var warnings :- StrListAt(v.fields, "warnings");
      var conflicts :- StrListAt(v.fields, "conflicts");
      var prerequisites :- StrListAt(v.fields, "prerequisites");
      Some(PlanReport(v.fields["run_name"].s, counts, warnings, conflicts, prerequisites))
  }

  /** Reads an apply report back from its dictionary form. */
  function ApplyReportFromDict(v: Value): Option<ApplyReport> {
    if !v.Object? || "run_name" !in v.fields || !v.fields["run_name"].Str? then None
    else
      var created :- StrListAt(v.fields, "created");
      var updated :- StrListAt(v.fields, "updated");
      var skipped :- StrListAt(v.fields, "skipped");
      var warnings :- StrListAt(v.fields, "warnings");
      var conflicts :- StrListAt(v.fields, "conflicts");
      Some(ApplyReport(v.fields["run_name"].s, created, updated, skipped, warnings, conflicts))
  }

  /** The dictionary form keeps every counter. */
  lemma CountsRoundTrip(c: PlanCounts)
    ensures CountsFromDict(CountsToDict(c)) == Some(c)
  {
  }

  /** The dictionary form keeps the run name, the counters and every list in order. */
  lemma PlanReportRoundTrip(r: PlanReport)
    ensures PlanReportFromDict(PlanReportToDict(r)) == Some(r)
  {
    CountsRoundTrip(r.counts);
    AsStrListOfStrList(r.warnings);
    AsStrListOfStrList(r.conflicts);
    AsStrListOfStrList(r.prerequisites);
  }

  /** The dictionary form keeps the run name and every list in order. */
  lemma ApplyReportRoundTrip(r: ApplyReport)
    ensures ApplyReportFromDict(ApplyReportToDict(r)) == Some(r)
  {
    AsStrListOfStrList(r.created);
    AsStrListOfStrList(r.updated);
    AsStrListOfStrList(r.skipped);
    AsStrListOfStrList(r.warnings);
    AsStrListOfStrList(r.conflicts);
  }
}
