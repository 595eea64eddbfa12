/**
  The shared-drive steps of `plan` and `apply`: each desired drive is classified against the
  listed shared drives as absent (to be created), owned (same name and this run's marker) or
  foreign (same name, no marker: a conflict that is never written to).
*/
module CliDrives {
  import opened Wrappers
  import opened Strings
  import opened Tenant
  import opened GoogleDrive
  import opened Report
  import opened CliLayout

  /** How a desired drive stands against the listed shared drives. */
  datatype Standing = Absent | Owned(index: nat) | Foreign

  /**
    The first drive with the plan's name decides: none means absent; one holding a file that
    answers the marker query means owned; any other means foreign.
  */
  function StandingOf(shared: seq<SharedDrive>, plan: DrivePlan): (s: Standing)
    ensures s.Absent? <==> FindDriveByName(shared, plan.name).None?
    ensures s.Owned? ==> (s.index < |shared| && FindDriveByName(shared, plan.name) == Some(s.index)
      && FindFile(shared[s.index].files, MarkerQuery(plan.markerId)).Some?)
    ensures s.Foreign? ==> var k := FindDriveByName(shared, plan.name);
      k.Some? && FindFile(shared[k.value].files, MarkerQuery(plan.markerId)).None?
  {
    match FindDriveByName(shared, plan.name)
    case None => Absent
    case Some(k) => if FindFile(shared[k].files, MarkerQuery(plan.markerId)).Some? then Owned(k) else Foreign
  }

  // ----- Planning -----

  /** The number of plans with the given standing. */
  function CountAbsent(shared: seq<SharedDrive>, plans: seq<DrivePlan>): nat {
    if |plans| == 0 then 0
    else CountAbsent(shared, plans[..|plans| - 1]) + (if StandingOf(shared, plans[|plans| - 1]).Absent? then 1 else 0)
  }

  function CountForeign(shared: seq<SharedDrive>, plans: seq<DrivePlan>): nat {
    if |plans| == 0 then 0
    else CountForeign(shared, plans[..|plans| - 1]) + (if StandingOf(shared, plans[|plans| - 1]).Foreign? then 1 else 0)
  }

  function CountOwned(shared: seq<SharedDrive>, plans: seq<DrivePlan>): nat {
    if |plans| == 0 then 0
    else CountOwned(shared, plans[..|plans| - 1]) + (if StandingOf(shared, plans[|plans| - 1]).Owned? then 1 else 0)
  }

  /** The plan with `existing_drive_id` filled in when the drive is this run's. */
  function Marked(shared: seq<SharedDrive>, plan: DrivePlan): DrivePlan {
    match StandingOf(shared, plan)
    case Owned(k) => plan.(existingDriveId := Some(shared[k].id))
    case _ => plan
  }

  datatype DrivesPlan = DrivesPlan(drives: seq<DrivePlan>, toCreate: nat, conflicts: nat)

  /**
    `_plan_shared_drives`: absent drives are counted for creation, foreign ones as conflicts,
    and owned ones remember their drive id for the folder and doc planners.
  */
  method PlanSharedDrives(shared: seq<SharedDrive>, plans: seq<DrivePlan>) returns (r: DrivesPlan)
    ensures |r.drives| == |plans|
    ensures forall i :: 0 <= i < |plans| ==> r.drives[i] == Marked(shared, plans[i])
    ensures r.toCreate == CountAbsent(shared, plans) && r.conflicts == CountForeign(shared, plans)
  {
    var drives: seq<DrivePlan> := [];
    var toCreate := 0;
    var conflicts := 0;
    for i := 0 to |plans|
      invariant |drives| == i
      invariant forall j :: 0 <= j < i ==> drives[j] == Marked(shared, plans[j])
      invariant toCreate == CountAbsent(shared, plans[..i]) && conflicts == CountForeign(shared, plans[..i])
    {
      CountsSnoc(shared, plans, i);
      var standing := StandingOf(shared, plans[i]);
      if standing.Absent? {
        toCreate := toCreate + 1;
      } else if standing.Foreign? {
        conflicts := conflicts + 1;
      }
      drives := drives + [Marked(shared, plans[i])];
    }
    assert plans[..|plans|] == plans;
    r := DrivesPlan(drives, toCreate, conflicts);
  }

  lemma CountsSnoc(shared: seq<SharedDrive>, plans: seq<DrivePlan>, i: nat)
    requires i < |plans|
    ensures CountAbsent(shared, plans[..i + 1])
      == CountAbsent(shared, plans[..i]) + (if StandingOf(shared, plans[i]).Absent? then 1 else 0)
    ensures CountForeign(shared, plans[..i + 1])
      == CountForeign(shared, plans[..i]) + (if StandingOf(shared, plans[i]).Foreign? then 1 else 0)
  {
    assert plans[..i + 1][..i] == plans[..i];
  }

  /** Every desired drive is classified exactly once. */
  lemma {:induction false} ClassifiedOnce(shared: seq<SharedDrive>, plans: seq<DrivePlan>)
    ensures CountAbsent(shared, plans) + CountOwned(shared, plans) + CountForeign(shared, plans) == |plans|
  {
    if |plans| > 0 {
      ClassifiedOnce(shared, plans[..|plans| - 1]);
    }
  }

  // ----- Apply -----

  /** `_DriveResult`, without the folder map the folder step fills in later. */
  datatype DriveResult = DriveResult(driveId: nat, name: string, department: string, markerId: string, docs: seq<DocPlan>)

  function ResultOf(driveId: nat, plan: DrivePlan): DriveResult {
    DriveResult(driveId, plan.name, plan.department, plan.markerId, plan.docs)
  }

  function DriveLabel(plan: DrivePlan): string {
    "drive:" + plan.name
  }

  /** The report only gains entries in `created` and `conflicts`; nothing else about it changes. */
  predicate ReportGrows(rep: ApplyReport, rep': ApplyReport) {
    && rep'.runName == rep.runName && rep'.updated == rep.updated && rep'.skipped == rep.skipped
    && rep'.warnings == rep.warnings
    && |rep.created| <= |rep'.created| && rep'.created[..|rep.created|] == rep.created
    && |rep.conflicts| <= |rep'.conflicts| && rep'.conflicts[..|rep.conflicts|] == rep.conflicts
  }

  lemma ReportGrowsTransitive(r0: ApplyReport, r1: ApplyReport, r2: ApplyReport)
    requires ReportGrows(r0, r1) && ReportGrows(r1, r2)
    ensures ReportGrows(r0, r2)
  {
    assert r2.created[..|r0.created|] == r2.created[..|r1.created|][..|r0.created|];
    assert r2.conflicts[..|r0.conflicts|] == r2.conflicts[..|r1.conflicts|][..|r0.conflicts|];
  }

  /**
    One iteration of `_ensure_shared_drives`: an owned drive is reused as is; a foreign one is
    reported as a conflict; an absent one is skipped in a dry run and otherwise created, the new
    drive being the last one listed, and given its marker by `admin`, the user the Drive calls
    act as. `placement` says where that parentless marker is filed.
  */
  function EnsureOne(runName: string, prefix: string, admin: string, ds: Drives, plan: DrivePlan, rep: ApplyReport,
                     dryRun: bool, placement: Placement): (r: (Drives, Option<DriveResult>, ApplyReport))
    ensures ReportGrows(rep, r.2)
    ensures |ds.shared| <= |r.0.shared| <= |ds.shared| + 1 && r.0.shared[..|ds.shared|] == ds.shared
    ensures |ds.shared| < |r.0.shared| ==> r.0.shared[|ds.shared|].name == plan.name
    ensures forall u :: (placement == DriveRoot || u != admin) ==> MyDriveFiles(r.0, u) == MyDriveFiles(ds, u)
  {
    match StandingOf(ds.shared, plan)
    case Owned(k) => (ds, Some(ResultOf(ds.shared[k].id, plan)), rep)
    case Foreign => (ds, None, rep.(conflicts := rep.conflicts + [DriveLabel(plan)]))
    case Absent =>
      if dryRun then (ds, None, rep)
      else
        var (ds1, sync) := EnsureSharedDrive(ds, plan.name, false);
        if sync.driveId.None? then
          (ds1, None, rep.(conflicts := rep.conflicts + [DriveLabel(plan)]))
        else
          var k := |ds.shared|;
          var (ds2, markerId) := EnsureDriveMarker(ds1, admin, k, runName, plan.markerId, prefix, false, placement);
          EnsureDriveMarkerFrame(ds1, admin, k, runName, plan.markerId, prefix, false, placement);
          if markerId == "" then (ds2, None, rep)
          else (ds2, Some(ResultOf(sync.driveId.value, plan)), rep.(created := rep.created + [DriveLabel(plan)]))
  }

  /** The marker `EnsureOne` writes into the drive it creates for `plan` in tenant `ds`. */
  function NewMarker(runName: string, prefix: string, ds: Drives, plan: DrivePlan): File {
    File(ds.nextId + 1, MarkerName(prefix), FolderMime, None, MarkerProps(runName, plan.markerId), [])
  }

  /**
    Outside a dry run, an absent plan gets one new drive, listed last and first with its name,
    reported with its id. The drive holds the marker when markers are filed at the drive's
    root; as sent it stays empty, and the marker is the acting user's.
  */
  lemma CreatedDrive(runName: string, prefix: string, admin: string, ds: Drives, plan: DrivePlan, rep: ApplyReport,
                     placement: Placement)
    requires StandingOf(ds.shared, plan).Absent?
    ensures var r := EnsureOne(runName, prefix, admin, ds, plan, rep, false, placement);
      var k := |ds.shared|;
      var m := NewMarker(runName, prefix, ds, plan);
      && |r.0.shared| == k + 1 && r.0.shared[k].id == ds.nextId && r.0.shared[k].name == plan.name
      && FindDriveByName(r.0.shared, plan.name) == Some(k)
      && r.1 == Some(ResultOf(ds.nextId, plan))
      && r.2 == rep.(created := rep.created + [DriveLabel(plan)])
      && (placement == DriveRoot ==> r.0.shared[k].files == [m])
      && (placement == AsSent ==> r.0.shared[k].files == [] && MyDriveFiles(r.0, admin) == MyDriveFiles(ds, admin) + [m])
  {
    var k := |ds.shared|;
    var ds1 := EnsureSharedDrive(ds, plan.name, false).0;
    var r := EnsureOne(runName, prefix, admin, ds, plan, rep, false, placement);
    assert ds1.shared[k].files == [] && ds1.shared[k].id == ds.nextId;
    assert FindFile(ds1.shared[k].files, MarkerQuery(plan.markerId)).None?;
    assert r.0.shared[..k] == ds.shared;
    forall j | 0 <= j < k ensures r.0.shared[j].name != plan.name {
      assert r.0.shared[j] == ds.shared[j];
    }
    FindDriveByNameIs(r.0.shared, plan.name, k);
  }

  lemma FindDriveByNameIs(shared: seq<SharedDrive>, name: string, k: nat)
    requires k < |shared| && shared[k].name == name
    requires forall j :: 0 <= j < k ==> shared[j].name != name
    ensures FindDriveByName(shared, name) == Some(k)
  {
    var r := FindDriveByName(shared, name);
    assert r.Some?;
    assert !(r.value < k);
  }

  /** Filed at the drive's root, the marker makes the created drive this run's: it is owned from then on. */
  lemma CreatedIsOwned(runName: string, prefix: string, admin: string, ds: Drives, plan: DrivePlan, rep: ApplyReport)
    requires StandingOf(ds.shared, plan).Absent?
    ensures var r := EnsureOne(runName, prefix, admin, ds, plan, rep, false, DriveRoot);
      StandingOf(r.0.shared, plan) == Owned(|ds.shared|) && r.1 == ResultFor(r.0.shared, plan)
  {
    CreatedDrive(runName, prefix, admin, ds, plan, rep, DriveRoot);
    var m := NewMarker(runName, prefix, ds, plan);
    MarkerMatchesQuery(m, runName, plan.markerId);
    FindFileIs([m], MarkerQuery(plan.markerId), 0);
  }

  /**
    As sent, the marker goes to the acting user's My Drive, so the drive just created holds
    no marker: it already counts as foreign, although this run reports it as created and
    returns it.
  */
  lemma CreatedIsForeign(runName: string, prefix: string, admin: string, ds: Drives, plan: DrivePlan, rep: ApplyReport)
    requires StandingOf(ds.shared, plan).Absent?
    ensures var r := EnsureOne(runName, prefix, admin, ds, plan, rep, false, AsSent);
      && StandingOf(r.0.shared, plan) == Foreign && ResultFor(r.0.shared, plan) == None
      && r.1.Some? && DriveLabel(plan) in r.2.created
  {
    CreatedDrive(runName, prefix, admin, ds, plan, rep, AsSent);
    var r := EnsureOne(runName, prefix, admin, ds, plan, rep, false, AsSent);
    assert r.2.created[|rep.created|] == DriveLabel(plan);
  }

  /** What one iteration does for each standing of the plan against the listing it starts from. */
  lemma EnsureOneOutcome(runName: string, prefix: string, admin: string, ds: Drives, plan: DrivePlan, rep: ApplyReport,
                         dryRun: bool, placement: Placement)
    ensures var r := EnsureOne(runName, prefix, admin, ds, plan, rep, dryRun, placement);
      match StandingOf(ds.shared, plan)
      case Absent =>
        if dryRun then r == (ds, None, rep)
        else (r.1 == Some(ResultOf(ds.nextId, plan))
          && r.2.created == rep.created + [DriveLabel(plan)] && r.2.conflicts == rep.conflicts)
      case Foreign =>
        && r.0 == ds && r.1 == None
        && r.2.created == rep.created && r.2.conflicts == rep.conflicts + [DriveLabel(plan)]
      case Owned(k) => r.0 == ds && r.2 == rep && r.1 == Some(ResultOf(ds.shared[k].id, plan))
  {
    if StandingOf(ds.shared, plan).Absent? && !dryRun {
      CreatedDrive(runName, prefix, admin, ds, plan, rep, placement);
    }
  }

  /**
    Outside a dry run, one iteration leaves its plan settled (owned or foreign). The result it
    returns is the one the new listing gives the plan exactly when the plan was already settled
    or the marker is filed at the drive's root.
  */
  lemma EnsureOneSettles(runName: string, prefix: string, admin: string, ds: Drives, plan: DrivePlan, rep: ApplyReport,
                         placement: Placement)
    ensures var r := EnsureOne(runName, prefix, admin, ds, plan, rep, false, placement);
      && !StandingOf(r.0.shared, plan).Absent?
      && (r.1 == ResultFor(r.0.shared, plan) <==> placement == DriveRoot || !StandingOf(ds.shared, plan).Absent?)
  {
    if StandingOf(ds.shared, plan).Absent? {
      if placement == DriveRoot {
        CreatedIsOwned(runName, prefix, admin, ds, plan, rep);
      } else {
        CreatedIsForeign(runName, prefix, admin, ds, plan, rep);
      }
    }
  }

  /** What a settled drive contributes to the results: its id when it is this run's. */
  function ResultFor(shared: seq<SharedDrive>, plan: DrivePlan): Option<DriveResult> {
    match StandingOf(shared, plan)
    case Owned(k) => Some(ResultOf(shared[k].id, plan))
    case _ => None
  }

  /** The results of every plan against one listing of the shared drives. */
  function Collect(shared: seq<SharedDrive>, plans: seq<DrivePlan>): seq<DriveResult> {
    if |plans| == 0 then []
    else
      var last := ResultFor(shared, plans[|plans| - 1]);
      Collect(shared, plans[..|plans| - 1]) + (if last.Some? then [last.value] else [])
  }

  /** `_ensure_shared_drives`: the plans in order, threading the tenant and the report. */
  function EnsureSharedDrives(runName: string, prefix: string, admin: string, ds: Drives, plans: seq<DrivePlan>,
                              rep: ApplyReport, dryRun: bool, placement: Placement): (r: (Drives, seq<DriveResult>, ApplyReport))
    ensures ReportGrows(rep, r.2)
    ensures forall u :: (placement == DriveRoot || u != admin) ==> MyDriveFiles(r.0, u) == MyDriveFiles(ds, u)
    ensures Extends(ds.shared, r.0.shared, plans)
    ensures dryRun ==> r.0 == ds && r.2.created == rep.created
  {
    if |plans| == 0 then (ds, [], rep)
    else
      var n := |plans| - 1;
      var before := EnsureSharedDrives(runName, prefix, admin, ds, plans[..n], rep, dryRun, placement);
      var step := EnsureOne(runName, prefix, admin, before.0, plans[n], before.2, dryRun, placement);
      ExtendsStep(ds.shared, before.0.shared, step.0.shared, plans);
      ReportGrowsTransitive(rep, before.2, step.2);
      (step.0, before.1 + (if step.1.Some? then [step.1.value] else []), step.2)
  }

  /** The names of the plans, in order. */
  function Names(plans: seq<DrivePlan>): (ns: seq<string>)
    ensures |ns| == |plans| && forall i :: 0 <= i < |plans| ==> ns[i] == plans[i].name
  {
    if |plans| == 0 then [] else Names(plans[..|plans| - 1]) + [plans[|plans| - 1].name]
  }

  /** The drives listed before are listed the same way, and every new drive is named after a plan. */
  predicate Extends(before: seq<SharedDrive>, after: seq<SharedDrive>, plans: seq<DrivePlan>) {
    && |before| <= |after| && after[..|before|] == before
    && forall k :: |before| <= k < |after| ==> after[k].name in Names(plans)
  }

  lemma ExtendsStep(s0: seq<SharedDrive>, s1: seq<SharedDrive>, s2: seq<SharedDrive>, plans: seq<DrivePlan>)
    requires |plans| > 0
    requires Extends(s0, s1, plans[..|plans| - 1])
    requires |s1| <= |s2| <= |s1| + 1 && s2[..|s1|] == s1
    requires |s1| < |s2| ==> s2[|s1|].name == plans[|plans| - 1].name
    ensures Extends(s0, s2, plans)
  {
    var n := |plans| - 1;
    assert Names(plans) == Names(plans[..n]) + [plans[n].name];
    assert s2[..|s0|] == s1[..|s0|];
    forall k | |s0| <= k < |s2|
      ensures s2[k].name in Names(plans)
    {
      if k < |s1| {
        assert s2[k] == s2[..|s1|][k] == s1[k];
      }
    }
  }

  /** A drive that was already found keeps its standing when drives are only appended. */
  lemma StandingKept(before: seq<SharedDrive>, after: seq<SharedDrive>, plan: DrivePlan)
    requires |before| <= |after| && after[..|before|] == before
    requires !StandingOf(before, plan).Absent?
    ensures StandingOf(after, plan) == StandingOf(before, plan)
    ensures ResultFor(after, plan) == ResultFor(before, plan)
  {
    var k := FindDriveByName(before, plan.name).value;
    assert after == before + after[|before|..];
    FindDriveByNameAppend(before, after[|before|..], plan.name);
    assert after[k] == before[k];
  }

  /** A drive none of whose name was appended keeps its standing. */
  lemma StandingUnaffected(before: seq<SharedDrive>, after: seq<SharedDrive>, plans: seq<DrivePlan>, plan: DrivePlan)
    requires Extends(before, after, plans)
    requires forall i :: 0 <= i < |plans| ==> plans[i].name != plan.name
    ensures StandingOf(after, plan) == StandingOf(before, plan)
  {
    if StandingOf(before, plan).Absent? {
      forall k | 0 <= k < |after|
        ensures after[k].name != plan.name
      {
        if k < |before| {
          assert after[k] == after[..|before|][k] == before[k];
        } else {
          assert plan.name !in Names(plans);
        }
      }
    } else {
      StandingKept(before, after, plan);
    }
  }

  /** Collecting over a longer listing gives the same results once every plan is settled. */
  lemma {:induction false} CollectKept(before: seq<SharedDrive>, after: seq<SharedDrive>, plans: seq<DrivePlan>)
    requires |before| <= |after| && after[..|before|] == before
    requires forall i :: 0 <= i < |plans| ==> !StandingOf(before, plans[i]).Absent?
    ensures Collect(after, plans) == Collect(before, plans)
  {
    if |plans| > 0 {
      var n := |plans| - 1;
      CollectKept(before, after, plans[..n]);
      StandingKept(before, after, plans[n]);
    }
  }

  /** Plans settled against a listing stay settled when drives are only appended. */
  lemma SettledKept(before: seq<SharedDrive>, after: seq<SharedDrive>, plans: seq<DrivePlan>)
    requires |before| <= |after| && after[..|before|] == before
    requires forall i :: 0 <= i < |plans| ==> !StandingOf(before, plans[i]).Absent?
    ensures forall i :: 0 <= i < |plans| ==> !StandingOf(after, plans[i]).Absent?
  {
    forall i | 0 <= i < |plans|
      ensures !StandingOf(after, plans[i]).Absent?
    {
      StandingKept(before, after, plans[i]);
    }
  }

  lemma SettledSnoc(shared: seq<SharedDrive>, pre: seq<DrivePlan>, plans: seq<DrivePlan>)
    requires |plans| > 0 && pre == plans[..|plans| - 1]
    requires forall i :: 0 <= i < |pre| ==> !StandingOf(shared, pre[i]).Absent?
    requires !StandingOf(shared, plans[|plans| - 1]).Absent?
    ensures forall i :: 0 <= i < |plans| ==> !StandingOf(shared, plans[i]).Absent?
  {
    forall i | 0 <= i < |plans| - 1
      ensures !StandingOf(shared, plans[i]).Absent?
    {
      assert pre[i] == plans[i];
    }
  }

  /** After a run that is not a dry run, every plan is settled and the results are what it collects. */
  lemma {:induction false} EnsureSettles(runName: string, prefix: string, admin: string, ds: Drives, plans: seq<DrivePlan>,
                                         rep: ApplyReport, placement: Placement)
    ensures var r := EnsureSharedDrives(runName, prefix, admin, ds, plans, rep, false, placement);
      && (forall i :: 0 <= i < |plans| ==> !StandingOf(r.0.shared, plans[i]).Absent?)
      && (placement == DriveRoot ==> r.1 == Collect(r.0.shared, plans))
  {
    if |plans| > 0 {
      var n := |plans| - 1;
      var pre := plans[..n];
      EnsureSettles(runName, prefix, admin, ds, pre, rep, placement);
      var before := EnsureSharedDrives(runName, prefix, admin, ds, pre, rep, false, placement);
      var step := EnsureOne(runName, prefix, admin, before.0, plans[n], before.2, false, placement);
      var r := EnsureSharedDrives(runName, prefix, admin, ds, plans, rep, false, placement);
      assert r.0 == step.0 && r.1 == before.1 + (if step.1.Some? then [step.1.value] else []);
      EnsureOneSettles(runName, prefix, admin, before.0, plans[n], before.2, placement);
      SettledKept(before.0.shared, step.0.shared, pre);
      SettledSnoc(step.0.shared, pre, plans);
      CollectKept(before.0.shared, step.0.shared, pre);
    }
  }

  /** A run over settled plans writes nothing, creates nothing, and returns what it collects. */
  lemma {:induction false} SettledRunIsQuiet(runName: string, prefix: string, admin: string, ds: Drives, plans: seq<DrivePlan>,
                                             rep: ApplyReport, dryRun: bool, placement: Placement)
    requires forall i :: 0 <= i < |plans| ==> !StandingOf(ds.shared, plans[i]).Absent?
    ensures var r := EnsureSharedDrives(runName, prefix, admin, ds, plans, rep, dryRun, placement);
      r.0 == ds && r.1 == Collect(ds.shared, plans) && r.2.created == rep.created
  {
    if |plans| > 0 {
      var n := |plans| - 1;
      assert forall i :: 0 <= i < n ==> plans[..n][i] == plans[i];
      SettledRunIsQuiet(runName, prefix, admin, ds, plans[..n], rep, dryRun, placement);
      var before := EnsureSharedDrives(runName, prefix, admin, ds, plans[..n], rep, dryRun, placement);
      var step := EnsureOne(runName, prefix, admin, ds, plans[n], before.2, dryRun, placement);
      EnsureOneOutcome(runName, prefix, admin, ds, plans[n], before.2, dryRun, placement);
      assert step.0 == ds && step.1 == ResultFor(ds.shared, plans[n]) && step.2.created == before.2.created;
      var r := EnsureSharedDrives(runName, prefix, admin, ds, plans, rep, dryRun, placement);
      assert r == (step.0, before.1 + (if step.1.Some? then [step.1.value] else []), step.2);
    }
  }

  /**
    With markers filed at the drive's root, re-running the drive step right after a run
    changes no drive, reports no new drive as created, and yields the same drive results.
  */
  lemma EnsureSharedDrivesIdempotent(runName: string, prefix: string, admin: string, ds: Drives, plans: seq<DrivePlan>,
                                     rep: ApplyReport, rep2: ApplyReport)
    ensures var first := EnsureSharedDrives(runName, prefix, admin, ds, plans, rep, false, DriveRoot);
      var second := EnsureSharedDrives(runName, prefix, admin, first.0, plans, rep2, false, DriveRoot);
      second.0 == first.0 && second.1 == first.1 && second.2.created == rep2.created
  {
    EnsureSettles(runName, prefix, admin, ds, plans, rep, DriveRoot);
    var first := EnsureSharedDrives(runName, prefix, admin, ds, plans, rep, false, DriveRoot);
    SettledRunIsQuiet(runName, prefix, admin, first.0, plans, rep2, false, DriveRoot);
  }

  /** The standing a plan has after an as-sent run: a drive it creates is foreign, since its marker is filed elsewhere. */
  function AsSentAfter(s: Standing): Standing {
    if s.Absent? then Foreign else s
  }

  /** One as-sent iteration settles its own plan as `AsSentAfter` says. */
  lemma AsSentOne(runName: string, prefix: string, admin: string, ds: Drives, plan: DrivePlan, rep: ApplyReport)
    ensures var r := EnsureOne(runName, prefix, admin, ds, plan, rep, false, AsSent);
      StandingOf(r.0.shared, plan) == AsSentAfter(StandingOf(ds.shared, plan))
  {
    if StandingOf(ds.shared, plan).Absent? {
      CreatedIsForeign(runName, prefix, admin, ds, plan, rep);
    } else {
      EnsureOneOutcome(runName, prefix, admin, ds, plan, rep, false, AsSent);
    }
  }

  /**
    As sent, with distinct drive names, every drive the run creates ends up foreign: plans
    absent before are foreign after, and every other plan keeps its standing.
  */
  lemma {:induction false} AsSentStandings(runName: string, prefix: string, admin: string, ds: Drives,
                                           plans: seq<DrivePlan>, rep: ApplyReport)
    requires DistinctNames(plans)
    ensures var r := EnsureSharedDrives(runName, prefix, admin, ds, plans, rep, false, AsSent);
      forall i :: 0 <= i < |plans| ==> StandingOf(r.0.shared, plans[i]) == AsSentAfter(StandingOf(ds.shared, plans[i]))
  {
    if |plans| > 0 {
      var n := |plans| - 1;
      var pre := plans[..n];
      assert DistinctNames(pre);
      AsSentStandings(runName, prefix, admin, ds, pre, rep);
      var before := EnsureSharedDrives(runName, prefix, admin, ds, pre, rep, false, AsSent);
      var step := EnsureOne(runName, prefix, admin, before.0, plans[n], before.2, false, AsSent);
      assert step.0 == EnsureSharedDrives(runName, prefix, admin, ds, plans, rep, false, AsSent).0;
      AsSentOne(runName, prefix, admin, before.0, plans[n], before.2);
      AsSentSnoc(ds.shared, before.0.shared, step.0.shared, plans);
    }
  }

  /** The step of `AsSentStandings`, over the three listings it passes through. */
  lemma AsSentSnoc(s0: seq<SharedDrive>, s1: seq<SharedDrive>, s2: seq<SharedDrive>, plans: seq<DrivePlan>)
    requires |plans| > 0 && DistinctNames(plans)
    requires var pre := plans[..|plans| - 1];
      && Extends(s0, s1, pre)
      && forall i :: 0 <= i < |pre| ==> StandingOf(s1, pre[i]) == AsSentAfter(StandingOf(s0, pre[i]))
    requires |s1| <= |s2| && s2[..|s1|] == s1
    requires StandingOf(s2, plans[|plans| - 1]) == AsSentAfter(StandingOf(s1, plans[|plans| - 1]))
    ensures forall i :: 0 <= i < |plans| ==> StandingOf(s2, plans[i]) == AsSentAfter(StandingOf(s0, plans[i]))
  {
    var n := |plans| - 1;
    var pre := plans[..n];
    forall i | 0 <= i < |pre| ensures pre[i].name != plans[n].name {
      assert pre[i] == plans[i];
    }
    StandingUnaffected(s0, s1, pre, plans[n]);
    forall i | 0 <= i < n
      ensures StandingOf(s2, plans[i]) == AsSentAfter(StandingOf(s0, plans[i]))
    {
      assert pre[i] == plans[i];
      AsSentKept(s1, s2, plans[i], StandingOf(s0, plans[i]));
    }
  }

  lemma AsSentKept(s1: seq<SharedDrive>, s2: seq<SharedDrive>, plan: DrivePlan, s: Standing)
    requires |s1| <= |s2| && s2[..|s1|] == s1 && StandingOf(s1, plan) == AsSentAfter(s)
    ensures StandingOf(s2, plan) == AsSentAfter(s)
  {
    StandingKept(s1, s2, plan);
  }

  /** Listings that give every plan the same result collect the same results. */
  lemma {:induction false} CollectSame(a: seq<SharedDrive>, b: seq<SharedDrive>, plans: seq<DrivePlan>)
    requires forall i :: 0 <= i < |plans| ==> ResultFor(a, plans[i]) == ResultFor(b, plans[i])
    ensures Collect(a, plans) == Collect(b, plans)
  {
    if |plans| > 0 {
      var n := |plans| - 1;
      assert forall i :: 0 <= i < n ==> plans[..n][i] == plans[i];
      CollectSame(a, b, plans[..n]);
    }
  }

  /**
    As sent, a re-run finds each drive the first run created by name but not its marker: it
    writes nothing, creates nothing, returns only the drives that were this run's before the
    first run, and reports every drive the first run created as a conflict.
  */
  lemma RerunReportsConflicts(runName: string, prefix: string, admin: string, ds: Drives, plans: seq<DrivePlan>,
                              rep: ApplyReport, rep2: ApplyReport)
    requires DistinctNames(plans)
    ensures var first := EnsureSharedDrives(runName, prefix, admin, ds, plans, rep, false, AsSent);
      var second := EnsureSharedDrives(runName, prefix, admin, first.0, plans, rep2, false, AsSent);
      && second.0 == first.0 && second.2.created == rep2.created
      && second.1 == Collect(ds.shared, plans)
      && second.2.conflicts == rep2.conflicts + ForeignLabels(first.0.shared, plans)
      && forall i :: 0 <= i < |plans| && StandingOf(ds.shared, plans[i]).Absent? ==>
           DriveLabel(plans[i]) in first.2.created && DriveLabel(plans[i]) in second.2.conflicts
  {
    var first := EnsureSharedDrives(runName, prefix, admin, ds, plans, rep, false, AsSent);
    AsSentStandings(runName, prefix, admin, ds, plans, rep);
    SettledRunIsQuiet(runName, prefix, admin, first.0, plans, rep2, false, AsSent);
    forall i | 0 <= i < |plans| ensures ResultFor(first.0.shared, plans[i]) == ResultFor(ds.shared, plans[i]) {
      if !StandingOf(ds.shared, plans[i]).Absent? {
        StandingKept(ds.shared, first.0.shared, plans[i]);
      }
    }
    CollectSame(first.0.shared, ds.shared, plans);
    ApplyMatchesPlan(runName, prefix, admin, first.0, plans, rep2, AsSent);
    ApplyMatchesPlan(runName, prefix, admin, ds, plans, rep, AsSent);
  }

  predicate DistinctNames(plans: seq<DrivePlan>) {
    forall i, j :: 0 <= i < j < |plans| ==> plans[i].name != plans[j].name
  }

  /** The labels `apply` reports for the plans of one standing against the original listing. */
  function AbsentLabels(shared: seq<SharedDrive>, plans: seq<DrivePlan>): (ls: seq<string>)
    ensures |ls| == CountAbsent(shared, plans)
    ensures forall i :: 0 <= i < |plans| && StandingOf(shared, plans[i]).Absent? ==> DriveLabel(plans[i]) in ls
  {
    if |plans| == 0 then []
    else
      var p := plans[|plans| - 1];
      assert forall i :: 0 <= i < |plans| - 1 ==> plans[..|plans| - 1][i] == plans[i];
      AbsentLabels(shared, plans[..|plans| - 1]) + (if StandingOf(shared, p).Absent? then [DriveLabel(p)] else [])
  }

  function ForeignLabels(shared: seq<SharedDrive>, plans: seq<DrivePlan>): (ls: seq<string>)
    ensures |ls| == CountForeign(shared, plans)
    ensures forall i :: 0 <= i < |plans| && StandingOf(shared, plans[i]).Foreign? ==> DriveLabel(plans[i]) in ls
  {
    if |plans| == 0 then []
    else
      var p := plans[|plans| - 1];
      assert forall i :: 0 <= i < |plans| - 1 ==> plans[..|plans| - 1][i] == plans[i];
      ForeignLabels(shared, plans[..|plans| - 1]) + (if StandingOf(shared, p).Foreign? then [DriveLabel(p)] else [])
  }

  /**
    With distinct drive names, `apply` reports as created exactly the drives `plan` counts for
    creation, and as conflicts exactly those it counts as conflicts, in plan order.
  */
  lemma {:induction false} ApplyMatchesPlan(runName: string, prefix: string, admin: string, ds: Drives, plans: seq<DrivePlan>,
                                            rep: ApplyReport, placement: Placement)
    requires DistinctNames(plans)
    ensures var r := EnsureSharedDrives(runName, prefix, admin, ds, plans, rep, false, placement);
      && r.2.created == rep.created + AbsentLabels(ds.shared, plans)
      && r.2.conflicts == rep.conflicts + ForeignLabels(ds.shared, plans)
  {
    if |plans| > 0 {
      var n := |plans| - 1;
      var pre := plans[..n];
      assert DistinctNames(pre);
      ApplyMatchesPlan(runName, prefix, admin, ds, pre, rep, placement);
      var before := EnsureSharedDrives(runName, prefix, admin, ds, pre, rep, false, placement);
      assert forall i :: 0 <= i < |pre| ==> pre[i].name != plans[n].name;
      StandingUnaffected(ds.shared, before.0.shared, pre, plans[n]);
      EnsureOneOutcome(runName, prefix, admin, before.0, plans[n], before.2, false, placement);
      var a := AbsentLabels(ds.shared, pre);
      var f := ForeignLabels(ds.shared, pre);
      SnocAssoc(rep.created, a, DriveLabel(plans[n]));
      SnocAssoc(rep.conflicts, f, DriveLabel(plans[n]));
      AppendEmpty(a);
      AppendEmpty(f);
      AppendEmpty(rep.created + a);
      AppendEmpty(rep.conflicts + f);
    }
  }
}
