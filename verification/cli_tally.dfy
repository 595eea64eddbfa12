/**
  How the CLI books the outcome of one user or group sync: as a counter of the plan report
  (during `plan`) or as an entry of one list of the apply report (during `apply`). Both read the
  four flags of a sync result with the same precedence, conflict first, then created, then
  updated, and anything else as skipped.
*/
module CliTally {
  import opened Report
  import opened GoogleAdmin

  datatype Kind = UserKind | GroupKind

  /** The four outcomes a sync result is booked under. */
  datatype Bucket = Conflicted | Created | Updated | Skipped

  /** `"user:{email}"` or `"group:{email}"` */
  function Label(kind: Kind, email: string): string {
    (if kind == UserKind then "user:" else "group:") + email
  }

  /** The outcome the tally and the record both read from a result. */
  function Classify(r: SyncResult): (b: Bucket)
    ensures r.conflict ==> b == Conflicted
    ensures b == Created ==> r.created
    ensures b == Updated ==> r.updated && !r.created
    ensures b == Skipped ==> !r.conflict && !r.created && !r.updated
  {
    if r.conflict then Conflicted
    else if r.created then Created
    else if r.updated then Updated
    else Skipped
  }

  /** For a result with exactly one flag set, as every ensure function returns, the flag is the bucket. */
  lemma ClassifyOneFlag(r: SyncResult)
    requires ExactlyOneFlag(r)
    ensures Classify(r) == Conflicted <==> r.conflict
    ensures Classify(r) == Created <==> r.created
    ensures Classify(r) == Updated <==> r.updated
    ensures Classify(r) == Skipped <==> r.skipped
  {
  }

  /** The counter of the plan report for one kind and bucket. */
  function Count(c: PlanCounts, kind: Kind, b: Bucket): nat {
    match (kind, b)
    case (UserKind, Conflicted) => c.usersConflict
    case (UserKind, Created) => c.usersCreate
    case (UserKind, Updated) => c.usersUpdate
    case (UserKind, Skipped) => c.usersSkip
    case (GroupKind, Conflicted) => c.groupsConflict
    case (GroupKind, Created) => c.groupsCreate
    case (GroupKind, Updated) => c.groupsUpdate
    case (GroupKind, Skipped) => c.groupsSkip
  }

  /** The counters that have nothing to do with users and groups agree. */
  predicate SameOtherCounts(c: PlanCounts, d: PlanCounts) {
    c.licensesAssign == d.licensesAssign && c.drivesCreate == d.drivesCreate
    && c.drivesSkip == d.drivesSkip && c.drivesConflict == d.drivesConflict
    && c.foldersCreate == d.foldersCreate && c.docsCreate == d.docsCreate
    && c.docsUpdate == d.docsUpdate && c.permissionsCreate == d.permissionsCreate
  }

  /** `counts.<kind>_<bucket> += 1` */
  function Bump(c: PlanCounts, kind: Kind, b: Bucket): (d: PlanCounts)
    ensures Count(d, kind, b) == Count(c, kind, b) + 1
    ensures forall k, b2 :: (k != kind || b2 != b) ==> Count(d, k, b2) == Count(c, k, b2)
    ensures SameOtherCounts(c, d)
  {
    match (kind, b)
    case (UserKind, Conflicted) => c.(usersConflict := c.usersConflict + 1)
    case (UserKind, Created) => c.(usersCreate := c.usersCreate + 1)
    case (UserKind, Updated) => c.(usersUpdate := c.usersUpdate + 1)
    case (UserKind, Skipped) => c.(usersSkip := c.usersSkip + 1)
    case (GroupKind, Conflicted) => c.(groupsConflict := c.groupsConflict + 1)
    case (GroupKind, Created) => c.(groupsCreate := c.groupsCreate + 1)
    case (GroupKind, Updated) => c.(groupsUpdate := c.groupsUpdate + 1)
    case (GroupKind, Skipped) => c.(groupsSkip := c.groupsSkip + 1)
  }

  /** `_tally_user_result` and `_tally_group_result`: one counter up, and a conflict noted by label. */
  function Tally(kind: Kind, r: SyncResult, rep: PlanReport): (out: PlanReport)
    ensures Count(out.counts, kind, Classify(r)) == Count(rep.counts, kind, Classify(r)) + 1
    ensures forall k, b :: (k != kind || b != Classify(r)) ==> Count(out.counts, k, b) == Count(rep.counts, k, b)
    ensures SameOtherCounts(rep.counts, out.counts)
    ensures r.conflict ==> out.conflicts == rep.conflicts + [Label(kind, r.email)]
    ensures !r.conflict ==> out.conflicts == rep.conflicts
    ensures out.runName == rep.runName && out.warnings == rep.warnings && out.prerequisites == rep.prerequisites
  {
    var b := Classify(r);
    var counts := Bump(rep.counts, kind, b);
    if b == Conflicted then
      rep.(counts := counts, conflicts := rep.conflicts + [Label(kind, r.email)])
    else
      rep.(counts := counts)
  }

  /** The list of the apply report a bucket is recorded in. */
  function Entries(rep: ApplyReport, b: Bucket): seq<string> {
    match b
    case Conflicted => rep.conflicts
    case Created => rep.created
    case Updated => rep.updated
    case Skipped => rep.skipped
  }

  /** `_record_user_result` and `_record_group_result`: the label appended to exactly one list. */
  function Record(kind: Kind, r: SyncResult, rep: ApplyReport): (out: ApplyReport)
    ensures Entries(out, Classify(r)) == Entries(rep, Classify(r)) + [Label(kind, r.email)]
    ensures forall b :: b != Classify(r) ==> Entries(out, b) == Entries(rep, b)
    ensures out.runName == rep.runName && out.warnings == rep.warnings
  {
    var e := Label(kind, r.email);
    match Classify(r)
    case Conflicted => rep.(conflicts := rep.conflicts + [e])
    case Created => rep.(created := rep.created + [e])
    case Updated => rep.(updated := rep.updated + [e])
    case Skipped => rep.(skipped := rep.skipped + [e])
  }

  /** Tallying results one after another, as the planning loop does. */
  function TallyAll(kind: Kind, rs: seq<SyncResult>, rep: PlanReport): PlanReport {
    if |rs| == 0 then rep else Tally(kind, rs[|rs| - 1], TallyAll(kind, rs[..|rs| - 1], rep))
  }

  /** Recording results one after another, as the apply loop does. */
  function RecordAll(kind: Kind, rs: seq<SyncResult>, rep: ApplyReport): ApplyReport {
    if |rs| == 0 then rep else Record(kind, rs[|rs| - 1], RecordAll(kind, rs[..|rs| - 1], rep))
  }

  /** The labels of the results booked under `b`, in order. */
  function Labels(kind: Kind, rs: seq<SyncResult>, b: Bucket): (ls: seq<string>)
    ensures |ls| <= |rs|
  {
    if |rs| == 0 then []
    else
      var last := rs[|rs| - 1];
      Labels(kind, rs[..|rs| - 1], b) + (if Classify(last) == b then [Label(kind, last.email)] else [])
  }

  /** Each bucket's counter grows by the number of results booked under it; the other kind's do not move. */
  lemma {:induction false} TallyAllCounts(kind: Kind, rs: seq<SyncResult>, rep: PlanReport, b: Bucket)
    ensures Count(TallyAll(kind, rs, rep).counts, kind, b) == Count(rep.counts, kind, b) + |Labels(kind, rs, b)|
    ensures forall k, b2 :: k != kind ==> Count(TallyAll(kind, rs, rep).counts, k, b2) == Count(rep.counts, k, b2)
    ensures SameOtherCounts(rep.counts, TallyAll(kind, rs, rep).counts)
    ensures TallyAll(kind, rs, rep).conflicts == rep.conflicts + Labels(kind, rs, Conflicted)
    decreases |rs|
  {
    if |rs| > 0 {
      var n := |rs| - 1;
      TallyAllCounts(kind, rs[..n], rep, b);
      var last := rs[n];
      if last.conflict {
        assert rep.conflicts + Labels(kind, rs[..n], Conflicted) + [Label(kind, last.email)]
          == rep.conflicts + (Labels(kind, rs[..n], Conflicted) + [Label(kind, last.email)]);
      } else {
        assert Labels(kind, rs, Conflicted) == Labels(kind, rs[..n], Conflicted) + [];
      }
    }
  }

  /** Each list grows by the labels of the results booked under its bucket, in order. */
  lemma {:induction false} RecordAllEntries(kind: Kind, rs: seq<SyncResult>, rep: ApplyReport, b: Bucket)
    ensures Entries(RecordAll(kind, rs, rep), b) == Entries(rep, b) + Labels(kind, rs, b)
    decreases |rs|
  {
    if |rs| > 0 {
      var n := |rs| - 1;
      RecordAllEntries(kind, rs[..n], rep, b);
      var last := rs[n];
      if Classify(last) == b {
        assert Entries(rep, b) + Labels(kind, rs[..n], b) + [Label(kind, last.email)]
          == Entries(rep, b) + (Labels(kind, rs[..n], b) + [Label(kind, last.email)]);
      } else {
        assert Labels(kind, rs, b) == Labels(kind, rs[..n], b) + [];
      }
    }
  }

  /**
    The plan and the apply book the same results alike: starting from empty reports, every
    counter of the plan is the length of the matching list of the apply, and both reports list
    the same conflicts.
  */
  lemma PlanAgreesWithApply(kind: Kind, rs: seq<SyncResult>, runName: string, b: Bucket)
    ensures Count(TallyAll(kind, rs, NewPlanReport(runName)).counts, kind, b)
      == |Entries(RecordAll(kind, rs, NewApplyReport(runName)), b)|
    ensures TallyAll(kind, rs, NewPlanReport(runName)).conflicts
      == RecordAll(kind, rs, NewApplyReport(runName)).conflicts
  {
    TallyAllCounts(kind, rs, NewPlanReport(runName), b);
    RecordAllEntries(kind, rs, NewApplyReport(runName), b);
    TallyAllCounts(kind, rs, NewPlanReport(runName), Conflicted);
    RecordAllEntries(kind, rs, NewApplyReport(runName), Conflicted);
  }

  /** Every result lands in exactly one bucket: the four bucket sizes add up to the results. */
  lemma {:induction false} LabelsPartition(kind: Kind, rs: seq<SyncResult>)
    ensures |Labels(kind, rs, Conflicted)| + |Labels(kind, rs, Created)| + |Labels(kind, rs, Updated)|
      + |Labels(kind, rs, Skipped)| == |rs|
    decreases |rs|
  {
    if |rs| > 0 {
      LabelsPartition(kind, rs[..|rs| - 1]);
    }
  }

  /** Tallying adds one to the user counters per user tallied. */
  lemma UsersAllClassified(rs: seq<SyncResult>, rep: PlanReport)
    ensures UsersClassified(TallyAll(UserKind, rs, rep).counts) == UsersClassified(rep.counts) + |rs|
  {
    var c := TallyAll(UserKind, rs, rep).counts;
    var c0 := rep.counts;
    assert c.usersConflict == c0.usersConflict + |Labels(UserKind, rs, Conflicted)| by {
      TallyAllCounts(UserKind, rs, rep, Conflicted);
    }
    assert c.usersCreate == c0.usersCreate + |Labels(UserKind, rs, Created)| by {
      TallyAllCounts(UserKind, rs, rep, Created);
    }
    assert c.usersUpdate == c0.usersUpdate + |Labels(UserKind, rs, Updated)| by {
      TallyAllCounts(UserKind, rs, rep, Updated);
    }
    assert c.usersSkip == c0.usersSkip + |Labels(UserKind, rs, Skipped)| by {
      TallyAllCounts(UserKind, rs, rep, Skipped);
    }
    LabelsPartition(UserKind, rs);
  }
}
