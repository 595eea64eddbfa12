/**
  The folder and document counts of `plan`. A drive that does not exist yet contributes every
  folder and document it will hold; in a drive this run already owns, each folder or document
  is looked up by its tags, and only what is missing (or, for documents, generated under
  another prompt version) is counted.
*/
module CliPlan {
  import opened Wrappers
  import opened PyDict
  import opened Tenant
  import opened GoogleDrive
  import opened Blueprints
  import opened Entra
  import opened CliLayout
  import opened Folds

  /** The files the Drive API lists for the shared drive with this id; an unknown id lists none. */
  function DriveFiles(shared: seq<SharedDrive>, driveId: nat): seq<File> {
    match DriveIndex(shared, driveId)
    case Some(i) => shared[i].files
    case None => []
  }

  // ----- Folders -----

  /** The tags `plan` looks a folder up by. */
  function FolderProps(runName: string, stableId: string, path: string): Props {
    BuildAppProperties(runName, stableId, "folder", path, None, None)
  }

  /** A folder path (with its stable id) is already there: some listed file carries its tags. */
  predicate FolderFound(runName: string, files: seq<File>, entry: (string, string)) {
    FindFile(files, FolderProps(runName, entry.1, entry.0)).Some?
  }

  /** The test `plan` applies to each folder path of an owned drive: no listed file carries its tags. */
  function FolderAbsent(runName: string, files: seq<File>): (p: ((string, string)) -> bool)
    ensures forall e :: p(e) == !FolderFound(runName, files, e)
  {
    e => !FolderFound(runName, files, e)
  }

  /** The folders one drive still needs: all of them when the drive does not exist yet. */
  function FolderShortfall(runName: string, shared: seq<SharedDrive>, d: DrivePlan): (n: nat)
    ensures n <= |d.folderPaths|
  {
    match d.existingDriveId
    case None => |d.folderPaths|
    case Some(id) => Count(FolderAbsent(runName, DriveFiles(shared, id)), d.folderPaths)
  }

  function Shortfall(runName: string, shared: seq<SharedDrive>): (f: DrivePlan -> nat)
    ensures forall d :: f(d) == FolderShortfall(runName, shared, d)
  {
    d => FolderShortfall(runName, shared, d)
  }

  function FolderPathCount(): (f: DrivePlan -> nat)
    ensures forall d :: f(d) == |d.folderPaths|
  {
    (d: DrivePlan) => |d.folderPaths|
  }

  /** The folder count of a whole plan, drive by drive. */
  function FolderCount(runName: string, shared: seq<SharedDrive>, drives: seq<DrivePlan>): nat {
    Sum(Shortfall(runName, shared), drives)
  }

  /** Every folder path of every drive. */
  function FolderTotal(drives: seq<DrivePlan>): nat {
    Sum(FolderPathCount(), drives)
  }

  /** `_plan_folders`, loop for loop. */
  method PlanFolders(runName: string, shared: seq<SharedDrive>, drives: seq<DrivePlan>) returns (toCreate: nat)
    ensures toCreate == FolderCount(runName, shared, drives)
  {
    toCreate := 0;
    for i := 0 to |drives|
      invariant toCreate == Sum(Shortfall(runName, shared), drives[..i])
    {
      SumSnoc(Shortfall(runName, shared), drives, i);
      var drive := drives[i];
      if drive.existingDriveId.None? {
        toCreate := toCreate + |drive.folderPaths|;
      } else {
        var files := DriveFiles(shared, drive.existingDriveId.value);
        var missing := 0;
        for j := 0 to |drive.folderPaths|
          invariant missing == Count(FolderAbsent(runName, files), drive.folderPaths[..j])
        {
          CountSnoc(FolderAbsent(runName, files), drive.folderPaths, j);
          var (path, stableId) := drive.folderPaths[j];
          if FindFile(files, FolderProps(runName, stableId, path)).None? {
            missing := missing + 1;
          }
        }
        Whole(drive.folderPaths);
        toCreate := toCreate + missing;
      }
    }
    Whole(drives);
  }

  /** The plan never counts more folders than the drives hold. */
  lemma FolderCountBound(runName: string, shared: seq<SharedDrive>, drives: seq<DrivePlan>)
    ensures FolderCount(runName, shared, drives) <= FolderTotal(drives)
  {
    SumLe(Shortfall(runName, shared), FolderPathCount(), drives);
  }

  /** Against drives that do not exist yet, every folder is counted. */
  lemma FolderCountFresh(runName: string, shared: seq<SharedDrive>, drives: seq<DrivePlan>)
    requires forall i :: 0 <= i < |drives| ==> drives[i].existingDriveId.None?
    ensures FolderCount(runName, shared, drives) == FolderTotal(drives)
  {
    SumSame(Shortfall(runName, shared), FolderPathCount(), drives);
  }

  /** A drive whose folders all exist: an owned drive where every folder is found. */
  predicate FoldersSettled(runName: string, shared: seq<SharedDrive>, d: DrivePlan) {
    match d.existingDriveId
    case None => |d.folderPaths| == 0
    case Some(id) => forall j :: 0 <= j < |d.folderPaths| ==> FolderFound(runName, DriveFiles(shared, id), d.folderPaths[j])
  }

  lemma ShortfallZero(runName: string, shared: seq<SharedDrive>, d: DrivePlan)
    ensures FolderShortfall(runName, shared, d) == 0 <==> FoldersSettled(runName, shared, d)
  {
    if d.existingDriveId.Some? {
      CountNone(FolderAbsent(runName, DriveFiles(shared, d.existingDriveId.value)), d.folderPaths);
    }
  }

  /** The plan counts no folder exactly when every drive's folders are all in place. */
  lemma FolderCountZero(runName: string, shared: seq<SharedDrive>, drives: seq<DrivePlan>)
    ensures FolderCount(runName, shared, drives) == 0
      <==> forall i :: 0 <= i < |drives| ==> FoldersSettled(runName, shared, drives[i])
  {
    SumZero(Shortfall(runName, shared), drives);
    forall i | 0 <= i < |drives|
      ensures FolderShortfall(runName, shared, drives[i]) == 0 <==> FoldersSettled(runName, shared, drives[i])
    {
      ShortfallZero(runName, shared, drives[i]);
    }
  }

  // ----- Documents -----

  /** The tags `plan` looks a document up by. */
  function DocQuery(stableId: string): (q: Props)
    ensures |q| == 2 && q[0] == ("gwsynth_id", stableId) && q[1] == ("gwsynth_kind", "doc")
  {
    [("gwsynth_id", stableId), ("gwsynth_kind", "doc")]
  }

  datatype DocStanding = Missing | Stale | Current

  /**
    The first listed file tagged as the document decides: none means missing; one whose
    prompt-version tag is not the blueprint's means stale.
  */
  function DocStandingOf(files: seq<File>, doc: DocPlan, promptVersion: string): (s: DocStanding)
    ensures s.Missing? <==> forall j :: 0 <= j < |files| ==> !Matches(files[j], DocQuery(doc.stableId))
    ensures !s.Missing? ==> var k := FindFile(files, DocQuery(doc.stableId)).value;
      (s.Current? <==> Get(files[k].props, "gwsynth_prompt_version") == Some(promptVersion))
  {
    match FindFile(files, DocQuery(doc.stableId))
    case None => Missing
    case Some(k) =>
      if Get(files[k].props, "gwsynth_prompt_version") == Some(promptVersion) then Current else Stale
  }

  function HasStanding(files: seq<File>, promptVersion: string, s: DocStanding): (p: DocPlan -> bool)
    ensures forall d :: p(d) == (DocStandingOf(files, d, promptVersion) == s)
  {
    d => DocStandingOf(files, d, promptVersion) == s
  }

  /** Documents of one drive to create: all of them when the drive does not exist yet. */
  function DocCreates(promptVersion: string, shared: seq<SharedDrive>, d: DrivePlan): (n: nat)
    ensures n <= |d.docs|
  {
    match d.existingDriveId
    case None => |d.docs|
    case Some(id) => Count(HasStanding(DriveFiles(shared, id), promptVersion, Missing), d.docs)
  }

  /** Documents of one drive to update: none when the drive does not exist yet. */
  function DocUpdates(promptVersion: string, shared: seq<SharedDrive>, d: DrivePlan): (n: nat)
    ensures n <= |d.docs|
  {
    match d.existingDriveId
    case None => 0
    case Some(id) => Count(HasStanding(DriveFiles(shared, id), promptVersion, Stale), d.docs)
  }

  function Creates(promptVersion: string, shared: seq<SharedDrive>): (f: DrivePlan -> nat)
    ensures forall d :: f(d) == DocCreates(promptVersion, shared, d)
  {
    d => DocCreates(promptVersion, shared, d)
  }

  function Updates(promptVersion: string, shared: seq<SharedDrive>): (f: DrivePlan -> nat)
    ensures forall d :: f(d) == DocUpdates(promptVersion, shared, d)
  {
    d => DocUpdates(promptVersion, shared, d)
  }

  function DocsOfDrive(): (f: DrivePlan -> nat)
    ensures forall d :: f(d) == |d.docs|
  {
    (d: DrivePlan) => |d.docs|
  }

  function SharedCreates(promptVersion: string, shared: seq<SharedDrive>, drives: seq<DrivePlan>): nat {
    Sum(Creates(promptVersion, shared), drives)
  }

  function SharedUpdates(promptVersion: string, shared: seq<SharedDrive>, drives: seq<DrivePlan>): nat {
    Sum(Updates(promptVersion, shared), drives)
  }

  /** Every document of every drive. */
  function DocTotal(drives: seq<DrivePlan>): nat {
    Sum(DocsOfDrive(), drives)
  }

  /** The My Drive documents: `docs_per_user` for each user when My Drive is enabled. */
  function MyDriveDocs(b: Blueprint, users: nat): int {
    if b.drives.myDrive.enabled then users * b.drives.myDrive.docsPerUser else 0
  }

  /**
    `_plan_docs`, loop for loop. A validated blueprint has `docs_per_user >= 0`, which is what
    keeps the count of documents to create from going negative.
  */
  method PlanDocs(b: Blueprint, shared: seq<SharedDrive>, drives: seq<DrivePlan>, users: seq<EntraUser>)
    returns (toCreate: int, toUpdate: nat)
    ensures toCreate == SharedCreates(b.docs.generation.promptVersion, shared, drives) + MyDriveDocs(b, |users|)
    ensures toUpdate == SharedUpdates(b.docs.generation.promptVersion, shared, drives)
    ensures b.drives.myDrive.docsPerUser >= 0 ==> toCreate >= 0
  {
    var pv := b.docs.generation.promptVersion;
    var fromShared: nat := 0;
    toUpdate := 0;
    for i := 0 to |drives|
      invariant fromShared == Sum(Creates(pv, shared), drives[..i])
      invariant toUpdate == Sum(Updates(pv, shared), drives[..i])
    {
      SumSnoc(Creates(pv, shared), drives, i);
      SumSnoc(Updates(pv, shared), drives, i);
      var drive := drives[i];
      if drive.existingDriveId.None? {
        fromShared := fromShared + |drive.docs|;
      } else {
        var creates, updates := CountDriveDocs(DriveFiles(shared, drive.existingDriveId.value), pv, drive.docs);
        fromShared := fromShared + creates;
        toUpdate := toUpdate + updates;
      }
    }
    Whole(drives);
    toCreate := fromShared;
    if b.drives.myDrive.enabled {
      var perUser := b.drives.myDrive.docsPerUser;
      for u := 0 to |users|
        invariant toCreate == fromShared + u * perUser
      {
        toCreate := toCreate + perUser;
      }
      if perUser >= 0 {
        NonNegativeProduct(|users|, perUser);
      }
    }
  }

  /** The inner loop of `_plan_docs` over the documents of a drive this run owns. */
  method CountDriveDocs(files: seq<File>, pv: string, docs: seq<DocPlan>) returns (creates: nat, updates: nat)
    ensures creates == Count(HasStanding(files, pv, Missing), docs)
    ensures updates == Count(HasStanding(files, pv, Stale), docs)
  {
    creates, updates := 0, 0;
    for j := 0 to |docs|
      invariant creates == Count(HasStanding(files, pv, Missing), docs[..j])
      invariant updates == Count(HasStanding(files, pv, Stale), docs[..j])
    {
      CountSnoc(HasStanding(files, pv, Missing), docs, j);
      CountSnoc(HasStanding(files, pv, Stale), docs, j);
      match FindFile(files, DocQuery(docs[j].stableId))
      case None =>
        creates := creates + 1;
      case Some(k) =>
        if Get(files[k].props, "gwsynth_prompt_version") != Some(pv) {
          updates := updates + 1;
        }
    }
    Whole(docs);
  }

  lemma NonNegativeProduct(a: nat, b: int)
    requires b >= 0
    ensures a * b >= 0
  {
  }

  /** Each document of an existing drive is missing, stale or current, and only one of them. */
  lemma DocStandingsPartition(files: seq<File>, docs: seq<DocPlan>, promptVersion: string)
    ensures Count(HasStanding(files, promptVersion, Missing), docs) + Count(HasStanding(files, promptVersion, Stale), docs)
      + Count(HasStanding(files, promptVersion, Current), docs) == |docs|
  {
    CountThree(HasStanding(files, promptVersion, Missing), HasStanding(files, promptVersion, Stale),
               HasStanding(files, promptVersion, Current), docs);
  }

  /** The shared-drive part of the plan never counts a document twice or one the drives do not hold. */
  lemma DocCountsBound(promptVersion: string, shared: seq<SharedDrive>, drives: seq<DrivePlan>)
    ensures SharedCreates(promptVersion, shared, drives) + SharedUpdates(promptVersion, shared, drives)
      <= DocTotal(drives)
  {
    var both: DrivePlan -> nat := d => DocCreates(promptVersion, shared, d) + DocUpdates(promptVersion, shared, d);
    forall j | 0 <= j < |drives|
      ensures both(drives[j]) <= |drives[j].docs|
    {
      var d := drives[j];
      if d.existingDriveId.Some? {
        DocStandingsPartition(DriveFiles(shared, d.existingDriveId.value), d.docs, promptVersion);
      }
    }
    SumAdd(Creates(promptVersion, shared), Updates(promptVersion, shared), both, drives);
    SumLe(both, DocsOfDrive(), drives);
  }

  /** Against drives that do not exist yet, every document is a create and none an update. */
  lemma DocCountsFresh(promptVersion: string, shared: seq<SharedDrive>, drives: seq<DrivePlan>)
    requires forall i :: 0 <= i < |drives| ==> drives[i].existingDriveId.None?
    ensures SharedCreates(promptVersion, shared, drives) == DocTotal(drives)
    ensures SharedUpdates(promptVersion, shared, drives) == 0
  {
    SumSame(Creates(promptVersion, shared), DocsOfDrive(), drives);
    SumZero(Updates(promptVersion, shared), drives);
  }

  /**
    The count of the end-to-end plan example: two new drives of seven documents each, and two
    users with five My Drive documents each, make 24 documents to create and none to update.
  */
  lemma PlanDocsExample(b: Blueprint, shared: seq<SharedDrive>, drives: seq<DrivePlan>, users: seq<EntraUser>)
    requires |drives| == 2 && |users| == 2
    requires forall i :: 0 <= i < 2 ==> drives[i].existingDriveId.None? && |drives[i].docs| == 7
    requires b.drives.myDrive.enabled && b.drives.myDrive.docsPerUser == 5
    ensures SharedCreates(b.docs.generation.promptVersion, shared, drives) + MyDriveDocs(b, |users|) == 24
    ensures SharedUpdates(b.docs.generation.promptVersion, shared, drives) == 0
  {
    DocCountsFresh(b.docs.generation.promptVersion, shared, drives);
    SumConst(DocsOfDrive(), drives, 7);
  }
}
