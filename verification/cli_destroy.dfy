/**
  `destroy`: the teardown walk over what a run left behind. It finds the run's shared drives as
  a dry-run `apply` does, deletes the run-tagged files in them (never a drive's marker) and in
  every user's My Drive, and in mode `all` also deletes those drives, the groups whose
  description mentions the run and the users placed in the run's org unit.
*/
module CliDestroy {
  import opened Wrappers
  import opened Strings
  import opened PyDict
  import opened Tenant
  import opened GoogleDrive
  import opened Report
  import opened Entra
  import opened CliLayout
  import opened CliDrives
  import opened GoogleAdmin

  // ----- Which files go -----

  /** `{"gwsynth_run": run}`, the query of every listing destroy makes. */
  function RunQuery(runName: string): Props {
    [("gwsynth_run", runName)]
  }

  /** A file answers the run query exactly when its run tag is the run's name. */
  lemma MatchesRunQuery(f: File, runName: string)
    ensures Matches(f, RunQuery(runName)) <==> Get(f.props, "gwsynth_run") == Some(runName)
  {
    assert RunQuery(runName)[0] == ("gwsynth_run", runName);
  }

  const MarkerKind := "drive_marker"

  predicate IsMarker(f: File) {
    Get(f.props, "gwsynth_kind") == Some(MarkerKind)
  }

  /**
    A file the walk deletes: tagged with the run, and, where `keepMarkers` (the shared drives),
    not a marker.
  */
  predicate Doomed(f: File, runName: string, keepMarkers: bool) {
    Matches(f, RunQuery(runName)) && !(keepMarkers && IsMarker(f))
  }

  /** The doomed files, in order. */
  function Pick(files: seq<File>, runName: string, keepMarkers: bool): (r: seq<File>)
    ensures |r| <= |files|
    ensures forall i :: 0 <= i < |r| ==> r[i] in files && Doomed(r[i], runName, keepMarkers)
    ensures forall i :: 0 <= i < |files| && Doomed(files[i], runName, keepMarkers) ==> files[i] in r
  {
    if |files| == 0 then []
    else
      var rest := Pick(files[1..], runName, keepMarkers);
      assert forall i :: 1 <= i < |files| ==> files[i] == files[1..][i - 1];
      if Doomed(files[0], runName, keepMarkers) then [files[0]] + rest else rest
  }

  /** The files that survive, in order. */
  function Spared(files: seq<File>, runName: string, keepMarkers: bool): (r: seq<File>)
    ensures |r| <= |files|
    ensures forall i :: 0 <= i < |r| ==> r[i] in files && !Doomed(r[i], runName, keepMarkers)
    ensures forall i :: 0 <= i < |files| && !Doomed(files[i], runName, keepMarkers) ==> files[i] in r
  {
    if |files| == 0 then []
    else
      var rest := Spared(files[1..], runName, keepMarkers);
      assert forall i :: 1 <= i < |files| ==> files[i] == files[1..][i - 1];
      if Doomed(files[0], runName, keepMarkers) then rest else [files[0]] + rest
  }

  /** The listed items the loop body gets past its `continue`: all but markers where `keepMarkers`. */
  function Reached(items: seq<File>, keepMarkers: bool): (r: seq<File>)
    ensures |r| <= |items|
  {
    if |items| == 0 then []
    else
      var rest := Reached(items[1..], keepMarkers);
      if keepMarkers && IsMarker(items[0]) then rest else [items[0]] + rest
  }

  /** Listing by the run tag and skipping markers reaches exactly the doomed files, in order. */
  lemma {:induction false} ReachedArePicked(files: seq<File>, runName: string, keepMarkers: bool)
    ensures Reached(ListFiles(files, RunQuery(runName)), keepMarkers) == Pick(files, runName, keepMarkers)
  {
    if |files| > 0 {
      ReachedArePicked(files[1..], runName, keepMarkers);
      var rest := ListFiles(files[1..], RunQuery(runName));
      if Matches(files[0], RunQuery(runName)) {
        assert ListFiles(files, RunQuery(runName)) == [files[0]] + rest;
        assert ([files[0]] + rest)[1..] == rest;
      }
    }
  }

  /** Without a `continue`, every listed item is reached. */
  lemma {:induction false} ReachedAll(items: seq<File>)
    ensures Reached(items, false) == items
  {
    if |items| > 0 {
      ReachedAll(items[1..]);
    }
  }

  // ----- Deleting by id -----

  /**
    How the delete loop treats a listed file that an earlier delete in the same loop already
    took with its folder. `StopAtGone` is the loop as written: `delete_file` answers 404 and
    the error ends the walk. `SkipGone` passes over such a file.
  */
  datatype Sweep = StopAtGone | SkipGone

  /** The loop's `delete_file` calls, one per reached item, in order. */
  function DeleteAll(sp: Space, items: seq<File>, sweep: Sweep): (r: (Space, Result<bool>))
    ensures r.0.nextId == sp.nextId
    ensures forall f :: f in r.0.files ==> f in sp.files
    decreases |items|
  {
    if |items| == 0 then (sp, Success(true))
    else if sweep == SkipGone && !HasFile(sp.files, items[0].id) then DeleteAll(sp, items[1..], sweep)
    else
      var (sp1, res) := DeleteFile(sp, items[0].id, false);
      if res.Failure? then (sp1, res)
      else DeleteAll(sp1, items[1..], sweep)
  }

  /** Each item is still in the store when its turn comes: no earlier item's subtree took it. */
  predicate InTurn(files: seq<File>, items: seq<File>) {
    forall k :: 0 <= k < |items| ==> HasFile(files, items[k].id) && items[k].id !in Cascade(files, IdSet(items[..k]))
  }

  lemma IdSetCons(f: File, s: seq<File>)
    ensures IdSet([f] + s) == {f.id} + IdSet(s)
  {
    assert ([f] + s)[1..] == s;
  }

  /** Item `k + 1` is in turn exactly when, after the first item's subtree goes, it is in turn among the rest. */
  lemma InTurnShift(files: seq<File>, items: seq<File>, k: nat)
    requires |items| > 0 && HasFile(files, items[0].id) && k < |items| - 1
    ensures var left := Remove(files, Cascade(files, {items[0].id}));
      (HasFile(files, items[k + 1].id) && items[k + 1].id !in Cascade(files, IdSet(items[..k + 1])))
        <==> (HasFile(left, items[1..][k].id) && items[1..][k].id !in Cascade(left, IdSet(items[1..][..k])))
  {
    var c0 := Cascade(files, {items[0].id});
    var left := Remove(files, c0);
    var rest := items[1..];
    var x := items[k + 1].id;
    assert rest[k] == items[k + 1];
    assert items[..k + 1] == [items[0]] + rest[..k];
    IdSetCons(items[0], rest[..k]);
    CascadeAfter(files, {items[0].id}, IdSet(rest[..k]));
    IdSetRemove(files, c0);
    assert HasFile(left, x) <==> x in IdSet(left);
    assert HasFile(files, x) <==> x in IdSet(files);
  }

  /** After the first item's subtree goes, the rest are in turn exactly when all of them were. */
  lemma InTurnStep(files: seq<File>, items: seq<File>)
    requires |items| > 0 && HasFile(files, items[0].id)
    ensures InTurn(files, items) <==> InTurn(Remove(files, Cascade(files, {items[0].id})), items[1..])
  {
    var left := Remove(files, Cascade(files, {items[0].id}));
    var rest := items[1..];
    forall k | 0 <= k < |rest|
      ensures (HasFile(files, items[k + 1].id) && items[k + 1].id !in Cascade(files, IdSet(items[..k + 1])))
        <==> (HasFile(left, rest[k].id) && rest[k].id !in Cascade(left, IdSet(rest[..k])))
    {
      InTurnShift(files, items, k);
    }
    CascadeEmpty(files);
    assert items[..0] == [];
    if InTurn(left, rest) {
      forall k | 0 <= k < |items|
        ensures HasFile(files, items[k].id) && items[k].id !in Cascade(files, IdSet(items[..k]))
      {
        if k > 0 {
          assert HasFile(left, rest[k - 1].id) && rest[k - 1].id !in Cascade(left, IdSet(rest[..k - 1]));
        }
      }
    }
  }

  /**
    The loop as written succeeds exactly when every item is still there at its turn, and then
    it has deleted the listed files and everything filed below them.
  */
  lemma {:induction false} DeleteAllExact(sp: Space, items: seq<File>)
    ensures var r := DeleteAll(sp, items, StopAtGone);
      && (r.1.Success? <==> InTurn(sp.files, items))
      && (r.1.Success? ==> r == (sp.(files := Remove(sp.files, Cascade(sp.files, IdSet(items)))), Success(true)))
    decreases |items|
  {
    if |items| == 0 {
      CascadeEmpty(sp.files);
      RemoveNothing(sp.files);
    } else if HasFile(sp.files, items[0].id) {
      var sp1 := sp.(files := Remove(sp.files, Cascade(sp.files, {items[0].id})));
      DeleteAllExact(sp1, items[1..]);
      InTurnStep(sp.files, items);
      RemoveCascades(sp.files, items);
    } else {
      assert !InTurn(sp.files, items) by {
        assert !HasFile(sp.files, items[0].id);
      }
    }
  }

  /** Removing the first item's subtree and then the rest's removes the subtrees of all items. */
  lemma RemoveCascades(files: seq<File>, items: seq<File>)
    requires |items| > 0
    ensures var c0 := Cascade(files, {items[0].id});
      var left := Remove(files, c0);
      Remove(left, Cascade(left, IdSet(items[1..]))) == Remove(files, Cascade(files, IdSet(items)))
  {
    var c0 := Cascade(files, {items[0].id});
    var left := Remove(files, c0);
    var rest := items[1..];
    assert items == [items[0]] + rest;
    IdSetCons(items[0], rest);
    CascadeAfter(files, {items[0].id}, IdSet(rest));
    RemoveRemove(files, c0, Cascade(left, IdSet(rest)));
  }

  /**
    Skipping files already gone, the loop always succeeds and deletes the subtree of every
    listed file that was in the store.
  */
  lemma {:induction false} SkipGoneExact(sp: Space, items: seq<File>)
    ensures DeleteAll(sp, items, SkipGone)
      == (sp.(files := Remove(sp.files, Cascade(sp.files, IdSet(items) * IdSet(sp.files)))), Success(true))
    decreases |items|
  {
    if |items| == 0 {
      assert IdSet(items) * IdSet(sp.files) == {};
      CascadeEmpty(sp.files);
      RemoveNothing(sp.files);
    } else if HasFile(sp.files, items[0].id) {
      var sp1 := sp.(files := Remove(sp.files, Cascade(sp.files, {items[0].id})));
      SkipGoneExact(sp1, items[1..]);
      RemoveCascadesPresent(sp.files, items);
    } else {
      SkipGoneExact(sp, items[1..]);
      assert items == [items[0]] + items[1..];
      IdSetCons(items[0], items[1..]);
      assert IdSet(items) * IdSet(sp.files) == IdSet(items[1..]) * IdSet(sp.files);
    }
  }

  /** `RemoveCascades`, counting only the items still in the store at each step. */
  lemma RemoveCascadesPresent(files: seq<File>, items: seq<File>)
    requires |items| > 0 && HasFile(files, items[0].id)
    ensures var c0 := Cascade(files, {items[0].id});
      var left := Remove(files, c0);
      Remove(left, Cascade(left, IdSet(items[1..]) * IdSet(left)))
        == Remove(files, Cascade(files, IdSet(items) * IdSet(files)))
  {
    var id := items[0].id;
    var c0 := Cascade(files, {id});
    var left := Remove(files, c0);
    var rest := items[1..];
    assert items == [items[0]] + rest;
    IdSetCons(items[0], rest);
    IdSetRemove(files, c0);
    var q := IdSet(rest) * IdSet(left);
    RemoveRemove(files, c0, Cascade(left, q));
    CascadeAfter(files, {id}, q);
    PresentAbsorbed(files, id, IdSet(rest));
  }

  /**
    Cascading from the first id and those of the rest still left after its subtree goes is
    cascading from every listed id in the store.
  */
  lemma PresentAbsorbed(files: seq<File>, id: nat, r: set<nat>)
    requires id in IdSet(files)
    ensures var c0 := Cascade(files, {id});
      Cascade(files, {id} + r * (IdSet(files) - c0)) == Cascade(files, ({id} + r) * IdSet(files))
  {
    var c0 := Cascade(files, {id});
    var q := r * (IdSet(files) - c0);
    var p := ({id} + r) * IdSet(files);
    CascadeMono(files, {id}, {id} + q);
    assert p <= Cascade(files, {id} + q) by {
      forall x | x in p ensures x in Cascade(files, {id} + q) {
        if x !in c0 {
          assert x in {id} + q;
        }
      }
    }
    CascadeAbsorbs(files, {id} + q, p);
  }

  /**
    A folder listed before a file inside it: the loop as written deletes the folder, which
    takes the file with it, and then fails with a 404 on the file; skipping files already gone,
    the loop clears the store.
  */
  lemma FolderFirstFails(runName: string)
    ensures var folder := File(0, "Team", FolderMime, None, RunQuery(runName), []);
      var doc := File(1, "Notes", DocMime, Some(0), RunQuery(runName), []);
      var sp := Space([folder, doc], 2);
      && DeleteAll(sp, [folder, doc], StopAtGone) == (Space([], 2), Failure("HttpError 404"))
      && DeleteAll(sp, [folder, doc], SkipGone) == (Space([], 2), Success(true))
  {
    var folder := File(0, "Team", FolderMime, None, RunQuery(runName), []);
    var doc := File(1, "Notes", DocMime, Some(0), RunQuery(runName), []);
    var files := [folder, doc];
    assert Children(files, {0, 1}) == {1};
    CascadeClosed(files, {0, 1});
    assert Children(files, {0}) == {1};
    assert Cascade(files, {0}) == {0, 1};
    assert Remove(files, {0, 1}) == [];
    assert HasFile(files, 0) by {
      assert files[0].id == 0;
    }
    var sp := Space(files, 2);
    var gone := Space([], 2);
    assert [folder, doc][1..] == [doc] && [doc][1..] == [];
    assert DeleteFile(sp, 0, false) == (gone, Success(true));
    assert DeleteFile(gone, 1, false) == (gone, Failure("HttpError 404"));
    assert DeleteAll(sp, [folder, doc], StopAtGone) == DeleteAll(gone, [doc], StopAtGone);
    assert DeleteAll(sp, [folder, doc], SkipGone) == DeleteAll(gone, [doc], SkipGone);
    assert !HasFile(gone.files, 1);
    assert DeleteAll(gone, [doc], SkipGone) == DeleteAll(gone, [], SkipGone);
  }

  /** Doomed files of a store with distinct ids have distinct ids, and each is in the store. */
  lemma {:induction false} PickUnique(files: seq<File>, runName: string, keepMarkers: bool)
    requires UniqueIds(files)
    ensures UniqueIds(Pick(files, runName, keepMarkers))
    ensures forall i :: 0 <= i < |Pick(files, runName, keepMarkers)| ==>
      HasFile(files, Pick(files, runName, keepMarkers)[i].id)
  {
    var p := Pick(files, runName, keepMarkers);
    forall i | 0 <= i < |p| ensures HasFile(files, p[i].id) {
      var k :| 0 <= k < |files| && files[k] == p[i];
    }
    if |files| > 0 {
      var rest := files[1..];
      PickUnique(rest, runName, keepMarkers);
      RestIdsDiffer(files);
    }
  }

  /** Under distinct ids, no later file shares the first file's id. */
  lemma RestIdsDiffer(files: seq<File>)
    requires UniqueIds(files) && |files| > 0
    ensures UniqueIds(files[1..])
    ensures forall f :: f in files[1..] ==> f.id != files[0].id
  {
    forall f | f in files[1..] ensures f.id != files[0].id {
      var k :| 0 <= k < |files[1..]| && files[1..][k] == f;
      assert files[k + 1] == f;
    }
  }

  /** Spared files of a store with distinct ids have distinct ids. */
  lemma {:induction false} SparedUnique(files: seq<File>, runName: string, keepMarkers: bool)
    requires UniqueIds(files)
    ensures UniqueIds(Spared(files, runName, keepMarkers))
  {
    if |files| > 0 {
      RestIdsDiffer(files);
      SparedUnique(files[1..], runName, keepMarkers);
    }
  }

  /** Removing the ids of the doomed files leaves exactly the spared ones. */
  lemma {:induction false} RemovePicked(files: seq<File>, runName: string, keepMarkers: bool)
    requires UniqueIds(files)
    ensures Remove(files, IdSet(Pick(files, runName, keepMarkers))) == Spared(files, runName, keepMarkers)
  {
    if |files| > 0 {
      var rest := files[1..];
      var s := IdSet(Pick(rest, runName, keepMarkers));
      RestIdsDiffer(files);
      RemovePicked(rest, runName, keepMarkers);
      assert files[0].id !in s by {
        PickOutsideHead(files, runName, keepMarkers);
      }
      if Doomed(files[0], runName, keepMarkers) {
        assert Remove(files, {files[0].id} + s) == Remove(rest, s) by {
          RemoveDroppedHead(files, s);
        }
      }
    }
  }

  /** The doomed files after the first do not carry its id. */
  lemma PickOutsideHead(files: seq<File>, runName: string, keepMarkers: bool)
    requires UniqueIds(files) && |files| > 0
    ensures files[0].id !in IdSet(Pick(files[1..], runName, keepMarkers))
  {
    RestIdsDiffer(files);
    var p := Pick(files[1..], runName, keepMarkers);
    assert forall i :: 0 <= i < |p| ==> p[i] in files[1..];
  }

  /** Removing the first file's id along with ids the rest does not carry. */
  lemma RemoveDroppedHead(files: seq<File>, s: set<nat>)
    requires UniqueIds(files) && |files| > 0
    ensures Remove(files, {files[0].id} + s) == Remove(files[1..], s)
  {
    var rest := files[1..];
    RestIdsDiffer(files);
    assert forall i :: 0 <= i < |rest| ==> rest[i].id !in {files[0].id} by {
      assert forall i :: 0 <= i < |rest| ==> rest[i] in rest;
    }
    RemoveUnused(rest, s, {files[0].id});
    assert s + {files[0].id} == {files[0].id} + s;
  }

  /** Nothing doomed is left among the spared files. */
  lemma {:induction false} PickSpared(files: seq<File>, runName: string, keepMarkers: bool)
    ensures Pick(Spared(files, runName, keepMarkers), runName, keepMarkers) == []
  {
    if |files| > 0 {
      PickSpared(files[1..], runName, keepMarkers);
    }
  }

  /** Every file filed in a doomed file is doomed too: deleting the doomed files takes nothing else. */
  predicate NothingSparedUnder(files: seq<File>, runName: string, keepMarkers: bool) {
    Children(files, IdSet(Pick(files, runName, keepMarkers))) <= IdSet(Pick(files, runName, keepMarkers))
  }

  /**
    A store the listing pass empties of its doomed files exactly: nothing spared sits under a
    doomed file, and, for the loop as written, every doomed file is still there at its turn.
  */
  predicate Sweepable(files: seq<File>, runName: string, keepMarkers: bool, sweep: Sweep) {
    && NothingSparedUnder(files, runName, keepMarkers)
    && (sweep == StopAtGone ==> InTurn(files, Pick(files, runName, keepMarkers)))
  }

  /** What is left after a pass can be swept again. */
  lemma SparedSweepable(files: seq<File>, runName: string, keepMarkers: bool, sweep: Sweep)
    ensures Sweepable(Spared(files, runName, keepMarkers), runName, keepMarkers, sweep)
  {
    PickSpared(files, runName, keepMarkers);
  }

  /** The listing pass over one store: it deletes the doomed files and nothing else. */
  lemma DeletePickedExact(sp: Space, runName: string, keepMarkers: bool, sweep: Sweep)
    requires UniqueIds(sp.files) && Sweepable(sp.files, runName, keepMarkers, sweep)
    ensures DeleteAll(sp, Pick(sp.files, runName, keepMarkers), sweep)
      == (sp.(files := Spared(sp.files, runName, keepMarkers)), Success(true))
  {
    var p := Pick(sp.files, runName, keepMarkers);
    PickUnique(sp.files, runName, keepMarkers);
    CascadeClosed(sp.files, IdSet(p));
    RemovePicked(sp.files, runName, keepMarkers);
    if sweep == StopAtGone {
      DeleteAllExact(sp, p);
    } else {
      SkipGoneExact(sp, p);
      assert IdSet(p) * IdSet(sp.files) == IdSet(p);
    }
  }

  /** A pass over a store holding nothing but doomed files empties it, whatever the order. */
  lemma SkipGoneEmpties(sp: Space, runName: string, keepMarkers: bool)
    requires Spared(sp.files, runName, keepMarkers) == []
    ensures DeleteAll(sp, Pick(sp.files, runName, keepMarkers), SkipGone) == (sp.(files := []), Success(true))
  {
    var p := Pick(sp.files, runName, keepMarkers);
    SkipGoneExact(sp, p);
    AllPicked(sp.files, runName, keepMarkers);
    var s := Cascade(sp.files, IdSet(p) * IdSet(sp.files));
    assert IdSet(sp.files) <= s;
    RemoveAll(sp.files, s);
  }

  /** When nothing is spared, every file of the store is picked. */
  lemma AllPicked(files: seq<File>, runName: string, keepMarkers: bool)
    requires Spared(files, runName, keepMarkers) == []
    ensures IdSet(files) <= IdSet(Pick(files, runName, keepMarkers))
  {
    var p := Pick(files, runName, keepMarkers);
    forall x | x in IdSet(files) ensures x in IdSet(p) {
      var i :| 0 <= i < |files| && files[i].id == x;
      var q :| 0 <= q < |p| && p[q] == files[i];
    }
  }

  // ----- The shared drives -----

  const DeletedFile := "deleted_file:"
  const DeletedDrive := "deleted_drive:"
  const DeletedUserFile := "deleted_user_file:"
  const DeletedGroup := "deleted_group:"
  const DeletedUser := "deleted_user:"

  /** `f"{prefix}{item.get('id')}"` for each deleted item, in order. */
  function FileLabels(prefix: string, items: seq<File>): (ls: seq<string>)
    ensures |ls| == |items|
    ensures forall i :: 0 <= i < |items| ==> ls[i] == prefix + NatToString(items[i].id)
  {
    if |items| == 0 then [] else [prefix + NatToString(items[0].id)] + FileLabels(prefix, items[1..])
  }

  lemma Regroup<T>(xs: seq<T>, x: T, ys: seq<T>)
    ensures xs + [x] + ys == xs + ([x] + ys)
  {
  }

  /** The report only gains entries in `updated`, at its end. */
  predicate OnlyUpdated(rep: ApplyReport, rep': ApplyReport) {
    && rep'.runName == rep.runName && rep'.created == rep.created && rep'.skipped == rep.skipped
    && rep'.warnings == rep.warnings && rep'.conflicts == rep.conflicts
    && |rep.updated| <= |rep'.updated| && rep'.updated[..|rep.updated|] == rep.updated
  }

  lemma OnlyUpdatedTransitive(r0: ApplyReport, r1: ApplyReport, r2: ApplyReport)
    requires OnlyUpdated(r0, r1) && OnlyUpdated(r1, r2)
    ensures OnlyUpdated(r0, r2)
  {
    assert r2.updated[..|r0.updated|] == r2.updated[..|r1.updated|][..|r0.updated|];
  }

  /** Two listings of shared drives that differ at most in the files each drive holds. */
  predicate SameDrives(a: seq<SharedDrive>, b: seq<SharedDrive>) {
    |a| == |b| && forall j :: 0 <= j < |a| ==> a[j].id == b[j].id && a[j].name == b[j].name && a[j].perms == b[j].perms
  }

  /** No two shared drives share an id, as the Drive service guarantees. */
  predicate UniqueDriveIds(shared: seq<SharedDrive>) {
    forall i, j :: 0 <= i < j < |shared| ==> shared[i].id != shared[j].id
  }

  /** Every file store of the tenant has distinct file ids. */
  predicate UniqueFiles(ds: Drives) {
    && (forall j :: 0 <= j < |ds.shared| ==> UniqueIds(ds.shared[j].files))
    && (forall u :: u in ds.myDrives ==> UniqueIds(ds.myDrives[u]))
  }

  /** Looking a drive up by id sees only the ids. */
  lemma {:induction false} DriveIndexSame(a: seq<SharedDrive>, b: seq<SharedDrive>, driveId: nat)
    requires SameDrives(a, b)
    ensures DriveIndex(a, driveId) == DriveIndex(b, driveId)
  {
    if |a| > 0 {
      DriveIndexSame(a[1..], b[1..], driveId);
    }
  }

  /**
    What the drive loop does about a walked drive's marker in mode `all`. `SpareMarker` is the
    loop as written: it skips markers in every mode, so in mode `all` the drive still holds its
    marker when `delete_drive` is called, and Drive refuses to delete a drive that is not
    empty. `DeleteMarker` deletes the marker along with the run's files before the drive goes.
  */
  datatype Teardown = SpareMarker | DeleteMarker

  /** The choices in which the walk as written and the walk as corrected differ. */
  datatype Walk = Walk(test: GroupTest, sweep: Sweep, teardown: Teardown)

  const AsWritten := Walk(NameInDescription, StopAtGone, SpareMarker)
  const Corrected := Walk(RunTag, SkipGone, DeleteMarker)

  /** Whether the drive loop skips markers: always as written, and outside mode `all` as corrected. */
  function KeepMarkers(all: bool, teardown: Teardown): bool {
    !(all && teardown == DeleteMarker)
  }

  /**
    One iteration of the drive loop: list the run's files in the drive, delete each that is
    not skipped as a marker, and in mode `all` delete the drive itself. A drive that cannot be
    listed is the service's 404, and a drive still holding files is refused with a 403; both
    propagate.
  */
  function DestroyDrive(ds: Drives, driveId: nat, runName: string, all: bool, how: Walk, rep: ApplyReport)
    : (r: (Drives, Result<ApplyReport>))
    ensures r.0.myDrives == ds.myDrives && r.0.nextId == ds.nextId
    ensures !all ==> SameDrives(ds.shared, r.0.shared)
    ensures !all ==> forall j :: 0 <= j < |ds.shared| && ds.shared[j].id != driveId ==> r.0.shared[j] == ds.shared[j]
    ensures forall j :: 0 <= j < |ds.shared| && ds.shared[j].id != driveId ==> ds.shared[j] in r.0.shared
    ensures r.1.Success? ==> OnlyUpdated(rep, r.1.value)
    ensures all && r.1.Success? ==> (DriveIndex(ds.shared, driveId).Some? &&
      var i := DriveIndex(ds.shared, driveId).value;
      r.0.shared == ds.shared[..i] + ds.shared[i + 1..])
  {
    match DriveIndex(ds.shared, driveId)
    case None => (ds, Failure("HttpError 404"))
    case Some(i) =>
      var items := Reached(ListFiles(ds.shared[i].files, RunQuery(runName)), KeepMarkers(all, how.teardown));
      var (sp, res) := DeleteAll(SharedSpace(ds, i), items, how.sweep);
      var ds1 := WithSharedSpace(ds, i, sp);
      if res.Failure? then (ds1, Failure(res.error))
      else
        var rep1 := rep.(updated := rep.updated + FileLabels(DeletedFile, items));
        assert rep1.updated[..|rep.updated|] == rep.updated;
        if !all then (ds1, Success(rep1))
        else
          // The drive was just listed, so `delete_drive` finds it; it fails only on a drive left non-empty.
          DriveIndexSame(ds.shared, ds1.shared, driveId);
          var (ds2, del) := DeleteDrive(ds1, driveId, false);
          if del.Failure? then (ds2, Failure(del.error))
          else
            assert forall j :: 0 <= j < |ds.shared| && j != i ==> ds.shared[j] == ds1.shared[j];
            DropUpdated(ds.shared, ds1.shared, i);
            var rep2 := rep1.(updated := rep1.updated + [DeletedDrive + NatToString(driveId)]);
            assert rep2.updated[..|rep.updated|] == rep.updated;
            (ds2, Success(rep2))
  }

  /** Dropping the one element two sequences may differ in leaves the same sequence, holding every other element. */
  lemma DropUpdated<T>(a: seq<T>, b: seq<T>, i: nat)
    requires i < |a| == |b|
    requires forall j :: 0 <= j < |a| && j != i ==> a[j] == b[j]
    ensures b[..i] + b[i + 1..] == a[..i] + a[i + 1..]
    ensures forall j :: 0 <= j < |a| && j != i ==> a[j] in b[..i] + b[i + 1..]
  {
    DropKeeps(a, i);
    assert b[..i] == a[..i] && b[i + 1..] == a[i + 1..];
  }

  /** Dropping one element keeps every other. */
  lemma DropKeeps<T>(s: seq<T>, i: nat)
    requires i < |s|
    ensures forall j :: 0 <= j < |s| && j != i ==> s[j] in s[..i] + s[i + 1..]
  {
    forall j | 0 <= j < |s| && j != i ensures s[j] in s[..i] + s[i + 1..] {
      if j < i {
        assert (s[..i] + s[i + 1..])[j] == s[j];
      } else {
        assert (s[..i] + s[i + 1..])[j - 1] == s[j];
      }
    }
  }

  /**
    On a listed drive with distinct file ids that can be swept exactly, one iteration deletes
    exactly the run's files it does not skip, reports one `deleted_file` entry per deleted file
    in listing order, and in mode `all` then deletes the drive when nothing is left in it and
    fails with a 403, keeping the drive, when something is.
  */
  lemma DestroyDriveExact(ds: Drives, driveId: nat, runName: string, all: bool, how: Walk, rep: ApplyReport, i: nat)
    requires DriveIndex(ds.shared, driveId) == Some(i) && UniqueIds(ds.shared[i].files)
    requires Sweepable(ds.shared[i].files, runName, KeepMarkers(all, how.teardown), how.sweep)
    ensures var files := ds.shared[i].files;
      var keep := KeepMarkers(all, how.teardown);
      var swept := WithSharedSpace(ds, i, Space(Spared(files, runName, keep), ds.nextId));
      var logged := rep.updated + FileLabels(DeletedFile, Pick(files, runName, keep));
      var r := DestroyDrive(ds, driveId, runName, all, how, rep);
      && (!all ==> r == (swept, Success(rep.(updated := logged))))
      && (all && Spared(files, runName, keep) == [] ==>
            r == (ds.(shared := ds.shared[..i] + ds.shared[i + 1..]),
                  Success(rep.(updated := logged + [DeletedDrive + NatToString(driveId)]))))
      && (all && Spared(files, runName, keep) != [] ==> r == (swept, Failure("HttpError 403")))
  {
    var files := ds.shared[i].files;
    var keep := KeepMarkers(all, how.teardown);
    ReachedArePicked(files, runName, keep);
    DeletePickedExact(SharedSpace(ds, i), runName, keep, how.sweep);
    if all {
      var ds1 := WithSharedSpace(ds, i, Space(Spared(files, runName, keep), ds.nextId));
      DriveIndexSame(ds.shared, ds1.shared, driveId);
      assert ds1.shared[..i] == ds.shared[..i];
      assert ds1.shared[i + 1..] == ds.shared[i + 1..];
    }
  }

  /** The doomed files of a store hold none of its markers: the pass that spares markers leaves each one. */
  lemma PickAvoidsMarker(files: seq<File>, runName: string, k: nat)
    requires UniqueIds(files) && k < |files| && IsMarker(files[k])
    ensures files[k].id !in IdSet(Pick(files, runName, true))
  {
    var p := Pick(files, runName, true);
    forall q | 0 <= q < |p| ensures p[q].id != files[k].id {
      var j :| 0 <= j < |files| && files[j] == p[q];
    }
  }

  /**
    As written, mode `all` never deletes a drive whose marker sits at its root: the loop skips
    the marker, nothing it deletes takes the marker with it, so the drive is not empty when
    `delete_drive` is called and the iteration fails, with that refusal or an earlier 404.
  */
  lemma MarkedDriveRefused(ds: Drives, driveId: nat, runName: string, how: Walk, rep: ApplyReport, i: nat, k: nat)
    requires how.teardown == SpareMarker
    requires DriveIndex(ds.shared, driveId) == Some(i) && UniqueIds(ds.shared[i].files)
    requires k < |ds.shared[i].files| && IsMarker(ds.shared[i].files[k]) && ds.shared[i].files[k].parent.None?
    ensures DestroyDrive(ds, driveId, runName, true, how, rep).1.Failure?
  {
    var files := ds.shared[i].files;
    ReachedArePicked(files, runName, true);
    var r := DeleteAll(SharedSpace(ds, i), Pick(files, runName, true), how.sweep);
    if r.1.Success? {
      RootMarkerKept(SharedSpace(ds, i), runName, how.sweep, k);
      var ds1 := WithSharedSpace(ds, i, r.0);
      DriveIndexSame(ds.shared, ds1.shared, driveId);
      assert ds1.shared[i].files != [];
    }
  }

  /** A pass that spares markers keeps a marker at the root: nothing it deletes takes it along. */
  lemma RootMarkerKept(sp: Space, runName: string, sweep: Sweep, k: nat)
    requires UniqueIds(sp.files) && k < |sp.files| && IsMarker(sp.files[k]) && sp.files[k].parent.None?
    ensures var r := DeleteAll(sp, Pick(sp.files, runName, true), sweep);
      r.1.Success? ==> sp.files[k] in r.0.files
  {
    var files := sp.files;
    var items := Pick(files, runName, true);
    var r := DeleteAll(sp, items, sweep);
    if r.1.Success? {
      var s := if sweep == StopAtGone then IdSet(items) else IdSet(items) * IdSet(files);
      if sweep == StopAtGone {
        DeleteAllExact(sp, items);
      } else {
        SkipGoneExact(sp, items);
      }
      assert r.0.files == Remove(files, Cascade(files, s));
      PickAvoidsMarker(files, runName, k);
      RootNotCascaded(files, s, k);
    }
  }

  /** A file at the root is taken by a cascade only when the cascade starts from it. */
  lemma RootNotCascaded(files: seq<File>, s: set<nat>, k: nat)
    requires UniqueIds(files) && k < |files| && files[k].parent.None? && files[k].id !in s
    ensures files[k].id !in Cascade(files, s)
  {
    if files[k].id in Cascade(files, s) {
      CascadeParented(files, s, files[k].id);
    }
  }

  /**
    As corrected, mode `all` deletes the marker with the run's files, so a drive that holds
    nothing but this run's files is emptied, whatever order it is listed in, and then deleted.
  */
  lemma RunDriveDeleted(ds: Drives, driveId: nat, runName: string, rep: ApplyReport, i: nat)
    requires DriveIndex(ds.shared, driveId) == Some(i) && Spared(ds.shared[i].files, runName, false) == []
    ensures var files := ds.shared[i].files;
      DestroyDrive(ds, driveId, runName, true, Corrected, rep)
        == (ds.(shared := ds.shared[..i] + ds.shared[i + 1..]),
            Success(rep.(updated := rep.updated + FileLabels(DeletedFile, Pick(files, runName, false))
                                    + [DeletedDrive + NatToString(driveId)])))
  {
    var files := ds.shared[i].files;
    ReachedArePicked(files, runName, false);
    SkipGoneEmpties(SharedSpace(ds, i), runName, false);
    var ds1 := WithSharedSpace(ds, i, Space([], ds.nextId));
    DriveIndexSame(ds.shared, ds1.shared, driveId);
    assert ds1.shared[..i] == ds.shared[..i];
    assert ds1.shared[i + 1..] == ds.shared[i + 1..];
  }

  /** The loop over the walked drives, in order, stopping at the first error. */
  function DestroyDrives(ds: Drives, driveIds: seq<nat>, runName: string, all: bool, how: Walk, rep: ApplyReport)
    : (r: (Drives, Result<ApplyReport>))
    ensures r.0.myDrives == ds.myDrives && r.0.nextId == ds.nextId
    ensures !all ==> SameDrives(ds.shared, r.0.shared)
    ensures !all ==> forall j :: 0 <= j < |ds.shared| && ds.shared[j].id !in driveIds ==> r.0.shared[j] == ds.shared[j]
    ensures forall j :: 0 <= j < |ds.shared| && ds.shared[j].id !in driveIds ==> ds.shared[j] in r.0.shared
    ensures r.1.Success? ==> OnlyUpdated(rep, r.1.value)
    decreases |driveIds|
  {
    if |driveIds| == 0 then (ds, Success(rep))
    else
      var (ds1, r1) := DestroyDrive(ds, driveIds[0], runName, all, how, rep);
      if r1.Failure? then (ds1, r1)
      else
        var (ds2, r2) := DestroyDrives(ds1, driveIds[1..], runName, all, how, r1.value);
        assert forall j :: 0 <= j < |ds.shared| && ds.shared[j].id !in driveIds ==> ds.shared[j].id !in driveIds[1..];
        assert r2.Success? ==> OnlyUpdated(rep, r2.value) by {
          if r2.Success? { OnlyUpdatedTransitive(rep, r1.value, r2.value); }
        }
        (ds2, r2)
  }

  /** Dropping one drive of a list with distinct ids keeps the ids distinct and loses only that id. */
  lemma DropUnique(shared: seq<SharedDrive>, i: nat)
    requires UniqueDriveIds(shared) && i < |shared|
    ensures var rest := shared[..i] + shared[i + 1..];
      && UniqueDriveIds(rest)
      && forall d :: d in rest ==> d in shared && d.id != shared[i].id
  {
    var rest := shared[..i] + shared[i + 1..];
    assert forall j :: 0 <= j < |rest| ==> rest[j] == shared[if j < i then j else j + 1];
  }

  /**
    In mode `all`, a drive loop that succeeds leaves exactly the drives it was not asked to
    walk: with the loop's guarantee that every other drive stays, the survivors are the
    unwalked drives, untouched.
  */
  lemma {:induction false} AllPassDeletesWalked(ds: Drives, driveIds: seq<nat>, runName: string, how: Walk, rep: ApplyReport)
    requires UniqueDriveIds(ds.shared)
    ensures var r := DestroyDrives(ds, driveIds, runName, true, how, rep);
      r.1.Success? ==> forall d :: d in r.0.shared ==> d in ds.shared && d.id !in driveIds
    decreases |driveIds|
  {
    if |driveIds| > 0 {
      var (ds1, r1) := DestroyDrive(ds, driveIds[0], runName, true, how, rep);
      if r1.Success? {
        var i := DriveIndex(ds.shared, driveIds[0]).value;
        DropUnique(ds.shared, i);
        AllPassDeletesWalked(ds1, driveIds[1..], runName, how, r1.value);
        assert forall x :: x in driveIds ==> x == driveIds[0] || x in driveIds[1..];
      }
    }
  }

  /** No drive id is walked twice. */
  predicate DistinctIds(driveIds: seq<nat>) {
    forall a, b :: 0 <= a < b < |driveIds| ==> driveIds[a] != driveIds[b]
  }

  /** Every walked drive is listed and holds nothing but this run's files. */
  predicate RunDrives(shared: seq<SharedDrive>, driveIds: seq<nat>, runName: string) {
    forall k :: 0 <= k < |driveIds| ==>
      DriveIndex(shared, driveIds[k]).Some?
      && Spared(shared[DriveIndex(shared, driveIds[k]).value].files, runName, false) == []
  }

  /** In a list with distinct ids, a listed drive is the one its id finds. */
  lemma {:induction false} DriveIndexOf(shared: seq<SharedDrive>, d: SharedDrive)
    requires UniqueDriveIds(shared) && d in shared
    ensures DriveIndex(shared, d.id).Some? && shared[DriveIndex(shared, d.id).value] == d
  {
    var j :| 0 <= j < |shared| && shared[j] == d;
    var r := DriveIndex(shared, d.id);
    if r.Some? {
      assert r.value == j;
    }
  }

  /**
    As corrected, the drive loop in mode `all` over distinct listed drives, each holding only
    this run's files, succeeds and leaves exactly the drives it was not asked to walk.
  */
  lemma {:induction false} CorrectedAllPass(ds: Drives, driveIds: seq<nat>, runName: string, rep: ApplyReport)
    requires UniqueDriveIds(ds.shared) && DistinctIds(driveIds) && RunDrives(ds.shared, driveIds, runName)
    ensures var r := DestroyDrives(ds, driveIds, runName, true, Corrected, rep);
      r.1.Success? && forall d :: d in r.0.shared <==> d in ds.shared && d.id !in driveIds
    decreases |driveIds|
  {
    if |driveIds| == 0 {
    } else {
      var id := driveIds[0];
      var rest := driveIds[1..];
      var i := DriveIndex(ds.shared, id).value;
      RunDriveDeleted(ds, id, runName, rep, i);
      var (ds1, r1) := DestroyDrive(ds, id, runName, true, Corrected, rep);
      DropUnique(ds.shared, i);
      DropKeeps(ds.shared, i);
      assert RunDrives(ds1.shared, rest, runName) by {
        forall k | 0 <= k < |rest|
          ensures DriveIndex(ds1.shared, rest[k]).Some?
            && Spared(ds1.shared[DriveIndex(ds1.shared, rest[k]).value].files, runName, false) == []
        {
          assert rest[k] == driveIds[k + 1] && driveIds[k + 1] != id;
          var j := DriveIndex(ds.shared, rest[k]).value;
          assert ds.shared[j] in ds1.shared;
          DriveIndexOf(ds1.shared, ds.shared[j]);
        }
      }
      assert DistinctIds(rest) by {
        forall a, b | 0 <= a < b < |rest| ensures rest[a] != rest[b] {
          assert rest[a] == driveIds[a + 1] && rest[b] == driveIds[b + 1];
        }
      }
      CorrectedAllPass(ds1, rest, runName, r1.value);
      forall d ensures d in ds1.shared <==> d in ds.shared && d.id != id {
        if d in ds.shared && d.id != id {
          var j :| 0 <= j < |ds.shared| && ds.shared[j] == d;
        }
      }
      assert forall x :: x in driveIds <==> x == id || x in rest;
    }
  }

  /** The shared drives after the content pass over `driveIds`: each walked drive keeps only its spared files. */
  function Swept(shared: seq<SharedDrive>, driveIds: seq<nat>, runName: string): (r: seq<SharedDrive>)
    ensures SameDrives(shared, r)
  {
    seq(|shared|, j requires 0 <= j < |shared| =>
      if shared[j].id in driveIds then shared[j].(files := Spared(shared[j].files, runName, true)) else shared[j])
  }

  lemma {:induction false} SparedTwice(files: seq<File>, runName: string, keepMarkers: bool)
    ensures Spared(Spared(files, runName, keepMarkers), runName, keepMarkers) == Spared(files, runName, keepMarkers)
  {
    if |files| > 0 {
      SparedTwice(files[1..], runName, keepMarkers);
    }
  }

  lemma {:induction false} NothingPickedAllSpared(files: seq<File>, runName: string, keepMarkers: bool)
    requires Pick(files, runName, keepMarkers) == []
    ensures Spared(files, runName, keepMarkers) == files
  {
    if |files| > 0 {
      NothingPickedAllSpared(files[1..], runName, keepMarkers);
      assert files == [files[0]] + files[1..];
    }
  }

  /** Sweeping the first walked drive, then the rest, sweeps them all. */
  lemma SweptStep(shared: seq<SharedDrive>, i: nat, driveIds: seq<nat>, runName: string)
    requires UniqueDriveIds(shared) && |driveIds| > 0 && i < |shared| && shared[i].id == driveIds[0]
    ensures Swept(shared[i := shared[i].(files := Spared(shared[i].files, runName, true))], driveIds[1..], runName)
      == Swept(shared, driveIds, runName)
  {
    var s1 := shared[i := shared[i].(files := Spared(shared[i].files, runName, true))];
    var a := Swept(s1, driveIds[1..], runName);
    var b := Swept(shared, driveIds, runName);
    forall j | 0 <= j < |shared| ensures a[j] == b[j] {
      if j == i {
        SparedTwice(shared[i].files, runName, true);
      } else {
        assert shared[j].id != driveIds[0];
      }
    }
  }

  /** Every shared drive can be swept exactly by the content pass. */
  predicate SweepableDrives(shared: seq<SharedDrive>, runName: string, sweep: Sweep) {
    forall j :: 0 <= j < |shared| ==> Sweepable(shared[j].files, runName, true, sweep)
  }

  /** Every user's My Drive can be swept exactly by the user loop. */
  ghost predicate SweepableMyDrives(ds: Drives, runName: string, sweep: Sweep) {
    forall u :: Sweepable(MyDriveFiles(ds, u), runName, false, sweep)
  }

  predicate DrivesListed(shared: seq<SharedDrive>, driveIds: seq<nat>) {
    forall k :: 0 <= k < |driveIds| ==> DriveIndex(shared, driveIds[k]).Some?
  }

  /** Sweeping one listed drive keeps the conditions the rest of the content pass needs. */
  lemma SweptDriveStep(ds: Drives, i: nat, driveIds: seq<nat>, runName: string, sweep: Sweep)
    requires UniqueFiles(ds) && DrivesListed(ds.shared, driveIds) && SweepableDrives(ds.shared, runName, sweep)
    requires i < |ds.shared| && |driveIds| > 0
    ensures var files := ds.shared[i].files;
      var ds1 := WithSharedSpace(ds, i, Space(Spared(files, runName, true), ds.nextId));
      UniqueFiles(ds1) && SweepableDrives(ds1.shared, runName, sweep) && DrivesListed(ds1.shared, driveIds[1..])
  {
    var files := ds.shared[i].files;
    var ds1 := WithSharedSpace(ds, i, Space(Spared(files, runName, true), ds.nextId));
    SparedUnique(files, runName, true);
    SparedSweepable(files, runName, true, sweep);
    forall k | 0 <= k < |driveIds[1..]| ensures DriveIndex(ds1.shared, driveIds[1..][k]).Some? {
      DriveIndexSame(ds.shared, ds1.shared, driveIds[1..][k]);
      assert driveIds[1..][k] == driveIds[k + 1];
    }
  }

  /**
    In mode `content-only`, over listed drives with distinct ids, the drive loop succeeds and
    leaves each walked drive with exactly its spared files (markers and files of other runs),
    every other drive as it was, and every drive still there.
  */
  lemma {:induction false} ContentPassExact(ds: Drives, driveIds: seq<nat>, runName: string, how: Walk, rep: ApplyReport)
    requires UniqueFiles(ds) && UniqueDriveIds(ds.shared) && DrivesListed(ds.shared, driveIds)
    requires SweepableDrives(ds.shared, runName, how.sweep)
    ensures var r := DestroyDrives(ds, driveIds, runName, false, how, rep);
      r.1.Success? && r.0 == ds.(shared := Swept(ds.shared, driveIds, runName))
    decreases |driveIds|
  {
    if |driveIds| == 0 {
      assert Swept(ds.shared, driveIds, runName) == ds.shared;
    } else {
      var i := DriveIndex(ds.shared, driveIds[0]).value;
      var files := ds.shared[i].files;
      DestroyDriveExact(ds, driveIds[0], runName, false, how, rep, i);
      var ds1 := WithSharedSpace(ds, i, Space(Spared(files, runName, true), ds.nextId));
      var rep1 := rep.(updated := rep.updated + FileLabels(DeletedFile, Pick(files, runName, true)));
      SweptDriveStep(ds, i, driveIds, runName, how.sweep);
      ContentPassExact(ds1, driveIds[1..], runName, how, rep1);
      SweptStep(ds.shared, i, driveIds, runName);
    }
  }

  /** Every walked drive is listed and holds nothing the walk would delete. */
  predicate DrivesClean(shared: seq<SharedDrive>, driveIds: seq<nat>, runName: string) {
    forall k :: 0 <= k < |driveIds| ==>
      DriveIndex(shared, driveIds[k]).Some?
      && Pick(shared[DriveIndex(shared, driveIds[k]).value].files, runName, true) == []
  }

  /** Over clean drives, the content pass changes nothing and reports nothing. */
  lemma {:induction false} CleanPassIsQuiet(ds: Drives, driveIds: seq<nat>, runName: string, how: Walk, rep: ApplyReport)
    requires DrivesClean(ds.shared, driveIds, runName)
    ensures DestroyDrives(ds, driveIds, runName, false, how, rep) == (ds, Success(rep))
    decreases |driveIds|
  {
    if |driveIds| > 0 {
      var i := DriveIndex(ds.shared, driveIds[0]).value;
      ReachedArePicked(ds.shared[i].files, runName, true);
      assert ds.shared[i := ds.shared[i].(files := ds.shared[i].files)] == ds.shared;
      assert rep.(updated := rep.updated + []) == rep;
      assert DestroyDrive(ds, driveIds[0], runName, false, how, rep) == (ds, Success(rep));
      assert DrivesClean(ds.shared, driveIds[1..], runName) by {
        forall k | 0 <= k < |driveIds[1..]| ensures driveIds[1..][k] == driveIds[k + 1] { }
      }
      CleanPassIsQuiet(ds, driveIds[1..], runName, how, rep);
    }
  }

  /** After the content pass, every walked drive is clean. */
  lemma SweptIsClean(shared: seq<SharedDrive>, driveIds: seq<nat>, runName: string)
    requires DrivesListed(shared, driveIds)
    ensures DrivesClean(Swept(shared, driveIds, runName), driveIds, runName)
  {
    var s := Swept(shared, driveIds, runName);
    forall k | 0 <= k < |driveIds|
      ensures DriveIndex(s, driveIds[k]).Some? && Pick(s[DriveIndex(s, driveIds[k]).value].files, runName, true) == []
    {
      DriveIndexSame(shared, s, driveIds[k]);
      var i := DriveIndex(shared, driveIds[k]).value;
      PickSpared(shared[i].files, runName, true);
    }
  }

  /** A second content pass over the same drives finds nothing left to delete. */
  lemma ContentPassIdempotent(ds: Drives, driveIds: seq<nat>, runName: string, how: Walk, rep: ApplyReport, rep2: ApplyReport)
    requires UniqueFiles(ds) && UniqueDriveIds(ds.shared) && DrivesListed(ds.shared, driveIds)
    requires SweepableDrives(ds.shared, runName, how.sweep)
    ensures var first := DestroyDrives(ds, driveIds, runName, false, how, rep);
      first.1.Success? && DestroyDrives(first.0, driveIds, runName, false, how, rep2) == (first.0, Success(rep2))
  {
    ContentPassExact(ds, driveIds, runName, how, rep);
    SweptIsClean(ds.shared, driveIds, runName);
    CleanPassIsQuiet(ds.(shared := Swept(ds.shared, driveIds, runName)), driveIds, runName, how, rep2);
  }

  // ----- The users' My Drives -----

  /**
    One iteration of the user loop: delete every file in the user's My Drive tagged with the
    run (markers included: My Drive has none of its own), stopping at the first error.
  */
  function DestroyMyDrive(ds: Drives, email: string, runName: string, sweep: Sweep, rep: ApplyReport)
    : (r: (Drives, Result<ApplyReport>))
    ensures r.0.shared == ds.shared && r.0.nextId == ds.nextId
    ensures forall u :: u != email ==> MyDriveFiles(r.0, u) == MyDriveFiles(ds, u)
    ensures forall f :: f in MyDriveFiles(r.0, email) ==> f in MyDriveFiles(ds, email)
    ensures r.1.Success? ==> OnlyUpdated(rep, r.1.value)
  {
    var items := ListFiles(MyDriveFiles(ds, email), RunQuery(runName));
    // With nothing listed the loop body never runs.
    if |items| == 0 then (ds, Success(rep))
    else
      var (sp, res) := DeleteAll(MySpace(ds, email), items, sweep);
      var ds1 := WithMySpace(ds, email, sp);
      if res.Failure? then (ds1, Failure(res.error))
      else
        var rep1 := rep.(updated := rep.updated + FileLabels(DeletedUserFile, items));
        assert rep1.updated[..|rep.updated|] == rep.updated;
        (ds1, Success(rep1))
  }

  lemma UniqueMyDrive(ds: Drives, email: string)
    requires UniqueFiles(ds)
    ensures UniqueIds(MyDriveFiles(ds, email))
  {
  }

  /**
    On a My Drive with distinct file ids, one iteration deletes exactly the run-tagged files,
    reporting one `deleted_user_file` entry per file in listing order.
  */
  lemma DestroyMyDriveExact(ds: Drives, email: string, runName: string, sweep: Sweep, rep: ApplyReport)
    requires UniqueIds(MyDriveFiles(ds, email)) && Sweepable(MyDriveFiles(ds, email), runName, false, sweep)
    ensures var files := MyDriveFiles(ds, email);
      var r := DestroyMyDrive(ds, email, runName, sweep, rep);
      && r.1 == Success(rep.(updated := rep.updated + FileLabels(DeletedUserFile, Pick(files, runName, false))))
      && MyDriveFiles(r.0, email) == Spared(files, runName, false)
  {
    var files := MyDriveFiles(ds, email);
    ReachedArePicked(files, runName, false);
    ReachedAll(ListFiles(files, RunQuery(runName)));
    if Pick(files, runName, false) == [] {
      NothingPickedAllSpared(files, runName, false);
      assert rep.(updated := rep.updated + []) == rep;
    } else {
      DeletePickedExact(MySpace(ds, email), runName, false, sweep);
    }
  }

  /** Some listed user has this address. */
  predicate Listed(users: seq<EntraUser>, email: string) {
    exists k :: 0 <= k < |users| && users[k].email == email
  }

  /** The user loop, in order, stopping at the first error. */
  function DestroyMyDrives(ds: Drives, users: seq<EntraUser>, runName: string, sweep: Sweep, rep: ApplyReport)
    : (r: (Drives, Result<ApplyReport>))
    ensures r.0.shared == ds.shared && r.0.nextId == ds.nextId
    ensures forall u :: !Listed(users, u) ==> MyDriveFiles(r.0, u) == MyDriveFiles(ds, u)
    ensures r.1.Success? ==> OnlyUpdated(rep, r.1.value)
    decreases |users|
  {
    if |users| == 0 then (ds, Success(rep))
    else
      var (ds1, r1) := DestroyMyDrive(ds, users[0].email, runName, sweep, rep);
      if r1.Failure? then (ds1, r1)
      else
        var (ds2, r2) := DestroyMyDrives(ds1, users[1..], runName, sweep, r1.value);
        assert forall u :: !Listed(users, u) ==> !Listed(users[1..], u) && u != users[0].email by {
          forall k | 0 <= k < |users[1..]| ensures users[1..][k] == users[k + 1] { }
        }
        assert r2.Success? ==> OnlyUpdated(rep, r2.value) by {
          if r2.Success? { OnlyUpdatedTransitive(rep, r1.value, r2.value); }
        }
        (ds2, r2)
  }

  /** Every listed user's My Drive holds nothing the walk would delete. */
  predicate MyDrivesClean(ds: Drives, users: seq<EntraUser>, runName: string) {
    forall k :: 0 <= k < |users| ==> Pick(MyDriveFiles(ds, users[k].email), runName, false) == []
  }

  /** With distinct file ids, the user loop succeeds and leaves every listed user's My Drive clean. */
  lemma {:induction false} MyDrivesSwept(ds: Drives, users: seq<EntraUser>, runName: string, sweep: Sweep, rep: ApplyReport)
    requires UniqueFiles(ds) && SweepableMyDrives(ds, runName, sweep)
    ensures var r := DestroyMyDrives(ds, users, runName, sweep, rep);
      r.1.Success? && MyDrivesClean(r.0, users, runName) && UniqueFiles(r.0)
    decreases |users|
  {
    if |users| > 0 {
      var e := users[0].email;
      UniqueMyDrive(ds, e);
      DestroyMyDriveExact(ds, e, runName, sweep, rep);
      var (ds1, r1) := DestroyMyDrive(ds, e, runName, sweep, rep);
      assert UniqueFiles(ds1) by {
        SparedUnique(MyDriveFiles(ds, e), runName, false);
        forall u | u in ds1.myDrives ensures UniqueIds(ds1.myDrives[u]) {
          assert ds1.myDrives[u] == MyDriveFiles(ds1, u);
          if u != e {
            UniqueMyDrive(ds, u);
          }
        }
      }
      assert SweepableMyDrives(ds1, runName, sweep) by {
        SparedSweepable(MyDriveFiles(ds, e), runName, false, sweep);
      }
      MyDrivesSwept(ds1, users[1..], runName, sweep, r1.value);
      var r := DestroyMyDrives(ds, users, runName, sweep, rep);
      forall k | 0 <= k < |users| ensures Pick(MyDriveFiles(r.0, users[k].email), runName, false) == [] {
        if k > 0 {
          assert users[1..][k - 1] == users[k];
        } else if exists m :: 0 <= m < |users[1..]| && users[1..][m].email == e {
          var m :| 0 <= m < |users[1..]| && users[1..][m].email == e;
        } else {
          PickSpared(MyDriveFiles(ds, e), runName, false);
        }
      }
    }
  }

  /** Over clean My Drives, the user loop changes nothing and reports nothing. */
  lemma {:induction false} CleanMyDrivesAreQuiet(ds: Drives, users: seq<EntraUser>, runName: string, sweep: Sweep, rep: ApplyReport)
    requires MyDrivesClean(ds, users, runName)
    ensures DestroyMyDrives(ds, users, runName, sweep, rep) == (ds, Success(rep))
    decreases |users|
  {
    if |users| > 0 {
      var files := MyDriveFiles(ds, users[0].email);
      ReachedArePicked(files, runName, false);
      ReachedAll(ListFiles(files, RunQuery(runName)));
      assert MyDrivesClean(ds, users[1..], runName) by {
        forall k | 0 <= k < |users[1..]| ensures users[1..][k] == users[k + 1] { }
      }
      CleanMyDrivesAreQuiet(ds, users[1..], runName, sweep, rep);
    }
  }

  // ----- The directory, in mode `all` -----

  /** Some listed group has this address. */
  predicate GroupListed(groups: seq<EntraGroup>, email: string) {
    exists k :: 0 <= k < |groups| && groups[k].email == email
  }

  /**
    How the group loop decides that a group is the run's. `NameInDescription` is the loop as
    written: the run's name anywhere in the description, tag or not. `RunTag` is the ownership
    test `ensure_group` applies before it touches a group.
  */
  datatype GroupTest = NameInDescription | RunTag

  predicate Claims(g: Group, runName: string, test: GroupTest) {
    match test
    case NameInDescription => Contains(g.description, runName)
    case RunTag => HasGroupTag(g.description, runName)
  }

  /**
    The group loop: look each listed group up, a missing one being an error that propagates,
    and delete it when `test` claims it for the run.
  */
  function DestroyGroups(dir: Directory, groups: seq<EntraGroup>, runName: string, test: GroupTest, rep: ApplyReport)
    : (r: (Directory, Result<ApplyReport>))
    ensures r.0.users == dir.users && r.0.orgUnits == dir.orgUnits && r.0.licenses == dir.licenses
    ensures forall e :: e in r.0.groups ==> e in dir.groups && r.0.groups[e] == dir.groups[e]
    ensures forall e :: e in dir.groups && !(GroupListed(groups, e) && Claims(dir.groups[e], runName, test)) ==> e in r.0.groups
    ensures r.1.Success? ==> OnlyUpdated(rep, r.1.value)
    decreases |groups|
  {
    if |groups| == 0 then (dir, Success(rep))
    else
      var e := groups[0].email;
      assert forall x :: GroupListed(groups[1..], x) ==> GroupListed(groups, x) by {
        forall x, k | 0 <= k < |groups[1..]| && groups[1..][k].email == x ensures GroupListed(groups, x) {
          assert groups[k + 1].email == x;
        }
      }
      if e !in dir.groups then (dir, Failure("HttpError 404"))
      else if Claims(dir.groups[e], runName, test) then
        var rep1 := rep.(updated := rep.updated + [DeletedGroup + e]);
        assert rep1.updated[..|rep.updated|] == rep.updated;
        var r := DestroyGroups(dir.(groups := dir.groups - {e}), groups[1..], runName, test, rep1);
        assert r.1.Success? ==> OnlyUpdated(rep, r.1.value) by {
          if r.1.Success? { OnlyUpdatedTransitive(rep, rep1, r.1.value); }
        }
        r
      else DestroyGroups(dir, groups[1..], runName, test, rep)
  }

  /** On success, every listed group that `test` claims for the run is gone. */
  lemma {:induction false} DestroyGroupsDeletes(dir: Directory, groups: seq<EntraGroup>, runName: string, test: GroupTest, rep: ApplyReport)
    ensures var r := DestroyGroups(dir, groups, runName, test, rep);
      r.1.Success? ==> forall e :: e in dir.groups && GroupListed(groups, e) && Claims(dir.groups[e], runName, test) ==> e !in r.0.groups
    decreases |groups|
  {
    if |groups| > 0 {
      var e0 := groups[0].email;
      var r := DestroyGroups(dir, groups, runName, test, rep);
      if e0 in dir.groups {
        var dir1 := if Claims(dir.groups[e0], runName, test) then dir.(groups := dir.groups - {e0}) else dir;
        var rep1 := if Claims(dir.groups[e0], runName, test) then rep.(updated := rep.updated + [DeletedGroup + e0]) else rep;
        assert r == DestroyGroups(dir1, groups[1..], runName, test, rep1);
        DestroyGroupsDeletes(dir1, groups[1..], runName, test, rep1);
        forall e | r.1.Success? && e in dir.groups && GroupListed(groups, e) && Claims(dir.groups[e], runName, test)
          ensures e !in r.0.groups
        {
          if e != e0 {
            var k :| 0 <= k < |groups| && groups[k].email == e;
            assert groups[1..][k - 1].email == e;
          }
        }
      }
    }
  }

  /** A listed group the directory does not have makes the loop fail. */
  lemma {:induction false} MissingGroupFails(dir: Directory, groups: seq<EntraGroup>, runName: string, test: GroupTest, rep: ApplyReport, k: nat)
    requires k < |groups| && groups[k].email !in dir.groups
    ensures DestroyGroups(dir, groups, runName, test, rep).1.Failure?
    decreases k
  {
    var e0 := groups[0].email;
    if k > 0 && e0 in dir.groups {
      var dir1 := if Claims(dir.groups[e0], runName, test) then dir.(groups := dir.groups - {e0}) else dir;
      var rep1 := if Claims(dir.groups[e0], runName, test) then rep.(updated := rep.updated + [DeletedGroup + e0]) else rep;
      assert groups[1..][k - 1] == groups[k];
      MissingGroupFails(dir1, groups[1..], runName, test, rep1, k - 1);
    }
  }

  predicate DistinctGroups(groups: seq<EntraGroup>) {
    forall i, j :: 0 <= i < j < |groups| ==> groups[i].email != groups[j].email
  }

  lemma GroupTail(groups: seq<EntraGroup>, e: string)
    requires |groups| > 0 && !GroupListed(groups, e)
    ensures groups[0].email != e && !GroupListed(groups[1..], e)
  {
    forall k | 0 <= k < |groups[1..]| ensures groups[1..][k].email != e {
      assert groups[1..][k] == groups[k + 1];
    }
  }

  lemma DistinctGroupTail(groups: seq<EntraGroup>)
    requires |groups| > 0 && DistinctGroups(groups)
    ensures DistinctGroups(groups[1..]) && !GroupListed(groups[1..], groups[0].email)
  {
    forall k | 0 <= k < |groups[1..]| ensures groups[1..][k].email != groups[0].email {
      assert groups[1..][k] == groups[k + 1];
    }
  }

  /** `deleted_group:{email}` for each listed group that `test` claims, in order. */
  function GroupLabels(gs: map<string, Group>, groups: seq<EntraGroup>, runName: string, test: GroupTest): seq<string> {
    if |groups| == 0 then []
    else
      var e := groups[0].email;
      (if e in gs && Claims(gs[e], runName, test) then [DeletedGroup + e] else []) + GroupLabels(gs, groups[1..], runName, test)
  }

  lemma {:induction false} GroupLabelsFrame(gs: map<string, Group>, groups: seq<EntraGroup>, runName: string, test: GroupTest, e: string)
    requires !GroupListed(groups, e)
    ensures GroupLabels(gs - {e}, groups, runName, test) == GroupLabels(gs, groups, runName, test)
  {
    if |groups| > 0 {
      GroupTail(groups, e);
      GroupLabelsFrame(gs, groups[1..], runName, test, e);
    }
  }

  /**
    When every listed group exists and no address repeats, the group loop succeeds and reports
    one `deleted_group` entry per listed group that `test` claims, in order.
  */
  lemma {:induction false} DestroyGroupsReport(dir: Directory, groups: seq<EntraGroup>, runName: string, test: GroupTest, rep: ApplyReport)
    requires DistinctGroups(groups) && forall k :: 0 <= k < |groups| ==> groups[k].email in dir.groups
    ensures DestroyGroups(dir, groups, runName, test, rep)
      .1 == Success(rep.(updated := rep.updated + GroupLabels(dir.groups, groups, runName, test)))
    decreases |groups|
  {
    if |groups| > 0 {
      var e := groups[0].email;
      var rest := groups[1..];
      DistinctGroupTail(groups);
      var m := Claims(dir.groups[e], runName, test);
      var dir1 := if m then dir.(groups := dir.groups - {e}) else dir;
      var rep1 := if m then rep.(updated := rep.updated + [DeletedGroup + e]) else rep;
      assert DestroyGroups(dir, groups, runName, test, rep) == DestroyGroups(dir1, rest, runName, test, rep1);
      assert forall k :: 0 <= k < |rest| ==> rest[k].email in dir1.groups by {
        forall k | 0 <= k < |rest| ensures rest[k].email in dir1.groups {
          assert rest[k] == groups[k + 1];
        }
      }
      assert GroupLabels(dir1.groups, rest, runName, test) == GroupLabels(dir.groups, rest, runName, test) by {
        if m { GroupLabelsFrame(dir.groups, rest, runName, test, e); }
      }
      DestroyGroupsReport(dir1, rest, runName, test, rep1);
      var tail := GroupLabels(dir.groups, rest, runName, test);
      if m {
        assert GroupLabels(dir.groups, groups, runName, test) == [DeletedGroup + e] + tail;
        Regroup(rep.updated, DeletedGroup + e, tail);
      } else {
        assert GroupLabels(dir.groups, groups, runName, test) == [] + tail;
        assert [] + tail == tail;
      }
    } else {
      assert rep.updated + [] == rep.updated;
    }
  }

  /** A run's tag holds the run's name, so the tag test claims fewer groups than the name test. */
  lemma TagMentionsRun(g: Group, runName: string)
    requires Claims(g, runName, RunTag)
    ensures Claims(g, runName, NameInDescription)
  {
    var tag := GroupTag(runName);
    assert tag[|GroupTagPrefix|..|GroupTagPrefix| + |runName|] == runName;
    ContainsAt(tag, runName, |GroupTagPrefix|);
    ContainsTransitive(g.description, tag, runName);
  }

  /**
    The group loop as written deletes a group `ensure_group` refuses to own. For run `acme`, a
    group that already existed with the description "acme sales team" has no run tag, so apply
    reports a conflict and leaves it alone; destroy in mode `all` finds the name in the
    description and deletes it.
  */
  lemma ForeignGroupDestroyed(dir: Directory, rep: ApplyReport)
    requires "sales@example.com" in dir.groups && dir.groups["sales@example.com"].description == "acme sales team"
    ensures var applied := EnsureGroup(dir, "sales@example.com", "Sales", "Sales team", "acme", false);
      applied.1.conflict && applied.0 == dir
    ensures var listed := [EntraGroup("g-1", "sales@example.com", "Sales", "Sales team")];
      var r := DestroyGroups(dir, listed, "acme", NameInDescription, rep);
      r.1.Success? && "sales@example.com" !in r.0.groups
  {
    ShortNotContains("acme sales team", GroupTag("acme"));
    assert StartsWith("acme sales team", "acme");
  }

  /**
    With the tag test, destroy undoes exactly what apply claimed: a listed group `ensure_group`
    tagged for the run is deleted, and one it reported as a conflict survives unchanged.
  */
  lemma AppliedGroupsDestroyed(dir: Directory, email: string, displayName: string, description: string,
                               runName: string, groups: seq<EntraGroup>, rep: ApplyReport)
    requires GroupListed(groups, email)
    ensures var applied := EnsureGroup(dir, email, displayName, description, runName, false);
      var r := DestroyGroups(applied.0, groups, runName, RunTag, rep);
      && (applied.1.conflict ==> email in r.0.groups && r.0.groups[email] == dir.groups[email])
      && (!applied.1.conflict && r.1.Success? ==> email !in r.0.groups)
  {
    var applied := EnsureGroup(dir, email, displayName, description, runName, false);
    DestroyGroupsDeletes(applied.0, groups, runName, RunTag, rep);
  }

  /**
    The user loop: a user the directory cannot find is skipped, as is one outside the run's
    org unit; every other listed user is deleted.
  */
  function DestroyUsers(dir: Directory, users: seq<EntraUser>, ouPath: string, rep: ApplyReport)
    : (r: (Directory, ApplyReport))
    ensures r.0.groups == dir.groups && r.0.orgUnits == dir.orgUnits && r.0.licenses == dir.licenses
    ensures forall e :: e in r.0.users ==> e in dir.users && r.0.users[e] == dir.users[e]
    ensures forall e :: e in dir.users ==>
      (e !in r.0.users <==> Listed(users, e) && dir.users[e].orgUnitPath == Some(ouPath))
    ensures OnlyUpdated(rep, r.1)
    decreases |users|
  {
    if |users| == 0 then (dir, rep)
    else
      var e := users[0].email;
      assert forall x :: Listed(users, x) <==> x == e || Listed(users[1..], x) by {
        forall x ensures Listed(users, x) <==> x == e || Listed(users[1..], x) {
          if Listed(users, x) && x != e {
            var k :| 0 <= k < |users| && users[k].email == x;
            assert users[1..][k - 1].email == x;
          }
          if Listed(users[1..], x) {
            var k :| 0 <= k < |users[1..]| && users[1..][k].email == x;
            assert users[k + 1].email == x;
          }
        }
      }
      if e !in dir.users || dir.users[e].orgUnitPath != Some(ouPath) then
        DestroyUsers(dir, users[1..], ouPath, rep)
      else
        var rep1 := rep.(updated := rep.updated + [DeletedUser + e]);
        assert rep1.updated[..|rep.updated|] == rep.updated;
        var r := DestroyUsers(dir.(users := dir.users - {e}), users[1..], ouPath, rep1);
        OnlyUpdatedTransitive(rep, rep1, r.1);
        r
  }

  predicate DistinctUsers(users: seq<EntraUser>) {
    forall i, j :: 0 <= i < j < |users| ==> users[i].email != users[j].email
  }

  lemma UserTail(users: seq<EntraUser>, e: string)
    requires |users| > 0 && !Listed(users, e)
    ensures users[0].email != e && !Listed(users[1..], e)
  {
    forall k | 0 <= k < |users[1..]| ensures users[1..][k].email != e {
      assert users[1..][k] == users[k + 1];
    }
  }

  lemma DistinctUserTail(users: seq<EntraUser>)
    requires |users| > 0 && DistinctUsers(users)
    ensures DistinctUsers(users[1..]) && !Listed(users[1..], users[0].email)
  {
    forall k | 0 <= k < |users[1..]| ensures users[1..][k].email != users[0].email {
      assert users[1..][k] == users[k + 1];
    }
  }

  /** `deleted_user:{email}` for each listed user placed in the run's org unit, in order. */
  function UserLabels(us: map<string, User>, users: seq<EntraUser>, ouPath: string): seq<string> {
    if |users| == 0 then []
    else
      var e := users[0].email;
      (if e in us && us[e].orgUnitPath == Some(ouPath) then [DeletedUser + e] else []) + UserLabels(us, users[1..], ouPath)
  }

  lemma {:induction false} UserLabelsFrame(us: map<string, User>, users: seq<EntraUser>, ouPath: string, e: string)
    requires !Listed(users, e)
    ensures UserLabels(us - {e}, users, ouPath) == UserLabels(us, users, ouPath)
  {
    if |users| > 0 {
      UserTail(users, e);
      UserLabelsFrame(us, users[1..], ouPath, e);
    }
  }

  /** One deleted user: the report of the rest of the loop, preceded by that user's entry. */
  lemma DeletedUserStep(dir: Directory, users: seq<EntraUser>, ouPath: string, rep: ApplyReport)
    requires |users| > 0 && !Listed(users[1..], users[0].email)
    requires users[0].email in dir.users && dir.users[users[0].email].orgUnitPath == Some(ouPath)
    requires var e := users[0].email;
      var rep1 := rep.(updated := rep.updated + [DeletedUser + e]);
      var dir1 := dir.(users := dir.users - {e});
      DestroyUsers(dir1, users[1..], ouPath, rep1).1 == rep1.(updated := rep1.updated + UserLabels(dir1.users, users[1..], ouPath))
    ensures DestroyUsers(dir, users, ouPath, rep).1 == rep.(updated := rep.updated + UserLabels(dir.users, users, ouPath))
  {
    var e := users[0].email;
    var rest := users[1..];
    var dir1 := dir.(users := dir.users - {e});
    var rep1 := rep.(updated := rep.updated + [DeletedUser + e]);
    UserLabelsFrame(dir.users, rest, ouPath, e);
    assert rep1.updated + UserLabels(dir1.users, rest, ouPath)
      == rep.updated + UserLabels(dir.users, users, ouPath);
  }

  /** With no repeated address, the user loop reports one `deleted_user` entry per deleted user, in order. */
  lemma {:induction false} DestroyUsersReport(dir: Directory, users: seq<EntraUser>, ouPath: string, rep: ApplyReport)
    requires DistinctUsers(users)
    ensures DestroyUsers(dir, users, ouPath, rep).1 == rep.(updated := rep.updated + UserLabels(dir.users, users, ouPath))
    decreases |users|
  {
    if |users| > 0 {
      var e := users[0].email;
      var rest := users[1..];
      DistinctUserTail(users);
      if e in dir.users && dir.users[e].orgUnitPath == Some(ouPath) {
        var dir1 := dir.(users := dir.users - {e});
        var rep1 := rep.(updated := rep.updated + [DeletedUser + e]);
        DestroyUsersReport(dir1, rest, ouPath, rep1);
        DeletedUserStep(dir, users, ouPath, rep);
      } else {
        DestroyUsersReport(dir, rest, ouPath, rep);
        assert UserLabels(dir.users, users, ouPath) == [] + UserLabels(dir.users, rest, ouPath);
      }
    }
  }

  // ----- The whole walk -----

  function DriveIds(results: seq<DriveResult>): (ids: seq<nat>)
    ensures |ids| == |results| && forall k :: 0 <= k < |results| ==> ids[k] == results[k].driveId
  {
    seq(|results|, k requires 0 <= k < |results| => results[k].driveId)
  }

  /** The drive the walk visits for some plan: the one a dry-run drive step finds as this run's. */
  predicate Walked(shared: seq<SharedDrive>, plans: seq<DrivePlan>, driveId: nat) {
    driveId in DriveIds(CliDrives.Collect(shared, plans))
  }

  /** A dry run of the drive step creates nothing and yields the drives it finds as this run's. */
  lemma {:induction false} DryRunCollects(runName: string, prefix: string, admin: string, ds: Drives,
                                          plans: seq<DrivePlan>, rep: ApplyReport, placement: Placement)
    ensures EnsureSharedDrives(runName, prefix, admin, ds, plans, rep, true, placement).1 == CliDrives.Collect(ds.shared, plans)
  {
    if |plans| > 0 {
      var n := |plans| - 1;
      DryRunCollects(runName, prefix, admin, ds, plans[..n], rep, placement);
      var before := EnsureSharedDrives(runName, prefix, admin, ds, plans[..n], rep, true, placement);
      EnsureOneOutcome(runName, prefix, admin, ds, plans[n], before.2, true, placement);
    }
  }

  /**
    Every drive the walk visits is listed and holds a file answering some plan's marker query:
    the walk never enters a drive that merely has the right name.
  */
  lemma {:induction false} WalkedAreMarked(shared: seq<SharedDrive>, plans: seq<DrivePlan>, driveId: nat)
    requires Walked(shared, plans, driveId)
    ensures exists n, k :: (0 <= n < |plans| && 0 <= k < |shared| && shared[k].id == driveId
      && shared[k].name == plans[n].name && FindFile(shared[k].files, MarkerQuery(plans[n].markerId)).Some?)
  {
    var n := |plans| - 1;
    var pre := CliDrives.Collect(shared, plans[..n]);
    var last := ResultFor(shared, plans[n]);
    assert CliDrives.Collect(shared, plans) == pre + (if last.Some? then [last.value] else []);
    if driveId in DriveIds(pre) {
      WalkedAreMarked(shared, plans[..n], driveId);
      var n', k :| (0 <= n' < |plans[..n]| && 0 <= k < |shared| && shared[k].id == driveId
        && shared[k].name == plans[..n][n'].name
        && FindFile(shared[k].files, MarkerQuery(plans[..n][n'].markerId)).Some?);
      assert plans[..n][n'] == plans[n'];
    } else {
      var k := StandingOf(shared, plans[n]).index;
      assert shared[k].id == driveId;
    }
  }

  /** Every drive the walk visits can be found by its id. */
  lemma WalkedAreListed(shared: seq<SharedDrive>, plans: seq<DrivePlan>)
    ensures DrivesListed(shared, DriveIds(CliDrives.Collect(shared, plans)))
  {
    var ids := DriveIds(CliDrives.Collect(shared, plans));
    forall m | 0 <= m < |ids| ensures DriveIndex(shared, ids[m]).Some? {
      WalkedAreMarked(shared, plans, ids[m]);
    }
  }

  /**
    `_destroy`: the dry-run drive step, the drive loop, the user loop, and in mode `all` the
    group and user deletions. The first error ends the walk, and its report is lost with it.
    `how` says which choices the walk makes: `AsWritten` or `Corrected`.
  */
  function Destroy(ds: Drives, dir: Directory, runName: string, prefix: string, ouPath: string, mode: string,
                   plans: seq<DrivePlan>, users: seq<EntraUser>, groups: seq<EntraGroup>, how: Walk)
    : (r: (Drives, Directory, Result<ApplyReport>))
    ensures mode != "all" ==> r.1 == dir && SameDrives(ds.shared, r.0.shared)
    ensures forall j :: 0 <= j < |ds.shared| && !Walked(ds.shared, plans, ds.shared[j].id) ==> ds.shared[j] in r.0.shared
    ensures forall e :: e in dir.groups && !Claims(dir.groups[e], runName, how.test) ==> e in r.1.groups && r.1.groups[e] == dir.groups[e]
    ensures forall e :: e in dir.groups && !Contains(dir.groups[e].description, runName) ==> e in r.1.groups && r.1.groups[e] == dir.groups[e]
    ensures forall e :: e in dir.users && dir.users[e].orgUnitPath != Some(ouPath) ==> e in r.1.users && r.1.users[e] == dir.users[e]
  {
    assert forall e :: e in dir.groups && Claims(dir.groups[e], runName, how.test) ==> Contains(dir.groups[e].description, runName) by {
      forall e | e in dir.groups && Claims(dir.groups[e], runName, how.test) ensures Contains(dir.groups[e].description, runName) {
        if how.test == RunTag { TagMentionsRun(dir.groups[e], runName); }
      }
    }
    // A dry run files nothing, so neither the acting user nor the marker's placement plays a part.
    var (_, results, rep1) := EnsureSharedDrives(runName, prefix, "", ds, plans, NewApplyReport(runName), true, AsSent);
    DryRunCollects(runName, prefix, "", ds, plans, NewApplyReport(runName), AsSent);
    var all := mode == "all";
    var (ds1, r1) := DestroyDrives(ds, DriveIds(results), runName, all, how, rep1);
    if r1.Failure? then (ds1, dir, r1)
    else
      var (ds2, r2) := DestroyMyDrives(ds1, users, runName, how.sweep, r1.value);
      if r2.Failure? || !all then (ds2, dir, r2)
      else
        var (dir1, r3) := DestroyGroups(dir, groups, runName, how.test, r2.value);
        if r3.Failure? then (ds2, dir1, r3)
        else
          var (dir2, rep) := DestroyUsers(dir1, users, ouPath, r3.value);
          (ds2, dir2, Success(rep))
  }

  // ----- Mode `all`, end to end -----

  /** Every marker in a shared drive sits at the drive's root, where it is created. */
  predicate RootedMarkers(shared: seq<SharedDrive>) {
    forall j, k :: 0 <= j < |shared| && 0 <= k < |shared[j].files| && IsMarker(shared[j].files[k]) ==>
      shared[j].files[k].parent.None?
  }

  /**
    As written, mode `all` fails as soon as the walk visits a drive: the first drive it visits
    holds the marker that made it this run's, the loop spares that marker, and the drive cannot
    be deleted. The groups and users are then never reached.
  */
  lemma AllModeFails(ds: Drives, dir: Directory, runName: string, prefix: string, ouPath: string,
                     plans: seq<DrivePlan>, users: seq<EntraUser>, groups: seq<EntraGroup>, how: Walk)
    requires how.teardown == SpareMarker
    requires UniqueFiles(ds) && UniqueDriveIds(ds.shared) && RootedMarkers(ds.shared)
    requires |CliDrives.Collect(ds.shared, plans)| > 0
    ensures var r := Destroy(ds, dir, runName, prefix, ouPath, "all", plans, users, groups, how);
      r.2.Failure? && r.1 == dir
  {
    var rep0 := NewApplyReport(runName);
    DryRunCollects(runName, prefix, "", ds, plans, rep0, AsSent);
    var rep1 := EnsureSharedDrives(runName, prefix, "", ds, plans, rep0, true, AsSent).2;
    var ids := DriveIds(CliDrives.Collect(ds.shared, plans));
    var id := ids[0];
    WalkedAreMarked(ds.shared, plans, id);
    var n, j :| 0 <= n < |plans| && 0 <= j < |ds.shared| && ds.shared[j].id == id
      && FindFile(ds.shared[j].files, MarkerQuery(plans[n].markerId)).Some?;
    var k := FindFile(ds.shared[j].files, MarkerQuery(plans[n].markerId)).value;
    MarkerQueryFindsMarkers(ds.shared[j].files[k], plans[n].markerId);
    DriveIndexOf(ds.shared, ds.shared[j]);
    MarkedDriveRefused(ds, id, runName, how, rep1, j, k);
  }

  // ----- Content-only destroy, end to end -----

  /** A file answering a marker query is a marker. */
  lemma MarkerQueryFindsMarkers(f: File, stableId: string)
    requires Matches(f, MarkerQuery(stableId))
    ensures IsMarker(f)
  {
    assert MarkerQuery(stableId)[1] == ("gwsynth_kind", "drive_marker");
  }

  /** The content pass keeps a drive's marker findable, and finds no new one. */
  lemma MarkerSurvives(files: seq<File>, runName: string, stableId: string)
    ensures FindFile(Spared(files, runName, true), MarkerQuery(stableId)).Some?
      == FindFile(files, MarkerQuery(stableId)).Some?
  {
    var q := MarkerQuery(stableId);
    var kept := Spared(files, runName, true);
    if FindFile(files, q).Some? {
      var k := FindFile(files, q).value;
      MarkerQueryFindsMarkers(files[k], stableId);
      assert files[k] in kept;
      var j :| 0 <= j < |kept| && kept[j] == files[k];
    }
    if FindFile(kept, q).Some? {
      var j := FindFile(kept, q).value;
      var k :| 0 <= k < |files| && files[k] == kept[j];
    }
  }

  lemma {:induction false} FindDriveByNameSame(a: seq<SharedDrive>, b: seq<SharedDrive>, name: string)
    requires SameDrives(a, b)
    ensures FindDriveByName(a, name) == FindDriveByName(b, name)
  {
    if |a| > 0 {
      FindDriveByNameSame(a[1..], b[1..], name);
    }
  }

  /** The content pass changes no drive's standing, so a later dry run walks the same drives. */
  lemma {:induction false} CollectAfterSweep(shared: seq<SharedDrive>, driveIds: seq<nat>, runName: string,
                                             plans: seq<DrivePlan>)
    ensures CliDrives.Collect(Swept(shared, driveIds, runName), plans) == CliDrives.Collect(shared, plans)
  {
    if |plans| > 0 {
      var n := |plans| - 1;
      CollectAfterSweep(shared, driveIds, runName, plans[..n]);
      var s := Swept(shared, driveIds, runName);
      FindDriveByNameSame(shared, s, plans[n].name);
      match FindDriveByName(shared, plans[n].name)
      case None =>
      case Some(k) =>
        MarkerSurvives(shared[k].files, runName, plans[n].markerId);
        assert ResultFor(s, plans[n]) == ResultFor(shared, plans[n]);
    }
  }

  /**
    In mode `content-only`, over stores with distinct ids, destroy succeeds, leaves the
    directory and the list of drives alone, keeps exactly the spared files of every walked
    drive (so every marker and every file of another run), leaves unwalked drives as they were,
    and empties each listed user's My Drive of the run's files.
  */
  lemma ContentDestroyExact(ds: Drives, dir: Directory, runName: string, prefix: string, ouPath: string,
                            mode: string, plans: seq<DrivePlan>, users: seq<EntraUser>, groups: seq<EntraGroup>, how: Walk)
    requires UniqueFiles(ds) && UniqueDriveIds(ds.shared) && mode != "all"
    requires SweepableDrives(ds.shared, runName, how.sweep) && SweepableMyDrives(ds, runName, how.sweep)
    ensures var r := Destroy(ds, dir, runName, prefix, ouPath, mode, plans, users, groups, how);
      && r.2.Success? && r.1 == dir
      && r.0.shared == Swept(ds.shared, DriveIds(CliDrives.Collect(ds.shared, plans)), runName)
      && MyDrivesClean(r.0, users, runName)
      && (forall u :: !Listed(users, u) ==> MyDriveFiles(r.0, u) == MyDriveFiles(ds, u))
  {
    var rep0 := NewApplyReport(runName);
    DryRunCollects(runName, prefix, "", ds, plans, rep0, AsSent);
    var rep1 := EnsureSharedDrives(runName, prefix, "", ds, plans, rep0, true, AsSent).2;
    var ids := DriveIds(CliDrives.Collect(ds.shared, plans));
    WalkedAreListed(ds.shared, plans);
    ContentPassExact(ds, ids, runName, how, rep1);
    var (ds1, r1) := DestroyDrives(ds, ids, runName, false, how, rep1);
    SweptKeepsUnique(ds, ids, runName, how.sweep);
    MyDrivesSwept(ds1, users, runName, how.sweep, r1.value);
  }

  /** The content pass keeps ids unique and leaves the My Drives, sweepable as they were, untouched. */
  lemma SweptKeepsUnique(ds: Drives, ids: seq<nat>, runName: string, sweep: Sweep)
    requires UniqueFiles(ds) && SweepableMyDrives(ds, runName, sweep)
    ensures var ds1 := ds.(shared := Swept(ds.shared, ids, runName));
      UniqueFiles(ds1) && SweepableMyDrives(ds1, runName, sweep)
  {
    var ds1 := ds.(shared := Swept(ds.shared, ids, runName));
    forall j | 0 <= j < |ds1.shared| ensures UniqueIds(ds1.shared[j].files) {
      SparedUnique(ds.shared[j].files, runName, true);
    }
    forall u ensures MyDriveFiles(ds1, u) == MyDriveFiles(ds, u) { }
  }

  /** Mode `content-only` never deletes a marker, nor any file of another run. */
  lemma ContentDestroyKeepsMarkers(ds: Drives, dir: Directory, runName: string, prefix: string, ouPath: string,
                                   mode: string, plans: seq<DrivePlan>, users: seq<EntraUser>, groups: seq<EntraGroup>, how: Walk,
                                   j: nat, f: File)
    requires UniqueFiles(ds) && UniqueDriveIds(ds.shared) && mode != "all"
    requires SweepableDrives(ds.shared, runName, how.sweep) && SweepableMyDrives(ds, runName, how.sweep)
    requires j < |ds.shared| && f in ds.shared[j].files && (IsMarker(f) || Get(f.props, "gwsynth_run") != Some(runName))
    ensures f in Destroy(ds, dir, runName, prefix, ouPath, mode, plans, users, groups, how).0.shared[j].files
  {
    ContentDestroyExact(ds, dir, runName, prefix, ouPath, mode, plans, users, groups, how);
    MatchesRunQuery(f, runName);
    var k :| 0 <= k < |ds.shared[j].files| && ds.shared[j].files[k] == f;
  }

  /**
    Destroying twice in mode `content-only` is the same as destroying once: the second walk
    visits the same drives, changes nothing, and reports no deletion.
  */
  lemma ContentDestroyIdempotent(ds: Drives, dir: Directory, runName: string, prefix: string, ouPath: string,
                                 mode: string, plans: seq<DrivePlan>, users: seq<EntraUser>, groups: seq<EntraGroup>, how: Walk)
    requires UniqueFiles(ds) && UniqueDriveIds(ds.shared) && mode != "all"
    requires SweepableDrives(ds.shared, runName, how.sweep) && SweepableMyDrives(ds, runName, how.sweep)
    ensures var first := Destroy(ds, dir, runName, prefix, ouPath, mode, plans, users, groups, how);
      var second := Destroy(first.0, first.1, runName, prefix, ouPath, mode, plans, users, groups, how);
      && first.2.Success? && second.0 == first.0 && second.1 == dir
      && second.2.Success? && second.2.value.updated == []
  {
    ContentDestroyExact(ds, dir, runName, prefix, ouPath, mode, plans, users, groups, how);
    var first := Destroy(ds, dir, runName, prefix, ouPath, mode, plans, users, groups, how);
    var ids := DriveIds(CliDrives.Collect(ds.shared, plans));
    WalkedAreListed(ds.shared, plans);
    CollectAfterSweep(ds.shared, ids, runName, plans);
    SweptIsClean(ds.shared, ids, runName);
    var rep0 := NewApplyReport(runName);
    DryRunCollects(runName, prefix, "", first.0, plans, rep0, AsSent);
    var rep1 := EnsureSharedDrives(runName, prefix, "", first.0, plans, rep0, true, AsSent).2;
    CleanPassIsQuiet(first.0, ids, runName, how, rep1);
    CleanMyDrivesAreQuiet(first.0, users, runName, how.sweep, rep1);
  }
}
