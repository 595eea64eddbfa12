/**
  One document of `apply` (`_ensure_shared_drive_docs`, and the same steps in
  `_ensure_my_drive_docs`): the file is ensured under its tags, and its content is generated and
  its tags rewritten unless the skip rule holds. The generated text is not modelled: the step
  takes the content hash of whatever the generator returns as a parameter.

  The steps work on the store the document lookup searches, which is where `ensure_doc_file`
  files the document whenever its parent is in that store (`EnsureDocFileInScope`). That is so
  in `_ensure_my_drive_docs`, whose root folder and documents live in the user's own My Drive.
  In a shared drive it holds once folders are filed in the drive (`DriveRoot`); as sent, the
  folder chain starts in the acting user's My Drive, and the documents follow it there.
*/
module CliDocs {
  import opened Wrappers
  import opened PyDict
  import opened Tenant
  import opened GoogleDrive
  import opened CliLayout
  import opened CliPlan

  const PromptKey := "gwsynth_prompt_version"
  const HashKey := "gwsynth_content_hash"

  /** The tags a document is ensured under: the four base tags and the prompt version. */
  function DocProps(runName: string, stableId: string, path: string, promptVersion: string): (p: Props)
    ensures UniqueKeys(p) && Get(p, HashKey).None?
    ensures Get(p, "gwsynth_id") == Some(stableId) && Get(p, "gwsynth_kind") == Some("doc")
    ensures Get(p, PromptKey) == (if promptVersion != "" then Some(promptVersion) else None)
  {
    BuildAppProperties(runName, stableId, "doc", path, Some(promptVersion), None)
  }

  /** The tags written after generation: `props` with the content hash and the prompt version set. */
  function WrittenProps(props: Props, promptVersion: string, hash: string): Props {
    Set(Set(props, HashKey, hash), PromptKey, promptVersion)
  }

  /**
    The skip rule: an existing document keeps its content when it was not just created, its
    prompt-version tag is the blueprint's, and it carries a non-empty content hash.
  */
  predicate KeepsContent(created: bool, existing: Option<File>, promptVersion: string) {
    && !created && existing.Some?
    && Get(existing.value.props, PromptKey) == Some(promptVersion)
    && Truthy(Get(existing.value.props, HashKey))
  }

  /** The first listed file tagged with the document's id and kind `doc`. */
  function FirstTagged(files: seq<File>, stableId: string): Option<File> {
    match FindFile(files, DocQuery(stableId))
    case Some(k) => Some(files[k])
    case None => None
  }

  /** The first listed file with this id. */
  function FileById(files: seq<File>, fileId: nat): (r: Option<File>)
    ensures r.Some? ==> r.value in files && r.value.id == fileId
    ensures r.None? ==> forall j :: 0 <= j < |files| ==> files[j].id != fileId
  {
    if |files| == 0 then None
    else if files[0].id == fileId then Some(files[0])
    else FileById(files[1..], fileId)
  }

  /** The file store of a drive as the service keeps it: distinct ids, all drawn from the counter. */
  predicate WellFormed(sp: Space) {
    UniqueIds(sp.files) && IdsBelow(sp.files, sp.nextId)
  }

  /**
    The files of `before` are still listed in `after`, in the same order under the same ids and
    names, and at most one file is added after them.
  */
  predicate KeepsListing(before: seq<File>, after: seq<File>) {
    && |before| <= |after| <= |before| + 1
    && forall i :: 0 <= i < |before| ==> after[i].id == before[i].id && after[i].name == before[i].name
  }

  lemma EnsureKeepsListing(sp: Space, name: string, parent: Option<nat>, props: Props)
    ensures KeepsListing(sp.files, EnsureDocIn(sp, name, parent, props, false).0.files)
  {
  }

  lemma UpdateKeepsListing(before: seq<File>, sp: Space, fileId: Option<nat>, w: Props)
    requires KeepsListing(before, sp.files)
    ensures fileId.Some? ==> KeepsListing(before, UpdateAppProperties(sp, fileId.value, w).files)
  {
  }

  /**
    One document as the source writes it: ensure the file, read the tags of the first file
    tagged with the document's id, and regenerate (rewriting the tags of the ensured file)
    unless the skip rule holds for those tags. The second result is the regenerated file's id,
    which `apply` reports as `doc:{id}`.
  */
  function DocStep(sp: Space, runName: string, doc: DocPlan, parent: Option<nat>, promptVersion: string,
                   hash: string): (r: (Space, Option<nat>))
    ensures KeepsListing(sp.files, r.0.files)
  {
    var props := DocProps(runName, doc.stableId, doc.path, promptVersion);
    EnsureKeepsListing(sp, doc.name, parent, props);
    var (sp1, (fileId, created)) := EnsureDocIn(sp, doc.name, parent, props, false);
    UpdateKeepsListing(sp.files, sp1, fileId, WrittenProps(props, promptVersion, hash));
    if fileId.None? then (sp1, None)
    else if KeepsContent(created, FirstTagged(sp1.files, doc.stableId), promptVersion) then (sp1, None)
    else (UpdateAppProperties(sp1, fileId.value, WrittenProps(props, promptVersion, hash)), fileId)
  }

  /**
    The same step reading the tags of the file it has just ensured, which is the file the skip
    rule is about.
  */
  function DocStepChecked(sp: Space, runName: string, doc: DocPlan, parent: Option<nat>, promptVersion: string,
                          hash: string): (r: (Space, Option<nat>))
    ensures KeepsListing(sp.files, r.0.files)
  {
    var props := DocProps(runName, doc.stableId, doc.path, promptVersion);
    EnsureKeepsListing(sp, doc.name, parent, props);
    var (sp1, (fileId, created)) := EnsureDocIn(sp, doc.name, parent, props, false);
    UpdateKeepsListing(sp.files, sp1, fileId, WrittenProps(props, promptVersion, hash));
    if fileId.None? then (sp1, None)
    else if KeepsContent(created, FileById(sp1.files, fileId.value), promptVersion) then (sp1, None)
    else (UpdateAppProperties(sp1, fileId.value, WrittenProps(props, promptVersion, hash)), fileId)
  }

  // ----- The skip rule -----

  /**
    The step leaves the drive untouched (no new file, no regeneration, no tag write) exactly
    when a file already carries the document's tags and the first file tagged with its id
    passes the skip rule.
  */
  lemma DocStepSkip(sp: Space, runName: string, doc: DocPlan, parent: Option<nat>, promptVersion: string,
                    hash: string)
    ensures var r := DocStep(sp, runName, doc, parent, promptVersion, hash);
      var props := DocProps(runName, doc.stableId, doc.path, promptVersion);
      && (r.1.None? <==> (FindFile(sp.files, props).Some?
                          && KeepsContent(false, FirstTagged(sp.files, doc.stableId), promptVersion)))
      && (r.1.None? ==> r.0 == sp)
  {
  }

  /** A regenerated document is the ensured file, and it ends up carrying the written tags. */
  lemma DocStepWrites(sp: Space, runName: string, doc: DocPlan, parent: Option<nat>, promptVersion: string,
                      hash: string)
    requires WellFormed(sp)
    ensures var r := DocStep(sp, runName, doc, parent, promptVersion, hash);
      var props := DocProps(runName, doc.stableId, doc.path, promptVersion);
      r.1.Some? ==> (
        && (FindFile(sp.files, props).None? ==> r.1.value == sp.nextId && |r.0.files| == |sp.files| + 1)
        && (FindFile(sp.files, props).Some? ==> r.1.value == sp.files[FindFile(sp.files, props).value].id
                                                 && |r.0.files| == |sp.files|)
        && exists i :: 0 <= i < |r.0.files| && r.0.files[i].id == r.1.value
                       && Matches(r.0.files[i], WrittenProps(props, promptVersion, hash)))
  {
    var r := DocStep(sp, runName, doc, parent, promptVersion, hash);
    var props := DocProps(runName, doc.stableId, doc.path, promptVersion);
    var e := EnsureDocIn(sp, doc.name, parent, props, false);
    var i := DocStepShape(sp, runName, doc, parent, promptVersion, hash);
    if r.1.Some? {
      UpdateOnly(e.0, i, WrittenProps(props, promptVersion, hash));
      WrittenCarried(e.0.files[i], runName, doc.stableId, doc.path, promptVersion, hash);
      assert r.0.files[i].id == r.1.value;
    }
  }

  /** A regeneration touches the regenerated file only: every other file of the drive is kept as it was. */
  lemma DocStepFrame(sp: Space, runName: string, doc: DocPlan, parent: Option<nat>, promptVersion: string,
                     hash: string)
    requires WellFormed(sp)
    ensures var r := DocStep(sp, runName, doc, parent, promptVersion, hash);
      r.1.Some? ==> forall j :: 0 <= j < |sp.files| && sp.files[j].id != r.1.value ==> r.0.files[j] == sp.files[j]
  {
    var r := DocStep(sp, runName, doc, parent, promptVersion, hash);
    var props := DocProps(runName, doc.stableId, doc.path, promptVersion);
    var e := EnsureDocIn(sp, doc.name, parent, props, false);
    var i := DocStepShape(sp, runName, doc, parent, promptVersion, hash);
    if r.1.Some? {
      UpdateOnly(e.0, i, WrittenProps(props, promptVersion, hash));
      forall j | 0 <= j < |sp.files| && sp.files[j].id != r.1.value ensures r.0.files[j] == sp.files[j] {
        assert e.0.files[j] == sp.files[j];
      }
    }
  }

  // ----- Tags after a write -----

  /** A query pair the file answers. */
  lemma MatchesEntry(f: File, q: Props, k: string, v: string)
    requires Matches(f, q) && Get(q, k) == Some(v)
    ensures Get(f.props, k) == Some(v)
  {
    var i :| 0 <= i < |q| && q[i] == (k, v);
  }

  /** The written tags answer the document's own tags, and so the next ensure finds the file. */
  lemma WrittenMatches(f: File, runName: string, stableId: string, path: string, promptVersion: string, hash: string)
    requires Matches(f, WrittenProps(DocProps(runName, stableId, path, promptVersion), promptVersion, hash))
    ensures Matches(f, DocProps(runName, stableId, path, promptVersion))
    ensures Get(f.props, PromptKey) == Some(promptVersion) && Get(f.props, HashKey) == Some(hash)
  {
    var props := DocProps(runName, stableId, path, promptVersion);
    var w := WrittenProps(props, promptVersion, hash);
    GetAfterSet(Set(props, HashKey, hash), PromptKey, promptVersion, HashKey);
    GetAfterSet(props, HashKey, hash, HashKey);
    GetAfterSet(Set(props, HashKey, hash), PromptKey, promptVersion, PromptKey);
    MatchesEntry(f, w, PromptKey, promptVersion);
    MatchesEntry(f, w, HashKey, hash);
    forall i | 0 <= i < |props|
      ensures Get(f.props, props[i].0) == Some(props[i].1)
    {
      var k := props[i].0;
      GetOfUnique(props, i);
      GetAfterSet(Set(props, HashKey, hash), PromptKey, promptVersion, k);
      GetAfterSet(props, HashKey, hash, k);
      MatchesEntry(f, w, k, props[i].1);
    }
  }

  /** The written tags have unique keys, as the document's own tags do. */
  lemma WrittenUnique(runName: string, stableId: string, path: string, promptVersion: string, hash: string)
    ensures UniqueKeys(WrittenProps(DocProps(runName, stableId, path, promptVersion), promptVersion, hash))
  {
    var props := DocProps(runName, stableId, path, promptVersion);
    SetKeepsUniqueKeys(props, HashKey, hash);
    SetKeepsUniqueKeys(Set(props, HashKey, hash), PromptKey, promptVersion);
  }

  /** Merging the written tags into any file leaves it carrying all of them. */
  lemma WrittenCarried(f: File, runName: string, stableId: string, path: string, promptVersion: string, hash: string)
    ensures var w := WrittenProps(DocProps(runName, stableId, path, promptVersion), promptVersion, hash);
      Matches(f.(props := Merge(f.props, w)), w)
  {
    var w := WrittenProps(DocProps(runName, stableId, path, promptVersion), promptVersion, hash);
    WrittenUnique(runName, stableId, path, promptVersion, hash);
    forall j | 0 <= j < |w| ensures Get(Merge(f.props, w), w[j].0) == Some(w[j].1) {
      GetMerge(f.props, w, w[j].0);
      GetOfUnique(w, j);
    }
  }

  /** Tags that name the document's id, the kind `doc`, and (when there is one) the prompt version. */
  predicate DocTagged(p: Props, stableId: string, promptVersion: string) {
    && Get(p, "gwsynth_id") == Some(stableId) && Get(p, "gwsynth_kind") == Some("doc")
    && (promptVersion != "" ==> Get(p, PromptKey) == Some(promptVersion))
  }

  /** A file answering such tags is tagged with the document's id, and with the prompt version. */
  lemma TaggedImplyQuery(f: File, p: Props, stableId: string, promptVersion: string)
    requires Matches(f, p) && DocTagged(p, stableId, promptVersion)
    ensures Matches(f, DocQuery(stableId))
    ensures promptVersion != "" ==> Get(f.props, PromptKey) == Some(promptVersion)
  {
    MatchesEntry(f, p, "gwsynth_id", stableId);
    MatchesEntry(f, p, "gwsynth_kind", "doc");
    if promptVersion != "" {
      MatchesEntry(f, p, PromptKey, promptVersion);
    }
  }

  /** A file answering the document's tags is tagged with its id, and with the blueprint's prompt version. */
  lemma DocPropsImplyQuery(f: File, runName: string, stableId: string, path: string, promptVersion: string)
    requires Matches(f, DocProps(runName, stableId, path, promptVersion))
    ensures Matches(f, DocQuery(stableId))
    ensures promptVersion != "" ==> Get(f.props, PromptKey) == Some(promptVersion)
  {
    TaggedImplyQuery(f, DocProps(runName, stableId, path, promptVersion), stableId, promptVersion);
  }

  // ----- Updating one file of a well-formed store -----

  /** Rewriting the tags of the file at `i` changes no other file. */
  lemma UpdateOnly(sp: Space, i: nat, props: Props)
    requires UniqueIds(sp.files) && i < |sp.files|
    ensures var r := UpdateAppProperties(sp, sp.files[i].id, props);
      && r.files[i] == sp.files[i].(props := Merge(sp.files[i].props, props)) && UniqueIds(r.files)
      && forall j :: 0 <= j < |sp.files| && j != i ==> r.files[j] == sp.files[j]
  {
  }

  /** Sending a file tags it already carries changes nothing. */
  lemma UpdateSame(sp: Space, i: nat, props: Props)
    requires UniqueIds(sp.files) && i < |sp.files| && Matches(sp.files[i], props)
    ensures UpdateAppProperties(sp, sp.files[i].id, props) == sp
  {
    MergeCarried(sp.files[i].props, props);
    var r := UpdateAppProperties(sp, sp.files[i].id, props);
    assert r.files == sp.files;
  }

  /** A file found first keeps being found first when only it is rewritten and it still matches. */
  lemma FindAfterUpdate(sp: Space, i: nat, props: Props, q: Props)
    requires UniqueIds(sp.files) && i < |sp.files|
    requires forall j :: 0 <= j < i ==> !Matches(sp.files[j], q)
    requires Matches(sp.files[i].(props := Merge(sp.files[i].props, props)), q)
    ensures FindFile(UpdateAppProperties(sp, sp.files[i].id, props).files, q) == Some(i)
  {
    UpdateOnly(sp, i, props);
  }

  /** After `ensure_doc_file`, the store is well formed and the returned file is the first to answer the tags. */
  lemma AfterEnsure(sp: Space, name: string, parent: Option<nat>, props: Props) returns (i: nat)
    requires WellFormed(sp) && UniqueKeys(props)
    ensures var e := EnsureDocIn(sp, name, parent, props, false);
      && WellFormed(e.0) && i < |e.0.files| && FindFile(e.0.files, props) == Some(i)
      && e.1.0 == Some(e.0.files[i].id) && (!e.1.1 ==> e.0 == sp)
  {
    var e := EnsureDocIn(sp, name, parent, props, false);
    var sp1 := e.0;
    var found := FindFile(sp.files, props);
    if found.None? {
      i := |sp.files|;
      var f := sp1.files[i];
      MatchesOwnProps(f);
      FindFileAppend(sp.files, f, props);
      forall a, b | 0 <= a < b < |sp1.files| ensures sp1.files[a].id != sp1.files[b].id {
        if b == |sp.files| {
          assert sp1.files[a].id < sp.nextId;
        }
      }
    } else {
      i := found.value;
    }
  }

  /** Rewriting the file found first with tags that still answer the query keeps it found first, and the store well formed. */
  lemma AfterWrite(sp: Space, i: nat, props: Props, w: Props)
    requires WellFormed(sp) && i < |sp.files| && FindFile(sp.files, props) == Some(i)
    requires Matches(sp.files[i].(props := Merge(sp.files[i].props, w)), props)
    ensures var r := UpdateAppProperties(sp, sp.files[i].id, w);
      && WellFormed(r) && FindFile(r.files, props) == Some(i)
      && r.files[i].props == Merge(sp.files[i].props, w) && r.files[i].id == sp.files[i].id
  {
    var r := UpdateAppProperties(sp, sp.files[i].id, w);
    FindAfterUpdate(sp, i, w, props);
    UpdateOnly(sp, i, w);
    assert forall j :: 0 <= j < |r.files| ==> r.files[j].id == sp.files[j].id;
  }

  /** After one step the ensured file is at `i`: first to answer the tags, and carrying the written ones if regenerated. */
  lemma AfterStep(sp: Space, runName: string, doc: DocPlan, parent: Option<nat>, promptVersion: string,
                  hash: string) returns (i: nat)
    requires WellFormed(sp)
    ensures var r := DocStep(sp, runName, doc, parent, promptVersion, hash);
      var props := DocProps(runName, doc.stableId, doc.path, promptVersion);
      && WellFormed(r.0) && i < |r.0.files| && FindFile(r.0.files, props) == Some(i)
      && (r.1.Some? ==> Matches(r.0.files[i], WrittenProps(props, promptVersion, hash)) && r.0.files[i].id == r.1.value)
  {
    var props := DocProps(runName, doc.stableId, doc.path, promptVersion);
    var e := EnsureDocIn(sp, doc.name, parent, props, false);
    i := AfterEnsure(sp, doc.name, parent, props);
    var r := DocStep(sp, runName, doc, parent, promptVersion, hash);
    if r.1.Some? {
      assert r.0 == UpdateAppProperties(e.0, e.0.files[i].id, WrittenProps(props, promptVersion, hash));
      var w := WrittenProps(props, promptVersion, hash);
      WrittenCarried(e.0.files[i], runName, doc.stableId, doc.path, promptVersion, hash);
      WrittenMatches(e.0.files[i].(props := Merge(e.0.files[i].props, w)), runName, doc.stableId, doc.path, promptVersion, hash);
      AfterWrite(e.0, i, props, w);
    }
  }

  /** The same for the corrected step. */
  lemma AfterCheckedStep(sp: Space, runName: string, doc: DocPlan, parent: Option<nat>, promptVersion: string,
                         hash: string) returns (i: nat)
    requires WellFormed(sp)
    ensures var r := DocStepChecked(sp, runName, doc, parent, promptVersion, hash);
      var props := DocProps(runName, doc.stableId, doc.path, promptVersion);
      && WellFormed(r.0) && i < |r.0.files| && FindFile(r.0.files, props) == Some(i)
      && (r.1.Some? ==> Matches(r.0.files[i], WrittenProps(props, promptVersion, hash)) && r.0.files[i].id == r.1.value)
  {
    var props := DocProps(runName, doc.stableId, doc.path, promptVersion);
    var e := EnsureDocIn(sp, doc.name, parent, props, false);
    i := AfterEnsure(sp, doc.name, parent, props);
    var r := DocStepChecked(sp, runName, doc, parent, promptVersion, hash);
    if r.1.Some? {
      assert r.0 == UpdateAppProperties(e.0, e.0.files[i].id, WrittenProps(props, promptVersion, hash));
      var w := WrittenProps(props, promptVersion, hash);
      WrittenCarried(e.0.files[i], runName, doc.stableId, doc.path, promptVersion, hash);
      WrittenMatches(e.0.files[i].(props := Merge(e.0.files[i].props, w)), runName, doc.stableId, doc.path, promptVersion, hash);
      AfterWrite(e.0, i, props, w);
    }
  }

  /** On a drive where a file already answers the document's tags, the step creates nothing. */
  lemma StepOnFound(sp: Space, runName: string, doc: DocPlan, parent: Option<nat>, promptVersion: string,
                    hash: string, i: nat)
    requires i < |sp.files| && FindFile(sp.files, DocProps(runName, doc.stableId, doc.path, promptVersion)) == Some(i)
    ensures var props := DocProps(runName, doc.stableId, doc.path, promptVersion);
      DocStep(sp, runName, doc, parent, promptVersion, hash)
        == if KeepsContent(false, FirstTagged(sp.files, doc.stableId), promptVersion) then (sp, None)
           else (UpdateAppProperties(sp, sp.files[i].id, WrittenProps(props, promptVersion, hash)), Some(sp.files[i].id))
    ensures var props := DocProps(runName, doc.stableId, doc.path, promptVersion);
      DocStepChecked(sp, runName, doc, parent, promptVersion, hash)
        == if KeepsContent(false, FileById(sp.files, sp.files[i].id), promptVersion) then (sp, None)
           else (UpdateAppProperties(sp, sp.files[i].id, WrittenProps(props, promptVersion, hash)), Some(sp.files[i].id))
  {
  }

  /** Running the step again leaves the drive as the first run left it. */
  lemma DocStepStable(sp: Space, runName: string, doc: DocPlan, parent: Option<nat>,
                      promptVersion: string, hash: string)
    requires WellFormed(sp)
    ensures var sp2 := DocStep(sp, runName, doc, parent, promptVersion, hash).0;
      DocStep(sp2, runName, doc, parent, promptVersion, hash).0 == sp2
  {
    var r := DocStep(sp, runName, doc, parent, promptVersion, hash);
    var i := AfterStep(sp, runName, doc, parent, promptVersion, hash);
    StepOnFound(r.0, runName, doc, parent, promptVersion, hash, i);
    DocStepSkip(sp, runName, doc, parent, promptVersion, hash);
    if r.1.Some? {
      UpdateSame(r.0, i, WrittenProps(DocProps(runName, doc.stableId, doc.path, promptVersion), promptVersion, hash));
    }
  }

  // ----- The corrected step -----

  /** The first file with an id is the one at any index of a store with distinct ids. */
  lemma FileByIdUnique(files: seq<File>, i: nat)
    requires UniqueIds(files) && i < |files|
    ensures FileById(files, files[i].id) == Some(files[i])
  {
    var r := FileById(files, files[i].id);
    assert r.Some?;
    var j :| 0 <= j < |files| && files[j] == r.value;
    assert files[j].id == files[i].id;
  }

  /** The corrected step leaves the drive untouched exactly when it skips. */
  lemma DocStepCheckedSkip(sp: Space, runName: string, doc: DocPlan, parent: Option<nat>, promptVersion: string,
                           hash: string)
    ensures var r := DocStepChecked(sp, runName, doc, parent, promptVersion, hash);
      var props := DocProps(runName, doc.stableId, doc.path, promptVersion);
      var found := FindFile(sp.files, props);
      && (r.1.None? <==> (found.Some? && KeepsContent(false, FileById(sp.files, sp.files[found.value].id), promptVersion)))
      && (r.1.None? ==> r.0 == sp)
  {
  }

  /**
    After one run of the corrected step, a second run regenerates nothing and changes nothing:
    the ensured file carries the blueprint's prompt version and a non-empty content hash.
  */
  lemma DocStepCheckedSettles(sp: Space, runName: string, doc: DocPlan, parent: Option<nat>, promptVersion: string,
                              hash: string)
    requires WellFormed(sp) && hash != ""
    ensures var r := DocStepChecked(sp, runName, doc, parent, promptVersion, hash);
      DocStepChecked(r.0, runName, doc, parent, promptVersion, hash) == (r.0, None)
  {
    var r := DocStepChecked(sp, runName, doc, parent, promptVersion, hash);
    var i := AfterCheckedStep(sp, runName, doc, parent, promptVersion, hash);
    StepOnFound(r.0, runName, doc, parent, promptVersion, hash, i);
    DocStepCheckedSkip(sp, runName, doc, parent, promptVersion, hash);
    if r.1.Some? {
      FileByIdUnique(r.0.files, i);
      WrittenMatches(r.0.files[i], runName, doc.stableId, doc.path, promptVersion, hash);
    }
  }

  /**
    Where every file tagged with the document's id also answers its full tags (no copy under
    another prompt version), the corrected step does what the source's step does.
  */
  lemma CheckedAgrees(sp: Space, runName: string, doc: DocPlan, parent: Option<nat>, promptVersion: string,
                      hash: string)
    requires WellFormed(sp)
    requires forall j :: 0 <= j < |sp.files| && Matches(sp.files[j], DocQuery(doc.stableId)) ==>
      Matches(sp.files[j], DocProps(runName, doc.stableId, doc.path, promptVersion))
    ensures DocStep(sp, runName, doc, parent, promptVersion, hash)
      == DocStepChecked(sp, runName, doc, parent, promptVersion, hash)
  {
    var props := DocProps(runName, doc.stableId, doc.path, promptVersion);
    var e := EnsureDocIn(sp, doc.name, parent, props, false);
    var i := DocStepShape(sp, runName, doc, parent, promptVersion, hash);
    var i2 := DocStepCheckedShape(sp, runName, doc, parent, promptVersion, hash);
    DocPropsImplyQuery(e.0.files[i], runName, doc.stableId, doc.path, promptVersion);
    EnsuredIsFirstTagged(sp.files, e.0.files, i, DocQuery(doc.stableId), props);
    FileByIdUnique(e.0.files, i);
  }

  // ----- A stale copy listed first -----

  /** A first match keeps being first when the files up to it are unchanged. */
  lemma FindSamePrefix(a: seq<File>, b: seq<File>, q: Props, k: nat)
    requires FindFile(a, q) == Some(k) && k < |b|
    requires forall j :: 0 <= j <= k ==> b[j] == a[j]
    ensures FindFile(b, q) == Some(k)
  {
    FindFileIs(b, q, k);
  }

  /** The step, unfolded once: ensure the file at `i`, then skip or rewrite it. */
  lemma DocStepShape(sp: Space, runName: string, doc: DocPlan, parent: Option<nat>, promptVersion: string,
                     hash: string) returns (i: nat)
    requires WellFormed(sp)
    ensures var props := DocProps(runName, doc.stableId, doc.path, promptVersion);
      var e := EnsureDocIn(sp, doc.name, parent, props, false);
      && WellFormed(e.0) && i < |e.0.files| && FindFile(e.0.files, props) == Some(i)
      && e.1.0 == Some(e.0.files[i].id) && (!e.1.1 ==> e.0 == sp)
      && sp.files <= e.0.files && |e.0.files| <= |sp.files| + 1
      && DocStep(sp, runName, doc, parent, promptVersion, hash)
         == if KeepsContent(e.1.1, FirstTagged(e.0.files, doc.stableId), promptVersion) then (e.0, None)
            else (UpdateAppProperties(e.0, e.0.files[i].id, WrittenProps(props, promptVersion, hash)), Some(e.0.files[i].id))
  {
    i := AfterEnsure(sp, doc.name, parent, DocProps(runName, doc.stableId, doc.path, promptVersion));
  }

  /** The same for the corrected step. */
  lemma DocStepCheckedShape(sp: Space, runName: string, doc: DocPlan, parent: Option<nat>, promptVersion: string,
                            hash: string) returns (i: nat)
    requires WellFormed(sp)
    ensures var props := DocProps(runName, doc.stableId, doc.path, promptVersion);
      var e := EnsureDocIn(sp, doc.name, parent, props, false);
      && WellFormed(e.0) && i < |e.0.files| && FindFile(e.0.files, props) == Some(i)
      && e.1.0 == Some(e.0.files[i].id) && (!e.1.1 ==> e.0 == sp)
      && sp.files <= e.0.files && |e.0.files| <= |sp.files| + 1
      && DocStepChecked(sp, runName, doc, parent, promptVersion, hash)
         == if KeepsContent(e.1.1, FileById(e.0.files, e.0.files[i].id), promptVersion) then (e.0, None)
            else (UpdateAppProperties(e.0, e.0.files[i].id, WrittenProps(props, promptVersion, hash)), Some(e.0.files[i].id))
  {
    i := AfterEnsure(sp, doc.name, parent, DocProps(runName, doc.stableId, doc.path, promptVersion));
  }

  /**
    A copy first among the old files, under another prompt version than the ensured file at `i`,
    stays first once files are appended, and is listed before the ensured file.
  */
  lemma StaleStillFirst(files: seq<File>, more: seq<File>, i: nat, k: nat, q: Props, promptVersion: string)
    requires files <= more && i < |more| && FindFile(files, q) == Some(k)
    requires Get(files[k].props, PromptKey) != Some(promptVersion)
    requires Matches(more[i], q) && Get(more[i].props, PromptKey) == Some(promptVersion)
    ensures FindFile(more, q) == Some(k) && k < i
  {
    FindSamePrefix(files, more, q, k);
    assert more[k] == files[k];
    assert i != k;
    assert forall j :: 0 <= j < k ==> !Matches(more[j], q);
    assert i >= k;
  }

  /** When no old file tagged with the id fails the full tags, the first tagged file is the ensured one. */
  lemma EnsuredIsFirstTagged(files: seq<File>, more: seq<File>, i: nat, q: Props, props: Props)
    requires files <= more && |more| <= |files| + 1 && i < |more|
    requires FindFile(more, props) == Some(i) && Matches(more[i], q)
    requires forall j :: 0 <= j < |files| && Matches(files[j], q) ==> Matches(files[j], props)
    ensures FindFile(more, q) == Some(i)
  {
    forall j | 0 <= j < i ensures !Matches(more[j], q) {
      assert more[j] == files[j];
    }
    FindFileIs(more, q, i);
  }

  /** Rewriting a file listed after the first match leaves that match first. */
  lemma WriteAfterFirst(sp: Space, i: nat, k: nat, q: Props, w: Props)
    requires UniqueIds(sp.files) && k < i < |sp.files| && FindFile(sp.files, q) == Some(k)
    ensures var r := UpdateAppProperties(sp, sp.files[i].id, w);
      FindFile(r.files, q) == Some(k) && r.files[k] == sp.files[k]
  {
    UpdateOnly(sp, i, w);
    FindSamePrefix(sp.files, UpdateAppProperties(sp, sp.files[i].id, w).files, q, k);
  }

  /**
    As the source writes it: when the first listed file tagged with the document's id is a copy
    under another prompt version, the step regenerates the document, and the copy stays listed
    first, so the next run is in the same situation and regenerates again. The plan counts the
    document as an update on every run.
  */
  lemma StaleCopyStaysFirst(sp: Space, runName: string, doc: DocPlan, parent: Option<nat>, promptVersion: string,
                            hash: string, copy: File)
    requires WellFormed(sp) && promptVersion != ""
    requires FirstTagged(sp.files, doc.stableId) == Some(copy) && Get(copy.props, PromptKey) != Some(promptVersion)
    ensures var r := DocStep(sp, runName, doc, parent, promptVersion, hash);
      && r.1.Some? && WellFormed(r.0) && FirstTagged(r.0.files, doc.stableId) == Some(copy)
      && DocStandingOf(r.0.files, doc, promptVersion) == Stale
  {
    var props := DocProps(runName, doc.stableId, doc.path, promptVersion);
    var q := DocQuery(doc.stableId);
    var k := FindFile(sp.files, q).value;
    var e := EnsureDocIn(sp, doc.name, parent, props, false);
    var i := DocStepShape(sp, runName, doc, parent, promptVersion, hash);
    DocPropsImplyQuery(e.0.files[i], runName, doc.stableId, doc.path, promptVersion);
    StaleStillFirst(sp.files, e.0.files, i, k, q, promptVersion);
    var w := WrittenProps(props, promptVersion, hash);
    WrittenCarried(e.0.files[i], runName, doc.stableId, doc.path, promptVersion, hash);
    WrittenMatches(e.0.files[i].(props := Merge(e.0.files[i].props, w)), runName, doc.stableId, doc.path, promptVersion, hash);
    AfterWrite(e.0, i, props, w);
    WriteAfterFirst(e.0, i, k, q, w);
  }

  /** Two runs in a row over a drive holding a stale copy listed first both regenerate the document. */
  lemma StaleCopyRegeneratesAgain(sp: Space, runName: string, doc: DocPlan, parent: Option<nat>,
                                  promptVersion: string, hash: string, copy: File)
    requires WellFormed(sp) && promptVersion != ""
    requires FirstTagged(sp.files, doc.stableId) == Some(copy) && Get(copy.props, PromptKey) != Some(promptVersion)
    ensures var r := DocStep(sp, runName, doc, parent, promptVersion, hash);
      DocStep(r.0, runName, doc, parent, promptVersion, hash).1.Some?
  {
    StaleCopyStaysFirst(sp, runName, doc, parent, promptVersion, hash, copy);
    var r := DocStep(sp, runName, doc, parent, promptVersion, hash);
    StaleCopyStaysFirst(r.0, runName, doc, parent, promptVersion, hash, copy);
  }

  /**
    A drive that shows it: one copy of the document generated under prompt version `v1`, with
    the blueprint now at `v2`. The first apply writes a second document; every apply after it regenerates that
    second document again.
  */
  lemma StaleCopyExample(runName: string, doc: DocPlan, hash: string)
    ensures var copy := File(0, doc.name, DocMime, None, WrittenProps(DocProps(runName, doc.stableId, doc.path, "v1"), "v1", "h1"), []);
      var sp := Space([copy], 1);
      var r := DocStep(sp, runName, doc, None, "v2", hash);
      && r.1 == Some(1) && |r.0.files| == 2
      && DocStep(r.0, runName, doc, None, "v2", hash).1.Some?
  {
    var copy := File(0, doc.name, DocMime, None, WrittenProps(DocProps(runName, doc.stableId, doc.path, "v1"), "v1", "h1"), []);
    var sp := Space([copy], 1);
    assert Matches(copy, DocQuery(doc.stableId)) && Get(copy.props, PromptKey) == Some("v1") by {
      WrittenUnique(runName, doc.stableId, doc.path, "v1", "h1");
      MatchesOwnProps(copy);
      WrittenMatches(copy, runName, doc.stableId, doc.path, "v1", "h1");
      DocPropsImplyQuery(copy, runName, doc.stableId, doc.path, "v1");
    }
    ExampleDrive(runName, doc, copy);
    StaleCopyFirstRun(sp, runName, doc, hash);
    StaleCopyRegeneratesAgain(sp, runName, doc, None, "v2", hash, copy);
  }

  /** On the example's drive the first apply writes a new file with the next id. */
  lemma StaleCopyFirstRun(sp: Space, runName: string, doc: DocPlan, hash: string)
    requires WellFormed(sp) && sp.nextId == 1 && |sp.files| == 1
    requires FindFile(sp.files, DocProps(runName, doc.stableId, doc.path, "v2")).None?
    ensures var r := DocStep(sp, runName, doc, None, "v2", hash);
      r.1 == Some(1) && |r.0.files| == 2
  {
    DocStepSkip(sp, runName, doc, None, "v2", hash);
    DocStepWrites(sp, runName, doc, None, "v2", hash);
  }

  /** The drive of the example: the `v1` copy is the first tagged file, and nothing answers the `v2` tags. */
  lemma ExampleDrive(runName: string, doc: DocPlan, copy: File)
    requires copy.id == 0 && Matches(copy, DocQuery(doc.stableId)) && Get(copy.props, PromptKey) == Some("v1")
    ensures WellFormed(Space([copy], 1))
    ensures FirstTagged([copy], doc.stableId) == Some(copy)
    ensures FindFile([copy], DocProps(runName, doc.stableId, doc.path, "v2")).None?
  {
    FindFileIs([copy], DocQuery(doc.stableId), 0);
    NoCurrentCopy([copy], runName, doc, "v2");
  }

  /**
    The plan and the apply disagree about a document whose only tagged copies carry another
    prompt version: the plan counts an update, the apply creates a second document.
  */
  lemma StaleIsCreated(sp: Space, runName: string, doc: DocPlan, parent: Option<nat>, promptVersion: string,
                       hash: string)
    requires WellFormed(sp) && promptVersion != ""
    requires forall j :: 0 <= j < |sp.files| && Matches(sp.files[j], DocQuery(doc.stableId)) ==>
      Get(sp.files[j].props, PromptKey) != Some(promptVersion)
    ensures var r := DocStep(sp, runName, doc, parent, promptVersion, hash);
      && r.1 == Some(sp.nextId) && |r.0.files| == |sp.files| + 1
      && forall j :: 0 <= j < |sp.files| ==> r.0.files[j] == sp.files[j]
  {
    assert FindFile(sp.files, DocProps(runName, doc.stableId, doc.path, promptVersion)).None? by {
      NoCurrentCopy(sp.files, runName, doc, promptVersion);
    }
    DocStepSkip(sp, runName, doc, parent, promptVersion, hash);
    DocStepWrites(sp, runName, doc, parent, promptVersion, hash);
    DocStepFrame(sp, runName, doc, parent, promptVersion, hash);
  }

  /** No file answers such tags when every file tagged with the id has another prompt version. */
  lemma NoTaggedCopy(files: seq<File>, p: Props, stableId: string, promptVersion: string)
    requires promptVersion != "" && DocTagged(p, stableId, promptVersion)
    requires forall j :: 0 <= j < |files| && Matches(files[j], DocQuery(stableId)) ==>
      Get(files[j].props, PromptKey) != Some(promptVersion)
    ensures FindFile(files, p).None?
  {
    forall j | 0 <= j < |files| ensures !Matches(files[j], p) {
      if Matches(files[j], p) {
        TaggedImplyQuery(files[j], p, stableId, promptVersion);
      }
    }
  }

  /** No file answers the document's tags when every file tagged with its id has another prompt version. */
  lemma NoCurrentCopy(files: seq<File>, runName: string, doc: DocPlan, promptVersion: string)
    requires promptVersion != ""
    requires forall j :: 0 <= j < |files| && Matches(files[j], DocQuery(doc.stableId)) ==>
      Get(files[j].props, PromptKey) != Some(promptVersion)
    ensures FindFile(files, DocProps(runName, doc.stableId, doc.path, promptVersion)).None?
  {
    var p := DocProps(runName, doc.stableId, doc.path, promptVersion);
    assert DocTagged(p, doc.stableId, promptVersion) by {
      DocPropsTagged(runName, doc.stableId, doc.path, promptVersion);
    }
    NoTaggedCopy(files, p, doc.stableId, promptVersion);
  }

  lemma DocPropsTagged(runName: string, stableId: string, path: string, promptVersion: string)
    ensures DocTagged(DocProps(runName, stableId, path, promptVersion), stableId, promptVersion)
  {
  }
}
