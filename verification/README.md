# gwsynth in Dafny

A model of the core of gwsynth, a tool that builds a synthetic Google Workspace tenant.

**The reconciliation engine.** gwsynth's engine owns no ledger. Each run does three things:

- It recomputes a desired resource tree from a validated blueprint and an identity snapshot read from Microsoft Graph.
- It classifies every desired object against the live tenant, and only touches objects it recognises as its own.
- It recognises its own objects by tags:
  - a `gwsynth_run:<run>` suffix in a group's description;
  - a user's organisational unit;
  - `gwsynth_*` app properties on Drive files;
  - a marker folder tagged with the drive's stable id, which it looks for in each shared drive it finds by name.

**The local mock service.** gwsynth also ships a mock Workspace API. The model covers:

- its request-field validators and the item and permission rules;
- keyset pagination and the cursor codec;
- snapshot export and import;
- the rate limiter's client-address parsing;
- the API-key gate.

**How the tenant is modelled.** The remote tenant is an immutable value:

- a directory of users, groups, organisational units and licence assignments;
- shared drives and My Drives, each a sequence of files that carry app properties and permissions.

Every `ensure_*` call is a pure function from a tenant to a new tenant and a result. The CLI's `plan`, `apply` and `destroy` steps are folds over that value that build up a report.

**What is a parameter.** These are passed in, because the model cannot see or run them:

- UUIDv5 and SHA-256 (`StableIds.Hashes`);
- the LLM content generator;
- the current year and the clock;
- `json.loads`;
- the foreign-key check's count of violations;
- the token bucket's decision.

**How the files are laid out.** There is one module per source file:

- `cli_*.dfy` split `real/cli.py` by concern: layout, departments, plan, tally, drives, documents, destroy and helpers;
- `google_*.dfy`, `entra.dfy`, `blueprint.dfy`, `stable_ids.dfy`, `state.dfy` and `report.dfy` model the rest of `real/`;
- `api_*.dfy`, `pagination.dfy`, `snapshot.dfy`, `rate_limit.dfy` and `auth.dfy` model the mock service;
- `base64.dfy`, `utf8.dfy` and `json_text.dfy` model the standard-library codecs the cursor goes through;
- `wrappers.dfy`, `strings.dfy`, `pydict.dfy`, `json.dfy`, `pyformat.dfy`, `folds.dfy`, `result_seqs.dfy` and `tenant.dfy` are shared building blocks.

Some source lines carry more than one promise. They are cited by more than one member: an operation and the lemmas that state what it promises.

**As written and as corrected.** Where the source does not do what it evidently means (see "## Findings"), the model keeps both behaviours behind a parameter, proves what each one does, and states the intended properties of the corrected one:

- `GoogleDrive.Placement`: where Drive files a create whose body names no parent. `AsSent` is the root of the acting user's My Drive, which is where the drive marker and a top-level shared-drive folder land as the source sends them. `DriveRoot` is the root of the drive searched.
- `CliDestroy.Sweep`: whether the destroy loop stops at a listed file an earlier folder delete already took (`StopAtGone`, as written) or skips it (`SkipGone`).
- `CliDestroy.Teardown`: whether mode `all` spares each drive's marker (`SpareMarker`, as written) or deletes it with the run's files (`DeleteMarker`).
- `GoogleDrive.Quoting`: how a tag query writes each key and value between single quotes. `Unescaped` is the text `_app_properties_query` builds, which Drive refuses when a tag holds `'` or `\`. `Escaped` puts a backslash before each of them first, so every tag reads back.
- `CliDestroy.Walk` bundles the destroy choices with the group test; `AsWritten` and `Corrected` are its two settings.

## Model

| member | source | states |
|---|---|---|
| StableIds.StableName | src/gwsynth/real/stable_ids.py:9-10 | the hashed name is the run name, ':', the object type, ':' and the key, with no escaping: its length, its run-name prefix and its key suffix |
| StableIds.StableUuidOnlyThroughName | src/gwsynth/real/stable_ids.py:9-11 | two argument triples with the same joined name get the same id, whatever uuid5 is |
| StableIds.ColonAmbiguity | src/gwsynth/real/stable_ids.py:9-11 | ("a:b", "c", key) and ("a", "b:c", key) get the same id, because ':' is not escaped |
| StableIds.StableNameKeyInjective | src/gwsynth/real/stable_ids.py:10 | with run name and object type fixed, the joined name determines the key |
| StableIds.DistinctKeysDistinctIds | src/gwsynth/real/stable_ids.py:9-11 | under a collision-free uuid5, distinct keys of one run and type get distinct ids |
| StableIds.ContentHashIgnoresPadding | src/gwsynth/real/stable_ids.py:14-19 | the content hash is the digest of the stripped text, so surrounding whitespace never changes it |
| State.NewRunState | src/gwsynth/real/state.py:9-15 | a fresh run state has version 1 and empty drive, folder and doc maps |
| State.ToDict | src/gwsynth/real/state.py:17-24 | the saved object has exactly the keys version, run_name, drives, folders and docs |
| State.PyStr | src/gwsynth/real/state.py:29 | `str()` never fails: a string is itself, an integer prints so that `int()` reads it back, and booleans print as `True`/`False` |
| State.PyInt | src/gwsynth/real/state.py:30 | `int()` of an integer is the integer itself; a string succeeds exactly when it is a base-10 literal and gives that literal's value; `None`, a list or an object fails |
| State.PairOf | src/gwsynth/real/state.py:31-33 | only a list or a string can be a `dict()` pair; a two-item list with a string key gives that key and value |
| State.DictOfPairs | src/gwsynth/real/state.py:31-33 | `dict()` of a list succeeds exactly when every element is a pair |
| State.DictOfPairsKeys | src/gwsynth/real/state.py:31-33 | the keys of `dict()` of a list are exactly the keys of its pairs |
| State.DictOfPairsLastWins | src/gwsynth/real/state.py:31-33 | the value of a key is that of the last pair carrying it |
| State.PyDictCopy | src/gwsynth/real/state.py:31-33 | `dict()` copies an object, reads a list as pairs, succeeds on a string only when it is empty, and fails on a scalar |
| State.PyDictCopyExamples | src/gwsynth/real/state.py:31-33 | `dict([["k", "v"]])`, `dict("")` and `dict([])` succeed; a later pair overrides an earlier one; `dict("ab")` and `dict(1)` fail |
| State.FromDict | src/gwsynth/real/state.py:27-34 | `from_dict` fails exactly when the version is not an integer literal or a map field is not dict-convertible; a missing field takes its default and a present string or object is taken as it is |
| State.RoundTrip | src/gwsynth/real/state.py:17-34 | reading back a written state gives the same state |
| State.FromEmptyDict | src/gwsynth/real/state.py:27-34 | every missing field takes its default: empty run name, version 1, empty maps |
| State.LoadState | src/gwsynth/real/state.py:37-47 | a loaded state always belongs to the requested run; a missing file or a non-object gives a fresh state; an object fails exactly when `from_dict` fails |
| State.LoadSavedState | src/gwsynth/real/state.py:37-47 | a saved state loads back for its own run, and a fresh state comes back for any other run |
| Report.ZeroCounts | src/gwsynth/real/report.py:7-24 | a fresh counter set has every counter at 0 |
| Report.NewPlanReport | src/gwsynth/real/report.py:27-33 | a fresh plan report carries the run name, zero counters and empty lists |
| Report.NewApplyReport | src/gwsynth/real/report.py:45-52 | a fresh apply report carries the run name and empty lists |
| Report.CountsToDict | src/gwsynth/real/report.py:38 | the counters' dictionary has exactly one key per counter field |
| Report.PlanReportToDict | src/gwsynth/real/report.py:35-42 | the plan report's dictionary has exactly the keys run_name, counts, warnings, conflicts and prerequisites |
| Report.ApplyReportToDict | src/gwsynth/real/report.py:54-62 | the apply report's dictionary has exactly the keys run_name, created, updated, skipped, warnings and conflicts |
| Report.CountsRoundTrip | src/gwsynth/real/report.py:38 | the counters' dictionary keeps every counter |
| Report.PlanReportRoundTrip | src/gwsynth/real/report.py:35-42 | the plan report's dictionary keeps the run name, the counters and every list in order |
| Report.ApplyReportRoundTrip | src/gwsynth/real/report.py:54-62 | the apply report's dictionary keeps the run name and every list in order |
| GoogleLicensing.HasLicense | src/gwsynth/real/google_licensing.py:23-38 | a found assignment answers true, a 404 answers false, and every other error propagates |
| GoogleLicensing.EnsureLicense | src/gwsynth/real/google_licensing.py:6-20 | the answer is true exactly when the assignment was missing; an existing assignment or a dry run writes nothing; otherwise exactly that assignment is added and nothing else in the directory changes |
| GoogleLicensing.EnsureLicenseIdempotent | src/gwsynth/real/google_licensing.py:14-15 | after a real assignment, a second call finds it, answers false and writes nothing |
| GoogleAdmin.TagDescription | src/gwsynth/real/google_admin.py:229-238 | the tagged description always carries this run's tag, and a description that already carries it is returned unchanged |
| GoogleAdmin.TagDescriptionIdempotent | src/gwsynth/real/google_admin.py:229-234 | tagging twice gives the same description as tagging once |
| GoogleAdmin.TagSurvivesStrip | src/gwsynth/real/google_admin.py:233-234 | the tag appended in brackets is still in the description after the final `strip()` |
| GoogleAdmin.SplitOuPath | src/gwsynth/real/google_admin.py:52-61 | the split succeeds exactly when the stripped path starts with '/' and has a non-empty segment; the name is then the last non-empty segment, and parent and name join back to '/' followed by all non-empty segments, so padding and repeated or trailing '/' are dropped |
| GoogleAdmin.CanonicalParts | src/gwsynth/real/google_admin.py:56 | a path written as '/' followed by non-empty '/'-free segments splits into exactly those segments |
| GoogleAdmin.SplitOuPathRoundTrip | src/gwsynth/real/google_admin.py:52-61 | a canonical path splits, and joining its parent and name gives the path back (parent "/" for one segment) |
| GoogleAdmin.EnsureOrgUnit | src/gwsynth/real/google_admin.py:27-49 | an existing unit answers false with no write; a missing one answers true, with no write in a dry run; a real call succeeds exactly when `_split_ou_path` accepts the path and the parent unit exists (the root always does), and then adds exactly the unit parent/name; a path `_split_ou_path` rejects or a missing parent, which `orgunits.insert` refuses, fails with no write; users, groups and licences never change |
| GoogleAdmin.CanonicalSplit | src/gwsynth/real/google_admin.py:52-61 | a canonical path splits into the path of all its segments but the last, or "/", and that last segment |
| GoogleAdmin.EnsureOrgUnitIdempotent | src/gwsynth/real/google_admin.py:27-49 | for a canonical path, a real call succeeds exactly when the unit or its parent exists; the unit then exists and a second call answers false and changes nothing; a refused call writes nothing and the next one is refused the same way |
| GoogleAdmin.MissingParentRefused | src/gwsynth/real/google_admin.py:46-49 | a unit two or more levels down whose parent unit is missing, such as the default "/Synthetic/Northwind" (src/gwsynth/real/blueprint.py:215) in a tenant without "/Synthetic", fails with nothing written |
| GoogleAdmin.SplitName | src/gwsynth/real/google_admin.py:125-131 | no words give ("Synthetic", "User"); one word w gives (w, "User"); otherwise the first word and the remaining words joined by single spaces; both halves are never empty |
| GoogleAdmin.MakeUserPayload | src/gwsynth/real/google_admin.py:104-122 | the payload carries the email, the org unit and the split name, and an organizations entry exactly when department or title is non-empty |
| GoogleAdmin.EnsureUser | src/gwsynth/real/google_admin.py:76-101 | exactly one of created, updated, conflict is set: conflict iff the user exists in another org unit, created iff absent, updated iff present in this org unit; a conflict or a dry run writes nothing; other users, groups, units and licenses never change; a real non-conflict call leaves the user in the run's org unit |
| GoogleAdmin.EnsureUserStores | src/gwsynth/real/google_admin.py:86-101 | after a real non-conflict call the stored user is in the run's org unit and already carries the payload |
| GoogleAdmin.EnsureUserOnStored | src/gwsynth/real/google_admin.py:87-94 | a call on a user that already carries the payload reports an update and changes nothing |
| GoogleAdmin.EnsureUserIdempotent | src/gwsynth/real/google_admin.py:76-101 | a second real call with the same arguments reports an update and leaves the directory as the first call left it |
| GoogleAdmin.EnsureGroup | src/gwsynth/real/google_admin.py:154-183 | exactly one of created, updated, conflict is set: conflict iff the group exists without this run's tag, created iff absent; a conflict or a dry run writes nothing; other groups and the rest of the directory never change; a real non-conflict call stores the name and the tagged description |
| GoogleAdmin.EnsureGroupStores | src/gwsynth/real/google_admin.py:163-183 | after a real non-conflict call the group holds the display name and a description carrying this run's tag |
| GoogleAdmin.EnsureGroupOnStored | src/gwsynth/real/google_admin.py:164-174 | a call on a group that already holds the name and tagged description reports an update and changes nothing |
| GoogleAdmin.EnsureGroupIdempotent | src/gwsynth/real/google_admin.py:154-183 | a second real call with the same arguments reports an update and changes nothing |
| GoogleAdmin.ListedMembers | src/gwsynth/real/google_admin.py:214-226 | the listed member emails are non-empty and no more than the stored members |
| GoogleAdmin.ListedMembersCover | src/gwsynth/real/google_admin.py:219-222 | every stored member that is not blank once stripped is listed in its stripped form |
| GoogleAdmin.ListedComesFromStored | src/gwsynth/real/google_admin.py:219-222 | every listed email is the stripped form of a stored member |
| GoogleAdmin.MissingMembers | src/gwsynth/real/google_admin.py:200 | an email is to be added exactly when it is desired and not already listed |
| GoogleAdmin.InsertMembers | src/gwsynth/real/google_admin.py:203-210 | inserting keeps the existing members as a prefix, adds every requested member, and adds nothing else (a 409 for a stored member is skipped) |
| GoogleAdmin.SyncGroupMembers | src/gwsynth/real/google_admin.py:186-211 | a missing or untagged group counts 0 and is never written; a tagged group counts the desired members not already listed; a dry run writes nothing; no other group and nothing else in the directory changes |
| GoogleAdmin.SyncGroupMembersComplete | src/gwsynth/real/google_admin.py:199-211 | after a real sync of a tagged group every desired member is in it and no existing member was removed or moved |
| GoogleDrive.BaseProps | src/gwsynth/real/google_drive.py:27-32 | the four base tags carry the run name, stable id, kind and path under distinct keys, in that order, and no generation tags |
| GoogleDrive.AddIfTruthy | src/gwsynth/real/google_drive.py:33-36 | a truthy value adds exactly one new tag under its key; an absent or empty value adds nothing; earlier tags are untouched |
| GoogleDrive.AddIfTruthyKeepsOthers | src/gwsynth/real/google_drive.py:33-36 | adding one tag does not change the lookup of any other key |
| GoogleDrive.BuildAppProperties | src/gwsynth/real/google_drive.py:18-37 | the tags have unique keys, each base key maps to its argument, and the prompt version and content hash appear exactly when truthy; the size is 4 plus one per truthy extra |
| GoogleDrive.AppPropertiesKeyOrder | src/gwsynth/real/google_drive.py:27-32 | the four base tags come first, in their fixed order, whatever extras follow |
| GoogleDrive.FindFile | src/gwsynth/real/google_drive.py:169-192 | the match Drive makes for a query it accepts: with `pageSize` 1, the first file carrying every queried tag, and none means no file does |
| GoogleDrive.ListFiles | src/gwsynth/real/google_drive.py:195-224 | the match Drive makes for a query it accepts, over all pages: exactly the matching files, in listing order |
| GoogleDrive.FindFileIsFirstListed | src/gwsynth/real/google_drive.py:169-224 | finding and listing agree: nothing is found iff the listing is empty, and what is found is the listing's first entry |
| GoogleDrive.AppPropertiesQuery | src/gwsynth/real/google_drive.py:301-306 | no tags give an empty query and one tag gives its single clause |
| GoogleDrive.AppPropertiesQuerySnoc | src/gwsynth/real/google_drive.py:301-306 | a further tag appends " and " plus exactly its own clause, so the query has one clause per tag in dict order |
| GoogleDrive.Escape | src/gwsynth/real/google_drive.py:301-306 | a string with no quote and no backslash is its own escape |
| GoogleDrive.ReadBack | src/gwsynth/real/google_drive.py:303 | a value written between quotes as is, as the f-string writes it, is read back by Drive exactly when it holds no `'` and no `\` |
| GoogleDrive.ReadEscaped | src/gwsynth/real/google_drive.py:303 | an escaped value is always read back as the value, and the text after its closing quote as what follows |
| GoogleDrive.ClauseReadsBackIff | src/gwsynth/real/google_drive.py:301-306 | Drive reads back the key and the value of a clause exactly when they are escaped or both hold no quote and no backslash |
| GoogleDrive.ReadsBackIff | src/gwsynth/real/google_drive.py:301-306 | every clause of a query reads back exactly when the query is escaped or every key and value is quotable |
| GoogleDrive.FindByQuery | src/gwsynth/real/google_drive.py:169-192 | as written, a query with a `'` or `\` in a key or value is refused with 400; otherwise the answer is `FindFile`'s first match |
| GoogleDrive.ListByQuery | src/gwsynth/real/google_drive.py:195-224 | as written, a query with a `'` or `\` in a key or value is refused with 400; otherwise the answer is `ListFiles`'s listing |
| GoogleDrive.QueryRefusedIffMisread | src/gwsynth/real/google_drive.py:169-224 | a lookup or listing is refused exactly when Drive would not read some tag of its query text back as sent |
| GoogleDrive.QuotedTagRefused | src/gwsynth/real/google_drive.py:169-224 | a tag value with an apostrophe, such as the folder path "01 - Projects/Women's Health": as written, finding and listing are refused although a file carries the tag; escaped, both return that file |
| GoogleDrive.MarkerQuerySafe | src/gwsynth/real/google_drive.py:66-70 | the marker query holds a printed UUID and a constant, so its text as written reads back and the lookup answers as the escaped one does |
| GoogleDrive.EnsureSharedDrive | src/gwsynth/real/google_drive.py:40-54 | a drive of that name is a conflict carrying the first such drive's id and changes nothing; otherwise a dry run reports a creation without an id and a real run adds one drive with a fresh id |
| GoogleDrive.EnsureSharedDriveFresh | src/gwsynth/real/google_drive.py:53-54 | creating a drive keeps every id in the tenant below the id counter |
| GoogleDrive.Landing | src/gwsynth/real/google_drive.py:109-121 | a create naming a parent is filed in the searched store when the parent is there, else in the caller's My Drive when it is there, and otherwise fails; one naming none is filed in the searched store exactly when it is placed at the drive's root or the search was in the caller's own files, and otherwise in the acting user's My Drive |
| GoogleDrive.Ensure | src/gwsynth/real/google_drive.py:102-121 | a lookup refused as written fails with 400 before anything is written; otherwise a file in scope answering the query is returned with nothing written; a dry run writes nothing; otherwise exactly one new file with the next id is filed where `Landing` says and every other store is unchanged; a create that cannot land fails with nothing written |
| GoogleDrive.EnsureAgain | src/gwsynth/real/google_drive.py:102-121 | a lookup refused as written is refused again by the second call, with nothing written by either; otherwise a second call right after a real one finds the file and writes nothing when the first found it or filed it in the store searched, and when the first filed it elsewhere, the second finds nothing and files one more |
| GoogleDrive.EnsureDriveMarker | src/gwsynth/real/google_drive.py:57-90 | the lookup reads back as written, by `MarkerQuerySafe` for a UUID id; the first file in the drive answering the marker query is returned with nothing written; a dry run without one returns ""; otherwise one folder with the next id, no parent and the marker tags is filed, in the acting user's My Drive as sent and at the drive's root when so placed; "" is returned exactly in the missing dry-run case |
| GoogleDrive.EnsureDriveMarkerFrame | src/gwsynth/real/google_drive.py:57-90 | a marker call changes no earlier drive and no drive's name, and no My Drive but the acting user's, none at all when the marker is filed at the drive's root |
| GoogleDrive.MarkerAsSent | src/gwsynth/real/google_drive.py:73-90 | as sent, one call on a drive without its marker keeps the drive, adds one file to the acting user's My Drive and returns the next id |
| GoogleDrive.EnsureDriveMarkerRepeats | src/gwsynth/real/google_drive.py:75-90 | as sent, on a drive without its marker, the drive is left as it was, the acting user's My Drive gains one folder per call, and two calls in a row return different ids |
| GoogleDrive.EnsureDriveMarkerIdempotent | src/gwsynth/real/google_drive.py:57-90 | filed at the drive's root, the marker is found by the next call, which returns the same id and writes nothing |
| GoogleDrive.EnsureFolder | src/gwsynth/real/google_drive.py:93-121 | tags holding a `'` or `\`, such as a path built from the department "Women's Health", are refused with 400 as written and nothing is written; otherwise the first file in scope carrying the tags is reused; a dry run creates nothing; otherwise one folder carrying exactly those tags gets the next id and is filed beside its parent or, with none, as placed; a parent the caller cannot see fails with nothing written |
| GoogleDrive.EnsureFolderIdempotent | src/gwsynth/real/google_drive.py:93-121 | with unique tag keys, tags refused as written are refused on every call with nothing written; after an accepted call, a second call writes nothing and returns the same id exactly when the first found the folder or filed it in the store searched |
| GoogleDrive.ParentlessFolderRepeats | src/gwsynth/real/google_drive.py:109-121 | for a lookup Drive accepts, as sent, a folder with no parent asked for on a shared drive that lacks it leaves the drive as it was, and the next call files another folder under the next id, the acting user's My Drive gaining both |
| GoogleDrive.EnsureDocFile | src/gwsynth/real/google_drive.py:124-152 | tags refused as written fail with 400 and nothing written; otherwise the created flag is set iff no file in scope carried the tags; an existing file is reused, a dry run creates nothing, and a real run files one document with the next id where `Landing` says, or fails with nothing written |
| GoogleDrive.EnsureDocFileIdempotent | src/gwsynth/real/google_drive.py:124-152 | with unique tag keys, tags refused as written are refused on every call; after an accepted call, a second call reuses the document and reports it as not created exactly when the first found it or filed it in the store searched |
| GoogleDrive.EnsureDocIn | src/gwsynth/real/google_drive.py:124-152 | within one store, for a lookup Drive accepts: the created flag is set iff no file carried the tags; an existing file is reused, a dry run writes nothing, and otherwise one document with the next id is appended |
| GoogleDrive.EnsureDocFileInScope | src/gwsynth/real/google_drive.py:124-152 | when the document lands in the store searched, a lookup refused as written fails with 400 and nothing written, and an accepted one makes `EnsureDocFile` give the answer and the files `EnsureDocIn` gives for that store and changes no other store |
| GoogleDrive.UpdateAppProperties | src/gwsynth/real/google_drive.py:155-166 | the sent tags are merged into the tags of the file with that id, which keep every other key; every other file and the id counter stay as they were |
| GoogleDrive.GetMerge | src/gwsynth/real/google_drive.py:155-166 | after a merge, a key the request sent reads the sent value and any other key reads what the file had before |
| GoogleDrive.UpdateAppPropertiesTags | src/gwsynth/real/google_drive.py:155-166 | after an update the file carries every sent tag and keeps its other keys, and every other file is unchanged |
| GoogleDrive.MergeCarried | src/gwsynth/real/google_drive.py:155-166 | sending tags the file already carries leaves its tags exactly as they were |
| GoogleDrive.Remove | src/gwsynth/real/google_drive.py:227-231 | removing by id keeps exactly the files whose id is not removed |
| GoogleDrive.IdSetRemove | src/gwsynth/real/google_drive.py:227-231 | the ids left after a removal are the ids there were less those removed |
| GoogleDrive.RemoveRemove | src/gwsynth/real/google_drive.py:227-231 | removing two id sets one after the other removes their union |
| GoogleDrive.Cascade | src/gwsynth/real/google_drive.py:227-231 | what deleting a set of files takes holds that set and every file filed in a member |
| GoogleDrive.CascadeLeast | src/gwsynth/real/google_drive.py:227-231 | and it is the least such set: any set holding the start and the children of its members holds the cascade |
| GoogleDrive.CascadeAfter | src/gwsynth/real/google_drive.py:227-231 | deleting one subtree and then cascading from more ids in what is left takes what cascading from all of them at once takes |
| GoogleDrive.CascadeParented | src/gwsynth/real/google_drive.py:227-231 | beyond the ids it starts from, a cascade takes only files filed in some folder, never one at the root |
| GoogleDrive.DeleteFile | src/gwsynth/real/google_drive.py:227-231 | a dry run changes nothing; a real run succeeds exactly when the file is in the store, keeps only files that were there and allocates no id; a failure, the service's 404, changes nothing |
| GoogleDrive.DeleteFileCascades | src/gwsynth/real/google_drive.py:227-231 | after a delete the file is gone, no file left is filed in a file that went, and every file outside any set closed under children that holds the file is kept |
| GoogleDrive.DeleteLeaf | src/gwsynth/real/google_drive.py:227-231 | deleting a file nothing is filed in removes exactly that file |
| GoogleDrive.DeleteDrive | src/gwsynth/real/google_drive.py:234-238 | a dry run changes nothing; a real run succeeds exactly when the drive exists and holds no file, and then removes exactly that drive; a drive still holding files is refused with 403 and a missing one with 404, both with nothing changed; My Drives are untouched |
| GoogleDrive.PermissionExists | src/gwsynth/real/google_drive.py:275-298 | true iff some permission has the role and type, and also the address when a truthy address is given |
| GoogleDrive.EnsurePermission | src/gwsynth/real/google_drive.py:241-272 | reports a creation iff no matching permission exists; a dry run or an existing match changes nothing, otherwise one permission is appended with the address only when truthy |
| GoogleDrive.EnsurePermissionIdempotent | src/gwsynth/real/google_drive.py:241-272 | after a real call, a second call finds the permission and changes nothing |
| Tenant.FindDriveByName | src/gwsynth/real/google_drive.py:309-320 | the first shared drive with the name, and none iff no drive has it |
| GoogleDocs.SectionLines | src/gwsynth/real/google_docs.py:43-49 | a section lays out its heading as a HEADING_2 line first, one line per paragraph and bullet, and a closing blank line last |
| GoogleDocs.Lines | src/gwsynth/real/google_docs.py:38-51 | the document opens with the title as a TITLE line, the summary, and a blank line |
| GoogleDocs.Contiguous | src/gwsynth/real/google_docs.py:99-109 | the first line starts at index 1 and each line starts right after the previous line's newline |
| GoogleDocs.LineText | src/gwsynth/real/google_docs.py:105-110 | in the inserted text, each line's range covers exactly that line's text, and its end index is the line's newline |
| GoogleDocs.RunStep | src/gwsynth/real/google_docs.py:111-119 | a bullet line opens or extends the current block, any other line closes it, and the closed blocks stay exactly the maximal bullet blocks seen so far |
| GoogleDocs.RenderLineStep | src/gwsynth/real/google_docs.py:105-119 | one loop iteration keeps the text, the cursor, the line ranges and the bullet bookkeeping in step with the lines rendered so far |
| GoogleDocs.FlushAll | src/gwsynth/real/google_docs.py:120-121 | closing the block left open after the last line yields one range per maximal bullet block |
| GoogleDocs.RenderLines | src/gwsynth/real/google_docs.py:98-122 | the text is every line followed by a newline, there is one range per line covering its text, and the bullet ranges are exactly the maximal runs of consecutive bullet lines, in order |
| GoogleDocs.StyleLoop | src/gwsynth/real/google_docs.py:57-68 | one paragraph-style request per styled line, in line order, over that line's range |
| GoogleDocs.BuildDocRequests | src/gwsynth/real/google_docs.py:37-81 | the requests are one insert of the whole rendered text at index 1, then the style requests, then one bullet request per maximal bullet block |
| GoogleDocs.StyleRequestsPerHeading | src/gwsynth/real/google_docs.py:39-49 | exactly the title and the section headings get a style request: 1 plus the number of sections |
| GoogleDocs.TitleStyledFirst | src/gwsynth/real/google_docs.py:57-68 | the first style request makes the range from 1 to the title's end a TITLE |
| GoogleDocs.NoBulletsNoLists | src/gwsynth/real/google_docs.py:69-80 | a document whose sections have no bullets gets no bulleted list |
| Blueprints.RequireDict | src/gwsynth/real/blueprint.py:442-446 | succeeds exactly when the key holds a mapping, returning it; otherwise the error is "<key> must be an object" (a missing key included) |
| Blueprints.RequireStr | src/gwsynth/real/blueprint.py:449-453 | succeeds exactly when the key holds a string that is not blank, returning it stripped; an already stripped value comes back as is |
| Blueprints.OptionalStrOrEmpty | src/gwsynth/real/blueprint.py:456-462 | a missing key or null reads as "", a string reads stripped, anything else is an error |
| Blueprints.RequireInt | src/gwsynth/real/blueprint.py:465-469 | integers and booleans pass (Python's `bool` is an `int`), and an integer comes back as itself |
| Blueprints.RequireFloat | src/gwsynth/real/blueprint.py:472-476 | integers, floats and booleans pass and are converted to a number; anything else is an error |
| Blueprints.RequireBool | src/gwsynth/real/blueprint.py:479-483 | only a boolean passes, and it comes back unchanged |
| Blueprints.StrListOrEmpty | src/gwsynth/real/blueprint.py:374-385 | a missing list is empty; a present value passes exactly when it is a list of strings; the failure carries the caller's message |
| Blueprints.ParseTenantGuard | src/gwsynth/real/blueprint.py:312-315 | a parsed guard holds non-blank stripped ids |
| Blueprints.ParseRun | src/gwsynth/real/blueprint.py:316-321 | a parsed run section holds non-blank stripped names and paths |
| Blueprints.ParseIdentity | src/gwsynth/real/blueprint.py:333-348 | a parsed identity section holds stripped strings where the source strips them |
| Blueprints.ParseLicenses | src/gwsynth/real/blueprint.py:350-356 | a parsed licenses section holds stripped ids |
| Blueprints.ParseDrives | src/gwsynth/real/blueprint.py:358-372 | a parsed drives section holds non-blank stripped strings |
| Blueprints.ParseGeneration | src/gwsynth/real/blueprint.py:386-396 | a parsed generation section holds non-blank stripped strings |
| Blueprints.ParseDocs | src/gwsynth/real/blueprint.py:381-396 | a parsed docs section has a normalized generation section |
| Blueprints.ParseSharing | src/gwsynth/real/blueprint.py:398-416 | a parsed sharing section holds stripped roles and a stripped reviewer address |
| Blueprints.Validate | src/gwsynth/real/blueprint.py:418-439 | passes exactly when every cross-field rule holds; an email source other than "mail_or_upn" is always the error reported, since it is checked first |
| Blueprints.ParseBlueprint | src/gwsynth/real/blueprint.py:296-330 | every blueprint it returns has version 1, satisfies every rule and is normalized; an integer version other than 1, or `false` (which Python reads as 0), fails with "Blueprint version must be 1" |
| Blueprints.LoadBlueprint | src/gwsynth/real/blueprint.py:288-293 | a document that is not a mapping fails with "Blueprint must be a YAML object"; a mapping is parsed |
| Blueprints.ToDict | src/gwsynth/real/blueprint.py:119-190 | the dump is a mapping with exactly the nine top-level keys of the YAML file |
| Blueprints.ToDictFields | src/gwsynth/real/blueprint.py:119-190 | each top-level key of the dump holds its own section |
| Blueprints.TenantGuardRoundTrip | src/gwsynth/real/blueprint.py:312-315 | parsing a dumped, normalized guard gives it back |
| Blueprints.RunRoundTrip | src/gwsynth/real/blueprint.py:316-321 | parsing a dumped, normalized run section gives it back |
| Blueprints.IdentityRoundTrip | src/gwsynth/real/blueprint.py:333-348 | parsing a dumped, normalized identity section gives it back |
| Blueprints.LicensesRoundTrip | src/gwsynth/real/blueprint.py:350-356 | parsing a dumped, normalized licenses section gives it back |
| Blueprints.DrivesRoundTrip | src/gwsynth/real/blueprint.py:358-372 | parsing a dumped, normalized drives section gives it back |
| Blueprints.FoldersRoundTrip | src/gwsynth/real/blueprint.py:374-379 | parsing a dumped folder tree gives it back |
| Blueprints.GenerationRoundTrip | src/gwsynth/real/blueprint.py:386-396 | parsing a dumped, normalized generation section gives it back |
| Blueprints.DocsRoundTrip | src/gwsynth/real/blueprint.py:381-396 | parsing a dumped, normalized docs section gives it back |
| Blueprints.SharingRoundTrip | src/gwsynth/real/blueprint.py:398-416 | parsing a dumped, normalized sharing section gives it back |
| Blueprints.ParseToDict | src/gwsynth/real/blueprint.py:296-330 | dumping a normalized version-1 blueprint and parsing it back gives it again when it is valid, and otherwise the first broken rule's error |
| Blueprints.RoundTrip | src/gwsynth/real/blueprint.py:119-190 | every valid, normalized version-1 blueprint survives a dump and a parse unchanged |
| Blueprints.ReloadIsStable | src/gwsynth/real/blueprint.py:288-330 | loading is idempotent: a dump of a loaded blueprint loads to the same blueprint |
| Blueprints.DefaultNormalized | src/gwsynth/real/blueprint.py:204-274 | the default blueprint's strings are already stripped and non-blank where required |
| Blueprints.DefaultBlueprintRejected | src/gwsynth/real/blueprint.py:421-423 | the written default fails to load with the product-id error, because its license ids are the "<required>" placeholder |
| Blueprints.DefaultWithLicenseLoads | src/gwsynth/real/blueprint.py:204-274 | with real, stripped license ids in place, the default loads back exactly as written |
| Entra.Or | src/gwsynth/real/entra.py:100 | Python's `a or b` on a nullable string: the first value when it is non-empty, the fallback otherwise |
| Entra.LocalPart | src/gwsynth/real/entra.py:103 | the part before the first '@': a prefix of the address containing no '@' |
| Entra.Department | src/gwsynth/real/entra.py:109 | the department is never blank and always stripped; a missing or blank department reads as "General" |
| Entra.ToUser | src/gwsynth/real/entra.py:100-111 | a user is dropped exactly when neither `mail` nor `userPrincipalName` gives a non-blank address; a kept user has that stripped address, its department, and the address's local part as display name when none is given |
| Entra.ToGroup | src/gwsynth/real/entra.py:126-136 | a group is dropped exactly when its mail is blank; a kept group carries the stripped mail and description |
| Entra.ToMember | src/gwsynth/real/entra.py:145-147 | a member is dropped exactly when it has no non-blank address, and a kept address is non-empty and stripped |
| Entra.FilterMapConcat | src/gwsynth/real/entra.py:75-87 | mapping the listing page by page gives the mapping of all pages joined |
| Entra.Collect | src/gwsynth/real/entra.py:96-113 | the capped loop, with its early `break`, collects exactly the first `n` usable objects of the whole listing |
| Entra.ListUsers | src/gwsynth/real/entra.py:89-113 | the result is the first `max_users` usable users in listing order, each with a usable address; a cap of 0 or less gives none |
| Entra.ListGroups | src/gwsynth/real/entra.py:115-138 | the result is the first `max_groups` groups with a mail address, in listing order |
| Entra.ListGroupMembers | src/gwsynth/real/entra.py:140-148 | every returned address is non-empty and stripped, and there are no more addresses than listed members |
| Entra.ListGroupMembersKeeps | src/gwsynth/real/entra.py:144-147 | one more listed member appends its address exactly when it has one; nothing is capped |
| Entra.ManagerAnswer | src/gwsynth/real/entra.py:155-159 | an API error yields no manager, and a returned address is non-empty and stripped |
| Entra.GetManagerEmail | src/gwsynth/real/entra.py:150-161 | a cached user is answered from the cache with nothing fetched; otherwise the answer, including `None`, is stored for that user |
| Entra.GetManagerEmailMemo | src/gwsynth/real/entra.py:150-161 | once asked, a user's manager is fixed: a later call returns the same answer whatever Graph would now say |
| CliHelpers.FilterByDomain | src/gwsynth/real/cli.py:388-390 | a user is kept exactly when its email ends with "@" and the domain, and none is added |
| CliHelpers.FilterGroupsByDomain | src/gwsynth/real/cli.py:393-395 | a group is kept exactly when its email ends with "@" and the domain, and none is added |
| CliHelpers.FilterByDomainIdempotent | src/gwsynth/real/cli.py:388-395 | filtering an already filtered snapshot by the same domain changes nothing, for users and groups |
| CliHelpers.Normalize | src/gwsynth/real/cli.py:1065-1066 | a normalised name has no ASCII upper-case letter, has exactly the words of the lower-cased name, and is its own words joined by single spaces, so it has no leading, trailing or doubled whitespace |
| CliHelpers.NormalizeIdempotent | src/gwsynth/real/cli.py:1065-1066 | normalising a normalised name changes nothing |
| CliHelpers.LastWins | src/gwsynth/real/cli.py:1049-1054 | a dict filled in order holds every key once, with the value of the key's last occurrence |
| CliHelpers.FirstWins | src/gwsynth/real/cli.py:1069-1074 | a dict that skips keys it already has holds every key once, with the value of the key's first occurrence |
| CliHelpers.DepartmentGroupMap | src/gwsynth/real/cli.py:1049-1054 | the keys are exactly the normalised group names, and each maps to the email of the last group with that name |
| CliHelpers.FindAllHandsGroup | src/gwsynth/real/cli.py:1057-1062 | none exactly when no normalised group name contains "all hands" or "allhands"; otherwise the email of the first such group |
| CliHelpers.DepartmentOwner | src/gwsynth/real/cli.py:1069-1074 | the keys are exactly the users' departments, and each maps to the first user listed in it |
| CliHelpers.DepartmentOwnerStable | src/gwsynth/real/cli.py:1069-1074 | listing further users never changes an owner already chosen |
| CliHelpers.CompanyNameFromRun | src/gwsynth/real/cli.py:1077-1078 | the company name contains no dash |
| CliHelpers.CompanyNameWords | src/gwsynth/real/cli.py:1077-1078 | the company name splits back into the dash-free words of the run name, one per word, each capitalised with ASCII case mapping |
| CliHelpers.ContentParts | src/gwsynth/real/cli.py:1086-1091 | the parts start with the title and summary and end with the metadata |
| CliHelpers.FlattenDocContent | src/gwsynth/real/cli.py:1085-1092 | the flattened text starts with the title |
| CliHelpers.FlattenSplits | src/gwsynth/real/cli.py:1085-1092 | when no part holds a newline, splitting the flattened text at newlines gives the parts back |
| CliDepartments.DepartmentOf | src/gwsynth/real/cli.py:660 | a user's department is never empty: an empty one reads as "General" |
| CliDepartments.InsertSorted | src/gwsynth/real/cli.py:660 | inserting into a strictly sorted list keeps it strictly sorted and adds exactly the new string |
| CliDepartments.SortedSet | src/gwsynth/real/cli.py:660 | `sorted(set(xs))`: strictly sorted, with exactly the strings of the input |
| CliDepartments.DepartmentsFromUsers | src/gwsynth/real/cli.py:659-661 | the departments are strictly sorted, non-empty strings, exactly those of the users; no users give ["General"] |
| CliDepartments.SortedListUnique | src/gwsynth/real/cli.py:660 | two strictly sorted lists with the same elements are equal, so the sorted set is unique |
| CliDepartments.DepartmentsIgnoreOrder | src/gwsynth/real/cli.py:659-661 | listing the same users in another order, or repeating some, gives the same departments |
| CliLayout.FolderForArchetype | src/gwsynth/real/cli.py:632-642 | every archetype goes to the admin, process or department projects folder; an unknown archetype goes to the projects folder |
| CliLayout.TitleForArchetype | src/gwsynth/real/cli.py:645-656 | every title ends with " - " and the department; an unknown archetype gets "Team Document" |
| CliLayout.FormatPath | src/gwsynth/real/cli.py:664-665 | a folder path without braces is kept as it is |
| CliLayout.FormatPathFields | src/gwsynth/real/cli.py:664-665 | a literal followed by `{department}` or `{year}` formats to the literal and the department or the printed year; any other bare name fails |
| CliLayout.FolderPaths | src/gwsynth/real/cli.py:591-595 | succeeds exactly when every template path formats; the map's keys are unique and are exactly the formatted paths |
| CliLayout.DocFor | src/gwsynth/real/cli.py:615-628 | a document's path is its folder, "/" and its title, and its id is the uuid of "doc" and the drive name, ':' and that path |
| CliLayout.DocsForDrive | src/gwsynth/real/cli.py:611-629 | exactly one document per archetype, in blueprint order |
| CliLayout.DriveNameAsWritten | src/gwsynth/real/cli.py:581-589 | the name is the template formatted with `prefix` and `department` only, with the 1-based index appended when several drives share a template without `{index}` |
| CliLayout.DriveName | src/gwsynth/real/cli.py:581-589 | as the source's naming, but the template also sees the 1-based `index` |
| CliLayout.PlanFor | src/gwsynth/real/cli.py:581-607 | a plan exists exactly when the source's naming (`prefix` and `department` only) and every folder path format; it carries that name, the department, the marker's stable id, the folder map and the drive's documents |
| CliLayout.DesiredDrives | src/gwsynth/real/cli.py:575-608 | planning succeeds exactly when every drive of every department can be planned as the source names it, and then has one drive per department and index |
| CliLayout.DesiredDrivesOrder | src/gwsynth/real/cli.py:579-580 | the drives come department by department in sorted order, `count_per_department` each, in index order |
| CliLayout.DriveNameAgrees | src/gwsynth/real/cli.py:581-589 | wherever the source's naming succeeds, the corrected naming gives the same name |
| CliLayout.IndexTemplateRejected | src/gwsynth/real/cli.py:581-589 | a template "{prefix} {department} {index}", which the source explicitly checks for, always fails with a KeyError |
| CliLayout.IndexTemplateNames | src/gwsynth/real/cli.py:581-589 | with `index` supplied, that template names each drive by its 1-based number |
| CliLayout.IndexTemplateNamesDistinct | src/gwsynth/real/cli.py:581-589 | under the corrected naming, the drives of one department never share a name |
| CliLayout.IndexTemplatePlanFails | src/gwsynth/real/cli.py:575-589 | with the "{prefix} {department} {index}" template and at least one drive per department, planning fails, since there is always a department |
| CliLayout.NumberedNamesDistinct | src/gwsynth/real/cli.py:585-589 | a template without `{index}`, used for several drives, gets distinct numbers appended, so the names differ |
| CliLayout.ArchetypeFolderInDefaultTree | src/gwsynth/real/cli.py:632-642 | every archetype's folder is one of the folders the default tree creates |
| CliLayout.KnownTitlesDistinct | src/gwsynth/real/cli.py:645-656 | distinct known archetypes get distinct titles in one department |
| CliLayout.DocPathsDistinct | src/gwsynth/real/cli.py:615-618 | distinct known archetypes of one drive get distinct document paths |
| CliLayout.DocIdsDistinct | src/gwsynth/real/cli.py:615-619 | under a collision-free uuid5, distinct known archetypes of one drive get distinct document ids |
| CliDrives.StandingOf | src/gwsynth/real/cli.py:450-463 | the first drive with the plan's name decides: none is absent; one holding a file that answers the marker query is owned; any other is foreign |
| CliDrives.PlanSharedDrives | src/gwsynth/real/cli.py:444-464 | one plan out per plan in; an owned drive's id is filled in; the creations counted are the absent drives and the conflicts are the foreign ones |
| CliDrives.ClassifiedOnce | src/gwsynth/real/cli.py:450-463 | every desired drive is absent, owned or foreign, and exactly one of them |
| CliDrives.EnsureOne | src/gwsynth/real/cli.py:691-748 | one iteration only appends to `created` and `conflicts`, keeps every listed drive, appends at most one drive, named after the plan, and changes no My Drive but the acting user's, none at all when markers are filed at the drive's root |
| CliDrives.CreatedDrive | src/gwsynth/real/cli.py:718-748 | outside a dry run an absent plan gets one new drive with the next id, listed last and first with its name, returned and reported as created; the marker is in that drive when filed at its root, and in the acting user's My Drive, leaving the drive empty, as sent |
| CliDrives.EnsureOneOutcome | src/gwsynth/real/cli.py:691-748 | an owned drive is reused with nothing written; a foreign one is a conflict with nothing written; an absent one is skipped in a dry run and otherwise created, marked and reported as created |
| CliDrives.EnsureOneSettles | src/gwsynth/real/cli.py:691-748 | outside a dry run the plan is owned or foreign afterwards; the result returned is the one the new listing gives exactly when the plan was already settled or the marker is filed at the drive's root |
| CliDrives.CreatedIsOwned | src/gwsynth/real/cli.py:720-748 | filed at the drive's root, the marker makes the drive just created the run's own: it is owned, and the result returned is the one the new listing gives |
| CliDrives.CreatedIsForeign | src/gwsynth/real/cli.py:720-748 | as sent, the drive just created holds no marker: it is already foreign and gives no result, although the iteration returns it and reports it as created |
| CliDrives.EnsureSharedDrives | src/gwsynth/real/cli.py:682-749 | the loop keeps every listed drive, only appends drives named after plans, changes no My Drive but the acting user's, and in a dry run writes nothing and reports nothing created |
| CliDrives.EnsureSettles | src/gwsynth/real/cli.py:682-749 | after a real run every plan's drive is owned or foreign, and with markers filed at the drive's root the results are exactly what the final listing gives |
| CliDrives.SettledRunIsQuiet | src/gwsynth/real/cli.py:691-717 | a run over drives that all exist writes nothing, reports nothing created, and returns what the listing gives |
| CliDrives.EnsureSharedDrivesIdempotent | src/gwsynth/real/cli.py:682-749 | with markers filed at the drive's root, a second run right after a real one changes nothing, reports no drive as created, and returns the same results |
| CliDrives.AsSentStandings | src/gwsynth/real/cli.py:691-748 | as sent, with distinct drive names, every plan absent before a real run is foreign after it, and every other plan keeps its standing |
| CliDrives.RerunReportsConflicts | src/gwsynth/real/cli.py:691-748 | as sent, a second run right after a real one writes nothing and creates nothing, returns only the drives that were the run's before the first run, and reports every drive the first run created as a conflict |
| CliDrives.ApplyMatchesPlan | src/gwsynth/real/cli.py:682-749 | with distinct drive names, apply reports as created exactly the drives the plan counts for creation, and as conflicts exactly those it counts as conflicts, in plan order |
| CliPlan.FolderAbsent | src/gwsynth/real/cli.py:473-486 | a folder path is counted exactly when no listed file carries its tags |
| CliPlan.FolderShortfall | src/gwsynth/real/cli.py:469-486 | one drive never needs more folders than its folder map holds |
| CliPlan.PlanFolders | src/gwsynth/real/cli.py:467-487 | the count is the sum, over the drives, of all folder paths for a drive not owned yet and of the missing ones otherwise |
| CliPlan.FolderCountBound | src/gwsynth/real/cli.py:467-487 | the plan never counts more folders than the drives hold |
| CliPlan.FolderCountFresh | src/gwsynth/real/cli.py:470-472 | against drives that do not exist yet, every folder is counted |
| CliPlan.FolderCountZero | src/gwsynth/real/cli.py:467-487 | no folder is counted exactly when every drive is owned and every folder is found in it |
| CliPlan.DocStandingOf | src/gwsynth/real/cli.py:499-513 | a document is missing exactly when no listed file carries its id and kind; otherwise it is current exactly when the first such file has the blueprint's prompt version |
| CliPlan.PlanDocs | src/gwsynth/real/cli.py:490-517 | creations are all documents of drives not owned yet plus the missing ones of owned drives, plus `docs_per_user` for each user when My Drive is on; updates are the stale documents; with a validated blueprint the creations are not negative |
| CliPlan.DocStandingsPartition | src/gwsynth/real/cli.py:499-513 | each document of an owned drive is missing, stale or current, and only one of them |
| CliPlan.DocCountsBound | src/gwsynth/real/cli.py:495-513 | the shared-drive part never counts more creations and updates together than the drives hold documents |
| CliPlan.DocCountsFresh | src/gwsynth/real/cli.py:496-498 | against drives that do not exist yet, every document is a creation and none an update |
| CliPlan.CountDriveDocs | src/gwsynth/real/cli.py:499-513 | over an owned drive, the creations are the documents no listed file is tagged with, and the updates the documents whose first tagged file has another prompt version |
| CliPlan.PlanDocsExample | src/gwsynth/real/cli.py:490-517 | two new drives of seven documents and two users at five documents each give 24 creations and no update |
| CliTally.Classify | src/gwsynth/real/cli.py:398-441 | the bucket follows the precedence conflict, then created, then updated, then skipped |
| CliTally.ClassifyOneFlag | src/gwsynth/real/cli.py:398-441 | for a result with exactly one flag set, the bucket is that flag |
| CliTally.Bump | src/gwsynth/real/cli.py:400-419 | exactly one counter goes up by one |
| CliTally.Tally | src/gwsynth/real/cli.py:398-419 | one counter of the result's kind and bucket goes up by one, every other counter stays, and only a conflict appends its label to the conflicts |
| CliTally.Record | src/gwsynth/real/cli.py:422-441 | the label is appended to exactly the list of the result's bucket, and the other lists stay |
| CliTally.TallyAllCounts | src/gwsynth/real/cli.py:398-419 | tallying many results raises each counter by the number of results in its bucket and lists the conflicts in order |
| CliTally.RecordAllEntries | src/gwsynth/real/cli.py:422-441 | recording many results appends, to each list, the labels of the results in its bucket, in order |
| CliTally.PlanAgreesWithApply | src/gwsynth/real/cli.py:398-441 | from empty reports, each counter of the plan equals the length of the matching list of the apply, and both list the same conflicts |
| CliTally.LabelsPartition | src/gwsynth/real/cli.py:398-441 | every result lands in exactly one bucket: the four bucket sizes add up to the number of results |
| CliTally.UsersAllClassified | src/gwsynth/real/cli.py:398-407 | tallying adds one to the user counters per user tallied |
| CliDocs.DocProps | src/gwsynth/real/cli.py:869-875 | a document is ensured under unique tags naming its id and kind "doc", with the prompt version only when it is set, and without a content hash |
| CliDocs.FileById | src/gwsynth/real/cli.py:876-883 | the first file with the id, and none iff no file has it |
| CliDocs.DocStep | src/gwsynth/real/cli.py:876-916 | one document step never removes, reorders or renames a file of the drive, and adds at most one |
| CliDocs.DocStepChecked | src/gwsynth/real/cli.py:876-916 | the corrected step keeps the listing in the same way: no file removed, reordered or renamed, at most one added |
| CliDocs.DocStepSkip | src/gwsynth/real/cli.py:876-898 | the step leaves the drive untouched exactly when a file already carries the document's tags and the first file tagged with its id has the blueprint's prompt version and a content hash |
| CliDocs.DocStepWrites | src/gwsynth/real/cli.py:876-916 | a regenerated document is the ensured file, and afterwards it carries the content hash, the prompt version and all the document's tags |
| CliDocs.DocStepFrame | src/gwsynth/real/cli.py:909-916 | a regeneration rewrites only the regenerated file; every other file of the drive is kept |
| CliDocs.DocStepStable | src/gwsynth/real/cli.py:876-916 | a second step over the drive the first left behind leaves that drive as it is |
| CliDocs.DocStepCheckedSkip | src/gwsynth/real/cli.py:876-898 | the corrected step leaves the drive untouched exactly when the file it has just ensured passes the skip rule |
| CliDocs.DocStepCheckedSettles | src/gwsynth/real/cli.py:876-916 | after one run of the corrected step, a second run regenerates nothing and changes nothing |
| CliDocs.CheckedAgrees | src/gwsynth/real/cli.py:876-898 | where every file tagged with the document's id also carries its full tags, the corrected step does exactly what the source's step does |
| CliDocs.StaleCopyStaysFirst | src/gwsynth/real/cli.py:886-898 | when the first file tagged with the id is a copy under another prompt version, the step regenerates, and the copy is still listed first, so the plan still counts the document as stale |
| CliDocs.StaleCopyRegeneratesAgain | src/gwsynth/real/cli.py:886-916 | two runs in a row over such a drive both regenerate the document |
| CliDocs.StaleCopyExample | src/gwsynth/real/cli.py:876-916 | a drive with one copy written under "v1" and the blueprint at "v2": the first apply writes a second file, id 1, and the next apply regenerates again |
| CliDocs.StaleIsCreated | src/gwsynth/real/cli.py:876-898 | where every tagged copy has another prompt version, apply creates a new document and keeps every old file, although the plan counts an update |
| CliDestroy.MatchesRunQuery | src/gwsynth/real/cli.py:309-313 | a file answers the destroy listing's query exactly when its run tag is the run's name |
| CliDestroy.Pick | src/gwsynth/real/cli.py:308-322 | the files the shared-drive loop deletes are drawn from the drive's files, never more of them |
| CliDestroy.Spared | src/gwsynth/real/cli.py:308-322 | the files left behind are exactly the drive's files the loop does not delete: markers and files of other runs |
| CliDestroy.ReachedArePicked | src/gwsynth/real/cli.py:309-315 | listing the run's files and then skipping drive markers deletes the same files as picking them straight from the drive |
| CliDestroy.DeleteAll | src/gwsynth/real/cli.py:316-321 | the loop over listed files only ever removes files and never allocates ids |
| CliDestroy.DeleteAllExact | src/gwsynth/real/cli.py:316-321 | as written, the loop succeeds exactly when each listed file is still there at its turn, not taken with an earlier listed folder, and then it has deleted the listed files and everything filed below them |
| CliDestroy.InTurnStep | src/gwsynth/real/cli.py:316-321 | after the first listed file and its subtree go, the rest are each still there at their turn exactly when all listed files were |
| CliDestroy.SkipGoneExact | src/gwsynth/real/cli.py:316-321 | skipping files already gone, the loop always succeeds and deletes the subtree of every listed file that was in the store |
| CliDestroy.FolderFirstFails | src/gwsynth/real/cli.py:316-321 | a folder listed before a document inside it: as written the loop deletes both with the folder and then fails with a 404 on the document; skipping files already gone, it empties the store and succeeds |
| CliDestroy.RemovePicked | src/gwsynth/real/cli.py:308-322 | removing the picked ids leaves exactly the spared files |
| CliDestroy.PickSpared | src/gwsynth/real/cli.py:308-322 | the spared files contain nothing a second pass would delete |
| CliDestroy.DeletePickedExact | src/gwsynth/real/cli.py:308-322 | over a store with distinct ids where nothing spared is filed under a doomed file and, as written, every doomed file is there at its turn, the listing pass succeeds and leaves exactly the spared files |
| CliDestroy.SkipGoneEmpties | src/gwsynth/real/cli.py:308-322 | skipping files already gone, a pass over a store holding only doomed files empties it, whatever order they are listed in |
| CliDestroy.FileLabels | src/gwsynth/real/cli.py:322 | one report entry per deleted file, the prefix followed by the file's id |
| CliDestroy.DestroyDrive | src/gwsynth/real/cli.py:308-325 | one drive's pass touches no My Drive, keeps every other drive, only appends to `updated`, keeps every drive in `content-only` mode, and removes exactly the walked drive when it succeeds in mode `all` |
| CliDestroy.DestroyDriveExact | src/gwsynth/real/cli.py:308-325 | on a listed drive that can be swept exactly, a pass leaves the spared files and logs one `deleted_file:` per picked file; in mode `all` it then removes the drive and logs `deleted_drive:` when nothing is left in it, and fails with a 403, keeping the drive, when something is |
| CliDestroy.MarkedDriveRefused | src/gwsynth/real/cli.py:314-325 | as written, mode `all` fails on every drive whose marker sits at its root: the marker is spared, nothing deleted takes it along, and the drive is not empty |
| CliDestroy.RootMarkerKept | src/gwsynth/real/cli.py:314-321 | a pass that spares markers keeps a marker at the root whenever it succeeds |
| CliDestroy.RunDriveDeleted | src/gwsynth/real/cli.py:308-325 | as corrected, mode `all` empties a drive holding only the run's files, in any listing order, deletes it, and logs every picked file and then the drive |
| CliDestroy.DestroyDrives | src/gwsynth/real/cli.py:308-325 | the drive loop keeps every unwalked drive, keeps every drive in `content-only` mode and only appends to `updated` |
| CliDestroy.AllPassDeletesWalked | src/gwsynth/real/cli.py:323-325 | in mode `all` a drive loop that succeeds leaves only drives that were there before and were not walked |
| CliDestroy.CorrectedAllPass | src/gwsynth/real/cli.py:308-325 | as corrected, mode `all` over distinct listed drives holding only the run's files succeeds and leaves exactly the drives it was not asked to walk |
| CliDestroy.ContentPassExact | src/gwsynth/real/cli.py:308-322 | in `content-only` mode over listed drives with distinct file ids that can be swept exactly, the loop succeeds and leaves each walked drive with exactly its spared files |
| CliDestroy.CleanPassIsQuiet | src/gwsynth/real/cli.py:308-322 | over drives with nothing of the run left, the loop changes nothing and reports nothing |
| CliDestroy.SweptIsClean | src/gwsynth/real/cli.py:308-322 | after the sweep no walked drive holds a deletable file of the run |
| CliDestroy.ContentPassIdempotent | src/gwsynth/real/cli.py:308-322 | a second `content-only` drive pass after the first changes nothing and reports nothing |
| CliDestroy.DestroyMyDrive | src/gwsynth/real/cli.py:327-340 | one user's pass changes no shared drive and no other user's My Drive, only removes files and only appends to `updated` |
| CliDestroy.DestroyMyDriveExact | src/gwsynth/real/cli.py:327-340 | on a My Drive that can be swept exactly, a user's pass deletes every file tagged with the run, markers included, leaves the rest and logs `deleted_user_file:` per file |
| CliDestroy.DestroyMyDrives | src/gwsynth/real/cli.py:327-340 | the user loop leaves the My Drives of unlisted users as they were |
| CliDestroy.MyDrivesSwept | src/gwsynth/real/cli.py:327-340 | over My Drives that can be swept exactly, the user loop succeeds and leaves no file of the run in any listed user's My Drive |
| CliDestroy.CleanMyDrivesAreQuiet | src/gwsynth/real/cli.py:327-340 | over clean My Drives the user loop changes nothing and reports nothing |
| CliDestroy.DestroyGroups | src/gwsynth/real/cli.py:344-349 | the group loop touches no user, unit or licence, deletes only groups and keeps every group that is unlisted or not claimed by the run |
| CliDestroy.DestroyGroupsDeletes | src/gwsynth/real/cli.py:344-349 | when the loop succeeds, every listed group claimed by the run is gone |
| CliDestroy.MissingGroupFails | src/gwsynth/real/cli.py:345 | a listed group missing from the directory makes the loop fail, since the lookup is not guarded |
| CliDestroy.DestroyGroupsReport | src/gwsynth/real/cli.py:344-349 | the loop logs one `deleted_group:` per claimed listed group, in listing order |
| CliDestroy.TagMentionsRun | src/gwsynth/real/cli.py:347 | every group the run tag claims is also claimed by the substring test |
| CliDestroy.DestroyUsers | src/gwsynth/real/cli.py:350-361 | the user loop deletes a user exactly when the user is listed and sits in the run's unit, and changes nothing else |
| CliDestroy.DestroyUsersReport | src/gwsynth/real/cli.py:350-361 | the loop logs one `deleted_user:` per deleted user, in listing order, skipping missing users without failing |
| CliDestroy.DryRunCollects | src/gwsynth/real/cli.py:306 | the dry-run drive step creates nothing and yields the drives it finds for the plans |
| CliDestroy.WalkedAreMarked | src/gwsynth/real/cli.py:306-308 | every walked drive bears a planned drive's name and holds that plan's marker |
| CliDestroy.WalkedAreListed | src/gwsynth/real/cli.py:306-308 | every walked drive exists in the tenant |
| CliDestroy.Destroy | src/gwsynth/real/cli.py:301-362 | outside mode `all` the directory and the drive list are untouched; unwalked drives, unclaimed groups and users outside the run's unit always survive |
| CliDestroy.AllModeFails | src/gwsynth/real/cli.py:306-325 | as written, with markers at the drives' roots and at least one drive of the run found, mode `all` fails and never reaches the groups and users |
| CliDestroy.MarkerSurvives | src/gwsynth/real/cli.py:314-315 | sweeping a shared drive keeps its markers, so the drive is still found by its marker afterwards |
| CliDestroy.CollectAfterSweep | src/gwsynth/real/cli.py:306-322 | after a content sweep the dry-run drive step finds the same drives |
| CliDestroy.ContentDestroyExact | src/gwsynth/real/cli.py:301-340 | over stores that can be swept exactly, `content-only` succeeds, leaves the directory alone, sweeps exactly the walked drives, empties each listed user's My Drive of the run's files and leaves other users' alone |
| CliDestroy.ContentDestroyKeepsMarkers | src/gwsynth/real/cli.py:314-315 | in `content-only` mode every drive marker and every file of another run stays in its shared drive |
| CliDestroy.ContentDestroyIdempotent | src/gwsynth/real/cli.py:301-340 | a second `content-only` destroy changes nothing and reports nothing |
| CliDestroy.ForeignGroupDestroyed | src/gwsynth/real/cli.py:347 | a group whose description merely mentions the run's name is refused by apply as a conflict yet deleted by destroy |
| CliDestroy.AppliedGroupsDestroyed | src/gwsynth/real/google_admin.py:154-183 | with the run-tag test destroy deletes exactly the groups apply claimed, and a conflicting group survives unchanged |
| PyFormat.Field | src/gwsynth/real/cli.py:664-665 | a bare `{name}` field formats as its keyword argument; an empty or all-digit field is a positional index, which keyword-only arguments cannot fill; a missing name is a `KeyError` |
| PyFormat.Format | src/gwsynth/real/cli.py:664-665 | a template without braces formats to itself |
| PyFormat.FormatEscaped | src/gwsynth/real/cli.py:664-665 | a text with every brace doubled formats back to the text, whatever the arguments |
| PyFormat.FormatLiteralPrefix | src/gwsynth/real/cli.py:664-665 | a brace-free prefix is copied in front of the formatted rest, and an error of the rest is the error of the whole |
| PyFormat.FormatSpacedFields | src/gwsynth/real/cli.py:581-584 | `"{a} {b} {c}"` formats to the three values separated by single spaces, and otherwise fails with the error of the first field that fails |
| PyFormat.FormatExtraArg | src/gwsynth/real/cli.py:581-584 | keyword arguments a successful `format` does not use change nothing |
| PyFormat.FormatUnusedArg | src/gwsynth/real/cli.py:581-589 | an argument whose `{name}` field the template never mentions changes nothing, success or failure |
| ApiFields.RequireStr | src/gwsynth/api.py:43-47 | succeeds exactly for a present string that is not blank, returning it trimmed; otherwise "{key} is required" |
| ApiFields.OptionalStr | src/gwsynth/api.py:50-56 | absent or null reads as none, a string is kept untrimmed, anything else is "{key} must be a string" |
| ApiFields.RequiredIsOptional | src/gwsynth/api.py:43-56 | a field the required reader accepts is one the optional reader returns, equal up to trimming |
| ApiFields.RequireStrStable | src/gwsynth/api.py:43-47 | padding a required value with whitespace does not change what is read |
| ApiFields.ParseItemType | src/gwsynth/api.py:59-62 | accepts exactly "folder", "doc" and "sheet", otherwise the message listing them |
| ApiFields.ParseRole | src/gwsynth/api.py:65-68 | accepts exactly "owner", "editor" and "viewer", otherwise the message listing them |
| ApiFields.ParsePrincipalType | src/gwsynth/api.py:71-74 | accepts exactly "user", "group" and "anyone", otherwise the message listing them |
| ApiFields.ParseNames | src/gwsynth/api.py:59-74 | each enumeration parser reads every name back as its value |
| ApiFields.ParseSheetData | src/gwsynth/api.py:103-115 | null is accepted unless required; otherwise only an object mapping strings to strings is accepted, with the source's three messages |
| ApiFields.SheetRoundTrip | src/gwsynth/api.py:103-115 | every cell map written as a JSON object parses back to itself |
| ApiFields.TrimmedTokens | src/gwsynth/api.py:123 | the kept parts are non-empty and already trimmed |
| ApiFields.SplitHeaderTokens | src/gwsynth/api.py:122-123 | every token is non-empty, trimmed and free of commas |
| ApiFields.TokensOfJoin | src/gwsynth/api.py:122-123 | splitting a comma-joined list of such tokens gives the list back, in order |
| ApiFields.IfNoneMatchMatches | src/gwsynth/api.py:155-160 | a missing or empty header never matches |
| ApiFields.IfNoneMatchListed | src/gwsynth/api.py:155-160 | a header listing tokens matches exactly when it lists the ETag or "*" |
| ApiItems.Body | src/gwsynth/api.py:829 | a missing or falsy body reads as the empty object, an object as its fields, and any other truthy value fails |
| ApiItems.Content | src/gwsynth/api.py:837-852 | a doc forbids cells and defaults its text to "", a sheet forbids text and defaults its cells to {}, a folder forbids both, each with the source's message |
| ApiItems.ItemFields | src/gwsynth/api.py:830-852 | validated fields always have a non-blank name and content matching the type |
| ApiItems.CreateItem | src/gwsynth/api.py:828-909 | a refused request leaves the store as it was; a created item is new, has a folder parent and an existing owner when they are given, and is added with one activity |
| ApiItems.InsertItem | src/gwsynth/api.py:854-909 | the lookups and the insert: an empty parent or owner id skips its lookup, but the enforced foreign key still refuses it with a 500 and nothing is written; a created item's parent and owner exist |
| ApiItems.EmptyParentRefused | src/gwsynth/api.py:855-900 | an empty `parent_id` with no row of that id gets a 500 foreign-key error and changes nothing |
| ApiItems.EmptyOwnerRefused | src/gwsynth/api.py:864-907 | an empty `owner_user_id` with no user of that id gets a 500 foreign-key error and changes nothing |
| ApiItems.CreateItemKeepsConsistent | src/gwsynth/db.py:40-52 | creating an item keeps every foreign key of items, permissions and activities satisfied |
| ApiItems.ItemContentRules | src/gwsynth/api.py:837-852 | with a valid name and type and no parent or owner, creation succeeds exactly when the type's forbidden field is null or absent; refusals are 400; the defaults apply |
| ApiItems.CreateItemOf | src/gwsynth/api.py:828-852 | with neither parent nor owner, only the field checks can refuse, and a created item records the validated fields |
| ApiItems.PermissionFields | src/gwsynth/api.py:1013-1018 | `principal_id` is present exactly when sent as a string, and is then stripped |
| ApiItems.StripOpt | src/gwsynth/api.py:1017 | an absent id stays absent and a present one is trimmed |
| ApiItems.CreatePermission | src/gwsynth/api.py:1012-1089 | a refused request leaves the store as it was; a created permission is one new row with its activity, on an existing item, for an existing principal |
| ApiItems.Grant | src/gwsynth/api.py:1020-1089 | the lookups refuse without writing; an empty actor skips its lookup, but the activity's foreign key refuses it with a 500; a grant adds the one permission row and an activity whose actor exists |
| ApiItems.EmptyActorRefused | src/gwsynth/api.py:1024-1079 | an empty `actor_user_id` with no user of that id gets a 500 foreign-key error and changes nothing |
| ApiItems.CreatePermissionKeepsConsistent | src/gwsynth/db.py:82-90 | granting a permission keeps every foreign key of items, permissions and activities satisfied |
| ApiItems.GrantRules | src/gwsynth/api.py:1031-1050 | with no actor on an existing item, the grant succeeds exactly when the principal rules hold; "anyone" with an id is refused with its own message |
| ApiItems.PrincipalRules | src/gwsynth/api.py:1031-1050 | "anyone" succeeds exactly without `principal_id`; user and group need a non-blank id naming an existing row |
| ApiItems.BlankIdForAnyone | src/gwsynth/api.py:1016-1033 | a whitespace-only `principal_id` for "anyone" is still refused, because stripping leaves it present |
| ApiPages.Paginate | src/gwsynth/api.py:232-259 | a page is a prefix of the matching rows of at most `limit` rows; the next cursor exists exactly when more than `limit` rows match and points at the page's last row; without one the page is every match |
| ApiPages.FilterSuffix | src/gwsynth/api.py:218-222 | over rows in key order, the rows after any cursor form a suffix |
| ApiPages.FilterAtRow | src/gwsynth/api.py:218-222 | the rows after the cursor at a row are exactly the rows that follow it |
| ApiPages.PageThenRest | src/gwsynth/api.py:232-259 | a full page followed by the rows after its last row is every matching row |
| ApiPages.PageContinues | src/gwsynth/api.py:232-259 | the next cursor decodes to the page's last row, and paging on from it neither skips nor repeats a row |
| Pagination.ParseInt | src/gwsynth/pagination.py:22 | `int()` accepts exactly an optional sign and a digit group with single underscores between digits, once surrounding whitespace is dropped; a plain run of digits reads as its decimal value |
| Pagination.ParseIntOfString | src/gwsynth/pagination.py:22 | `int()` reads every printed integer back as itself |
| Pagination.ParseIntIgnoresPadding | src/gwsynth/pagination.py:22 | `int()` ignores whitespace around its argument |
| Pagination.ParseLimit | src/gwsynth/pagination.py:18-27 | no value is no limit; a non-integer is "limit must be an integer"; an integer is accepted exactly within 1..200, else the range message |
| Pagination.LimitOfPrinted | src/gwsynth/pagination.py:18-27 | a printed integer is accepted exactly when it lies in 1..200, and is read as itself |
| Pagination.EncodeCursor | src/gwsynth/pagination.py:30-36 | the token is ASCII, at least two characters long, and has no '=' and no whitespace |
| Pagination.DecodeCursor | src/gwsynth/pagination.py:39-60 | blank input is refused with its own message and no other; every other failure is "cursor is invalid"; a decoded cursor has non-empty fields |
| Pagination.FromJson | src/gwsynth/pagination.py:52-60 | a decoded value is accepted exactly when it is an object whose `created_at` and `id` are non-empty strings, and read as those |
| Pagination.DecodeEncodeCursor | src/gwsynth/pagination.py:30-60 | decoding an encoded cursor gives it back when both fields are non-empty, and "cursor is invalid" otherwise |
| Pagination.DecodeIgnoresPadding | src/gwsynth/pagination.py:40 | whitespace around a token does not change the decoded cursor |
| Pagination.DecodePaddedToken | src/gwsynth/pagination.py:43 | a token with its '=' padding restored decodes as the stripped one does |
| Base64.Encode | src/gwsynth/pagination.py:35 | the padded encoding is a multiple of four characters long |
| Base64.DecodeEncode | src/gwsynth/pagination.py:35-45 | decoding the encoding of any bytes gives the bytes back |
| Base64.EncodePadding | src/gwsynth/pagination.py:35 | an encoding ends in exactly its padding count of '=', after a data character |
| Base64.RepadStripped | src/gwsynth/pagination.py:35-43 | stripping the padding and re-padding to a multiple of four restores the encoding |
| Base64.StrippedShape | src/gwsynth/pagination.py:35 | the stripped encoding has no '=' and no whitespace, and is ASCII |
| Utf8.DecodeEncode | src/gwsynth/pagination.py:34-45 | decoding the UTF-8 encoding of any text gives the text back |
| JsonText.Quote | src/gwsynth/pagination.py:31-34 | the JSON text of a string is ASCII |
| JsonText.QuoteInjective | src/gwsynth/pagination.py:31-34 | two strings with the same JSON text are equal, so the cursor text determines the cursor |
| Snapshot.DeleteReversesInsert | src/gwsynth/snapshot.py:25-43 | the delete order is exactly the insert order reversed, so children are emptied before their parents |
| Snapshot.TableOrders | src/gwsynth/snapshot.py:15-43 | the export, delete and insert orders each list the seven data tables exactly once, and never the activity log |
| Snapshot.ColumnsDistinct | src/gwsynth/db.py:21-80 | no exported table declares a column twice, so a row object holds every value under its own column |
| Snapshot.ExportTable | src/gwsynth/snapshot.py:58-60 | one object per row, in `rowid` order, binding each column to its value |
| Snapshot.ExportSnapshot | src/gwsynth/snapshot.py:63-68 | the snapshot holds exactly the version 1, the export time and every exported table under its name |
| Snapshot.RequireStrOrNone | src/gwsynth/snapshot.py:83-88 | null and strings are accepted as themselves; anything else fails with "{label} must be a string or null" |
| Snapshot.Missing | src/gwsynth/snapshot.py:96 | the missing columns are exactly the table's columns absent from the row |
| Snapshot.RowValues | src/gwsynth/snapshot.py:92-102 | a row is accepted exactly when it is an object holding every column, each a string or null, and yields the values in column order |
| Snapshot.IterRowValues | src/gwsynth/snapshot.py:91-102 | the rows are accepted exactly when each one is, yielding one record per row in order |
| Snapshot.RequireDict | src/gwsynth/snapshot.py:71-74 | accepts exactly an object, otherwise "{label} must be an object" |
| Snapshot.RequireList | src/gwsynth/snapshot.py:77-80 | accepts exactly a list, otherwise "{label} must be a list" |
| Snapshot.DeleteAll | src/gwsynth/snapshot.py:120-123 | every table of the order is emptied and every other table is kept |
| Snapshot.Append | src/gwsynth/snapshot.py:135-138 | rows are appended exactly when the table's constraints accept the result, and nothing changes otherwise |
| Snapshot.Loaded | src/gwsynth/snapshot.py:127-138 | a table that loads yields one record per supplied row |
| Snapshot.LoadedRows | src/gwsynth/snapshot.py:127-138 | an absent table loads as empty, a non-list entry fails with "tables.{name} must be a list", and a list loads as its rows' values |
| Snapshot.InsertTable | src/gwsynth/snapshot.py:126-139 | one table's step succeeds exactly when its rows load and an empty table is skipped or the rows fit, appends them and counts them |
| Snapshot.InsertTables | src/gwsynth/snapshot.py:126-139 | after the loop every table of the order holds its old rows plus its loaded rows, and every other table is unchanged |
| Snapshot.InsertTablesCounts | src/gwsynth/snapshot.py:125-139 | `inserted` has one entry per table of the order, equal to the number of rows supplied, 0 for an absent or empty table |
| Snapshot.Header | src/gwsynth/snapshot.py:111-118 | the mode is checked first, then the version, then the tables object, each with the source's message, before anything is deleted |
| Snapshot.Replace | src/gwsynth/snapshot.py:120-145 | a successful replace passed the foreign-key check and left each data table with exactly its loaded rows and the activity log untouched |
| Snapshot.ImportSnapshot | src/gwsynth/snapshot.py:105-145 | a header failure is the import's error; a success passed the header and the foreign-key check and replaced the data tables with the snapshot's rows |
| Snapshot.ImportKeepsValid | src/gwsynth/snapshot.py:105-145 | an import into a valid database leaves it valid |
| Snapshot.Import | src/gwsynth/db.py:105-112 | a failed import leaves the database as it was; a successful one keeps the activity log |
| Snapshot.ExportImport | src/gwsynth/snapshot.py:63-145 | importing a valid database's snapshot restores every exported table row for row and reports each table's size, unless the foreign-key check objects |
| RateLimit.FirstCsvToken | src/gwsynth/rate_limit.py:69-74 | a token found is non-empty and already stripped |
| RateLimit.FirstCsvTokenIsHead | src/gwsynth/rate_limit.py:69-74 | the first token is the head of the API's header-token list, and none exactly when that list is empty |
| RateLimit.FirstCsvTokenOfList | src/gwsynth/rate_limit.py:69-74 | a comma-joined token list yields its first token |
| RateLimit.Address | src/gwsynth/rate_limit.py:79-92 | an address is never empty, and there is none exactly for a blank text, any case of "unknown", or a '[' with no ']' after it |
| RateLimit.StripIpPort | src/gwsynth/rate_limit.py:77-92 | a parsed address is never empty |
| RateLimit.StripPlainHost | src/gwsynth/rate_limit.py:88-92 | a plain host comes back unchanged |
| RateLimit.StripHostPort | src/gwsynth/rate_limit.py:88-91 | "host:port" with a decimal port gives the host |
| RateLimit.StripBracketed | src/gwsynth/rate_limit.py:82-86 | a bracketed host, with or without a port after it, gives what is inside the brackets |
| RateLimit.PairFor | src/gwsynth/rate_limit.py:97-105 | a pair yields a non-empty address or nothing |
| RateLimit.PairForKey | src/gwsynth/rate_limit.py:98-103 | a pair whose key strips and lower-cases to "for" yields its parsed value |
| RateLimit.PairForOtherKey | src/gwsynth/rate_limit.py:98-102 | a pair without '=' or with another key yields nothing |
| RateLimit.FirstFor | src/gwsynth/rate_limit.py:97-105 | the pairs yield nothing exactly when no pair yields an address |
| RateLimit.ForwardedFor | src/gwsynth/rate_limit.py:95-106 | the result is the first address among all pairs of all entries in reading order, and none exactly when no pair carries one |
| RateLimit.FirstForIsFirst | src/gwsynth/rate_limit.py:96-105 | a found address is that of some pair, and no earlier pair carries one |
| RateLimit.TrustedProxyIp | src/gwsynth/rate_limit.py:108-126 | a trusted address is never empty |
| RateLimit.ProxyPrecedence | src/gwsynth/rate_limit.py:108-126 | the address is from `Forwarded`, else the first `X-Forwarded-For` token, else `X-Real-IP` |
| RateLimit.GuardsRedundant | src/gwsynth/rate_limit.py:109-125 | each header's `if` guard is redundant: an empty header already yields nothing |
| RateLimit.Key | src/gwsynth/rate_limit.py:128-134 | the key is never empty |
| RateLimit.KeyIgnoresHeadersUntrusted | src/gwsynth/rate_limit.py:128-134 | without `trust_proxy`, no header can change the key |
| RateLimit.KeyTrusted | src/gwsynth/rate_limit.py:128-134 | behind a trusted proxy the forwarded address is the key, and the peer address or "unknown" is only the fallback |
| RateLimit.Check | src/gwsynth/rate_limit.py:156-183 | a request is exempt exactly when the limiter is off or the path is "/health"; any other request is charged to its key |
| RateLimit.ExemptIgnoresBucket | src/gwsynth/rate_limit.py:157-162 | exempt requests never consult a bucket |
| RateLimit.ChargedByOwnKey | src/gwsynth/rate_limit.py:164-183 | a charged request depends only on its own key's bucket, and is limited exactly when that bucket refuses |
| Auth.Credential | src/gwsynth/auth.py:20-24 | a non-empty `X-API-Key` wins; any other non-empty credential is the stripped rest of an `Authorization` header whose first seven characters read "bearer " in any case |
| Auth.Gate | src/gwsynth/auth.py:8-30 | with no key or on an open path everything passes; otherwise a request passes exactly when its credential equals the key, a refusal is always 401 with `WWW-Authenticate: Bearer`, and non-ASCII text raises |
| Auth.BearerRoundTrip | src/gwsynth/auth.py:22-24 | a bearer token, in any spelling of the scheme and with any padding, is read back as sent |
| Auth.KeyInHeader | src/gwsynth/auth.py:20-27 | on a protected route the key passes in `X-API-Key` |
| Auth.KeyAsBearer | src/gwsynth/auth.py:22-27 | on a protected route the key passes as a bearer token in any case of the scheme |
| Auth.NoCredentialRefused | src/gwsynth/auth.py:25-30 | a protected route refuses a request with neither header |
| Auth.EmptyHeaderIsAbsent | src/gwsynth/auth.py:20-24 | an empty `X-API-Key` counts as no header |
| Auth.UsersBearerExample | src/gwsynth/auth.py:8-30 | with the key "secret", `/users` with "Authorization: Bearer secret" goes through |

## Left out

**Remote calls, clocks, hashes and oracles**

- HTTP and client plumbing is not modelled. This covers the Google Admin, Drive, Docs and Licensing clients, Graph paging (`_paginate`), MSAL tokens, credential loading and `GraphClient`. The model's tenant answers directly.
- UUIDv5 and SHA-256 are function parameters, not implementations. Distinct ids follow only where a lemma assumes the parameter is injective.
- The LLM generator, `_user_rng` and the year are parameters or left out. `_user_rng` is a Mersenne Twister that picks My Drive archetypes. `datetime.now().year` becomes a year parameter, and the mock service's timestamps and `uuid4` become parameters.
- `entra.export_snapshot` and `export_snapshot_file` are left out: they only write files.
- Entra's mappings take Graph properties that are strings or null. `str()` of any other JSON value is not modelled.

**CLI orchestration**

- `main`, argparse, the `_cmd_*` wrappers and `_print_plan_summary` are left out: they only parse arguments and print.
- `_validate_tenant_guard` and `_load_entra_data` are left out: they only read the environment and Graph.
- `_build_plan` and `_apply` are not modelled as whole functions. The plan steps, the drive step and the document step they chain are modelled one by one.
- `_ensure_shared_drive_permissions` and `_ensure_shared_drive_folders` are not modelled as CLI steps. The Drive calls they make (`ensure_permission`, `ensure_folder`) are modelled.
- `_ensure_my_drive_docs` is not modelled as a loop. Its skip rule is the same step as the shared-drive one and is modelled once, in `CliDocs`.
- The call into the Docs API that writes generated content is left out. Its request list is modelled in `GoogleDocs`.
- The policy-document permission is left out. This is the `ensure_permission` call at the end of the shared-drive document loop.
- No lemma proves that plan and apply agree on folder stable ids. They do not agree: the plan hashes the unformatted template path, while apply hashes every formatted path prefix.

**Weaker contracts**

- GoogleLicensing.EnsureLicense: the modelled tenant answers every lookup with "found" or 404, so another status propagating out of `ensure_license` is not covered. `HasLicense` states that propagation.
- Strings.Lower: only ASCII letters are lower-cased, where Python's `lower()` maps all of Unicode. Where the text is only compared with an ASCII word ("bearer ", "for", "unknown"), no other character lower-cases into that word except the Kelvin sign, which `RateLimit.IsUnknown` handles.
- Strings.Capitalize: only ASCII letters change case, where Python's `capitalize()` maps all of Unicode.
- Strings.IsAllDigits: only ASCII digits count, where Python's `isdigit()` also accepts other Unicode digits such as "²" or "٣".
- CliHelpers.Normalize: a name holding non-ASCII upper-case letters, such as "ÉQUIPE", keeps them, where Python lower-cases them.
- CliHelpers.DepartmentGroupMap: inherits from `Normalize`; two group names that differ only in the case of non-ASCII letters get two keys here and one in Python.
- CliHelpers.CompanyNameFromRun: inherits from `Capitalize`; non-ASCII letters of a run name keep their case.
- CliHelpers.CompanyNameWords: states the words through the ASCII-only `Capitalize`, with the same gap.
- RateLimit.StripIpPort: a port of non-ASCII digits, as in "host:²", is not stripped, where Python's `isdigit()` strips it and returns "host".
- RateLimit.Address: inherits that gap from `StripIpPort`.
- PyFormat.Field: only bare `{name}` fields are modelled. A field with a `!conversion`, a `:spec`, an `.attribute` or a `[key]` part, which Python formats, is reported as a failure here. A field of non-ASCII digits is taken as a name.
- State.PyStr: the printed form of a float, a list or an object is a parameter of the model, not Python's `repr`.
- State.PyInt: strings are read by `Pagination.ParseInt`, so Unicode decimal digits other than ASCII are not modelled. A float read from the JSON is a real number, so JSON's `Infinity` and `NaN` are not modelled.
- State.PairOf: a pair whose key is not a string, and a two-key object used as a pair, are reported as failures. Python builds a dictionary from them, but the model's maps have string keys and no key order.
- State.PyDictCopy: inherits the gaps of `PairOf`.
- State.FromDict: inherits the gaps of `PyInt` and `PyDictCopy`.
- State.LoadState: inherits the gaps of `FromDict`.
- Pagination.ParseInt: only ASCII digits are read; other Unicode decimal digits are not modelled.
- Pagination.ParseLimit: `int()` is modelled for ASCII digits with optional sign, underscores and surrounding whitespace. Other Unicode decimal digits are not modelled.
- Snapshot.Append: an integrity error is reported per table. SQLite's own message text is not modelled.

**Drive service semantics**

- A create whose parent sits neither in the store searched nor in the caller's My Drive is the service's 404. A parent in another user's store, reachable through sharing, is not modelled.
- The trash is not modelled. `files.delete` deletes permanently, so the `trashed = false` clause of the listing query never matters.
- `list_files_by_app_properties` is a generator that fetches pages lazily, one request per 1000 files. The model takes one listing of all pages before the loop deletes anything, so it does not model a later page that no longer lists files an earlier delete took.
- The destroy dry run passes "" as the acting user and `AsSent` as the placement. A dry run files nothing, so neither plays a part.
- CliDocs.DocStep and the lemmas about it state the document step over the store searched, through `GoogleDrive.EnsureDocIn`, so they assume the new document is filed in that store. `GoogleDrive.EnsureDocFileInScope` shows when that holds: in a My Drive, and in a shared drive whose folders are filed in the drive. As sent, a shared-drive document whose folder sits in the admin's My Drive is the service's 404 for the owner, who cannot see that folder, and one with no folder lands in the owner's My Drive. `GoogleDrive.Landing` and `GoogleDrive.EnsureDocFileIdempotent` state those outcomes; the CliDocs lemmas do not.
- A query text Drive does not read back is taken to be refused with 400: a literal that closes early leaves text that is not query syntax. A value crafted so that the text after the early close is itself a valid query is not modelled.
- GoogleDrive.EnsureDocIn: the in-store view of `ensure_doc_file` takes the lookup to be accepted. The as-written 400 for tags holding `'` or `\` is stated on `GoogleDrive.EnsureDocFile` and `GoogleDrive.EnsureDocFileInScope`.
- CliDocs.DocStep: built on `GoogleDrive.EnsureDocIn`, so it takes the document lookup to be accepted. As written, a run name, document path or prompt version holding `'` or `\` (a path under the department "Women's Health") makes `ensure_doc_file` fail with 400 and `apply` stop. The lemmas about the step, `DocStepWrites` to `StaleIsCreated`, share this gap.
- CliDocs.DocStepChecked: the same gap as `DocStep`.
- CliPlan.FolderAbsent: takes the folder lookup to be accepted. As written, a run name or a formatted path holding `'` or `\` makes `plan` fail with 400. `PlanFolders` and the lemmas over it share this gap. Document lookups search only the stable id and the constant "doc", which read back for a UUID id.
- The Directory API's answer to an org unit insert under a missing parent is taken to be 400. Only that it fails and writes nothing matters to the model; the exact status is its choice.
- CliDestroy.Pick: takes the run-tag listing to be accepted. As written, a run name holding `'` or `\` makes `destroy` fail with 400 at its first listing. Every CliDestroy member built on `Pick` shares this gap.
- CliDestroy.DeletePickedExact, CliDestroy.DestroyDriveExact, CliDestroy.ContentPassExact, CliDestroy.DestroyMyDriveExact, CliDestroy.MyDrivesSwept, CliDestroy.ContentDestroyExact, CliDestroy.ContentDestroyKeepsMarkers and CliDestroy.ContentDestroyIdempotent: the exact results are promised only for stores that can be swept exactly. In such a store, no file the loop spares is filed under a file it deletes. For the loop as written, every listed file must also still be there at its turn. Other stores are covered only by `DeleteAllExact` and `SkipGoneExact`, which state what the loop does over any listing.

**Mock service**

- Flask route wiring, the HTML pages, the ETag computed from file mtime, gzip handling and `after_request` headers are left out.
- Descending pagination (`_page_clause_desc`, `_paginate_rows_desc`) and `_paginate_group_members_with_users` are left out. They mirror the ascending case this model proves.
- The snapshot routes in the API, and the CLI `main` of `snapshot.py`, are left out.
- The token bucket is left out: its floating-point refill and consume, the retry-after arithmetic, pruning and the lock. `RateLimit.Check` takes the bucket's decision as a parameter.
- `_table_columns` raising "Unknown table" is left out. Every table in the import order exists in the schema, so that error cannot happen.
- The snapshot's JSON text is not modelled. The model works with the decoded value.
- Tests that expect snapshot version 2, a `tables=` argument or `main(argv)` disagree with the code and are not followed. The same holds for tests that expect sorted Drive query keys: the model keeps the dict order the code uses. The tests' escaping of query values is the correction of a finding: the model states the code's unescaped text and the escaped one side by side.
- `seed.py` is left out: it fills the database with Faker data.

## Findings

| source | as written | input that shows it | evidently intended | confidence | as-written member | corrected member |
|---|---|---|---|---|---|---|
| src/gwsynth/real/cli.py:581-589 | the naming template is formatted with only `prefix` and `department`, yet the next line tests for "{index}" as if it were supported | template "{prefix} {department} {index}" with `count_per_department` 2: `format` raises `KeyError: 'index'` | pass `index` (1-based) to `format`, so drives of one department get distinct numbered names | high; follows from Python's `str.format`; not executed | CliLayout.IndexTemplateRejected | CliLayout.IndexTemplateNamesDistinct |
| src/gwsynth/real/cli.py:347 | destroy deletes every listed group whose description merely contains the run's name | run "acme", group sales@example.com described "acme sales team": apply reports it as a conflict and never tags it, but destroy deletes it | delete only groups carrying the `gwsynth_run:<run>` tag, the test apply uses to claim a group | medium; the substring test may be deliberate; not executed | CliDestroy.ForeignGroupDestroyed | CliDestroy.AppliedGroupsDestroyed |
| src/gwsynth/real/cli.py:886-898 | the skip rule reads the tags of the first file tagged with the document's id, not of the file `ensure_doc_file` has just returned | a drive holding one copy of the document written under prompt version "v1", blueprint now at "v2": every apply regenerates the new copy, because the old one is listed first | judge the file just ensured, so a run after a regeneration skips the document | medium; depends on Drive listing order; not executed | CliDocs.StaleCopyExample | CliDocs.DocStepCheckedSettles |
| src/gwsynth/real/google_drive.py:75-89 | `ensure_drive_marker` creates the marker folder without naming the drive as its parent, so Drive files it at the root of the acting user's My Drive, not in the shared drive | an empty tenant and one planned drive: apply creates the drive and reports it as created, the marker lands in the admin's My Drive, and the next apply finds the drive by name without a marker and reports `drive:<name>` as a conflict | send `parents=[drive_id]`, so the marker is filed at the drive's root and the next run finds the drive as its own | high; follows from Drive's rule for a create without parents; not executed | CliDrives.RerunReportsConflicts | CliDrives.EnsureSharedDrivesIdempotent |
| src/gwsynth/real/google_drive.py:109-115 | `ensure_folder` names a parent only when it has one, and the first folder of each shared-drive path has none (`parent_id = None` at src/gwsynth/real/cli.py:814), so it is filed in the acting user's My Drive while its lookup searches the shared drive | a drive without the folder "Finance": every apply creates another "Finance" folder in the admin's My Drive, under a new id, and the drive never gets one | name the drive as the parent of a top-level folder, so the lookup finds it on the next run | high; follows from Drive's rule for a create without parents; not executed | GoogleDrive.ParentlessFolderRepeats | GoogleDrive.EnsureFolderIdempotent |
| src/gwsynth/real/cli.py:314-325 | in mode `all` the drive loop skips every drive marker and then deletes the drive, but `drives.delete` without `allowItemDeletion` refuses a drive that still holds files | a drive of the run holding its marker at the root, where the corrected marker call files it: the files of the run go, the marker stays, `delete_drive` fails with a 403, and destroy stops before the groups and users | delete the marker too in mode `all`, so the drive is empty when it is deleted | high; follows from Drive's rule for deleting a shared drive; not executed | CliDestroy.MarkedDriveRefused | CliDestroy.RunDriveDeleted |
| src/gwsynth/real/cli.py:309-321 | the loop deletes every listed file, but deleting a folder also deletes everything filed in it, so a file listed after its folder is already gone when its turn comes | folder 0 and a document 1 inside it, listed in that order: deleting 0 takes 1, and deleting 1 fails with a 404, which stops destroy | skip, or tolerate the 404 for, a listed file an earlier delete already took | medium; depends on Drive listing order; not executed | CliDestroy.FolderFirstFails | CliDestroy.SkipGoneExact |
| src/gwsynth/real/google_drive.py:301-306 | `_app_properties_query` writes each key and value between single quotes without escaping, so a `'` in a value closes the literal early | the default folder tree's "01 - Projects/{department}" (src/gwsynth/real/blueprint.py:246-250) for the department "Women's Health": the lookup's query is malformed, Drive refuses it with 400, and `plan` and `apply` stop | escape `'` and `\` with a backslash before quoting, as the project's tests of `escape_drive_query_string` expect | high; follows from Drive's query syntax; not executed | GoogleDrive.QuotedTagRefused | GoogleDrive.ReadEscaped |
