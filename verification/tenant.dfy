/**
  The remote Google Workspace tenant as a value: the Admin directory (users, groups, org units,
  license assignments) and Drive (shared drives and each user's My Drive). Every `ensure_*`
  call of the engine is a function from one tenant value to the next.
*/
module Tenant {
  import opened Wrappers
  import opened PyDict

  // ----- Directory -----

  datatype Organization = Organization(department: string, title: string)

  /** A directory user as the Admin SDK stores it. */
  datatype User = User(
    givenName: string, familyName: string,
    orgUnitPath: Option<string>,
    organizations: seq<Organization>)

  /** A group; `description` is `""` when the group has none. */
  datatype Group = Group(name: string, description: string, members: seq<string>)

  datatype License = License(productId: string, skuId: string, userEmail: string)

  datatype Directory = Directory(
    users: map<string, User>,
    groups: map<string, Group>,
    orgUnits: set<string>,
    licenses: set<License>)

  // ----- Drive -----

  datatype Permission = Permission(role: string, kind: string, email: Option<string>)

  datatype Mime = FolderMime | DocMime

  datatype File = File(
    id: nat, name: string, mime: Mime, parent: Option<nat>,
    props: Dict<string, string>, perms: seq<Permission>)

  datatype SharedDrive = SharedDrive(id: nat, name: string, files: seq<File>, perms: seq<Permission>)

  /**
    `shared` is in the order the Drive API lists shared drives; `nextId` is the next id the
    service will hand out, so every id in use is below it.
  */
  datatype Drives = Drives(shared: seq<SharedDrive>, myDrives: map<string, seq<File>>, nextId: nat)

  /** The files one Drive call can see, with the id counter it may draw from. */
  datatype Space = Space(files: seq<File>, nextId: nat)

  predicate IdsBelow(files: seq<File>, bound: nat) {
    forall i :: 0 <= i < |files| ==> files[i].id < bound
  }

  /** No two files share an id, as the Drive service guarantees. */
  predicate UniqueIds(files: seq<File>) {
    forall i, j :: 0 <= i < j < |files| ==> files[i].id != files[j].id
  }

  /** Every id in use was drawn from the counter. */
  ghost predicate FreshCounter(ds: Drives) {
    (forall i :: 0 <= i < |ds.shared| ==> ds.shared[i].id < ds.nextId && IdsBelow(ds.shared[i].files, ds.nextId))
    && (forall u :: u in ds.myDrives ==> IdsBelow(ds.myDrives[u], ds.nextId))
  }

  /** A user's My Drive; a user with no files yet has an empty one. */
  function MyDriveFiles(ds: Drives, user: string): seq<File> {
    if user in ds.myDrives then ds.myDrives[user] else []
  }

  function SharedSpace(ds: Drives, i: nat): (sp: Space)
    requires i < |ds.shared|
    ensures sp.files == ds.shared[i].files && sp.nextId == ds.nextId
  {
    Space(ds.shared[i].files, ds.nextId)
  }

  function WithSharedSpace(ds: Drives, i: nat, sp: Space): (r: Drives)
    requires i < |ds.shared|
    ensures |r.shared| == |ds.shared| && r.myDrives == ds.myDrives && r.nextId == sp.nextId
    ensures r.shared[i] == ds.shared[i].(files := sp.files)
    ensures forall j :: 0 <= j < |ds.shared| && j != i ==> r.shared[j] == ds.shared[j]
  {
    Drives(ds.shared[i := ds.shared[i].(files := sp.files)], ds.myDrives, sp.nextId)
  }

  function MySpace(ds: Drives, user: string): (sp: Space)
    ensures sp.files == MyDriveFiles(ds, user) && sp.nextId == ds.nextId
  {
    Space(MyDriveFiles(ds, user), ds.nextId)
  }

  function WithMySpace(ds: Drives, user: string, sp: Space): (r: Drives)
    ensures r.shared == ds.shared && r.nextId == sp.nextId
    ensures MyDriveFiles(r, user) == sp.files
    ensures forall u :: u != user ==> MyDriveFiles(r, u) == MyDriveFiles(ds, u)
  {
    Drives(ds.shared, ds.myDrives[user := sp.files], sp.nextId)
  }

  /** The index of the first listed shared drive with this name (`_find_drive_by_name`). */
  function FindDriveByName(shared: seq<SharedDrive>, name: string): (r: Option<nat>)
    ensures r.Some? ==> (r.value < |shared| && shared[r.value].name == name
                         && forall j :: 0 <= j < r.value ==> shared[j].name != name)
    ensures r.None? ==> forall j :: 0 <= j < |shared| ==> shared[j].name != name
  {
    if |shared| == 0 then None
    else if shared[0].name == name then Some(0)
    else match FindDriveByName(shared[1..], name)
      case None => None
      case Some(k) => Some(k + 1)
  }

  /** Appending drives with other names does not change which drive a name finds. */
  lemma {:induction false} FindDriveByNameAppend(shared: seq<SharedDrive>, extra: seq<SharedDrive>, name: string)
    requires FindDriveByName(shared, name).Some?
    ensures FindDriveByName(shared + extra, name) == FindDriveByName(shared, name)
  {
    if shared[0].name != name {
      assert (shared + extra)[1..] == shared[1..] + extra;
      FindDriveByNameAppend(shared[1..], extra, name);
    }
  }
}
