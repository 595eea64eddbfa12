/**
  The mock service's `POST /items` and `POST /items/<id>/permissions` handlers over an
  abstract store: the field checks, the per-type content rules, the referenced-row lookups
  and the single insert (plus its activity record) on success. Generated ids and the clock
  are parameters; a raised `ValueError` is a 400 response carrying its message.
*/
module ApiItems {
  import opened Wrappers
  import opened Strings
  import opened Json
  import opened ApiFields

  /** An `items` row; `contentText` is `content_text`, `sheetData` the cells `content_json` holds. */
  datatype Item = Item(
    id: string, name: string, itemType: ItemType, parentId: Option<string>,
    ownerUserId: Option<string>, contentText: Option<string>,
    sheetData: Option<map<string, string>>, createdAt: string, updatedAt: string)

  /** A `permissions` row. */
  datatype Permission = Permission(
    id: string, itemId: string, principalType: PrincipalType, principalId: Option<string>,
    role: Role, createdAt: string)

  /** An `activities` row (its own id and timestamp are left out). */
  datatype Activity = Activity(itemId: string, eventType: string, actor: Option<string>, data: map<string, Value>)

  datatype Store = Store(
    items: map<string, Item>, users: set<string>, groups: set<string>,
    permissions: map<string, Permission>, activities: seq<Activity>)

  /** A handler's answer: 201 with the new row, or an error status and message. */
  datatype Response<T> = Created(body: T) | Error(status: nat, message: string)

  function OptStr(o: Option<string>): Value {
    match o
    case None => Null
    case Some(s) => Str(s)
  }

  /** What SQLite raises when an enforced foreign key finds no parent row. */
  const ForeignKeyFailed := "FOREIGN KEY constraint failed"

  /** Python truthiness of an optional string: present and non-empty. */
  predicate Given(o: Option<string>) {
    o.Some? && o.value != []
  }

  /**
    `request.get_json(silent=True) or {}`: a missing or unparsable body, and any falsy JSON
    value, read as the empty object; a truthy non-object makes the following `.get` raise.
  */
  function Body(json: Option<Value>): (r: Result<map<string, Value>>)
    ensures r.Success? <==> json.None? || !Truthy(json.value) || json.value.Object?
    ensures r.Success? && json.Some? && json.value.Object? ==> r.value == json.value.fields
    ensures r.Success? && !(json.Some? && json.value.Object?) ==> r.value == map[]
  {
    match json
    case None => Success(map[])
    case Some(v) =>
      if !Truthy(v) then Success(map[])
      else if v.Object? then Success(v.fields)
      else Failure("AttributeError: object has no attribute 'get'")
  }

  // ----- POST /items -----

  const SheetOnly := "sheet_data is only allowed for sheets"
  const DocOnly := "content_text is only allowed for docs"

  /** The validated fields of an item request. */
  datatype ItemRequest = ItemRequest(
    name: string, itemType: ItemType, parentId: Option<string>, ownerUserId: Option<string>,
    contentText: Option<string>, sheetData: Option<map<string, string>>)

  /**
    The per-type content rules: a doc refuses cells and keeps its text (empty when absent); a
    sheet refuses text and keeps its cells (empty when absent); a folder refuses both.
  */
  function Content(t: ItemType, text: Option<string>, cells: Option<map<string, string>>)
    : (r: Result<(Option<string>, Option<map<string, string>>)>)
    ensures r.Success? <==> (t == Doc ==> cells.None?) && (t == Sheet ==> text.None?)
                            && (t == Folder ==> text.None? && cells.None?)
    ensures r.Success? && t == Doc ==> r.value == (Some(text.GetOr("")), None)
    ensures r.Success? && t == Sheet ==> r.value == (None, Some(cells.GetOr(map[])))
    ensures r.Success? && t == Folder ==> r.value == (None, None)
    ensures r.Failure? && t == Doc ==> r.error == SheetOnly
    ensures r.Failure? && t == Sheet ==> r.error == DocOnly
    ensures r.Failure? && t == Folder ==> r.error == (if text.Some? then DocOnly else SheetOnly)
  {
    match t
    case Doc =>
      if cells.Some? then Failure(SheetOnly) else Success((Some(text.GetOr("")), None))
    case Sheet =>
      if text.Some? then Failure(DocOnly) else Success((None, Some(cells.GetOr(map[]))))
    case Folder =>
      if text.Some? then Failure(DocOnly)
      else if cells.Some? then Failure(SheetOnly)
      else Success((None, None))
  }

  /** What the field checks guarantee: a non-blank name and content matching the type. */
  predicate WellFormed(req: ItemRequest) {
    && req.name != []
    && (req.itemType == Doc ==> req.contentText.Some? && req.sheetData.None?)
    && (req.itemType == Sheet ==> req.contentText.None? && req.sheetData.Some?)
    && (req.itemType == Folder ==> req.contentText.None? && req.sheetData.None?)
  }

  /** The field checks of `create_item`, in the source's order. */
  function ItemFields(payload: map<string, Value>): (r: Result<ItemRequest>)
    ensures r.Success? ==> WellFormed(r.value)
  {
    var name :- RequireStr(payload, "name");
    var typeName :- RequireStr(payload, "item_type");
    var itemType :- ParseItemType(typeName);
    var parentId :- OptionalStr(payload, "parent_id");
    var ownerUserId :- OptionalStr(payload, "owner_user_id");
    var text :- OptionalStr(payload, "content_text");
    var cells :- ParseSheetData(Get(payload, "sheet_data"), false);
    var content :- Content(itemType, text, cells);
    Success(ItemRequest(name, itemType, parentId, ownerUserId, content.0, content.1))
  }

  /** The request fields an item row keeps. */
  function RequestOf(item: Item): ItemRequest {
    ItemRequest(item.name, item.itemType, item.parentId, item.ownerUserId, item.contentText, item.sheetData)
  }

  /** The activity `create_item` records. */
  function ItemCreated(req: ItemRequest, id: string): Activity {
    Activity(id, "item.created", req.ownerUserId,
      map["item_type" := Str(ItemTypeName(req.itemType)), "name" := Str(req.name),
          "parent_id" := OptStr(req.parentId)])
  }

  /**
    `create_item`: validate the body, then (for a non-empty `parent_id`) require an existing
    folder parent and (for a non-empty `owner_user_id`) an existing user, then insert.
  */
  function CreateItem(store: Store, json: Option<Value>, newId: string, now: string): (r: (Store, Response<Item>))
    ensures r.1.Error? ==> r.0 == store
    ensures r.1.Created? ==> Inserted(store, r.0, r.1.body, newId, now) && WellFormed(RequestOf(r.1.body))
  {
    match Body(json)
    case Failure(e) => (store, Error(500, e))
    case Success(payload) =>
      match ItemFields(payload)
      case Failure(e) => (store, Error(400, e))
      case Success(req) => InsertItem(store, req, newId, now)
  }

  /**
    The one item row and its activity are added: a fresh id, a folder parent and an owner that
    exist (the parent may be the new row itself), and an activity naming the new item.
  */
  predicate Inserted(store: Store, after: Store, item: Item, newId: string, now: string) {
    && newId !in store.items && item.id == newId
    && after.items == store.items[newId := item] && after.users == store.users && after.groups == store.groups
    && after.permissions == store.permissions
    && after.activities == store.activities + [ItemCreated(RequestOf(item), newId)]
    && (Given(item.parentId) ==> item.parentId.value in store.items
                                 && store.items[item.parentId.value].itemType == Folder)
    && (item.parentId.Some? ==> item.parentId.value in after.items)
    && (item.ownerUserId.Some? ==> item.ownerUserId.value in store.users)
    && item.createdAt == now && item.updatedAt == now
  }

  /**
    The lookups and the insert of `create_item`, once the fields are valid. An empty id skips
    its lookup but is still stored, so the enforced foreign keys refuse it unless a row with the
    empty id exists; the `IntegrityError` escapes the handler as a 500 and nothing is committed.
  */
  function InsertItem(store: Store, req: ItemRequest, newId: string, now: string): (r: (Store, Response<Item>))
    ensures r.1.Error? ==> r.0 == store
    ensures r.1.Created? ==> Inserted(store, r.0, r.1.body, newId, now) && RequestOf(r.1.body) == req
  {
    if Given(req.parentId) && req.parentId.value !in store.items then (store, Error(404, "Parent not found"))
    else if Given(req.parentId) && store.items[req.parentId.value].itemType != Folder then
      (store, Error(400, "Parent must be a folder"))
    else if Given(req.ownerUserId) && req.ownerUserId.value !in store.users then
      (store, Error(404, "Owner not found"))
    else if newId in store.items then (store, Error(500, "UNIQUE constraint failed: items.id"))
    else if req.parentId.Some? && req.parentId.value !in store.items && req.parentId.value != newId then
      (store, Error(500, ForeignKeyFailed))
    else if req.ownerUserId.Some? && req.ownerUserId.value !in store.users then
      (store, Error(500, ForeignKeyFailed))
    else
      var item := Item(newId, req.name, req.itemType, req.parentId, req.ownerUserId,
                       req.contentText, req.sheetData, now, now);
      (store.(items := store.items[newId := item],
              activities := store.activities + [ItemCreated(req, newId)]),
       Created(item))
  }

  /** A field holding a name without surrounding blanks reads as that name. */
  lemma NameField(payload: map<string, Value>, key: string, s: string)
    requires Get(payload, key) == Str(s) && s != [] && !IsSpace(s[0]) && !IsSpace(s[|s| - 1])
    ensures RequireStr(payload, key) == Success(s)
  {
    TrimOfTrimmed(s);
  }

  /** The enumeration names have no surrounding blanks. */
  lemma NamesUnpadded(t: ItemType, role: Role, pt: PrincipalType)
    ensures var n := ItemTypeName(t); n != [] && !IsSpace(n[0]) && !IsSpace(n[|n| - 1])
    ensures var n := RoleName(role); n != [] && !IsSpace(n[0]) && !IsSpace(n[|n| - 1])
    ensures var n := PrincipalTypeName(pt); n != [] && !IsSpace(n[0]) && !IsSpace(n[|n| - 1])
  {
  }

  /** With a valid name and type and no parent or owner, the field checks come down to the content rules. */
  lemma ItemFieldsOf(payload: map<string, Value>, t: ItemType)
    requires RequireStr(payload, "name").Success?
    requires Get(payload, "item_type") == Str(ItemTypeName(t))
    requires Get(payload, "parent_id").Null? && Get(payload, "owner_user_id").Null?
    requires Get(payload, "content_text").Null? || Get(payload, "content_text").Str?
    requires ParseSheetData(Get(payload, "sheet_data"), false).Success?
    ensures var c := Content(t, OptionalStr(payload, "content_text").value,
                             ParseSheetData(Get(payload, "sheet_data"), false).value);
      ItemFields(payload)
        == if c.Success? then Success(ItemRequest(RequireStr(payload, "name").value, t, None, None, c.value.0, c.value.1))
           else Failure(c.error)
  {
    NamesUnpadded(t, Owner, User);
    NameField(payload, "item_type", ItemTypeName(t));
    ParseNames(t, Owner, User);
  }

  /**
    The content rules, stated on the request: for a body with a valid name and type, a fresh
    id and no parent or owner, creation succeeds exactly when the type's forbidden field is
    null or absent, and a doc's text defaults to the empty string.
  */
  lemma ItemContentRules(store: Store, payload: map<string, Value>, t: ItemType, newId: string, now: string)
    requires RequireStr(payload, "name").Success?
    requires Get(payload, "item_type") == Str(ItemTypeName(t))
    requires Get(payload, "parent_id").Null? && Get(payload, "owner_user_id").Null?
    requires Get(payload, "content_text").Null? || Get(payload, "content_text").Str?
    requires Get(payload, "sheet_data").Null? || Get(payload, "sheet_data") == SheetValue(Cells(payload))
    requires newId !in store.items
    ensures var r := CreateItem(store, Some(Object(payload)), newId, now);
      var text := Get(payload, "content_text");
      var cells := Get(payload, "sheet_data");
      && (r.1.Created? <==> (t == Doc ==> cells.Null?) && (t == Sheet ==> text.Null?)
                            && (t == Folder ==> text.Null? && cells.Null?))
      && (r.1.Error? ==> r.1.status == 400)
      && (r.1.Created? && t == Doc ==> r.1.body.contentText == Some(if text.Str? then text.s else ""))
      && (r.1.Created? && t == Sheet ==> r.1.body.sheetData == Some(if cells.Null? then map[] else Cells(payload)))
  {
    if Get(payload, "sheet_data") != Null {
      SheetRoundTrip(Cells(payload), false);
    }
    ItemFieldsOf(payload, t);
    assert "name" in payload;
    CreateItemOf(store, payload, newId, now);
  }

  /** A non-empty object body with neither parent nor owner is refused only by the field checks. */
  lemma CreateItemOf(store: Store, payload: map<string, Value>, newId: string, now: string)
    requires payload != map[] && newId !in store.items
    requires ItemFields(payload).Success? ==>
      ItemFields(payload).value.parentId.None? && ItemFields(payload).value.ownerUserId.None?
    ensures var r := CreateItem(store, Some(Object(payload)), newId, now).1;
      match ItemFields(payload)
      case Failure(e) => r == Error(400, e)
      case Success(req) => r.Created? && RequestOf(r.body) == req
  {
    assert Body(Some(Object(payload))) == Success(payload);
  }

  /** The cells of a payload's `sheet_data` when it is an object of strings (empty otherwise). */
  function Cells(payload: map<string, Value>): map<string, string> {
    var v := Get(payload, "sheet_data");
    if v.Object? && AllStrings(v.fields) then map k | k in v.fields :: v.fields[k].s else map[]
  }

  // ----- POST /items/<id>/permissions -----

  /** The validated fields of a permission request. */
  datatype PermissionRequest = PermissionRequest(
    actor: Option<string>, principalType: PrincipalType, principalId: Option<string>, role: Role)

  /** The field checks of `create_permission`, in the source's order; `principal_id` is stripped. */
  function PermissionFields(payload: map<string, Value>): (r: Result<PermissionRequest>)
    ensures r.Success? ==> (r.value.principalId.Some? <==> Get(payload, "principal_id").Str?)
    ensures r.Success? && r.value.principalId.Some? ==>
      var id := r.value.principalId.value; id == Trim(Get(payload, "principal_id").s) && Trim(id) == id
  {
    var actor :- OptionalStr(payload, "actor_user_id");
    var typeName :- RequireStr(payload, "principal_type");
    var principalType :- ParsePrincipalType(typeName);
    var principalId :- OptionalStr(payload, "principal_id");
    var roleName :- RequireStr(payload, "role");
    var role :- ParseRole(roleName);
    Success(PermissionRequest(actor, principalType, StripOpt(principalId), role))
  }

  /** `s.strip() if s is not None else None` */
  function StripOpt(o: Option<string>): (r: Option<string>)
    ensures r.Some? <==> o.Some?
    ensures r.Some? ==> r.value == Trim(o.value) && Trim(r.value) == r.value
  {
    match o
    case None => None
    case Some(s) => TrimIdempotent(s); Some(Trim(s))
  }

  /**
    The principal a permission grants to: nobody in particular for "anyone", otherwise a
    non-empty id naming an existing user or group.
  */
  predicate PrincipalExists(store: Store, pt: PrincipalType, id: Option<string>) {
    match pt
    case Anyone => id.None?
    case User => Given(id) && id.value in store.users
    case Group => Given(id) && id.value in store.groups
  }

  /** The activity `create_permission` records. */
  function PermissionCreated(p: Permission, actor: Option<string>): Activity {
    Activity(p.itemId, "permission.created", actor,
      map["permission_id" := Str(p.id), "principal_type" := Str(PrincipalTypeName(p.principalType)),
          "principal_id" := OptStr(p.principalId), "role" := Str(RoleName(p.role))])
  }

  /**
    `create_permission`: validate the body; then the item must exist, a non-empty actor must
    exist, "anyone" must come without a principal id, and a user or group principal needs a
    non-empty id naming an existing row. An empty actor skips its lookup, and the activity
    insert then breaks its foreign key unless a user has the empty id.
  */
  function CreatePermission(store: Store, itemId: string, json: Option<Value>, newId: string, now: string)
    : (r: (Store, Response<Permission>))
    ensures r.1.Error? ==> r.0 == store
    ensures r.1.Created? ==> Granted(store, r.0, r.1.body, itemId, newId)
    ensures r.1.Created? && r.1.body.principalId.Some? ==>
      Trim(r.1.body.principalId.value) == r.1.body.principalId.value
  {
    match Body(json)
    case Failure(e) => (store, Error(500, e))
    case Success(payload) =>
      match PermissionFields(payload)
      case Failure(e) => (store, Error(400, e))
      case Success(req) => Grant(store, itemId, req, newId, now)
  }

  /** The one permission row and its activity are added, to an existing item, for an existing principal. */
  predicate Granted(store: Store, after: Store, p: Permission, itemId: string, newId: string) {
    && newId !in store.permissions && p.id == newId && p.itemId == itemId && itemId in store.items
    && after.items == store.items && after.users == store.users && after.groups == store.groups
    && after.permissions == store.permissions[newId := p]
    && |after.activities| == |store.activities| + 1 && after.activities[..|store.activities|] == store.activities
    && PrincipalExists(store, p.principalType, p.principalId)
    && after.activities[|store.activities|].itemId == itemId
    && (after.activities[|store.activities|].actor.Some? ==> after.activities[|store.activities|].actor.value in store.users)
  }

  /** The lookups and the insert of `create_permission`, once the fields are valid. */
  function Grant(store: Store, itemId: string, req: PermissionRequest, newId: string, now: string)
    : (r: (Store, Response<Permission>))
    ensures r.1.Error? ==> r.0 == store
    ensures r.1.Created? ==> Granted(store, r.0, r.1.body, itemId, newId)
    ensures r.1.Created? ==>
      r.1.body.principalType == req.principalType && r.1.body.principalId == req.principalId
      && r.1.body.role == req.role
  {
    if itemId !in store.items then (store, Error(404, "Item not found"))
    else if Given(req.actor) && req.actor.value !in store.users then (store, Error(404, "Actor not found"))
    else if req.principalType == Anyone && req.principalId.Some? then
      (store, Error(400, "principal_id must be omitted for anyone"))
    else if req.principalType != Anyone && !Given(req.principalId) then
      (store, Error(400, "principal_id required"))
    else if req.principalType == User && req.principalId.value !in store.users then
      (store, Error(404, "User not found"))
    else if req.principalType == Group && req.principalId.value !in store.groups then
      (store, Error(404, "Group not found"))
    else if newId in store.permissions then
      (store, Error(500, "UNIQUE constraint failed: permissions.id"))
    else if req.actor.Some? && req.actor.value !in store.users then
      (store, Error(500, ForeignKeyFailed))
    else
      var p := Permission(newId, itemId, req.principalType, req.principalId, req.role, now);
      (store.(permissions := store.permissions[newId := p],
              activities := store.activities + [PermissionCreated(p, req.actor)]),
       Created(p))
  }

  /** With no actor and valid type and role, the field checks pass and strip `principal_id`. */
  lemma PermissionFieldsOf(payload: map<string, Value>, pt: PrincipalType, role: Role)
    requires Get(payload, "actor_user_id").Null?
    requires Get(payload, "principal_type") == Str(PrincipalTypeName(pt))
    requires Get(payload, "role") == Str(RoleName(role))
    requires Get(payload, "principal_id").Null? || Get(payload, "principal_id").Str?
    ensures PermissionFields(payload)
      == Success(PermissionRequest(None, pt, StripOpt(OptionalStr(payload, "principal_id").value), role))
  {
    NamesUnpadded(Folder, role, pt);
    NameField(payload, "principal_type", PrincipalTypeName(pt));
    NameField(payload, "role", RoleName(role));
    ParseNames(Folder, role, pt);
  }

  /**
    For a request with no actor on an existing item and a fresh id, the principal checks alone
    decide: an "anyone" grant with an id is refused with its own message.
  */
  lemma GrantRules(store: Store, itemId: string, req: PermissionRequest, newId: string, now: string)
    requires itemId in store.items && newId !in store.permissions && req.actor.None?
    ensures var r := Grant(store, itemId, req, newId, now).1;
      && (r.Created? <==> PrincipalExists(store, req.principalType, req.principalId))
      && (req.principalType == Anyone && req.principalId.Some? ==> r == Error(400, "principal_id must be omitted for anyone"))
  {
  }

  /** A non-empty object body that passes the field checks goes straight to the lookups. */
  lemma CreatePermissionOf(store: Store, itemId: string, payload: map<string, Value>, req: PermissionRequest, newId: string, now: string)
    requires payload != map[] && PermissionFields(payload) == Success(req)
    ensures CreatePermission(store, itemId, Some(Object(payload)), newId, now) == Grant(store, itemId, req, newId, now)
  {
    assert Body(Some(Object(payload))) == Success(payload);
  }

  /**
    The principal rules, stated on the request: with the item present, no actor, valid type
    and role and a fresh id, the permission is created exactly when "anyone" comes with no
    `principal_id`, or a user/group comes with one that is non-blank and names an existing row.
  */
  lemma PrincipalRules(store: Store, itemId: string, payload: map<string, Value>, pt: PrincipalType, role: Role, newId: string, now: string)
    requires itemId in store.items && newId !in store.permissions
    requires Get(payload, "actor_user_id").Null?
    requires Get(payload, "principal_type") == Str(PrincipalTypeName(pt))
    requires Get(payload, "role") == Str(RoleName(role))
    requires Get(payload, "principal_id").Null? || Get(payload, "principal_id").Str?
    ensures var r := CreatePermission(store, itemId, Some(Object(payload)), newId, now);
      var pid := Get(payload, "principal_id");
      r.1.Created? <==>
        if pt == Anyone then pid.Null?
        else pid.Str? && Trim(pid.s) != []
             && (pt == User ==> Trim(pid.s) in store.users) && (pt == Group ==> Trim(pid.s) in store.groups)
  {
    PermissionFieldsOf(payload, pt, role);
    assert "role" in payload;
    var req := PermissionFields(payload).value;
    CreatePermissionOf(store, itemId, payload, req, newId, now);
    GrantRules(store, itemId, req, newId, now);
  }

  /** A blank `principal_id` is still "given" for "anyone": stripping it does not make it absent. */
  lemma BlankIdForAnyone(store: Store, itemId: string, blank: string, newId: string, now: string)
    requires itemId in store.items && newId !in store.permissions
    requires forall i :: 0 <= i < |blank| ==> IsSpace(blank[i])
    ensures var payload := map["principal_type" := Str("anyone"), "principal_id" := Str(blank), "role" := Str("viewer")];
      CreatePermission(store, itemId, Some(Object(payload)), newId, now).1
        == Error(400, "principal_id must be omitted for anyone")
  {
    var payload := map["principal_type" := Str("anyone"), "principal_id" := Str(blank), "role" := Str("viewer")];
    assert Get(payload, "principal_type") == Str(PrincipalTypeName(Anyone));
    assert Get(payload, "role") == Str(RoleName(Viewer));
    PermissionFieldsOf(payload, Anyone, Viewer);
    var req := PermissionFields(payload).value;
    CreatePermissionOf(store, itemId, payload, req, newId, now);
    GrantRules(store, itemId, req, newId, now);
  }

  // ----- The foreign keys -----

  /**
    The store as the enforced foreign keys keep it: every parent and owner of an item, the item
    of every permission, and the item and actor of every activity name existing rows.
  */
  predicate Consistent(store: Store) {
    && (forall id :: id in store.items && store.items[id].parentId.Some? ==> store.items[id].parentId.value in store.items)
    && (forall id :: id in store.items && store.items[id].ownerUserId.Some? ==> store.items[id].ownerUserId.value in store.users)
    && (forall id :: id in store.permissions ==> store.permissions[id].itemId in store.items)
    && (forall i :: 0 <= i < |store.activities| ==> store.activities[i].itemId in store.items)
    && (forall i :: 0 <= i < |store.activities| && store.activities[i].actor.Some? ==>
          store.activities[i].actor.value in store.users)
  }

  /** Creating an item keeps every foreign key satisfied. */
  lemma CreateItemKeepsConsistent(store: Store, json: Option<Value>, newId: string, now: string)
    requires Consistent(store)
    ensures Consistent(CreateItem(store, json, newId, now).0)
  {
    var r := CreateItem(store, json, newId, now);
    if r.1.Created? {
      InsertedKeepsConsistent(store, r.0, r.1.body, newId, now);
    }
  }

  lemma InsertedKeepsConsistent(store: Store, after: Store, item: Item, newId: string, now: string)
    requires Consistent(store) && Inserted(store, after, item, newId, now)
    ensures Consistent(after)
  {
    var n := |store.activities|;
    forall i | 0 <= i < |after.activities|
      ensures after.activities[i].itemId in after.items
      ensures after.activities[i].actor.Some? ==> after.activities[i].actor.value in after.users
    {
      if i < n { assert after.activities[i] == store.activities[i]; }
    }
  }

  /** Granting a permission keeps every foreign key satisfied. */
  lemma CreatePermissionKeepsConsistent(store: Store, itemId: string, json: Option<Value>, newId: string, now: string)
    requires Consistent(store)
    ensures Consistent(CreatePermission(store, itemId, json, newId, now).0)
  {
    var r := CreatePermission(store, itemId, json, newId, now);
    if r.1.Created? {
      GrantedKeepsConsistent(store, r.0, r.1.body, itemId, newId);
    }
  }

  lemma GrantedKeepsConsistent(store: Store, after: Store, p: Permission, itemId: string, newId: string)
    requires Consistent(store) && Granted(store, after, p, itemId, newId)
    ensures Consistent(after)
  {
    var n := |store.activities|;
    forall i | 0 <= i < |after.activities|
      ensures after.activities[i].itemId in after.items
      ensures after.activities[i].actor.Some? ==> after.activities[i].actor.value in after.users
    {
      if i < n { assert after.activities[i] == after.activities[..n][i]; }
    }
  }

  /** An empty `parent_id` skips the parent lookup, yet the insert is refused and nothing is written. */
  lemma EmptyParentRefused(store: Store, req: ItemRequest, newId: string, now: string)
    requires req.parentId == Some("") && "" !in store.items && newId != "" && newId !in store.items
    requires req.ownerUserId.None?
    ensures InsertItem(store, req, newId, now) == (store, Error(500, ForeignKeyFailed))
  {
  }

  /** An empty `owner_user_id` skips the owner lookup, yet the insert is refused and nothing is written. */
  lemma EmptyOwnerRefused(store: Store, req: ItemRequest, newId: string, now: string)
    requires req.ownerUserId == Some("") && "" !in store.users && newId !in store.items
    requires req.parentId.None?
    ensures InsertItem(store, req, newId, now) == (store, Error(500, ForeignKeyFailed))
  {
  }

  /** An empty `actor_user_id` skips the actor lookup, yet the activity is refused and nothing is written. */
  lemma EmptyActorRefused(store: Store, itemId: string, req: PermissionRequest, newId: string, now: string)
    requires req.actor == Some("") && "" !in store.users
    requires itemId in store.items && newId !in store.permissions
    requires PrincipalExists(store, req.principalType, req.principalId)
    ensures Grant(store, itemId, req, newId, now) == (store, Error(500, ForeignKeyFailed))
  {
  }
}
