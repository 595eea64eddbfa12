/**
  The identity snapshot read from Microsoft Graph: the mapping from Graph directory objects to
  the engine's users, groups and member lists, and the per-client manager cache. Paging and
  HTTP are left to the caller: a listing is the sequence of objects every page yields, in order.
*/
module Entra {
  import opened Wrappers
  import opened Strings

  datatype EntraUser = EntraUser(id: string, email: string, displayName: string, department: string, jobTitle: string)

  datatype EntraGroup = EntraGroup(id: string, email: string, displayName: string, description: string)

  /** A Graph user object; each selected property is a string or null (absent reads as null). */
  datatype GraphUser = GraphUser(
    id: Option<string>, displayName: Option<string>, mail: Option<string>,
    userPrincipalName: Option<string>, department: Option<string>, jobTitle: Option<string>)

  datatype GraphGroup = GraphGroup(id: Option<string>, displayName: Option<string>, mail: Option<string>,
                                   description: Option<string>)

  datatype GraphMember = GraphMember(mail: Option<string>, userPrincipalName: Option<string>)

  /** Python's `a or b` for a nullable string: `b` when `a` is null or empty. */
  function Or(a: Option<string>, b: string): (r: string)
    ensures a.Some? && a.value != "" ==> r == a.value
    ensures a.None? || a.value == "" ==> r == b
  {
    if a.Some? && a.value != "" then a.value else b
  }

  /** `email.split("@")[0]` */
  function LocalPart(email: string): (r: string)
    ensures '@' !in r && StartsWith(email, r)
  {
    var k := Find(email, '@');
    if k < 0 then email else email[..k]
  }

  /** `str(mail or userPrincipalName or "").strip()` */
  function AccountEmail(mail: Option<string>, userPrincipalName: Option<string>): string {
    Trim(Or(mail, Or(userPrincipalName, "")))
  }

  /** `str(department or "General").strip() or "General"`: never blank, blank read as "General". */
  function Department(d: Option<string>): (r: string)
    ensures r != "" && Trim(r) == r
    ensures d.None? || Trim(d.value) == "" ==> r == "General"
    ensures d.Some? && Trim(d.value) != "" ==> r == Trim(d.value)
  {
    var department := Trim(Or(d, "General"));
    TrimIdempotent(Or(d, "General"));
    GeneralIsTrimmed();
    if department == "" then "General" else department
  }

  /** A non-empty address with no surrounding whitespace. */
  predicate UsableAddress(m: string) {
    m != "" && Trim(m) == m
  }

  predicate UsableUser(u: EntraUser) {
    UsableAddress(u.email) && u.department != ""
  }

  /** One Graph user as the engine sees it; `None` when it has no usable address. */
  function ToUser(item: GraphUser): (r: Option<EntraUser>)
    ensures r.None? <==> AccountEmail(item.mail, item.userPrincipalName) == ""
    ensures r.Some? ==> UsableUser(r.value)
    ensures r.Some? ==> (
      && r.value.email == AccountEmail(item.mail, item.userPrincipalName)
      && r.value.department == Department(item.department)
      && (item.displayName.None? || item.displayName.value == "" ==> r.value.displayName == Trim(LocalPart(r.value.email))))
  {
    var email := AccountEmail(item.mail, item.userPrincipalName);
    TrimIdempotent(Or(item.mail, Or(item.userPrincipalName, "")));
    if email == "" then None
    else
      Some(EntraUser(
        Or(item.id, ""), email,
        Trim(Or(item.displayName, LocalPart(email))),
        Department(item.department),
        Trim(Or(item.jobTitle, ""))))
  }

  lemma GeneralIsTrimmed()
    ensures Trim("General") == "General"
  {
    assert !IsSpace('G') && !IsSpace('l');
    TrimOfTrimmed("General");
  }

  function ToGroup(item: GraphGroup): (r: Option<EntraGroup>)
    ensures r.None? <==> Trim(Or(item.mail, "")) == ""
    ensures r.Some? ==> r.value.email == Trim(Or(item.mail, "")) && r.value.description == Trim(Or(item.description, ""))
  {
    var email := Trim(Or(item.mail, ""));
    if email == "" then None
    else Some(EntraGroup(Or(item.id, ""), email, Trim(Or(item.displayName, LocalPart(email))),
                         Trim(Or(item.description, ""))))
  }

  function ToMember(item: GraphMember): (r: Option<string>)
    ensures r.Some? ==> UsableAddress(r.value)
    ensures r.None? <==> AccountEmail(item.mail, item.userPrincipalName) == ""
  {
    TrimIdempotent(Or(item.mail, Or(item.userPrincipalName, "")));
    var email := AccountEmail(item.mail, item.userPrincipalName);
    if email == "" then None else Some(email)
  }

  /** Every object mapped, the unusable ones dropped, in listing order. */
  function FilterMap<S, T>(f: S -> Option<T>, items: seq<S>): (r: seq<T>)
    ensures |r| <= |items|
    ensures forall i :: 0 <= i < |r| ==> exists j :: 0 <= j < |items| && f(items[j]) == Some(r[i])
  {
    if |items| == 0 then []
    else
      var last := items[|items| - 1];
      assert forall j :: 0 <= j < |items| - 1 ==> items[..|items| - 1][j] == items[j];
      FilterMap(f, items[..|items| - 1]) + (if f(last).Some? then [f(last).value] else [])
  }

  /** The first `n` elements, or all of them when there are fewer. */
  function Take<T>(s: seq<T>, n: int): (r: seq<T>)
    ensures |r| == if n <= 0 then 0 else if n < |s| then n else |s|
    ensures r == s[..|r|]
  {
    if n <= 0 then [] else if n < |s| then s[..n] else s
  }

  /** One more object appends its mapping, if any. */
  lemma FilterMapSnoc<S, T>(f: S -> Option<T>, items: seq<S>, i: nat)
    requires i < |items|
    ensures FilterMap(f, items[..i + 1]) == FilterMap(f, items[..i]) + (if f(items[i]).Some? then [f(items[i]).value] else [])
  {
    assert items[..i + 1][..i] == items[..i];
  }

  /** Below the cap, taking from a longer sequence takes the new elements too. */
  lemma TakeStep<T>(s: seq<T>, x: seq<T>, n: int)
    requires |Take(s, n)| < n && |x| <= 1
    ensures Take(s + x, n) == Take(s, n) + x
  {
  }

  /** Once the cap is reached, extending the sequence changes nothing. */
  lemma TakeFull<T>(pre: seq<T>, full: seq<T>, n: int)
    requires |pre| <= |full| && pre == full[..|pre|] && |Take(pre, n)| >= n
    ensures Take(pre, n) == Take(full, n)
  {
  }

  function AsSeq<T>(o: Option<T>): (r: seq<T>)
    ensures o.Some? ==> r == [o.value]
    ensures o.None? ==> r == []
  {
    if o.Some? then [o.value] else []
  }

  /** One iteration of a capped collecting loop below its cap. */
  lemma CollectStep<S, T>(f: S -> Option<T>, items: seq<S>, i: nat, acc: seq<T>, n: int)
    requires i < |items| && acc == Take(FilterMap(f, items[..i]), n) && |acc| < n
    ensures acc + AsSeq(f(items[i])) == Take(FilterMap(f, items[..i + 1]), n)
  {
    FilterMapSnoc(f, items, i);
    TakeStep(FilterMap(f, items[..i]), AsSeq(f(items[i])), n);
  }

  /** A capped collecting loop that stops early has what the whole listing would give. */
  lemma CollectStop<S, T>(f: S -> Option<T>, items: seq<S>, i: nat, acc: seq<T>, n: int)
    requires i <= |items| && acc == Take(FilterMap(f, items[..i]), n) && |acc| >= n
    ensures acc == Take(FilterMap(f, items), n)
  {
    FilterMapPrefix(f, items, i);
    TakeFull(FilterMap(f, items[..i]), FilterMap(f, items), n);
  }

  /** Mapping a longer listing only appends. */
  lemma {:induction false} FilterMapPrefix<S, T>(f: S -> Option<T>, items: seq<S>, i: nat)
    requires i <= |items|
    ensures var pre := FilterMap(f, items[..i]);
      |pre| <= |FilterMap(f, items)| && pre == FilterMap(f, items)[..|pre|]
    decreases |items| - i
  {
    if i < |items| {
      FilterMapPrefix(f, items, i + 1);
      assert items[..i + 1][..i] == items[..i];
    } else {
      assert items[..i] == items;
    }
  }

  /** Pages concatenate: mapping a listing page by page gives the mapping of the whole. */
  lemma {:induction false} FilterMapConcat<S, T>(f: S -> Option<T>, a: seq<S>, b: seq<S>)
    ensures FilterMap(f, a + b) == FilterMap(f, a) + FilterMap(f, b)
    decreases |b|
  {
    if |b| > 0 {
      var b' := b[..|b| - 1];
      assert (a + b)[..|a + b| - 1] == a + b';
      FilterMapConcat(f, a, b');
    } else {
      assert a + b == a;
    }
  }

  /**
    The capped collecting loop of `list_users` and `list_groups`: the cap is checked before each
    object, so the loop stops as soon as `n` results are collected.
  */
  method Collect<S, T>(f: S -> Option<T>, items: seq<S>, n: int) returns (acc: seq<T>)
    ensures acc == Take(FilterMap(f, items), n)
  {
    acc := [];
    var i := 0;
    while i < |items|
      invariant i <= |items|
      invariant acc == Take(FilterMap(f, items[..i]), n)
    {
      if |acc| >= n {
        CollectStop(f, items, i, acc, n);
        break;
      }
      CollectStep(f, items, i, acc, n);
      acc := acc + AsSeq(f(items[i]));
      i := i + 1;
    }
    if i == |items| {
      assert items[..i] == items;
    }
  }

  /** `list_users`: the first `maxUsers` usable users, in listing order. */
  method ListUsers(items: seq<GraphUser>, maxUsers: int) returns (users: seq<EntraUser>)
    ensures users == Take(FilterMap(ToUser, items), maxUsers)
    ensures |users| <= |items| && (maxUsers <= 0 ==> users == [])
    ensures forall i :: 0 <= i < |users| ==> UsableUser(users[i])
  {
    users := Collect(ToUser, items, maxUsers);
    TakenUsersUsable(items, maxUsers);
  }

  lemma TakenUsersUsable(items: seq<GraphUser>, n: int)
    ensures var r := Take(FilterMap(ToUser, items), n);
      forall i :: 0 <= i < |r| ==> UsableUser(r[i])
  {
    var m := FilterMap(ToUser, items);
    forall i | 0 <= i < |Take(m, n)| ensures UsableUser(Take(m, n)[i]) {
      assert Take(m, n)[i] == m[i];
      var j :| 0 <= j < |items| && ToUser(items[j]) == Some(m[i]);
    }
  }

  /** `list_groups`: the first `maxGroups` groups that have a mail address, in listing order. */
  method ListGroups(items: seq<GraphGroup>, maxGroups: int) returns (groups: seq<EntraGroup>)
    ensures groups == Take(FilterMap(ToGroup, items), maxGroups)
    ensures |groups| <= |items| && (maxGroups <= 0 ==> groups == [])
    ensures forall i :: 0 <= i < |groups| ==> groups[i].email != ""
  {
    groups := Collect(ToGroup, items, maxGroups);
    var m := FilterMap(ToGroup, items);
    forall i | 0 <= i < |groups| ensures groups[i].email != "" {
      assert groups[i] == m[i];
      var j :| 0 <= j < |items| && ToGroup(items[j]) == Some(m[i]);
    }
  }

  /** `list_group_members`: every non-empty member address, in listing order; nothing is capped. */
  function ListGroupMembers(items: seq<GraphMember>): (r: seq<string>)
    ensures |r| <= |items|
    ensures forall i :: 0 <= i < |r| ==> UsableAddress(r[i])
  {
    FilterMap(ToMember, items)
  }

  /** A member with a usable address is kept, one with none is dropped. */
  lemma ListGroupMembersKeeps(items: seq<GraphMember>, m: GraphMember)
    ensures ListGroupMembers(items + [m])
         == ListGroupMembers(items) + (if AccountEmail(m.mail, m.userPrincipalName) == "" then []
                                      else [AccountEmail(m.mail, m.userPrincipalName)])
  {
    assert (items + [m])[..|items|] == items;
  }

  /** What `GET /users/{id}/manager` gave: the manager's addresses, or an API error. */
  datatype ManagerResponse = Manager(mail: Option<string>, userPrincipalName: Option<string>) | GraphError

  type ManagerCache = map<string, Option<string>>

  /** The answer one manager lookup yields: the trimmed address, or `None`. */
  function ManagerAnswer(response: ManagerResponse): (r: Option<string>)
    ensures response.GraphError? ==> r == None
    ensures r.Some? ==> r.value != "" && Trim(r.value) == r.value
  {
    match response
    case GraphError => None
    case Manager(mail, upn) =>
      TrimIdempotent(Or(mail, Or(upn, "")));
      var e := AccountEmail(mail, upn);
      if e == "" then None else Some(e)
  }

  /**
    `get_manager_email`: answered from the cache when the user was asked before; otherwise
    fetched once, an API error read as "no manager", and the answer cached either way.
  */
  function GetManagerEmail(cache: ManagerCache, fetch: string -> ManagerResponse, userId: string): (r: (ManagerCache, Option<string>))
    ensures userId in cache ==> r == (cache, cache[userId])
    ensures userId !in cache ==> r.0 == cache[userId := r.1]
    ensures userId !in cache && fetch(userId).GraphError? ==> r.1 == None
    ensures userId !in cache && r.1.Some? ==> r.1.value != "" && Trim(r.1.value) == r.1.value
  {
    if userId in cache then (cache, cache[userId])
    else
      var email := ManagerAnswer(fetch(userId));
      (cache[userId := email], email)
  }

  /** Once asked, a user's answer is fixed: a later call returns it without consulting Graph. */
  lemma GetManagerEmailMemo(cache: ManagerCache, fetch1: string -> ManagerResponse,
                            fetch2: string -> ManagerResponse, userId: string)
    ensures var (c1, e1) := GetManagerEmail(cache, fetch1, userId);
      GetManagerEmail(c1, fetch2, userId) == (c1, e1)
  {
  }
}
