/**
  The small pure helpers of the CLI: domain filters, display-name normalisation, the lookup
  tables that pick a department's group, owner and the all-hands group, the company name
  derived from the run name, and the flattening of generated content before it is hashed.
*/
module CliHelpers {
  import opened Wrappers
  import opened Strings
  import opened Entra
  import opened GoogleDocs

  // ----- Filters -----

  /** `[x for x in xs if keep(x)]` */
  function Filter<T(!new)>(keep: T -> bool, xs: seq<T>): (r: seq<T>)
    ensures |r| <= |xs|
    ensures forall x :: x in r <==> x in xs && keep(x)
  {
    if |xs| == 0 then []
    else
      var rest := Filter(keep, xs[1..]);
      assert forall x :: x in xs <==> x == xs[0] || x in xs[1..] by { assert xs == [xs[0]] + xs[1..]; }
      (if keep(xs[0]) then [xs[0]] else []) + rest
  }

  /** Filtering keeps the order of what it keeps: it is the identity on a list that passes. */
  lemma {:induction false} FilterAllKept<T(!new)>(keep: T -> bool, xs: seq<T>)
    requires forall i :: 0 <= i < |xs| ==> keep(xs[i])
    ensures Filter(keep, xs) == xs
  {
    if |xs| > 0 {
      FilterAllKept(keep, xs[1..]);
      assert xs == [xs[0]] + xs[1..];
    }
  }

  /** Filtering twice with the same test is filtering once. */
  lemma FilterIdempotent<T(!new)>(keep: T -> bool, xs: seq<T>)
    ensures Filter(keep, Filter(keep, xs)) == Filter(keep, xs)
  {
    var r := Filter(keep, xs);
    forall i | 0 <= i < |r|
      ensures keep(r[i])
    {
      assert r[i] in r;
    }
    FilterAllKept(keep, r);
  }

  function DomainSuffix(domain: string): string {
    "@" + domain
  }

  /** `_filter_by_domain`: the users whose email ends with "@" and the domain. */
  function FilterByDomain(users: seq<EntraUser>, domain: string): (r: seq<EntraUser>)
    ensures |r| <= |users|
    ensures forall u :: u in r <==> u in users && EndsWith(u.email, DomainSuffix(domain))
  {
    Filter((u: EntraUser) => EndsWith(u.email, DomainSuffix(domain)), users)
  }

  /** `_filter_groups_by_domain`: the groups whose email ends with "@" and the domain. */
  function FilterGroupsByDomain(groups: seq<EntraGroup>, domain: string): (r: seq<EntraGroup>)
    ensures |r| <= |groups|
    ensures forall g :: g in r <==> g in groups && EndsWith(g.email, DomainSuffix(domain))
  {
    Filter((g: EntraGroup) => EndsWith(g.email, DomainSuffix(domain)), groups)
  }

  /** Filtering an already filtered snapshot changes nothing, for users and groups alike. */
  lemma FilterByDomainIdempotent(users: seq<EntraUser>, groups: seq<EntraGroup>, domain: string)
    ensures FilterByDomain(FilterByDomain(users, domain), domain) == FilterByDomain(users, domain)
    ensures FilterGroupsByDomain(FilterGroupsByDomain(groups, domain), domain) == FilterGroupsByDomain(groups, domain)
  {
    FilterIdempotent((u: EntraUser) => EndsWith(u.email, DomainSuffix(domain)), users);
    FilterIdempotent((g: EntraGroup) => EndsWith(g.email, DomainSuffix(domain)), groups);
  }

  // ----- Normalised names -----

  /** `_normalize`: lower case, runs of whitespace collapsed to one space, ends trimmed. */
  function Normalize(value: string): (r: string)
    ensures IsLowered(r)
    ensures Words(r) == Words(Lower(value))
    ensures r == Join(Words(r), " ")
  {
    NormalizeLowered(value);
    WordsShape(Lower(value));
    WordsJoin(Words(Lower(value)));
    Join(Words(Lower(value)), " ")
  }

  lemma NormalizeLowered(value: string)
    ensures IsLowered(Join(Words(Lower(value)), " "))
  {
    WordsLowered(Lower(value));
    JoinLowered(Words(Lower(value)), " ");
  }

  /** Normalising a normalised name changes nothing. */
  lemma NormalizeIdempotent(value: string)
    ensures Normalize(Normalize(value)) == Normalize(value)
  {
    var ws := Words(Lower(value));
    var n := Normalize(value);
    LowerOfLowered(n);
    WordsShape(Lower(value));
    WordsJoin(ws);
  }

  // ----- Lookup tables -----

  /** `i` is the last position holding its key. */
  predicate LastOf(keys: seq<string>, i: nat)
    requires i < |keys|
  {
    forall j :: i < j < |keys| ==> keys[j] != keys[i]
  }

  /** `i` is the first position holding its key. */
  predicate FirstOf(keys: seq<string>, i: nat)
    requires i < |keys|
  {
    forall j :: 0 <= j < i ==> keys[j] != keys[i]
  }

  /** `{keys[i]: vals[i] for i in range(n)}`: a dict filled in order, so a later key overwrites. */
  function LastWins<V>(keys: seq<string>, vals: seq<V>): (m: map<string, V>)
    requires |keys| == |vals|
    ensures forall k :: k in m <==> k in keys
    ensures forall i :: 0 <= i < |keys| && LastOf(keys, i) ==> m[keys[i]] == vals[i]
  {
    if |keys| == 0 then map[]
    else
      var n := |keys| - 1;
      var before := LastWins(keys[..n], vals[..n]);
      assert keys == keys[..n] + [keys[n]];
      assert forall i :: 0 <= i < n && LastOf(keys, i) ==> LastOf(keys[..n], i) && keys[i] != keys[n];
      before[keys[n] := vals[n]]
  }

  /** A dict filled in order that skips keys it already has, so the first key stays. */
  function FirstWins<V>(keys: seq<string>, vals: seq<V>): (m: map<string, V>)
    requires |keys| == |vals|
    ensures forall k :: k in m <==> k in keys
    ensures forall i :: 0 <= i < |keys| && FirstOf(keys, i) ==> m[keys[i]] == vals[i]
  {
    if |keys| == 0 then map[]
    else
      var n := |keys| - 1;
      var before := FirstWins(keys[..n], vals[..n]);
      assert keys == keys[..n] + [keys[n]];
      assert forall i :: 0 <= i < n && FirstOf(keys, i) ==> FirstOf(keys[..n], i);
      assert FirstOf(keys, n) ==> keys[n] !in keys[..n];
      if keys[n] in before then before else before[keys[n] := vals[n]]
  }

  /** More entries never change a key that is already set. */
  lemma {:induction false} FirstWinsStable<V>(keys: seq<string>, vals: seq<V>, k: string, n: nat)
    requires |keys| == |vals| && n <= |keys| && k in keys[..n]
    ensures FirstWins(keys, vals)[k] == FirstWins(keys[..n], vals[..n])[k]
    decreases |keys| - n
  {
    if n < |keys| {
      FirstWinsStable(keys, vals, k, n + 1);
      var m := n + 1;
      assert keys[..m][..n] == keys[..n] && vals[..m][..n] == vals[..n];
      assert k in keys[..m];
    } else {
      assert keys[..n] == keys && vals[..n] == vals;
    }
  }

  /** The index of the first `true`, if any. */
  function FirstTrue(bs: seq<bool>): (r: Option<nat>)
    ensures r.None? <==> forall i :: 0 <= i < |bs| ==> !bs[i]
    ensures r.Some? ==> r.value < |bs| && bs[r.value] && forall j :: 0 <= j < r.value ==> !bs[j]
  {
    if |bs| == 0 then None
    else if bs[0] then Some(0)
    else
      var rest := FirstTrue(bs[1..]);
      assert forall i :: 1 <= i < |bs| ==> bs[i] == bs[1..][i - 1];
      if rest.Some? then Some(rest.value + 1) else None
  }

  function GroupNames(groups: seq<EntraGroup>): (names: seq<string>)
    ensures |names| == |groups| && forall i :: 0 <= i < |groups| ==> names[i] == Normalize(groups[i].displayName)
  {
    seq(|groups|, i requires 0 <= i < |groups| => Normalize(groups[i].displayName))
  }

  function GroupEmails(groups: seq<EntraGroup>): (emails: seq<string>)
    ensures |emails| == |groups| && forall i :: 0 <= i < |groups| ==> emails[i] == groups[i].email
  {
    seq(|groups|, i requires 0 <= i < |groups| => groups[i].email)
  }

  /**
    `_department_group_map`: normalised display name to group email; when two groups normalise
    to the same name, the later one wins.
  */
  function DepartmentGroupMap(groups: seq<EntraGroup>): (m: map<string, string>)
    ensures forall k :: k in m <==> exists i :: 0 <= i < |groups| && Normalize(groups[i].displayName) == k
    ensures forall i :: (0 <= i < |groups| && LastOf(GroupNames(groups), i)
      ==> m[Normalize(groups[i].displayName)] == groups[i].email)
  {
    LastWins(GroupNames(groups), GroupEmails(groups))
  }

  predicate IsAllHands(g: EntraGroup) {
    var name := Normalize(g.displayName);
    Contains(name, "all hands") || Contains(name, "allhands")
  }

  /** `_find_all_hands_group`: the email of the first group whose normalised name mentions all hands. */
  function FindAllHandsGroup(groups: seq<EntraGroup>): (r: Option<string>)
    ensures r.None? <==> forall i :: 0 <= i < |groups| ==> !IsAllHands(groups[i])
    ensures r.Some? ==> exists i :: (0 <= i < |groups| && IsAllHands(groups[i]) && groups[i].email == r.value
      && forall j :: 0 <= j < i ==> !IsAllHands(groups[j]))
  {
    var k := FirstTrue(AllHandsFlags(groups));
    FirstAllHands(groups, k);
    if k.Some? then Some(groups[k.value].email) else None
  }

  lemma FirstAllHands(groups: seq<EntraGroup>, k: Option<nat>)
    requires k == FirstTrue(AllHandsFlags(groups))
    ensures k.None? <==> forall i :: 0 <= i < |groups| ==> !IsAllHands(groups[i])
    ensures k.Some? ==> (k.value < |groups| && IsAllHands(groups[k.value])
      && forall j :: 0 <= j < k.value ==> !IsAllHands(groups[j]))
  {
  }

  function AllHandsFlags(groups: seq<EntraGroup>): (flags: seq<bool>)
    ensures |flags| == |groups| && forall i :: 0 <= i < |groups| ==> flags[i] == IsAllHands(groups[i])
  {
    seq(|groups|, i requires 0 <= i < |groups| => IsAllHands(groups[i]))
  }

  function UserDepartments(users: seq<EntraUser>): (ds: seq<string>)
    ensures |ds| == |users| && forall i :: 0 <= i < |users| ==> ds[i] == users[i].department
  {
    seq(|users|, i requires 0 <= i < |users| => users[i].department)
  }

  /**
    `_department_owner`: the first user of each department, keyed by the department exactly as
    the user record has it.
  */
  function DepartmentOwner(users: seq<EntraUser>): (m: map<string, EntraUser>)
    ensures forall d :: d in m <==> exists i :: 0 <= i < |users| && users[i].department == d
    ensures forall i :: 0 <= i < |users| && FirstOf(UserDepartments(users), i) ==> m[users[i].department] == users[i]
  {
    FirstWins(UserDepartments(users), users)
  }

  /** Listing more users after the first few never changes an owner already chosen among them. */
  lemma DepartmentOwnerStable(users: seq<EntraUser>, n: nat, d: string)
    requires n <= |users| && d in DepartmentOwner(users[..n])
    ensures d in DepartmentOwner(users) && DepartmentOwner(users)[d] == DepartmentOwner(users[..n])[d]
  {
    var ds := UserDepartments(users);
    assert UserDepartments(users[..n]) == ds[..n];
    FirstWinsStable(ds, users, d, n);
  }

  // ----- Derived text -----

  /** `_company_name_from_run`: dashes become spaces and every word is capitalised. */
  function CompanyNameFromRun(runName: string): (r: string)
    ensures '-' !in r
  {
    CompanyNameAvoidsDash(runName);
    Join(Capitals(RunWords(runName)), " ")
  }

  /** The words of a run name once its dashes are spaces. */
  function RunWords(runName: string): seq<string> {
    Words(ReplaceChar(runName, '-', ' '))
  }

  /** Each word capitalised. */
  function Capitals(ws: seq<string>): (r: seq<string>)
    ensures |r| == |ws| && forall i :: 0 <= i < |ws| ==> r[i] == Capitalize(ws[i])
  {
    if |ws| == 0 then [] else [Capitalize(ws[0])] + Capitals(ws[1..])
  }

  lemma CompanyNameAvoidsDash(runName: string)
    ensures '-' !in Join(Capitals(RunWords(runName)), " ")
  {
    var ws := RunWords(runName);
    var caps := Capitals(ws);
    forall i | 0 <= i < |caps|
      ensures '-' !in caps[i]
    {
      CapitalizeKeepsDashes(ws[i]);
      NoDashInWords(runName, i);
    }
    JoinAvoids(caps, " ", '-');
  }

  lemma CapitalizeKeepsDashes(w: string)
    ensures '-' in Capitalize(w) ==> '-' in w
    ensures forall j :: 0 <= j < |w| ==> (IsSpace(Capitalize(w)[j]) <==> IsSpace(w[j]))
  {
    if '-' in Capitalize(w) {
      var j :| 0 <= j < |w| && Capitalize(w)[j] == '-';
      if j > 0 {
        assert Lower(w[1..])[j - 1] == LowerChar(w[j]);
      }
    }
    forall j | 0 <= j < |w|
      ensures IsSpace(Capitalize(w)[j]) <==> IsSpace(w[j])
    {
      if j > 0 {
        assert Lower(w[1..])[j - 1] == LowerChar(w[j]);
      }
    }
  }

  lemma NoDashInWords(runName: string, i: nat)
    requires i < |Words(ReplaceChar(runName, '-', ' '))|
    ensures '-' !in Words(ReplaceChar(runName, '-', ' '))[i]
  {
    WordsAvoid(ReplaceChar(runName, '-', ' '), '-');
  }

  lemma {:induction false} JoinAvoids(parts: seq<string>, sep: string, c: char)
    requires c !in sep && forall i :: 0 <= i < |parts| ==> c !in parts[i]
    ensures c !in Join(parts, sep)
    decreases |parts|
  {
    if |parts| > 1 {
      JoinAvoids(parts[1..], sep, c);
    }
  }

  /** The company name splits back into the capitalised words of the run name. */
  lemma CompanyNameWords(runName: string)
    ensures var ws := Words(ReplaceChar(runName, '-', ' '));
      var caps := Words(CompanyNameFromRun(runName));
      |caps| == |ws| && forall i :: 0 <= i < |ws| ==> caps[i] == Capitalize(ws[i])
  {
    var ws := RunWords(runName);
    var caps := Capitals(ws);
    WordsShape(ReplaceChar(runName, '-', ' '));
    forall i | 0 <= i < |caps|
      ensures caps[i] != [] && SpaceFree(caps[i])
    {
      CapitalizeKeepsDashes(ws[i]);
    }
    WordsJoin(caps);
  }

  /** The strings `_flatten_doc_content` joins, in order. */
  function ContentParts(c: DocContent): (parts: seq<string>)
    ensures |parts| >= 2 + |c.metadata| && parts[0] == c.title && parts[1] == c.summary
    ensures parts[|parts| - |c.metadata|..] == c.metadata
  {
    [c.title, c.summary] + SectionParts(c.sections) + c.metadata
  }

  function SectionParts(sections: seq<DocSection>): seq<string> {
    if |sections| == 0 then []
    else
      var s := sections[|sections| - 1];
      SectionParts(sections[..|sections| - 1]) + [s.heading] + s.paragraphs + s.bullets
  }

  /** `_flatten_doc_content`: every part on its own line. */
  function FlattenDocContent(c: DocContent): (r: string)
    ensures StartsWith(r, c.title)
  {
    var parts := ContentParts(c);
    JoinStartsWithFirst(parts, "\n");
    Join(parts, "\n")
  }

  lemma JoinStartsWithFirst(parts: seq<string>, sep: string)
    requires |parts| >= 1
    ensures StartsWith(Join(parts, sep), parts[0])
  {
    if |parts| > 1 {
      assert Join(parts, sep) == parts[0] + (sep + Join(parts[1..], sep));
    }
  }

  /** When no part holds a newline, splitting the flattened text at newlines gives the parts back. */
  lemma FlattenSplits(c: DocContent)
    requires forall i :: 0 <= i < |ContentParts(c)| ==> '\n' !in ContentParts(c)[i]
    ensures Split(FlattenDocContent(c), '\n') == ContentParts(c)
  {
    SplitJoin(ContentParts(c), '\n');
  }
}
