/**
  The departments a run provisions drives for: the distinct departments of the identity
  snapshot, in Python's string order, with a blank department read as "General".
*/
module CliDepartments {
  import opened Strings
  import opened Entra

  const DefaultDepartment := "General"

  /** `user.department or "General"` */
  function DepartmentOf(u: EntraUser): (d: string)
    ensures d != ""
  {
    if u.department == "" then DefaultDepartment else u.department
  }

  /** Strictly increasing in Python's string order, hence free of duplicates. */
  predicate StrictlySorted(xs: seq<string>) {
    forall i, j :: 0 <= i < j < |xs| ==> LexLess(xs[i], xs[j])
  }

  lemma StrictlySortedDistinct(xs: seq<string>, i: nat, j: nat)
    requires StrictlySorted(xs) && i < j < |xs|
    ensures xs[i] != xs[j]
  {
    LexLessIrreflexive(xs[i]);
  }

  /** Insert one string into a strictly sorted list, keeping it strictly sorted and duplicate-free. */
  function InsertSorted(xs: seq<string>, x: string): (r: seq<string>)
    requires StrictlySorted(xs)
    ensures StrictlySorted(r)
    ensures forall y :: y in r <==> y in xs || y == x
    decreases |xs|
  {
    if |xs| == 0 then [x]
    else if x == xs[0] then xs
    else if LexLess(x, xs[0]) then
      assert StrictlySorted([x] + xs) by {
        forall j | 0 < j < |xs|
          ensures LexLess(x, xs[j])
        {
          LexLessTransitive(x, xs[0], xs[j]);
        }
      }
      [x] + xs
    else
      var rest := InsertSorted(xs[1..], x);
      assert LexLess(xs[0], x) by { LexLessTotal(x, xs[0]); }
      assert forall j :: 0 <= j < |rest| ==> LexLess(xs[0], rest[j]) by {
        forall j | 0 <= j < |rest|
          ensures LexLess(xs[0], rest[j])
        {
          if rest[j] != x {
            assert rest[j] in xs[1..];
            var k :| 0 <= k < |xs[1..]| && xs[1..][k] == rest[j];
            assert xs[k + 1] == rest[j];
          }
        }
      }
      assert forall y :: y in xs <==> y == xs[0] || y in xs[1..] by {
        assert xs == [xs[0]] + xs[1..];
      }
      [xs[0]] + rest
  }

  /** The distinct strings of `xs`, sorted: Python's `sorted(set(xs))`. */
  function SortedSet(xs: seq<string>): (r: seq<string>)
    ensures StrictlySorted(r)
    ensures forall y :: y in r <==> y in xs
  {
    if |xs| == 0 then []
    else
      var r := InsertSorted(SortedSet(xs[..|xs| - 1]), xs[|xs| - 1]);
      assert forall y :: y in xs <==> y in xs[..|xs| - 1] || y == xs[|xs| - 1] by {
        assert xs == xs[..|xs| - 1] + [xs[|xs| - 1]];
      }
      r
  }

  function Departments(users: seq<EntraUser>): (ds: seq<string>)
    ensures |ds| == |users|
    ensures forall i :: 0 <= i < |users| ==> ds[i] == DepartmentOf(users[i])
  {
    seq(|users|, i requires 0 <= i < |users| => DepartmentOf(users[i]))
  }

  /**
    `_departments_from_users`: every department that some user has (blank read as
    "General"), each once, in order; a run with no users still gets the "General" drive.
  */
  function DepartmentsFromUsers(users: seq<EntraUser>): (r: seq<string>)
    ensures StrictlySorted(r) && r != []
    ensures |users| > 0 ==> forall d :: d in r <==> exists i :: 0 <= i < |users| && DepartmentOf(users[i]) == d
    ensures |users| == 0 ==> r == [DefaultDepartment]
    ensures forall i :: 0 <= i < |r| ==> r[i] != ""
  {
    var ds := SortedSet(Departments(users));
    assert forall k :: 0 <= k < |users| ==> Departments(users)[k] in ds;
    if |ds| == 0 then
      [DefaultDepartment]
    else
      assert forall d :: d in ds <==> exists i :: 0 <= i < |users| && DepartmentOf(users[i]) == d by {
        forall d
          ensures d in ds <==> exists i :: 0 <= i < |users| && DepartmentOf(users[i]) == d
        {
          if d in ds {
            var i :| 0 <= i < |users| && Departments(users)[i] == d;
          }
        }
      }
      assert forall i :: 0 <= i < |ds| ==> ds[i] != "" by {
        forall i | 0 <= i < |ds|
          ensures ds[i] != ""
        {
          assert ds[i] in ds;
          var k :| 0 <= k < |users| && DepartmentOf(users[k]) == ds[i];
        }
      }
      ds
  }

  /**
    A strictly sorted list is determined by its elements: the result above is the one and only
    sorted, duplicate-free listing of the departments.
  */
  lemma {:induction false} SortedListUnique(a: seq<string>, b: seq<string>)
    requires StrictlySorted(a) && StrictlySorted(b)
    requires forall y :: y in a <==> y in b
    ensures a == b
    decreases |a|
  {
    assert forall k :: 0 <= k < |b| ==> b[k] in a;
    if |a| == 0 {
      EmptyIffNoElement(b);
    } else {
      assert a[0] in b;
      assert |b| > 0;
      if a[0] != b[0] {
        assert b[0] in a;
        var i :| 0 <= i < |a| && a[i] == b[0];
        var j :| 0 <= j < |b| && b[j] == a[0];
        assert i > 0 && j > 0;
        assert LexLess(a[0], a[i]);
        assert LexLess(b[0], b[j]);
        LexLessAsymmetric(a[0], b[0]);
        assert false;
      }
      forall y
        ensures y in a[1..] <==> y in b[1..]
      {
        assert a == [a[0]] + a[1..];
        assert b == [b[0]] + b[1..];
        if y in a[1..] {
          var i :| 0 <= i < |a[1..]| && a[1..][i] == y;
          StrictlySortedDistinct(a, 0, i + 1);
          assert y in b && y != b[0];
        }
        if y in b[1..] {
          var j :| 0 <= j < |b[1..]| && b[1..][j] == y;
          StrictlySortedDistinct(b, 0, j + 1);
          assert y in a && y != a[0];
        }
      }
      SortedListUnique(a[1..], b[1..]);
      assert a == [a[0]] + a[1..] && b == [b[0]] + b[1..];
    }
  }

  lemma EmptyIffNoElement<T>(b: seq<T>)
    ensures |b| == 0 <==> forall y :: y !in b
  {
    if |b| > 0 {
      assert b[0] in b;
    }
  }

  /** Listing users in another order (or repeating some) yields the same departments. */
  lemma DepartmentsIgnoreOrder(u1: seq<EntraUser>, u2: seq<EntraUser>)
    requires forall u :: u in u1 <==> u in u2
    ensures DepartmentsFromUsers(u1) == DepartmentsFromUsers(u2)
  {
    var r1 := DepartmentsFromUsers(u1);
    var r2 := DepartmentsFromUsers(u2);
    if |u1| > 0 {
      assert u1[0] in u2;
    }
    if |u2| > 0 {
      assert u2[0] in u1;
    }
    if |u1| > 0 {
      forall d
        ensures d in r1 <==> d in r2
      {
        if d in r1 {
          var i :| 0 <= i < |u1| && DepartmentOf(u1[i]) == d;
          assert u1[i] in u2;
          var j :| 0 <= j < |u2| && u2[j] == u1[i];
          assert DepartmentOf(u2[j]) == d;
        }
        if d in r2 {
          var j :| 0 <= j < |u2| && DepartmentOf(u2[j]) == d;
          assert u2[j] in u1;
          var i :| 0 <= i < |u1| && u1[i] == u2[j];
          assert DepartmentOf(u1[i]) == d;
        }
      }
      SortedListUnique(r1, r2);
    }
  }
}
