/**
  Building a list item by item where each item may fail, as a Python loop that raises on the
  first bad item: the whole list, or the first failure in loop order.
*/
module ResultSeqs {
  import opened Wrappers

  /** `[f(0), ..., f(n - 1)]`, or the first failure. */
  function Indexed<T>(f: nat -> Result<T>, n: nat): (r: Result<seq<T>>)
    ensures r.Success? <==> forall i :: 0 <= i < n ==> f(i).Success?
    ensures r.Success? ==> |r.value| == n && forall i :: 0 <= i < n ==> r.value[i] == f(i).value
    ensures r.Failure? ==> exists i :: 0 <= i < n && f(i) == Failure(r.error) && forall j :: 0 <= j < i ==> f(j).Success?
  {
    if n == 0 then Success([])
    else
      var earlier := Indexed(f, n - 1);
      if earlier.Failure? then Failure(earlier.error)
      else if f(n - 1).Failure? then Failure(f(n - 1).error)
      else Success(earlier.value + [f(n - 1).value])
  }

  /** `d * n` by repeated addition, so that positions stay in linear arithmetic. */
  function Offset(d: nat, n: nat): nat {
    if d == 0 then 0 else Offset(d - 1, n) + n
  }

  /** The items of one key. */
  function Row<T>(f: (string, nat) -> Result<T>, key: string): (g: nat -> Result<T>)
    ensures forall i :: g(i) == f(key, i)
  {
    (i: nat) => f(key, i)
  }

  /**
    For each key in order, the `n` items `f(key, 0)`, ..., `f(key, n - 1)`: the body of two
    nested loops, or the first failure.
  */
  function Blocks<T>(f: (string, nat) -> Result<T>, keys: seq<string>, n: nat): (r: Result<seq<T>>)
    ensures r.Success? <==> forall d, i :: 0 <= d < |keys| && 0 <= i < n ==> f(keys[d], i).Success?
    ensures r.Success? ==> |r.value| == Offset(|keys|, n)
  {
    if |keys| == 0 then Success([])
    else
      var first := Indexed(Row(f, keys[0]), n);
      var rest := Blocks(f, keys[1..], n);
      if first.Failure? then Failure(first.error)
      else if rest.Failure? then
        assert exists d, i :: 0 <= d < |keys| && 0 <= i < n && f(keys[d], i).Failure? by {
          var d, i :| 0 <= d < |keys[1..]| && 0 <= i < n && f(keys[1..][d], i).Failure?;
          assert keys[d + 1] == keys[1..][d];
        }
        Failure(rest.error)
      else
        assert forall d, i :: 0 <= d < |keys| && 0 <= i < n ==> f(keys[d], i).Success? by {
          forall d, i | 0 <= d < |keys| && 0 <= i < n
            ensures f(keys[d], i).Success?
          {
            if d > 0 {
              assert keys[d] == keys[1..][d - 1];
            }
          }
        }
        Success(first.value + rest.value)
  }

  /** Item `i` of key number `d` sits at position `d * n + i`. */
  lemma {:induction false} BlocksPosition<T>(f: (string, nat) -> Result<T>, keys: seq<string>, n: nat, d: nat, i: nat)
    requires Blocks(f, keys, n).Success?
    requires d < |keys| && i < n
    ensures var r := Blocks(f, keys, n).value;
      Offset(d, n) + i < |r| && r[Offset(d, n) + i] == f(keys[d], i).value
    decreases d
  {
    var first := Indexed(Row(f, keys[0]), n);
    var rest := Blocks(f, keys[1..], n);
    var r := Blocks(f, keys, n).value;
    assert r == first.value + rest.value;
    if d == 0 {
      assert r[i] == first.value[i];
    } else {
      BlocksPosition(f, keys[1..], n, d - 1, i);
      var k := Offset(d - 1, n) + i;
      assert r[n + k] == rest.value[k];
      assert keys[d] == keys[1..][d - 1];
    }
  }
}
