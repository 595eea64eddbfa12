/** The local run-state file: which drives, folders and docs a run has recorded. */
module State {
  import opened Wrappers
  import opened Strings
  import opened Json
  import opened Pagination

  /**
    The maps are `dict[str, str]` by annotation; `dict(...)` copies whatever values the file
    holds, so the model keeps them as decoded values.
  */
  datatype RunState = RunState(
    runName: string, version: int,
    drives: map<string, Value>, folders: map<string, Value>, docs: map<string, Value>)

  /** `RunState(run_name=...)`: the dataclass defaults. */
  function NewRunState(runName: string): (s: RunState)
    ensures s.runName == runName && s.version == 1
    ensures s.drives == map[] && s.folders == map[] && s.docs == map[]
  {
    RunState(runName, 1, map[], map[], map[])
  }

  function ToDict(s: RunState): (v: Value)
    ensures v.Object? && v.fields.Keys == {"version", "run_name", "drives", "folders", "docs"}
  {
    Object(map[
      "version" := Int(s.version),
      "run_name" := Str(s.runName),
      "drives" := Object(s.drives),
      "folders" := Object(s.folders),
      "docs" := Object(s.docs)])
  }

  /**
    Python's `str(v)`, which never fails. `repr` renders the floats, lists and objects a state
    file can hold; their Python rendering is a parameter of the model.
  */
  function PyStr(repr: Value -> string, v: Value): (r: string)
    ensures v.Str? ==> r == v.s
    ensures v.Int? ==> ParseInt(r) == Some(v.i)
    ensures v.Bool? ==> r == (if v.b then "True" else "False")
  {
    match v
    case Str(s) => s
    case Int(i) => ParseIntOfString(i); IntToString(i)
    case Bool(b) => if b then "True" else "False"
    case Null => "None"
    case _ => repr(v)
  }

  /**
    Python's `int(v)`: booleans are 0/1, floats truncate toward zero, strings parse as base-10
    literals; a list, an object or `None` is a `TypeError`.
  */
  function PyInt(v: Value): (r: Result<int>)
    ensures v.Int? ==> r == Success(v.i)
    ensures v.Str? ==> (r.Success? <==> ParseInt(v.s).Some?)
    ensures v.Str? && r.Success? ==> r.value == ParseInt(v.s).value
    ensures v.Null? || v.List? || v.Object? ==> r.Failure?
  {
    match v
    case Int(i) => Success(i)
    case Bool(b) => Success(if b then 1 else 0)
    case Float(x) => Success(if x >= 0.0 then x.Floor else -((-x).Floor))
    case Str(s) =>
      (match ParseInt(s)
       case Some(i) => Success(i)
       case None => Failure("ValueError: invalid literal for int() with base 10"))
    case _ => Failure("TypeError: int() argument must be a string, a number or a bool")
  }

  /**
    One element of the iterable `dict(...)` consumes: a two-item sequence gives a key and a
    value. A two-character string splits into a one-character key and value.
  */
  function PairOf(item: Value): (r: Result<(string, Value)>)
    ensures r.Success? ==> item.List? || item.Str?
    ensures item.List? && |item.items| == 2 && item.items[0].Str? ==>
              r == Success((item.items[0].s, item.items[1]))
  {
    match item
    case List(p) =>
      if |p| != 2 then Failure("ValueError: dictionary update sequence element has the wrong length")
      else if p[0].Str? then Success((p[0].s, p[1]))
      else Failure("keys other than strings are not modelled")
    case Str(s) =>
      if |s| != 2 then Failure("ValueError: dictionary update sequence element has the wrong length")
      else Success(([s[0]], Str([s[1]])))
    case Object(f) =>
      if |f| != 2 then Failure("ValueError: dictionary update sequence element has the wrong length")
      else Failure("the key order of an object is not modelled")
    case _ => Failure("TypeError: cannot convert dictionary update sequence element to a sequence")
  }

  /** `dict(items)` for a list: the pairs are stored left to right, so the last pair with a key wins. */
  function DictOfPairs(items: seq<Value>): (r: Result<map<string, Value>>)
    ensures r.Success? <==> forall i :: 0 <= i < |items| ==> PairOf(items[i]).Success?
  {
    if |items| == 0 then Success(map[])
    else
      var m :- DictOfPairs(items[..|items| - 1]);
      var p :- PairOf(items[|items| - 1]);
      Success(m[p.0 := p.1])
  }

  /** The keys of `dict(items)` are exactly the keys of its pairs. */
  lemma {:induction false} DictOfPairsKeys(items: seq<Value>, k: string)
    requires DictOfPairs(items).Success?
    ensures k in DictOfPairs(items).value <==> exists i :: 0 <= i < |items| && PairOf(items[i]).value.0 == k
  {
    if |items| > 0 {
      var init := items[..|items| - 1];
      DictOfPairsKeys(init, k);
      assert forall i :: 0 <= i < |init| ==> init[i] == items[i];
      if k in DictOfPairs(init).value {
        var i :| 0 <= i < |init| && PairOf(init[i]).value.0 == k;
        assert PairOf(items[i]).value.0 == k;
      }
    }
  }

  /** A pair no later pair shares its key with gives that key its value. */
  lemma {:induction false} DictOfPairsLastWins(items: seq<Value>, i: nat)
    requires DictOfPairs(items).Success? && i < |items|
    requires forall j :: i < j < |items| ==> PairOf(items[j]).value.0 != PairOf(items[i]).value.0
    ensures PairOf(items[i]).value.0 in DictOfPairs(items).value
    ensures DictOfPairs(items).value[PairOf(items[i]).value.0] == PairOf(items[i]).value.1
  {
    var init := items[..|items| - 1];
    if i < |items| - 1 {
      assert init[i] == items[i];
      assert forall j :: i < j < |init| ==> init[j] == items[j];
      DictOfPairsLastWins(init, i);
    }
  }

  /**
    Python's `dict(v)`: an object is copied, a list is read as key/value pairs, and a string as
    an iterable of characters, which only the empty string gets through.
  */
  function PyDictCopy(v: Value): (r: Result<map<string, Value>>)
    ensures v.Object? ==> r == Success(v.fields)
    ensures v.List? ==> r == DictOfPairs(v.items)
    ensures v.Str? ==> (r.Success? <==> v.s == []) && (r.Success? ==> r.value == map[])
    ensures v.Null? || v.Bool? || v.Int? || v.Float? ==> r.Failure?
  {
    match v
    case Object(f) => Success(f)
    case List(items) => DictOfPairs(items)
    case Str(s) =>
      if s == [] then Success(map[])
      else Failure("ValueError: dictionary update sequence element has length 1; 2 is required")
    case _ => Failure("TypeError: object is not iterable")
  }

  /** `dict([["k", "v"]])` and `dict("")` succeed; `dict("ab")` and `dict(1)` do not. */
  lemma PyDictCopyExamples()
    ensures PyDictCopy(List([List([Str("k"), Str("v")])])) == Success(map["k" := Str("v")])
    ensures PyDictCopy(List([Str("kv"), List([Str("k"), Int(2)])])) == Success(map["k" := Int(2)])
    ensures PyDictCopy(Str("")) == Success(map[]) && PyDictCopy(List([])) == Success(map[])
    ensures PyDictCopy(Str("ab")).Failure? && PyDictCopy(Int(1)).Failure?
  {
    var items := [Str("kv"), List([Str("k"), Int(2)])];
    assert items[..1] == [Str("kv")];
    assert [Str("kv")][..0] == [];
    assert PairOf(Str("kv")) == Success(("k", Str("v")));
    assert DictOfPairs([Str("kv")]) == Success(map["k" := Str("v")]);
    assert PairOf(items[1]) == Success(("k", Int(2)));
    assert DictOfPairs(items) == Success(map["k" := Str("v")]["k" := Int(2)]);
    assert map["k" := Str("v")]["k" := Int(2)] == map["k" := Int(2)];
  }

  /** `RunState.from_dict`: every field is converted by the Python builtin its annotation names. */
  function FromDict(repr: Value -> string, data: map<string, Value>): (r: Result<RunState>)
    ensures r.Success? <==>
      && PyInt(GetOr(data, "version", Int(1))).Success?
      && PyDictCopy(GetOr(data, "drives", Object(map[]))).Success?
      && PyDictCopy(GetOr(data, "folders", Object(map[]))).Success?
      && PyDictCopy(GetOr(data, "docs", Object(map[]))).Success?
    ensures r.Success? && "run_name" !in data ==> r.value.runName == ""
    ensures r.Success? && "run_name" in data && data["run_name"].Str? ==> r.value.runName == data["run_name"].s
    ensures r.Success? && "version" !in data ==> r.value.version == 1
    ensures r.Success? && "drives" !in data ==> r.value.drives == map[]
    ensures r.Success? && "drives" in data && data["drives"].Object? ==> r.value.drives == data["drives"].fields
  {
    var runName := PyStr(repr, GetOr(data, "run_name", Str("")));
    var version :- PyInt(GetOr(data, "version", Int(1)));
    var drives :- PyDictCopy(GetOr(data, "drives", Object(map[])));
    var folders :- PyDictCopy(GetOr(data, "folders", Object(map[])));
    var docs :- PyDictCopy(GetOr(data, "docs", Object(map[])));
    Success(RunState(runName, version, drives, folders, docs))
  }

  /**
    `load_state`: `file` is the decoded JSON of the state file, or `None` when it does not exist.
    A loaded state always belongs to the requested run.
  */
  function LoadState(repr: Value -> string, file: Option<Value>, runName: string): (r: Result<RunState>)
    ensures r.Success? ==> r.value.runName == runName
    ensures file.None? ==> r == Success(NewRunState(runName))
    ensures file.Some? && !file.value.Object? ==> r == Success(NewRunState(runName))
    ensures file.Some? && file.value.Object? ==> (r.Failure? <==> FromDict(repr, file.value.fields).Failure?)
  {
    match file
    case None => Success(NewRunState(runName))
    case Some(v) =>
      if !v.Object? then Success(NewRunState(runName))
      else
        var state :- FromDict(repr, v.fields);
        if state.runName != runName then Success(NewRunState(runName)) else Success(state)
  }

  /** Writing a state and reading it back gives the same state. */
  lemma RoundTrip(repr: Value -> string, s: RunState)
    ensures FromDict(repr, ToDict(s).fields) == Success(s)
  {
    var f := ToDict(s).fields;
    assert PyStr(repr, GetOr(f, "run_name", Str(""))) == s.runName;
    assert PyInt(GetOr(f, "version", Int(1))) == Success(s.version);
    assert PyDictCopy(GetOr(f, "drives", Object(map[]))) == Success(s.drives);
    assert PyDictCopy(GetOr(f, "folders", Object(map[]))) == Success(s.folders);
    assert PyDictCopy(GetOr(f, "docs", Object(map[]))) == Success(s.docs);
  }

  /** Every missing field takes its default. */
  lemma FromEmptyDict(repr: Value -> string)
    ensures FromDict(repr, map[]) == Success(RunState("", 1, map[], map[], map[]))
  {
  }

  /** A saved state is loaded back for its own run, and only for it. */
  lemma LoadSavedState(repr: Value -> string, s: RunState, runName: string)
    ensures LoadState(repr, Some(ToDict(s)), runName)
         == Success(if s.runName == runName then s else NewRunState(runName))
  {
    RoundTrip(repr, s);
  }
}
