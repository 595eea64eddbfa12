/**
  Python's `template.format(**kwargs)` for the templates the engine formats: literal text,
  `{{` / `}}` escapes and `{name}` replacement fields.
*/
module PyFormat {
  import opened Wrappers
  import opened Strings

  /** The value of one replacement field `{field}`. */
  function Field(field: string, args: map<string, string>): (r: Result<string>)
    ensures r.Success? <==> (field in args && field != [] && !IsAllDigits(field)
                             && NoSpecOrAccess(field))
    ensures r.Success? ==> r.value == args[field]
  {
    if field == [] || IsAllDigits(field) then Failure("IndexError: Replacement index out of range")
    else if !NoSpecOrAccess(field) then Failure("format field with conversion, spec or access")
    else if field !in args then Failure("KeyError: " + field)
    else Success(args[field])
  }

  /** The field is a bare name: no `!conversion`, `:spec`, `.attr`, `[key]` or nesting. */
  predicate NoSpecOrAccess(field: string) {
    forall i :: 0 <= i < |field| ==> field[i] !in {':', '!', '.', '[', '{'}
  }

  predicate NoBraces(t: string) {
    '{' !in t && '}' !in t
  }

  function Format(t: string, args: map<string, string>): (r: Result<string>)
    ensures NoBraces(t) ==> r == Success(t)
    decreases |t|
  {
    if |t| == 0 then Success("")
    else if t[0] == '{' then
      if |t| > 1 && t[1] == '{' then
        var rest :- Format(t[2..], args);
        Success("{" + rest)
      else
        var close := Find(t[1..], '}');
        if close < 0 then Failure("ValueError: expected '}' before end of string")
        else
          var v :- Field(t[1..1 + close], args);
          var rest :- Format(t[close + 2..], args);
          Success(v + rest)
    else if t[0] == '}' then
      if |t| > 1 && t[1] == '}' then
        var rest :- Format(t[2..], args);
        Success("}" + rest)
      else Failure("ValueError: Single '}' encountered in format string")
    else
      assert NoBraces(t) ==> NoBraces(t[1..]) && t == [t[0]] + t[1..];
      var rest :- Format(t[1..], args);
      Success([t[0]] + rest)
  }

  /** Formatting distributes over literal text: a brace-free prefix is copied unchanged. */
  lemma {:induction false} FormatLiteralPrefix(lit: string, t: string, args: map<string, string>)
    requires NoBraces(lit)
    ensures Format(lit + t, args) == (match Format(t, args)
                                      case Success(s) => Success(lit + s)
                                      case Failure(e) => Failure(e))
  {
    if |lit| > 0 {
      assert (lit + t)[0] == lit[0];
      assert (lit + t)[1..] == lit[1..] + t;
      FormatLiteralPrefix(lit[1..], t, args);
      match Format(t, args) {
        case Success(s) => assert [lit[0]] + (lit[1..] + s) == lit + s;
        case Failure(_) =>
      }
    } else {
      assert lit + t == t;
      match Format(t, args) {
        case Success(s) => assert lit + s == s;
        case Failure(_) =>
      }
    }
  }

  /** A `{name}` field followed by more template text. */
  lemma FormatFieldPrefix(name: string, t: string, args: map<string, string>)
    requires '}' !in name && '{' !in name
    ensures var x := "{" + name + "}" + t;
      Format(x, args) == (match Field(name, args)
                          case Failure(e) => Failure(e)
                          case Success(v) =>
                            match Format(t, args)
                            case Success(s) => Success(v + s)
                            case Failure(e) => Failure(e))
  {
    var x := "{" + name + "}" + t;
    assert x[1..] == name + "}" + t;
    assert x[1..][|name|] == '}';
    assert '}' !in x[1..][..|name|] by { assert x[1..][..|name|] == name; }
    assert Find(x[1..], '}') == |name|;
    assert x[1..1 + |name|] == name;
    assert x[|name| + 2..] == t;
  }

  /** A literal followed by one field. */
  lemma FormatLiteralThenField(lit: string, name: string, args: map<string, string>)
    requires NoBraces(lit) && '}' !in name && '{' !in name
    ensures var x := "{" + name + "}";
      && (Field(name, args).Success? ==> Format(lit + x, args) == Success(lit + Field(name, args).value))
      && (Field(name, args).Failure? ==> Format(lit + x, args) == Failure(Field(name, args).error))
  {
    var x := "{" + name + "}";
    FormatFieldPrefix(name, "", args);
    assert x + "" == x;
    assert Format("", args) == Success("");
    if Field(name, args).Success? {
      var v := Field(name, args).value;
      assert v + "" == v;
      assert Format(x, args) == Success(v);
    }
    FormatLiteralPrefix(lit, x, args);
  }

  /** Literal text written as a template: every brace doubled. */
  function Escape(s: string): (r: string)
    ensures |r| >= |s|
  {
    if |s| == 0 then ""
    else if s[0] == '{' || s[0] == '}' then [s[0], s[0]] + Escape(s[1..])
    else [s[0]] + Escape(s[1..])
  }

  /** Formatting an escaped text gives the text back, whatever the arguments. */
  lemma {:induction false} FormatEscaped(s: string, args: map<string, string>)
    ensures Format(Escape(s), args) == Success(s)
  {
    if |s| > 0 {
      var e := Escape(s);
      FormatEscaped(s[1..], args);
      if s[0] == '{' || s[0] == '}' {
        assert e[2..] == Escape(s[1..]);
      } else {
        assert e[1..] == Escape(s[1..]);
      }
      assert [s[0]] + s[1..] == s;
    }
  }

  /** Arguments a successful format does not use change nothing. */
  lemma {:induction false} FormatExtraArg(t: string, args: map<string, string>, k: string, x: string)
    requires k !in args && Format(t, args).Success?
    ensures Format(t, args[k := x]) == Format(t, args)
    decreases |t|
  {
    if |t| == 0 {
    } else if t[0] == '{' {
      if |t| > 1 && t[1] == '{' {
        FormatExtraArg(t[2..], args, k, x);
      } else {
        var close := Find(t[1..], '}');
        FormatExtraArg(t[close + 2..], args, k, x);
      }
    } else if t[0] == '}' {
      FormatExtraArg(t[2..], args, k, x);
    } else {
      FormatExtraArg(t[1..], args, k, x);
    }
  }

  lemma ContainsInTail(t: string, lo: nat, key: string)
    requires lo <= |t|
    ensures Contains(t[lo..], key) ==> Contains(t, key)
  {
    if Contains(t[lo..], key) {
      assert t[lo..] == t[lo..|t|];
      ContainsInSlice(t, lo, |t|, key);
    }
  }

  lemma FieldNameAtStart(t: string, close: nat, k: string)
    requires close + 2 <= |t| && t[0] == '{' && t[close + 1] == '}'
    ensures t[1..1 + close] == k ==> Contains(t, "{" + k + "}")
  {
    if t[1..1 + close] == k {
      assert t[0..close + 2] == "{" + k + "}";
      ContainsAt(t, "{" + k + "}", 0);
    }
  }

  /** An argument whose field `{k}` never occurs in the template changes nothing. */
  lemma {:induction false} FormatUnusedArg(t: string, args: map<string, string>, k: string, x: string)
    requires k !in args && !Contains(t, "{" + k + "}")
    ensures Format(t, args[k := x]) == Format(t, args)
    decreases |t|
  {
    var key := "{" + k + "}";
    if |t| == 0 {
    } else if t[0] == '{' && |t| > 1 && t[1] == '{' {
      ContainsInTail(t, 2, key);
      FormatUnusedArg(t[2..], args, k, x);
    } else if t[0] == '{' {
      var close := Find(t[1..], '}');
      if close >= 0 {
        FieldNameAtStart(t, close, k);
        ContainsInTail(t, close + 2, key);
        FormatUnusedArg(t[close + 2..], args, k, x);
      }
    } else if t[0] == '}' {
      if |t| > 1 {
        ContainsInTail(t, 2, key);
        FormatUnusedArg(t[2..], args, k, x);
      }
    } else {
      ContainsInTail(t, 1, key);
      FormatUnusedArg(t[1..], args, k, x);
    }
  }

  /** `"{a} {b} {c}"`: three fields separated by single spaces. */
  function SpacedFields(a: string, b: string, c: string): string {
    "{" + a + "}" + (" " + ("{" + b + "}" + (" " + ("{" + c + "}"))))
  }

  /** Three fields separated by single spaces: the first field that fails decides the error. */
  lemma FormatSpacedFields(a: string, b: string, c: string, args: map<string, string>)
    requires '{' !in a && '}' !in a && '{' !in b && '}' !in b && '{' !in c && '}' !in c
    ensures var r := Format(SpacedFields(a, b, c), args);
      && (Field(a, args).Failure? ==> r == Failure(Field(a, args).error))
      && (Field(a, args).Success? && Field(b, args).Failure? ==> r == Failure(Field(b, args).error))
      && (Field(a, args).Success? && Field(b, args).Success? && Field(c, args).Failure? ==>
            r == Failure(Field(c, args).error))
      && (Field(a, args).Success? && Field(b, args).Success? && Field(c, args).Success? ==>
            r == Success(Field(a, args).value + (" " + (Field(b, args).value + (" " + Field(c, args).value)))))
  {
    var tc := " " + ("{" + c + "}");
    FormatLiteralThenField(" ", c, args);
    var tb := "{" + b + "}" + tc;
    FormatFieldPrefix(b, tc, args);
    FormatLiteralPrefix(" ", tb, args);
    FormatFieldPrefix(a, " " + tb, args);
  }
}
