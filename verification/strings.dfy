/** The slice of Python's `str` API the source relies on, over `seq<char>`. */
module Strings {

  /** Python's `str.isspace()` for one character (the full set `str.strip()` removes). */
  predicate IsSpace(c: char) {
    var n := c as int;
    || (9 <= n <= 13) || (0x1C <= n <= 0x20) || n == 0x85 || n == 0xA0 || n == 0x1680
    || (0x2000 <= n <= 0x200A) || n == 0x2028 || n == 0x2029 || n == 0x202F || n == 0x205F
    || n == 0x3000
  }

  /** `s.lstrip()` */
  function TrimLeft(s: string): (r: string)
    ensures |r| <= |s| && r == s[|s| - |r|..]
    ensures r == [] || !IsSpace(r[0])
    ensures forall i :: 0 <= i < |s| - |r| ==> IsSpace(s[i])
  {
    if |s| > 0 && IsSpace(s[0]) then TrimLeft(s[1..]) else s
  }

  /** `s.rstrip()` */
  function TrimRight(s: string): (r: string)
    ensures |r| <= |s| && r == s[..|r|]
    ensures r == [] || !IsSpace(r[|r| - 1])
    ensures forall i :: |r| <= i < |s| ==> IsSpace(s[i])
  {
    if |s| > 0 && IsSpace(s[|s| - 1]) then TrimRight(s[..|s| - 1]) else s
  }

  /** `s.strip()` */
  function Trim(s: string): string {
    TrimRight(TrimLeft(s))
  }

  /** The result of `strip()` has no surrounding whitespace and is a slice of its input. */
  lemma TrimShape(s: string)
    ensures var r := Trim(s);
      && (r == [] || (!IsSpace(r[0]) && !IsSpace(r[|r| - 1])))
      && |s| - |TrimLeft(s)| + |r| <= |s|
      && r == s[|s| - |TrimLeft(s)|..|s| - |TrimLeft(s)| + |r|]
  {
    SliceShape(s, TrimLeft(s), Trim(s));
  }

  /** A prefix `r` of a suffix `l` of `s` is the slice of `s` where they overlap. */
  lemma SliceShape(s: string, l: string, r: string)
    requires |l| <= |s| && l == s[|s| - |l|..] && (l == [] || !IsSpace(l[0]))
    requires |r| <= |l| && r == l[..|r|] && (r == [] || !IsSpace(r[|r| - 1]))
    ensures r == [] || (!IsSpace(r[0]) && !IsSpace(r[|r| - 1]))
    ensures |s| - |l| + |r| <= |s| && r == s[|s| - |l|..|s| - |l| + |r|]
  {
    SuffixPrefix(s, |s| - |l|, |r|);
  }

  /** A prefix of a suffix is a slice. */
  lemma SuffixPrefix<T>(s: seq<T>, i: nat, n: nat)
    requires i + n <= |s|
    ensures s[i..][..n] == s[i..i + n]
  {
  }

  /** A string with no surrounding whitespace is its own `strip()`. */
  lemma TrimOfTrimmed(s: string)
    requires s == [] || (!IsSpace(s[0]) && !IsSpace(s[|s| - 1]))
    ensures Trim(s) == s
  {
  }

  /** `strip()` is idempotent. */
  lemma TrimIdempotent(s: string)
    ensures Trim(Trim(s)) == Trim(s)
  {
    TrimShape(s);
    TrimOfTrimmed(Trim(s));
  }

  /** Leading and trailing whitespace never changes `strip()`. */
  lemma {:induction false} TrimIgnoresPadding(pre: string, s: string, post: string)
    requires forall i :: 0 <= i < |pre| ==> IsSpace(pre[i])
    requires forall i :: 0 <= i < |post| ==> IsSpace(post[i])
    ensures Trim(pre + s + post) == Trim(s)
  {
    TrimLeftSkipsSpaces(pre, s + post);
    assert pre + s + post == pre + (s + post);
    TrimLeftAppend(s, post);
    TrimRightSkipsSpaces(TrimLeft(s), post);
    if TrimLeft(s) == [] {
      assert TrimLeft(s + post) == TrimLeft(post);
      AllSpacesTrimLeft(post);
    }
  }

  lemma {:induction false} TrimLeftSkipsSpaces(pre: string, s: string)
    requires forall i :: 0 <= i < |pre| ==> IsSpace(pre[i])
    ensures TrimLeft(pre + s) == TrimLeft(s)
  {
    if pre != [] {
      var x := pre + s;
      assert x[0] == pre[0] && IsSpace(pre[0]);
      assert x[1..] == pre[1..] + s;
      TrimLeftSkipsSpaces(pre[1..], s);
      calc {
        TrimLeft(x);
        TrimLeft(x[1..]);
        TrimLeft(pre[1..] + s);
      }
    } else {
      assert pre + s == s;
    }
  }

  lemma AllSpacesTrimLeft(s: string)
    requires forall i :: 0 <= i < |s| ==> IsSpace(s[i])
    ensures TrimLeft(s) == []
  {
  }

  /** Trimming the left of `s + post` trims `s` alone when `s` has a non-space character. */
  lemma {:induction false} TrimLeftAppend(s: string, post: string)
    ensures TrimLeft(s) != [] ==> TrimLeft(s + post) == TrimLeft(s) + post
    ensures TrimLeft(s) == [] ==> TrimLeft(s + post) == TrimLeft(post)
  {
    if |s| > 0 && IsSpace(s[0]) {
      assert (s + post)[1..] == s[1..] + post;
      TrimLeftAppend(s[1..], post);
    } else if |s| == 0 {
      assert s + post == post;
    }
  }

  lemma {:induction false} TrimRightSkipsSpaces(s: string, post: string)
    requires forall i :: 0 <= i < |post| ==> IsSpace(post[i])
    ensures TrimRight(s + post) == TrimRight(s)
  {
    if post != [] {
      var p := post[..|post| - 1];
      assert (s + post)[..|s + post| - 1] == s + p;
      TrimRightSkipsSpaces(s, p);
    } else {
      assert s + post == s;
    }
  }

  /** `s.strip(c)` for a single character `c`. */
  function StripChar(s: string, c: char): (r: string)
    ensures |r| <= |s|
    ensures r == [] || (r[0] != c && r[|r| - 1] != c)
  {
    if |s| > 0 && s[0] == c then StripChar(s[1..], c)
    else if |s| > 0 && s[|s| - 1] == c then StripChar(s[..|s| - 1], c)
    else s
  }

  predicate StartsWith(s: string, p: string) {
    |p| <= |s| && s[..|p|] == p
  }

  predicate EndsWith(s: string, p: string) {
    |p| <= |s| && s[|s| - |p|..] == p
  }

  /** Python's `t in s` for strings: `t` occurs as a contiguous substring of `s`. */
  predicate Contains(s: string, t: string)
    decreases |s|
  {
    StartsWith(s, t) || (|s| > 0 && Contains(s[1..], t))
  }

  /** `Contains` agrees with the positional definition of a substring occurrence. */
  lemma {:induction false} ContainsAt(s: string, t: string, i: nat)
    requires i + |t| <= |s| && s[i..i + |t|] == t
    ensures Contains(s, t)
  {
    if i > 0 {
      assert s[1..][i - 1..i - 1 + |t|] == t;
      ContainsAt(s[1..], t, i - 1);
    }
  }

  /** Nothing longer than `s` occurs in it. */
  lemma {:induction false} ShortNotContains(s: string, t: string)
    requires |s| < |t|
    ensures !Contains(s, t)
    decreases |s|
  {
    if |s| > 0 {
      ShortNotContains(s[1..], t);
    }
  }

  lemma {:induction false} ContainsWitness(s: string, t: string) returns (i: nat)
    requires Contains(s, t)
    ensures i + |t| <= |s| && s[i..i + |t|] == t
  {
    if StartsWith(s, t) {
      i := 0;
    } else {
      var j := ContainsWitness(s[1..], t);
      i := j + 1;
      assert s[i..i + |t|] == s[1..][j..j + |t|];
    }
  }

  /** A substring of a slice is a substring of the whole. */
  lemma ContainsInSlice(s: string, lo: nat, hi: nat, t: string)
    requires lo <= hi <= |s| && Contains(s[lo..hi], t)
    ensures Contains(s, t)
  {
    var u := s[lo..hi];
    var j := ContainsWitness(u, t);
    forall k | 0 <= k < |t|
      ensures s[lo + j + k] == t[k]
    {
      assert u[j..j + |t|][k] == t[k];
    }
    assert s[lo + j..lo + j + |t|] == t;
    ContainsAt(s, t, lo + j);
  }

  /** Substring occurrence is transitive. */
  lemma {:induction false} ContainsTransitive(s: string, u: string, t: string)
    requires Contains(s, u) && Contains(u, t)
    ensures Contains(s, t)
  {
    var j := ContainsWitness(s, u);
    assert s[j..j + |u|] == u;
    ContainsInSlice(s, j, j + |u|, t);
  }

  /** A common prefix can be cancelled. */
  lemma PrefixCancel<T>(p: seq<T>, a: seq<T>, b: seq<T>)
    ensures p + a == p + b ==> a == b
  {
    if p + a == p + b {
      assert (p + a)[|p|..] == a;
      assert (p + b)[|p|..] == b;
    }
  }

  /** A common suffix can be cancelled. */
  lemma SuffixCancel<T>(a: seq<T>, b: seq<T>, s: seq<T>)
    ensures a + s == b + s ==> a == b
  {
    if a + s == b + s {
      assert |a| == |b|;
      assert (a + s)[..|a|] == a;
      assert (b + s)[..|b|] == b;
    }
  }

  /** Regrouping `a b c` joined by single spaces. */
  lemma SpacedRegroup(a: string, b: string, c: string)
    ensures a + (" " + (b + (" " + c))) == a + " " + b + " " + c
  {
  }

  lemma SliceOfSlice<T>(s: seq<T>, a: nat, b: nat, c: nat, d: nat)
    requires a <= b <= |s| && c <= d <= b - a
    ensures s[a..b][c..d] == s[a + c..a + d]
  {
    forall j | 0 <= j < d - c
      ensures s[a..b][c..d][j] == s[a + c..a + d][j]
    {
      assert s[a..b][c..d][j] == s[a..b][c + j] == s[a + c + j];
    }
  }

  /** `strip()` as a slice `s[k..k + n]` with only whitespace outside it. */
  lemma {:induction false} TrimIndices(s: string) returns (k: nat, n: nat)
    ensures k + n <= |s| && Trim(s) == s[k..k + n]
    ensures forall i :: 0 <= i < k ==> IsSpace(s[i])
    ensures forall i :: k + n <= i < |s| ==> IsSpace(s[i])
  {
    var l := TrimLeft(s);
    k := |s| - |l|;
    var r := TrimRight(l);
    n := |r|;
    assert l == s[k..];
    assert r == l[..n];
    forall i | k + n <= i < |s|
      ensures IsSpace(s[i])
    {
      assert IsSpace(l[i - k]);
    }
  }

  /** `strip()` keeps every stretch that starts and ends with a non-space character. */
  lemma {:induction false} TrimKeepsInterior(s: string, lo: nat, hi: nat)
    requires lo < hi <= |s| && !IsSpace(s[lo]) && !IsSpace(s[hi - 1])
    ensures Contains(Trim(s), s[lo..hi])
  {
    var k, n := TrimIndices(s);
    InteriorWithin(s, k, n, lo, hi);
  }

  /** A stretch of `s` with non-space ends lies inside any slice that has only whitespace outside it. */
  lemma InteriorWithin(s: string, k: nat, n: nat, lo: nat, hi: nat)
    requires k + n <= |s| && lo < hi <= |s| && !IsSpace(s[lo]) && !IsSpace(s[hi - 1])
    requires forall i :: 0 <= i < k ==> IsSpace(s[i])
    requires forall i :: k + n <= i < |s| ==> IsSpace(s[i])
    ensures Contains(s[k..k + n], s[lo..hi])
  {
    assert k <= lo;
    assert hi <= k + n;
    SliceOfSlice(s, k, k + n, lo - k, hi - k);
    ContainsAt(s[k..k + n], s[lo..hi], lo - k);
  }

  /** Python's `s.find(c)` for one character: the first index of `c`, or -1. */
  function Find(s: string, c: char): (r: int)
    ensures -1 <= r < |s|
    ensures r == -1 <==> c !in s
    ensures r >= 0 ==> s[r] == c && c !in s[..r]
  {
    if |s| == 0 then -1
    else if s[0] == c then 0
    else
      var k := Find(s[1..], c);
      assert s[1..] == s[1..];
      if k == -1 then -1 else
        assert s[..k + 1] == [s[0]] + s[1..][..k];
        k + 1
  }

  /** Python's `s.split(c)` for a one-character separator. */
  function Split(s: string, c: char): (parts: seq<string>)
    ensures |parts| >= 1
    ensures forall i :: 0 <= i < |parts| ==> c !in parts[i]
    decreases |s|
  {
    var k := Find(s, c);
    if k < 0 then [s] else [s[..k]] + Split(s[k + 1..], c)
  }

  /** Python's `sep.join(parts)`. */
  function Join(parts: seq<string>, sep: string): string {
    if |parts| == 0 then ""
    else if |parts| == 1 then parts[0]
    else parts[0] + sep + Join(parts[1..], sep)
  }

  /** Joining the pieces of a split with the separator gives the original string back. */
  lemma {:induction false} JoinSplit(s: string, c: char)
    ensures Join(Split(s, c), [c]) == s
    decreases |s|
  {
    var k := Find(s, c);
    if k >= 0 {
      var rest := s[k + 1..];
      var parts := Split(rest, c);
      assert Split(s, c) == [s[..k]] + parts;
      assert Join([s[..k]] + parts, [c]) == s[..k] + [c] + Join(parts, [c]) by {
        JoinCons(s[..k], parts, [c]);
      }
      assert Join(parts, [c]) == rest by {
        JoinSplit(rest, c);
      }
      CutAt(s, k);
    }
  }

  /** Joining a piece in front of at least one other piece puts the separator between them. */
  lemma JoinCons(x: string, parts: seq<string>, sep: string)
    requires |parts| >= 1
    ensures Join([x] + parts, sep) == x + sep + Join(parts, sep)
  {
    var xs := [x] + parts;
    assert xs[0] == x && xs[1..] == parts;
  }

  /** Cutting `s` around index `k`. */
  lemma CutAt(s: string, k: nat)
    requires k < |s|
    ensures s == s[..k] + [s[k]] + s[k + 1..]
  {
  }

  /** The first occurrence of `c` is at `i` when `s[i]` is `c` and nothing before it is. */
  lemma FindAt(s: string, c: char, i: nat)
    requires i < |s| && s[i] == c && c !in s[..i]
    ensures Find(s, c) == i
  {
    var r := Find(s, c);
    assert c in s;
    forall j | 0 <= j < i
      ensures s[j] != c
    {
      assert s[..i][j] == s[j];
    }
    forall j | 0 <= j < r
      ensures s[j] != c
    {
      assert s[..r][j] == s[j];
    }
  }

  /** Splitting a join of separator-free pieces gives the pieces back. */
  lemma {:induction false} SplitJoin(parts: seq<string>, c: char)
    requires |parts| >= 1
    requires forall i :: 0 <= i < |parts| ==> c !in parts[i]
    ensures Split(Join(parts, [c]), c) == parts
    decreases |parts|
  {
    if |parts| > 1 {
      var p := parts[0];
      var rest := Join(parts[1..], [c]);
      var s := Join(parts, [c]);
      ConsSplit(parts);
      JoinCons(p, parts[1..], [c]);
      assert s == p + [c] + rest;
      assert s[|p|] == c;
      assert s[..|p|] == p;
      FindAt(s, c, |p|);
      assert s[|p| + 1..] == rest;
      assert Split(s, c) == [p] + Split(rest, c);
      SplitJoin(parts[1..], c);
    } else {
      Singleton(parts);
    }
  }

  /** Joining with one more piece appends the separator and the piece. */
  lemma {:induction false} JoinSnoc(parts: seq<string>, x: string, sep: string)
    requires |parts| >= 1
    ensures Join(parts + [x], sep) == Join(parts, sep) + sep + x
    decreases |parts|
  {
    if |parts| > 1 {
      assert (parts + [x])[1..] == parts[1..] + [x];
      JoinSnoc(parts[1..], x, sep);
    } else {
      assert (parts + [x])[1..] == [x];
    }
  }

  /** The non-empty pieces of `s.split(c)`, in order (`[p for p in s.split(c) if p]`). */
  function NonEmptyParts(s: string, c: char): (parts: seq<string>)
    ensures forall i :: 0 <= i < |parts| ==> parts[i] != [] && c !in parts[i]
  {
    FilterNonEmpty(Split(s, c))
  }

  function FilterNonEmpty(xs: seq<string>): (r: seq<string>)
    ensures forall i :: 0 <= i < |r| ==> r[i] != [] && r[i] in xs
    ensures forall x :: x in xs && x != [] ==> x in r
    ensures |r| <= |xs|
  {
    if |xs| == 0 then [] else (if xs[0] != [] then [xs[0]] else []) + FilterNonEmpty(xs[1..])
  }

  /** `s.count(c)` for one character. */
  function Count(s: string, c: char): nat {
    if |s| == 0 then 0 else (if s[0] == c then 1 else 0) + Count(s[1..], c)
  }

  /** `s.replace(a, b)` for one-character `a` and `b`. */
  function ReplaceChar(s: string, a: char, b: char): (r: string)
    ensures |r| == |s|
    ensures forall i :: 0 <= i < |s| ==> r[i] == (if s[i] == a then b else s[i])
  {
    if |s| == 0 then [] else [if s[0] == a then b else s[0]] + ReplaceChar(s[1..], a, b)
  }

  /** No character of `w` is whitespace. */
  predicate SpaceFree(w: string) {
    forall j :: 0 <= j < |w| ==> !IsSpace(w[j])
  }

  /** `s.split()` with no argument: the maximal runs of non-whitespace, in order. */
  function Words(s: string): (ws: seq<string>)
    decreases |s|
  {
    var t := TrimLeft(s);
    if |t| == 0 then []
    else
      var w := WordPrefix(t);
      [w] + Words(t[|w|..])
  }

  /** Every word is non-empty and free of whitespace. */
  lemma {:induction false} WordsShape(s: string)
    ensures forall i :: 0 <= i < |Words(s)| ==> Words(s)[i] != [] && SpaceFree(Words(s)[i])
    decreases |s|
  {
    var t := TrimLeft(s);
    if |t| > 0 {
      var w := WordPrefix(t);
      WordsShape(t[|w|..]);
      WordsCons(w, Words(t[|w|..]));
    }
  }

  lemma WordsCons(w: string, rest: seq<string>)
    requires w != [] && SpaceFree(w)
    requires forall i :: 0 <= i < |rest| ==> rest[i] != [] && SpaceFree(rest[i])
    ensures forall i :: 0 <= i < |[w] + rest| ==> ([w] + rest)[i] != [] && SpaceFree(([w] + rest)[i])
  {
  }

  lemma Singleton<T>(xs: seq<T>)
    requires |xs| == 1
    ensures xs == [xs[0]]
  {
  }

  lemma AppendEmpty<T>(xs: seq<T>)
    ensures xs + [] == xs
  {
  }

  lemma SnocAssoc<T>(xs: seq<T>, ys: seq<T>, e: T)
    ensures xs + ys + [e] == xs + (ys + [e])
  {
  }

  lemma ConsSplit<T>(xs: seq<T>)
    requires |xs| > 0
    ensures xs == [xs[0]] + xs[1..]
  {
  }

  /** The longest whitespace-free prefix of `s`. */
  function WordPrefix(s: string): (w: string)
    ensures |w| <= |s| && w == s[..|w|]
    ensures SpaceFree(w)
    ensures |w| < |s| ==> IsSpace(s[|w|])
    ensures |s| > 0 && !IsSpace(s[0]) ==> |w| > 0
  {
    if |s| == 0 || IsSpace(s[0]) then [] else [s[0]] + WordPrefix(s[1..])
  }

  /** A whitespace-free word followed by whitespace (or nothing) is the word prefix. */
  lemma {:induction false} WordPrefixOf(w: string, rest: string)
    requires w != [] && SpaceFree(w)
    requires rest == [] || IsSpace(rest[0])
    ensures WordPrefix(w + rest) == w
    decreases |w|
  {
    assert (w + rest)[0] == w[0];
    if |w| > 1 {
      WordPrefixOf(w[1..], rest);
      assert (w + rest)[1..] == w[1..] + rest;
    } else {
      assert (w + rest)[1..] == rest;
    }
  }

  /** A whitespace-free word followed by whitespace (or nothing) is the first word. */
  lemma WordsAfterWord(w: string, rest: string)
    requires w != [] && SpaceFree(w)
    requires rest == [] || IsSpace(rest[0])
    ensures Words(w + rest) == [w] + Words(rest)
  {
    var s := w + rest;
    WordPrefixOf(w, rest);
    assert s[0] == w[0];
    assert TrimLeft(s) == s;
    assert s[|w|..] == rest;
    assert Words(rest) == Words(TrimLeft(rest));
  }

  /** One leading space does not change the words of a string. */
  lemma WordsSkipSpace(tail: string)
    requires tail == [] || !IsSpace(tail[0])
    ensures Words(" " + tail) == Words(tail)
  {
    var s := " " + tail;
    assert s[0] == ' ' && IsSpace(' ');
    assert s[1..] == tail;
    TrimLeftNoop(tail);
    assert TrimLeft(s) == tail;
    WordsTrimLeft(s);
  }

  /** A string that does not start with whitespace is its own `lstrip()`. */
  lemma TrimLeftNoop(s: string)
    requires s == [] || !IsSpace(s[0])
    ensures TrimLeft(s) == s
  {
  }

  /** The words of a string are those of its `lstrip()`. */
  lemma WordsTrimLeft(s: string)
    ensures Words(s) == Words(TrimLeft(s))
  {
    TrimLeftNoop(TrimLeft(s));
  }

  lemma WordsJoinOne(ws: seq<string>)
    requires |ws| == 1 && ws[0] != [] && SpaceFree(ws[0])
    ensures Words(Join(ws, " ")) == ws
  {
    var x := ws[0];
    assert Join(ws, " ") == x;
    WordsAfterWord(x, []);
    AppendEmpty(x);
    var e: string := [];
    assert Words(e) == [];
    AppendEmpty([x]);
    Singleton(ws);
  }

  /** `" ".join(ws).split() == ws` for non-empty, whitespace-free words. */
  lemma {:induction false} WordsJoin(ws: seq<string>)
    requires forall i :: 0 <= i < |ws| ==> ws[i] != [] && SpaceFree(ws[i])
    ensures Words(Join(ws, " ")) == ws
    decreases |ws|
  {
    if |ws| == 0 {
      assert Join(ws, " ") == "";
    } else if |ws| == 1 {
      WordsJoinOne(ws);
    } else {
      WordsJoin(ws[1..]);
      WordsJoinMore(ws[0], ws[1..]);
      ConsSplit(ws);
    }
  }

  lemma WordsJoinMore(w: string, rest: seq<string>)
    requires |rest| >= 1 && w != [] && SpaceFree(w)
    requires forall i :: 0 <= i < |rest| ==> rest[i] != [] && SpaceFree(rest[i])
    requires Words(Join(rest, " ")) == rest
    ensures Words(Join([w] + rest, " ")) == [w] + rest
  {
    var tail := Join(rest, " ");
    JoinCons(w, rest, " ");
    JoinHead(rest, " ");
    WordsJoinStep(w, tail, rest);
  }

  /** A word, a space and a string of words without leading whitespace. */
  lemma WordsJoinStep(w: string, tail: string, rest: seq<string>)
    requires w != [] && SpaceFree(w)
    requires tail == [] || !IsSpace(tail[0])
    requires Words(tail) == rest
    ensures Words(w + " " + tail) == [w] + rest
  {
    ConcatAssoc(w, " ", tail);
    WordsSpacedRest(w, tail, rest);
  }

  lemma ConcatAssoc<T>(a: seq<T>, b: seq<T>, c: seq<T>)
    ensures a + b + c == a + (b + c)
  {
  }

  lemma WordsSpacedRest(w: string, tail: string, rest: seq<string>)
    requires w != [] && SpaceFree(w)
    requires tail == [] || !IsSpace(tail[0])
    requires Words(tail) == rest
    ensures Words(w + (" " + tail)) == [w] + rest
  {
    WordsSpaced(w, tail);
  }

  /** The words of a word, a space and a string without leading whitespace. */
  lemma WordsSpaced(w: string, tail: string)
    requires w != [] && SpaceFree(w)
    requires tail == [] || !IsSpace(tail[0])
    ensures Words(w + (" " + tail)) == [w] + Words(tail)
  {
    calc {
      Words(w + (" " + tail));
      { assert (" " + tail)[0] == ' '; WordsAfterWord(w, " " + tail); }
      [w] + Words(" " + tail);
      { WordsSkipSpace(tail); }
      [w] + Words(tail);
    }
  }

  /** A join of non-empty, whitespace-free words does not start with whitespace. */
  lemma JoinHead(ws: seq<string>, sep: string)
    requires forall i :: 0 <= i < |ws| ==> ws[i] != [] && SpaceFree(ws[i])
    ensures var s := Join(ws, sep); s == [] || !IsSpace(s[0])
  {
    if |ws| > 1 {
      assert Join(ws, sep) == ws[0] + sep + Join(ws[1..], sep);
    }
  }

  /** A character missing from `s` is missing from every word of `s`. */
  lemma {:induction false} WordsAvoid(s: string, c: char)
    requires c !in s
    ensures forall i :: 0 <= i < |Words(s)| ==> c !in Words(s)[i]
    decreases |s|
  {
    var t := TrimLeft(s);
    if |t| > 0 {
      var w := WordPrefix(t);
      WordsAvoid(t[|w|..], c);
    }
  }

  /** Every character is already lower case. */
  predicate IsLowered(s: string) {
    forall i :: 0 <= i < |s| ==> LowerChar(s[i]) == s[i]
  }

  /** Lower-casing a lower-case string changes nothing. */
  lemma LowerOfLowered(s: string)
    requires IsLowered(s)
    ensures Lower(s) == s
  {
  }

  /** The words of a lower-case string are lower case. */
  lemma {:induction false} WordsLowered(s: string)
    requires IsLowered(s)
    ensures forall i :: 0 <= i < |Words(s)| ==> IsLowered(Words(s)[i])
    decreases |s|
  {
    var t := TrimLeft(s);
    if |t| > 0 {
      var w := WordPrefix(t);
      var rest := t[|w|..];
      LoweredSlice(s, |s| - |t|, |s|);
      LoweredSlice(t, 0, |w|);
      LoweredSlice(t, |w|, |t|);
      WordsLowered(rest);
      LoweredCons(w, Words(rest));
    }
  }

  lemma LoweredSlice(s: string, i: nat, j: nat)
    requires IsLowered(s) && i <= j <= |s|
    ensures IsLowered(s[i..j])
  {
    assert forall k :: 0 <= k < j - i ==> s[i..j][k] == s[i + k];
  }

  lemma LoweredCons(w: string, rest: seq<string>)
    requires IsLowered(w) && forall i :: 0 <= i < |rest| ==> IsLowered(rest[i])
    ensures forall i :: 0 <= i < |[w] + rest| ==> IsLowered(([w] + rest)[i])
  {
  }

  /** Joining lower-case words with a lower-case separator gives a lower-case string. */
  lemma {:induction false} JoinLowered(ws: seq<string>, sep: string)
    requires IsLowered(sep) && forall i :: 0 <= i < |ws| ==> IsLowered(ws[i])
    ensures IsLowered(Join(ws, sep))
    decreases |ws|
  {
    if |ws| > 1 {
      JoinLowered(ws[1..], sep);
    }
  }

  function LowerChar(c: char): char {
    if 'A' <= c <= 'Z' then (c as int + 32) as char else c
  }

  function UpperChar(c: char): char {
    if 'a' <= c <= 'z' then (c as int - 32) as char else c
  }

  /** `s.lower()` (ASCII letters only). */
  function Lower(s: string): (r: string)
    ensures |r| == |s|
    ensures forall i :: 0 <= i < |s| ==> r[i] == LowerChar(s[i])
  {
    if |s| == 0 then [] else [LowerChar(s[0])] + Lower(s[1..])
  }

  /** `s.capitalize()` (ASCII letters only): first character upper case, the rest lower case. */
  function Capitalize(s: string): (r: string)
    ensures |r| == |s|
  {
    if |s| == 0 then [] else [UpperChar(s[0])] + Lower(s[1..])
  }

  predicate IsDigit(c: char) {
    '0' <= c <= '9'
  }

  /** `s.isdigit()` (ASCII digits only): non-empty and every character a digit. */
  predicate IsAllDigits(s: string) {
    |s| > 0 && forall i :: 0 <= i < |s| ==> IsDigit(s[i])
  }

  function DigitChar(d: nat): char
    requires d < 10
  {
    ['0', '1', '2', '3', '4', '5', '6', '7', '8', '9'][d]
  }

  /** Python's `str(n)` for a natural number. */
  function NatToString(n: nat): (s: string)
    ensures IsAllDigits(s)
    ensures |s| == 1 || s[0] != '0'
    decreases n
  {
    if n < 10 then [DigitChar(n)] else NatToString(n / 10) + [DigitChar(n % 10)]
  }

  /** The value of a string of decimal digits. */
  function DigitsValue(s: string): nat
    requires forall i :: 0 <= i < |s| ==> IsDigit(s[i])
  {
    if |s| == 0 then 0
    else
      assert IsDigit(s[|s| - 1]);
      DigitsValue(s[..|s| - 1]) * 10 + (s[|s| - 1] as int - '0' as int)
  }

  /** Reading back a printed natural number gives the number. */
  lemma {:induction false} NatToStringValue(n: nat)
    ensures DigitsValue(NatToString(n)) == n
    decreases n
  {
    var s := NatToString(n);
    if n >= 10 {
      NatToStringValue(n / 10);
      assert s[..|s| - 1] == NatToString(n / 10);
    }
  }

  /** Printing natural numbers is injective. */
  lemma NatToStringInjective(m: nat, n: nat)
    requires NatToString(m) == NatToString(n)
    ensures m == n
  {
    NatToStringValue(m);
    NatToStringValue(n);
  }

  /** Python's `str(i)` for any integer. */
  function IntToString(i: int): string {
    if i < 0 then "-" + NatToString(-i) else NatToString(i)
  }

  /** Python's `a < b` on strings: lexicographic order on code points. */
  predicate LexLess(a: string, b: string)
    decreases |a|
  {
    if |a| == 0 then |b| > 0
    else if |b| == 0 then false
    else if a[0] != b[0] then a[0] < b[0]
    else LexLess(a[1..], b[1..])
  }

  lemma {:induction false} LexLessIrreflexive(a: string)
    ensures !LexLess(a, a)
  {
    if |a| > 0 {
      LexLessIrreflexive(a[1..]);
    }
  }

  lemma {:induction false} LexLessAsymmetric(a: string, b: string)
    requires LexLess(a, b)
    ensures !LexLess(b, a)
  {
    if |a| > 0 && |b| > 0 && a[0] == b[0] {
      LexLessAsymmetric(a[1..], b[1..]);
    }
  }

  lemma {:induction false} LexLessTransitive(a: string, b: string, c: string)
    requires LexLess(a, b) && LexLess(b, c)
    ensures LexLess(a, c)
  {
    if |a| > 0 && |b| > 0 && |c| > 0 && a[0] == b[0] && b[0] == c[0] {
      LexLessTransitive(a[1..], b[1..], c[1..]);
    }
  }

  lemma {:induction false} LexLessTotal(a: string, b: string)
    requires a != b
    ensures LexLess(a, b) || LexLess(b, a)
  {
    if |a| > 0 && |b| > 0 && a[0] == b[0] {
      assert a == [a[0]] + a[1..] && b == [b[0]] + b[1..];
      LexLessTotal(a[1..], b[1..]);
    }
  }
}
