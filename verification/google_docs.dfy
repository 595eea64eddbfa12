/**
  Rendering generated document content as one Docs `batchUpdate`: every line is inserted as a
  single text at index 1, then paragraph styles and bullet lists are applied to index ranges
  computed from the line lengths.
*/
module GoogleDocs {
  import opened Wrappers

  datatype DocSection = DocSection(heading: string, paragraphs: seq<string>, bullets: seq<string>)

  datatype DocContent = DocContent(title: string, summary: string, sections: seq<DocSection>, metadata: seq<string>)

  datatype Style = Title | Heading2

  datatype Line = Line(text: string, style: Option<Style>, bullet: bool)

  /** Half-open on neither side: `end` is the index of the line's newline. */
  datatype Range = Range(start: int, end: int, style: Option<Style>)

  datatype Request =
    | InsertText(index: int, text: string)
    | UpdateParagraphStyle(startIndex: int, endIndex: int, namedStyle: Style)
    | CreateParagraphBullets(startIndex: int, endIndex: int)

  // ----- The line layout -----

  function Plain(texts: seq<string>): (ls: seq<Line>)
    ensures |ls| == |texts|
    ensures forall i :: 0 <= i < |texts| ==> ls[i] == Line(texts[i], None, false)
  {
    seq(|texts|, i requires 0 <= i < |texts| => Line(texts[i], None, false))
  }

  function Bullets(texts: seq<string>): (ls: seq<Line>)
    ensures |ls| == |texts|
    ensures forall i :: 0 <= i < |texts| ==> ls[i] == Line(texts[i], None, true)
  {
    seq(|texts|, i requires 0 <= i < |texts| => Line(texts[i], None, true))
  }

  const Blank := Line("", None, false)

  /** A section: its heading, paragraphs, bullets and a closing blank line. */
  function SectionLines(s: DocSection): (ls: seq<Line>)
    ensures |ls| == |s.paragraphs| + |s.bullets| + 2
    ensures ls[0] == Line(s.heading, Some(Heading2), false) && ls[|ls| - 1] == Blank
  {
    [Line(s.heading, Some(Heading2), false)] + Plain(s.paragraphs) + Bullets(s.bullets) + [Blank]
  }

  function SectionsLines(sections: seq<DocSection>): seq<Line> {
    if |sections| == 0 then [] else SectionsLines(sections[..|sections| - 1]) + SectionLines(sections[|sections| - 1])
  }

  /** The lines `build_doc_requests` lays out: title, summary, blank, sections, metadata. */
  function Lines(c: DocContent): (ls: seq<Line>)
    ensures |ls| >= 3
    ensures ls[0] == Line(c.title, Some(Title), false)
    ensures ls[1] == Line(c.summary, None, false) && ls[2] == Blank
  {
    [Line(c.title, Some(Title), false), Line(c.summary, None, false), Blank]
      + SectionsLines(c.sections) + Plain(c.metadata)
  }

  // ----- Index arithmetic -----

  /** The inserted text: every line followed by a newline. */
  function Rendered(lines: seq<Line>): string {
    if |lines| == 0 then "" else Rendered(lines[..|lines| - 1]) + lines[|lines| - 1].text + "\n"
  }

  /** Where line `i` starts once the text is inserted at index 1. */
  function Start(lines: seq<Line>, i: nat): int
    requires i <= |lines|
  {
    1 + |Rendered(lines[..i])|
  }

  /** The index of line `i`'s newline. */
  function End(lines: seq<Line>, i: nat): int
    requires i < |lines|
  {
    Start(lines, i) + |lines[i].text|
  }

  function LineRange(lines: seq<Line>, i: nat): Range
    requires i < |lines|
  {
    Range(Start(lines, i), End(lines, i), lines[i].style)
  }

  /** Lines are laid out back to back from index 1. */
  lemma Contiguous(lines: seq<Line>, i: nat)
    requires i + 1 < |lines|
    ensures Start(lines, 0) == 1
    ensures Start(lines, i + 1) == End(lines, i) + 1
  {
    assert lines[..0] == [];
    assert lines[..i + 1][..i] == lines[..i];
  }

  /** A longer list of lines renders to an extension of the text. */
  lemma {:induction false} RenderedPrefix(lines: seq<Line>, k: nat)
    requires k <= |lines|
    ensures |Rendered(lines[..k])| <= |Rendered(lines)|
    ensures Rendered(lines)[..|Rendered(lines[..k])|] == Rendered(lines[..k])
    decreases |lines| - k
  {
    if k < |lines| {
      RenderedPrefix(lines, k + 1);
      assert lines[..k + 1][..k] == lines[..k];
      var a := Rendered(lines[..k]);
      var b := Rendered(lines[..k + 1]);
      assert b == a + lines[k].text + "\n";
      assert b[..|a|] == a;
    } else {
      assert lines[..k] == lines;
    }
  }

  /** Each line's range covers exactly its text in the document, and its end is the newline. */
  lemma LineText(lines: seq<Line>, i: nat)
    requires i < |lines|
    ensures var t := Rendered(lines);
      && 1 <= Start(lines, i) <= End(lines, i) <= |t|
      && t[Start(lines, i) - 1..End(lines, i) - 1] == lines[i].text
      && t[End(lines, i) - 1] == '\n'
  {
    RenderedPrefix(lines, i + 1);
    PrefixOfPrefix(lines, i, i + 1);
    var a := Rendered(lines[..i]);
    assert Rendered(lines[..i + 1]) == a + lines[i].text + "\n";
    PieceAt(Rendered(lines), a, lines[i].text, "\n");
  }

  lemma PrefixOfPrefix<T>(s: seq<T>, i: nat, j: nat)
    requires i <= j <= |s|
    ensures s[..j][..i] == s[..i]
  {
  }

  /** Where a prefix of `t` is `a + x + y`, `x` sits right after `a` and `y` right after `x`. */
  lemma PieceAt<T>(t: seq<T>, a: seq<T>, x: seq<T>, y: seq<T>)
    requires |a + x + y| <= |t| && t[..|a + x + y|] == a + x + y
    ensures t[|a|..|a| + |x|] == x
    ensures |y| > 0 ==> t[|a| + |x|] == y[0]
  {
    assert t[|a|..|a| + |x|] == (a + x + y)[|a|..|a| + |x|];
  }

  // ----- Bullet runs -----

  /** `run` is a maximal block of consecutive bullet lines among the first `n` lines. */
  predicate RunIn(lines: seq<Line>, n: nat, run: (nat, nat)) {
    && run.0 < run.1 <= n <= |lines|
    && (forall i :: run.0 <= i < run.1 ==> lines[i].bullet)
    && (run.0 == 0 || !lines[run.0 - 1].bullet)
    && (run.1 == n || !lines[run.1].bullet)
  }

  /** `runs` lists, in order, exactly the maximal bullet blocks of the first `n` lines. */
  predicate MaximalRuns(lines: seq<Line>, n: nat, runs: seq<(nat, nat)>) {
    n <= |lines| && RunsIn(lines, n, runs) && RunsApart(runs) && RunsCover(lines, n, runs)
  }

  /** Every listed run is a maximal bullet block of the first `n` lines. */
  predicate RunsIn(lines: seq<Line>, n: nat, runs: seq<(nat, nat)>) {
    forall r :: 0 <= r < |runs| ==> RunIn(lines, n, runs[r])
  }

  /** The runs are listed in order, without overlap. */
  predicate RunsApart(runs: seq<(nat, nat)>) {
    forall r, q :: 0 <= r < q < |runs| ==> runs[r].1 < runs[q].0
  }

  /** Every bullet line among the first `n` lies in a listed run. */
  predicate RunsCover(lines: seq<Line>, n: nat, runs: seq<(nat, nat)>) {
    forall i :: 0 <= i < n && i < |lines| && lines[i].bullet ==> exists r :: 0 <= r < |runs| && runs[r].0 <= i < runs[r].1
  }

  /** The text range a run of lines covers: first line's start to last line's newline. */
  function RunRanges(lines: seq<Line>, runs: seq<(nat, nat)>): (rs: seq<Range>)
    requires forall r :: 0 <= r < |runs| ==> runs[r].0 < runs[r].1 <= |lines|
    ensures |rs| == |runs|
  {
    seq(|runs|, r requires 0 <= r < |runs| => Range(Start(lines, runs[r].0), End(lines, runs[r].1 - 1), None))
  }

  lemma StartRun(lines: seq<Line>, k: nat, runs: seq<(nat, nat)>)
    requires k < |lines| && lines[k].bullet && (k == 0 || !lines[k - 1].bullet)
    requires MaximalRuns(lines, k, runs)
    ensures MaximalRuns(lines, k + 1, runs + [(k, k + 1)])
  {
    StartRunsIn(lines, k, runs);
    StartRunsApart(lines, k, runs);
    StartRunsCover(lines, k, runs);
  }

  lemma StartRunsIn(lines: seq<Line>, k: nat, runs: seq<(nat, nat)>)
    requires k < |lines| && lines[k].bullet && (k == 0 || !lines[k - 1].bullet)
    requires RunsIn(lines, k, runs)
    ensures RunsIn(lines, k + 1, runs + [(k, k + 1)])
  {
    var runs' := runs + [(k, k + 1)];
    forall r | 0 <= r < |runs'|
      ensures RunIn(lines, k + 1, runs'[r])
    {
      if r < |runs| {
        assert runs'[r] == runs[r] && RunIn(lines, k, runs[r]);
      }
    }
  }

  lemma StartRunsApart(lines: seq<Line>, k: nat, runs: seq<(nat, nat)>)
    requires k < |lines| && (k == 0 || !lines[k - 1].bullet)
    requires RunsIn(lines, k, runs) && RunsApart(runs)
    ensures RunsApart(runs + [(k, k + 1)])
  {
    var runs' := runs + [(k, k + 1)];
    forall r | 0 <= r < |runs|
      ensures runs[r].1 < k
    {
      assert RunIn(lines, k, runs[r]);
      assert lines[runs[r].1 - 1].bullet;
    }
    forall r, q | 0 <= r < q < |runs'|
      ensures runs'[r].1 < runs'[q].0
    {
      assert runs'[r] == runs[r];
    }
  }

  lemma StartRunsCover(lines: seq<Line>, k: nat, runs: seq<(nat, nat)>)
    requires k < |lines| && RunsCover(lines, k, runs)
    ensures RunsCover(lines, k + 1, runs + [(k, k + 1)])
  {
    var runs' := runs + [(k, k + 1)];
    forall i | 0 <= i < k + 1 && i < |lines| && lines[i].bullet
      ensures exists r :: 0 <= r < |runs'| && runs'[r].0 <= i < runs'[r].1
    {
      if i == k {
        assert runs'[|runs|].0 <= i < runs'[|runs|].1;
      } else {
        var r :| 0 <= r < |runs| && runs[r].0 <= i < runs[r].1;
        assert runs'[r] == runs[r];
      }
    }
  }

  lemma ExtendRun(lines: seq<Line>, k: nat, runs: seq<(nat, nat)>, a: nat)
    requires k < |lines| && lines[k].bullet && a < k
    requires MaximalRuns(lines, k, runs + [(a, k)])
    ensures MaximalRuns(lines, k + 1, runs + [(a, k + 1)])
  {
    ExtendRunsIn(lines, k, runs, a);
    ExtendRunsApart(runs, a, k);
    ExtendRunsCover(lines, k, runs, a);
  }

  lemma ExtendRunsIn(lines: seq<Line>, k: nat, runs: seq<(nat, nat)>, a: nat)
    requires k < |lines| && lines[k].bullet && a < k
    requires RunsIn(lines, k, runs + [(a, k)]) && RunsApart(runs + [(a, k)])
    ensures RunsIn(lines, k + 1, runs + [(a, k + 1)])
  {
    var before := runs + [(a, k)];
    var runs' := runs + [(a, k + 1)];
    assert RunIn(lines, k, before[|runs|]);
    forall r | 0 <= r < |runs'|
      ensures RunIn(lines, k + 1, runs'[r])
    {
      if r < |runs| {
        assert RunIn(lines, k, before[r]);
        assert before[r] == runs'[r];
        assert before[r].1 < before[|runs|].0;
      }
    }
  }

  lemma ExtendRunsApart(runs: seq<(nat, nat)>, a: nat, k: nat)
    requires RunsApart(runs + [(a, k)])
    ensures RunsApart(runs + [(a, k + 1)])
  {
    var before := runs + [(a, k)];
    var runs' := runs + [(a, k + 1)];
    forall r, q | 0 <= r < q < |runs'|
      ensures runs'[r].1 < runs'[q].0
    {
      assert before[r].1 < before[q].0;
    }
  }

  lemma ExtendRunsCover(lines: seq<Line>, k: nat, runs: seq<(nat, nat)>, a: nat)
    requires k < |lines| && a < k
    requires RunsCover(lines, k, runs + [(a, k)])
    ensures RunsCover(lines, k + 1, runs + [(a, k + 1)])
  {
    var before := runs + [(a, k)];
    var runs' := runs + [(a, k + 1)];
    forall i | 0 <= i < k + 1 && i < |lines| && lines[i].bullet
      ensures exists r :: 0 <= r < |runs'| && runs'[r].0 <= i < runs'[r].1
    {
      if i == k {
        assert runs'[|runs|].0 <= i < runs'[|runs|].1;
      } else {
        var r :| 0 <= r < |before| && before[r].0 <= i < before[r].1;
        assert runs'[r].0 <= i < runs'[r].1;
      }
    }
  }

  lemma CloseRuns(lines: seq<Line>, k: nat, runs: seq<(nat, nat)>)
    requires k < |lines| && !lines[k].bullet
    requires MaximalRuns(lines, k, runs)
    ensures MaximalRuns(lines, k + 1, runs)
  {
    forall r | 0 <= r < |runs|
      ensures RunIn(lines, k + 1, runs[r])
    {
      assert RunIn(lines, k, runs[r]);
    }
    assert RunsCover(lines, k + 1, runs);
  }

  /** The run still open after `k` lines, as a closed block ending at `k`. */
  function OpenRun(open: Option<nat>, k: nat): seq<(nat, nat)> {
    if open.Some? then [(open.value, k)] else []
  }

  /** The bookkeeping `_render_lines` keeps about bullet blocks after `k` lines. */
  predicate RunState(lines: seq<Line>, k: nat, runs: seq<(nat, nat)>, open: Option<nat>) {
    && k <= |lines|
    && (open.Some? <==> k > 0 && lines[k - 1].bullet)
    && (open.Some? ==> open.value < k)
    && (forall r :: 0 <= r < |runs| ==> runs[r].0 < runs[r].1 <= k)
    && MaximalRuns(lines, k, runs + OpenRun(open, k))
  }

  /** One more line: a bullet opens or extends the block, any other line closes it. */
  lemma {:induction false} RunStep(lines: seq<Line>, k: nat, runs: seq<(nat, nat)>, open: Option<nat>)
    returns (runs': seq<(nat, nat)>, open': Option<nat>)
    requires k < |lines| && RunState(lines, k, runs, open)
    ensures RunState(lines, k + 1, runs', open')
    ensures lines[k].bullet ==> runs' == runs && open' == (if open.Some? then open else Some(k))
    ensures !lines[k].bullet ==> runs' == runs + OpenRun(open, k) && open' == None
  {
    if lines[k].bullet {
      runs' := runs;
      if open.None? {
        assert runs + OpenRun(open, k) == runs;
        StartRun(lines, k, runs);
        open' := Some(k);
      } else {
        ExtendRun(lines, k, runs, open.value);
        open' := open;
      }
    } else {
      CloseRuns(lines, k, runs + OpenRun(open, k));
      runs' := runs + OpenRun(open, k);
      open' := None;
      assert runs' + OpenRun(open', k + 1) == runs';
    }
  }

  /** Closing a block adds its range at the end. */
  lemma RunRangesSnoc(lines: seq<Line>, runs: seq<(nat, nat)>, a: nat, b: nat)
    requires forall r :: 0 <= r < |runs| ==> runs[r].0 < runs[r].1 <= |lines|
    requires a < b <= |lines|
    ensures RunRanges(lines, runs + [(a, b)]) == RunRanges(lines, runs) + [Range(Start(lines, a), End(lines, b - 1), None)]
  {
  }

  /** The loop variables of `_render_lines`. */
  datatype Render = Render(
    text: string, cursor: int, lineRanges: seq<Range>, bulletRanges: seq<Range>,
    bulletStart: Option<int>, bulletEnd: Option<int>)

  const Empty := Render("", 1, [], [], None, None)

  /** One iteration of the loop over lines. */
  function RenderLine(st: Render, line: Line): (r: Render)
    ensures |r.lineRanges| == |st.lineRanges| + 1
  {
    var lineStart := st.cursor;
    var cursor := st.cursor + |line.text| + 1;
    var lineEnd := cursor - 1;
    var lineRanges := st.lineRanges + [Range(lineStart, lineEnd, line.style)];
    if line.bullet then
      Render(st.text + line.text + "\n", cursor, lineRanges, st.bulletRanges,
             if st.bulletStart.None? then Some(lineStart) else st.bulletStart, Some(lineEnd))
    else
      Render(st.text + line.text + "\n", cursor, lineRanges, Flush(st), None, None)
  }

  /** The bullet ranges once an open block, if any, is closed. */
  function Flush(st: Render): seq<Range> {
    if st.bulletStart.Some? && st.bulletEnd.Some? then
      st.bulletRanges + [Range(st.bulletStart.value, st.bulletEnd.value, None)]
    else st.bulletRanges
  }

  /** What the loop variables mean after the first `k` lines. */
  ghost predicate Rendering(lines: seq<Line>, k: nat, st: Render, runs: seq<(nat, nat)>, open: Option<nat>) {
    && RunState(lines, k, runs, open)
    && st.text == Rendered(lines[..k]) && st.cursor == 1 + |st.text|
    && |st.lineRanges| == k
    && (forall i :: 0 <= i < k ==> st.lineRanges[i] == LineRange(lines, i))
    && st.bulletStart == (if open.Some? then Some(Start(lines, open.value)) else None)
    && st.bulletEnd == (if open.Some? then Some(End(lines, k - 1)) else None)
    && st.bulletRanges == RunRanges(lines, runs)
  }

  lemma RenderingEmpty(lines: seq<Line>)
    ensures Rendering(lines, 0, Empty, [], None)
  {
    assert lines[..0] == [];
  }

  lemma RenderLineText(lines: seq<Line>, k: nat, st: Render)
    requires k < |lines| && st.text == Rendered(lines[..k]) && st.cursor == 1 + |st.text|
    requires |st.lineRanges| == k && forall i :: 0 <= i < k ==> st.lineRanges[i] == LineRange(lines, i)
    ensures var r := RenderLine(st, lines[k]);
      && r.text == Rendered(lines[..k + 1]) && r.cursor == 1 + |r.text|
      && forall i :: 0 <= i < k + 1 ==> r.lineRanges[i] == LineRange(lines, i)
  {
    assert lines[..k + 1][..k] == lines[..k];
    assert Start(lines, k) == st.cursor;
  }

  lemma RenderLineBullets(lines: seq<Line>, k: nat, st: Render, runs: seq<(nat, nat)>, open: Option<nat>,
                          runs': seq<(nat, nat)>, open': Option<nat>)
    requires k < |lines| && st.cursor == Start(lines, k)
    requires forall r :: 0 <= r < |runs| ==> runs[r].0 < runs[r].1 <= k
    requires open.Some? ==> open.value < k
    requires st.bulletStart == (if open.Some? then Some(Start(lines, open.value)) else None)
    requires st.bulletEnd == (if open.Some? then Some(End(lines, k - 1)) else None)
    requires st.bulletRanges == RunRanges(lines, runs)
    requires lines[k].bullet ==> runs' == runs && open' == (if open.Some? then open else Some(k))
    requires !lines[k].bullet ==> runs' == runs + OpenRun(open, k) && open' == None
    ensures var r := RenderLine(st, lines[k]);
      && r.bulletStart == (if open'.Some? then Some(Start(lines, open'.value)) else None)
      && r.bulletEnd == (if open'.Some? then Some(End(lines, k)) else None)
      && r.bulletRanges == RunRanges(lines, runs')
  {
    if !lines[k].bullet && open.Some? {
      RunRangesSnoc(lines, runs, open.value, k);
    }
  }

  /** Each iteration keeps the meaning of the loop variables. */
  lemma RenderLineStep(lines: seq<Line>, k: nat, st: Render, runs: seq<(nat, nat)>, open: Option<nat>)
    returns (runs': seq<(nat, nat)>, open': Option<nat>)
    requires k < |lines| && Rendering(lines, k, st, runs, open)
    ensures Rendering(lines, k + 1, RenderLine(st, lines[k]), runs', open')
  {
    RenderLineText(lines, k, st);
    runs', open' := RunStep(lines, k, runs, open);
    assert lines[..k + 1][..k] == lines[..k];
    RenderLineBullets(lines, k, st, runs, open, runs', open');
  }

  /** Closing the block still open after the last line completes the maximal blocks. */
  lemma FlushAll(lines: seq<Line>, st: Render, runs: seq<(nat, nat)>, open: Option<nat>)
    requires Rendering(lines, |lines|, st, runs, open)
    ensures MaximalRuns(lines, |lines|, runs + OpenRun(open, |lines|))
    ensures Flush(st) == RunRanges(lines, runs + OpenRun(open, |lines|))
  {
    if open.Some? {
      RunRangesSnoc(lines, runs, open.value, |lines|);
    } else {
      assert runs + OpenRun(open, |lines|) == runs;
    }
  }

  /**
    `_render_lines`: the text to insert, one range per line, and one range per maximal block of
    bullet lines.
  */
  method RenderLines(lines: seq<Line>) returns (text: string, lineRanges: seq<Range>, bulletRanges: seq<Range>)
    ensures text == Rendered(lines)
    ensures |lineRanges| == |lines|
    ensures forall i :: 0 <= i < |lines| ==> lineRanges[i] == LineRange(lines, i)
    ensures exists runs :: MaximalRuns(lines, |lines|, runs) && bulletRanges == RunRanges(lines, runs)
  {
    var st := Empty;
    ghost var runs: seq<(nat, nat)> := [];
    ghost var open: Option<nat> := None;
    RenderingEmpty(lines);
    for k := 0 to |lines|
      invariant Rendering(lines, k, st, runs, open)
    {
      runs, open := RenderLineStep(lines, k, st, runs, open);
      st := RenderLine(st, lines[k]);
    }
    assert lines[..|lines|] == lines;
    FlushAll(lines, st, runs, open);
    text, lineRanges, bulletRanges := st.text, st.lineRanges, Flush(st);
  }

  // ----- Requests -----

  /** One paragraph-style request per styled line among the first `n`, in line order. */
  function StyleRequests(lines: seq<Line>, n: nat): (rs: seq<Request>)
    requires n <= |lines|
    ensures forall j :: 0 <= j < |rs| ==> rs[j].UpdateParagraphStyle?
  {
    if n == 0 then []
    else
      StyleRequests(lines, n - 1)
        + match lines[n - 1].style
          case None => []
          case Some(s) => [UpdateParagraphStyle(Start(lines, n - 1), End(lines, n - 1), s)]
  }

  function BulletRequests(ranges: seq<Range>): (rs: seq<Request>)
    ensures |rs| == |ranges|
    ensures forall j :: 0 <= j < |rs| ==> rs[j] == CreateParagraphBullets(ranges[j].start, ranges[j].end)
  {
    seq(|ranges|, j requires 0 <= j < |ranges| => CreateParagraphBullets(ranges[j].start, ranges[j].end))
  }

  /** The styled ranges, skipping lines without a style, as the request loop emits them. */
  method StyleLoop(lines: seq<Line>, lineRanges: seq<Range>) returns (rs: seq<Request>)
    requires |lineRanges| == |lines|
    requires forall i :: 0 <= i < |lines| ==> lineRanges[i] == LineRange(lines, i)
    ensures rs == StyleRequests(lines, |lines|)
  {
    rs := [];
    for i := 0 to |lineRanges|
      invariant rs == StyleRequests(lines, i)
    {
      var line := lineRanges[i];
      if line.style.None? {
        continue;
      }
      rs := rs + [UpdateParagraphStyle(line.start, line.end, line.style.value)];
    }
  }

  /**
    `build_doc_requests`: insert the whole text at index 1, then style the title and headings,
    then turn every maximal block of bullet lines into one bulleted list.
  */
  method BuildDocRequests(c: DocContent) returns (requests: seq<Request>)
    ensures var lines := Lines(c); var m := |StyleRequests(lines, |lines|)|;
      && |requests| >= 1 + m
      && requests[0] == InsertText(1, Rendered(lines))
      && requests[1..1 + m] == StyleRequests(lines, |lines|)
      && exists runs :: MaximalRuns(lines, |lines|, runs)
                        && requests[1 + m..] == BulletRequests(RunRanges(lines, runs))
  {
    var lines := Lines(c);
    var text, lineRanges, bulletRanges := RenderLines(lines);
    var styles := StyleLoop(lines, lineRanges);
    requests := [InsertText(1, text)] + styles + BulletRequests(bulletRanges);
    assert requests[1..1 + |styles|] == styles;
    assert requests[1 + |styles|..] == BulletRequests(bulletRanges);
  }

  // ----- What the requests style -----

  /** How many lines carry a paragraph style. */
  function StyledCount(ls: seq<Line>): nat {
    if |ls| == 0 then 0
    else StyledCount(ls[..|ls| - 1]) + (if ls[|ls| - 1].style.Some? then 1 else 0)
  }

  lemma {:induction false} StyledCountConcat(a: seq<Line>, b: seq<Line>)
    ensures StyledCount(a + b) == StyledCount(a) + StyledCount(b)
    decreases |b|
  {
    if |b| == 0 {
      assert a + b == a;
    } else {
      assert (a + b)[..|a + b| - 1] == a + b[..|b| - 1];
      StyledCountConcat(a, b[..|b| - 1]);
    }
  }

  lemma {:induction false} UnstyledCount(ls: seq<Line>)
    requires forall i :: 0 <= i < |ls| ==> ls[i].style.None?
    ensures StyledCount(ls) == 0
  {
    if |ls| > 0 {
      UnstyledCount(ls[..|ls| - 1]);
    }
  }

  lemma SectionStyledCount(s: DocSection)
    ensures StyledCount(SectionLines(s)) == 1
  {
    var h := [Line(s.heading, Some(Heading2), false)];
    UnstyledCount(Plain(s.paragraphs));
    UnstyledCount(Bullets(s.bullets));
    UnstyledCount([Blank]);
    UnstyledCount([]);
    assert h == [] + h;
    StyledCountConcat([], h);
    StyledCountConcat(h, Plain(s.paragraphs));
    StyledCountConcat(h + Plain(s.paragraphs), Bullets(s.bullets));
    StyledCountConcat(h + Plain(s.paragraphs) + Bullets(s.bullets), [Blank]);
  }

  lemma {:induction false} SectionsStyledCount(sections: seq<DocSection>)
    ensures StyledCount(SectionsLines(sections)) == |sections|
  {
    if |sections| > 0 {
      var init := sections[..|sections| - 1];
      SectionsStyledCount(init);
      SectionStyledCount(sections[|sections| - 1]);
      StyledCountConcat(SectionsLines(init), SectionLines(sections[|sections| - 1]));
    }
  }

  lemma {:induction false} StyleRequestsCount(lines: seq<Line>, n: nat)
    requires n <= |lines|
    ensures |StyleRequests(lines, n)| == StyledCount(lines[..n])
  {
    if n > 0 {
      StyleRequestsCount(lines, n - 1);
      assert lines[..n][..n - 1] == lines[..n - 1];
    }
  }

  /** Exactly the title and the section headings are styled: one request each. */
  lemma StyleRequestsPerHeading(c: DocContent)
    ensures var lines := Lines(c); |StyleRequests(lines, |lines|)| == 1 + |c.sections|
  {
    var lines := Lines(c);
    var head := [Line(c.title, Some(Title), false), Line(c.summary, None, false), Blank];
    StyleRequestsCount(lines, |lines|);
    assert lines[..|lines|] == lines;
    assert StyledCount(head) == 1 by {
      var t := [head[0]];
      assert t[..0] == [];
      UnstyledCount(head[1..]);
      assert head == t + head[1..];
      StyledCountConcat(t, head[1..]);
    }
    SectionsStyledCount(c.sections);
    UnstyledCount(Plain(c.metadata));
    StyledCountConcat(head, SectionsLines(c.sections));
    StyledCountConcat(head + SectionsLines(c.sections), Plain(c.metadata));
  }

  lemma {:induction false} StyleRequestsPrefix(lines: seq<Line>, a: nat, b: nat)
    requires a <= b <= |lines|
    ensures |StyleRequests(lines, a)| <= |StyleRequests(lines, b)|
    ensures StyleRequests(lines, b)[..|StyleRequests(lines, a)|] == StyleRequests(lines, a)
    decreases b - a
  {
    if a < b {
      StyleRequestsPrefix(lines, a, b - 1);
      var x := StyleRequests(lines, a);
      var y := StyleRequests(lines, b - 1);
      assert StyleRequests(lines, b)[..|y|] == y;
      assert y[..|x|] == x;
    }
  }

  /** The first style request makes the title line, which starts at index 1, a TITLE. */
  lemma TitleStyledFirst(c: DocContent)
    ensures var lines := Lines(c); var rs := StyleRequests(lines, |lines|);
      |rs| > 0 && rs[0] == UpdateParagraphStyle(1, 1 + |c.title|, Title)
  {
    var lines := Lines(c);
    StyleRequestsPrefix(lines, 1, |lines|);
    assert lines[..0] == [];
    assert StyleRequests(lines, 1) == [UpdateParagraphStyle(1, 1 + |c.title|, Title)];
  }

  // ----- Which lines are bullets -----

  lemma {:induction false} SectionsWithoutBullets(sections: seq<DocSection>)
    requires forall j :: 0 <= j < |sections| ==> sections[j].bullets == []
    ensures forall i :: 0 <= i < |SectionsLines(sections)| ==> !SectionsLines(sections)[i].bullet
  {
    if |sections| > 0 {
      SectionsWithoutBullets(sections[..|sections| - 1]);
      var s := sections[|sections| - 1];
      assert SectionLines(s) == [Line(s.heading, Some(Heading2), false)] + Plain(s.paragraphs) + [Blank];
    }
  }

  /** The first block, or an empty one when there is none. */
  function FirstRun(runs: seq<(nat, nat)>): (nat, nat) {
    if |runs| > 0 then runs[0] else (0, 0)
  }

  /** A document whose sections have no bullets gets no bulleted lists at all. */
  lemma NoBulletsNoLists(c: DocContent, runs: seq<(nat, nat)>)
    requires forall j :: 0 <= j < |c.sections| ==> c.sections[j].bullets == []
    requires MaximalRuns(Lines(c), |Lines(c)|, runs)
    ensures runs == []
  {
    var lines := Lines(c);
    SectionsWithoutBullets(c.sections);
    assert forall i :: 0 <= i < |lines| ==> !lines[i].bullet by {
      var head := [Line(c.title, Some(Title), false), Line(c.summary, None, false), Blank];
      forall i | 0 <= i < |lines| ensures !lines[i].bullet {
        if i < 3 {
        } else if i < 3 + |SectionsLines(c.sections)| {
          assert lines[i] == SectionsLines(c.sections)[i - 3];
        } else {
          assert lines[i] == Plain(c.metadata)[i - 3 - |SectionsLines(c.sections)|];
        }
      }
    }
    assert forall r :: 0 <= r < |runs| ==> runs[r].0 < |lines| && lines[runs[r].0].bullet by {
      forall r | 0 <= r < |runs| ensures runs[r].0 < |lines| && lines[runs[r].0].bullet {
        assert RunIn(lines, |lines|, runs[r]);
      }
    }
    ghost var first := FirstRun(runs);
  }
}
