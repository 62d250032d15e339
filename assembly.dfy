/** Content Assembler: which lines end up in the extracted text, and how they are
    rendered, in single-block and in joined-blocks mode. */
module ContentAssembler {
  import opened Options
  import opened LineNormalizer
  import opened DensityScanner
  import opened BoundaryDetector

  /** The fixed text reported when no article start is found. */
  const NotFound := "未能提取到正文!"

  /** The separator written after every emitted line. */
  const ParagraphBreak := "\n\n"

  /** The lines with index in `[s, e)`; none when `e <= s`. */
  function LinesIn(ls: seq<string>, s: int, e: int): seq<string>
    requires 0 <= s && (s < e ==> e <= |ls|)
  {
    if s < e then ls[s..e] else []
  }

  /** The non-empty lines, in order. */
  function Paragraphs(ls: seq<string>): (r: seq<string>)
    ensures |r| <= |ls|
    ensures forall p :: p in r ==> p != "" && p in ls
  {
    if ls == [] then [] else (if ls[0] != "" then [ls[0]] else []) + Paragraphs(ls[1..])
  }

  /** Every line followed by a paragraph break; nothing exactly when there are no lines. */
  function Render(ps: seq<string>): (r: string)
    ensures r == [] <==> ps == []
  {
    if ps == [] then "" else ps[0] + ParagraphBreak + Render(ps[1..])
  }

  lemma {:induction false} ParagraphsAppend(a: seq<string>, b: seq<string>)
    ensures Paragraphs(a + b) == Paragraphs(a) + Paragraphs(b)
  {
    if a == [] {
      assert a + b == b;
    } else {
      assert (a + b)[0] == a[0];
      assert (a + b)[1..] == a[1..] + b;
      ParagraphsAppend(a[1..], b);
    }
  }

  lemma {:induction false} RenderAppend(a: seq<string>, b: seq<string>)
    ensures Render(a + b) == Render(a) + Render(b)
  {
    if a == [] {
      assert a + b == b;
    } else {
      assert (a + b)[0] == a[0];
      assert (a + b)[1..] == a[1..] + b;
      RenderAppend(a[1..], b);
    }
  }

  /** The rendered text can be read back: split at line feeds and drop the blank
      lines, and exactly the emitted lines come back, in order. */
  lemma {:induction false} RenderRoundTrip(ps: seq<string>)
    requires forall k :: 0 <= k < |ps| ==> ps[k] != "" && NoLineFeed(ps[k])
    ensures Paragraphs(Split(Render(ps))) == ps
  {
    if ps != [] {
      var p, rest := ps[0], Render(ps[1..]);
      assert Render(ps) == p + "\n" + ("" + "\n" + rest);
      SplitAppend(p, "" + "\n" + rest);
      SplitAppend("", rest);
      SplitWithoutLineFeed(p);
      assert Split(Render(ps)) == [p, ""] + Split(rest);
      ParagraphsAppend([p, ""], Split(rest));
      assert Paragraphs([p, ""]) == [p];
      RenderRoundTrip(ps[1..]);
      assert [p] + ps[1..] == ps;
    }
  }

  /** One block of article text: the lines `[start, end)`. */
  datatype Boundary = Boundary(start: nat, end: nat)

  predicate InText(ls: seq<string>, segs: seq<Boundary>) {
    forall k :: 0 <= k < |segs| ==> segs[k].end <= |ls|
  }

  /** What `GetText` emits for the lines `[s, e)`. */
  function EmittedText(ls: seq<string>, s: int, e: int): string
    requires 0 <= s && (s < e ==> e <= |ls|)
  {
    Render(Paragraphs(LinesIn(ls, s, e)))
  }

  /** The text of one block. */
  function SegmentText(ls: seq<string>, b: Boundary): string
    requires b.end <= |ls|
  {
    EmittedText(ls, b.start, b.end)
  }

  /** The texts of several blocks, one after the other. */
  function SegmentsText(ls: seq<string>, segs: seq<Boundary>): string
    requires InText(ls, segs)
  {
    if segs == [] then "" else SegmentText(ls, segs[0]) + SegmentsText(ls, segs[1..])
  }

  /** The lines emitted for several blocks, one after the other. */
  function SelectedLines(ls: seq<string>, segs: seq<Boundary>): seq<string>
    requires InText(ls, segs)
  {
    if segs == [] then [] else Paragraphs(LinesIn(ls, segs[0].start, segs[0].end)) + SelectedLines(ls, segs[1..])
  }

  /** The blocks the joined-blocks loop visits from the start `s`, for density `d` of a
      text of `n` lines: each ends at the first gap after its start, and the next one
      starts at the first start at or after that end, until no start is left. */
  function Segments(d: seq<int>, n: nat, s: nat): (r: seq<Boundary>)
    requires s + 1 < |d| < n && IsStart(d, s)
    ensures |r| >= 1 && r[0] == Boundary(s, EndOf(d, n, s))
    ensures forall k :: 0 <= k < |r| ==>
      r[k].start < r[k].end < n && r[k].start + 1 < |d| && IsStart(d, r[k].start)
    ensures forall k, l :: 0 <= k < l < |r| ==> r[k].end <= r[l].start
    decreases n - s
  {
    var e := EndOf(d, n, s);
    match FirstStart(d, e)
    case None => [Boundary(s, e)]
    case Some(next) =>
      var rest := Segments(d, n, next);
      var r := [Boundary(s, e)] + rest;
      assert forall k :: 1 <= k < |r| ==> r[k] == rest[k - 1];
      r
  }

  /** One turn of the joined-blocks loop: after the text emitted so far (`done`), the
      first block's text is appended; then either no start is left and the whole text
      is complete, or the blocks from the next start remain. */
  lemma JoinStep(ls: seq<string>, d: seq<int>, s: nat, done: string, total: string)
    requires s + 1 < |d| < |ls| && IsStart(d, s)
    requires done + TextFrom(ls, d, s) == total
    ensures var e := EndOf(d, |ls|, s);
      s < e < |ls| &&
      match FirstStart(d, e)
      case None => done + EmittedText(ls, s, e) == total
      case Some(next) => done + EmittedText(ls, s, e) + TextFrom(ls, d, next) == total
  {
    var segs := Segments(d, |ls|, s);
    var e := EndOf(d, |ls|, s);
    assert SegmentsText(ls, segs) == EmittedText(ls, s, e) + SegmentsText(ls, segs[1..]);
    match FirstStart(d, e)
    case None =>
      assert segs[1..] == [];
    case Some(next) =>
      AppendAssoc(done, EmittedText(ls, s, e), SegmentsText(ls, segs[1..]));
  }

  /** Regrouping appended texts; kept apart from JoinStep, whose proof context makes
      this step expensive. */
  lemma AppendAssoc(a: string, b: string, c: string)
    ensures a + (b + c) == a + b + c
  {
  }

  /** The end of the last of several blocks. */
  function LastEnd(segs: seq<Boundary>): nat
    requires segs != []
  {
    segs[|segs| - 1].end
  }

  /** The text of every block the joined-blocks loop visits from the start `s`. */
  function TextFrom(ls: seq<string>, d: seq<int>, s: nat): string
    requires s + 1 < |d| < |ls| && IsStart(d, s)
  {
    SegmentsText(ls, Segments(d, |ls|, s))
  }

  /** The end of the last block the joined-blocks loop visits from the start `s`. */
  function EndFrom(d: seq<int>, n: nat, s: nat): nat
    requires s + 1 < |d| < n && IsStart(d, s)
  {
    LastEnd(Segments(d, n, s))
  }

  /** The joined-blocks loop stops after the block whose end has no start after it, so
      that block is the last one visited. */
  lemma SegmentsLastEnd(d: seq<int>, n: nat, s: nat)
    requires s + 1 < |d| < n && IsStart(d, s)
    ensures var e := EndOf(d, n, s);
      match FirstStart(d, e)
      case None => EndFrom(d, n, s) == e
      case Some(next) => EndFrom(d, n, s) == EndFrom(d, n, next)
  {
  }

  /** `d` has one entry per window of a text of `n` lines. */
  predicate Fits(d: seq<int>, n: int) {
    |d| == if n > BlockHeight then n - BlockHeight else 0
  }

  /** The blocks the extractor emits for lines `ls` with density `d`: none when
      FindTextStart(0) gives the sentinel 0, otherwise one block in single-block mode
      and every visited block when joining. */
  function Selection(ls: seq<string>, d: seq<int>, join: bool): (r: seq<Boundary>)
    requires Fits(d, |ls|)
    ensures InText(ls, r)
  {
    var start := StartOrZero(FirstStart(d, 0));
    if start == 0 then []
    else if join then Segments(d, |ls|, start)
    else [Boundary(start, EndOf(d, |ls|, start))]
  }

  /** Where `textStart` is left once the content is assembled: the start of the only
      block in single-block mode, and 0 otherwise (nothing found, or the sentinel that
      ends the joined-blocks loop). */
  function FinalStart(ls: seq<string>, d: seq<int>, join: bool): int
    requires Fits(d, |ls|)
  {
    var segs := Selection(ls, d, join);
    if segs == [] || join then 0 else segs[0].start
  }

  /** Where `textEnd` is left once the content is assembled: the end of the last
      selected block, and 0 when nothing is found. */
  function FinalEnd(ls: seq<string>, d: seq<int>, join: bool): int
    requires Fits(d, |ls|)
  {
    var segs := Selection(ls, d, join);
    if segs == [] then 0 else LastEnd(segs)
  }

  /** The extracted content for lines `ls` with density `d`. */
  function Assemble(ls: seq<string>, d: seq<int>, join: bool): string
    requires Fits(d, |ls|)
  {
    if StartOrZero(FirstStart(d, 0)) == 0 then NotFound
    else SegmentsText(ls, Selection(ls, d, join))
  }

  /** The extracted content for the reduced page text `body`. */
  function Extract(body: string, join: bool): string {
    var ls := PreparedLines(body);
    Assemble(ls, Density(ls), join)
  }

  // ---------------------------------------------------------------------------
  // When nothing is found

  /** When no window is denser than Threshold, the result is the not-found text. */
  lemma NoDenseWindowNotFound(ls: seq<string>, d: seq<int>, join: bool)
    requires Fits(d, |ls|)
    requires forall i :: 0 <= i < |d| ==> d[i] <= Threshold
    ensures Assemble(ls, d, join) == NotFound && Selection(ls, d, join) == []
  {
    assert forall i :: 0 <= i < |d| - 1 ==> !IsStart(d, i);
  }

  /** With four lines or fewer there is at most one window, so nothing is found. */
  lemma ShortTextNotFound(ls: seq<string>, d: seq<int>, join: bool)
    requires Fits(d, |ls|) && |ls| <= 4
    ensures Assemble(ls, d, join) == NotFound && Selection(ls, d, join) == []
  {
  }

  /** A genuine start at the very first window is reported as not found. */
  lemma StartAtFirstWindowNotFound(ls: seq<string>, d: seq<int>, join: bool)
    requires Fits(d, |ls|) && |d| >= 2 && IsStart(d, 0)
    ensures Assemble(ls, d, join) == NotFound && Selection(ls, d, join) == []
  {
  }

  /** An instance: a dense first window followed by text, reported as not found. */
  lemma StartAtFirstWindowExample(join: bool)
    ensures var ls := [seq(151, _ => 'a'), "b", "", "", ""];
      |Density(ls)| == 2 && IsStart(Density(ls), 0) && Assemble(ls, Density(ls), join) == NotFound
  {
    var ls := [seq(151, _ => 'a'), "b", "", "", ""];
    var long: string := seq(151, _ => 'a');
    assert Utf16Length(long) >= 151;
    assert Utf16Length("b") == 1;
    DensityShape(ls, 0);
    DensityShape(ls, 1);
    StartAtFirstWindowNotFound(ls, Density(ls), join);
  }

  // ---------------------------------------------------------------------------
  // What is emitted when a start is found

  /** In both modes, every selected block starts at a start point and ends at a line
      index; blocks are disjoint and in document order. */
  lemma SelectionOrdered(ls: seq<string>, d: seq<int>, join: bool)
    requires Fits(d, |ls|)
    ensures forall k :: 0 <= k < |Selection(ls, d, join)| ==>
      Selection(ls, d, join)[k].start < Selection(ls, d, join)[k].end < |ls|
      && Selection(ls, d, join)[k].start + 1 < |d|
      && IsStart(d, Selection(ls, d, join)[k].start)
    ensures forall k, l :: 0 <= k < l < |Selection(ls, d, join)| ==>
      Selection(ls, d, join)[k].end <= Selection(ls, d, join)[l].start
  {
    var start := StartOrZero(FirstStart(d, 0));
    if start != 0 {
      assert start + 1 < |d| < |ls| && IsStart(d, start);
      if !join {
        assert Selection(ls, d, join) == [Boundary(start, EndOf(d, |ls|, start))];
      }
    }
  }

  /** Single-block mode emits exactly the first block of joined-blocks mode, so its
      output is a prefix of the joined output. */
  lemma SingleIsFirstBlock(ls: seq<string>, d: seq<int>)
    requires Fits(d, |ls|) && StartOrZero(FirstStart(d, 0)) != 0
    ensures Selection(ls, d, false) == Selection(ls, d, true)[..1]
    ensures Assemble(ls, d, true) == Assemble(ls, d, false) + SegmentsText(ls, Selection(ls, d, true)[1..])
  {
    var segs := Selection(ls, d, true);
    var first := segs[0];
    assert [first] == segs[..1];
    assert SegmentsText(ls, segs) == SegmentText(ls, first) + SegmentsText(ls, segs[1..]);
    assert SegmentsText(ls, [first]) == SegmentText(ls, first) + SegmentsText(ls, []);
  }

  /** Line `j` lies inside one of the blocks. */
  predicate Covers(segs: seq<Boundary>, j: int) {
    exists k :: 0 <= k < |segs| && segs[k].start <= j < segs[k].end
  }

  /** Joined-blocks mode misses no start: every start point at or after the first
      block's start lies inside one of the visited blocks. */
  lemma {:induction false} SegmentsCover(d: seq<int>, n: nat, s: nat, j: nat)
    requires s + 1 < |d| < n && IsStart(d, s)
    requires s <= j && j + 1 < |d| && IsStart(d, j)
    ensures Covers(Segments(d, n, s), j)
    decreases n - s
  {
    var r := Segments(d, n, s);
    var e := EndOf(d, n, s);
    if j < e {
      assert r[0].start <= j < r[0].end;
    } else {
      var found := FirstStart(d, e);
      assert found.Some? by {
        assert e <= j < |d| - 1 && IsStart(d, j);
      }
      var next := found.value;
      assert next <= j;
      var rest := Segments(d, n, next);
      assert r == [Boundary(s, e)] + rest;
      SegmentsCover(d, n, next, j);
      var k :| 0 <= k < |rest| && rest[k].start <= j < rest[k].end;
      assert r[k + 1] == rest[k];
      assert Covers(r, j);
    }
  }

  /** The text of several blocks is the rendering of their selected lines. */
  lemma {:induction false} SegmentsTextRender(ls: seq<string>, segs: seq<Boundary>)
    requires InText(ls, segs)
    ensures SegmentsText(ls, segs) == Render(SelectedLines(ls, segs))
  {
    if segs != [] {
      SegmentsTextRender(ls, segs[1..]);
      RenderAppend(Paragraphs(LinesIn(ls, segs[0].start, segs[0].end)), SelectedLines(ls, segs[1..]));
    }
  }

  /** Every selected line is a non-empty line of the text. */
  lemma {:induction false} SelectedLinesFromText(ls: seq<string>, segs: seq<Boundary>)
    requires InText(ls, segs)
    ensures forall p :: p in SelectedLines(ls, segs) ==> p != "" && p in ls
  {
    if segs != [] {
      SelectedLinesFromText(ls, segs[1..]);
      var b := segs[0];
      forall p | p in Paragraphs(LinesIn(ls, b.start, b.end)) ensures p in ls {
        var k :| 0 <= k < |LinesIn(ls, b.start, b.end)| && LinesIn(ls, b.start, b.end)[k] == p;
        assert ls[b.start + k] == p;
      }
    }
  }

  /** The extracted content, when a start is found, consists of the selected lines,
      none of them empty, each followed by a blank line: reading it back line by line
      and dropping blank lines gives exactly the selected lines. */
  lemma ExtractedLines(body: string, join: bool)
    requires StartOrZero(FirstStart(Density(PreparedLines(body)), 0)) != 0
    ensures var ls := PreparedLines(body);
      Paragraphs(Split(Extract(body, join))) == SelectedLines(ls, Selection(ls, Density(ls), join))
  {
    var ls := PreparedLines(body);
    var segs := Selection(ls, Density(ls), join);
    var ps := SelectedLines(ls, segs);
    PreparedLinesNormalized(body);
    SelectedLinesFromText(ls, segs);
    forall k | 0 <= k < |ps| ensures ps[k] != "" && NoLineFeed(ps[k]) {
      assert ps[k] in ps;
      var i :| 0 <= i < |ls| && ls[i] == ps[k];
    }
    SegmentsTextRender(ls, segs);
    RenderRoundTrip(ps);
  }
}
