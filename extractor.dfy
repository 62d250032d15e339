/** The extractor object: the fields `extractText` fills in, and the in-place passes,
    scans and the assembly loop, each proved against the specification modules. */
module Extraction {
  import opened Options
  import opened LineNormalizer
  import opened DensityScanner
  import opened BoundaryDetector
  import opened ContentAssembler

  class WechatArt2Md {
    /** The reduced page text: only prose and image tags are left. */
    var textBody: string
    /** One entry per line of textBody. */
    var lines: array<string>
    /** One entry per window of BlockHeight lines: their total length. */
    var blockLen: seq<int>
    var textStart: int
    var textEnd: int
    /** The extracted article text. */
    var content: string
    /** True: join every block found; false: take the first block only. */
    const joinMethod: bool

    /** The state in which the extraction starts, for an already reduced page text. */
    constructor (body: string, join: bool)
      ensures textBody == body && joinMethod == join
      ensures textStart == 0 && textEnd == 0 && blockLen == [] && content == ""
    {
      textBody := body;
      joinMethod := join;
      textStart, textEnd := 0, 0;
      blockLen := [];
      content := "";
      lines := new string[0];
    }

    /** Runs the whole text extraction on textBody. */
    method ExtractText()
      requires blockLen == [] && textEnd == 0 && content == ""
      modifies this
      ensures textBody == old(textBody)
      ensures fresh(lines) && lines[..] == PreparedLines(textBody)
      ensures blockLen == Density(lines[..])
      ensures content == Extract(textBody, joinMethod)
      ensures textStart == FinalStart(lines[..], blockLen, joinMethod) && textEnd == FinalEnd(lines[..], blockLen, joinMethod)
    {
      PrepareLines();
      ghost var ls := lines[..];
      ScanDensity();
      AssembleContent();
      assert lines[..] == ls;
    }

    /** Splits textBody into lines, then normalises them and blanks the captions, in
        place. */
    method PrepareLines()
      modifies this`lines
      ensures fresh(lines) && lines[..] == PreparedLines(textBody)
    {
      var pieces := Split(textBody);
      lines := new string[|pieces|](i requires 0 <= i < |pieces| => pieces[i]);
      assert lines[..] == pieces;
      NormalizeLines();
      SuppressCaptions();
    }

    /** Collapses the whitespace of every line and trims it, in place. */
    method NormalizeLines()
      modifies lines
      ensures lines[..] == NormalizeAll(old(lines[..]))
    {
      ghost var orig := lines[..];
      for i := 0 to lines.Length
        invariant forall k :: 0 <= k < i ==> lines[k] == NormalizeLine(orig[k])
        invariant forall k :: i <= k < lines.Length ==> lines[k] == orig[k]
      {
        lines[i] := NormalizeLine(lines[i]);
      }
      assert lines[..] == NormalizeAll(orig);
    }

    /** Blanks every short line between two empty lines, one line after the other.
        This gives the same lines as applying the rule to all lines at once. */
    method SuppressCaptions()
      modifies lines
      ensures lines[..] == Suppress(old(lines[..]))
    {
      ghost var orig := lines[..];
      var i := 1;
      while i < lines.Length - 1
        invariant 1 <= i && (i <= lines.Length - 1 || i == 1)
        invariant forall k :: 0 <= k < i && k < lines.Length ==> lines[k] == Suppress(orig)[k]
        invariant forall k :: i <= k < lines.Length ==> lines[k] == orig[k]
      {
        // the line before may already be blanked, but only if this line is empty
        assert 1 < i && IsCaption(orig, i - 1) ==> orig[i] == "";
        if 0 < Utf16Length(lines[i]) < CaptionLimit
          && Utf16Length(lines[i - 1]) == 0 && Utf16Length(lines[i + 1]) == 0
        {
          lines[i] := "";
        }
        i := i + 1;
      }
    }

    /** Appends the length of every window to blockLen. */
    method ScanDensity()
      modifies this`blockLen
      ensures blockLen == old(blockLen) + Density(lines[..])
    {
      var i := 0;
      while i < lines.Length - BlockHeight
        invariant 0 <= i && (i <= lines.Length - BlockHeight || i == 0)
        invariant blockLen == old(blockLen) + Density(lines[..])[..i]
      {
        var len := 0;
        var j := 0;
        while j < BlockHeight
          invariant 0 <= j <= BlockHeight
          invariant len == SumLen(lines[i..i + j])
        {
          assert lines[i..i + j + 1][..j] == lines[i..i + j];
          len := len + Utf16Length(lines[i + j]);
          j := j + 1;
        }
        assert Density(lines[..])[..i + 1] == Density(lines[..])[..i] + [len];
        blockLen := blockLen + [len];
        i := i + 1;
      }
    }

    /** Finds the article start and end and fills in content: once in single-block
        mode, and block after block in joined-blocks mode. */
    method AssembleContent()
      requires Fits(blockLen, lines.Length) && textEnd == 0 && content == ""
      modifies this`textStart, this`textEnd, this`content
      ensures content == Assemble(lines[..], blockLen, joinMethod)
      ensures textStart == FinalStart(lines[..], blockLen, joinMethod) && textEnd == FinalEnd(lines[..], blockLen, joinMethod)
    {
      ghost var ls := lines[..];
      textStart := FindTextStart(0);
      if 0 == textStart {
        content := NotFound;
      } else if joinMethod {
        ghost var first := textStart;
        while textEnd < lines.Length
          invariant 0 < textStart && textStart + 1 < |blockLen| && IsStart(blockLen, textStart)
          invariant 0 <= textEnd <= textStart
          invariant content + TextFrom(ls, blockLen, textStart) == TextFrom(ls, blockLen, first)
          invariant EndFrom(blockLen, lines.Length, textStart) == EndFrom(blockLen, lines.Length, first)
          decreases lines.Length - textStart
        {
          JoinStep(ls, blockLen, textStart, content, TextFrom(ls, blockLen, first));
          SegmentsLastEnd(blockLen, lines.Length, textStart);
          textEnd := FindTextEnd(textStart);
          var text := GetText();
          content := content + text;
          textStart := FindTextStart(textEnd);
          SentinelFromLaterIndex(blockLen, textEnd);
          if 0 == textStart {
            break;
          }
          textEnd := textStart;
        }
      } else {
        textEnd := FindTextEnd(textStart);
        var text := GetText();
        content := content + text;
        assert SegmentsText(ls, Selection(ls, blockLen, false)) == text + "";
      }
    }

    /** The first window at or after `index` that is denser than Threshold and is
        followed by a non-empty window; 0 when there is none. */
    method FindTextStart(index: nat) returns (r: nat)
      ensures r == StartOrZero(FirstStart(blockLen, index))
    {
      var i := index;
      while i < |blockLen| - 1
        invariant index <= i
        invariant FirstStart(blockLen, i) == FirstStart(blockLen, index)
        decreases |blockLen| - i
      {
        if blockLen[i] > Threshold && blockLen[i + 1] > 0 {
          return i;
        }
        i := i + 1;
      }
      return 0;
    }

    /** The first pair of empty windows strictly after `index`; the last line when
        there is none. */
    method FindTextEnd(index: nat) returns (r: int)
      ensures r == EndOf(blockLen, lines.Length, index)
    {
      var i := index + 1;
      while i < |blockLen| - 1
        invariant index + 1 <= i
        invariant FirstGap(blockLen, i) == FirstGap(blockLen, index + 1)
        decreases |blockLen| - i
      {
        if 0 == blockLen[i] && 0 == blockLen[i + 1] {
          return i;
        }
        i := i + 1;
      }
      return lines.Length - 1;
    }

    /** The non-empty lines in `[textStart, textEnd)`, each followed by a blank line. */
    method GetText() returns (r: string)
      requires 0 <= textStart && (textStart < textEnd ==> textEnd <= lines.Length)
      ensures r == EmittedText(lines[..], textStart, textEnd)
    {
      var sb := "";
      var i := textStart;
      while i < textEnd
        invariant textStart <= i && (i <= textEnd || i == textStart)
        invariant sb == Render(Paragraphs(LinesIn(lines[..], textStart, i)))
      {
        var before := LinesIn(lines[..], textStart, i);
        assert LinesIn(lines[..], textStart, i + 1) == before + [lines[i]];
        ParagraphsAppend(before, [lines[i]]);
        var added := if lines[i] != "" then [lines[i]] else [];
        assert Paragraphs([lines[i]]) == added;
        RenderAppend(Paragraphs(before), added);
        assert Render(added) == if lines[i] != "" then lines[i] + ParagraphBreak else "";
        if Utf16Length(lines[i]) != 0 {
          sb := sb + lines[i] + ParagraphBreak;
        }
        i := i + 1;
      }
      r := sb;
    }
  }
}
