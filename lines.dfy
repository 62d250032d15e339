/** Line Normalizer: splitting the reduced page text into lines, collapsing
    whitespace inside each line, and suppressing short isolated captions. */
module LineNormalizer {

  /** A line shorter than this (in UTF-16 units) between two blank lines is a caption. */
  const CaptionLimit := 30

  /** The characters matched by the regular-expression class `\s` and removed by
      `String.Trim()`: tab, line feed, vertical tab, form feed, carriage return,
      next line, and the Unicode space, line and paragraph separators. */
  predicate IsSpace(c: char) {
    c == '\t' || c == '\n' || c == '\U{000B}' || c == '\U{000C}' || c == '\r'
    || c == ' ' || c == '\U{0085}' || c == '\U{00A0}' || c == '\U{1680}'
    || ('\U{2000}' <= c <= '\U{200A}')
    || c == '\U{2028}' || c == '\U{2029}' || c == '\U{202F}' || c == '\U{205F}'
    || c == '\U{3000}'
  }

  /** `String.Length`: the number of UTF-16 code units, so a character outside the
      Basic Multilingual Plane counts twice. */
  function Utf16Length(s: string): (n: nat)
    ensures n >= |s|
    ensures n == 0 <==> s == []
  {
    if s == [] then 0 else (if s[0] > '\U{FFFF}' then 2 else 1) + Utf16Length(s[1..])
  }

  // ---------------------------------------------------------------------------
  // Splitting on line feeds

  /** `String.Split('\n')`: the pieces between line feeds, always at least one. */
  function Split(s: string): (r: seq<string>)
    ensures |r| >= 1
  {
    if s == [] then [""]
    else
      var rest := Split(s[1..]);
      if s[0] == '\n' then [""] + rest else [[s[0]] + rest[0]] + rest[1..]
  }

  /** The inverse of Split: the pieces glued back with line feeds. */
  function Join(ps: seq<string>): string {
    if ps == [] then ""
    else if |ps| == 1 then ps[0]
    else ps[0] + "\n" + Join(ps[1..])
  }

  predicate NoLineFeed(s: string) {
    forall i :: 0 <= i < |s| ==> s[i] != '\n'
  }

  lemma {:induction false} SplitPiecesHaveNoLineFeed(s: string)
    ensures forall k :: 0 <= k < |Split(s)| ==> NoLineFeed(Split(s)[k])
  {
    if s != [] {
      SplitPiecesHaveNoLineFeed(s[1..]);
      var rest := Split(s[1..]);
      if s[0] != '\n' {
        assert NoLineFeed(rest[0]);
        assert NoLineFeed([s[0]] + rest[0]);
      }
    }
  }

  lemma {:induction false} SplitWithoutLineFeed(s: string)
    requires NoLineFeed(s)
    ensures Split(s) == [s]
  {
    if s != [] {
      assert NoLineFeed(s[1..]);
      SplitWithoutLineFeed(s[1..]);
      assert [s[0]] + s[1..] == s;
    }
  }

  /** Splitting at a line feed splits the pieces of both sides apart. */
  lemma {:induction false} SplitAppend(a: string, b: string)
    ensures Split(a + "\n" + b) == Split(a) + Split(b)
  {
    if a == [] {
      assert a + "\n" + b == "\n" + b;
      assert ("\n" + b)[1..] == b;
    } else {
      assert (a + "\n" + b)[0] == a[0];
      assert (a + "\n" + b)[1..] == a[1..] + "\n" + b;
      SplitAppend(a[1..], b);
    }
  }

  /** Joining the pieces of a split gives the text back. */
  lemma {:induction false} JoinSplit(s: string)
    ensures Join(Split(s)) == s
  {
    if s != [] {
      JoinSplit(s[1..]);
      var rest := Split(s[1..]);
      if s[0] == '\n' {
        assert Join([""] + rest) == "" + "\n" + Join(rest);
      } else {
        var r := [[s[0]] + rest[0]] + rest[1..];
        if |rest| == 1 {
          assert r == [[s[0]] + rest[0]];
          assert [s[0]] + s[1..] == s;
        } else {
          assert r[1..] == rest[1..];
          assert Join(rest) == rest[0] + "\n" + Join(rest[1..]);
          assert Join(r) == [s[0]] + (rest[0] + "\n" + Join(rest[1..]));
          assert [s[0]] + s[1..] == s;
        }
      }
    }
  }

  /** Splitting the join of line-feed-free pieces gives the pieces back. */
  lemma {:induction false} SplitJoin(ps: seq<string>)
    requires |ps| >= 1
    requires forall k :: 0 <= k < |ps| ==> NoLineFeed(ps[k])
    ensures Split(Join(ps)) == ps
  {
    SplitWithoutLineFeed(ps[0]);
    if |ps| > 1 {
      SplitJoin(ps[1..]);
      SplitAppend(ps[0], Join(ps[1..]));
      assert [ps[0]] + ps[1..] == ps;
    }
  }

  // ---------------------------------------------------------------------------
  // Whitespace normalisation of one line

  /** The number of whitespace characters at the start of `s`. */
  function LeadingSpaces(s: string): (n: nat)
    ensures n <= |s|
    ensures forall i :: 0 <= i < n ==> IsSpace(s[i])
    ensures n < |s| ==> !IsSpace(s[n])
  {
    if s != [] && IsSpace(s[0]) then 1 + LeadingSpaces(s[1..]) else 0
  }

  /** The length of `s` without its trailing whitespace. */
  function TrimmedLength(s: string): (n: nat)
    ensures n <= |s|
    ensures forall i :: n <= i < |s| ==> IsSpace(s[i])
    ensures n > 0 ==> !IsSpace(s[n - 1])
  {
    if s != [] && IsSpace(s[|s| - 1]) then TrimmedLength(s[..|s| - 1]) else |s|
  }

  /** Drops the leading whitespace (`TrimStart`). */
  function DropSpaces(s: string): string {
    s[LeadingSpaces(s)..]
  }

  /** `String.Trim()`: the result is `s` without a whitespace prefix and a whitespace
      suffix, so no whitespace is left at either end and every character in between
      is kept, in order. */
  function Trim(s: string): (r: string)
    ensures r != [] ==> !IsSpace(r[0]) && !IsSpace(r[|r| - 1])
    ensures NonSpace(r) == NonSpace(s)
    ensures LeadingSpaces(s) + |r| <= |s| && r == s[LeadingSpaces(s)..LeadingSpaces(s) + |r|]
    ensures forall k :: LeadingSpaces(s) + |r| <= k < |s| ==> IsSpace(s[k])
  {
    var l := LeadingSpaces(s);
    var t := TrimmedLength(s[l..]);
    TrimmedEnds(s, l, t);
    SpacesAfter(s, l, t);
    NonSpaceOfSlice(s, 0, l);
    NonSpaceOfSlice(s, l + t, |s|);
    KeepsTextBetweenSpaces(s, l, t);
    s[l..l + t]
  }

  /** The trimmed slice starts and ends with a non-whitespace character. */
  lemma TrimmedEnds(s: string, l: nat, t: nat)
    requires l == LeadingSpaces(s) && t == TrimmedLength(s[l..])
    ensures l + t <= |s|
    ensures t > 0 ==> !IsSpace(s[l..l + t][0]) && !IsSpace(s[l..l + t][t - 1])
  {
    if t > 0 {
      assert s[l..l + t][0] == s[l];
      assert s[l..l + t][t - 1] == s[l..][t - 1];
    }
  }

  lemma SpacesAfter(s: string, l: nat, t: nat)
    requires l + t <= |s|
    requires forall i :: t <= i < |s[l..]| ==> IsSpace(s[l..][i])
    ensures forall k :: l + t <= k < |s| ==> IsSpace(s[k])
  {
    forall k | l + t <= k < |s| ensures IsSpace(s[k]) {
      assert s[k] == s[l..][k - l];
    }
  }

  /** `Regex.Replace(s, @"\s+", " ")`: every maximal run of whitespace becomes one space. */
  function Collapse(s: string): (r: string)
    ensures |r| <= |s|
    ensures r == [] <==> s == []
    ensures r != [] ==> (IsSpace(r[0]) <==> IsSpace(s[0]))
    decreases |s|
  {
    if s == [] then []
    else if IsSpace(s[0]) then [' '] + Collapse(DropSpaces(s[1..]))
    else [s[0]] + Collapse(s[1..])
  }

  /** A line with no whitespace at either end is left as it is by trimming. */
  lemma TrimOfTrimmed(r: string)
    requires r != [] ==> !IsSpace(r[0]) && !IsSpace(r[|r| - 1])
    ensures Trim(r) == r
  {
    var t := Trim(r);
    if r != [] {
      assert LeadingSpaces(r) == 0;
    }
  }

  /** The normalisation the extractor applies to every line: collapse, then trim. The
      result has single plain spaces only, none at its ends, and keeps every
      non-whitespace character, in order. */
  function NormalizeLine(s: string): (r: string)
    ensures Normalized(r)
    ensures NonSpace(r) == NonSpace(s)
  {
    CollapseIsCollapsed(s);
    TrimCollapsed(Collapse(s));
    CollapseKeepsText(s);
    Trim(Collapse(s))
  }

  /** Every whitespace character is a plain space and is not followed by another. */
  predicate Collapsed(s: string) {
    forall i :: 0 <= i < |s| && IsSpace(s[i]) ==> s[i] == ' ' && (i + 1 < |s| ==> !IsSpace(s[i + 1]))
  }

  /** Collapsed, and no whitespace at either end. */
  predicate Normalized(s: string) {
    Collapsed(s) && (s != [] ==> !IsSpace(s[0]) && !IsSpace(s[|s| - 1]))
  }

  /** The non-whitespace characters of a text, in order. */
  function NonSpace(s: string): string {
    if s == [] then [] else (if IsSpace(s[0]) then [] else [s[0]]) + NonSpace(s[1..])
  }

  lemma {:induction false} NonSpaceAppend(a: string, b: string)
    ensures NonSpace(a + b) == NonSpace(a) + NonSpace(b)
  {
    if a != [] {
      assert (a + b)[0] == a[0];
      assert (a + b)[1..] == a[1..] + b;
      NonSpaceAppend(a[1..], b);
    } else {
      assert a + b == b;
    }
  }

  lemma {:induction false} NonSpaceOfSpaces(s: string)
    requires forall i :: 0 <= i < |s| ==> IsSpace(s[i])
    ensures NonSpace(s) == []
  {
    if s != [] {
      assert IsSpace(s[0]);
      assert forall i :: 0 <= i < |s[1..]| ==> s[1..][i] == s[i + 1];
      NonSpaceOfSpaces(s[1..]);
    }
  }

  lemma CollapsedSlice(s: string, lo: nat, hi: nat)
    requires Collapsed(s) && lo <= hi <= |s|
    ensures Collapsed(s[lo..hi])
  {
    var t := s[lo..hi];
    forall i | 0 <= i < |t| && IsSpace(t[i])
      ensures t[i] == ' ' && (i + 1 < |t| ==> !IsSpace(t[i + 1]))
    {
      assert t[i] == s[lo + i];
      if i + 1 < |t| {
        assert t[i + 1] == s[lo + i + 1];
      }
    }
  }

  lemma {:induction false} CollapseIsCollapsed(s: string)
    ensures Collapsed(Collapse(s))
    decreases |s|
  {
    if s != [] {
      var t := if IsSpace(s[0]) then DropSpaces(s[1..]) else s[1..];
      CollapseIsCollapsed(t);
      var c := Collapse(t);
      var r := Collapse(s);
      assert r == [if IsSpace(s[0]) then ' ' else s[0]] + c;
      forall i | 0 <= i < |r| && IsSpace(r[i])
        ensures r[i] == ' ' && (i + 1 < |r| ==> !IsSpace(r[i + 1]))
      {
        if i == 0 {
          if |r| > 1 {
            assert r[1] == c[0];
          }
        } else {
          assert r[i] == c[i - 1];
          if i + 1 < |r| {
            assert r[i + 1] == c[i];
          }
        }
      }
    }
  }

  lemma {:induction false} CollapseKeepsText(s: string)
    ensures NonSpace(Collapse(s)) == NonSpace(s)
    decreases |s|
  {
    if s != [] {
      if IsSpace(s[0]) {
        var t := DropSpaces(s[1..]);
        CollapseKeepsText(t);
        DropSpacesKeepsText(s[1..]);
        assert NonSpace([' '] + Collapse(t)) == NonSpace(Collapse(t));
      } else {
        CollapseKeepsText(s[1..]);
        assert ([s[0]] + Collapse(s[1..]))[1..] == Collapse(s[1..]);
      }
    }
  }

  lemma DropSpacesKeepsText(s: string)
    ensures NonSpace(DropSpaces(s)) == NonSpace(s)
  {
    var k := LeadingSpaces(s);
    var r := DropSpaces(s);
    assert s == s[..k] + r;
    NonSpaceAppend(s[..k], r);
    NonSpaceOfSpaces(s[..k]);
  }

  /** Dropping a prefix and a suffix without non-whitespace text keeps that text. */
  lemma KeepsTextBetweenSpaces(s: string, l: nat, t: nat)
    requires l + t <= |s|
    requires NonSpace(s[..l]) == [] && NonSpace(s[l + t..]) == []
    ensures NonSpace(s[l..l + t]) == NonSpace(s)
  {
    ThreeParts(s, l, l + t);
    NonSpaceAppend(s[..l] + s[l..l + t], s[l + t..]);
    NonSpaceAppend(s[..l], s[l..l + t]);
  }

  lemma ThreeParts(s: string, i: nat, j: nat)
    requires i <= j <= |s|
    ensures s == s[..i] + s[i..j] + s[j..]
  {
  }

  /** A slice made of whitespace only has no non-whitespace text. */
  lemma NonSpaceOfSlice(s: string, i: nat, j: nat)
    requires i <= j <= |s|
    requires forall k :: i <= k < j ==> IsSpace(s[k])
    ensures NonSpace(s[i..j]) == [] && (i == 0 ==> s[i..j] == s[..j]) && (j == |s| ==> s[i..j] == s[i..])
  {
    var w := s[i..j];
    forall k | 0 <= k < |w| ensures IsSpace(w[k]) {
      assert w[k] == s[i + k];
    }
    NonSpaceOfSpaces(w);
  }

  /** Trimming keeps a collapsed text collapsed and leaves no whitespace at its ends. */
  lemma TrimCollapsed(c: string)
    requires Collapsed(c)
    ensures Normalized(Trim(c))
  {
    var r := Trim(c);
    CollapsedSlice(c, LeadingSpaces(c), LeadingSpaces(c) + |r|);
  }

  lemma {:induction false} CollapseOfCollapsed(s: string)
    requires Collapsed(s)
    ensures Collapse(s) == s
    decreases |s|
  {
    if s != [] {
      var t := s[1..];
      CollapsedSlice(s, 1, |s|);
      CollapseOfCollapsed(t);
      if IsSpace(s[0]) {
        assert s[0] == ' ';
        if t != [] {
          assert t[0] == s[1] && !IsSpace(s[1]);
        }
        assert LeadingSpaces(t) == 0;
        assert DropSpaces(t) == t;
        assert Collapse(s) == [' '] + t;
      } else {
        assert Collapse(s) == [s[0]] + t;
      }
      assert [s[0]] + t == s;
    }
  }

  /** The leading whitespace of a whitespace run followed by a word is the whole run. */
  lemma {:induction false} DropSpacesOfRun(w: string, b: string)
    requires forall k :: 0 <= k < |w| ==> IsSpace(w[k])
    requires b == [] || !IsSpace(b[0])
    ensures DropSpaces(w + b) == b
  {
    if w == [] {
      assert w + b == b;
    } else {
      assert (w + b)[1..] == w[1..] + b;
      DropSpacesOfRun(w[1..], b);
    }
  }

  /** Leading whitespace of a text ending in a non-whitespace character lies within it. */
  lemma {:induction false} DropSpacesOfPrefix(x: string, t: string)
    requires x != [] && !IsSpace(x[|x| - 1])
    ensures DropSpaces(x + t) == DropSpaces(x) + t
  {
    if IsSpace(x[0]) {
      assert (x + t)[1..] == x[1..] + t;
      DropSpacesOfPrefix(x[1..], t);
    } else {
      assert (x + t)[0] == x[0];
    }
  }

  /** A whitespace run followed by a word collapses to one space and that word, once
      the run is known to reach up to the word. */
  lemma CollapseRun(s: string, b: string)
    requires s != [] && IsSpace(s[0]) && DropSpaces(s[1..]) == b
    ensures Collapse(s) == [' '] + Collapse(b)
  {
  }

  /** After the first character of a whitespace run, the leading whitespace runs up
      to the word that follows. */
  lemma RunThenWord(w: string, b: string)
    requires w != [] && forall k :: 0 <= k < |w| ==> IsSpace(w[k])
    requires b == [] || !IsSpace(b[0])
    ensures (w + b) != [] && IsSpace((w + b)[0]) && DropSpaces((w + b)[1..]) == b
  {
    ConsParts(w, b);
    SpacesTail(w);
    DropSpacesOfRun(w[1..], b);
  }

  lemma ConsParts(w: string, b: string)
    requires w != []
    ensures (w + b)[0] == w[0] && (w + b)[1..] == w[1..] + b
  {
  }

  lemma SpacesTail(w: string)
    requires w != [] && forall k :: 0 <= k < |w| ==> IsSpace(w[k])
    ensures IsSpace(w[0]) && forall k :: 0 <= k < |w[1..]| ==> IsSpace(w[1..][k])
  {
  }

  /** The leading whitespace of a text that ends in a non-whitespace character leaves
      a non-empty rest ending in that character. */
  lemma DropSpacesKeepsLast(x: string)
    requires x != [] && !IsSpace(x[|x| - 1])
    ensures DropSpaces(x) != [] && DropSpaces(x)[|DropSpaces(x)| - 1] == x[|x| - 1]
    ensures |DropSpaces(x)| <= |x|
  {
  }

  lemma Regroup(a: string, w: string, b: string)
    ensures a + w + b == a + (w + b)
    ensures a == [] ==> a + w + b == w + b
  {
  }

  lemma PrependSeparated(c: char, p: string, q: string)
    ensures [c] + (p + " " + q) == [c] + p + " " + q
  {
  }

  /** One step of collapsing `a + w + b`, where `a` ends in a non-whitespace
      character: the first character of `a` collapses to `c`, and the rest `y` of `a`
      (without its leading whitespace when that character is whitespace) comes next. */
  lemma CollapseStep(a: string, w: string, b: string) returns (c: char, y: string)
    requires a != [] && !IsSpace(a[|a| - 1])
    ensures |y| < |a| && (y == [] || !IsSpace(y[|y| - 1])) && (y == [] ==> !IsSpace(c))
    ensures Collapse(a) == [c] + Collapse(y) && Collapse(a + w + b) == [c] + Collapse(y + w + b)
  {
    c := if IsSpace(a[0]) then ' ' else a[0];
    y := if IsSpace(a[0]) then DropSpaces(a[1..]) else a[1..];
    var t := w + b;
    assert (a + t)[0] == a[0];
    assert (a + t)[1..] == a[1..] + t;
    if IsSpace(a[0]) {
      DropSpacesOfPrefix(a[1..], t);
      DropSpacesKeepsLast(a[1..]);
    }
    Regroup(a, w, b);
    Regroup(y, w, b);
  }

  lemma ConsLast(a: char, p: string)
    requires p != []
    ensures ([a] + p)[|p|] == p[|p| - 1] && |[a] + p| == |p| + 1
  {
  }

  /** Collapsing keeps a last character that is not whitespace at the end. */
  lemma {:induction false} CollapseEndsInWord(a: string)
    requires a != [] && !IsSpace(a[|a| - 1])
    ensures Collapse(a) != [] && !IsSpace(Collapse(a)[|Collapse(a)| - 1])
    decreases |a|
  {
    var c, y := CollapseStep(a, [], []);
    if y != [] {
      CollapseEndsInWord(y);
      ConsLast(c, Collapse(y));
    }
  }

  /** A whitespace run between two words becomes exactly one space: it is neither
      dropped nor kept longer. */
  lemma {:induction false} CollapseSeparates(a: string, w: string, b: string)
    requires a == [] || !IsSpace(a[|a| - 1])
    requires w != [] && forall k :: 0 <= k < |w| ==> IsSpace(w[k])
    requires b == [] || !IsSpace(b[0])
    ensures Collapse(a + w + b) == Collapse(a) + " " + Collapse(b)
    decreases |a|
  {
    if a == [] {
      RunThenWord(w, b);
      CollapseRun(w + b, b);
      assert a + w + b == w + b;
    } else {
      var c, y := CollapseStep(a, w, b);
      CollapseSeparates(y, w, b);
      PrependSeparated(c, Collapse(y), Collapse(b));
    }
  }

  /** Normalising two words separated by whitespace gives the two normalised words
      with a single space between them. */
  lemma NormalizeLineSeparates(a: string, w: string, b: string)
    requires a != [] && !IsSpace(a[0]) && !IsSpace(a[|a| - 1])
    requires w != [] && forall k :: 0 <= k < |w| ==> IsSpace(w[k])
    requires b != [] && !IsSpace(b[0]) && !IsSpace(b[|b| - 1])
    ensures NormalizeLine(a + w + b) == NormalizeLine(a) + " " + NormalizeLine(b)
  {
    CollapseSeparates(a, w, b);
    CollapseEndsInWord(a);
    CollapseEndsInWord(b);
    TrimOfTrimmed(Collapse(a));
    TrimOfTrimmed(Collapse(b));
    var c := Collapse(a) + " " + Collapse(b);
    assert c[0] == Collapse(a)[0] && c[|c| - 1] == Collapse(b)[|Collapse(b)| - 1];
    TrimOfTrimmed(c);
  }

  /** A normalised line is left as it is, so normalising twice changes nothing. */
  lemma NormalizeLineFixesNormalized(s: string)
    requires Normalized(s)
    ensures NormalizeLine(s) == s
  {
    CollapseOfCollapsed(s);
  }

  lemma NormalizeLineIdempotent(s: string)
    ensures NormalizeLine(NormalizeLine(s)) == NormalizeLine(s)
  {
    NormalizeLineFixesNormalized(NormalizeLine(s));
  }

  /** A normalised line holds no line feed: it is a plain-space-only line. */
  lemma NormalizedHasNoLineFeed(s: string)
    requires Normalized(s)
    ensures NoLineFeed(s)
  {
    forall i | 0 <= i < |s| ensures s[i] != '\n' {
      if s[i] == '\n' {
        assert IsSpace(s[i]);
      }
    }
  }

  /** The in-place pass of normalisation, as a value. */
  function NormalizeAll(ls: seq<string>): seq<string> {
    seq(|ls|, i requires 0 <= i < |ls| => NormalizeLine(ls[i]))
  }

  // ---------------------------------------------------------------------------
  // Caption suppression

  /** Line `i` is non-empty, shorter than CaptionLimit, and between two empty lines. */
  predicate IsCaption(ls: seq<string>, i: int)
    requires 0 < i < |ls| - 1
    ensures IsCaption(ls, i) ==> 0 < |ls[i]| < CaptionLimit && ls[i - 1] == "" && ls[i + 1] == ""
  {
    0 < Utf16Length(ls[i]) < CaptionLimit
    && Utf16Length(ls[i - 1]) == 0 && Utf16Length(ls[i + 1]) == 0
  }

  /** The caption rule applied to every interior line at once, on the original lines:
      every interior caption becomes empty, every other line is kept. */
  function Suppress(ls: seq<string>): (r: seq<string>)
    ensures |r| == |ls|
  {
    seq(|ls|, i requires 0 <= i < |ls| => if 0 < i < |ls| - 1 && IsCaption(ls, i) then "" else ls[i])
  }

  /** Suppression never touches the first and last line and blanks exactly the captions. */
  lemma SuppressChanges(ls: seq<string>, i: int)
    requires 0 <= i < |ls|
    ensures Suppress(ls)[i] != ls[i] <==> 0 < i < |ls| - 1 && IsCaption(ls, i)
    ensures Suppress(ls)[i] != ls[i] ==> Suppress(ls)[i] == ""
    ensures i == 0 || i == |ls| - 1 ==> Suppress(ls)[i] == ls[i]
  {
    if 0 < i < |ls| - 1 && IsCaption(ls, i) {
      assert ls[i] != "";
    }
  }

  /** No caption is left after suppression. */
  lemma NoCaptionAfterSuppress(ls: seq<string>, i: int)
    requires 0 < i < |ls| - 1
    ensures !IsCaption(Suppress(ls), i)
  {
    var r := Suppress(ls);
    if !IsCaption(ls, i) && ls[i] != "" {
      // a neighbour can only have been blanked if this line were empty
      assert !(1 < i && IsCaption(ls, i - 1));
      assert !(i + 1 < |ls| - 1 && IsCaption(ls, i + 1));
      assert r[i - 1] == ls[i - 1] && r[i] == ls[i] && r[i + 1] == ls[i + 1];
    } else {
      assert r[i] == "";
    }
  }

  /** Suppressing a second time changes nothing. */
  lemma SuppressIdempotent(ls: seq<string>)
    ensures Suppress(Suppress(ls)) == Suppress(ls)
  {
    var r := Suppress(ls);
    forall i | 0 < i < |r| - 1 ensures !IsCaption(r, i) {
      NoCaptionAfterSuppress(ls, i);
    }
  }

  /** The lines the rest of the extractor works on. */
  function PreparedLines(body: string): seq<string> {
    Suppress(NormalizeAll(Split(body)))
  }

  /** Every prepared line is normalised, so none of them holds a line feed. */
  lemma PreparedLinesNormalized(body: string)
    ensures |PreparedLines(body)| >= 1
    ensures forall k :: 0 <= k < |PreparedLines(body)| ==>
      Normalized(PreparedLines(body)[k]) && NoLineFeed(PreparedLines(body)[k])
  {
    var ls := PreparedLines(body);
    var ns := NormalizeAll(Split(body));
    forall k | 0 <= k < |ls|
      ensures Normalized(ls[k]) && NoLineFeed(ls[k])
    {
      assert ls[k] == "" || ls[k] == ns[k];
      NormalizedHasNoLineFeed(ls[k]);
    }
  }
}
