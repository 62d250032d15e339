/** Boundary Detector: the two scans over the density sequence that locate where
    a block of article text starts and where it ends. */
module BoundaryDetector {
  import opened Options
  import opened LineNormalizer
  import opened DensityScanner

  /** A window denser than this may start the article body. */
  const Threshold := 150

  /** Window `i` is dense and the window after it is not empty. */
  predicate IsStart(d: seq<int>, i: int)
    requires 0 <= i < |d| - 1
  {
    d[i] > Threshold && d[i + 1] > 0
  }

  /** Window `i` and the window after it are both empty. */
  predicate IsGap(d: seq<int>, i: int)
    requires 0 <= i < |d| - 1
    ensures IsGap(d, i) ==> !IsStart(d, i)
  {
    d[i] == 0 && d[i + 1] == 0
  }

  /** The first start at or after `from`, if there is one. */
  function FirstStart(d: seq<int>, from: nat): (r: Option<nat>)
    ensures r.Some? ==> from <= r.value && r.value + 1 < |d| && IsStart(d, r.value)
                        && forall j :: from <= j < r.value ==> !IsStart(d, j)
    ensures r.None? ==> forall j :: from <= j < |d| - 1 ==> !IsStart(d, j)
    decreases |d| - from
  {
    if from + 1 >= |d| then None
    else if IsStart(d, from) then Some(from)
    else FirstStart(d, from + 1)
  }

  /** The first gap at or after `from`, if there is one. */
  function FirstGap(d: seq<int>, from: nat): (r: Option<nat>)
    ensures r.Some? ==> from <= r.value && r.value + 1 < |d| && IsGap(d, r.value)
                        && forall j :: from <= j < r.value ==> !IsGap(d, j)
    ensures r.None? ==> forall j :: from <= j < |d| - 1 ==> !IsGap(d, j)
    decreases |d| - from
  {
    if from + 1 >= |d| then None
    else if IsGap(d, from) then Some(from)
    else FirstGap(d, from + 1)
  }

  /** What `FindTextStart` returns: the start it found, or 0 when there is none. So 0
      stands both for "nothing found" and for a start at window 0. */
  function StartOrZero(found: Option<nat>): (r: nat)
    ensures r == 0 <==> found.None? || found == Some(0)
    ensures r != 0 ==> found == Some(r)
  {
    match found
    case None => 0
    case Some(i) => i
  }

  /** What `FindTextEnd(index)` returns for a text of `n` lines: the first gap strictly
      after `index`, or the last line `n - 1` when there is none. After a start, this is
      strictly after the start and is a line index. */
  function EndOf(d: seq<int>, n: int, index: nat): (r: int)
    ensures index + 1 < |d| < n ==> index < r < n
  {
    match FirstGap(d, index + 1)
    case None => n - 1
    case Some(i) => i
  }

  /** The sentinel is ambiguous only for a search from index 0: a search from a later
      index returns 0 exactly when it found nothing. */
  lemma SentinelFromLaterIndex(d: seq<int>, from: nat)
    requires from >= 1
    ensures StartOrZero(FirstStart(d, from)) == 0 <==> FirstStart(d, from).None?
  {
  }

  /** From index 0, the sentinel 0 is returned both when there is no start and when
      the very first window is a start. */
  lemma SentinelFromZero(d: seq<int>)
    ensures StartOrZero(FirstStart(d, 0)) == 0 <==>
      FirstStart(d, 0).None? || (|d| >= 2 && IsStart(d, 0))
  {
  }

  /** A gap is four consecutive blank lines. */
  lemma GapIsFourBlankLines(ls: seq<string>, i: int)
    requires 0 <= i < |Density(ls)| - 1
    ensures IsGap(Density(ls), i) <==> forall k :: i <= k < i + 4 ==> ls[k] == ""
  {
    DensityZero(ls, i);
    DensityZero(ls, i + 1);
  }

  /** A start is a window of more than Threshold units followed by a non-empty one. */
  lemma StartIsDenseText(ls: seq<string>, i: int)
    requires 0 <= i < |Density(ls)| - 1
    ensures IsStart(Density(ls), i) <==>
      Utf16Length(ls[i]) + Utf16Length(ls[i + 1]) + Utf16Length(ls[i + 2]) > Threshold
      && (ls[i + 1] != "" || ls[i + 2] != "" || ls[i + 3] != "")
  {
    DensityShape(ls, i);
    DensityShape(ls, i + 1);
    DensityZero(ls, i + 1);
  }
}
