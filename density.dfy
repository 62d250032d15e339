/** Density Scanner: the character count of every window of BlockHeight
    consecutive lines. */
module DensityScanner {
  import opened LineNormalizer

  /** The number of lines in one window. */
  const BlockHeight := 3

  /** The total length of some lines, summed from the first one on. */
  function SumLen(ls: seq<string>): nat {
    if ls == [] then 0 else SumLen(ls[..|ls| - 1]) + Utf16Length(ls[|ls| - 1])
  }

  /** A window's sum is the length of its three lines. */
  lemma WindowSum(w: seq<string>)
    requires |w| == BlockHeight
    ensures SumLen(w) == Utf16Length(w[0]) + Utf16Length(w[1]) + Utf16Length(w[2])
  {
    assert w[..2][..1] == [w[0]];
    assert w[..2][..1][..0] == [];
    assert SumLen(w) == SumLen(w[..2]) + Utf16Length(w[2]);
    assert SumLen(w[..2]) == SumLen(w[..2][..1]) + Utf16Length(w[1]);
  }

  /** The scan of `extractText`: one entry per window start `i` with
      `i < |ls| - BlockHeight`, the total length of `ls[i..i + BlockHeight]`. So there
      are max(0, |ls| - 3) windows. The window made of the last three lines is not
      recorded, so the last line counts in no window. */
  function Density(ls: seq<string>): (r: seq<int>)
    ensures |r| == if |ls| > BlockHeight then |ls| - BlockHeight else 0
  {
    seq(if |ls| > BlockHeight then |ls| - BlockHeight else 0,
        i requires 0 <= i < |ls| - BlockHeight => SumLen(ls[i..i + BlockHeight]))
  }

  /** Window `i` counts lines i, i+1 and i+2, so it is never negative. */
  lemma DensityShape(ls: seq<string>, i: int)
    requires 0 <= i < |Density(ls)|
    ensures Density(ls)[i] == Utf16Length(ls[i]) + Utf16Length(ls[i + 1]) + Utf16Length(ls[i + 2])
    ensures Density(ls)[i] >= 0
  {
    WindowSum(ls[i..i + BlockHeight]);
  }

  /** The last line never counts: replacing it leaves every window unchanged. */
  lemma LastLineIgnored(ls: seq<string>, a: string)
    requires |ls| >= 1
    ensures Density(ls[..|ls| - 1] + [a]) == Density(ls)
  {
    var ms := ls[..|ls| - 1] + [a];
    var d, e := Density(ms), Density(ls);
    forall i | 0 <= i < |d| ensures d[i] == e[i] {
      DensityShape(ms, i);
      DensityShape(ls, i);
    }
  }

  /** Sliding the window by one line adds the line entering and drops the line leaving. */
  lemma DensitySlide(ls: seq<string>, i: int)
    requires 0 <= i < |Density(ls)| - 1
    ensures Density(ls)[i + 1] - Density(ls)[i] == Utf16Length(ls[i + BlockHeight]) - Utf16Length(ls[i])
  {
    DensityShape(ls, i);
    DensityShape(ls, i + 1);
  }

  /** A window counts zero exactly when its three lines are all empty. */
  lemma DensityZero(ls: seq<string>, i: int)
    requires 0 <= i < |Density(ls)|
    ensures Density(ls)[i] == 0 <==> ls[i] == "" && ls[i + 1] == "" && ls[i + 2] == ""
  {
    DensityShape(ls, i);
  }
}
