// The row/column majority run-fill of the skin mask against the dilated edge map
// (mergePixelsAndCanny). A line is a row in the horizontal pass and a column in the
// vertical one. The non-zero cells of the dilated map on a line are its separators; each
// run of cells that ends at a separator is overwritten with 0 when the skin mask has
// strictly more black than white cells in it, and with 255 otherwise. Separators and the
// cells after the line's last separator are left as they were.

module RunFill {
  import opened Geometry

  // ----- one line, as sequences -----

  /** The first separator at or after position k, or |dil| when there is none. */
  function NextSep(dil: seq<Byte>, k: nat): (s: nat)
    requires k <= |dil|
    ensures k <= s <= |dil|
    ensures s < |dil| ==> dil[s] > 0
    ensures forall m :: k <= m < s ==> dil[m] == 0
    decreases |dil| - k
  {
    if k == |dil| then |dil| else if dil[k] > 0 then k else NextSep(dil, k + 1)
  }

  /** Where the run containing position j begins: one past the last separator before j,
      or 0 when there is none. */
  function LastCorner(dil: seq<Byte>, j: nat): (lc: nat)
    requires j <= |dil|
    ensures lc <= j
    ensures forall m :: lc <= m < j ==> dil[m] == 0
    ensures lc > 0 ==> dil[lc - 1] > 0
  {
    if j == 0 then 0 else if dil[j - 1] > 0 then j else LastCorner(dil, j - 1)
  }

  /** The number of non-separator cells in [lo, hi) whose mask value is black (0) when
      `black` holds, and non-zero otherwise. */
  function Count(bin: seq<Byte>, dil: seq<Byte>, lo: nat, hi: nat, black: bool): (n: nat)
    requires |bin| == |dil| && lo <= hi <= |dil|
    ensures n <= hi - lo
    decreases hi
  {
    if hi == lo then 0
    else Count(bin, dil, lo, hi - 1, black) + (if dil[hi - 1] == 0 && (bin[hi - 1] == 0) == black then 1 else 0)
  }

  /** Counting one more cell. */
  lemma CountExtend(bin: seq<Byte>, dil: seq<Byte>, lo: nat, hi: nat)
    requires |bin| == |dil| && lo <= hi < |dil|
    ensures Count(bin, dil, lo, hi + 1, true) == Count(bin, dil, lo, hi, true) + (if dil[hi] == 0 && bin[hi] == 0 then 1 else 0)
    ensures Count(bin, dil, lo, hi + 1, false) == Count(bin, dil, lo, hi, false) + (if dil[hi] == 0 && bin[hi] != 0 then 1 else 0)
  {
  }

  /** The value a run [lo, hi) is filled with: black or white, and white on a tie. */
  function FillColor(bin: seq<Byte>, dil: seq<Byte>, lo: nat, hi: nat): (color: Byte)
    requires |bin| == |dil| && lo <= hi <= |dil|
    ensures color == 0 || color == 255
    ensures Count(bin, dil, lo, hi, true) == Count(bin, dil, lo, hi, false) ==> color == 255
  {
    if Count(bin, dil, lo, hi, true) > Count(bin, dil, lo, hi, false) then 0 else 255
  }

  /** Position k is rewritten: it is no separator and a separator follows it. */
  predicate Filled(dil: seq<Byte>, k: nat)
    requires k < |dil|
  {
    dil[k] == 0 && NextSep(dil, k) < |dil|
  }

  /** The line after the run-fill, given the mask line, the dilated line and the line's
      previous contents. */
  function MergedLine(bin: seq<Byte>, dil: seq<Byte>, line: seq<Byte>): (m: seq<Byte>)
    requires |bin| == |dil| == |line|
    ensures |m| == |line|
  {
    seq(|line|, k requires 0 <= k < |line| =>
      if Filled(dil, k) then FillColor(bin, dil, LastCorner(dil, k), NextSep(dil, k)) else line[k])
  }

  /** Inside a run [lc, j) closed by the separator at j, every position sees lc as its
      run's start. */
  lemma {:induction false} LastCornerInRun(dil: seq<Byte>, lc: nat, k: nat)
    requires lc <= k <= |dil|
    requires lc > 0 ==> dil[lc - 1] > 0
    requires forall m :: lc <= m < k ==> dil[m] == 0
    ensures LastCorner(dil, k) == lc
    decreases k
  {
    if k > lc {
      LastCornerInRun(dil, lc, k - 1);
    }
  }

  /** Every position of a run sees the separator that closes it as the next one. */
  lemma {:induction false} NextSepInRun(dil: seq<Byte>, k: nat, j: nat)
    requires k <= j < |dil| && dil[j] > 0
    requires forall m :: k <= m < j ==> dil[m] == 0
    ensures NextSep(dil, k) == j
    decreases j - k
  {
    if k < j {
      NextSepInRun(dil, k + 1, j);
    }
  }

  /** The run closed by the separator at j is filled, all of it, with one colour. */
  lemma RunFilled(bin: seq<Byte>, dil: seq<Byte>, line: seq<Byte>, j: nat)
    requires |bin| == |dil| == |line| && j < |dil| && dil[j] > 0
    ensures forall k :: LastCorner(dil, j) <= k < j ==>
      MergedLine(bin, dil, line)[k] == FillColor(bin, dil, LastCorner(dil, j), j)
  {
    var lc := LastCorner(dil, j);
    forall k | lc <= k < j
      ensures MergedLine(bin, dil, line)[k] == FillColor(bin, dil, lc, j)
    {
      LastCornerInRun(dil, lc, k);
      NextSepInRun(dil, k, j);
    }
  }

  /** Nothing from the line's last separator onwards is rewritten. */
  lemma TailKept(bin: seq<Byte>, dil: seq<Byte>, line: seq<Byte>)
    requires |bin| == |dil| == |line|
    ensures forall k :: LastCorner(dil, |dil|) <= k < |dil| ==> MergedLine(bin, dil, line)[k] == line[k]
  {
  }

  /** Which cells change: exactly the non-separators that a separator follows, and they
      become 0 or 255. */
  lemma MergedLineCells(bin: seq<Byte>, dil: seq<Byte>, line: seq<Byte>, k: nat)
    requires |bin| == |dil| == |line| && k < |line|
    ensures dil[k] > 0 ==> MergedLine(bin, dil, line)[k] == line[k]
    ensures (forall m :: k <= m < |dil| ==> dil[m] == 0) ==> MergedLine(bin, dil, line)[k] == line[k]
    ensures (dil[k] == 0 && exists m :: k < m < |dil| && dil[m] > 0) ==>
      MergedLine(bin, dil, line)[k] in {0, 255}
  {
  }

  /** A filled cell is 0 exactly when its run holds strictly more black than white mask
      cells; a tie fills with 255. */
  lemma {:induction false} MergedLineMajority(bin: seq<Byte>, dil: seq<Byte>, line: seq<Byte>, k: nat)
    requires |bin| == |dil| == |line| && k < |line| && Filled(dil, k)
    ensures var lo, hi := LastCorner(dil, k), NextSep(dil, k);
      lo <= k < hi &&
      (MergedLine(bin, dil, line)[k] == 0 <==> Count(bin, dil, lo, hi, true) > Count(bin, dil, lo, hi, false)) &&
      (MergedLine(bin, dil, line)[k] == 255 <==> Count(bin, dil, lo, hi, true) <= Count(bin, dil, lo, hi, false))
  {
  }

  /** Two cells with no separator between them end up alike when either is filled. */
  lemma {:induction false} RunIsUniform(bin: seq<Byte>, dil: seq<Byte>, line: seq<Byte>, k: nat, k': nat)
    requires |bin| == |dil| == |line| && k <= k' < |line|
    requires forall m :: k <= m <= k' ==> dil[m] == 0
    requires Filled(dil, k) || Filled(dil, k')
    ensures Filled(dil, k) && Filled(dil, k')
    ensures MergedLine(bin, dil, line)[k] == MergedLine(bin, dil, line)[k']
  {
    var j := NextSep(dil, k');
    NextSepInRun(dil, k, j);
    var lc := LastCorner(dil, k);
    LastCornerInRun(dil, lc, k');
  }

  /** Every cell of a merged line is its old value, 0 or 255, and separators keep theirs. */
  lemma MergedCellValues(bin: seq<Byte>, dil: seq<Byte>, line: seq<Byte>, k: nat)
    requires |bin| == |dil| == |line| && k < |line|
    ensures dil[k] > 0 ==> MergedLine(bin, dil, line)[k] == line[k]
    ensures MergedLine(bin, dil, line)[k] in {0, 255, line[k]}
  {
    MergedLineCells(bin, dil, line, k);
    if dil[k] == 0 && !(forall m :: k <= m < |dil| ==> dil[m] == 0) {
      var m :| k <= m < |dil| && dil[m] != 0;
      assert k < m;
    }
  }

  // ----- the matrices -----

  /** Number of lines: rows in the horizontal pass, columns in the vertical one. */
  function Lines(a: array2<Byte>, horizontal: bool): nat
  {
    if horizontal then a.Length0 else a.Length1
  }

  /** Length of one line. */
  function LineLen(a: array2<Byte>, horizontal: bool): nat
  {
    if horizontal then a.Length1 else a.Length0
  }

  /** Cell j of line i. */
  function At(a: array2<Byte>, horizontal: bool, i: nat, j: nat): Byte
    reads a
    requires i < Lines(a, horizontal) && j < LineLen(a, horizontal)
  {
    if horizontal then a[i, j] else a[j, i]
  }

  /** Line i as a sequence. */
  function Line(a: array2<Byte>, horizontal: bool, i: nat): (l: seq<Byte>)
    reads a
    requires i < Lines(a, horizontal)
    ensures |l| == LineLen(a, horizontal)
  {
    seq(LineLen(a, horizontal), j requires 0 <= j < LineLen(a, horizontal) reads a => At(a, horizontal, i, j))
  }

  /** Cell (r, c) belongs to line i. */
  predicate OnLine(horizontal: bool, i: nat, r: nat, c: nat)
  {
    if horizontal then r == i else c == i
  }

  predicate SameShape(a: array2<Byte>, b: array2<Byte>)
    reads {}
  {
    a.Length0 == b.Length0 && a.Length1 == b.Length1
  }

  /** One line of the run-fill, written in place into pixelsAndCanny: a single scan that
      counts black and white mask cells since the last separator and, at each separator,
      paints the run behind it. */
  method MergeLine(horizontal: bool, classifiedSkinBin: array2<Byte>, dilated: array2<Byte>,
                   pixelsAndCanny: array2<Byte>, i: nat)
    requires SameShape(classifiedSkinBin, pixelsAndCanny) && SameShape(dilated, pixelsAndCanny)
    requires pixelsAndCanny != classifiedSkinBin && pixelsAndCanny != dilated
    requires i < Lines(pixelsAndCanny, horizontal)
    modifies pixelsAndCanny
    ensures Line(pixelsAndCanny, horizontal, i) ==
      MergedLine(Line(classifiedSkinBin, horizontal, i), Line(dilated, horizontal, i), old(Line(pixelsAndCanny, horizontal, i)))
    ensures forall r :: 0 <= r < Lines(pixelsAndCanny, horizontal) && r != i ==>
      Line(pixelsAndCanny, horizontal, r) == old(Line(pixelsAndCanny, horizontal, r))
  {
    ghost var bin := Line(classifiedSkinBin, horizontal, i);
    ghost var dil := Line(dilated, horizontal, i);
    ghost var line := Line(pixelsAndCanny, horizontal, i);
    ghost var merged := MergedLine(bin, dil, line);
    ScanLine(horizontal, classifiedSkinBin, dilated, pixelsAndCanny, i, bin, dil, line, merged);
    TailKept(bin, dil, line);
    LineFromCells(pixelsAndCanny, horizontal, i, merged);
  }

  /** All lines of a, in order. */
  ghost function Lines2(a: array2<Byte>, horizontal: bool): (ls: seq<seq<Byte>>)
    reads a
    ensures |ls| == Lines(a, horizontal)
    ensures forall r :: 0 <= r < |ls| ==> ls[r] == Line(a, horizontal, r)
  {
    seq(Lines(a, horizontal), r requires 0 <= r < Lines(a, horizontal) reads a => Line(a, horizontal, r))
  }

  /** Every line of a other than line i is as in the snapshot. */
  ghost predicate OthersKept(a: array2<Byte>, horizontal: bool, i: nat, before: seq<seq<Byte>>)
    reads a
  {
    |before| == Lines(a, horizontal) &&
    forall r :: 0 <= r < Lines(a, horizontal) && r != i ==> Line(a, horizontal, r) == before[r]
  }

  /** Cells of line i before lastCorner hold their merged value, the others their old one. */
  ghost predicate ScanState(a: array2<Byte>, horizontal: bool, i: nat, lastCorner: nat, line: seq<Byte>, merged: seq<Byte>)
    reads a
  {
    i < Lines(a, horizontal) && |line| == |merged| == LineLen(a, horizontal) &&
    forall k :: 0 <= k < |line| ==> At(a, horizontal, i, k) == if k < lastCorner then merged[k] else line[k]
  }

  /** The scan of one line: afterwards every cell before the last separator holds the
      merged value and every later cell its old value. */
  method ScanLine(horizontal: bool, classifiedSkinBin: array2<Byte>, dilated: array2<Byte>,
                  pixelsAndCanny: array2<Byte>, i: nat,
                  ghost bin: seq<Byte>, ghost dil: seq<Byte>, ghost line: seq<Byte>, ghost merged: seq<Byte>)
    requires SameShape(classifiedSkinBin, pixelsAndCanny) && SameShape(dilated, pixelsAndCanny)
    requires pixelsAndCanny != classifiedSkinBin && pixelsAndCanny != dilated
    requires i < Lines(pixelsAndCanny, horizontal)
    requires bin == Line(classifiedSkinBin, horizontal, i) && dil == Line(dilated, horizontal, i)
    requires line == Line(pixelsAndCanny, horizontal, i) && merged == MergedLine(bin, dil, line)
    modifies pixelsAndCanny
    ensures forall k :: 0 <= k < |line| ==>
      At(pixelsAndCanny, horizontal, i, k) == if k < LastCorner(dil, |dil|) then merged[k] else line[k]
    ensures forall r :: 0 <= r < Lines(pixelsAndCanny, horizontal) && r != i ==>
      Line(pixelsAndCanny, horizontal, r) == old(Line(pixelsAndCanny, horizontal, r))
  {
    var n := LineLen(pixelsAndCanny, horizontal);
    ghost var before := Lines2(pixelsAndCanny, horizontal);
    var black, white := 0, 0;
    var lastCorner := 0;
    for j := 0 to n
      invariant lastCorner == LastCorner(dil, j)
      invariant black == Count(bin, dil, lastCorner, j, true)
      invariant white == Count(bin, dil, lastCorner, j, false)
      invariant ScanState(pixelsAndCanny, horizontal, i, lastCorner, line, merged)
      invariant OthersKept(pixelsAndCanny, horizontal, i, before)
    {
      lastCorner, black, white :=
        MergeCell(horizontal, classifiedSkinBin, dilated, pixelsAndCanny, i, j, lastCorner, black, white, bin, dil, line, merged, before);
    }
  }

  /** A line whose every cell matches s is s. */
  lemma LineFromCells(a: array2<Byte>, horizontal: bool, i: nat, s: seq<Byte>)
    requires i < Lines(a, horizontal) && |s| == LineLen(a, horizontal)
    requires forall k :: 0 <= k < |s| ==> At(a, horizontal, i, k) == s[k]
    ensures Line(a, horizontal, i) == s
  {
  }

  /** One cell j of the scan: a separator closes the run behind it; any other cell is
      counted as black or white by the skin mask. */
  method MergeCell(horizontal: bool, classifiedSkinBin: array2<Byte>, dilated: array2<Byte>,
                   pixelsAndCanny: array2<Byte>, i: nat, j: nat, lastCorner: nat, black: nat, white: nat,
                   ghost bin: seq<Byte>, ghost dil: seq<Byte>, ghost line: seq<Byte>, ghost merged: seq<Byte>,
                   ghost before: seq<seq<Byte>>)
    returns (lastCorner': nat, black': nat, white': nat)
    requires SameShape(classifiedSkinBin, pixelsAndCanny) && SameShape(dilated, pixelsAndCanny)
    requires pixelsAndCanny != classifiedSkinBin && pixelsAndCanny != dilated
    requires i < Lines(pixelsAndCanny, horizontal) && j < LineLen(pixelsAndCanny, horizontal)
    requires bin == Line(classifiedSkinBin, horizontal, i) && dil == Line(dilated, horizontal, i)
    requires |line| == |dil| && merged == MergedLine(bin, dil, line)
    requires lastCorner == LastCorner(dil, j)
    requires black == Count(bin, dil, lastCorner, j, true) && white == Count(bin, dil, lastCorner, j, false)
    requires ScanState(pixelsAndCanny, horizontal, i, lastCorner, line, merged)
    requires OthersKept(pixelsAndCanny, horizontal, i, before)
    modifies pixelsAndCanny
    ensures lastCorner' == LastCorner(dil, j + 1)
    ensures black' == Count(bin, dil, lastCorner', j + 1, true) && white' == Count(bin, dil, lastCorner', j + 1, false)
    ensures ScanState(pixelsAndCanny, horizontal, i, lastCorner', line, merged)
    ensures OthersKept(pixelsAndCanny, horizontal, i, before)
  {
    var cannyPixel := At(dilated, horizontal, i, j);
    var classifiedPixel := At(classifiedSkinBin, horizontal, i, j);
    if cannyPixel > 0 {
      assert dil[j] == cannyPixel;
      CloseRun(horizontal, pixelsAndCanny, i, j, lastCorner, black, white, bin, dil, line, merged);
      lastCorner', black', white' := j + 1, 0, 0;
      forall r | 0 <= r < Lines(pixelsAndCanny, horizontal) && r != i
        ensures Line(pixelsAndCanny, horizontal, r) == before[r]
      {
        assert Line(pixelsAndCanny, horizontal, r) == old(Line(pixelsAndCanny, horizontal, r));
      }
    } else {
      assert dil[j] == 0 && bin[j] == classifiedPixel;
      CountExtend(bin, dil, lastCorner, j);
      assert LastCorner(dil, j + 1) == lastCorner;
      lastCorner' := lastCorner;
      if classifiedPixel == 0 {
        black', white' := black + 1, white;
      } else {
        black', white' := black, white + 1;
      }
    }
  }

  /** At the separator j: paints the run [lastCorner, j) behind it with the majority
      colour, after which every cell before j + 1 holds its merged value. */
  method CloseRun(horizontal: bool, pixelsAndCanny: array2<Byte>, i: nat, j: nat, lastCorner: nat,
                  black: nat, white: nat, ghost bin: seq<Byte>, ghost dil: seq<Byte>, ghost line: seq<Byte>,
                  ghost merged: seq<Byte>)
    requires i < Lines(pixelsAndCanny, horizontal)
    requires |bin| == |dil| == |line| == LineLen(pixelsAndCanny, horizontal)
    requires j < |dil| && dil[j] > 0 && merged == MergedLine(bin, dil, line)
    requires lastCorner == LastCorner(dil, j)
    requires black == Count(bin, dil, lastCorner, j, true) && white == Count(bin, dil, lastCorner, j, false)
    requires forall k :: 0 <= k < |line| ==>
      At(pixelsAndCanny, horizontal, i, k) == if k < lastCorner then merged[k] else line[k]
    modifies pixelsAndCanny
    ensures forall k :: 0 <= k < |line| ==>
      At(pixelsAndCanny, horizontal, i, k) == if k < j + 1 then merged[k] else line[k]
    ensures forall r, c :: 0 <= r < pixelsAndCanny.Length0 && 0 <= c < pixelsAndCanny.Length1 && !OnLine(horizontal, i, r, c) ==>
      pixelsAndCanny[r, c] == old(pixelsAndCanny[r, c])
  {
    var currentColor: Byte := 255;
    if black > white {
      currentColor := 0;
    }
    RunFilled(bin, dil, line, j);
    FillRun(horizontal, pixelsAndCanny, i, lastCorner, j, currentColor);
  }

  /** Paints cells [lo, hi) of line i with one colour. */
  method FillRun(horizontal: bool, pixelsAndCanny: array2<Byte>, i: nat, lo: nat, hi: nat, currentColor: Byte)
    requires i < Lines(pixelsAndCanny, horizontal) && lo <= hi <= LineLen(pixelsAndCanny, horizontal)
    modifies pixelsAndCanny
    ensures forall k :: 0 <= k < LineLen(pixelsAndCanny, horizontal) ==>
      At(pixelsAndCanny, horizontal, i, k) == if lo <= k < hi then currentColor else old(At(pixelsAndCanny, horizontal, i, k))
    ensures forall r, c :: 0 <= r < pixelsAndCanny.Length0 && 0 <= c < pixelsAndCanny.Length1 && !OnLine(horizontal, i, r, c) ==>
      pixelsAndCanny[r, c] == old(pixelsAndCanny[r, c])
  {
    for k := lo to hi
      invariant forall k' :: 0 <= k' < LineLen(pixelsAndCanny, horizontal) ==>
        At(pixelsAndCanny, horizontal, i, k') == if lo <= k' < k then currentColor else old(At(pixelsAndCanny, horizontal, i, k'))
      invariant forall r, c :: 0 <= r < pixelsAndCanny.Length0 && 0 <= c < pixelsAndCanny.Length1 && !OnLine(horizontal, i, r, c) ==>
        pixelsAndCanny[r, c] == old(pixelsAndCanny[r, c])
    {
      if horizontal {
        pixelsAndCanny[i, k] := currentColor;
      } else {
        pixelsAndCanny[k, i] := currentColor;
      }
    }
  }

  /** The whole pass: the horizontal pass starts from a fresh copy of the dilated map and
      fills its rows; the vertical pass fills the columns of the existing pixelsAndCanny. */
  method MergePixelsAndCanny(horizontal: bool, classifiedSkinBin: array2<Byte>, dilated: array2<Byte>,
                             pixelsAndCanny: array2<Byte>) returns (result: array2<Byte>)
    requires SameShape(classifiedSkinBin, dilated)
    requires !horizontal ==> SameShape(dilated, pixelsAndCanny)
    requires !horizontal ==> pixelsAndCanny != classifiedSkinBin && pixelsAndCanny != dilated
    modifies if horizontal then {} else {pixelsAndCanny}
    ensures horizontal ==> fresh(result)
    ensures !horizontal ==> result == pixelsAndCanny
    ensures SameShape(result, dilated)
    ensures forall r :: 0 <= r < Lines(result, horizontal) ==>
      Line(result, horizontal, r) ==
        MergedLine(Line(classifiedSkinBin, horizontal, r), Line(dilated, horizontal, r),
                   if horizontal then Line(dilated, horizontal, r) else old(Line(pixelsAndCanny, horizontal, r)))
  {
    if horizontal {
      result := new Byte[dilated.Length0, dilated.Length1]((r: nat, c: nat) reads dilated =>
        if r < dilated.Length0 && c < dilated.Length1 then dilated[r, c] else 0);
      assert forall r :: 0 <= r < Lines(result, horizontal) ==> Line(result, horizontal, r) == Line(dilated, horizontal, r);
    } else {
      result := pixelsAndCanny;
    }
    ghost var start := seq(Lines(result, horizontal), r requires 0 <= r < Lines(result, horizontal) reads result =>
      Line(result, horizontal, r));
    for i := 0 to Lines(result, horizontal)
      invariant forall r :: 0 <= r < Lines(result, horizontal) ==>
        Line(result, horizontal, r) ==
          if r < i then MergedLine(Line(classifiedSkinBin, horizontal, r), Line(dilated, horizontal, r), start[r])
          else start[r]
    {
      label Before:
      MergeLine(horizontal, classifiedSkinBin, dilated, result, i);
    }
  }

  // ---------------------------------------------------------------------------
  // Both passes of the MERGE_PIXELS_AND_CANNY stage

  /** Row r after the horizontal pass: the row of the dilated map, merged. */
  function RowMerged(bin: array2<Byte>, dil: array2<Byte>, r: nat): (row: seq<Byte>)
    reads bin, dil
    requires SameShape(bin, dil) && r < dil.Length0
    ensures |row| == dil.Length1
  {
    MergedLine(Line(bin, true, r), Line(dil, true, r), Line(dil, true, r))
  }

  /** Column c of the matrix the horizontal pass produces. */
  function HorizontalColumn(bin: array2<Byte>, dil: array2<Byte>, c: nat): (col: seq<Byte>)
    reads bin, dil
    requires SameShape(bin, dil) && c < dil.Length1
    ensures |col| == dil.Length0
  {
    seq(dil.Length0, r requires 0 <= r < dil.Length0 reads bin, dil => RowMerged(bin, dil, r)[c])
  }

  /** Column c after the horizontal pass and then the vertical pass. */
  function TwoPassColumn(bin: array2<Byte>, dil: array2<Byte>, c: nat): (col: seq<Byte>)
    reads bin, dil
    requires SameShape(bin, dil) && c < dil.Length1
    ensures |col| == dil.Length0
  {
    MergedLine(Line(bin, false, c), Line(dil, false, c), HorizontalColumn(bin, dil, c))
  }

  /** After both passes, a cell of the dilated map that is a separator keeps its value,
      and every other cell is 0, 255 or its dilated value. */
  lemma TwoPassCells(bin: array2<Byte>, dil: array2<Byte>, c: nat, r: nat)
    requires SameShape(bin, dil) && c < dil.Length1 && r < dil.Length0
    ensures dil[r, c] > 0 ==> TwoPassColumn(bin, dil, c)[r] == dil[r, c]
    ensures TwoPassColumn(bin, dil, c)[r] in {0, 255, dil[r, c]}
  {
    assert Line(dil, true, r)[c] == dil[r, c];
    MergedCellValues(Line(bin, true, r), Line(dil, true, r), Line(dil, true, r), c);
    assert HorizontalColumn(bin, dil, c)[r] == RowMerged(bin, dil, r)[c];
    assert Line(dil, false, c)[r] == dil[r, c];
    MergedCellValues(Line(bin, false, c), Line(dil, false, c), HorizontalColumn(bin, dil, c), r);
  }

  /** A matrix whose every row is the horizontally merged row has the horizontally merged
      columns. */
  lemma HorizontalPassColumns(a: array2<Byte>, bin: array2<Byte>, dil: array2<Byte>)
    requires SameShape(bin, dil) && SameShape(a, dil)
    requires forall r :: 0 <= r < a.Length0 ==> Line(a, true, r) == RowMerged(bin, dil, r)
    ensures forall c :: 0 <= c < a.Length1 ==> Line(a, false, c) == HorizontalColumn(bin, dil, c)
  {
    forall c | 0 <= c < a.Length1
      ensures Line(a, false, c) == HorizontalColumn(bin, dil, c)
    {
      forall r | 0 <= r < a.Length0
        ensures Line(a, false, c)[r] == HorizontalColumn(bin, dil, c)[r]
      {
        assert Line(a, true, r)[c] == a[r, c];
      }
    }
  }

  /** The merge stage entered at its first case: the horizontal pass on a fresh copy of
      the dilated map, falling through to the vertical pass on that copy. */
  method TwoPassMerge(classifiedSkinBin: array2<Byte>, dilated: array2<Byte>) returns (result: array2<Byte>)
    requires SameShape(classifiedSkinBin, dilated)
    ensures fresh(result) && SameShape(result, dilated)
    ensures forall c :: 0 <= c < result.Length1 ==>
      Line(result, false, c) == TwoPassColumn(classifiedSkinBin, dilated, c)
  {
    result := MergePixelsAndCanny(true, classifiedSkinBin, dilated, dilated);
    HorizontalPassColumns(result, classifiedSkinBin, dilated);
    result := MergePixelsAndCanny(false, classifiedSkinBin, dilated, result);
  }
}
