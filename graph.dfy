/**
 The contribution grid: daily counts (oldest first) are cut into weekly
 columns of seven, the most recent 32 columns are kept, and every kept day
 becomes one 8x8 shaded cell on the 296x128 e-ink display. Appending a
 rectangle to the display's splash group is modelled by appending a `Cell`
 to the returned sequence.
 */
module ContributionGraph {
  import opened ContributionStats

  // Display and graph settings of `draw_contribution_graph`.
  const DisplayWidth := 296
  const DisplayHeight := 128
  const Weeks := 32
  const DaysPerWeek := 7
  const CellWidth := 8
  const CellHeight := 8
  const Gap := 1
  const GraphWidth := Weeks * CellWidth + (Weeks - 1) * Gap
  const GraphHeight := DaysPerWeek * CellHeight + (DaysPerWeek - 1) * Gap
  // Python's `//` floors; Dafny's `/` does too when the divisor is positive.
  const StartX := (DisplayWidth - GraphWidth) / 2
  const StartY := 3

  // The five grey shades, lightest first.
  const Empty := 0xEEEEEE
  const Light := 0xAAAAAA
  const Medium := 0x777777
  const Dark := 0x333333
  const Black := 0x000000

  /** One filled rectangle handed to the display. */
  datatype Cell = Cell(x: int, y: int, width: int, height: int, color: int)

  function Min(a: int, b: int): int { if a <= b then a else b }

  /**
   The shade of a day with `count` contributions against the scale
   `maxContrib`. The thresholds `count <= maxContrib * 0.25`, `* 0.5` and
   `* 0.75` are written as exact integer comparisons; they are checked in
   order and the first one that holds wins.
   */
  function Bucket(count: nat, maxContrib: nat): (color: int)
    ensures color in {Empty, Light, Medium, Dark, Black}
    ensures color == Empty <==> count == 0
  {
    if count == 0 then Empty
    else if 4 * count <= maxContrib then Light
    else if 2 * count <= maxContrib then Medium
    else if 4 * count <= 3 * maxContrib then Dark
    else Black
  }

  /** The same if-chain with the source's fractional thresholds, over exact rationals. */
  function BucketByFraction(count: nat, maxContrib: nat): int
  {
    if count == 0 then Empty
    else if count as real <= maxContrib as real * 0.25 then Light
    else if count as real <= maxContrib as real * 0.5 then Medium
    else if count as real <= maxContrib as real * 0.75 then Dark
    else Black
  }

  /** The integer thresholds pick exactly the shade the fractional ones pick. */
  lemma BucketMatchesFractions(count: nat, maxContrib: nat)
    ensures Bucket(count, maxContrib) == BucketByFraction(count, maxContrib)
  {
  }

  /** How dark a shade is: 0 for the lightest, 4 for black. */
  function Darkness(color: int): nat
  {
    if color == Empty then 0
    else if color == Light then 1
    else if color == Medium then 2
    else if color == Dark then 3
    else 4
  }

  /** A larger count never gets a lighter shade. */
  lemma BucketMonotone(c1: nat, c2: nat, maxContrib: nat)
    requires c1 <= c2
    ensures Darkness(Bucket(c1, maxContrib)) <= Darkness(Bucket(c2, maxContrib))
  {
  }

  /** A day that reaches a positive scale is black; a non-zero day at most a quarter of it is light. */
  lemma BucketAtScale(count: nat, maxContrib: nat)
    requires maxContrib > 0
    ensures count >= maxContrib ==> Bucket(count, maxContrib) == Black
    ensures count > 0 && 4 * count <= maxContrib ==> Bucket(count, maxContrib) == Light
  {
  }

  /**
   The colour scale: `max(contributions)`, taken over the WHOLE input before
   any week is dropped, and 1 when that maximum is 0.
   */
  function MaxContrib(s: seq<nat>): (m: nat)
    ensures m >= 1
    ensures forall i :: 0 <= i < |s| ==> s[i] <= m
    ensures m == 1 || m in s
    ensures (forall i :: 0 <= i < |s| ==> s[i] == 0) ==> m == 1
  {
    var best := Best(s);
    if best == 0 then 1 else best
  }

  /** Number of chunks `range(0, n, 7)` yields: n / 7 rounded up. */
  function NumWeeks(n: nat): (weeks: nat)
    ensures n <= DaysPerWeek * weeks < n + DaysPerWeek
  {
    (n + DaysPerWeek - 1) / DaysPerWeek
  }

  /** The week-th chunk, `contributions[7*week : 7*week + 7]`. */
  function Week(s: seq<nat>, week: nat): (chunk: seq<nat>)
    requires DaysPerWeek * week < |s|
    ensures 0 < |chunk| <= DaysPerWeek && DaysPerWeek * week + |chunk| <= |s|
    ensures |chunk| == DaysPerWeek || DaysPerWeek * week + |chunk| == |s|
    ensures forall d :: 0 <= d < |chunk| ==> chunk[d] == s[DaysPerWeek * week + d]
  {
    s[DaysPerWeek * week .. Min(DaysPerWeek * week + DaysPerWeek, |s|)]
  }

  /** Concatenation of a list of chunks. */
  function Flatten(chunks: seq<seq<nat>>): seq<nat>
  {
    if |chunks| == 0 then [] else Flatten(chunks[..|chunks| - 1]) + chunks[|chunks| - 1]
  }

  /**
   Index of the first day that is drawn: the days of the chunks dropped when
   more than 32 chunks exist.
   */
  function FirstKept(n: nat): (first: nat)
    ensures first <= n && first % DaysPerWeek == 0
    ensures n - first <= Weeks * DaysPerWeek
    ensures n <= Weeks * DaysPerWeek ==> first == 0
    ensures n > Weeks * DaysPerWeek ==> n - first > (Weeks - 1) * DaysPerWeek
  {
    if NumWeeks(n) > Weeks then DaysPerWeek * (NumWeeks(n) - Weeks) else 0
  }

  /** The days that are drawn: everything from the first kept chunk on. */
  function Window(s: seq<nat>): (kept: seq<nat>)
    ensures |kept| <= Weeks * DaysPerWeek
    ensures |kept| <= |s| && kept == s[|s| - |kept|..]
    ensures |s| <= Weeks * DaysPerWeek ==> kept == s
  {
    s[FirstKept(|s|)..]
  }

  /** The cell for `count` drawn in column `week`, row `day`, shaded against `maxContrib`. */
  function CellOf(week: nat, day: nat, count: nat, maxContrib: nat): (cell: Cell)
    ensures cell.width == CellWidth && cell.height == CellHeight
    ensures week < Weeks && day < DaysPerWeek ==>
      0 <= cell.x && cell.x + cell.width <= DisplayWidth && 0 <= cell.y && cell.y + cell.height <= DisplayHeight
    ensures cell.color == Empty <==> count == 0
  {
    Cell(StartX + week * (CellWidth + Gap), StartY + day * (CellHeight + Gap),
         CellWidth, CellHeight, Bucket(count, maxContrib))
  }

  /** The cells for the kept days, week-major then day-minor: kept day `i` is row `i % 7` of column `i / 7`. */
  function Grid(kept: seq<nat>, maxContrib: nat): (cells: seq<Cell>)
    ensures |cells| == |kept|
  {
    if |kept| == 0 then []
    else
      var i := |kept| - 1;
      Grid(kept[..i], maxContrib) + [CellOf(i / DaysPerWeek, i % DaysPerWeek, kept[i], maxContrib)]
  }

  /** Every cell `draw_contribution_graph` emits, in emission order. */
  function Layout(s: seq<nat>): seq<Cell>
  {
    Grid(Window(s), MaxContrib(s))
  }

  /**
   The chunking of `draw_contribution_graph`: cut the input into chunks of
   seven days (the last one may be shorter), then keep only the last 32.
   The kept chunks are exactly the chunks of the window.
   */
  method WeekColumns(contributions: seq<nat>) returns (weekData: seq<seq<nat>>)
    ensures |weekData| == NumWeeks(|Window(contributions)|) <= Weeks
    ensures forall w :: 0 <= w < |weekData| ==>
      DaysPerWeek * w < |Window(contributions)| && weekData[w] == Week(Window(contributions), w)
  {
    weekData := [];
    var i := 0;
    while i < |contributions|
      invariant i == DaysPerWeek * |weekData|
      invariant i <= |contributions| + DaysPerWeek - 1
      invariant forall w :: 0 <= w < |weekData| ==> DaysPerWeek * w < |contributions| && weekData[w] == Week(contributions, w)
    {
      weekData := weekData + [contributions[i .. Min(i + DaysPerWeek, |contributions|)]];
      i := i + DaysPerWeek;
    }
    assert |weekData| == NumWeeks(|contributions|);
    ghost var allWeeks, dropped := weekData, FirstKept(|contributions|) / DaysPerWeek;
    if |weekData| > Weeks {
      weekData := weekData[|weekData| - Weeks..];
    }
    assert weekData == allWeeks[dropped..];
    forall w | 0 <= w < |weekData|
      ensures DaysPerWeek * w < |Window(contributions)| && weekData[w] == Week(Window(contributions), w)
    {
      KeptWeek(contributions, w);
    }
  }

  /** The chunks concatenate back to the input: nothing is lost, duplicated or reordered. */
  lemma {:induction false} ChunksConcatenate(s: seq<nat>, weekData: seq<seq<nat>>)
    requires |weekData| == NumWeeks(|s|)
    requires forall w :: 0 <= w < |weekData| ==> DaysPerWeek * w < |s| && weekData[w] == Week(s, w)
    ensures Flatten(weekData) == s
  {
    FlattenPrefix(s, weekData, |weekData|);
    assert weekData[..|weekData|] == weekData;
    assert Min(DaysPerWeek * |weekData|, |s|) == |s|;
    assert s[..|s|] == s;
  }

  lemma {:induction false} FlattenPrefix(s: seq<nat>, weekData: seq<seq<nat>>, k: nat)
    requires k <= |weekData| == NumWeeks(|s|)
    requires forall w :: 0 <= w < |weekData| ==> DaysPerWeek * w < |s| && weekData[w] == Week(s, w)
    ensures Flatten(weekData[..k]) == s[..Min(DaysPerWeek * k, |s|)]
  {
    if k > 0 {
      FlattenPrefix(s, weekData, k - 1);
      assert weekData[..k][..k - 1] == weekData[..k - 1];
      var lo, hi := DaysPerWeek * (k - 1), Min(DaysPerWeek * k, |s|);
      assert s[..hi] == s[..lo] + s[lo..hi];
    }
  }

  /** Kept week `w` is chunk `first/7 + w` of the input and chunk `w` of the window. */
  lemma KeptWeek(s: seq<nat>, w: nat)
    requires w < NumWeeks(|s|) - FirstKept(|s|) / DaysPerWeek
    ensures DaysPerWeek * (FirstKept(|s|) / DaysPerWeek + w) < |s|
    ensures DaysPerWeek * w < |Window(s)|
    ensures Week(s, FirstKept(|s|) / DaysPerWeek + w) == Week(Window(s), w)
  {
  }

  /** Drawing one more kept day appends its cell to the grid. */
  lemma GridExtend(kept: seq<nat>, k: nat, maxContrib: nat)
    requires k < |kept|
    ensures Grid(kept[..k + 1], maxContrib)
      == Grid(kept[..k], maxContrib) + [CellOf(k / DaysPerWeek, k % DaysPerWeek, kept[k], maxContrib)]
  {
    assert kept[..k + 1][..k] == kept[..k];
  }

  /** Day `d` of week `w` is kept day `7*w + d`, and that index splits back into `w` and `d`. */
  lemma DayPosition(w: nat, d: nat)
    requires d < DaysPerWeek
    ensures (DaysPerWeek * w + d) / DaysPerWeek == w
    ensures (DaysPerWeek * w + d) % DaysPerWeek == d
  {
  }

  /** The cells of one weekly column, top to bottom: day `d` of the week is row `d`. */
  function ColumnCells(week: seq<nat>, weekIdx: nat, maxContrib: nat): (cells: seq<Cell>)
    ensures |cells| == |week|
  {
    if |week| == 0 then []
    else ColumnCells(week[..|week| - 1], weekIdx, maxContrib) + [CellOf(weekIdx, |week| - 1, week[|week| - 1], maxContrib)]
  }

  /** The first `d` days of kept week `w` extend the grid by the first `d` cells of column `w`. */
  lemma {:induction false} GridColumnPrefix(kept: seq<nat>, w: nat, d: nat, maxContrib: nat)
    requires d <= DaysPerWeek && DaysPerWeek * w + d <= |kept|
    ensures Grid(kept[..DaysPerWeek * w + d], maxContrib)
      == Grid(kept[..DaysPerWeek * w], maxContrib) + ColumnCells(kept[DaysPerWeek * w .. DaysPerWeek * w + d], w, maxContrib)
  {
    if d > 0 {
      var k := DaysPerWeek * w + d - 1;
      GridColumnPrefix(kept, w, d - 1, maxContrib);
      GridExtend(kept, k, maxContrib);
      DayPosition(w, d - 1);
      assert kept[DaysPerWeek * w .. k + 1][..d - 1] == kept[DaysPerWeek * w .. k];
    }
  }

  /** Drawing kept week `w` as a column extends the grid by exactly that week's days. */
  lemma GridColumn(kept: seq<nat>, w: nat, maxContrib: nat)
    requires DaysPerWeek * w < |kept|
    ensures Grid(kept[..Min(DaysPerWeek * w + DaysPerWeek, |kept|)], maxContrib)
      == Grid(kept[..DaysPerWeek * w], maxContrib) + ColumnCells(Week(kept, w), w, maxContrib)
  {
    GridColumnPrefix(kept, w, Min(DaysPerWeek * w + DaysPerWeek, |kept|) - DaysPerWeek * w, maxContrib);
  }

  /**
   The inner loop of `draw_contribution_graph`: one rectangle per day of the
   week, appended to the display's splash group.
   */
  method DrawWeek(splash: seq<Cell>, week: seq<nat>, weekIdx: nat, maxContrib: nat) returns (drawn: seq<Cell>)
    ensures drawn == splash + ColumnCells(week, weekIdx, maxContrib)
  {
    drawn := splash;
    var dayIdx := 0;
    while dayIdx < |week|
      invariant dayIdx <= |week|
      invariant drawn == splash + ColumnCells(week[..dayIdx], weekIdx, maxContrib)
    {
      var count := week[dayIdx];
      var x := StartX + weekIdx * (CellWidth + Gap);
      var y := StartY + dayIdx * (CellHeight + Gap);
      var color := Bucket(count, maxContrib);
      assert week[..dayIdx + 1][..dayIdx] == week[..dayIdx];
      drawn := drawn + [Cell(x, y, CellWidth, CellHeight, color)];
      dayIdx := dayIdx + 1;
    }
    assert week[..|week|] == week;
  }

  /**
   `draw_contribution_graph`: the cells in the order they are appended to
   the display.
   */
  method DrawContributionGraph(contributions: seq<nat>) returns (cells: seq<Cell>)
    ensures cells == Layout(contributions)
  {
    cells := [];
    if |contributions| == 0 {
      return;
    }
    var maxContrib := Best(contributions);
    if maxContrib == 0 {
      maxContrib := 1;
    }
    assert maxContrib == MaxContrib(contributions);
    var weekData := WeekColumns(contributions);
    ghost var kept := Window(contributions);
    var weekIdx := 0;
    while weekIdx < |weekData|
      invariant weekIdx <= |weekData|
      invariant |cells| == Min(DaysPerWeek * weekIdx, |kept|)
      invariant cells == Grid(kept[..|cells|], maxContrib)
    {
      var week := weekData[weekIdx];
      GridColumn(kept, weekIdx, maxContrib);
      cells := DrawWeek(cells, week, weekIdx, maxContrib);
      weekIdx := weekIdx + 1;
    }
    assert kept[..|cells|] == kept;
  }
}
