/**
 What the drawn grid promises: how many cells there are, which day each
 cell shows, where it sits on the display and how it is shaded.
 */
module LayoutProperties {
  import opened ContributionStats
  import opened ContributionGraph

  /** Cell `i` of the grid shows kept day `i` in column `i / 7`, row `i % 7`. */
  lemma {:induction false} GridAt(kept: seq<nat>, maxContrib: nat, i: nat)
    requires i < |kept|
    ensures Grid(kept, maxContrib)[i] == CellOf(i / DaysPerWeek, i % DaysPerWeek, kept[i], maxContrib)
  {
    if i < |kept| - 1 {
      GridAt(kept[..|kept| - 1], maxContrib, i);
    }
  }

  /** Cell `i` of the layout shows day `first + i` of the input, shaded against the whole input's maximum. */
  lemma LayoutAt(s: seq<nat>, i: nat)
    requires i < |Layout(s)|
    ensures FirstKept(|s|) + i < |s|
    ensures Layout(s)[i] == CellOf(i / DaysPerWeek, i % DaysPerWeek, s[FirstKept(|s|) + i], MaxContrib(s))
  {
    GridAt(Window(s), MaxContrib(s), i);
  }

  /** An empty series draws nothing. */
  lemma LayoutEmpty()
    ensures Layout([]) == []
  {
  }

  /**
   Up to 224 days every day gets exactly one cell, in input order; beyond
   that only the days of the last 32 chunks (chunked from the start) are
   drawn, which is between 218 and 224 cells.
   */
  lemma LayoutCount(s: seq<nat>)
    ensures |s| <= Weeks * DaysPerWeek ==> |Layout(s)| == |s|
    ensures |s| > Weeks * DaysPerWeek ==> |Layout(s)| == |s| - DaysPerWeek * (NumWeeks(|s|) - Weeks)
    ensures |s| > Weeks * DaysPerWeek ==> (Weeks - 1) * DaysPerWeek < |Layout(s)| <= Weeks * DaysPerWeek
  {
  }

  /** Up to 224 days, cell `i` is day `i` of the input. */
  lemma SmallInputDrawsEveryDay(s: seq<nat>, i: nat)
    requires |s| <= Weeks * DaysPerWeek && i < |s|
    ensures |Layout(s)| == |s|
    ensures Layout(s)[i] == CellOf(i / DaysPerWeek, i % DaysPerWeek, s[i], MaxContrib(s))
  {
    LayoutAt(s, i);
  }

  /** Column and row of a kept-day index lie inside the 32 x 7 grid. */
  lemma ColumnRowBounds(i: nat)
    requires i < Weeks * DaysPerWeek
    ensures i / DaysPerWeek < Weeks && i % DaysPerWeek < DaysPerWeek
  {
  }

  /** Every cell is 8x8 and lies inside the 296x128 display, within x 4..283 and y 3..57. */
  lemma LayoutInsideDisplay(s: seq<nat>, i: nat)
    requires i < |Layout(s)|
    ensures StartX == 4
    ensures Layout(s)[i].width == CellWidth && Layout(s)[i].height == CellHeight
    ensures 4 <= Layout(s)[i].x <= 283 && 3 <= Layout(s)[i].y <= 57
    ensures 0 <= Layout(s)[i].x && Layout(s)[i].x + Layout(s)[i].width <= DisplayWidth
    ensures 0 <= Layout(s)[i].y && Layout(s)[i].y + Layout(s)[i].height <= DisplayHeight
  {
    LayoutAt(s, i);
    ColumnRowBounds(i);
  }

  /** A later kept day is in a later column, or lower in the same column. */
  lemma ColumnMajor(i: nat, j: nat)
    requires i < j
    ensures i / DaysPerWeek < j / DaysPerWeek
      || (i / DaysPerWeek == j / DaysPerWeek && i % DaysPerWeek < j % DaysPerWeek)
  {
  }

  /**
   Cells are emitted week-major, then day-minor: a later cell is further
   right, or in the same column and further down.
   */
  lemma LayoutOrder(s: seq<nat>, i: nat, j: nat)
    requires i < j < |Layout(s)|
    ensures Layout(s)[i].x < Layout(s)[j].x
      || (Layout(s)[i].x == Layout(s)[j].x && Layout(s)[i].y < Layout(s)[j].y)
  {
    LayoutAt(s, i);
    LayoutAt(s, j);
    ColumnMajor(i, j);
  }

  /** No two cells overlap: the 1-pixel gap separates every pair. */
  lemma LayoutNoOverlap(s: seq<nat>, i: nat, j: nat)
    requires i < j < |Layout(s)|
    ensures Layout(s)[i].x + Layout(s)[i].width < Layout(s)[j].x
      || Layout(s)[i].y + Layout(s)[i].height < Layout(s)[j].y
  {
    LayoutAt(s, i);
    LayoutAt(s, j);
    ColumnMajor(i, j);
  }

  /** A series with no contributions draws every cell in the lightest shade. */
  lemma AllZeroIsEmpty(s: seq<nat>, i: nat)
    requires forall k :: 0 <= k < |s| ==> s[k] == 0
    requires i < |Layout(s)|
    ensures Layout(s)[i].color == Empty
  {
    LayoutAt(s, i);
  }

  /** A drawn day that holds the best day of a non-zero series is black. */
  lemma BestDayIsBlack(s: seq<nat>, i: nat)
    requires i < |Layout(s)|
    requires s[FirstKept(|s|) + i] == Best(s) > 0
    ensures Layout(s)[i].color == Black
  {
    LayoutAt(s, i);
  }

  /**
   The scale is taken over the whole input, dropped days included: a drawn
   day at most three quarters of some dropped day is never black, even
   when it is the largest drawn day.
   */
  lemma DroppedDayScalesWindow(s: seq<nat>, i: nat, j: nat)
    requires i < |Layout(s)| && j < FirstKept(|s|)
    requires 4 * s[FirstKept(|s|) + i] <= 3 * s[j]
    ensures Layout(s)[i].color != Black
  {
    LayoutAt(s, i);
  }

  /** The kept chunks concatenate to the window: the drawn days are a suffix of the input, whole chunks only. */
  lemma KeptChunksAreWindow(s: seq<nat>, weekData: seq<seq<nat>>)
    requires |weekData| == NumWeeks(|Window(s)|)
    requires forall w :: 0 <= w < |weekData| ==> DaysPerWeek * w < |Window(s)| && weekData[w] == Week(Window(s), w)
    ensures Flatten(weekData) == s[FirstKept(|s|)..]
    ensures FirstKept(|s|) % DaysPerWeek == 0
  {
    ChunksConcatenate(Window(s), weekData);
  }
}
