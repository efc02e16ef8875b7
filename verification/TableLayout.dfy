/** Column widths and rendered rows of the terminal table. */
module TableLayout {
  function Sum(w: seq<nat>): nat {
    if w == [] then 0 else Sum(w[..|w| - 1]) + w[|w| - 1]
  }

  /** Two spaces between columns. */
  function Total(w: seq<nat>): int {
    Sum(w) + (|w| - 1) * 2
  }

  const FLOOR := 8

  /** The first widest column. */
  function Widest(w: seq<nat>): (m: nat)
    requires w != []
    ensures m < |w|
    ensures forall i | 0 <= i < |w| :: w[i] <= w[m]
    ensures forall i | 0 <= i < m :: w[i] < w[m]
  {
    if |w| == 1 then 0
    else
      var n := |w| - 1;
      var m := Widest(w[..n]);
      assert forall i | 0 <= i < n :: w[..n][i] == w[i];
      if w[n] > w[m] then n else m
  }

  function Shrink(w: seq<nat>): (r: seq<nat>)
    requires w != []
    ensures |r| == |w|
  {
    var m := Widest(w);
    if w[m] > FLOOR then w[m := w[m] - 1] else w
  }

  function Level(w: seq<nat>, n: nat): (r: seq<nat>)
    requires w != []
    ensures |r| == |w|
  {
    if n == 0 then w else Shrink(Level(w, n - 1))
  }

  // ---------------------------------------------------------------------------------------

  lemma {:induction false} SumSetOne(w: seq<nat>, i: nat, v: nat)
    requires i < |w|
    ensures Sum(w[i := v]) == Sum(w) - w[i] + v
  {
    var n := |w| - 1;
    if i == n {
      assert w[i := v][..n] == w[..n];
    } else {
      SumSetOne(w[..n], i, v);
      assert w[i := v][..n] == w[..n][i := v];
    }
  }

  ghost predicate AllAtMost(w: seq<nat>, v: nat) {
    forall i | 0 <= i < |w| :: w[i] <= v
  }

  /** No column below its start or the floor, and the cut ones within one of the widest. */
  ghost predicate Fair(start: seq<nat>, w: seq<nat>) {
    && |w| == |start|
    && (forall i | 0 <= i < |w| :: w[i] <= start[i] && (w[i] < start[i] ==> w[i] >= 8))
    && (forall i, j | 0 <= i < |w| && 0 <= j < |w| :: w[i] < start[i] ==> w[j] <= w[i] + 1)
  }

  lemma ShrinkIsFair(start: seq<nat>, w: seq<nat>)
    requires w != []
    requires Fair(start, w)
    ensures Fair(start, Shrink(w))
    ensures Sum(Shrink(w)) == if AllAtMost(w, FLOOR) then Sum(w) else Sum(w) - 1
    ensures AllAtMost(w, FLOOR) ==> Shrink(w) == w
  {
    var m := Widest(w);
    if w[m] > FLOOR {
      SumSetOne(w, m, w[m] - 1);
    }
  }

  lemma {:induction false} LevelIsFair(start: seq<nat>, n: nat)
    requires start != []
    ensures Fair(start, Level(start, n))
    ensures Sum(Level(start, n)) == Sum(start) - n || AllAtMost(Level(start, n), FLOOR)
    ensures Sum(Level(start, n)) >= Sum(start) - n
  {
    if n > 0 {
      LevelIsFair(start, n - 1);
      ShrinkIsFair(start, Level(start, n - 1));
    }
  }

  /**
   Levelling a table that is too wide by `n` makes it fit exactly, unless every column ends at
   most 8 wide; no column falls below the smaller of its start and 8, and every column that
   was cut ends within one of the widest.
   */
  lemma LevellingFits(start: seq<nat>, width: nat)
    requires start != []
    requires Total(start) > width
    ensures var w := Level(start, Total(start) - width);
            && (Total(w) == width || AllAtMost(w, 8))
            && Fair(start, w)
  {
    LevelIsFair(start, Total(start) - width);
  }

  /** The least that levelling can make of each column. */
  function Floors(start: seq<nat>): (w: seq<nat>)
    ensures |w| == |start|
  {
    seq(|start|, i requires 0 <= i < |start| => if start[i] < 8 then start[i] else 8)
  }

  lemma FairAboveFloors(start: seq<nat>, w: seq<nat>)
    requires Fair(start, w)
    ensures Sum(Floors(start)) <= Sum(w)
    ensures AllAtMost(w, FLOOR) ==> w == Floors(start)
  {
    SumBelow(Floors(start), w, |w|);
  }

  lemma LevelStopsAtFloors(start: seq<nat>, n: nat)
    requires start != []
    ensures Sum(Level(start, n))
         == if Sum(Floors(start)) <= Sum(start) - n then Sum(start) - n else Sum(Floors(start))
  {
    LevelIsFair(start, n);
    FairAboveFloors(start, Level(start, n));
  }

  /**
   The documented fit: a table that is too wide fits after levelling exactly if it would fit
   with every column cut to 8; and otherwise levelling does cut every column to 8.
   */
  lemma LevellingFitsExactly(start: seq<nat>, width: nat)
    requires start != []
    requires Total(start) > width
    ensures var w := Level(start, Total(start) - width);
            && (Total(w) <= width <==> Total(Floors(start)) <= width)
            && Total(w) == (if Total(Floors(start)) <= width then width else Total(Floors(start)))
  {
    LevelStopsAtFloors(start, Total(start) - width);
  }

  /** No other widths with the same total, none above its start, have a narrower widest column. */
  lemma {:induction false} FairIsNarrowest(start: seq<nat>, w: seq<nat>, v: seq<nat>, i: nat)
    requires Fair(start, w) && |v| == |start|
    requires Sum(v) == Sum(w)
    requires forall k | 0 <= k < |v| :: v[k] <= start[k]
    requires i < |w|
    ensures exists k | 0 <= k < |v| :: w[i] <= v[k]
  {
    if forall k | 0 <= k < |v| :: v[k] < w[i] {
      // Then v is below w wherever w was cut, and at most the start elsewhere.
      forall k | 0 <= k < |v|
        ensures v[k] <= w[k]
      {
        assert w[k] < start[k] ==> w[i] <= w[k] + 1;
      }
      SumBelow(v, w, i);
    }
  }

  lemma {:induction false} SumBelow(v: seq<nat>, w: seq<nat>, i: nat)
    requires |v| == |w| && i <= |w|
    requires forall k | 0 <= k < |v| :: v[k] <= w[k]
    ensures Sum(v) <= Sum(w)
    ensures i < |w| && v[i] < w[i] ==> Sum(v) < Sum(w)
  {
    if v != [] {
      var n := |v| - 1;
      SumBelow(v[..n], w[..n], if i < n then i else n);
    }
  }

  // ---------------------------------------------------------------------------------------

  /** The scaling loop, in place. */
  method ScaleDown(colWidths: array<nat>, termWidth: nat)
    requires colWidths.Length > 0
    modifies colWidths
    ensures var start := old(colWidths[..]);
            colWidths[..] == if Total(start) > termWidth then Level(start, Total(start) - termWidth) else start
  {
    ghost var start := colWidths[..];
    var sum := SumOf(colWidths);
    var total := sum + (colWidths.Length - 1) * 2;
    if total > termWidth {
      var excess := total - termWidth;
      for k := 0 to excess
        invariant colWidths[..] == Level(start, k)
      {
        ShrinkWidest(colWidths);
      }
    }
  }

  method ShrinkWidest(colWidths: array<nat>)
    requires colWidths.Length > 0
    modifies colWidths
    ensures colWidths[..] == Shrink(old(colWidths[..]))
  {
    ghost var before := colWidths[..];
    var maxIdx := IndexOfMax(colWidths);
    WidestIsUnique(before, maxIdx);
    if colWidths[maxIdx] > FLOOR {
      colWidths[maxIdx] := colWidths[maxIdx] - 1;
      assert colWidths[..] == before[maxIdx := before[maxIdx] - 1];
    }
  }

  method SumOf(a: array<nat>) returns (s: nat)
    ensures s == Sum(a[..])
  {
    s := 0;
    for i := 0 to a.Length
      invariant s == Sum(a[..i])
    {
      assert a[..i + 1][..i] == a[..i];
      s := s + a[i];
    }
    assert a[..a.Length] == a[..];
  }

  method IndexOfMax(a: array<nat>) returns (m: nat)
    requires a.Length > 0
    ensures m < a.Length
    ensures forall i | 0 <= i < a.Length :: a[i] <= a[m]
    ensures forall i | 0 <= i < m :: a[i] < a[m]
  {
    m := 0;
    for i := 1 to a.Length
      invariant m < i
      invariant forall k | 0 <= k < i :: a[k] <= a[m]
      invariant forall k | 0 <= k < m :: a[k] < a[m]
    {
      if a[i] > a[m] {
        m := i;
      }
    }
  }

  lemma WidestIsUnique(w: seq<nat>, m: nat)
    requires m < |w|
    requires forall i | 0 <= i < |w| :: w[i] <= w[m]
    requires forall i | 0 <= i < m :: w[i] < w[m]
    ensures m == Widest(w)
  {
  }

  // ---------------------------------------------------------------------------------------
  // Rendering

  datatype Align = Left | Right | Center

  function Spaces(n: nat): (r: string)
    ensures |r| == n
  {
    seq(n, i => ' ')
  }

  /** Pad to a minimum width, as the format mini-language does. */
  function Pad(s: string, align: Align, width: nat): string {
    if |s| >= width then s
    else
      var gap := width - |s|;
      match align
      case Left => s + Spaces(gap)
      case Right => Spaces(gap) + s
      case Center => Spaces(gap / 2) + s + Spaces(gap - gap / 2)
  }

  function HeaderCell(s: string, align: Align, width: nat): string {
    Pad(if |s| <= width then s else s[..width], align, width)
  }

  function DataCell(s: string, align: Align, width: nat): string {
    if |s| <= width then Pad(s, align, width)
    else
      var kept := if width >= 4 then width - 3 else 1;
      Pad(s[..kept] + "...", align, width)
  }

  /** A header cell is always as wide as its column; a data cell just when it fits or the column has 4. */
  lemma CellWidths(s: string, align: Align, width: nat)
    ensures |HeaderCell(s, align, width)| == width
    ensures |DataCell(s, align, width)| == width <==> |s| <= width || width >= 4
    ensures |DataCell(s, align, width)| >= width
  {
  }

  predicate Blank(s: string, from: nat, to: nat)
    requires from <= to <= |s|
  {
    forall k | from <= k < to :: s[k] == ' '
  }

  /** The text stands at the left, at the right, or in the middle with the odd space behind it; all else is blank. */
  lemma PadPlaces(s: string, align: Align, width: nat)
    ensures |s| >= width ==> Pad(s, align, width) == s
    ensures |s| < width ==>
              var p, at := Pad(s, align, width),
                           match align case Left => 0 case Right => width - |s| case Center => (width - |s|) / 2;
              |p| == width && p[at..at + |s|] == s && Blank(p, 0, at) && Blank(p, at + |s|, width)
  {
  }

  /** A header cell shows as much of its text as fits; a data cell shows its text, or its beginning and an ellipsis. */
  lemma CellTexts(s: string, align: Align, width: nat)
    ensures HeaderCell(s, align, width) == if |s| <= width then Pad(s, align, width) else s[..width]
    ensures |s| <= width ==> DataCell(s, align, width) == Pad(s, align, width)
    ensures |s| > width ==> DataCell(s, align, width) == s[..if width >= 4 then width - 3 else 1] + "..."
  {
  }

  function Join(cells: seq<string>): string {
    if cells == [] then ""
    else if |cells| == 1 then cells[0]
    else Join(cells[..|cells| - 1]) + "  " + cells[|cells| - 1]
  }

  /** Where cell i begins in a row: behind the cells before it, each with two spaces. */
  function Offset(cells: seq<string>, i: nat): nat
    requires i <= |cells|
  {
    if i == 0 then 0 else Offset(cells, i - 1) + |cells[i - 1]| + 2
  }

  lemma {:induction false} OffsetOfPrefix(cells: seq<string>, n: nat, i: nat)
    requires i <= n <= |cells|
    ensures Offset(cells[..n], i) == Offset(cells, i)
  {
    if i > 0 {
      OffsetOfPrefix(cells, n, i - 1);
    }
  }

  lemma {:induction false} JoinLength(cells: seq<string>)
    requires cells != []
    ensures |Join(cells)| == Offset(cells, |cells| - 1) + |cells[|cells| - 1]|
  {
    var n := |cells| - 1;
    if n > 0 {
      JoinLength(cells[..n]);
      OffsetOfPrefix(cells, n, n - 1);
    }
  }

  lemma JoinSplits(cells: seq<string>)
    requires |cells| > 1
    ensures var n := |cells| - 1;
            && |Join(cells[..n])| + 2 == Offset(cells, n)
            && Join(cells) == Join(cells[..n]) + "  " + cells[n]
  {
    var n := |cells| - 1;
    JoinLength(cells[..n]);
    OffsetOfPrefix(cells, n, n - 1);
  }

  /** The row shows cell i at its place, and two spaces behind it unless it is the last. */
  ghost predicate Shows(row: string, cells: seq<string>, i: nat)
    requires i < |cells|
  {
    var from, to := Offset(cells, i), Offset(cells, i) + |cells[i]|;
    && to <= |row| && row[from..to] == cells[i]
    && (i < |cells| - 1 ==> Offset(cells, i + 1) == to + 2 <= |row| && Blank(row, to, to + 2))
  }

  lemma LongerShows(row: string, rest: string, cells: seq<string>, last: string, i: nat)
    requires i < |cells| && Shows(row, cells, i) && |row| + 2 == Offset(cells, |cells|)
    requires i == |cells| - 1 ==> Offset(cells, i) + |cells[i]| == |row|
    ensures Shows(row + "  " + rest, cells + [last], i)
  {
    var more, longer := cells + [last], row + "  " + rest;
    assert more[..|cells|] == cells;
    OffsetOfPrefix(more, |cells|, i);
    OffsetOfPrefix(more, |cells|, i + 1);
    var from, to := Offset(cells, i), Offset(cells, i) + |cells[i]|;
    assert longer[from..to] == row[from..to];
    assert longer[|row|] == ' ' && longer[|row| + 1] == ' ';
    assert forall k | 0 <= k < |row| :: longer[k] == row[k];
  }

  /** A row shows every cell at its place, and two spaces behind each but the last. */
  lemma {:induction false} JoinPlaces(cells: seq<string>, i: nat)
    requires i < |cells|
    ensures Shows(Join(cells), cells, i)
  {
    var n := |cells| - 1;
    JoinLength(cells);
    if n > 0 {
      JoinSplits(cells);
      assert cells == cells[..n] + [cells[n]];
      if i < n {
        JoinPlaces(cells[..n], i);
        JoinLength(cells[..n]);
        OffsetOfPrefix(cells, n, n);
        LongerShows(Join(cells[..n]), cells[n], cells[..n], cells[n], i);
      }
    }
  }

  function AlignOf(aligns: seq<Align>, i: nat): Align {
    if i < |aligns| then aligns[i] else Left
  }

  function CellOf(row: seq<string>, i: nat): string {
    if i < |row| then row[i] else ""
  }

  function DataCells(row: seq<string>, aligns: seq<Align>, w: seq<nat>): seq<string> {
    seq(|w|, i requires 0 <= i < |w| => DataCell(CellOf(row, i), AlignOf(aligns, i), w[i]))
  }

  function HeaderCells(headers: seq<string>, aligns: seq<Align>, w: seq<nat>): seq<string> {
    seq(|w|, i requires 0 <= i < |w| => HeaderCell(CellOf(headers, i), AlignOf(aligns, i), w[i]))
  }

  lemma {:induction false} JoinWidth(cells: seq<string>, w: seq<nat>)
    requires |cells| == |w| && w != []
    requires forall i | 0 <= i < |w| :: |cells[i]| >= w[i]
    ensures |Join(cells)| >= Total(w)
    ensures |Join(cells)| == Total(w) <==> forall i | 0 <= i < |w| :: |cells[i]| == w[i]
  {
    var n := |w| - 1;
    if n > 0 {
      JoinWidth(cells[..n], w[..n]);
      if forall i | 0 <= i < n :: |cells[..n][i]| == w[..n][i] {
        assert forall i | 0 <= i < n :: |cells[i]| == w[i];
      }
      if forall i | 0 <= i < |w| :: |cells[i]| == w[i] {
        assert forall i | 0 <= i < n :: |cells[..n][i]| == w[..n][i];
      }
    } else {
      assert w[..n] == [];
      assert Sum(w) == Sum(w[..n]) + w[0] == w[0];
      assert Total(w) == w[0] && Join(cells) == cells[0];
    }
  }

  /** Each column renders its own text with its own alignment, an empty text where the row is short, left by default. */
  lemma ColumnsAreTheirOwn(row: seq<string>, aligns: seq<Align>, w: seq<nat>, i: nat)
    requires i < |w|
    ensures |DataCells(row, aligns, w)| == |HeaderCells(row, aligns, w)| == |w|
    ensures var text := if i < |row| then row[i] else "";
            var align := if i < |aligns| then aligns[i] else Left;
            && DataCells(row, aligns, w)[i] == DataCell(text, align, w[i])
            && HeaderCells(row, aligns, w)[i] == HeaderCell(text, align, w[i])
  {
  }

  /** The header spans the table; a data row does so exactly when no cell overflows a column under 4. */
  lemma {:induction false} RowsSpanTheTable(headers: seq<string>, row: seq<string>, aligns: seq<Align>, w: seq<nat>)
    requires w != []
    ensures |Join(HeaderCells(headers, aligns, w))| == Total(w)
    ensures |Join(DataCells(row, aligns, w))| == Total(w)
       <==> forall i | 0 <= i < |w| :: |CellOf(row, i)| <= w[i] || w[i] >= 4
  {
    var h, d := HeaderCells(headers, aligns, w), DataCells(row, aligns, w);
    forall i | 0 <= i < |w|
      ensures |h[i]| == w[i]
      ensures |d[i]| >= w[i]
      ensures |d[i]| == w[i] <==> |CellOf(row, i)| <= w[i] || w[i] >= 4
    {
      CellWidths(CellOf(headers, i), AlignOf(aligns, i), w[i]);
      CellWidths(CellOf(row, i), AlignOf(aligns, i), w[i]);
    }
    JoinWidth(h, w);
    JoinWidth(d, w);
  }

  /**
   A levelled table whose columns started at least 4 wide renders every row to exactly its
   total width, which is the terminal's unless every column is down to 8.
   */
  lemma LevelledRowsFit(start: seq<nat>, width: nat, row: seq<string>, aligns: seq<Align>)
    requires start != [] && Total(start) > width
    requires forall i | 0 <= i < |start| :: start[i] >= 4
    ensures var w := Level(start, Total(start) - width);
            && |Join(DataCells(row, aligns, w))| == Total(w)
            && (Total(w) == width || AllAtMost(w, FLOOR))
  {
    var w := Level(start, Total(start) - width);
    LevellingFits(start, width);
    RowsSpanTheTable(row, row, aligns, w);
  }
}
