/** The splitter that shows views in a growing square (App/Client/ViewSplitter.cpp). */
module ViewSplitter {
  import opened SquareShell
  import opened Wrappers

  /** A view handed in by the application, QWidget. */
  class Widget {
    constructor () {}
  }

  /** The frame a view is shown in; a view is in at most one. */
  datatype Container = Container(view: Widget)

  /** The row splitters, each the containers it shows from left to right. */
  type Rows = seq<seq<Container>>

  function Total(rows: Rows): nat
  {
    if rows == [] then 0 else |rows[0]| + Total(rows[1..])
  }

  /** Lines 79-85: the first row with fewer than `n` containers. */
  function FirstRoom(rows: Rows, n: nat): (i: nat)
    ensures i <= |rows|
    ensures i < |rows| ==> |rows[i]| < n
    ensures forall k :: 0 <= k < i ==> n <= |rows[k]|
  {
    if rows == [] || |rows[0]| < n then 0 else 1 + FirstRoom(rows[1..], n)
  }

  /** Lines 68-76: one more row when the next view does not fit the square. */
  function Grown(rows: Rows): Rows
  {
    if Total(rows) + 1 > |rows| * |rows| then rows + [[]] else rows
  }

  /** Where the next view goes. */
  function Target(rows: Rows): (i: nat)
    ensures i <= |Grown(rows)|
  {
    FirstRoom(Grown(rows), |Grown(rows)|)
  }

  /** The rows after a view was added. */
  function Placed(rows: Rows, view: Widget): Rows
  {
    var g, i := Grown(rows), Target(rows);
    if i < |g| then g[i := g[i] + [Container(view)]] else g
  }

  /** The rows after the container at a place was taken out. */
  function Taken(rows: Rows, r: nat, c: nat): Rows
    requires r < |rows| && c < |rows[r]|
  {
    rows[r := rows[r][..c] + rows[r][c + 1..]]
  }

  ghost predicate At(rows: Rows, r: int, c: int, view: Widget)
  {
    0 <= r < |rows| && 0 <= c < |rows[r]| && rows[r][c].view == view
  }

  lemma {:induction false} TotalUpdate(rows: Rows, i: nat, row: seq<Container>)
    requires i < |rows|
    ensures Total(rows[i := row]) == Total(rows) - |rows[i]| + |row|
  {
    if i > 0 {
      TotalUpdate(rows[1..], i - 1, row);
      assert rows[i := row][1..] == rows[1..][i - 1 := row];
    } else {
      assert rows[i := row][1..] == rows[1..];
    }
  }

  lemma {:induction false} TotalSnoc(rows: Rows, row: seq<Container>)
    ensures Total(rows + [row]) == Total(rows) + |row|
  {
    if rows == [] {
      assert (rows + [row])[1..] == [];
    } else {
      TotalSnoc(rows[1..], row);
      assert (rows + [row])[1..] == rows[1..] + [row];
    }
  }

  /** If every row holds n containers, all together hold n times the number of rows. */
  lemma {:induction false} Pigeonhole(rows: Rows, n: nat)
    requires forall i :: 0 <= i < |rows| ==> n <= |rows[i]|
    ensures n * |rows| <= Total(rows)
  {
    if rows != [] {
      Pigeonhole(rows[1..], n);
      assert n * |rows| == n * |rows[1..]| + n;
    }
  }

  /** The search for a row with room never fails. */
  lemma {:induction false} RoomFound(rows: Rows)
    ensures Target(rows) < |Grown(rows)|
  {
    var g := Grown(rows);
    assert |rows| < |g| ==> g[|rows|] == [];
    if Target(rows) == |g| == |rows| {
      Pigeonhole(rows, |rows|);
    }
  }

  lemma {:induction false} PlacedTotal(rows: Rows, view: Widget)
    ensures Total(Placed(rows, view)) == Total(rows) + 1
  {
    RoomFound(rows);
    TotalSnoc(rows, []);
    TotalUpdate(Grown(rows), Target(rows), Grown(rows)[Target(rows)] + [Container(view)]);
  }

  // ----- adding views to an empty splitter -----

  function PlaceAll(views: seq<Widget>): Rows
  {
    if views == [] then []
    else Placed(PlaceAll(views[..|views| - 1]), views[|views| - 1])
  }

  /** Length of row i once k views have been added to an empty splitter. */
  function RowLength(k: nat, i: nat): nat
  {
    var m := Root(k);
    var d := k - m * m;
    if i < m then (if i < d then m + 1 else m)
    else if i == m && m < d then d - m
    else 0
  }

  function RowCount(k: nat): nat
  {
    var m := Root(k);
    if k == m * m then m else m + 1
  }

  /** Rows as they are after adding k views to an empty splitter. */
  ghost predicate Square(rows: Rows, k: nat)
  {
    && Total(rows) == k && |rows| == RowCount(k)
    && forall i :: 0 <= i < |rows| ==> |rows[i]| == RowLength(k, i)
  }

  lemma {:induction false} GrownSquare(rows: Rows, k: nat)
    requires Square(rows, k)
    ensures |Grown(rows)| == Root(k) + 1
    ensures forall i :: 0 <= i <= Root(k) ==> |Grown(rows)[i]| == RowLength(k, i)
  {
    var m := Root(k);
    assert (m + 1) * (m + 1) == m * m + 2 * m + 1;
  }

  lemma {:induction false} RowLengthNext(k: nat, i: nat)
    ensures RowLength(k + 1, i) == RowLength(k, i) + (if i == Cell(k).0 then 1 else 0)
    ensures RowLength(k, Cell(k).0) == Cell(k).1
  {
    var m := Root(k);
    assert (m + 1) * (m + 1) == m * m + 2 * m + 1;
    if k + 1 == (m + 1) * (m + 1) {
      RootUnique'(k + 1, m + 1);
    } else {
      RootUnique(k + 1, m);
    }
  }

  lemma {:induction false} RootUnique'(k: nat, m: nat)
    requires k == m * m
    ensures Root(k) == m
  {
    assert (m + 1) * (m + 1) == m * m + 2 * m + 1;
    RootUnique(k, m);
  }

  lemma {:induction false} RowCountNext(k: nat)
    ensures RowCount(k + 1) == Root(k) + 1
  {
    var m := Root(k);
    assert (m + 1) * (m + 1) == m * m + 2 * m + 1;
    if k + 1 == (m + 1) * (m + 1) {
      RootUnique'(k + 1, m + 1);
    } else {
      RootUnique(k + 1, m);
    }
  }

  /** The greedy search finds the cell of the closed form. */
  lemma {:induction false} TargetIsCell(rows: Rows, k: nat)
    requires Square(rows, k)
    ensures Target(rows) == Cell(k).0 < |Grown(rows)| && |Grown(rows)[Target(rows)]| == Cell(k).1
  {
    GrownSquare(rows, k);
    RoomFound(rows);
    var m := Root(k);
    var d := k - m * m;
    assert (m + 1) * (m + 1) == m * m + 2 * m + 1;
    var g, i := Grown(rows), Target(rows);
    assert |g[Cell(k).0]| < m + 1;
    assert forall j :: 0 <= j < Cell(k).0 ==> |g[j]| == m + 1;
  }

  lemma {:induction false} PlacedSquare(rows: Rows, k: nat, view: Widget)
    requires Square(rows, k)
    ensures Square(Placed(rows, view), k + 1) && At(Placed(rows, view), Cell(k).0, Cell(k).1, view)
    ensures forall r, c :: 0 <= r < |rows| && 0 <= c < |rows[r]| ==>
              At(Placed(rows, view), r, c, rows[r][c].view)
  {
    TargetIsCell(rows, k);
    GrownSquare(rows, k);
    PlacedTotal(rows, view);
    RowCountNext(k);
    var p := Placed(rows, view);
    forall i | 0 <= i < |p| ensures |p[i]| == RowLength(k + 1, i) {
      RowLengthNext(k, i);
    }
  }

  /** The first k of the views are at their cells. */
  ghost predicate AtCells(rows: Rows, views: seq<Widget>, k: nat)
    requires k <= |views|
  {
    forall i :: 0 <= i < k ==> At(rows, Cell(i).0, Cell(i).1, views[i])
  }

  lemma {:induction false} AtCellsNext(rows: Rows, views: seq<Widget>, k: nat)
    requires k < |views| && Square(rows, k) && AtCells(rows, views, k)
    ensures Square(Placed(rows, views[k]), k + 1) && AtCells(Placed(rows, views[k]), views, k + 1)
  {
    PlacedSquare(rows, k, views[k]);
    var p := Placed(rows, views[k]);
    forall i | 0 <= i < k + 1 ensures At(p, Cell(i).0, Cell(i).1, views[i]) {
      if i < k {
        assert At(rows, Cell(i).0, Cell(i).1, views[i]);
      }
    }
  }

  /** Adding views one by one to an empty splitter puts the k-th one at the k-th cell. */
  lemma {:induction false} ViewsFollowCells(views: seq<Widget>)
    ensures Square(PlaceAll(views), |views|) && AtCells(PlaceAll(views), views, |views|)
  {
    if views == [] {
      assert Root(0) == 0;
    } else {
      var n := |views| - 1;
      ViewsFollowCells(views[..n]);
      assert AtCells(PlaceAll(views[..n]), views, n);
      AtCellsNext(PlaceAll(views[..n]), views, n);
    }
  }

  // ----- which view becomes current -----

  /** Lines 161-166: the last view of the nearest earlier row that has one. */
  function LastBefore(rows: Rows, r: nat): Option<Widget>
    requires r <= |rows|
  {
    if r == 0 then None
    else if rows[r - 1] != [] then Some(rows[r - 1][|rows[r - 1]| - 1].view)
    else LastBefore(rows, r - 1)
  }

  /** The view that takes over when the current one, at (r, c), is removed. */
  function NextView(rows: Rows, r: nat, c: nat): Option<Widget>
    requires r < |rows| && c < |rows[r]|
  {
    if c + 1 < |rows[r]| then Some(rows[r][c + 1].view)
    else if c > 0 then Some(rows[r][c - 1].view)
    else if r + 1 < |rows| && rows[r + 1] != [] then Some(rows[r + 1][0].view)
    else LastBefore(rows, r)
  }

  /** The last view of row i takes over: all rows between it and row r are empty. */
  ghost predicate LastOfRow(rows: Rows, r: nat, i: nat, next: Option<Widget>)
  {
    && i < r <= |rows| && rows[i] != [] && next == Some(rows[i][|rows[i]| - 1].view)
    && forall k :: i < k < r ==> rows[k] == []
  }

  /**
   * Who takes over from the view at (r, c): its neighbour on the right, else the one on its left, else
   * the first of the next row, else the last of the nearest earlier row that has any, else nobody.
   */
  ghost predicate HandsOver(rows: Rows, r: nat, c: nat, next: Option<Widget>)
    requires r < |rows| && c < |rows[r]|
  {
    && (c + 1 < |rows[r]| ==> next.Some? && At(rows, r, c + 1, next.value))
    && (c + 1 == |rows[r]| && c > 0 ==> next.Some? && At(rows, r, c - 1, next.value))
    && (|rows[r]| == 1 && r + 1 < |rows| && rows[r + 1] != [] ==> next.Some? && At(rows, r + 1, 0, next.value))
    && (|rows[r]| == 1 && (r + 1 == |rows| || rows[r + 1] == []) ==>
          (exists i: nat :: LastOfRow(rows, r, i, next)) || (next == None && forall i :: 0 <= i < r ==> rows[i] == []))
  }

  lemma {:induction false} LastBeforeIsLast(rows: Rows, r: nat)
    requires r <= |rows|
    ensures || (exists i: nat :: LastOfRow(rows, r, i, LastBefore(rows, r)))
            || (LastBefore(rows, r) == None && forall i :: 0 <= i < r ==> rows[i] == [])
  {
    if r > 0 {
      if rows[r - 1] != [] {
        assert LastOfRow(rows, r, r - 1, LastBefore(rows, r));
      } else {
        var q: nat := r - 1;
        LastBeforeIsLast(rows, q);
        if i: nat :| LastOfRow(rows, q, i, LastBefore(rows, q)) {
          assert LastOfRow(rows, r, i, LastBefore(rows, r));
        }
      }
    }
  }

  lemma {:induction false} NextHandsOver(rows: Rows, r: nat, c: nat)
    requires r < |rows| && c < |rows[r]|
    ensures HandsOver(rows, r, c, NextView(rows, r, c))
  {
    LastBeforeIsLast(rows, r);
  }

  /** There is only one who can take over. */
  lemma {:induction false} HandsOverToOne(rows: Rows, r: nat, c: nat, n: Option<Widget>, m: Option<Widget>)
    requires r < |rows| && c < |rows[r]| && HandsOver(rows, r, c, n) && HandsOver(rows, r, c, m)
    ensures n == m
  {
    if |rows[r]| == 1 && (r + 1 == |rows| || rows[r + 1] == []) {
      if i: nat :| LastOfRow(rows, r, i, n) {
        var k: nat :| LastOfRow(rows, r, k, m);
      }
    }
  }

  lemma {:induction false} LastBeforeExists(rows: Rows, r: nat)
    requires r <= |rows|
    ensures LastBefore(rows, r).Some? <==> exists i :: 0 <= i < r && rows[i] != []
  {
    if r > 0 {
      LastBeforeExists(rows, r - 1);
    }
  }

  ghost predicate AllEmpty(rows: Rows) { forall i :: 0 <= i < |rows| ==> rows[i] == [] }

  lemma {:induction false} TotalZero(rows: Rows)
    ensures Total(rows) == 0 <==> AllEmpty(rows)
  {
    if rows != [] {
      TotalZero(rows[1..]);
      assert forall i :: 1 <= i < |rows| ==> rows[i] == rows[1..][i - 1];
      assert forall i :: 0 <= i < |rows[1..]| ==> rows[1..][i] == rows[i + 1];
      assert AllEmpty(rows) <==> rows[0] == [] && AllEmpty(rows[1..]);
    }
  }

  /** Whether another view than the one at (r, c) is shown. */
  lemma {:induction false} OthersShown(rows: Rows, r: nat, c: nat)
    requires r < |rows| && c < |rows[r]|
    ensures Total(rows) > 1 <==> |rows[r]| > 1 || exists i :: 0 <= i < |rows| && i != r && rows[i] != []
  {
    var rest := Taken(rows, r, c);
    TotalUpdate(rows, r, rest[r]);
    TotalZero(rest);
    assert Total(rows) == Total(rest) + 1;
    assert forall i :: 0 <= i < |rows| && i != r ==> rest[i] == rows[i];
    assert |rest[r]| == |rows[r]| - 1;
    if !AllEmpty(rest) && |rows[r]| == 1 {
      var i :| 0 <= i < |rest| && rest[i] != [];
      assert i != r && rows[i] != [];
    }
  }

  /**
   * Removing the current view while others remain leaves the splitter without a current view exactly
   * when it was alone in its row, the next row and all earlier rows are empty and some row after the
   * next is not: line 155 looks at row nRow + 1 instead of the row it has just found.
   */
  lemma {:induction false} FocusLostIff(rows: Rows, r: nat, c: nat)
    requires r < |rows| && c < |rows[r]|
    ensures NextView(rows, r, c).None? && Total(rows) > 1 <==>
              && |rows[r]| == 1 && (forall i :: 0 <= i < r ==> rows[i] == [])
              && r + 1 < |rows| && rows[r + 1] == []
              && exists i :: r + 1 < i < |rows| && rows[i] != []
  {
    LastBeforeExists(rows, r);
    OthersShown(rows, r, c);
    if NextView(rows, r, c).None? && Total(rows) > 1 {
      var i :| 0 <= i < |rows| && i != r && rows[i] != [];
      assert r + 1 < i;
    }
  }

  /** The cell of the closed form holds its view. */
  lemma {:induction false} ViewAtCell(views: seq<Widget>, k: nat, r: nat, c: nat)
    requires k < |views| && k == Order(r, c)
    ensures At(PlaceAll(views), r, c, views[k])
  {
    ViewsFollowCells(views);
    CellIsBijective(k, r, c);
    assert At(PlaceAll(views), Cell(k).0, Cell(k).1, views[k]);
  }

  /** Seven views fill two rows of three and begin a third. */
  lemma {:induction false} SevenRows(views: seq<Widget>, rows: Rows)
    requires |views| == 7 && rows == PlaceAll(views)
    ensures |rows| == 3 && |rows[0]| == |rows[1]| == 3 && |rows[2]| == 1
  {
    hide PlaceAll, AtCells;
    ViewsFollowCells(views);
    RootUnique(7, 2);
  }

  lemma {:induction false} ThreeInRow(rows: Rows, r: nat, u: Widget, v: Widget, w: Widget)
    requires r < |rows| && |rows[r]| == 3 && At(rows, r, 0, u) && At(rows, r, 1, v) && At(rows, r, 2, w)
    ensures rows[r] == [Container(u), Container(v), Container(w)]
  {
  }

  lemma {:induction false} SevenViews(views: seq<Widget>, rows: Rows)
    requires |views| == 7 && rows == PlaceAll(views)
    ensures |rows| == 3 && rows[0] == [Container(views[0]), Container(views[1]), Container(views[4])]
    ensures rows[1] == [Container(views[2]), Container(views[3]), Container(views[5])]
    ensures rows[2] == [Container(views[6])]
  {
    hide PlaceAll;
    SevenRows(views, rows);
    ViewAtCell(views, 0, 0, 0);
    ViewAtCell(views, 1, 0, 1);
    ViewAtCell(views, 2, 1, 0);
    ViewAtCell(views, 3, 1, 1);
    ViewAtCell(views, 4, 0, 2);
    ViewAtCell(views, 5, 1, 2);
    ViewAtCell(views, 6, 2, 0);
    ThreeInRow(rows, 0, views[0], views[1], views[4]);
    ThreeInRow(rows, 1, views[2], views[3], views[5]);
  }

  /** What is left when all but the first of the first row and all of the second row have been closed. */
  function FiveClosed(rows: Rows): Rows
    requires |rows| == 3 && |rows[0]| == 3 && |rows[1]| == 3
  {
    Taken(Taken(Taken(Taken(Taken(rows, 0, 2), 0, 1), 1, 2), 1, 1), 1, 0)
  }

  lemma {:induction false} LastTaken(rows: Rows, r: nat, c: nat)
    requires r < |rows| && |rows[r]| == c + 1
    ensures Taken(rows, r, c) == rows[r := rows[r][..c]]
  {
    assert rows[r][..c] + rows[r][c + 1..] == rows[r][..c];
  }

  lemma {:induction false} FiveClosedLeaves(rows: Rows)
    requires |rows| == 3 && |rows[0]| == 3 && |rows[1]| == 3
    ensures FiveClosed(rows) == [rows[0][..1], [], rows[2]]
  {
    var a := Taken(rows, 0, 2);
    LastTaken(rows, 0, 2);
    var b := Taken(a, 0, 1);
    LastTaken(a, 0, 1);
    assert b[0] == rows[0][..1];
    var c := Taken(b, 1, 2);
    LastTaken(b, 1, 2);
    var d := Taken(c, 1, 1);
    LastTaken(c, 1, 1);
    LastTaken(d, 1, 0);
  }

  /**
   * It takes seven views: open them, close five, and the first, when it is current and closed, leaves the
   * one in the third row shown and not current.
   */
  lemma {:induction false} FocusCanBeLost(views: seq<Widget>)
    requires |views| == 7
    ensures |PlaceAll(views)| == 3 && |PlaceAll(views)[0]| == |PlaceAll(views)[1]| == 3
    ensures var rows := FiveClosed(PlaceAll(views));
            && rows == [[Container(views[0])], [], [Container(views[6])]]
            && NextView(rows, 0, 0).None? && Total(rows) > 1
  {
    hide PlaceAll, FiveClosed;
    var all := PlaceAll(views);
    SevenRows(views, all);
    SevenViews(views, all);
    FiveClosedLeaves(all);
    assert all[0][..1] == [Container(views[0])];
    LostFocus(FiveClosed(all));
  }

  lemma {:induction false} LostFocus(rows: Rows)
    requires |rows| == 3 && |rows[0]| == 1 && rows[1] == [] && rows[2] != []
    ensures NextView(rows, 0, 0).None? && Total(rows) > 1
  {
    FocusLostIff(rows, 0, 0);
  }

  /** The successor is a view that was shown elsewhere. */
  lemma {:induction false} LastBeforeShown(rows: Rows, r: nat) returns (i: nat)
    requires r <= |rows| && LastBefore(rows, r).Some?
    ensures i < r && rows[i] != [] && LastBefore(rows, r).value == rows[i][|rows[i]| - 1].view
  {
    if rows[r - 1] != [] {
      i := r - 1;
    } else {
      i := LastBeforeShown(rows, r - 1);
    }
  }

  // ----- the class -----

  type Place = (nat, nat)

  /** Where a view is after the one at `gone` was taken out: those to its right move one to the left. */
  function Moved(at: Place, gone: Place): Place
  {
    if at.0 == gone.0 && gone.1 < at.1 then (at.0, at.1 - 1) else at
  }

  /** Every view shown has its place and every place its view. */
  ghost predicate PlacesAgree(rows: Rows, place: map<Widget, Place>)
  {
    && (forall r, c :: 0 <= r < |rows| && 0 <= c < |rows[r]| ==>
          rows[r][c].view in place && place[rows[r][c].view] == (r, c))
    && (forall v {:trigger At(rows, place[v].0, place[v].1, v)} | v in place ::
          At(rows, place[v].0, place[v].1, v))
  }

  /** The containers of the map that are not null are those of the views shown. */
  ghost predicate MapAgrees(place: map<Widget, Place>, containers: map<Widget, Option<Container>>)
  {
    && (forall v | v in place :: v in containers && containers[v] == Some(Container(v)))
    && (forall v | v in containers && containers[v].Some? :: v in place)
  }

  ghost function ViewAt(rows: Rows, row: int, col: int): Option<Widget>
  {
    if 0 <= row < |rows| && 0 <= col < |rows[row]| then Some(rows[row][col].view) else None
  }

  /** The current position is that of a view, or an emptied row, or nothing yet. */
  ghost predicate IndexAgrees(rows: Rows, row: int, col: int)
  {
    || ViewAt(rows, row, col).Some?
    || (row == col == -1)
    || (0 <= row < |rows| && rows[row] == [] && col == 0)
  }

  /** The rows hold `count` views, at their places, and no row is longer than the number of rows. */
  ghost predicate Layout(rows: Rows, count: int, place: map<Widget, Place>)
  {
    && count == Total(rows) == |place|
    && (forall i :: 0 <= i < |rows| ==> |rows[i]| <= |rows|)
    && PlacesAgree(rows, place)
  }

  /** The square of side n was needed at some time, and the one of side n - 1 was too small. */
  ghost predicate Bounded(n: int, peak: nat)
  {
    0 <= n && peak <= n * n && (n > 0 ==> (n - 1) * (n - 1) < peak)
  }

  lemma {:induction false} BoundedNext(n: int, count: nat, peak: nat)
    requires Bounded(n, peak) && count <= peak
    ensures Bounded(if count + 1 > n * n then n + 1 else n, Max(peak, count + 1))
  {
    assert (n + 1) * (n + 1) == n * n + 2 * n + 1;
  }

  lemma {:induction false} GrowLayout(rows: Rows, count: int, place: map<Widget, Place>)
    requires Layout(rows, count, place)
    ensures Layout(rows + [[]], count, place)
  {
    TotalSnoc(rows, []);
    forall v | v in place ensures At(rows + [[]], place[v].0, place[v].1, v) {
      assert At(rows, place[v].0, place[v].1, v);
    }
  }

  lemma {:induction false} AppendPlaces(rows: Rows, place: map<Widget, Place>, i: nat, view: Widget)
    requires PlacesAgree(rows, place) && i < |rows| && view !in place
    ensures PlacesAgree(rows[i := rows[i] + [Container(view)]], place[view := (i, |rows[i]|)])
  {
    var rows', place' := rows[i := rows[i] + [Container(view)]], place[view := (i, |rows[i]|)];
    forall v | v in place' ensures At(rows', place'[v].0, place'[v].1, v) {
      if v != view {
        assert At(rows, place[v].0, place[v].1, v);
      }
    }
  }

  lemma {:induction false} AppendLayout(rows: Rows, count: int, place: map<Widget, Place>, i: nat, view: Widget)
    requires Layout(rows, count, place) && i < |rows| && |rows[i]| < |rows| && view !in place
    ensures Layout(rows[i := rows[i] + [Container(view)]], count + 1, place[view := (i, |rows[i]|)])
  {
    AppendPlaces(rows, place, i, view);
    TotalUpdate(rows, i, rows[i] + [Container(view)]);
  }

  /** The places of the other views once a view is gone. */
  ghost function Without(place: map<Widget, Place>, view: Widget): map<Widget, Place>
    requires view in place
  {
    map v | v in place && v != view :: Moved(place[v], place[view])
  }

  lemma {:induction false} TakenPlaces(rows: Rows, place: map<Widget, Place>, view: Widget, r: nat, c: nat)
    requires PlacesAgree(rows, place) && view in place && place[view] == (r, c)
    requires At(rows, r, c, view)
    ensures PlacesAgree(Taken(rows, r, c), Without(place, view))
  {
    var rows', place' := Taken(rows, r, c), Without(place, view);
    forall v | v in place' ensures At(rows', place'[v].0, place'[v].1, v) {
      assert At(rows, place[v].0, place[v].1, v);
    }
    forall i, k | 0 <= i < |rows'| && 0 <= k < |rows'[i]|
      ensures rows'[i][k].view in place' && place'[rows'[i][k].view] == (i, k)
    {
      var k0 := if i == r && c <= k then k + 1 else k;
      assert rows'[i][k] == rows[i][k0];
    }
  }

  lemma {:induction false} WithoutSize(place: map<Widget, Place>, view: Widget)
    requires view in place
    ensures |Without(place, view)| == |place| - 1
  {
    var place' := Without(place, view);
    assert place'.Keys == place.Keys - {view};
    assert |place'.Keys| == |place'| && |place.Keys| == |place|;
  }

  lemma {:induction false} TakenLayout(rows: Rows, count: int, place: map<Widget, Place>, view: Widget, r: nat, c: nat)
    requires Layout(rows, count, place) && view in place && place[view] == (r, c) && At(rows, r, c, view)
    ensures Layout(Taken(rows, r, c), count - 1, Without(place, view))
  {
    TakenPlaces(rows, place, view, r, c);
    WithoutSize(place, view);
    TotalUpdate(rows, r, Taken(rows, r, c)[r]);
  }

  /** The view that takes over is another one of those shown. */
  lemma {:induction false} NextPlaced(rows: Rows, place: map<Widget, Place>, r: nat, c: nat)
    requires PlacesAgree(rows, place) && r < |rows| && c < |rows[r]|
    ensures var n := NextView(rows, r, c); n.Some? ==> n.value in place && n.value != rows[r][c].view
  {
    if LastBefore(rows, r).Some? {
      var i := LastBeforeShown(rows, r);
    }
  }

  /** The current view after the one at (r, c) was removed. */
  function AfterRemoval(rows: Rows, r: nat, c: nat, current: Option<Widget>): Option<Widget>
    requires r < |rows| && c < |rows[r]|
  {
    if current == Some(rows[r][c].view) then NextView(rows, r, c) else current
  }

  /** Which view is current once the one at (r, c) is gone: the same, unless that was the current one. */
  ghost predicate TakesOver(rows: Rows, r: nat, c: nat, current: Option<Widget>, next: Option<Widget>)
    requires r < |rows| && c < |rows[r]|
  {
    if current == Some(rows[r][c].view) then HandsOver(rows, r, c, next) else next == current
  }

  lemma {:induction false} RightOneTakesOver(rows: Rows, r: nat, c: nat, current: Option<Widget>)
    requires r < |rows| && c < |rows[r]|
    ensures TakesOver(rows, r, c, current, AfterRemoval(rows, r, c, current))
  {
    NextHandsOver(rows, r, c);
  }

  /** The view RemoveView tries to make current. */
  function Heir(rows: Rows, r: nat, c: nat, current: Option<Widget>): Option<Widget>
    requires r < |rows| && c < |rows[r]|
  {
    var a := AfterRemoval(rows, r, c, current);
    if a.None? then current else a
  }

  /** RemoveView tries to make current what will still be shown, except when nothing takes over. */
  lemma {:induction false} HeirPlaced(rows: Rows, place: map<Widget, Place>, r: nat, c: nat, row: int, col: int)
    requires PlacesAgree(rows, place) && r < |rows| && c < |rows[r]|
    ensures rows[r][c].view in place && rows[r][c].view !in Without(place, rows[r][c].view)
    ensures var h, view := Heir(rows, r, c, ViewAt(rows, row, col)), rows[r][c].view;
            var after := AfterRemoval(rows, r, c, ViewAt(rows, row, col));
            if after.Some? then h == after && h.value in Without(place, view) else h == None || h == Some(view)
  {
    NextPlaced(rows, place, r, c);
  }

  /** If nothing takes over, the position of the removed view is in a row that is empty now. */
  lemma {:induction false} ViewAfterTaken(rows: Rows, place: map<Widget, Place>, r: nat, c: nat, row: int, col: int)
    requires PlacesAgree(rows, place) && r < |rows| && c < |rows[r]| && IndexAgrees(rows, row, col)
    ensures AfterRemoval(rows, r, c, ViewAt(rows, row, col)).None? ==>
              && IndexAgrees(Taken(rows, r, c), row, col) && ViewAt(Taken(rows, r, c), row, col).None?
  {
  }

  lemma {:induction false} MapInsert(place: map<Widget, Place>, containers: map<Widget, Option<Container>>,
                                     view: Widget, at: Place)
    requires MapAgrees(place, containers)
    ensures MapAgrees(place[view := at], containers[view := Some(Container(view))])
  {
  }

  lemma {:induction false} MapRemove(place: map<Widget, Place>, containers: map<Widget, Option<Container>>,
                                     view: Widget)
    requires MapAgrees(place, containers) && view in place
    ensures MapAgrees(Without(place, view), containers - {view})
  {
  }

  class Splitter {
    var m_nRow: int
    var m_nCount: int
    var m_nIdxRow: int
    var m_nIdxCol: int
    var m_Row: Rows
    var m_Container: map<Widget, Option<Container>>
    /** Where every view is, and the largest number of views there ever was. */
    ghost var place: map<Widget, Place>
    ghost var peak: nat

    /** The rows, the map and the counters agree; the current position may be out of date. */
    ghost predicate Settled()
      reads this
    {
      m_nRow == |m_Row| && Layout(m_Row, m_nCount, place) && MapAgrees(place, m_Container)
    }

    ghost predicate Valid()
      reads this
    {
      && Settled() && IndexAgrees(m_Row, m_nIdxRow, m_nIdxCol)
      && m_nCount <= peak && Bounded(m_nRow, peak)
    }

    /** The view GetCurrentView answers. */
    ghost function Current(): Option<Widget>
      reads this
    {
      ViewAt(m_Row, m_nIdxRow, m_nIdxCol)
    }

    constructor ()
      ensures Valid() && place == map[] && m_Row == [] && peak == 0 && Current().None?
    {
      m_nRow, m_nCount, m_nIdxRow, m_nIdxCol := 0, 0, -1, -1;
      m_Row, m_Container := [], map[];
      place, peak := map[], 0;
    }

    method GetContainerAt(row: int, col: int) returns (p: Option<Container>)
      requires m_nRow == |m_Row|
      ensures p == if 0 <= row < |m_Row| && 0 <= col < |m_Row[row]| then Some(m_Row[row][col]) else None
    {
      p := None;
      if -1 < row && row < m_nRow && -1 < col && col < |m_Row[row]| {
        p := Some(m_Row[row][col]);
      }
    }

    method GetCurrentView() returns (view: Option<Widget>)
      requires m_nRow == |m_Row|
      ensures view == Current()
    {
      var p := GetContainerAt(m_nIdxRow, m_nIdxCol);
      view := if p.Some? then Some(p.value.view) else None;
    }

    /** Lines 321-339.  Looking up an unknown view leaves a null entry in the map. */
    method GetIndex(view: Widget?) returns (ret: int, row: int, col: int)
      requires Settled()
      modifies this`m_Container
      ensures Settled()
      ensures ret == if view != null && view in place then 0 else -1
      ensures ret == 0 ==> (row, col) == place[view] && At(m_Row, row, col, view)
    {
      row, col := -1, -1;
      if view == null {
        return -1, row, col;
      }
      if view !in m_Container {
        m_Container := m_Container[view := None];
      }
      var p := m_Container[view];
      assert view in place ==> At(m_Row, place[view].0, place[view].1, view);
      row := 0;
      while row < m_nRow
        invariant 0 <= row <= m_nRow
        invariant view in place ==> row <= place[view].0
      {
        col := IndexOf(m_Row[row], p);
        if -1 < col {
          return 0, row, col;
        }
        row := row + 1;
      }
      ret := -1;
    }

    /** Lines 68-76: a new row, when the square is full. */
    method MakeRoom()
      requires Valid()
      modifies this`m_Row, this`m_nRow
      ensures Settled() && m_Row == Grown(old(m_Row))
      ensures Bounded(m_nRow, Max(peak, m_nCount + 1))
    {
      BoundedNext(m_nRow, m_nCount, peak);
      if m_nCount + 1 > m_nRow * m_nRow {
        GrowLayout(m_Row, m_nCount, place);
        m_Row := m_Row + [[]];
        m_nRow := m_nRow + 1;
      }
    }

    /** Lines 79-85: the first row with room. */
    method FindRow() returns (i: nat)
      requires m_nRow == |m_Row|
      ensures i == FirstRoom(m_Row, m_nRow)
    {
      i := 0;
      while i < m_nRow && |m_Row[i]| >= m_nRow
        invariant i <= FirstRoom(m_Row, m_nRow)
      {
        i := i + 1;
      }
    }

    /** Lines 91-117: a new container at the end of row i becomes the current one. */
    method Append(i: nat, view: Widget)
      requires Settled() && i < |m_Row| && |m_Row[i]| < m_nRow && view !in place
      modifies this`m_Row, this`m_nIdxRow, this`m_nIdxCol, this`m_Container, this`m_nCount, this`place
      ensures Settled() && m_nCount == old(m_nCount) + 1
      ensures m_Row == old(m_Row)[i := old(m_Row)[i] + [Container(view)]]
      ensures place == old(place)[view := (i, |old(m_Row)[i]|)]
      ensures m_nIdxRow == i && m_nIdxCol == |old(m_Row)[i]| && Current() == Some(view)
    {
      AppendLayout(m_Row, m_nCount, place, i, view);
      MapInsert(place, m_Container, view, (i, |m_Row[i]|));
      m_nIdxRow, m_nIdxCol := i, |m_Row[i]|;
      place := place[view := (i, |m_Row[i]|)];
      m_Row := m_Row[i := m_Row[i] + [Container(view)]];
      m_Container := m_Container[view := Some(Container(view))];
      m_nCount := m_nCount + 1;
    }

    /** Lines 55-128.  The source leaves open what adding a view twice should do. */
    method AddView(view: Widget?) returns (ret: int)
      requires Valid() && view !in place
      modifies this
      ensures Valid()
      ensures view == null ==> ret == -1 && unchanged(this)
      ensures view != null ==> ret == 0 && m_Row == Placed(old(m_Row), view) && Current() == Some(view)
      ensures view != null ==>
                && m_nIdxRow == Target(old(m_Row)) && 0 <= m_nIdxCol
                && place == old(place)[view := (Target(old(m_Row)), m_nIdxCol)]
      ensures view != null ==> peak == Max(old(peak), m_nCount)
    {
      if view == null {
        return -1;
      }
      hide Layout, MapAgrees, FirstRoom;
      RoomFound(m_Row);
      MakeRoom();
      var i := FindRow();
      peak := Max(peak, m_nCount + 1);
      Append(i, view);
      return 0;
    }

    method SetCurrentView(view: Widget?) returns (ret: int)
      requires Settled()
      modifies this`m_Container, this`m_nIdxRow, this`m_nIdxCol
      ensures Settled()
      ensures ret == if view != null && view in place then 0 else -1
      ensures ret == 0 ==> Current() == Some(view)
      ensures ret != 0 ==> m_nIdxRow == old(m_nIdxRow) && m_nIdxCol == old(m_nIdxCol)
    {
      if view == null {
        return -1;
      }
      var found, row, col := GetIndex(view);
      if found != 0 {
        return found;
      }
      assert At(m_Row, row, col, view);
      if m_nIdxCol == col && m_nIdxRow == row {
        return 0;
      }
      m_nIdxRow, m_nIdxCol := row, col;
      return 0;
    }

    /** Lines 147-167: the container that will be current once the one at (row, col) is gone. */
    method FindNext(row: int, col: int) returns (next: Option<Container>)
      requires m_nRow == |m_Row| && 0 <= row < |m_Row| && 0 <= col < |m_Row[row]|
      ensures next == (var n := NextView(m_Row, row, col); if n.Some? then Some(Container(n.value)) else None)
      ensures HandsOver(m_Row, row, col, if next.Some? then Some(next.value.view) else None)
    {
      NextHandsOver(m_Row, row, col);
      next := None;
      if |m_Row[row]| > col + 1 {
        next := GetContainerAt(row, col + 1);
      } else if |m_Row[row]| - 1 == col && col != 0 {
        next := GetContainerAt(row, col - 1);
      } else if col == 0 && row + 1 < m_nRow {
        var i := row + 1;
        while i < m_nRow
          invariant row + 1 <= i <= m_nRow
          invariant forall k :: row + 1 <= k < i ==> m_Row[k] == []
          invariant next == None
        {
          if |m_Row[i]| > 0 {
            next := GetContainerAt(row + 1, 0);
            break;
          }
          i := i + 1;
        }
      }
      if next == None {
        var i := row - 1;
        while i >= 0
          invariant -1 <= i < row && next == None
          invariant LastBefore(m_Row, row) == LastBefore(m_Row, i + 1)
        {
          if |m_Row[i]| > 0 {
            next := GetContainerAt(i, |m_Row[i]| - 1);
            break;
          }
          i := i - 1;
        }
      }
    }

    /** Lines 170-180: the container leaves its row and the map. */
    method Detach(view: Widget, row: nat, col: nat)
      requires Settled() && At(m_Row, row, col, view)
      modifies this`m_Row, this`m_Container, this`m_nCount, this`place
      ensures Settled() && m_Row == Taken(old(m_Row), row, col) && m_nCount == old(m_nCount) - 1
      ensures view in old(place) && place == Without(old(place), view)
    {
      assert m_Row[row][col].view == view;
      TakenLayout(m_Row, m_nCount, place, view, row, col);
      MapRemove(place, m_Container, view);
      m_Row := m_Row[row := m_Row[row][..col] + m_Row[row][col + 1..]];
      m_Container := m_Container - {view};
      m_nCount := m_nCount - 1;
      place := Without(place, view);
    }

    /** Lines 144-168 and 185-186: the view to make current; `view` itself when nothing takes over from it. */
    method Successor(view: Widget, row: nat, col: nat) returns (current: Option<Widget>)
      requires Settled() && At(m_Row, row, col, view)
      ensures current == Heir(m_Row, row, col, Current())
      ensures current.Some? ==> current.value in place
    {
      current := GetCurrentView();
      if current == Some(view) {
        NextPlaced(m_Row, place, row, col);
        var next := FindNext(row, col);
        if next.Some? {
          current := Some(next.value.view);
        }
      }
    }

    /** Lines 185-194: `current` is made current if it is still shown; otherwise nothing is current. */
    method Refocus(current: Option<Widget>) returns (ret: int)
      requires Settled() && m_nCount <= peak && Bounded(m_nRow, peak)
      requires current.None? || current.value !in place ==>
                 IndexAgrees(m_Row, m_nIdxRow, m_nIdxCol) && Current().None?
      modifies this`m_Container, this`m_nIdxRow, this`m_nIdxCol
      ensures Valid()
      ensures Current() == if current.Some? && current.value in place then current else None
      ensures ret == if Current().Some? then 0 else -1
    {
      if current.Some? {
        ret := SetCurrentView(current.value);
      } else {
        ret := SetCurrentView(null);
      }
    }

    /**
     * Lines 130-195.  The other views keep their order, a current view that stays is still current
     * although it may have moved, and a current view that goes hands over as HandsOver says.
     */
    method RemoveView(view: Widget?) returns (ret: int)
      requires Valid()
      modifies this
      ensures Valid() && peak == old(peak)
      ensures view == null || view !in old(place) ==>
                ret == -1 && m_Row == old(m_Row) && place == old(place) && Current() == old(Current())
      ensures view != null && view in old(place) ==>
                var (r, c) := old(place)[view];
                && At(old(m_Row), r, c, view) && m_Row == Taken(old(m_Row), r, c)
                && place == Without(old(place), view)
                && Current() == AfterRemoval(old(m_Row), r, c, old(Current()))
                && ret == (if Current().Some? then 0 else -1)
                && TakesOver(old(m_Row), r, c, old(Current()), Current())
    {
      hide TakesOver, AfterRemoval, Heir, MapAgrees, Bounded, Taken, Without;
      if view == null {
        return -1;
      }
      var found, row, col := GetIndex(view);
      if found != 0 {
        return found;
      }
      assert At(m_Row, row, col, view);
      var current := Successor(view, row, col);
      RightOneTakesOver(m_Row, row, col, Current());
      HeirPlaced(m_Row, place, row, col, m_nIdxRow, m_nIdxCol);
      ViewAfterTaken(m_Row, place, row, col, m_nIdxRow, m_nIdxCol);
      Detach(view, row, col);
      ret := Refocus(current);
    }
  }

  /** QSplitter::indexOf; null is in no splitter. */
  function IndexOf(row: seq<Container>, p: Option<Container>): (i: int)
    ensures -1 <= i < |row|
    ensures i >= 0 ==> p.Some? && row[i] == p.value
    ensures i < 0 ==> p.None? || p.value !in row
  {
    if p.None? || row == [] then -1
    else if row[0] == p.value then 0
    else
      var k := IndexOf(row[1..], p);
      if k < 0 then -1 else k + 1
  }
}