/** The order in which the views of the splitter fill its square, in closed form. */
module SquareShell {

  /** The integer square root. */
  function Root(k: nat): (m: nat)
    ensures m * m <= k < (m + 1) * (m + 1)
  {
    if k == 0 then 0
    else
      var m := Root(k - 1);
      if k == (m + 1) * (m + 1) then m + 1 else m
  }

  /** Row and column of the k-th view: down the new last column, then along the new last row. */
  function Cell(k: nat): (nat, nat)
  {
    var m := Root(k);
    var d := k - m * m;
    if d < m then (d, m) else (m, d - m)
  }

  /** Which view a cell belongs to. */
  function Order(row: nat, col: nat): nat
  {
    if row < col then col * col + row else row * row + row + col
  }

  lemma {:induction false} SquareMonotone(a: nat, b: nat)
    requires a <= b
    ensures a * a <= b * b
  {
    assert a * a <= a * b <= b * b by {
      assert b == a + (b - a);
      assert a * b == a * a + a * (b - a);
      assert b * b == a * b + (b - a) * b;
    }
  }

  lemma {:induction false} RootUnique(k: nat, m: nat)
    requires m * m <= k < (m + 1) * (m + 1)
    ensures Root(k) == m
  {
    var r := Root(k);
    if r < m {
      SquareMonotone(r + 1, m);
    } else if m < r {
      SquareMonotone(m + 1, r);
    }
  }

  /** Every cell of the quarter plane holds exactly one number, and every number has its cell. */
  lemma {:induction false} CellIsBijective(k: nat, row: nat, col: nat)
    ensures Order(Cell(k).0, Cell(k).1) == k
    ensures Cell(Order(row, col)) == (row, col)
  {
    var m := Root(k);
    assert (m + 1) * (m + 1) == m * m + 2 * m + 1;
    var n := Order(row, col);
    if row < col {
      assert (col + 1) * (col + 1) == col * col + 2 * col + 1;
      RootUnique(n, col);
    } else {
      assert (row + 1) * (row + 1) == row * row + 2 * row + 1;
      RootUnique(n, row);
    }
  }

  /** The first n*n views fill exactly the square of side n. */
  lemma {:induction false} SquaresFill(n: nat, row: nat, col: nat)
    ensures Order(row, col) < n * n <==> row < n && col < n
  {
    var m := if row < col then col else row;
    assert (m + 1) * (m + 1) == m * m + 2 * m + 1;
    if m < n {
      SquareMonotone(m + 1, n);
    } else {
      SquareMonotone(n, m);
    }
  }
}
