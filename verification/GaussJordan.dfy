/** Gauss-Jordan elimination with partial pivoting on integers, where every division must be exact. */
module GaussJordan {
  import opened Wrappers
  import opened Arith

  type Row = seq<int>
  type Vector = seq<real>

  datatype Matrix = Matrix(rows: nat, cols: nat, data: seq<Row>) {
    predicate Valid() { |data| == rows && forall i | 0 <= i < rows :: |data[i]| == cols }
  }

  /* ---- linear equations ---- */

  function Dot(row: Row, y: Vector): real
    requires |row| == |y|
  {
    if row == [] then 0.0
    else
      var n := |row| - 1;
      Dot(row[..n], y[..n]) + (row[n] as real) * y[n]
  }

  predicate Rectangular(rows: seq<Row>, width: nat) { forall i | 0 <= i < |rows| :: |rows[i]| == width }

  /** The vector annihilates every row. */
  predicate Annihilates(rows: seq<Row>, y: Vector) {
    Rectangular(rows, |y|) && forall i | 0 <= i < |rows| :: Dot(rows[i], y) == 0.0
  }

  /** The two matrices annihilate the same vectors. */
  ghost predicate SameKernel(rows: seq<Row>, rows': seq<Row>, width: nat) {
    && Rectangular(rows, width) && Rectangular(rows', width)
    && forall y: Vector | |y| == width :: Annihilates(rows, y) <==> Annihilates(rows', y)
  }

  lemma {:induction false} DotScale(row: Row, scaled: Row, p: int, y: Vector)
    requires |row| == |scaled| == |y| && forall j | 0 <= j < |row| :: row[j] == p * scaled[j]
    ensures Dot(row, y) == (p as real) * Dot(scaled, y)
  {
    if row != [] {
      var n := |row| - 1;
      DotScale(row[..n], scaled[..n], p, y[..n]);
      ScaleTerm(p, scaled[n], row[n], y[n], Dot(scaled[..n], y[..n]));
    }
  }

  lemma ScaleTerm(p: int, s: int, r: int, y: real, d: real)
    requires r == p * s
    ensures (p as real) * d + (r as real) * y == (p as real) * (d + (s as real) * y)
  {
    assert r as real == (p as real) * (s as real);
    assert (p as real) * (s as real) * y == (p as real) * ((s as real) * y);
  }

  lemma {:induction false} DotSubtract(row: Row, pivotRow: Row, result: Row, f: int, y: Vector)
    requires |row| == |pivotRow| == |result| == |y|
    requires forall j | 0 <= j < |row| :: result[j] == row[j] - f * pivotRow[j]
    ensures Dot(result, y) == Dot(row, y) - (f as real) * Dot(pivotRow, y)
  {
    if row != [] {
      var n := |row| - 1;
      DotSubtract(row[..n], pivotRow[..n], result[..n], f, y[..n]);
      SubtractTerm(row[n], pivotRow[n], result[n], f, y[n], Dot(row[..n], y[..n]), Dot(pivotRow[..n], y[..n]));
    }
  }

  lemma SubtractTerm(r: int, p: int, s: int, f: int, y: real, d: real, g: real)
    requires s == r - f * p
    ensures (d - (f as real) * g) + (s as real) * y == (d + (r as real) * y) - (f as real) * (g + (p as real) * y)
  {
    assert s as real == (r as real) - (f as real) * (p as real);
    assert (f as real) * (p as real) * y == (f as real) * ((p as real) * y);
  }

  /* ---- row operations keep the kernel ---- */

  lemma SwapKeepsKernel(rows: seq<Row>, i: nat, k: nat, width: nat)
    requires i < |rows| && k < |rows| && Rectangular(rows, width)
    ensures SameKernel(rows, rows[i := rows[k]][k := rows[i]], width)
  {
    hide Dot;
    var after := rows[i := rows[k]][k := rows[i]];
    forall y: Vector | |y| == width ensures Annihilates(rows, y) <==> Annihilates(after, y) {
      assert forall j | 0 <= j < |rows| :: after[j] == if j == k then rows[i] else if j == i then rows[k] else rows[j];
      if Annihilates(after, y) {
        forall j | 0 <= j < |rows| ensures Dot(rows[j], y) == 0.0 {
          var source := if j == i then k else if j == k then i else j;
          assert after[source] == rows[j];
        }
      }
    }
  }

  lemma ScaleKeepsKernel(rows: seq<Row>, i: nat, scaled: Row, p: int, width: nat)
    requires i < |rows| && Rectangular(rows, width) && |scaled| == width && p != 0
    requires forall j | 0 <= j < width :: rows[i][j] == p * scaled[j]
    ensures SameKernel(rows, rows[i := scaled], width)
  {
    hide Dot;
    var after := rows[i := scaled];
    forall y: Vector | |y| == width ensures Annihilates(rows, y) <==> Annihilates(after, y) {
      DotScale(rows[i], scaled, p, y);
      ZeroProduct(p as real, Dot(scaled, y));
      if Annihilates(after, y) {
        assert Dot(after[i], y) == 0.0;
        forall j | 0 <= j < |rows| ensures Dot(rows[j], y) == 0.0 { if j != i { assert after[j] == rows[j]; } }
      }
    }
  }

  lemma ZeroProduct(p: real, d: real)
    requires p != 0.0
    ensures p * d == 0.0 <==> d == 0.0
  {
    if p * d == 0.0 { assert d == (p * d) / p; }
  }

  lemma SubtractKeepsKernel(rows: seq<Row>, k: nat, i: nat, result: Row, f: int, width: nat)
    requires k < |rows| && i < |rows| && k != i && Rectangular(rows, width) && |result| == width
    requires forall j | 0 <= j < width :: result[j] == rows[k][j] - f * rows[i][j]
    ensures SameKernel(rows, rows[k := result], width)
  {
    hide Dot;
    var after := rows[k := result];
    forall y: Vector | |y| == width ensures Annihilates(rows, y) <==> Annihilates(after, y) {
      DotSubtract(rows[k], rows[i], result, f, y);
      assert after[i] == rows[i] && after[k] == result;
      if Annihilates(after, y) {
        assert Dot(after[i], y) == 0.0 && Dot(after[k], y) == 0.0;
        assert Dot(rows[k], y) == 0.0;
        forall j | 0 <= j < |rows| ensures Dot(rows[j], y) == 0.0 { if j != k { assert after[j] == rows[j]; } }
      }
    }
  }

  lemma SameKernelTransitive(a: seq<Row>, b: seq<Row>, c: seq<Row>, width: nat)
    requires SameKernel(a, b, width) && SameKernel(b, c, width)
    ensures SameKernel(a, c, width)
  {
    hide Annihilates;
  }

  /* ---- the steps ---- */

  /** The first row of largest magnitude in a column, among those from the column's own up to a bound. */
  function PivotRow(rows: seq<Row>, column: nat, end: nat, width: nat): (row: nat)
    requires column < end <= |rows| && column < width && Rectangular(rows, width)
    ensures column <= row < end
  {
    if end == column + 1 then column
    else
      var best := PivotRow(rows, column, end - 1, width);
      if Abs(rows[end - 1][column]) > Abs(rows[best][column]) then end - 1 else best
  }

  function Swapped(rows: seq<Row>, i: nat, k: nat): seq<Row>
    requires i < |rows| && k < |rows|
  {
    rows[i := rows[k]][k := rows[i]]
  }

  predicate Divides(pivot: int, row: Row)
    requires pivot != 0
  {
    forall j | 0 <= j < |row| :: row[j] % pivot == 0
  }

  function Quotients(row: Row, pivot: int): (r: Row)
    requires pivot != 0
    ensures |r| == |row|
  {
    seq(|row|, j requires 0 <= j < |row| => row[j] / pivot)
  }

  function Minus(row: Row, factor: int, pivotRow: Row): (r: Row)
    requires |row| == |pivotRow|
    ensures |r| == |row|
  {
    seq(|row|, j requires 0 <= j < |row| => row[j] - factor * pivotRow[j])
  }

  /** Every other row less its multiple of row i. */
  function Cleared(rows: seq<Row>, i: nat, width: nat): (cleared: seq<Row>)
    requires i < |rows| && i < width && Rectangular(rows, width)
    ensures |cleared| == |rows| && Rectangular(cleared, width)
  {
    seq(|rows|, k requires 0 <= k < |rows| => if k == i then rows[i] else Minus(rows[k], rows[k][i], rows[i]))
  }

  /** The column with its pivot in place: nothing if the pivot does not divide its row. */
  function PivotStep(rows: seq<Row>, i: nat, width: nat): (r: Option<seq<Row>>)
    requires i < |rows| && i < width && Rectangular(rows, width) && rows[i][i] != 0
    ensures r.Some? ==> |r.value| == |rows| && Rectangular(r.value, width)
  {
    if Divides(rows[i][i], rows[i]) then Some(Cleared(rows[i := Quotients(rows[i], rows[i][i])], i, width)) else None
  }

  /** The rows with the pivot row of a column in its place. */
  function Aligned(rows: seq<Row>, i: nat, width: nat, search: bool): (s: seq<Row>)
    requires i < |rows| && i < width && Rectangular(rows, width)
    ensures |s| == |rows| && Rectangular(s, width)
  {
    if search then Swapped(rows, i, PivotRow(rows, i, |rows|, width)) else rows
  }

  /** One column. With a search the largest pivot is swapped up and a zero one leaves the column
      alone; without one a zero pivot is a failure. */
  function ColumnStep(rows: seq<Row>, i: nat, width: nat, search: bool): (r: Option<seq<Row>>)
    requires i < |rows| && i < width && Rectangular(rows, width)
    ensures r.Some? ==> |r.value| == |rows| && Rectangular(r.value, width)
  {
    var s := Aligned(rows, i, width, search);
    if s[i][i] != 0 then PivotStep(s, i, width) else if search then Some(s) else None
  }

  /** The first columns, one after the other. */
  function Eliminate(rows: seq<Row>, columns: nat, width: nat, search: bool): (r: Option<seq<Row>>)
    requires columns <= |rows| && columns <= width && Rectangular(rows, width)
    ensures r.Some? ==> |r.value| == |rows| && Rectangular(r.value, width)
  {
    if columns == 0 then Some(rows)
    else match Eliminate(rows, columns - 1, width, search)
      case None => None
      case Some(before) => ColumnStep(before, columns - 1, width, search)
  }

  /** The elimination fails at this column: its pivot does not divide its row or, without a search, is
      zero. */
  predicate FailsAt(rows: seq<Row>, i: nat, width: nat, search: bool)
    requires i < |rows| && i < width && Rectangular(rows, width)
  {
    var s := Aligned(rows, i, width, search);
    if s[i][i] == 0 then !search else !Divides(s[i][i], s[i])
  }

  /** The elimination reaches this column and fails there. */
  predicate StopsAt(rows: seq<Row>, i: nat, width: nat, search: bool)
    requires i < |rows| && i < width && Rectangular(rows, width)
  {
    var before := Eliminate(rows, i, width, search);
    before.Some? && FailsAt(before.value, i, width, search)
  }

  /** There is no result exactly if the elimination reaches a column at which it fails. */
  lemma {:induction false} FailsExactly(rows: seq<Row>, columns: nat, width: nat, search: bool)
    requires columns <= |rows| && columns <= width && Rectangular(rows, width)
    ensures Eliminate(rows, columns, width, search).None? <==>
        exists i: nat :: i < columns && StopsAt(rows, i, width, search)
  {
    hide ColumnStep, FailsAt;
    if columns > 0 {
      FailsExactly(rows, columns - 1, width, search);
      var before := Eliminate(rows, columns - 1, width, search);
      if before.Some? {
        StepFails(before.value, columns - 1, width, search);
        assert StopsAt(rows, columns - 1, width, search) <==> FailsAt(before.value, columns - 1, width, search);
      } else {
        var i: nat :| i < columns - 1 && StopsAt(rows, i, width, search);
        assert i < columns;
      }
    }
  }

  lemma StepFails(rows: seq<Row>, i: nat, width: nat, search: bool)
    requires i < |rows| && i < width && Rectangular(rows, width)
    ensures ColumnStep(rows, i, width, search).None? <==> FailsAt(rows, i, width, search)
  {
    hide Aligned;
  }

  /** The first row of largest magnitude in a column, from a row on. */
  method FindPivot(a: array<Row>, column: nat, ghost width: nat) returns (row: nat)
    requires column < a.Length && column < width && Rectangular(a[..], width)
    ensures column <= row < a.Length && row == PivotRow(a[..], column, a.Length, width)
    ensures forall k | column <= k < a.Length :: Abs(a[k][column]) <= Abs(a[row][column])
    ensures forall k | column <= k < row :: Abs(a[k][column]) < Abs(a[row][column])
  {
    row := column;
    var k := column + 1;
    assert forall j | 0 <= j < a.Length :: a[..][j] == a[j];
    while k < a.Length
      invariant column <= row < k <= a.Length && row == PivotRow(a[..], column, k, width)
      invariant forall j | column <= j < k :: Abs(a[j][column]) <= Abs(a[row][column])
      invariant forall j | column <= j < row :: Abs(a[j][column]) < Abs(a[row][column])
    {
      if Abs(a[k][column]) > Abs(a[row][column]) { row := k; }
      k := k + 1;
    }
  }

  /** Dividing a row by the pivot, entry by entry: no result if a division is not exact. */
  method DivideRow(row: Row, pivot: int) returns (r: Option<Row>)
    requires pivot != 0
    ensures r.Some? <==> Divides(pivot, row)
    ensures r.Some? <==> forall j | 0 <= j < |row| :: row[j] % pivot == 0
    ensures r.Some? ==> r.value == Quotients(row, pivot) && forall j | 0 <= j < |row| :: row[j] == pivot * r.value[j]
  {
    var divided: Row := [];
    var j := 0;
    while j < |row|
      invariant 0 <= j <= |row| && |divided| == j
      invariant forall k | 0 <= k < j ::
          row[k] % pivot == 0 && row[k] == pivot * divided[k] && divided[k] == row[k] / pivot
    {
      if row[j] / pivot * pivot != row[j] {
        NotExact(row[j], pivot);
        return None;
      }
      Exact(row[j], pivot);
      divided := divided + [row[j] / pivot];
      j := j + 1;
    }
    r := Some(divided);
  }

  lemma Exact(a: int, b: int)
    requires b != 0 && a / b * b == a
    ensures a % b == 0 && a == b * (a / b)
  {
  }

  lemma NotExact(a: int, b: int)
    requires b != 0 && a / b * b != a
    ensures a % b != 0
  {
  }

  /** Subtracting a multiple of the pivot row. */
  method SubtractRow(row: Row, factor: int, pivotRow: Row) returns (result: Row)
    requires |row| == |pivotRow|
    ensures result == Minus(row, factor, pivotRow)
  {
    result := [];
    var j := 0;
    while j < |row|
      invariant 0 <= j <= |row| && |result| == j
      invariant forall k | 0 <= k < j :: result[k] == row[k] - factor * pivotRow[k]
    {
      result := result + [row[j] - factor * pivotRow[j]];
      j := j + 1;
    }
  }

  predicate UnitColumn(rows: seq<Row>, width: nat, i: nat)
    requires Rectangular(rows, width) && i < width
  {
    forall k | 0 <= k < |rows| :: rows[k][i] == if k == i then 1 else 0
  }

  /** Eliminating a column below and above its pivot row, whose pivot is 1: the column becomes a unit
      column and the unit columns among the first ones stay. */
  method EliminateColumn(a: array<Row>, i: nat, ghost width: nat)
    requires i < a.Length && i < width && Rectangular(a[..], width) && a[i][i] == 1
    modifies a
    ensures a[..] == Cleared(old(a[..]), i, width)
    ensures SameKernel(old(a[..]), a[..], width)
    ensures Rectangular(a[..], width) && UnitColumn(a[..], width, i)
    ensures forall c | 0 <= c < width && c != i && UnitColumn(old(a[..]), width, c) :: UnitColumn(a[..], width, c)
  {
    hide SameKernel;
    ghost var start := a[..];
    KernelReflexive(a[..], width);
    var k := 0;
    while k < a.Length
      invariant 0 <= k <= a.Length
      invariant Rectangular(a[..], width) && SameKernel(start, a[..], width)
      invariant a[i] == start[i]
      invariant forall r | k <= r < a.Length :: a[r] == start[r]
      invariant forall r | 0 <= r < k && r != i :: a[r] == Minus(start[r], start[r][i], start[i])
    {
      if k != i {
        ghost var before := a[..];
        assert before[k] == start[k] && before[i] == start[i];
        var factor := a[k][i];
        var row := SubtractRow(a[k], factor, a[i]);
        a[k] := row;
        assert a[..] == before[k := row];
        SubtractKeepsKernel(before, k, i, row, factor, width);
        SameKernelTransitive(start, before, a[..], width);
      }
      k := k + 1;
    }
    assert a[..] == Cleared(start, i, width);
    ColumnsReduced(start, a[..], i, width);
  }

  predicate Reduced(row: Row, pivotRow: Row, i: nat, result: Row) {
    && |row| == |pivotRow| == |result| && i < |row|
    && forall j | 0 <= j < |row| :: result[j] == row[j] - row[i] * pivotRow[j]
  }

  lemma ColumnsReduced(start: seq<Row>, after: seq<Row>, i: nat, width: nat)
    requires |after| == |start| && i < |start| && i < width && Rectangular(start, width) && Rectangular(after, width)
    requires start[i][i] == 1 && after[i] == start[i]
    requires forall r | 0 <= r < |start| && r != i :: Reduced(start[r], start[i], i, after[r])
    ensures UnitColumn(after, width, i)
    ensures forall c | 0 <= c < width && c != i && UnitColumn(start, width, c) :: UnitColumn(after, width, c)
  {
    forall r | 0 <= r < |start| && r != i ensures after[r][i] == 0 { assert Reduced(start[r], start[i], i, after[r]); }
    forall c | 0 <= c < width && c != i && UnitColumn(start, width, c) ensures UnitColumn(after, width, c) {
      assert start[i][c] == 0;
      forall r | 0 <= r < |start| ensures after[r][c] == if r == c then 1 else 0 {
        if r != i {
          assert Reduced(start[r], start[i], i, after[r]);
          assert after[r][c] == start[r][c] - start[r][i] * start[i][c];
        }
      }
    }
  }

  lemma KernelReflexive(rows: seq<Row>, width: nat)
    requires Rectangular(rows, width)
    ensures SameKernel(rows, rows, width)
  {
  }

  /* ---- the whole elimination ---- */

  /** Some nonzero vector is annihilated. */
  ghost predicate Singular(rows: seq<Row>, n: nat) {
    Rectangular(rows, n) && exists x: Vector :: |x| == n && Annihilates(rows, x) && exists i ::
        0 <= i < n && x[i] != 0.0
  }

  /** Column c of the right-hand side is the image of the vector. */
  predicate Solves(a: seq<Row>, b: seq<Row>, c: nat, x: Vector)
    requires |a| == |b| && Rectangular(a, |x|) && forall i | 0 <= i < |b| :: c < |b[i]|
  {
    forall i | 0 <= i < |a| :: Dot(a[i], x) == b[i][c] as real
  }

  function Zeros(n: nat): (y: Vector)
    ensures |y| == n
  {
    seq(n, i => 0.0)
  }

  /** Minus the c-th unit vector. */
  function MinusUnit(n: nat, c: nat): (y: Vector)
    ensures |y| == n
  {
    seq(n, i => if i == c then -1.0 else 0.0)
  }

  lemma {:induction false} DotConcat(r: Row, s: Row, x: Vector, y: Vector)
    requires |r| == |x| && |s| == |y|
    ensures |r + s| == |x + y| && Dot(r + s, x + y) == Dot(r, x) + Dot(s, y)
  {
    if s == [] {
      assert r + s == r && x + y == x;
    } else {
      var n := |s| - 1;
      DotConcat(r, s[..n], x, y[..n]);
      assert (r + s)[..|r + s| - 1] == r + s[..n] && (x + y)[..|x + y| - 1] == x + y[..n];
    }
  }

  lemma {:induction false} DotZeros(s: Row)
    ensures Dot(s, Zeros(|s|)) == 0.0
  {
    if s != [] {
      var n := |s| - 1;
      assert Zeros(|s|)[..n] == Zeros(n);
      DotZeros(s[..n]);
    }
  }

  lemma {:induction false} DotMinusUnit(s: Row, c: nat)
    ensures Dot(s, MinusUnit(|s|, c)) == if c < |s| then -(s[c] as real) else 0.0
  {
    if s != [] {
      var n := |s| - 1;
      assert MinusUnit(|s|, c)[..n] == MinusUnit(n, c);
      DotMinusUnit(s[..n], c);
    }
  }

  /** A row that is a unit vector picks one component. */
  lemma {:induction false} DotUnitRow(s: Row, i: nat, x: Vector)
    requires |s| == |x| && forall j | 0 <= j < |s| :: s[j] == if j == i then 1 else 0
    ensures Dot(s, x) == if i < |s| then x[i] else 0.0
  {
    if s != [] {
      var n := |s| - 1;
      DotUnitRow(s[..n], i, x[..n]);
    }
  }

  /** The rows of the coefficient matrix, each followed by its right-hand side. */
  ghost predicate Augmented(rows: seq<Row>, a: seq<Row>, b: seq<Row>, n: nat, m: nat) {
    && |rows| == |a| == |b| && Rectangular(a, n) && Rectangular(b, m)
    && forall i | 0 <= i < |rows| :: rows[i] == a[i] + b[i]
  }

  lemma AugmentedSolves(rows: seq<Row>, a: seq<Row>, b: seq<Row>, n: nat, m: nat, c: nat, x: Vector)
    requires Augmented(rows, a, b, n, m) && |x| == n && c < m
    ensures Annihilates(rows, x + MinusUnit(m, c)) <==> Solves(a, b, c, x)
    ensures Annihilates(rows, x + Zeros(m)) <==> Annihilates(a, x)
  {
    forall i | 0 <= i < |rows|
      ensures |rows[i]| == n + m
      ensures Dot(rows[i], x + MinusUnit(m, c)) == Dot(a[i], x) - b[i][c] as real
      ensures Dot(rows[i], x + Zeros(m)) == Dot(a[i], x)
    {
      DotConcat(a[i], b[i], x, MinusUnit(m, c));
      DotMinusUnit(b[i], c);
      DotConcat(a[i], b[i], x, Zeros(m));
      DotZeros(b[i]);
    }
  }

  lemma AugmentedKernel(rows: seq<Row>, a: seq<Row>, b: seq<Row>, n: nat, m: nat, x: Vector)
    requires Augmented(rows, a, b, n, m) && |x| == n
    ensures Annihilates(rows, x + Zeros(m)) <==> Annihilates(a, x)
  {
    forall i | 0 <= i < |rows|
      ensures |rows[i]| == n + m
      ensures Dot(rows[i], x + Zeros(m)) == Dot(a[i], x)
    {
      DotConcat(a[i], b[i], x, Zeros(m));
      DotZeros(b[i]);
    }
  }

  /** The first i columns are unit columns. */
  ghost predicate Processed(rows: seq<Row>, width: nat, i: nat) {
    Rectangular(rows, width) && i <= width && forall c | 0 <= c < i :: UnitColumn(rows, width, c)
  }

  lemma SwapKeepsUnits(rows: seq<Row>, i: nat, k: nat, width: nat)
    requires Processed(rows, width, i) && i <= k < |rows|
    ensures Processed(rows[i := rows[k]][k := rows[i]], width, i)
  {
    var after := rows[i := rows[k]][k := rows[i]];
    forall c | 0 <= c < i ensures UnitColumn(after, width, c) { assert UnitColumn(rows, width, c); }
  }

  lemma ScaleKeepsUnits(rows: seq<Row>, i: nat, scaled: Row, p: int, width: nat)
    requires Processed(rows, width, i) && i < |rows| && |scaled| == width && p != 0
    requires forall j | 0 <= j < width :: rows[i][j] == p * scaled[j]
    ensures Processed(rows[i := scaled], width, i)
  {
    var after := rows[i := scaled];
    forall c | 0 <= c < i ensures UnitColumn(after, width, c) {
      assert UnitColumn(rows, width, c);
      assert rows[i][c] == 0 && p * scaled[c] == 0;
      NonzeroFactor(p, scaled[c]);
    }
  }

  lemma NonzeroFactor(p: int, x: int)
    requires p != 0 && p * x == 0
    ensures x == 0
  {
  }

  /** A vector killed by rows whose first columns are unit columns and whose column i is zero from
      row i on: the i-th component is 1, the earlier ones cancel it. */
  function KernelVector(rows: seq<Row>, i: nat, width: nat): (y: Vector)
    requires i < width && i <= |rows| && Rectangular(rows, width)
    ensures |y| == width
  {
    seq(width, j requires 0 <= j < width => if j == i then 1.0 else if j < i then -(rows[j][i] as real) else 0.0)
  }

  lemma {:induction false} DotKernel(row: Row, y: Vector, k: nat, i: nat)
    requires |row| == |y| && i < |y|
    requires forall j | 0 <= j < i :: row[j] == if j == k then 1 else 0
    requires y[i] == 1.0 && forall j | i < j < |y| :: y[j] == 0.0
    ensures Dot(row, y) == (row[i] as real) + if k < i then y[k] else 0.0
  {
    if |row| == i + 1 {
      DotUnitRow(row[..i], k, y[..i]);
    } else {
      var n := |row| - 1;
      DotKernel(row[..n], y[..n], k, i);
    }
  }

  lemma KernelRow(rows: seq<Row>, width: nat, i: nat, k: nat)
    requires Processed(rows, width, i) && i < width && i <= |rows| && k < |rows| && (k >= i ==> rows[k][i] == 0)
    ensures Dot(rows[k], KernelVector(rows, i, width)) == 0.0
  {
    hide Dot;
    forall j | 0 <= j < i ensures rows[k][j] == if j == k then 1 else 0 { assert UnitColumn(rows, width, j); }
    DotKernel(rows[k], KernelVector(rows, i, width), k, i);
  }

  /** A zero pivot of largest magnitude means that the matrix is singular. */
  lemma ZeroPivotIsSingular(rows: seq<Row>, start: seq<Row>, a: seq<Row>, b: seq<Row>, n: nat, m: nat, i: nat)
    requires Augmented(start, a, b, n, m) && SameKernel(start, rows, n + m)
    requires i < n == |rows| == |start| && Processed(rows, n + m, i)
    requires forall k | i <= k < n :: rows[k][i] == 0
    ensures Singular(a, n)
  {
    hide Dot, SameKernel, Annihilates, Augmented, KernelVector;
    var y := KernelVector(rows, i, n + m);
    KernelAnnihilates(rows, n + m, i);
    SameAnnihilation(start, rows, n + m, y);
    var x := y[..n];
    KernelPrefix(rows, i, n, m);
    AugmentedKernel(start, a, b, n, m, x);
    AugmentedWidth(start, a, b, n, m);
  }

  lemma KernelAnnihilates(rows: seq<Row>, width: nat, i: nat)
    requires Processed(rows, width, i) && i < width && i <= |rows| && forall k | i <= k < |rows| :: rows[k][i] == 0
    ensures Annihilates(rows, KernelVector(rows, i, width))
  {
    hide Dot;
    forall k | 0 <= k < |rows| ensures Dot(rows[k], KernelVector(rows, i, width)) == 0.0 {
      KernelRow(rows, width, i, k);
    }
  }

  lemma SameAnnihilation(rows: seq<Row>, rows': seq<Row>, width: nat, y: Vector)
    requires SameKernel(rows, rows', width) && |y| == width
    ensures Annihilates(rows, y) <==> Annihilates(rows', y)
  {
    hide Annihilates;
  }

  lemma KernelPrefix(rows: seq<Row>, i: nat, n: nat, m: nat)
    requires i < n && i <= |rows| && Rectangular(rows, n + m)
    ensures var y := KernelVector(rows, i, n + m); y == y[..n] + Zeros(m) && y[..n][i] == 1.0
  {
  }

  lemma AugmentedWidth(rows: seq<Row>, a: seq<Row>, b: seq<Row>, n: nat, m: nat)
    requires Augmented(rows, a, b, n, m)
    ensures Rectangular(a, n)
  {
  }

  /** With all first columns unit columns, the system reads off its solution. */
  lemma UnitSystem(rows: seq<Row>, n: nat, m: nat, c: nat, x: Vector)
    requires |rows| == n && Processed(rows, n + m, n) && |x| == n && c < m
    ensures Annihilates(rows, x + MinusUnit(m, c)) <==> forall i | 0 <= i < n :: x[i] == rows[i][n + c] as real
  {
    forall i | 0 <= i < n ensures Dot(rows[i], x + MinusUnit(m, c)) == x[i] - rows[i][n + c] as real {
      UnitRow(rows, n, m, i, x);
      DotConcat(rows[i][..n], rows[i][n..], x, MinusUnit(m, c));
      DotMinusUnit(rows[i][n..], c);
      assert rows[i][..n] + rows[i][n..] == rows[i];
    }
  }

  lemma UnitRow(rows: seq<Row>, n: nat, m: nat, i: nat, x: Vector)
    requires |rows| == n && Processed(rows, n + m, n) && |x| == n && i < n
    ensures Dot(rows[i][..n], x) == x[i]
  {
    forall j | 0 <= j < n ensures rows[i][..n][j] == if j == i then 1 else 0 { assert UnitColumn(rows, n + m, j); }
    DotUnitRow(rows[i][..n], i, x);
  }

  lemma UnitKernel(rows: seq<Row>, n: nat, m: nat, x: Vector)
    requires |rows| == n && Processed(rows, n + m, n) && |x| == n && Annihilates(rows, x + Zeros(m))
    ensures forall i | 0 <= i < n :: x[i] == 0.0
  {
    forall i | 0 <= i < n ensures x[i] == 0.0 {
      UnitRow(rows, n, m, i, x);
      DotConcat(rows[i][..n], rows[i][n..], x, Zeros(m));
      DotZeros(rows[i][n..]);
      assert rows[i][..n] + rows[i][n..] == rows[i];
      assert Dot(rows[i], x + Zeros(m)) == 0.0;
    }
  }

  lemma ReducedIsRegular(rows: seq<Row>, start: seq<Row>, a: seq<Row>, b: seq<Row>, n: nat, m: nat)
    requires Augmented(start, a, b, n, m) && SameKernel(start, rows, n + m) && |rows| == n && Processed(rows, n + m, n)
    ensures !Singular(a, n)
    ensures forall c: nat, x: Vector | c < m && |x| == n :: Solves(a, b, c, x) <==>
        forall i | 0 <= i < n :: x[i] == rows[i][n + c] as real
  {
    hide Dot, Solves;
    forall x: Vector | |x| == n && Annihilates(a, x) ensures forall i | 0 <= i < n :: x[i] == 0.0 {
      AugmentedKernel(start, a, b, n, m, x);
      UnitKernel(rows, n, m, x);
    }
    forall c: nat, x: Vector | c < m && |x| == n
      ensures Solves(a, b, c, x) <==> forall i | 0 <= i < n :: x[i] == rows[i][n + c] as real
    {
      AugmentedSolves(start, a, b, n, m, c, x);
      UnitSystem(rows, n, m, c, x);
    }
  }

  /** The state of the elimination before column i: the kernel is that of the start; either all
      columns so far are unit columns, or the matrix is singular. */
  ghost predicate Eliminating(rows: seq<Row>, start: seq<Row>, a: seq<Row>, b: seq<Row>, n: nat, m: nat, i: nat,
      regular: bool) {
    && Augmented(start, a, b, n, m) && |rows| == |start| == n && SameKernel(start, rows, n + m)
    && i <= n && Rectangular(rows, n + m)
    && (if regular then Processed(rows, n + m, i) else Singular(a, n))
  }

  /** One pivot column: the pivot row divided, the column eliminated. No result if a division is
      not exact. */
  method ProcessPivot(rows: array<Row>, i: nat, ghost start: seq<Row>, ghost a: seq<Row>, ghost b: seq<Row>, n: nat,
      ghost m: nat,
                      ghost regular: bool)
    returns (ok: bool)
    requires rows.Length == n && i < n && Eliminating(rows[..], start, a, b, n, m, i, regular) && rows[i][i] != 0
    modifies rows
    ensures ok ==> Eliminating(rows[..], start, a, b, n, m, i + 1, regular)
    ensures PivotStep(old(rows[..]), i, n + m) == if ok then Some(rows[..]) else None
  {
    hide SameKernel, Singular, Dot, Cleared, Quotients, Divides;
    ghost var before := rows[..];
    ghost var width := n + m;
    assert before[i] == rows[i];
    var pivot := rows[i][i];
    var divided := DivideRow(rows[i], pivot);
    if divided.None? { return false; }
    rows[i] := divided.value;
    assert rows[..] == before[i := divided.value];
    ScaleKeepsKernel(before, i, divided.value, pivot, width);
    SameKernelTransitive(start, before, rows[..], width);
    if regular { ScaleKeepsUnits(before, i, divided.value, pivot, width); }
    PivotIsOne(pivot, divided.value[i]);
    ghost var scaled := rows[..];
    EliminateColumn(rows, i, width);
    SameKernelTransitive(start, scaled, rows[..], width);
    ok := true;
  }

  lemma PivotIsOne(p: int, x: int)
    requires p != 0 && p == p * x
    ensures x == 1
  {
    assert p * (x - 1) == 0;
    NonzeroFactor(p, x - 1);
  }

  /** Column i: the row of largest magnitude is swapped up; a zero pivot leaves the column alone. */
  method ProcessColumn(rows: array<Row>, i: nat, ghost start: seq<Row>, ghost a: seq<Row>, ghost b: seq<Row>, n: nat,
      ghost m: nat,
                       ghost regular: bool)
    returns (ok: bool, ghost stillRegular: bool)
    requires rows.Length == n && i < n && Eliminating(rows[..], start, a, b, n, m, i, regular)
    modifies rows
    ensures ok ==> Eliminating(rows[..], start, a, b, n, m, i + 1, stillRegular)
    ensures ColumnStep(old(rows[..]), i, n + m, true) == if ok then Some(rows[..]) else None
  {
    hide SameKernel, Singular, Dot, PivotStep;
    ghost var width := n + m;
    ghost var before := rows[..];
    var maxRow := FindPivot(rows, i, width);
    if maxRow != i {
      rows[i], rows[maxRow] := rows[maxRow], rows[i];
      assert rows[..] == before[i := before[maxRow]][maxRow := before[i]];
      SwapKeepsKernel(before, i, maxRow, width);
      SameKernelTransitive(start, before, rows[..], width);
      if regular { SwapKeepsUnits(before, i, maxRow, width); }
    }
    assert rows[..] == Swapped(before, i, maxRow);
    if rows[i][i] == 0 {
      if regular {
        ghost var now := rows[..];
        assert forall k | i <= k < n :: now[k][i] == 0;
        ZeroPivotIsSingular(now, start, a, b, n, m, i);
      }
      return true, false;
    }
    stillRegular := regular;
    ok := ProcessPivot(rows, i, start, a, b, n, m, regular);
  }

  /** The rows of a matrix, each followed by its row of another. */
  function Beside(a: seq<Row>, b: seq<Row>): (rows: seq<Row>)
    requires |a| == |b|
    ensures |rows| == |a|
  {
    seq(|a|, i requires 0 <= i < |a| => a[i] + b[i])
  }

  lemma BesideWidth(a: seq<Row>, b: seq<Row>, n: nat, m: nat)
    requires |a| == |b| && Rectangular(a, n) && Rectangular(b, m)
    ensures Rectangular(Beside(a, b), n + m) && Augmented(Beside(a, b), a, b, n, m)
  {
  }

  /** What elimination makes of the two matrices side by side. */
  function Reduce(a: Matrix, b: Matrix, search: bool): (r: Option<seq<Row>>)
    requires a.Valid() && b.Valid() && a.rows == a.cols == b.rows
    ensures r.Some? ==> |r.value| == a.rows && Rectangular(r.value, a.rows + b.cols)
  {
    BesideWidth(a.data, b.data, a.rows, b.cols);
    Eliminate(Beside(a.data, b.data), a.rows, a.rows + b.cols, search)
  }

  /** The right-hand columns. */
  function RightOf(rows: seq<Row>, n: nat, m: nat): (x: seq<Row>)
    requires Rectangular(rows, n + m)
    ensures |x| == |rows| && Rectangular(x, m)
  {
    seq(|rows|, i requires 0 <= i < |rows| => rows[i][n..])
  }

  method ReadRight(rows: array<Row>, n: nat, ghost m: nat) returns (result: seq<Row>)
    requires Rectangular(rows[..], n + m)
    ensures result == RightOf(rows[..], n, m)
  {
    assert forall i | 0 <= i < rows.Length :: rows[..][i] == rows[i];
    result := [];
    var i := 0;
    while i < rows.Length
      invariant 0 <= i <= rows.Length && |result| == i
      invariant forall k | 0 <= k < i :: result[k] == rows[k][n..]
    {
      result := result + [rows[i][n..]];
      i := i + 1;
    }
  }

  /** solve: there is a result exactly for matching sizes and an elimination whose divisions are all
      exact. A nonsingular matrix gets the one solution of its system, column by column, over the
      real numbers. */
  method Solve(a: Matrix, b: Matrix) returns (r: Option<Matrix>)
    requires a.Valid() && b.Valid()
    ensures r.Some? <==> a.rows == a.cols == b.rows && Reduce(a, b, true).Some?
    ensures r.Some? ==> r.value == Matrix(a.rows, b.cols, RightOf(Reduce(a, b, true).value, a.rows, b.cols))
    ensures r.Some? && !Singular(a.data, a.rows) ==> OnlySolution(a.data, b.data, r.value.data, a.rows, b.cols)
    ensures r.Some? && OnlySolution(a.data, b.data, r.value.data, a.rows, b.cols) && b.cols > 0 ==>
        !Singular(a.data, a.rows)
  {
    hide SameKernel, Singular, Dot, Solves, OnlySolution, ColumnStep;
    if a.rows != a.cols || a.rows != b.rows { return None; }
    var n, m := a.rows, b.cols;
    var rows := new Row[n](i requires 0 <= i < n => a.data[i] + b.data[i]);
    ghost var start, regular := rows[..], true;
    assert start == Beside(a.data, b.data);
    BesideWidth(a.data, b.data, n, m);
    KernelReflexive(start, n + m);
    var i := 0;
    while i < n
      invariant i <= n && Eliminating(rows[..], start, a.data, b.data, n, m, i, regular)
      invariant Eliminate(start, i, n + m, true) == Some(rows[..])
    {
      var ok;
      ok, regular := ProcessColumn(rows, i, start, a.data, b.data, n, m, regular);
      if !ok {
        NoneStays(start, i + 1, n, n + m, true);
        return None;
      }
      i := i + 1;
    }
    var result := ReadRight(rows, n, m);
    r := Some(Matrix(n, m, result));
    if regular {
      ReducedIsRegular(rows[..], start, a.data, b.data, n, m);
      ReadOff(rows[..], a.data, b.data, result, n, m);
    }
    if m > 0 && Singular(a.data, n) { SingularIsAmbiguous(a.data, b.data, result, n, m); }
  }

  /** A failed elimination stays failed. */
  lemma {:induction false} NoneStays(rows: seq<Row>, i: nat, columns: nat, width: nat, search: bool)
    requires i <= columns <= |rows| && columns <= width && Rectangular(rows, width)
        && Eliminate(rows, i, width, search).None?
    ensures Eliminate(rows, columns, width, search).None?
  {
    if i < columns { NoneStays(rows, i, columns - 1, width, search); }
  }

  /** The columns of x, and nothing else, solve the system for the columns of b. */
  ghost predicate OnlySolution(a: seq<Row>, b: seq<Row>, x: seq<Row>, n: nat, m: nat) {
    && |a| == |b| == |x| == n && Rectangular(a, n) && Rectangular(b, m) && Rectangular(x, m)
    && forall c: nat, v: Vector | c < m && |v| == n :: Solves(a, b, c, v) <==>
        forall i | 0 <= i < n :: v[i] == x[i][c] as real
  }

  lemma ReadOff(rows: seq<Row>, a: seq<Row>, b: seq<Row>, x: seq<Row>, n: nat, m: nat)
    requires |rows| == |a| == |b| == |x| == n && Rectangular(a, n) && Rectangular(b, m) && Rectangular(x, m)
        && Rectangular(rows, n + m)
    requires forall i, c | 0 <= i < n && 0 <= c < m :: x[i][c] == rows[i][n + c]
    requires forall c: nat, v: Vector | c < m && |v| == n :: Solves(a, b, c, v) <==>
        forall i | 0 <= i < n :: v[i] == rows[i][n + c] as real
    ensures OnlySolution(a, b, x, n, m)
  {
    hide Solves;
  }

  function Sum(x: Vector, y: Vector): (z: Vector)
    requires |x| == |y|
    ensures |z| == |x|
  {
    seq(|x|, i requires 0 <= i < |x| => x[i] + y[i])
  }

  lemma {:induction false} DotSum(row: Row, x: Vector, y: Vector)
    requires |row| == |x| == |y|
    ensures Dot(row, Sum(x, y)) == Dot(row, x) + Dot(row, y)
  {
    if row != [] {
      var n := |row| - 1;
      assert Sum(x, y)[..n] == Sum(x[..n], y[..n]);
      DotSum(row[..n], x[..n], y[..n]);
    }
  }

  /** A singular system has no solution or more than one, whatever is returned for it. */
  lemma SingularIsAmbiguous(a: seq<Row>, b: seq<Row>, x: seq<Row>, n: nat, m: nat)
    requires Singular(a, n) && m > 0 && |a| == |b| == |x| == n && Rectangular(b, m) && Rectangular(x, m)
    ensures !OnlySolution(a, b, x, n, m)
  {
    hide Dot;
    var k: Vector :| |k| == n && Annihilates(a, k) && exists i :: 0 <= i < n && k[i] != 0.0;
    var v: Vector := seq(n, i requires 0 <= i < n => x[i][0] as real);
    var j :| 0 <= j < n && k[j] != 0.0;
    assert Sum(v, k)[j] != v[j] == x[j][0] as real;
    forall i | 0 <= i < n ensures Dot(a[i], Sum(v, k)) == Dot(a[i], v) { DotSum(a[i], v, k); }
    assert Solves(a, b, 0, v) <==> Solves(a, b, 0, Sum(v, k));
  }

  /* ---- inversion ---- */

  function IdentityRow(n: nat, i: nat): (row: Row)
    ensures |row| == n
  {
    seq(n, j => if j == i then 1 else 0)
  }

  function Identity(n: nat): (rows: seq<Row>)
    ensures |rows| == n && Rectangular(rows, n)
  {
    seq(n, i requires 0 <= i < n => IdentityRow(n, i))
  }

  /** One column without a search: a zero pivot fails an assertion. */
  method ProcessInPlace(rows: array<Row>, i: nat, ghost start: seq<Row>, ghost a: seq<Row>, ghost b: seq<Row>, n: nat,
      ghost m: nat)
    returns (ok: bool)
    requires rows.Length == n && i < n && Eliminating(rows[..], start, a, b, n, m, i, true)
    modifies rows
    ensures ok ==> Eliminating(rows[..], start, a, b, n, m, i + 1, true)
    ensures ColumnStep(old(rows[..]), i, n + m, false) == if ok then Some(rows[..]) else None
  {
    hide SameKernel, Singular, Dot, PivotStep;
    assert rows[..][i] == rows[i];
    if rows[i][i] == 0 { return false; }
    ok := ProcessPivot(rows, i, start, a, b, n, m, true);
  }

  lemma BesideRows(a: seq<Row>, n: nat, rows: seq<Row>)
    requires |a| == |rows| == n && forall i | 0 <= i < n :: rows[i] == a[i] + IdentityRow(n, i)
    ensures rows == Beside(a, Identity(n))
  {
  }

  function IdentityMatrix(n: nat): (m: Matrix)
    ensures m.Valid()
  {
    Matrix(n, n, Identity(n))
  }

  /** inverse: elimination without a search for pivots. The source asserts a square matrix, nonzero
      pivots and exact divisions; there is a result exactly when all hold, and it is the one right
      inverse. Both matrices undergo the same operations, so each row is kept together with its row of
      the identity. */
  method Inverse(a: Matrix) returns (r: Option<Matrix>)
    requires a.Valid()
    ensures r.Some? <==> a.rows == a.cols && Reduce(a, IdentityMatrix(a.rows), false).Some?
    ensures r.Some? ==>
        r.value == Matrix(a.rows, a.rows, RightOf(Reduce(a, IdentityMatrix(a.rows), false).value, a.rows, a.rows))
    ensures r.Some? ==>
        OnlySolution(a.data, Identity(a.rows), r.value.data, a.rows, a.rows) && !Singular(a.data, a.rows)
  {
    hide SameKernel, Singular, Dot, Solves, OnlySolution, ColumnStep, Annihilates, Augmented, UnitColumn, Beside,
        IdentityRow;
    if a.rows != a.cols { return None; }
    var n := a.rows;
    var rows := new Row[n](i requires 0 <= i < n => a.data[i] + IdentityRow(n, i));
    ghost var start := rows[..];
    assert start == Beside(a.data, Identity(n)) by { BesideRows(a.data, n, start); }
    BesideWidth(a.data, Identity(n), n, n);
    KernelReflexive(start, n + n);
    var i := 0;
    while i < n
      invariant i <= n && Eliminating(rows[..], start, a.data, Identity(n), n, n, i, true)
      invariant Eliminate(start, i, n + n, false) == Some(rows[..])
    {
      var ok := ProcessInPlace(rows, i, start, a.data, Identity(n), n, n);
      if !ok {
        NoneStays(start, i + 1, n, n + n, false);
        return None;
      }
      i := i + 1;
    }
    var result := ReadRight(rows, n, n);
    r := Some(Matrix(n, n, result));
    ReducedIsRegular(rows[..], start, a.data, Identity(n), n, n);
    ReadOff(rows[..], a.data, Identity(n), result, n, n);
  }

  /* ---- where exact division fails ---- */

  /** A nonsingular system with an integer solution gets no result: its first pivot does not divide. */
  lemma SolvableButInexact()
    ensures
      var a, b := Matrix(2, 2, [[2, 1], [1, 1]]), Matrix(2, 1, [[1], [1]]);
      a.Valid() && b.Valid() && Reduce(a, b, true).None? && Solves(a.data, b.data, 0, [0.0, 1.0])
  {
    var a, b := Matrix(2, 2, [[2, 1], [1, 1]]), Matrix(2, 1, [[1], [1]]);
    var rows := [[2, 1, 1], [1, 1, 1]];
    assert Beside(a.data, b.data) == rows by {
      assert a.data[0] + b.data[0] == rows[0] && a.data[1] + b.data[1] == rows[1];
    }
    FirstPivotInexact(rows);
    NoneStays(rows, 1, 2, 3, true);
    DotPair(2, 1);
    DotPair(1, 1);
  }

  lemma FirstPivotInexact(rows: seq<Row>)
    requires rows == [[2, 1, 1], [1, 1, 1]]
    ensures Eliminate(rows, 1, 3, true).None?
  {
    assert PivotRow(rows, 0, 2, 3) == 0 by { assert PivotRow(rows, 0, 1, 3) == 0; }
    assert FailsAt(rows, 0, 3, true) by { assert rows[0][1] % rows[0][0] != 0; }
    StepFails(rows, 0, 3, true);
    assert Eliminate(rows, 0, 3, true) == Some(rows);
  }

  lemma DotPair(p: int, q: int)
    ensures Dot([p, q], [0.0, 1.0]) == q as real
  {
    assert [p, q][..1] == [p] && [0.0, 1.0][..1] == [0.0] && [p][..0] == [] && [0.0][..0] == [];
    assert Dot([p], [0.0]) == Dot([], []) + (p as real) * 0.0;
  }

  /** A system without a solution gets a result all the same: its zero pivot is passed over. */
  lemma SingularStillAnswered()
    ensures
      var a, b := Matrix(1, 1, [[0]]), Matrix(1, 1, [[1]]);
      && a.Valid() && b.Valid() && Singular(a.data, 1)
      && Reduce(a, b, true).Some? && RightOf(Reduce(a, b, true).value, 1, 1) == [[1]]
      && forall x: Vector | |x| == 1 :: !Solves(a.data, b.data, 0, x)
  {
    var a, b := Matrix(1, 1, [[0]]), Matrix(1, 1, [[1]]);
    var rows := [[0, 1]];
    assert Beside(a.data, b.data) == rows by { assert a.data[0] + b.data[0] == rows[0]; }
    assert PivotRow(rows, 0, 1, 2) == 0;
    assert Aligned(rows, 0, 2, true) == rows;
    assert Eliminate(rows, 0, 2, true) == Some(rows) && Eliminate(rows, 1, 2, true) == Some(rows);
    assert rows[0][1..] == [1];
    forall x: Vector | |x| == 1 ensures Dot(a.data[0], x) == 0.0 { DotOne(0, x); }
    DotOne(0, [1.0]);
    assert Annihilates(a.data, [1.0]) && [1.0][0] != 0.0;
  }

  lemma DotOne(p: int, x: Vector)
    requires |x| == 1
    ensures Dot([p], x) == (p as real) * x[0]
  {
    assert [p][..0] == [] && x[..0] == [];
  }

  /** A matrix that is its own inverse gets none: its first pivot is zero. */
  lemma InvertibleButZeroPivot()
    ensures
      var a := Matrix(2, 2, [[0, 1], [1, 0]]);
      a.Valid() && Reduce(a, IdentityMatrix(2), false).None? && !Singular(a.data, 2)
  {
    var a := Matrix(2, 2, [[0, 1], [1, 0]]);
    var rows := Beside(a.data, Identity(2));
    assert Eliminate(rows, 0, 4, false) == Some(rows);
    NoneStays(rows, 1, 2, 4, false);
    forall x: Vector | |x| == 2 && Annihilates(a.data, x) ensures forall i | 0 <= i < 2 :: x[i] == 0.0 {
      DotUnitRow(a.data[0], 1, x);
      DotUnitRow(a.data[1], 0, x);
      assert Dot(a.data[0], x) == 0.0 && Dot(a.data[1], x) == 0.0;
    }
  }
}
