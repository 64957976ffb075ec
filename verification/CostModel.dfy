/** Costs of operations, and of sending a value from one core of the grid to another. */
module CostModel {
  import opened Common

  /** The operations the cost models and the partitioners tell apart; `Memory` is a load, a store or an alloca. */
  datatype Opcode = Ret | Br | Phi | BitCast | Trunc | ZExt | FMul | FSub | FDiv | Call | Memory | Other

  function CostForInstruction(op: Opcode): nat {
    match op
    case Ret => 0
    case Br => 0
    case Phi => 0
    case BitCast => 0
    case Trunc => 0
    case ZExt => 0
    case FMul => 2
    case FSub => 2
    case FDiv => 30
    case Call => 30
    case Memory => 1
    case Other => 1
  }

  function Abs(x: int): nat {
    if x < 0 then -x else x
  }

  // ---------- Grid coordinates ----------

  /** Row and column of a core when rows are `columns` wide. */
  function Components(partition: nat, columns: nat): (int, int)
    requires columns > 0
  {
    var q := partition % columns;
    ((partition - q) / columns, q)
  }

  /** The OCaml partitioner lays the cores out the other way: `rows` cores to a column. */
  function ColumnComponents(partition: nat, rows: nat): (int, int)
    requires rows > 0
  {
    (partition % rows, partition / rows)
  }

  lemma UniqueQuotient(q: nat, r: nat, q': nat, r': nat, w: nat)
    requires q * w + r == q' * w + r' && r < w && r' < w
    ensures q == q' && r == r'
  {
    if q < q' {
      ProductGap(q, q', w);
    } else if q' < q {
      ProductGap(q', q, w);
    }
  }

  lemma DivisionOf(major: nat, minor: nat, width: nat)
    requires minor < width
    ensures (major * width + minor) / width == major && (major * width + minor) % width == minor
  {
    var n := major * width + minor;
    var q, r := n / width, n % width;
    assert n == q * width + r;
    UniqueQuotient(q, r, major, minor, width);
  }

  lemma QuotientBelow(p: nat, count: nat, width: nat)
    requires width > 0 && p < count * width
    ensures p / width < count && (p - p % width) / width == p / width && p == p / width * width + p % width
  {
    var q, r := p / width, p % width;
    assert p == q * width + r;
    if count < q {
      ProductGap(count, q, width);
    }
    DivisionOf(q, 0, width);
  }

  lemma CellBelow(major: nat, minor: nat, count: nat, width: nat)
    requires major < count && minor < width
    ensures major * width + minor < count * width
  {
    ProductGap(major, count, width);
  }

  /** Core numbers and coordinates correspond one to one on every grid. */
  lemma GridBijection(rows: nat, columns: nat, p: nat, r: nat, q: nat)
    requires p < rows * columns && r < rows && q < columns
    ensures var (r', q') := Components(p, columns); 0 <= r' < rows && 0 <= q' < columns && p == r' * columns + q'
    ensures r * columns + q < rows * columns && Components(r * columns + q, columns) == (r, q)
  {
    QuotientBelow(p, rows, columns);
    CellBelow(r, q, rows, columns);
    DivisionOf(r, q, columns);
    DivisionOf(r, 0, columns);
  }

  lemma ColumnBijection(rows: nat, columns: nat, p: nat, x: nat, y: nat)
    requires p < rows * columns && x < rows && y < columns
    ensures var (x', y') := ColumnComponents(p, rows); 0 <= x' < rows && 0 <= y' < columns && p == y' * rows + x'
    ensures y * rows + x < rows * columns && ColumnComponents(y * rows + x, rows) == (x, y)
  {
    assert rows * columns == columns * rows;
    QuotientBelow(p, columns, rows);
    CellBelow(y, x, columns, rows);
    DivisionOf(y, x, rows);
  }

  // ---------- Communication costs ----------

  /** Number of hops between two cores. */
  function CostForCommunication(partition1: nat, partition2: nat, columns: nat): nat
    requires columns > 0
  {
    var (x1, y1) := Components(partition1, columns);
    var (x2, y2) := Components(partition2, columns);
    Abs(x1 - x2) + Abs(y1 - y2)
  }

  /** The cost is a metric on the cores, and no two cores are further apart than opposite corners. */
  lemma CommunicationIsMetric(rows: nat, columns: nat, a: nat, b: nat, c: nat)
    requires columns > 0 && a < rows * columns && b < rows * columns && c < rows * columns
    ensures CostForCommunication(a, b, columns) == 0 <==> a == b
    ensures CostForCommunication(a, b, columns) == CostForCommunication(b, a, columns)
    ensures CostForCommunication(a, c, columns) <=
      CostForCommunication(a, b, columns) + CostForCommunication(b, c, columns)
    ensures CostForCommunication(a, b, columns) <= rows + columns - 2
  {
    GridBijection(rows, columns, a, 0, 0);
    GridBijection(rows, columns, b, 0, 0);
    hide Components;
  }

  // ---------- Costs are distances on the grid ----------

  datatype Cell = Cell(row: int, column: int)

  predicate Neighbours(a: Cell, b: Cell) {
    || (a.row == b.row && (b.column == a.column + 1 || a.column == b.column + 1))
    || (a.column == b.column && (b.row == a.row + 1 || a.row == b.row + 1))
  }

  /** A walk over neighbouring cells. */
  predicate IsPath(path: seq<Cell>, from: Cell, to: Cell) {
    && path != [] && path[0] == from && path[|path| - 1] == to
    && forall i :: 0 < i < |path| ==> Neighbours(path[i - 1], path[i])
  }

  predicate InGrid(c: Cell, rows: nat, columns: nat) {
    0 <= c.row < rows && 0 <= c.column < columns
  }

  predicate StaysInGrid(path: seq<Cell>, rows: nat, columns: nat) {
    forall i :: 0 <= i < |path| ==> InGrid(path[i], rows, columns)
  }

  /** No walk between the cells takes fewer than `steps` steps, and one inside the grid takes no more. */
  ghost predicate StepsApart(from: Cell, to: Cell, steps: nat, rows: nat, columns: nat) {
    && (forall path :: IsPath(path, from, to) ==> |path| - 1 >= steps)
    && (exists path :: IsPath(path, from, to) && StaysInGrid(path, rows, columns) && |path| - 1 == steps)
  }

  /** Core `p` is in cell `c` if cores are numbered row by row. */
  predicate InRowOrder(p: int, c: Cell, columns: nat) {
    0 <= c.column < columns && p == c.row * columns + c.column
  }

  /** Core `p` is in cell `c` if cores are numbered column by column. */
  predicate InColumnOrder(p: int, c: Cell, rows: nat) {
    0 <= c.row < rows && p == c.column * rows + c.row
  }

  lemma {:induction false} NoShorterPath(path: seq<Cell>, from: Cell, to: Cell)
    requires IsPath(path, from, to)
    ensures |path| - 1 >= Abs(from.row - to.row) + Abs(from.column - to.column)
    decreases |path|
  {
    if |path| > 1 {
      assert Neighbours(path[0], path[1]);
      NoShorterPath(path[1..], path[1], to);
    }
  }

  /** Along the column to the right row, then along the row. */
  lemma {:induction false} StraightPath(from: Cell, to: Cell, rows: nat, columns: nat) returns (path: seq<Cell>)
    requires InGrid(from, rows, columns) && InGrid(to, rows, columns)
    ensures IsPath(path, from, to) && StaysInGrid(path, rows, columns)
    ensures |path| - 1 == Abs(from.row - to.row) + Abs(from.column - to.column)
    decreases Abs(from.row - to.row) + Abs(from.column - to.column)
  {
    if from == to {
      path := [from];
    } else {
      var next :=
        if from.row < to.row then from.(row := from.row + 1)
        else if from.row > to.row then from.(row := from.row - 1)
        else if from.column < to.column then from.(column := from.column + 1)
        else from.(column := from.column - 1);
      var rest := StraightPath(next, to, rows, columns);
      path := [from] + rest;
      forall i | 0 < i < |path| ensures Neighbours(path[i - 1], path[i]) {
        assert i > 1 ==> Neighbours(rest[i - 2], rest[i - 1]);
      }
    }
  }

  lemma GridDistance(from: Cell, to: Cell, rows: nat, columns: nat)
    requires InGrid(from, rows, columns) && InGrid(to, rows, columns)
    ensures StepsApart(from, to, Abs(from.row - to.row) + Abs(from.column - to.column), rows, columns)
  {
    hide IsPath, StaysInGrid;
    forall path | IsPath(path, from, to)
      ensures |path| - 1 >= Abs(from.row - to.row) + Abs(from.column - to.column)
    {
      NoShorterPath(path, from, to);
    }
    var path := StraightPath(from, to, rows, columns);
  }

  /** The communication cost is the length of a shortest walk between the cores. */
  lemma CostIsDistance(rows: nat, columns: nat, a: nat, b: nat, from: Cell, to: Cell)
    requires InGrid(from, rows, columns) && InGrid(to, rows, columns)
    requires InRowOrder(a, from, columns) && InRowOrder(b, to, columns)
    ensures StepsApart(from, to, CostForCommunication(a, b, columns), rows, columns)
  {
    CellBelow(from.row, from.column, rows, columns);
    CellBelow(to.row, to.column, rows, columns);
    GridBijection(rows, columns, a, from.row, from.column);
    GridBijection(rows, columns, b, to.row, to.column);
    GridDistance(from, to, rows, columns);
    hide StepsApart, Components;
  }

  /** The bound is reached between the first core and the last. */
  lemma FurthestCores(rows: nat, columns: nat)
    requires rows > 0 && columns > 0
    ensures rows * columns > 0 && CostForCommunication(0, rows * columns - 1, columns) == rows + columns - 2
  {
    CellBelow(0, 0, rows, columns);
    assert rows * columns - 1 == (rows - 1) * columns + (columns - 1);
    GridBijection(rows, columns, 0, rows - 1, columns - 1);
    GridBijection(rows, columns, 0, 0, 0);
    assert 0 * columns + 0 == 0;
    hide Components;
  }

  /** The OCaml partitioner's cost: one, and one more for every five hops. */
  function ManhattanDist(p1: nat, p2: nat, rows: nat): nat
    requires rows > 0
  {
    var (x, y) := ColumnComponents(p1, rows);
    var (x', y') := ColumnComponents(p2, rows);
    1 + (Abs(x - x') + Abs(y - y')) / 5
  }

  /** It is one more than a fifth, rounded down, of a shortest walk, with the cores numbered column by column. */
  lemma ManhattanIsDistance(rows: nat, columns: nat, a: nat, b: nat, from: Cell, to: Cell) returns (steps: nat)
    requires InGrid(from, rows, columns) && InGrid(to, rows, columns)
    requires InColumnOrder(a, from, rows) && InColumnOrder(b, to, rows)
    ensures StepsApart(from, to, steps, rows, columns) && ManhattanDist(a, b, rows) == 1 + steps / 5
  {
    CellBelow(from.column, from.row, columns, rows);
    CellBelow(to.column, to.row, columns, rows);
    assert rows * columns == columns * rows;
    ColumnBijection(rows, columns, a, from.row, from.column);
    ColumnBijection(rows, columns, b, to.row, to.column);
    steps := Abs(from.row - to.row) + Abs(from.column - to.column);
    GridDistance(from, to, rows, columns);
    hide StepsApart, ColumnComponents;
  }

  /** Relaying a value through a third core is never cheaper than sending it directly, though even staying costs one. */
  lemma RelayNeverCheaper(rows: nat, a: nat, b: nat, c: nat)
    requires rows > 0
    ensures ManhattanDist(a, c, rows) <= ManhattanDist(a, b, rows) + ManhattanDist(b, c, rows)
    ensures ManhattanDist(a, b, rows) == ManhattanDist(b, a, rows)
    ensures ManhattanDist(a, a, rows) == 1
  {
    var (xa, ya) := ColumnComponents(a, rows);
    var (xb, yb) := ColumnComponents(b, rows);
    var (xc, yc) := ColumnComponents(c, rows);
    RoundedTriangle(Abs(xa - xb) + Abs(ya - yb), Abs(xb - xc) + Abs(yb - yc), Abs(xa - xc) + Abs(ya - yc));
  }

  lemma RoundedTriangle(m: nat, n: nat, k: nat)
    requires k <= m + n
    ensures 1 + k / 5 <= 1 + m / 5 + 1 + n / 5
  {
  }
}
