/// The row moves of `rows_gather` and `rows_scatter`: what an index tensor
/// addresses in a table, and what each move computes from it.
///
/// A table has shape [B, N, S, R]: batches, rows, pages of a row, elements of a
/// page. An index tensor has shape [Bi, K, M]: M positions, given by K components
/// each. The components but the column are coordinates in the N rows, seen as a
/// row-major grid, and a position names the W rows of a box of the grid that
/// starts there. With `column`, a row is one page and the last component is where
/// in that page a run of elements starts.
module IndexedRows {
  import opened RowMajor

  datatype Geometry = Geometry(
    B: nat, N: nat, S: nat, R: nat,
    Bi: nat, M: nat,
    sizes: seq<nat>, windows: seq<nat>, column: bool)
  {
    /// What the host checks before it builds either program.
    predicate Valid() {
      && 1 <= |sizes| == |windows|
      && (forall k :: 0 <= k < |sizes| ==> 1 <= windows[k] <= sizes[k])
      && Product(RowSizes()) == N
      && (column ==> S == 1 && sizes[|sizes| - 1] == R)
      && (Bi == B || Bi == 1)
    }

    function K(): nat { |sizes| }

    function KR(): nat
      requires 1 <= |sizes|
    {
      if column then |sizes| - 1 else |sizes|
    }

    function RowSizes(): seq<nat>
      requires 1 <= |sizes|
    {
      sizes[..KR()]
    }

    function RowWindows(): seq<nat>
      requires 1 <= |sizes| == |windows|
    {
      windows[..KR()]
    }

    /// Rows per position.
    function W(): nat
      requires 1 <= |sizes| == |windows|
    {
      Product(RowWindows())
    }

    /// Elements moved per row.
    function Width(): nat
      requires 1 <= |sizes| == |windows|
    {
      if column then windows[|windows| - 1] else S * R
    }

    function TableElements(): nat { B * N * (S * R) }

    function TablePages(): nat { B * (N * S) }

    function IndexElements(): nat { Bi * K() * M }

    function MovedElements(): nat
      requires 1 <= |sizes| == |windows|
    {
      B * M * W() * Width()
    }

    /// The place of component k of position m of batch b in the index tensor;
    /// an index tensor with one batch serves every table batch.
    function IndexPlace(b: nat, m: nat, k: nat): (n: nat)
      requires Valid() && b < B && m < M && k < K()
      ensures n < IndexElements()
    {
      var bi := if Bi == 1 then 0 else b;
      NestBound(bi, Bi, k, K());
      NestBound(bi * K() + k, Bi * K(), m, M);
      (bi * K() + k) * M + m
    }

    /// Where in the moved elements window row j of position (b, m) begins.
    function SourcePlace(b: nat, m: nat, j: nat): (n: nat)
      requires Valid() && b < B && m < M && j < W()
      ensures n + Width() <= MovedElements()
    {
      PlaceBound(b, B, m, M, j, W(), Width());
      ((b * M + m) * W() + j) * Width()
    }

    /// Source elements of n consecutive positions of a batch, and how many of
    /// them come before window row j of the i-th position.
    function RunElements(n: nat): nat
      requires 1 <= |sizes| == |windows|
    {
      n * (W() * Width())
    }

    function WindowStart(i: nat, j: nat): nat
      requires 1 <= |sizes| == |windows|
    {
      (i * W() + j) * Width()
    }

    /// Where in the moved elements positions [m0, m0 + n) of batch b begin.
    function RunPlace(b: nat, m0: nat, n: nat): (from: nat)
      requires Valid() && b < B && m0 + n <= M
      ensures from + RunElements(n) <= MovedElements()
    {
      RunBound(b, B, m0, n, M, W(), Width());
      ((b * M + m0) * W()) * Width()
    }

    /// The place of element e of window row j of position (b, m) among the moved elements.
    function MovedPlace(b: nat, m: nat, j: nat, e: nat): (n: nat)
      requires Valid() && b < B && m < M && j < W() && e < Width()
      ensures n < MovedElements()
    {
      SourcePlace(b, m, j) + e
    }
  }

  lemma NestBound(i: nat, a: nat, j: nat, b: nat)
    requires i < a && j < b
    ensures i * b + j < a * b
  {
    MulStrict(i, a, b);
  }

  /// Element `start` of row `row` of batch b, in a table of B * N rows of `elements`.
  function SliceIn(b: nat, B: nat, row: nat, N: nat, elements: nat, start: nat, width: nat): (n: nat)
    requires b < B && row < N && start + width <= elements
    ensures n + width <= B * N * elements
  {
    NestBound(b, B, row, N);
    MulStrict(b * N + row, B * N, elements);
    (b * N + row) * elements + start
  }

  lemma RunBound(b: nat, B: nat, m0: nat, n: nat, M: nat, W: nat, width: nat)
    requires b < B && m0 + n <= M
    ensures ((b * M + m0) * W) * width + n * (W * width) <= B * M * W * width
  {
    var items := b * M + m0;
    MulStrict(b, B, M);
    MulMonotone(items + n, B * M, W);
    MulDistribute(items, n, W);
    MulMonotone((items + n) * W, B * M * W, width);
    MulDistribute(items * W, n * W, width);
    MulAssoc(n, W, width);
  }

  lemma PlaceBound(b: nat, B: nat, m: nat, M: nat, j: nat, W: nat, width: nat)
    requires b < B && m < M && j < W
    ensures ((b * M + m) * W + j) * width + width <= B * M * W * width
  {
    NestBound(b, B, m, M);
    NestBound(b * M + m, B * M, j, W);
    MulStrict((b * M + m) * W + j, B * M * W, width);
  }

  function Clamp(value: int, hi: nat): (c: nat)
    ensures c <= hi
    ensures c == value <==> 0 <= value <= hi
  {
    if value < 0 then 0 else if value > hi then hi else value
  }

  function Distance(a: int, b: int): nat { if a < b then b - a else a - b }

  /// No value of [0, hi] is nearer.
  ghost predicate Nearest(value: int, hi: int, c: int) {
    0 <= c <= hi && forall x :: 0 <= x <= hi ==> Distance(value, c) <= Distance(value, x)
  }

  /// Clamping takes the nearest value in range: an end for one beyond it.
  lemma ClampIsNearest(value: int, hi: nat)
    ensures Nearest(value, hi, Clamp(value, hi))
    ensures forall c :: Nearest(value, hi, c) ==> c == Clamp(value, hi)
  {
    forall c | Nearest(value, hi, c) ensures c == Clamp(value, hi) {
      assert Distance(value, c) <= Distance(value, Clamp(value, hi));
    }
  }

  lemma ClampMonotone(a: int, b: int, hi: nat)
    requires a <= b
    ensures Clamp(a, hi) <= Clamp(b, hi)
  {
    ClampIsNearest(a, hi);
    ClampIsNearest(b, hi);
  }

  /// The index tensor's value for a component, as an integer.
  function IndexAt(g: Geometry, values: seq<int>, b: nat, m: nat, k: nat): int
    requires g.Valid() && |values| == g.IndexElements()
    requires b < g.B && m < g.M && k < g.K()
  {
    values[g.IndexPlace(b, m, k)]
  }

  /// The start coordinates of a position, clamped so that every window fits.
  function Coords(g: Geometry, values: seq<int>, b: nat, m: nat): (c: seq<nat>)
    requires g.Valid() && |values| == g.IndexElements()
    requires b < g.B && m < g.M
    ensures |c| == g.K()
    ensures forall k :: 0 <= k < g.K() ==> c[k] + g.windows[k] <= g.sizes[k]
  {
    seq(g.K(), k requires 0 <= k < g.K() => Clamp(IndexAt(g, values, b, m, k), g.sizes[k] - g.windows[k]))
  }

  /// Every start coordinate is the one in range nearest to its index value.
  lemma CoordsNearest(g: Geometry, values: seq<int>, b: nat, m: nat, k: nat)
    requires g.Valid() && |values| == g.IndexElements()
    requires b < g.B && m < g.M && k < g.K()
    ensures Nearest(IndexAt(g, values, b, m, k), g.sizes[k] - g.windows[k], Coords(g, values, b, m)[k])
  {
    ClampIsNearest(IndexAt(g, values, b, m, k), g.sizes[k] - g.windows[k]);
  }

  /// Whether the first `components` components need no clamping.
  predicate ComponentsFit(g: Geometry, values: seq<int>, b: nat, m: nat, components: nat)
    requires g.Valid() && |values| == g.IndexElements()
    requires b < g.B && m < g.M && components <= g.K()
  {
    forall k :: 0 <= k < components ==> 0 <= IndexAt(g, values, b, m, k) <= g.sizes[k] - g.windows[k]
  }

  /// Whether a position needs no clamping. A position is kept or dropped as a whole.
  predicate InBounds(g: Geometry, values: seq<int>, b: nat, m: nat)
    requires g.Valid() && |values| == g.IndexElements()
    requires b < g.B && m < g.M
  {
    ComponentsFit(g, values, b, m, g.K())
  }

  function Plus(a: seq<nat>, b: seq<nat>): (c: seq<nat>)
    requires |a| == |b|
    ensures |c| == |a| && forall i :: 0 <= i < |a| ==> c[i] == a[i] + b[i]
  {
    seq(|a|, i requires 0 <= i < |a| => a[i] + b[i])
  }

  ghost predicate Fits(g: Geometry, coords: seq<nat>) {
    && |coords| == g.K() == |g.windows|
    && forall k :: 0 <= k < g.K() ==> coords[k] + g.windows[k] <= g.sizes[k]
  }

  ghost predicate FitsRows(g: Geometry, coords: seq<nat>)
    requires g.Valid()
  {
    && |coords| >= g.KR()
    && forall k :: 0 <= k < g.KR() ==> coords[k] + g.windows[k] <= g.sizes[k]
  }

  /// The multi-index, over the row components, of window row j.
  function RowIndex(g: Geometry, coords: seq<nat>, j: nat): (r: seq<nat>)
    requires g.Valid() && FitsRows(g, coords) && j < g.W()
    ensures InShape(g.RowSizes(), r)
  {
    UnflattenInShape(g.RowWindows(), j);
    Plus(coords[..g.KR()], Unflatten(g.RowWindows(), j))
  }

  /// Window row j of the i-th of n positions, within their run of source elements.
  lemma WindowInRun(g: Geometry, b: nat, m0: nat, n: nat, i: nat, j: nat)
    requires g.Valid() && b < g.B && i < n && m0 + n <= g.M && j < g.W()
    ensures g.SourcePlace(b, m0 + i, j) == g.RunPlace(b, m0, n) + g.WindowStart(i, j)
    ensures g.WindowStart(i, j) + g.Width() <= g.RunElements(n)
  {
    WindowOffset(b, g.M, m0, n, i, g.W(), j, g.Width());
  }

  lemma WindowOffset(b: nat, M: nat, m0: nat, n: nat, i: nat, W: nat, j: nat, width: nat)
    requires i < n && j < W
    ensures ((b * M + (m0 + i)) * W + j) * width == ((b * M + m0) * W) * width + (i * W + j) * width
    ensures (i * W + j) * width + width <= n * (W * width)
  {
    var items := b * M + m0;
    MulDistribute(items, i, W);
    MulDistribute(items * W, i * W + j, width);
    NestBound(i, n, j, W);
    MulStrict(i * W + j, n * W, width);
    MulAssoc(n, W, width);
  }

  /// The table row, within its batch, of window row j.
  function Row(g: Geometry, coords: seq<nat>, j: nat): (r: nat)
    requires g.Valid() && FitsRows(g, coords) && j < g.W()
    ensures r < g.N
  {
    FlattenBound(g.RowSizes(), RowIndex(g, coords, j));
    Flatten(g.RowSizes(), RowIndex(g, coords, j))
  }

  /// The first element moved of a row.
  function Start(g: Geometry, coords: seq<nat>): (s: nat)
    requires g.Valid() && Fits(g, coords)
    ensures s + g.Width() <= g.S * g.R
  {
    if g.column then coords[g.K() - 1] else 0
  }

  /// Where in the table the slice named by window row j of position (b, m) begins.
  function SlicePlace(g: Geometry, coords: seq<nat>, b: nat, j: nat): (n: nat)
    requires g.Valid() && Fits(g, coords) && b < g.B && j < g.W()
    ensures n + g.Width() <= g.TableElements()
  {
    SliceIn(b, g.B, Row(g, coords, j), g.N, g.S * g.R, Start(g, coords), g.Width())
  }

  /// The rows of one position are distinct: window offsets never collide.
  lemma RowsDistinct(g: Geometry, coords: seq<nat>, i: nat, j: nat)
    requires g.Valid() && FitsRows(g, coords) && i < g.W() && j < g.W()
    requires Row(g, coords, i) == Row(g, coords, j)
    ensures i == j
  {
    FlattenInjective(g.RowSizes(), RowIndex(g, coords, i), RowIndex(g, coords, j));
    var a, b := Unflatten(g.RowWindows(), i), Unflatten(g.RowWindows(), j);
    UnflattenInShape(g.RowWindows(), i);
    UnflattenInShape(g.RowWindows(), j);
    forall k | 0 <= k < g.KR() ensures a[k] == b[k] {
      assert RowIndex(g, coords, i)[k] == coords[k] + a[k];
      assert RowIndex(g, coords, j)[k] == coords[k] + b[k];
    }
    assert a == b;
    FlattenUnflatten(g.RowWindows(), i);
    FlattenUnflatten(g.RowWindows(), j);
  }

  // ---- rows_gather ----

  function Gathered<T>(g: Geometry, table: seq<T>, values: seq<int>, fill: bool, zero: T,
                       b: nat, m: nat, j: nat, e: nat): T
    requires g.Valid() && |values| == g.IndexElements() && |table| == g.TableElements()
    requires b < g.B && m < g.M && j < g.W() && e < g.Width()
  {
    if fill && !InBounds(g, values, b, m) then zero
    else table[SlicePlace(g, Coords(g, values, b, m), b, j) + e]
  }

  /// The moved elements (b, m, j, e) of a flat place.
  function Placed(g: Geometry, n: nat): (p: (nat, nat, nat, nat))
    requires g.Valid() && n < g.MovedElements()
    ensures p.0 < g.B && p.1 < g.M && p.2 < g.W() && p.3 < g.Width()
    ensures g.MovedPlace(p.0, p.1, p.2, p.3) == n
  {
    var w := g.Width();
    PositiveFactors(g.B * g.M * g.W(), w, n);
    DivMod(n, w);
    var row := n / w;
    PositiveFactors(g.B * g.M, g.W(), row);
    DivMod(row, g.W());
    var item := row / g.W();
    PositiveFactors(g.B, g.M, item);
    DivMod(item, g.M);
    (item / g.M, item % g.M, row % g.W(), n % w)
  }

  /// What `rows_gather` returns, in row-major order.
  function RowsGather<T>(g: Geometry, table: seq<T>, values: seq<int>, fill: bool, zero: T): (out: seq<T>)
    requires g.Valid() && |values| == g.IndexElements() && |table| == g.TableElements()
    ensures |out| == g.MovedElements()
  {
    seq(g.MovedElements(), n requires 0 <= n < g.MovedElements() =>
      var p := Placed(g, n);
      Gathered(g, table, values, fill, zero, p.0, p.1, p.2, p.3))
  }

  lemma PlacedUnique(g: Geometry, b: nat, m: nat, j: nat, e: nat)
    requires g.Valid() && b < g.B && m < g.M && j < g.W() && e < g.Width()
    ensures Placed(g, g.MovedPlace(b, m, j, e)) == (b, m, j, e)
  {
    var n := g.MovedPlace(b, m, j, e);
    var item := b * g.M + m;
    DivModUnique(n, g.Width(), item * g.W() + j, e);
    DivModUnique(item * g.W() + j, g.W(), item, j);
    DivModUnique(item, g.M, b, m);
  }

  /// Element by element: position (b, m), window row j, element e.
  lemma RowsGatherAt<T>(g: Geometry, table: seq<T>, values: seq<int>, fill: bool, zero: T,
                        b: nat, m: nat, j: nat, e: nat)
    requires g.Valid() && |values| == g.IndexElements() && |table| == g.TableElements()
    requires b < g.B && m < g.M && j < g.W() && e < g.Width()
    ensures RowsGather(g, table, values, fill, zero)[g.MovedPlace(b, m, j, e)]
         == Gathered(g, table, values, fill, zero, b, m, j, e)
  {
    PlacedUnique(g, b, m, j, e);
  }

  // ---- rows_scatter ----

  datatype Reduce<!T> = Overwrite | Combine(f: (T, T) -> T)
  {
    function Apply(current: T, update: T): T {
      match this
      case Overwrite => update
      case Combine(f) => f(current, update)
    }
  }

  /// `out` with `width` elements of `source`, from `from` on, applied at `at`.
  function ApplySlice<T>(out: seq<T>, at: nat, source: seq<T>, from: nat, width: nat, reduce: Reduce<T>): (r: seq<T>)
    requires at + width <= |out| && from + width <= |source|
    ensures |r| == |out|
  {
    seq(|out|, i requires 0 <= i < |out| =>
      if at <= i < at + width then reduce.Apply(out[i], source[from + (i - at)]) else out[i])
  }

  /// The table after every update before (b, m, j), in increasing b, then m,
  /// then j: the simple loop. Positions out of bounds change nothing.
  function Scattered<T>(g: Geometry, table: seq<T>, values: seq<int>, source: seq<T>, reduce: Reduce<T>,
                        b: nat, m: nat, j: nat): (out: seq<T>)
    requires g.Valid() && |values| == g.IndexElements() && |table| == g.TableElements()
    requires |source| == g.MovedElements()
    requires b <= g.B && m <= g.M && j <= g.W()
    requires b == g.B ==> m == 0 && j == 0
    requires m == g.M ==> j == 0
    ensures |out| == g.TableElements()
    decreases b, m, j
  {
    if j > 0 then
      var out := Scattered(g, table, values, source, reduce, b, m, j - 1);
      if !InBounds(g, values, b, m) then out
      else WindowRow(g, out, values, source, reduce, b, m, j - 1)
    else if m > 0 then Scattered(g, table, values, source, reduce, b, m - 1, g.W())
    else if b > 0 then Scattered(g, table, values, source, reduce, b - 1, g.M, 0)
    else table
  }

  /// One window row applied.
  function WindowRow<T>(g: Geometry, out: seq<T>, values: seq<int>, source: seq<T>, reduce: Reduce<T>,
                        b: nat, m: nat, j: nat): (r: seq<T>)
    requires g.Valid() && |values| == g.IndexElements() && |out| == g.TableElements()
    requires |source| == g.MovedElements()
    requires b < g.B && m < g.M && j < g.W()
    ensures |r| == |out|
  {
    ApplySlice(out, SlicePlace(g, Coords(g, values, b, m), b, j), source, g.SourcePlace(b, m, j), g.Width(), reduce)
  }

  /// What `rows_scatter` returns.
  function RowsScatter<T>(g: Geometry, table: seq<T>, values: seq<int>, source: seq<T>,
                          reduce: Reduce<T>): (out: seq<T>)
    requires g.Valid() && |values| == g.IndexElements() && |table| == g.TableElements()
    requires |source| == g.MovedElements()
    ensures |out| == g.TableElements()
  {
    Scattered(g, table, values, source, reduce, g.B, 0, 0)
  }

  // ---- overwriting scatters ----

  /// Window row j of position (b, m) writes element y.
  ghost predicate Hits(g: Geometry, values: seq<int>, b: nat, m: nat, j: nat, y: nat)
    requires g.Valid() && |values| == g.IndexElements()
  {
    && b < g.B && m < g.M && j < g.W() && InBounds(g, values, b, m)
    && SlicePlace(g, Coords(g, values, b, m), b, j) <= y < SlicePlace(g, Coords(g, values, b, m), b, j) + g.Width()
  }

  /// The source element it writes there.
  ghost function Written<T>(g: Geometry, values: seq<int>, source: seq<T>, b: nat, m: nat, j: nat, y: nat): T
    requires g.Valid() && |values| == g.IndexElements() && |source| == g.MovedElements()
    requires Hits(g, values, b, m, j, y)
  {
    source[g.SourcePlace(b, m, j) + (y - SlicePlace(g, Coords(g, values, b, m), b, j))]
  }

  /// Window row `row` of position (batch, item).
  datatype Update = Update(batch: nat, item: nat, row: nat)

  ghost predicate Earlier(a: Update, b: Update) {
    a.batch < b.batch || (a.batch == b.batch && (a.item < b.item || (a.item == b.item && a.row < b.row)))
  }

  /// When every update of element y writes v, the scatter leaves v there if
  /// any update reaches it, and the table's element otherwise.
  lemma {:induction false} OverwrittenAt<T>(g: Geometry, table: seq<T>, values: seq<int>, source: seq<T>,
                                            b: nat, m: nat, j: nat, y: nat, v: T)
    requires g.Valid() && |values| == g.IndexElements() && |table| == g.TableElements() && |source| == g.MovedElements()
    requires b <= g.B && m <= g.M && j <= g.W() && (b == g.B ==> m == 0 && j == 0) && (m == g.M ==> j == 0)
    requires y < |table|
    requires forall b', m', j' :: Hits(g, values, b', m', j', y) ==> Written(g, values, source, b', m', j', y) == v
    ensures (exists b', m', j' :: Hits(g, values, b', m', j', y) && Earlier(Update(b', m', j'), Update(b, m, j))) ==>
      Scattered(g, table, values, source, Overwrite, b, m, j)[y] == v
    ensures !(exists b', m', j' :: Hits(g, values, b', m', j', y) && Earlier(Update(b', m', j'), Update(b, m, j))) ==>
      Scattered(g, table, values, source, Overwrite, b, m, j)[y] == table[y]
    decreases b, m, j
  {
    hide Geometry.TableElements, Geometry.MovedElements, Geometry.IndexElements, Geometry.SourcePlace, Geometry.W,
         SlicePlace,
      InBounds, Coords;
    if j > 0 {
      OverwrittenAt(g, table, values, source, b, m, j - 1, y, v);
      StepAt(g, Scattered(g, table, values, source, Overwrite, b, m, j - 1), values, source, b, m, j - 1, y);
    } else if m > 0 {
      OverwrittenAt(g, table, values, source, b, m - 1, g.W(), y, v);
    } else if b > 0 {
      OverwrittenAt(g, table, values, source, b - 1, g.M, 0, y, v);
    }
  }

  lemma StepAt<T>(g: Geometry, out: seq<T>, values: seq<int>, source: seq<T>, b: nat, m: nat, j: nat, y: nat)
    requires g.Valid() && |values| == g.IndexElements() && |out| == g.TableElements() && |source| == g.MovedElements()
    requires b < g.B && m < g.M && j < g.W() && y < |out|
    ensures Hits(g, values, b, m, j, y) ==>
      WindowRow(g, out, values, source, Overwrite, b, m, j)[y] == Written(g, values, source, b, m, j, y)
    ensures !Hits(g, values, b, m, j, y) && InBounds(g, values, b, m) ==>
      WindowRow(g, out, values, source, Overwrite, b, m, j)[y] == out[y]
  {
    hide Geometry.TableElements, Geometry.MovedElements, Geometry.IndexElements, Geometry.SourcePlace, Geometry.W,
         SlicePlace,
      InBounds, Coords;
  }

  // ---- what a scatter leaves at an element ----

  /// The updates that write element y, in the order in which they are made.
  ghost predicate AreHits(g: Geometry, values: seq<int>, y: nat, hits: seq<Update>)
    requires g.Valid() && |values| == g.IndexElements()
  {
    && (forall i, k :: 0 <= i < k < |hits| ==> Earlier(hits[i], hits[k]))
    && forall u: Update :: u in hits <==> Hits(g, values, u.batch, u.item, u.row, y)
  }

  /// The left fold of f over what the updates write at element y.
  ghost function FoldUpdates<T>(f: (T, T) -> T, init: T, g: Geometry, values: seq<int>, source: seq<T>, y: nat,
                                hits: seq<Update>): T
    requires g.Valid() && |values| == g.IndexElements() && |source| == g.MovedElements()
    requires forall i :: 0 <= i < |hits| ==> Hits(g, values, hits[i].batch, hits[i].item, hits[i].row, y)
  {
    if hits == [] then init
    else
      var n := |hits| - 1;
      f(FoldUpdates(f, init, g, values, source, y, hits[..n]),
        Written(g, values, source, hits[n].batch, hits[n].item, hits[n].row, y))
  }

  ghost function Applied<T>(reduce: Reduce<T>): (T, T) -> T { (current, update) => reduce.Apply(current, update) }

  lemma HitIsIn(g: Geometry, values: seq<int>, y: nat, hits: seq<Update>)
    requires g.Valid() && |values| == g.IndexElements() && AreHits(g, values, y, hits)
    ensures forall i :: 0 <= i < |hits| ==> Hits(g, values, hits[i].batch, hits[i].item, hits[i].row, y)
  {
    hide Hits;
    forall i | 0 <= i < |hits| ensures Hits(g, values, hits[i].batch, hits[i].item, hits[i].row, y) {
      assert hits[i] in hits;
    }
  }

  /// One window row at element y.
  lemma UpdatedAt<T>(g: Geometry, out: seq<T>, values: seq<int>, source: seq<T>, reduce: Reduce<T>,
                     b: nat, m: nat, j: nat, y: nat)
    requires g.Valid() && |values| == g.IndexElements() && |out| == g.TableElements() && |source| == g.MovedElements()
    requires b < g.B && m < g.M && j < g.W() && y < |out|
    ensures Hits(g, values, b, m, j, y) ==>
      WindowRow(g, out, values, source, reduce, b, m, j)[y]
      == Applied(reduce)(out[y], Written(g, values, source, b, m, j, y))
    ensures !Hits(g, values, b, m, j, y) && InBounds(g, values, b, m) ==>
      WindowRow(g, out, values, source, reduce, b, m, j)[y] == out[y]
  {
    hide Geometry.TableElements, Geometry.MovedElements, Geometry.IndexElements, Geometry.SourcePlace, Geometry.W,
         SlicePlace, InBounds, Coords, Reduce.Apply;
  }

  /// The first k updates of element y come before (b, m, j).
  ghost predicate FirstBefore(hits: seq<Update>, k: nat, b: nat, m: nat, j: nat) {
    && k <= |hits|
    && (forall i :: 0 <= i < k ==> Earlier(hits[i], Update(b, m, j)))
    && forall i :: k <= i < |hits| ==> !Earlier(hits[i], Update(b, m, j))
  }

  lemma BeforeRow(g: Geometry, values: seq<int>, y: nat, hits: seq<Update>, k: nat, b: nat, m: nat, j: nat)
    returns (n: nat)
    requires g.Valid() && |values| == g.IndexElements() && AreHits(g, values, y, hits)
    requires j > 0 && FirstBefore(hits, k, b, m, j)
    ensures FirstBefore(hits, n, b, m, j - 1)
    ensures Hits(g, values, b, m, j - 1, y) ==> k == n + 1 && hits[n] == Update(b, m, j - 1)
    ensures !Hits(g, values, b, m, j - 1, y) ==> n == k
  {
    hide Hits;
    var u := Update(b, m, j - 1);
    n := if k > 0 && hits[k - 1] == u then k - 1 else k;
    if k > 0 && hits[k - 1] == u { assert u in hits; }
    if Hits(g, values, b, m, j - 1, y) {
      assert u in hits;
      var i :| 0 <= i < |hits| && hits[i] == u;
      assert i < k - 1 ==> Earlier(hits[i], hits[k - 1]);
    }
    forall i | 0 <= i < n ensures Earlier(hits[i], u) {
      if n == k - 1 { assert Earlier(hits[i], hits[k - 1]); }
      assert hits[i] in hits;
    }
  }

  lemma NoneBefore(hits: seq<Update>, k: nat)
    requires FirstBefore(hits, k, 0, 0, 0)
    ensures k == 0
  {
    var first := if |hits| > 0 then hits[0] else Update(0, 0, 0);
    assert !Earlier(first, Update(0, 0, 0));
  }

  lemma {:induction false} FoldedBefore<T>(g: Geometry, table: seq<T>, values: seq<int>, source: seq<T>,
                                           reduce: Reduce<T>, b: nat, m: nat, j: nat, y: nat,
                                           hits: seq<Update>, k: nat)
    requires g.Valid() && |values| == g.IndexElements() && |table| == g.TableElements() && |source| == g.MovedElements()
    requires b <= g.B && m <= g.M && j <= g.W() && (b == g.B ==> m == 0 && j == 0) && (m == g.M ==> j == 0)
    requires y < |table| && AreHits(g, values, y, hits) && FirstBefore(hits, k, b, m, j)
    ensures forall i :: 0 <= i < |hits| ==> Hits(g, values, hits[i].batch, hits[i].item, hits[i].row, y)
    ensures Scattered(g, table, values, source, reduce, b, m, j)[y]
         == FoldUpdates(Applied(reduce), table[y], g, values, source, y, hits[..k])
    decreases b, m, j
  {
    hide Geometry.TableElements, Geometry.MovedElements, Geometry.IndexElements, Geometry.W, Written, Hits, WindowRow,
         InBounds, Applied;
    HitIsIn(g, values, y, hits);
    if j > 0 {
      var n := BeforeRow(g, values, y, hits, k, b, m, j);
      FoldedBefore(g, table, values, source, reduce, b, m, j - 1, y, hits, n);
      UpdatedAt(g, Scattered(g, table, values, source, reduce, b, m, j - 1), values, source, reduce, b, m, j - 1, y);
      HitInBounds(g, values, b, m, j - 1, y);
      if n + 1 == k { assert hits[..k][..n] == hits[..n]; }
    } else if m > 0 {
      SamePlaces(g, values, y, hits, k, b, m, j);
      FoldedBefore(g, table, values, source, reduce, b, m - 1, g.W(), y, hits, k);
    } else if b > 0 {
      SamePlaces(g, values, y, hits, k, b, m, j);
      FoldedBefore(g, table, values, source, reduce, b - 1, g.M, 0, y, hits, k);
    } else {
      NoneBefore(hits, k);
      assert hits[..k] == [];
    }
  }

  lemma HitInBounds(g: Geometry, values: seq<int>, b: nat, m: nat, j: nat, y: nat)
    requires g.Valid() && |values| == g.IndexElements()
    ensures Hits(g, values, b, m, j, y) ==> b < g.B && m < g.M && j < g.W() && InBounds(g, values, b, m)
  {
    hide InBounds;
  }

  /// Nothing lies between the end of one position and the start of the next.
  lemma SamePlaces(g: Geometry, values: seq<int>, y: nat, hits: seq<Update>, k: nat, b: nat, m: nat, j: nat)
    requires g.Valid() && |values| == g.IndexElements() && AreHits(g, values, y, hits)
    requires j == 0 && (m > 0 || b > 0) && FirstBefore(hits, k, b, m, j)
    ensures m > 0 ==> FirstBefore(hits, k, b, m - 1, g.W())
    ensures m == 0 ==> FirstBefore(hits, k, b - 1, g.M, 0)
  {
    hide Hits;
    forall i | 0 <= i < |hits|
      ensures hits[i].batch < g.B && hits[i].item < g.M && hits[i].row < g.W()
    {
      assert hits[i] in hits;
      HitInBounds(g, values, hits[i].batch, hits[i].item, hits[i].row, y);
    }
  }

  lemma AllBefore(g: Geometry, values: seq<int>, y: nat, hits: seq<Update>)
    requires g.Valid() && |values| == g.IndexElements() && AreHits(g, values, y, hits)
    ensures FirstBefore(hits, |hits|, g.B, 0, 0)
  {
    hide Hits;
    forall i | 0 <= i < |hits| ensures hits[i].batch < g.B {
      assert hits[i] in hits;
      HitInBounds(g, values, hits[i].batch, hits[i].item, hits[i].row, y);
    }
  }

  /// A reducing scatter leaves at every element the fold, from the table's
  /// element, of what the updates that reach it hold, in increasing batch,
  /// position and window row.
  lemma CombinedAt<T>(g: Geometry, table: seq<T>, values: seq<int>, source: seq<T>, f: (T, T) -> T, y: nat,
                      hits: seq<Update>)
    requires g.Valid() && |values| == g.IndexElements() && |table| == g.TableElements() && |source| == g.MovedElements()
    requires y < |table| && AreHits(g, values, y, hits)
    ensures forall i :: 0 <= i < |hits| ==> Hits(g, values, hits[i].batch, hits[i].item, hits[i].row, y)
    ensures RowsScatter(g, table, values, source, Combine(f))[y]
         == FoldUpdates(f, table[y], g, values, source, y, hits)
  {
    hide Geometry.TableElements, Geometry.MovedElements, Geometry.IndexElements, Geometry.W, Written, Hits, Scattered;
    AllBefore(g, values, y, hits);
    FoldedBefore(g, table, values, source, Combine(f), g.B, 0, 0, y, hits, |hits|);
    assert hits[..|hits|] == hits;
    SameFold(Applied(Combine(f)), f, table[y], g, values, source, y, hits);
  }

  lemma {:induction false} SameFold<T>(f: (T, T) -> T, h: (T, T) -> T, init: T, g: Geometry, values: seq<int>,
                                       source: seq<T>, y: nat, hits: seq<Update>)
    requires g.Valid() && |values| == g.IndexElements() && |source| == g.MovedElements()
    requires forall i :: 0 <= i < |hits| ==> Hits(g, values, hits[i].batch, hits[i].item, hits[i].row, y)
    requires forall a, b :: f(a, b) == h(a, b)
    ensures FoldUpdates(f, init, g, values, source, y, hits) == FoldUpdates(h, init, g, values, source, y, hits)
  {
    hide Written, Hits;
    if hits != [] { SameFold(f, h, init, g, values, source, y, hits[..|hits| - 1]); }
  }

  /// An overwriting scatter leaves at every element what the last update that
  /// reaches it holds, and the table's element where none does.
  lemma LastUpdateAt<T>(g: Geometry, table: seq<T>, values: seq<int>, source: seq<T>, y: nat, hits: seq<Update>)
    requires g.Valid() && |values| == g.IndexElements() && |table| == g.TableElements() && |source| == g.MovedElements()
    requires y < |table| && AreHits(g, values, y, hits)
    ensures forall i :: 0 <= i < |hits| ==> Hits(g, values, hits[i].batch, hits[i].item, hits[i].row, y)
    ensures RowsScatter(g, table, values, source, Overwrite)[y]
         == if hits == [] then table[y]
            else var last := hits[|hits| - 1]; Written(g, values, source, last.batch, last.item, last.row, y)
  {
    hide Geometry.TableElements, Geometry.MovedElements, Geometry.IndexElements, Geometry.W, Written, Hits, Scattered;
    AllBefore(g, values, y, hits);
    FoldedBefore(g, table, values, source, Overwrite, g.B, 0, 0, y, hits, |hits|);
    assert hits[..|hits|] == hits;
  }

  ghost predicate AreHitsBefore(g: Geometry, values: seq<int>, y: nat, hits: seq<Update>, b: nat, m: nat, j: nat)
    requires g.Valid() && |values| == g.IndexElements()
  {
    && (forall i, k :: 0 <= i < k < |hits| ==> Earlier(hits[i], hits[k]))
    && forall u: Update :: u in hits <==> Hits(g, values, u.batch, u.item, u.row, y) && Earlier(u, Update(b, m, j))
  }

  lemma {:induction false} HitsBefore(g: Geometry, values: seq<int>, y: nat, b: nat, m: nat, j: nat)
    returns (hits: seq<Update>)
    requires g.Valid() && |values| == g.IndexElements()
    ensures AreHitsBefore(g, values, y, hits, b, m, j)
    decreases b, m, j
  {
    hide Hits;
    if j > 0 {
      hits := HitsBefore(g, values, y, b, m, j - 1);
      if Hits(g, values, b, m, j - 1, y) { hits := hits + [Update(b, m, j - 1)]; }
    } else if m > 0 {
      hits := HitsBefore(g, values, y, b, m - 1, g.W());
    } else if b > 0 {
      hits := HitsBefore(g, values, y, b - 1, g.M, 0);
    } else {
      hits := [];
    }
    forall u: Update | Hits(g, values, u.batch, u.item, u.row, y) ensures u.item < g.M && u.row < g.W() {
      HitInBounds(g, values, u.batch, u.item, u.row, y);
    }
  }

  /// The updates of an element can be listed.
  lemma AllHits(g: Geometry, values: seq<int>, y: nat) returns (hits: seq<Update>)
    requires g.Valid() && |values| == g.IndexElements()
    ensures AreHits(g, values, y, hits)
  {
    hide Hits;
    hits := HitsBefore(g, values, y, g.B, 0, 0);
    forall u: Update | Hits(g, values, u.batch, u.item, u.row, y) ensures u.batch < g.B {
      HitInBounds(g, values, u.batch, u.item, u.row, y);
    }
  }
}
