/// How the lowering lays an operand out as a table: batch dimensions, then the
/// dimensions addressed by index components, then the dimensions of a row.
module CanonicalLayout {
  import opened RowMajor
  import opened Tensors

  /// The three ways a table can use a dimension of the operand.
  datatype DimKind = Batch | Indexed | Free

  /// `column` is the index component of an Indexed dimension.
  datatype OperandDim = OperandDim(kind: DimKind, column: nat, window: nat, size: nat)

  datatype Canonical = Canonical(
    permutation: seq<nat>, dims: seq<OperandDim>,
    batchDims: seq<nat>, componentDims: seq<nat>, rowDims: seq<nat>,
    columns: seq<int>, sizes: seq<nat>, windows: seq<nat>, column: bool,
    B: nat, N: nat, W: nat, columnWindow: nat)

  predicate NeedsComponent(dim: OperandDim) {
    dim.kind == Indexed || (dim.kind == Free && dim.window != dim.size)
  }

  function IsBatch(dims: seq<OperandDim>): nat -> bool {
    (d: nat) => d < |dims| && dims[d].kind == Batch
  }

  function IsComponent(dims: seq<OperandDim>): nat -> bool {
    (d: nat) => d < |dims| && NeedsComponent(dims[d])
  }

  function IsWhole(dims: seq<OperandDim>): nat -> bool {
    (d: nat) => d < |dims| && dims[d].kind == Free && !NeedsComponent(dims[d])
  }

  function Sizes(dims: seq<OperandDim>): (s: seq<nat>)
    ensures |s| == |dims| && forall i :: 0 <= i < |dims| ==> s[i] == dims[i].size
  {
    seq(|dims|, i requires 0 <= i < |dims| => dims[i].size)
  }

  function Windows(dims: seq<OperandDim>): (s: seq<nat>)
    ensures |s| == |dims| && forall i :: 0 <= i < |dims| ==> s[i] == dims[i].window
  {
    seq(|dims|, i requires 0 <= i < |dims| => dims[i].window)
  }

  function ColumnOf(dim: OperandDim): int {
    if dim.kind == Indexed then dim.column else -1
  }

  function Columns(dims: seq<OperandDim>): (s: seq<int>)
    ensures |s| == |dims| && forall i :: 0 <= i < |dims| ==> s[i] == ColumnOf(dims[i])
  {
    seq(|dims|, i requires 0 <= i < |dims| => ColumnOf(dims[i]))
  }

  function Interval(lo: nat, hi: nat): (r: seq<nat>)
    requires lo <= hi
    ensures |r| == hi - lo && forall i :: 0 <= i < |r| ==> r[i] == lo + i
  {
    seq(hi - lo, i requires 0 <= i < hi - lo => lo + i)
  }

  /// The operand dims in operand order that are batching dims.
  function BatchOrder(dims: seq<OperandDim>): seq<nat> {
    Filter(Range(|dims|), IsBatch(dims))
  }

  /// The table's batch dims are the batching dims in operand order, with
  /// nothing between them but dimensions of extent 1; or there are none.
  ghost predicate BatchesLead(dims: seq<OperandDim>, perm: seq<nat>, lo: nat)
    requires Names(perm, |dims|) && lo <= |perm|
  {
    || BatchOrder(dims) == []
    || (Filter(perm[..lo], IsBatch(dims)) == BatchOrder(dims)
        && forall p :: 0 <= p < lo ==> dims[perm[p]].kind == Batch || dims[perm[p]].size == 1)
  }

  /// The permuted dims are [0, lo) batch, [lo, hi) components, [hi, rank) rows.
  ghost predicate Regions(dims: seq<OperandDim>, perm: seq<nat>, lo: nat, hi: nat) {
    && IsPermutation(perm) && |perm| == |dims| && lo <= hi <= |dims|
    && (forall p :: 0 <= p < |dims| && NeedsComponent(dims[perm[p]]) ==> lo <= p < hi)
    && (forall p :: lo <= p < hi ==> dims[perm[p]].kind != Batch)
    && (lo < hi ==> BatchesLead(dims, perm, lo))
  }

  /// The region's dims, or, since a table has at least one component, a free unit dim.
  function ComponentList(c: seq<OperandDim>): seq<OperandDim> {
    if c == [] then [OperandDim(Free, 0, 1, 1)] else c
  }

  ghost predicate IsCanonical(dims: seq<OperandDim>, c: Canonical, lo: nat, hi: nat) {
    && Regions(dims, c.permutation, lo, hi) && c.dims == Select(dims, c.permutation)
    && c.batchDims == Interval(0, lo) && c.componentDims == Interval(lo, hi) && c.rowDims == Interval(hi, |dims|)
    && c.columns == Columns(ComponentList(c.dims[lo..hi]))
    && c.sizes == Sizes(ComponentList(c.dims[lo..hi]))
    && c.windows == Windows(ComponentList(c.dims[lo..hi]))
    && c.column == (lo < hi == |dims|)
    && c.B == Product(Sizes(c.dims[..lo]))
    && c.N == Product(if c.column then c.sizes[..|c.sizes| - 1] else c.sizes)
    && c.W == Product(if c.column then c.windows[..|c.windows| - 1] else c.windows)
    && c.columnWindow == (if c.column then c.windows[|c.windows| - 1] else 1)
  }

  /// The first and last dimension that needs a component; (rank, -1) when none does.
  method Region(dims: seq<OperandDim>) returns (start: int, end: int)
    ensures (forall d :: 0 <= d < |dims| ==> !NeedsComponent(dims[d])) ==> start == |dims| && end == -1
    ensures (exists d :: 0 <= d < |dims| && NeedsComponent(dims[d])) ==>
      && 0 <= start <= end < |dims| && NeedsComponent(dims[start]) && NeedsComponent(dims[end])
      && forall d :: 0 <= d < |dims| && NeedsComponent(dims[d]) ==> start <= d <= end
  {
    start, end := |dims|, -1;
    var d := 0;
    while d < |dims|
      invariant 0 <= d <= |dims|
      invariant (forall i :: 0 <= i < d ==> !NeedsComponent(dims[i])) ==> start == |dims| && end == -1
      invariant (exists i :: 0 <= i < d && NeedsComponent(dims[i])) ==>
        && 0 <= start <= end < d && NeedsComponent(dims[start]) && NeedsComponent(dims[end])
        && forall i :: 0 <= i < d && NeedsComponent(dims[i]) ==> start <= i <= end
    {
      if NeedsComponent(dims[d]) {
        if d < start { start := d; }
        if d > end { end := d; }
      }
      d := d + 1;
    }
  }

  /// Whether the operand can keep its order.
  predicate Natural(dims: seq<OperandDim>, start: int, end: int) {
    var hasBatch := exists d :: 0 <= d < |dims| && dims[d].kind == Batch;
    forall d :: 0 <= d < |dims| ==>
      && (dims[d].kind == Batch ==> d < start)
      && (hasBatch && d < start && dims[d].kind != Batch ==> end >= 0 && dims[d].kind == Free && dims[d].size == 1)
  }

  method IsNatural(dims: seq<OperandDim>, start: int, end: int) returns (natural: bool)
    ensures natural == Natural(dims, start, end)
  {
    var hasBatch := exists d :: 0 <= d < |dims| && dims[d].kind == Batch;
    natural := true;
    var d := 0;
    while d < |dims|
      invariant 0 <= d <= |dims|
      invariant natural <==> forall i :: 0 <= i < d ==>
        && (dims[i].kind == Batch ==> i < start)
        && (hasBatch && i < start && dims[i].kind != Batch ==> end >= 0 && dims[i].kind == Free && dims[i].size == 1)
    {
      var leading := d < start;
      var isBatch := dims[d].kind == Batch;
      var unit := end >= 0 && dims[d].kind == Free && dims[d].size == 1;
      if isBatch && !leading { natural := false; }
      if hasBatch && leading && !isBatch && !unit { natural := false; }
      d := d + 1;
    }
  }

  /// [Batch, Indexed and partial Free, whole Free], each in operand order.
  function Grouped(dims: seq<OperandDim>): seq<nat> {
    Filter(Range(|dims|), IsBatch(dims)) + Filter(Range(|dims|), IsComponent(dims))
      + Filter(Range(|dims|), IsWhole(dims))
  }

  /// What one pass of the grouping takes.
  function TakenBy(dims: seq<OperandDim>, kind: DimKind): nat -> bool {
    match kind
    case Batch => IsBatch(dims)
    case Indexed => IsComponent(dims)
    case Free => IsWhole(dims)
  }

  method Pass(dims: seq<OperandDim>, kind: DimKind) returns (taken: seq<nat>)
    ensures taken == Filter(Range(|dims|), TakenBy(dims, kind))
  {
    hide Filter, Range;
    taken := [];
    EmptyFilter(TakenBy(dims, kind));
    var d := 0;
    while d < |dims|
      invariant 0 <= d <= |dims| && taken == Filter(Range(d), TakenBy(dims, kind))
    {
      FilterStep(d, TakenBy(dims, kind));
      var component := NeedsComponent(dims[d]);
      var take := if kind == Batch then dims[d].kind == Batch
                  else if kind == Indexed then component
                  else dims[d].kind == Free && !component;
      if take { taken := taken + [d]; }
      d := d + 1;
    }
  }

  method Group(dims: seq<OperandDim>) returns (perm: seq<nat>)
    ensures perm == Grouped(dims)
  {
    hide Filter, Range;
    var batch := Pass(dims, Batch);
    var components := Pass(dims, Indexed);
    var whole := Pass(dims, Free);
    perm := batch + components + whole;
  }


  lemma GroupedIsPermutation(dims: seq<OperandDim>)
    ensures IsPermutation(Grouped(dims)) && |Grouped(dims)| == |dims|
  {
    var all := Range(|dims|);
    var a, b, c := Filter(all, IsBatch(dims)), Filter(all, IsComponent(dims)), Filter(all, IsWhole(dims));
    FilterDistinct(all, IsBatch(dims));
    FilterDistinct(all, IsComponent(dims));
    FilterDistinct(all, IsWhole(dims));
    DistinctConcat(a, b);
    DistinctConcat(a + b, c);
    GroupedSize(dims, |dims|);
    assert all == Range(|dims|);
    forall i | 0 <= i < |Grouped(dims)| ensures Grouped(dims)[i] < |dims| {
      assert Grouped(dims)[i] in a || Grouped(dims)[i] in b || Grouped(dims)[i] in c;
      assert Grouped(dims)[i] in all;
    }
    DistinctIsPermutation(Grouped(dims));
  }

  lemma {:induction false} GroupedSize(dims: seq<OperandDim>, n: nat)
    requires n <= |dims|
    ensures |Filter(Range(n), IsBatch(dims))| + |Filter(Range(n), IsComponent(dims))|
      + |Filter(Range(n), IsWhole(dims))| == n
  {
    hide Filter, Range;
    if n > 0 {
      GroupedSize(dims, n - 1);
      FilterStep(n - 1, IsBatch(dims));
      FilterStep(n - 1, IsComponent(dims));
      FilterStep(n - 1, IsWhole(dims));
    } else {
      EmptyFilter(IsBatch(dims));
      EmptyFilter(IsComponent(dims));
      EmptyFilter(IsWhole(dims));
    }
  }

  // ---- the regions of the two orders ----

  lemma IdentityPermutation(n: nat)
    ensures IsPermutation(Range(n))
  {
    DistinctIsPermutation(Range(n));
  }

  /// Batching dims below lo, in operand order, are all of them when none lies at lo or past it.
  lemma {:induction false} BatchesBelow(dims: seq<OperandDim>, lo: nat, n: nat)
    requires lo <= n <= |dims| && forall d :: lo <= d < n ==> dims[d].kind != Batch
    ensures Filter(Range(n), IsBatch(dims)) == Filter(Range(lo), IsBatch(dims))
  {
    if n > lo {
      BatchesBelow(dims, lo, n - 1);
      FilterStep(n - 1, IsBatch(dims));
    }
  }

  /// The operand kept in order.
  lemma NaturalRegions(dims: seq<OperandDim>, lo: nat, hi: nat)
    requires lo <= hi <= |dims|
    requires forall d :: 0 <= d < |dims| && NeedsComponent(dims[d]) ==> lo <= d < hi
    requires lo < hi ==> Natural(dims, lo, hi - 1)
    ensures Regions(dims, Range(|dims|), lo, hi)
  {
    IdentityPermutation(|dims|);
    if lo < hi {
      BatchesBelow(dims, lo, |dims|);
      assert Range(|dims|)[..lo] == Range(lo);
      if BatchOrder(dims) != [] {
        var x := BatchOrder(dims)[0];
        assert x in BatchOrder(dims);
        assert dims[x].kind == Batch;
      }
    }
  }

  /// The operand grouped: batch dims, then components, then whole dims.
  lemma GroupedRegions(dims: seq<OperandDim>, lo: nat, hi: nat)
    requires lo == |BatchOrder(dims)| && hi == lo + |Filter(Range(|dims|), IsComponent(dims))|
    ensures Regions(dims, Grouped(dims), lo, hi)
    ensures forall p :: lo <= p < hi ==> NeedsComponent(dims[Grouped(dims)[p]])
  {
    GroupedIsPermutation(dims);
    var perm := Grouped(dims);
    var a, b, c := BatchOrder(dims), Filter(Range(|dims|), IsComponent(dims)), Filter(Range(|dims|), IsWhole(dims));
    forall p | 0 <= p < |dims|
      ensures p < lo ==> dims[perm[p]].kind == Batch
      ensures lo <= p < hi ==> NeedsComponent(dims[perm[p]])
      ensures hi <= p ==> !NeedsComponent(dims[perm[p]])
    {
      if p < lo { assert perm[p] == a[p] && a[p] in a; }
      else if p < hi { assert perm[p] == b[p - lo] && b[p - lo] in b; }
      else { assert perm[p] == c[p - hi] && c[p - hi] in c; }
    }
    assert perm[..lo] == a;
    FilterAll(a, IsBatch(dims));
  }

  lemma ProductLast(shape: seq<nat>, x: nat)
    ensures Product(shape + [x]) == Product(shape) * x
  {
    ProductConcat(shape, [x]);
    assert Product([x]) == x * Product([]);
  }

  lemma NextDim(dims: seq<OperandDim>, lo: nat, d: nat)
    requires lo <= d < |dims|
    ensures Sizes(dims[lo..d + 1]) == Sizes(dims[lo..d]) + [dims[d].size]
    ensures Windows(dims[lo..d + 1]) == Windows(dims[lo..d]) + [dims[d].window]
    ensures Columns(dims[lo..d + 1]) == Columns(dims[lo..d]) + [ColumnOf(dims[d])]
    ensures Interval(lo, d + 1) == Interval(lo, d) + [d]
  {}

  /// The lists the three regions contribute.
  method SplitRegions(dims: seq<OperandDim>, lo: nat, hi: nat)
    returns (batchDims: seq<nat>, componentDims: seq<nat>, rowDims: seq<nat>,
             columns: seq<int>, sizes: seq<nat>, windows: seq<nat>, B: nat)
    requires lo <= hi <= |dims|
    ensures batchDims == Interval(0, lo) && componentDims == Interval(lo, hi) && rowDims == Interval(hi, |dims|)
    ensures columns == Columns(dims[lo..hi]) && sizes == Sizes(dims[lo..hi]) && windows == Windows(dims[lo..hi])
    ensures B == Product(Sizes(dims[..lo]))
  {
    hide Sizes, Windows, Columns, Interval, Product;
    batchDims, componentDims, rowDims, columns, sizes, windows, B := [], [], [], [], [], [], 1;
    EmptyLists(dims, lo, hi);
    var d := 0;
    while d < |dims|
      invariant 0 <= d <= |dims|
      invariant batchDims == Interval(0, if d < lo then d else lo)
      invariant B == Product(Sizes(dims[..if d < lo then d else lo]))
      invariant componentDims == Interval(lo, Reached(lo, hi, d)) && columns == Columns(dims[lo..Reached(lo, hi, d)])
      invariant sizes == Sizes(dims[lo..Reached(lo, hi, d)]) && windows == Windows(dims[lo..Reached(lo, hi, d)])
      invariant rowDims == Interval(hi, if d < hi then hi else d)
    {
      if d < lo {
        NextDim(dims, 0, d);
        assert dims[0..d] == dims[..d] && dims[0..d + 1] == dims[..d + 1];
        ProductLast(Sizes(dims[..d]), dims[d].size);
        batchDims := batchDims + [d];
        B := B * dims[d].size;
      } else if d < hi {
        NextDim(dims, lo, d);
        componentDims := componentDims + [d];
        columns := columns + [if dims[d].kind == Indexed then dims[d].column else -1];
        sizes, windows := sizes + [dims[d].size], windows + [dims[d].window];
      } else {
        NextDim(dims, hi, d);
        rowDims := rowDims + [d];
      }
      d := d + 1;
    }
  }

  function Reached(lo: nat, hi: nat, d: nat): nat
    requires lo <= hi
  {
    if d < lo then lo else if d < hi then d else hi
  }

  lemma EmptyLists(dims: seq<OperandDim>, lo: nat, hi: nat)
    requires lo <= hi <= |dims|
    ensures Interval(0, 0) == [] && Interval(lo, lo) == [] && Interval(hi, hi) == []
    ensures Columns(dims[lo..lo]) == [] && Sizes(dims[lo..lo]) == [] && Windows(dims[lo..lo]) == []
    ensures Product(Sizes(dims[..0])) == 1
  {}

  /// Whether no dimension needs a component.
  ghost predicate NothingIndexed(dims: seq<OperandDim>) {
    forall d :: 0 <= d < |dims| ==> !NeedsComponent(dims[d])
  }

  /// What Region finds.
  ghost predicate Delimits(dims: seq<OperandDim>, start: int, end: int) {
    && 0 <= start <= end < |dims| && NeedsComponent(dims[start]) && NeedsComponent(dims[end])
    && forall d :: 0 <= d < |dims| && NeedsComponent(dims[d]) ==> start <= d <= end
  }

  method FindRegion(dims: seq<OperandDim>) returns (start: int, end: int)
    ensures NothingIndexed(dims) ==> start == |dims| && end == -1
    ensures !NothingIndexed(dims) ==> Delimits(dims, start, end)
  {
    start, end := Region(dims);
  }

  /// A permutation moves dimensions; it adds and removes none.
  lemma PermutedDims(dims: seq<OperandDim>, perm: seq<nat>)
    requires IsPermutation(perm) && |perm| == |dims|
    ensures NothingIndexed(Select(dims, perm)) <==> NothingIndexed(dims)
  {
    if NothingIndexed(Select(dims, perm)) {
      forall d: nat | d < |dims| ensures !NeedsComponent(dims[d]) {
        assert d in perm;
        var p :| 0 <= p < |perm| && perm[p] == d;
        assert !NeedsComponent(Select(dims, perm)[p]);
      }
    }
  }

  lemma NaturalOrder(dims: seq<OperandDim>, start: int, end: int)
    requires Delimits(dims, start, end) && Natural(dims, start, end)
    ensures Regions(dims, Range(|dims|), start, end + 1)
  {
    hide BatchesLead, NeedsComponent;
    NaturalRegions(dims, start, end + 1);
  }

  lemma GroupedOrder(dims: seq<OperandDim>, start: int, end: int)
    requires Names(Grouped(dims), |dims|) && Delimits(Select(dims, Grouped(dims)), start, end)
    ensures Regions(dims, Grouped(dims), start, end + 1)
    ensures forall p :: start <= p <= end ==> NeedsComponent(dims[Grouped(dims)[p]])
  {
    hide BatchesLead, NeedsComponent, Filter, IsPermutation;
    var perm, lo := Grouped(dims), |BatchOrder(dims)|;
    var hi := lo + |Filter(Range(|dims|), IsComponent(dims))|;
    var permuted := Select(dims, perm);
    GroupedRegions(dims, lo, hi);
    assert NeedsComponent(permuted[start]) && NeedsComponent(permuted[end]);
    assert NeedsComponent(permuted[lo]) && NeedsComponent(permuted[hi - 1]);
  }

  /// When no dimension needs a component, any split with an empty region will do.
  lemma UnindexedRegions(dims: seq<OperandDim>, perm: seq<nat>, lo: nat)
    requires NothingIndexed(dims) && IsPermutation(perm) && |perm| == |dims| && lo <= |dims|
    ensures Regions(dims, perm, lo, lo)
  {}

  /// An operand with no batching dims is never permuted.
  lemma UnbatchedIsNatural(dims: seq<OperandDim>, start: int, end: int)
    requires forall d :: 0 <= d < |dims| ==> dims[d].kind != Batch
    ensures Natural(dims, start, end)
  {}

  ghost predicate Unbatched(dims: seq<OperandDim>) {
    forall d :: 0 <= d < |dims| ==> dims[d].kind != Batch
  }

  /// Dimension d comes before every dimension that needs a component.
  ghost predicate Leading(dims: seq<OperandDim>, d: nat) {
    forall e :: 0 <= e < |dims| && NeedsComponent(dims[e]) ==> d < e
  }

  ghost predicate InPlace(dims: seq<OperandDim>, d: nat)
    requires d < |dims|
  {
    if dims[d].kind == Batch then Leading(dims, d)
    else Leading(dims, d) ==> !NothingIndexed(dims) && dims[d].kind == Free && dims[d].size == 1
  }

  /// Whether the operand keeps its order: it has no batching dims, or they all
  /// come before the region and share that place with free dims of extent 1 only.
  ghost predicate KeepsOrder(dims: seq<OperandDim>) {
    Unbatched(dims) || forall d: nat :: d < |dims| ==> InPlace(dims, d)
  }

  /// The order the operand takes.
  ghost function OrderOf(dims: seq<OperandDim>): (perm: seq<nat>)
    ensures IsPermutation(perm) && |perm| == |dims|
  {
    GroupedIsPermutation(dims);
    IdentityPermutation(|dims|);
    if KeepsOrder(dims) then Range(|dims|) else Grouped(dims)
  }

  /// Where the region of ordered dims begins and ends: at the first and last
  /// that need a component, or, when none does, just before the last dimension.
  ghost predicate Ends(dims: seq<OperandDim>, lo: nat, hi: nat) {
    if NothingIndexed(dims) then lo == hi == if |dims| == 0 then 0 else |dims| - 1
    else lo < hi && Delimits(dims, lo, hi - 1)
  }

  lemma NaturalKeepsOrder(dims: seq<OperandDim>, start: int, end: int)
    requires if NothingIndexed(dims) then start == |dims| && end == -1 else Delimits(dims, start, end)
    ensures Natural(dims, start, end) <==> KeepsOrder(dims)
  {
    hide NeedsComponent;
    forall d: nat | d < |dims| ensures Leading(dims, d) <==> d < start {}
    if !Unbatched(dims) && Natural(dims, start, end) {
      forall d: nat | d < |dims| ensures InPlace(dims, d) {}
    }
    if !Unbatched(dims) && KeepsOrder(dims) {
      forall d: nat | d < |dims|
        ensures dims[d].kind == Batch ==> d < start
        ensures d < start && dims[d].kind != Batch ==> end >= 0 && dims[d].kind == Free && dims[d].size == 1
      {
        assert InPlace(dims, d);
      }
    }
  }

  /// A layout is determined: one order, one region.
  lemma OneLayout(dims: seq<OperandDim>, c: Canonical, lo: nat, hi: nat, c': Canonical, lo': nat, hi': nat)
    requires IsCanonical(dims, c, lo, hi) && c.permutation == OrderOf(dims) && Ends(c.dims, lo, hi)
    requires IsCanonical(dims, c', lo', hi') && c'.permutation == OrderOf(dims) && Ends(c'.dims, lo', hi')
    ensures c == c' && lo == lo' && hi == hi'
  {
    hide BatchesLead, NeedsComponent, OrderOf, Product, Regions, Delimits, Columns, Sizes, Windows, ComponentList;
    SameEnds(c.dims, lo, hi, lo', hi');
  }

  lemma SameEnds(dims: seq<OperandDim>, lo: nat, hi: nat, lo': nat, hi': nat)
    requires Ends(dims, lo, hi) && Ends(dims, lo', hi')
    ensures lo == lo' && hi == hi'
  {
    hide NeedsComponent;
  }

  /// The region is empty just when no dimension of the operand needs a component.
  lemma EmptyRegion(dims: seq<OperandDim>, c: Canonical, lo: nat, hi: nat)
    requires IsCanonical(dims, c, lo, hi) && c.permutation == OrderOf(dims) && Ends(c.dims, lo, hi)
    ensures NothingIndexed(dims) <==> lo == hi
    ensures NothingIndexed(dims) ==> lo == if |dims| == 0 then 0 else |dims| - 1
  {
    hide NothingIndexed, OrderOf, Regions, Product;
    PermutedDims(dims, OrderOf(dims));
  }

  /// The order the operand takes and where its regions begin and end.
  method Order(dims: seq<OperandDim>) returns (perm: seq<nat>, lo: nat, hi: nat)
    ensures Regions(dims, perm, lo, hi) && perm == OrderOf(dims) && Ends(Select(dims, perm), lo, hi)
  {
    hide Regions, Natural, Filter, Range, NothingIndexed, KeepsOrder, Delimits;
    var start, end := FindRegion(dims);
    var natural := IsNatural(dims, start, end);
    NaturalKeepsOrder(dims, start, end);
    perm := Range(|dims|);
    IdentityPermutation(|dims|);
    if !natural {
      perm := Group(dims);
      GroupedIsPermutation(dims);
    }
    var permuted := Select(dims, perm);
    PermutedDims(dims, perm);
    if natural { SelectRange(dims); }
    start, end := FindRegion(permuted);
    if end < 0 {
      lo := if |dims| == 0 then 0 else |dims| - 1;
      hi := lo;
      UnindexedRegions(dims, perm, lo);
      return;
    }
    lo, hi := start, end + 1;
    if natural { NaturalOrder(dims, start, end); } else { GroupedOrder(dims, start, end); }
  }

  /// The table the regions describe.
  method Describe(dims: seq<OperandDim>, perm: seq<nat>, lo: nat, hi: nat) returns (c: Canonical)
    requires Regions(dims, perm, lo, hi)
    ensures IsCanonical(dims, c, lo, hi) && c.permutation == perm && c.dims == Select(dims, perm)
  {
    hide BatchesLead, Filter, NeedsComponent;
    var permuted := Select(dims, perm);
    var batchDims, componentDims, rowDims, columns, sizes, windows, B := SplitRegions(permuted, lo, hi);
    if componentDims == [] {
      columns, sizes, windows := columns + [-1], sizes + [1], windows + [1];
    }
    var column := componentDims != [] && componentDims[|componentDims| - 1] == |dims| - 1;
    var rowComponents := |sizes| - (if column then 1 else 0);
    var N, W := Product(sizes[..rowComponents]), Product(windows[..rowComponents]);
    assert sizes[..|sizes|] == sizes && windows[..|windows|] == windows;
    c := Canonical(perm, permuted, batchDims, componentDims, rowDims, columns, sizes, windows, column,
                   B, N, W, if column then windows[|windows| - 1] else 1);
    assert sizes == Sizes(ComponentList(permuted[lo..hi]));
    assert windows == Windows(ComponentList(permuted[lo..hi]));
    assert columns == Columns(ComponentList(permuted[lo..hi]));
  }

  /// Lays the operand out as a table.
  method Canonicalize(dims: seq<OperandDim>) returns (c: Canonical, lo: nat, hi: nat)
    ensures IsCanonical(dims, c, lo, hi) && c.permutation == OrderOf(dims) && Ends(c.dims, lo, hi)
  {
    hide IsCanonical, NothingIndexed, Regions, OrderOf, Ends;
    var perm;
    perm, lo, hi := Order(dims);
    c := Describe(dims, perm, lo, hi);
  }
}
