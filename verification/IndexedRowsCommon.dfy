/// What the row-move kernels share: decoding index words, addressing rows,
/// streaming index chunks and moving bytes within L1.
module IndexedRowsCommon {
  import opened RowMajor
  import opened IndexedRows
  import opened Words32

  function Signed(w: Word): int {
    if w < 0x8000_0000 then w else w - TWO_32
  }

  /// The integer an index word stands for.
  function IndexValue(unsigned: bool, w: Word): int {
    if unsigned then w else Signed(w)
  }

  /// A word read as signed is the integer in range that it is congruent to.
  lemma SignedIsTwosComplement(w: Word, i: int)
    requires -0x8000_0000 <= i < 0x8000_0000
    ensures i == IndexValue(false, w) <==> Wrap(i) == w
    ensures IndexValue(true, w) == w
  {
    if i < 0 { DivModUnique(i, TWO_32, -1, i + TWO_32); } else { DivModUnique(i, TWO_32, 0, i); }
  }

  function IndexValues(unsigned: bool, words: seq<Word>): (v: seq<int>)
    ensures |v| == |words|
  {
    seq(|words|, i requires 0 <= i < |words| => IndexValue(unsigned, words[i]))
  }

  predicate ExtentsFit(sizes: seq<nat>, windows: seq<nat>) {
    && |sizes| == |windows|
    && forall k :: 0 <= k < |sizes| ==> 1 <= windows[k] <= sizes[k] <= 0x8000_0000
  }

  /// Component k of the i-th streamed position can be read for every k below `components`.
  ghost predicate Readable(index: array<Word>, base: nat, stride: nat, components: nat, i: nat) {
    forall k :: 0 <= k < components ==> Component(base, stride, k, i) < index.Length
  }

  /// Decodes the first `components` coordinates of the i-th position, clamping each into the
  /// extent and reporting whether any of them needed it.
  method Decode(index: array<Word>, base: nat, stride: nat, i: nat, components: nat,
                sizes: seq<nat>, windows: seq<nat>, unsigned: bool)
    returns (c: seq<nat>, outOfBounds: bool)
    requires ExtentsFit(sizes, windows) && components <= |sizes|
    requires Readable(index, base, stride, components, i)
    ensures |c| == components
    ensures forall k :: 0 <= k < components ==>
      c[k] == Clamp(IndexValue(unsigned, index[Component(base, stride, k, i)]), sizes[k] - windows[k])
    ensures forall k :: 0 <= k < components ==>
      Nearest(IndexValue(unsigned, index[Component(base, stride, k, i)]), sizes[k] - windows[k], c[k])
    ensures !outOfBounds <==> forall k :: 0 <= k < components ==>
      0 <= IndexValue(unsigned, index[Component(base, stride, k, i)]) <= sizes[k] - windows[k]
  {
    hide Nearest;
    c, outOfBounds := [], false;
    var k := 0;
    while k < components
      invariant 0 <= k <= components && |c| == k
      invariant forall d :: 0 <= d < k ==>
        c[d] == Clamp(IndexValue(unsigned, index[Component(base, stride, d, i)]), sizes[d] - windows[d])
      invariant forall d :: 0 <= d < k ==>
        Nearest(IndexValue(unsigned, index[Component(base, stride, d, i)]), sizes[d] - windows[d], c[d])
      invariant !outOfBounds <==> forall d :: 0 <= d < k ==>
        0 <= IndexValue(unsigned, index[Component(base, stride, d, i)]) <= sizes[d] - windows[d]
    {
      var raw := index[Component(base, stride, k, i)];
      var hi := sizes[k] - windows[k];
      var coordinate: nat;
      if unsigned {
        coordinate := if raw > hi then hi else raw;
        outOfBounds := outOfBounds || raw > hi;
      } else {
        var v := Signed(raw);
        coordinate := if v < 0 then 0 else if v > hi then hi else v;
        outOfBounds := outOfBounds || v != coordinate;
      }
      ClampIsNearest(IndexValue(unsigned, raw), hi);
      c := c + [coordinate];
      k := k + 1;
    }
  }

  /// The rows between consecutive positions of each row component.
  method RowStrides(sizes: seq<nat>, rowComponents: nat) returns (strides: seq<nat>)
    requires rowComponents <= |sizes|
    ensures IsRowStrides(sizes, rowComponents, strides)
  {
    strides := seq(|sizes|, _ => 0);
    var stride := 1;
    var k := rowComponents;
    while k > 0
      invariant 0 <= k <= rowComponents && |strides| == |sizes|
      invariant stride == Product(sizes[k..rowComponents])
      invariant forall i :: k <= i < rowComponents ==> strides[i] == Product(sizes[i + 1..rowComponents])
    {
      k := k - 1;
      strides := strides[k := stride];
      assert sizes[k..rowComponents][1..] == sizes[k + 1..rowComponents];
      stride := sizes[k] * stride;
    }
  }

  ghost predicate IsRowStrides(sizes: seq<nat>, rowComponents: nat, strides: seq<nat>)
    requires rowComponents <= |sizes|
  {
    && |strides| == |sizes|
    && forall i :: 0 <= i < rowComponents ==> strides[i] == Product(sizes[i + 1..rowComponents])
  }

  lemma FlattenLast(shape: seq<nat>, index: seq<nat>, k: nat)
    requires InShape(shape, index) && k < |shape|
    ensures Flatten(shape[..k + 1], index[..k + 1]) == Flatten(shape[..k], index[..k]) * shape[k] + index[k]
  {
    assert shape[..k + 1] == shape[..k] + [shape[k]];
    assert index[..k + 1] == index[..k] + [index[k]];
    FlattenConcat(shape[..k], [shape[k]], index[..k], [index[k]]);
    assert Product([shape[k]]) == shape[k] * Product([]);
  }

  lemma FlattenFirst(shape: seq<nat>, index: seq<nat>, k: nat)
    requires InShape(shape, index) && k < |shape|
    ensures Flatten(shape[k..], index[k..]) == index[k] * Product(shape[k + 1..])
      + Flatten(shape[k + 1..], index[k + 1..])
  {
    assert shape[k..][1..] == shape[k + 1..];
    assert index[k..][1..] == index[k + 1..];
  }

  /// One step of WindowRowOf: the last remaining digit of j, and its share of the row.
  lemma WindowDigit(g: Geometry, coords: seq<nat>, j: nat, strides: seq<nat>, k: nat)
    requires g.Valid() && FitsRows(g, coords) && j < g.W() && k < g.KR()
    requires IsRowStrides(g.sizes, g.KR(), strides)
    ensures LeftOver(g, j, k + 1) / g.windows[k] == LeftOver(g, j, k)
    ensures RowFrom(g, coords, j, k)
         == (coords[k] + LeftOver(g, j, k + 1) % g.windows[k]) * strides[k] + RowFrom(g, coords, j, k + 1)
  {
    UnflattenInShape(g.RowWindows(), j);
    var offsets, index := Unflatten(g.RowWindows(), j), RowIndex(g, coords, j);
    FlattenLast(g.RowWindows(), offsets, k);
    DivModUnique(LeftOver(g, j, k + 1), g.windows[k], LeftOver(g, j, k), offsets[k]);
    FlattenFirst(g.RowSizes(), index, k);
    assert g.RowSizes()[k + 1..] == g.sizes[k + 1..g.KR()];
    assert index[k] == coords[k] + offsets[k];
  }

  /// j without its digits from k on.
  ghost function LeftOver(g: Geometry, j: nat, k: nat): nat
    requires g.Valid() && j < g.W() && k <= g.KR()
  {
    UnflattenInShape(g.RowWindows(), j);
    Flatten(g.RowWindows()[..k], Unflatten(g.RowWindows(), j)[..k])
  }

  /// The row components' share, from k on, of window row j.
  ghost function RowFrom(g: Geometry, coords: seq<nat>, j: nat, k: nat): nat
    requires g.Valid() && FitsRows(g, coords) && j < g.W() && k <= g.KR()
  {
    Flatten(g.RowSizes()[k..], RowIndex(g, coords, j)[k..])
  }

  lemma WindowEnds(g: Geometry, coords: seq<nat>, j: nat)
    requires g.Valid() && FitsRows(g, coords) && j < g.W()
    ensures LeftOver(g, j, g.KR()) == j
    ensures RowFrom(g, coords, j, g.KR()) == 0
    ensures RowFrom(g, coords, j, 0) == Row(g, coords, j)
  {
    FlattenUnflatten(g.RowWindows(), j);
    var offsets, index := Unflatten(g.RowWindows(), j), RowIndex(g, coords, j);
    assert g.RowWindows()[..g.KR()] == g.RowWindows() && offsets[..g.KR()] == offsets;
    assert g.RowSizes()[0..] == g.RowSizes() && index[0..] == index;
  }

  /// The table row that offset j of a position's window is, digit by digit of j.
  method WindowRowOf(g: Geometry, coords: seq<nat>, j: nat, strides: seq<nat>) returns (row: nat)
    requires g.Valid() && FitsRows(g, coords) && j < g.W()
    requires IsRowStrides(g.sizes, g.KR(), strides)
    ensures row == Row(g, coords, j)
  {
    WindowEnds(g, coords, j);
    row := 0;
    var left: nat := j;
    var k := g.KR();
    while k > 0
      invariant 0 <= k <= g.KR()
      invariant left == LeftOver(g, j, k) && row == RowFrom(g, coords, j, k)
    {
      k := k - 1;
      WindowDigit(g, coords, j, strides, k);
      var offset := left % g.windows[k];
      var place := (coords[k] + offset) * strides[k];
      left := left / g.windows[k];
      row := row + place;
    }
  }

  /// Where component k of the i-th position of a streamed index chunk sits.
  function Component(base: nat, stride: nat, k: nat, i: nat): nat { base + i + k * stride }

  /// The streamed components of a batch's positions from m0 on, n of them.
  ghost predicate HoldsIndex(index: seq<Word>, base: nat, stride: nat, g: Geometry, words: seq<Word>, b: nat, m0: nat,
                             n: nat)
    requires g.Valid() && |words| == g.IndexElements() && b < g.B && m0 + n <= g.M
  {
    HoldsComponents(index, base, stride, g, words, b, m0, n, g.K())
  }

  ghost predicate HoldsComponents(index: seq<Word>, base: nat, stride: nat, g: Geometry, words: seq<Word>,
                                  b: nat, m0: nat, n: nat, components: nat)
    requires g.Valid() && |words| == g.IndexElements() && b < g.B && m0 + n <= g.M && components <= g.K()
  {
    forall k, i :: 0 <= k < components && 0 <= i < n ==> HoldsWord(index, base, stride, g, words, b, m0, k, i)
  }

  /// Every component of the i-th position.
  ghost predicate HoldsPosition(index: seq<Word>, base: nat, stride: nat, g: Geometry, words: seq<Word>,
                                b: nat, m0: nat, i: nat)
    requires g.Valid() && |words| == g.IndexElements() && b < g.B && m0 + i < g.M
  {
    forall k :: 0 <= k < g.K() ==> HoldsWord(index, base, stride, g, words, b, m0, k, i)
  }

  ghost predicate HoldsWord(index: seq<Word>, base: nat, stride: nat, g: Geometry, words: seq<Word>,
                            b: nat, m0: nat, k: nat, i: nat)
    requires g.Valid() && |words| == g.IndexElements() && b < g.B && m0 + i < g.M && k < g.K()
  {
    && Component(base, stride, k, i) < |index|
    && index[Component(base, stride, k, i)] == words[g.IndexPlace(b, m0 + i, k)]
  }

  /// Position m0 + i of a streamed chunk, decoded.
  method DecodePosition(g: Geometry, words: seq<Word>, unsigned: bool, index: array<Word>, base: nat, stride: nat,
                        ghost b: nat, ghost m0: nat, i: nat, components: nat)
    returns (coords: seq<nat>, outOfBounds: bool)
    requires g.Valid() && ExtentsFit(g.sizes, g.windows) && |words| == g.IndexElements()
    requires b < g.B && m0 + i < g.M && components <= g.K()
    requires HoldsPosition(index[..], base, stride, g, words, b, m0, i)
    ensures coords == Coords(g, IndexValues(unsigned, words), b, m0 + i)[..components]
    ensures outOfBounds == !ComponentsFit(g, IndexValues(unsigned, words), b, m0 + i, components)
  {
    hide Geometry.IndexElements;
    forall k | 0 <= k < components
      ensures Component(base, stride, k, i) < index.Length
      ensures IndexValue(unsigned, index[Component(base, stride, k, i)])
           == IndexAt(g, IndexValues(unsigned, words), b, m0 + i, k)
    {
      assert HoldsWord(index[..], base, stride, g, words, b, m0, k, i);
    }
    coords, outOfBounds := Decode(index, base, stride, i, components, g.sizes, g.windows, unsigned);
  }

  /// A contiguous NoC read from DRAM.
  method ReadDram<T>(into: array<T>, at: nat, dram: seq<T>, from: nat, n: nat)
    requires at + n <= into.Length && from + n <= |dram|
    modifies into
    ensures into[..] == ApplySlice(old(into[..]), at, dram, from, n, Overwrite)
    ensures into[at..at + n] == dram[from..from + n]
  {
    var i := 0;
    while i < n
      invariant 0 <= i <= n
      invariant forall x :: at <= x < at + i ==> into[x] == dram[from + (x - at)]
      invariant forall x :: 0 <= x < into.Length && !(at <= x < at + i) ==> into[x] == old(into[x])
    {
      into[at + i] := dram[from + i];
      i := i + 1;
    }
  }

  /// A contiguous NoC write to DRAM.
  method WriteDram<T>(output: array<T>, at: nat, l1: array<T>, from: nat, n: nat)
    requires l1 != output && at + n <= output.Length && from + n <= l1.Length
    modifies output
    ensures output[..] == ApplySlice(old(output[..]), at, l1[..], from, n, Overwrite)
  {
    var i := 0;
    while i < n
      invariant 0 <= i <= n
      invariant forall x :: at <= x < at + i ==> output[x] == l1[from + (x - at)]
      invariant forall x :: 0 <= x < output.Length && !(at <= x < at + i) ==> output[x] == old(output[x])
    {
      output[at + i] := l1[from + i];
      i := i + 1;
    }
  }

  /// A read lands as far into 16 words as it started.
  const GRANULE_WORDS := 16

  lemma ComponentBound(base: nat, n: nat, stride: nat, k: nat, components: nat)
    requires base + n <= stride && k < components
    ensures Component(base, stride, k, 0) + n <= components * stride
  {
    MulStrict(k, components, stride);
  }

  lemma ComponentsApart(base: nat, n: nat, stride: nat, k: nat, i: nat, k': nat)
    requires base + n <= stride && i < n && k < k'
    ensures Component(base, stride, k, i) < Component(base, stride, k', 0)
  {
    MulStrict(k, k', stride);
  }

  /// One component's words, in one NoC read.
  method ReadComponent(index: array<Word>, at: nat, words: seq<Word>, from: nat, n: nat)
    requires at + n <= index.Length && from + n <= |words|
    modifies index
    ensures forall x :: at <= x < at + n ==> index[x] == words[from + (x - at)]
    ensures forall x :: 0 <= x < index.Length && !(at <= x < at + n) ==> index[x] == old(index[x])
  {
    var i := 0;
    while i < n
      invariant 0 <= i <= n
      invariant forall x :: at <= x < at + i ==> index[x] == words[from + (x - at)]
      invariant forall x :: 0 <= x < index.Length && !(at <= x < at + i) ==> index[x] == old(index[x])
    {
      index[at + i] := words[from + i];
      i := i + 1;
    }
  }

  lemma ComponentRun(g: Geometry, b: nat, m0: nat, n: nat, k: nat)
    requires g.Valid() && b < g.B && m0 + n <= g.M && 0 < n && k < g.K()
    ensures g.IndexPlace(b, m0, k) + n <= g.IndexElements()
    ensures forall m :: m0 <= m < m0 + n ==> g.IndexPlace(b, m, k) == g.IndexPlace(b, m0, k) + (m - m0)
  {
    assert g.IndexPlace(b, m0 + (n - 1), k) == g.IndexPlace(b, m0, k) + (n - 1);
  }

  /// Streams positions [m0, m0 + n) of one index batch into L1, one read per component.
  method StreamIndex(index: array<Word>, stride: nat, g: Geometry, words: seq<Word>, b: nat, m0: nat, n: nat)
    returns (base: nat)
    requires g.Valid() && |words| == g.IndexElements() && b < g.B && m0 + n <= g.M && 0 < n
    requires n + GRANULE_WORDS <= stride && g.K() * stride <= index.Length
    modifies index
    ensures base == m0 % GRANULE_WORDS
    ensures HoldsIndex(index[..], base, stride, g, words, b, m0, n)
  {
    base := m0 % GRANULE_WORDS;
    var k := 0;
    while k < g.K()
      invariant 0 <= k <= g.K()
      invariant HoldsComponents(index[..], base, stride, g, words, b, m0, n, k)
    {
      ComponentBound(base, n, stride, k, g.K());
      ComponentRun(g, b, m0, n, k);
      ghost var before := index[..];
      ReadComponent(index, base + k * stride, words, g.IndexPlace(b, m0, k), n);
      forall c, i | 0 <= c < k + 1 && 0 <= i < n ensures HoldsWord(index[..], base, stride, g, words, b, m0, c, i) {
        if c < k {
          assert HoldsWord(before, base, stride, g, words, b, m0, c, i);
          ComponentsApart(base, n, stride, c, i, k);
        }
      }
      k := k + 1;
    }
  }

  /// Moves `count` elements from `from` to `to`, whichever way they overlap.
  method Realign<T>(buffer: array<T>, base: nat, from: nat, to: nat, count: nat)
    requires base + from + count <= buffer.Length && base + to + count <= buffer.Length
    modifies buffer
    ensures buffer[base + to..base + to + count] == old(buffer[base + from..base + from + count])
    ensures forall x :: 0 <= x < buffer.Length && !(base + to <= x < base + to + count) ==> buffer[x] == old(buffer[x])
  {
    if from == to { return; }
    if to < from {
      var i := 0;
      while i < count
        invariant 0 <= i <= count
        invariant forall x :: base + to <= x < base + to + i ==> buffer[x] == old(buffer[x - to + from])
        invariant forall x :: 0 <= x < buffer.Length && !(base + to <= x < base + to + i) ==>
          buffer[x] == old(buffer[x])
      {
        buffer[base + to + i] := buffer[base + from + i];
        i := i + 1;
      }
    } else {
      var i := count;
      while i > 0
        invariant 0 <= i <= count
        invariant forall x :: base + to + i <= x < base + to + count ==> buffer[x] == old(buffer[x - to + from])
        invariant forall x :: 0 <= x < buffer.Length && !(base + to + i <= x < base + to + count) ==>
          buffer[x] == old(buffer[x])
      {
        i := i - 1;
        buffer[base + to + i] := buffer[base + from + i];
      }
    }
  }
}
