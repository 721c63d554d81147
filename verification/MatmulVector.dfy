/// The product of two tiles on the vector unit: multiply-adds into accumulators
/// whose lanes are skewed. The multiply-add is any function,
/// so only the order and the operands of the additions are claimed.
module MatmulVector {
  import opened VectorUnit

  type Mad = (Word, Word, Word) -> Word

  function MadVec(mad: Mad, x: Vec, r: Vec, c: Vec): (v: Vec)
    ensures forall h: nat, j: nat :: h < 4 && j < 8 ==>
      Lane(v, h, j) == mad(Lane(x, h, j), Lane(r, h, j), Lane(c, h, j))
  {
    seq(4, h requires 0 <= h < 4 => seq(8, j requires 0 <= j < 8 => mad(x[h][j], r[h][j], c[h][j])))
  }

  // ---- one k ----

  /// Row k of B for a column group, the same in all sub-rows.
  ghost predicate IsRow(b: Tile, k: nat, g: nat, x: Vec)
    requires k < 32 && g < 4
  {
    forall h: nat, j: nat :: h < 4 && j < 8 ==> Lane(x, h, j) == At(b, k, Col(g, j))
  }

  method LoadX(b: Tile, k: nat, g: nat, l: Four) returns (x: Vec)
    requires k < 32 && g < 4
    ensures IsRow(b, k, g, x)
  {
    hide Slot, GroupOf, PlaceOf, Col, Lane;
    var subRow := k % 4;
    var regs: Four := l[0 := b[Slot(k, g)]];
    if subRow != 0 {
      regs := Transposed(regs);
      regs := regs[0 := regs[subRow]];
    }
    x := Broadcast(regs[0]);
    forall h: nat, j: nat | h < 4 && j < 8 ensures Lane(x, h, j) == At(b, k, Col(g, j)) { AtGroup(b, k, g, j); }
  }

  /// One column of A spread over the lanes and rotated by s, read as a row of A transposed.
  ghost predicate IsColumn(at: Tile, k: nat, s: nat, r: Vec)
    requires k < 32 && s < 8
  {
    forall h: nat, j: nat :: h < 4 && j < 8 ==> Lane(r, h, j) == At(at, k, Col(h, Back(j, s)))
  }

  method LoadR(at: Tile, k: nat) returns (r: Vec)
    requires k < 32
    ensures IsColumn(at, k, 0, r)
  {
    hide Slot, GroupOf, PlaceOf, Col, Lane;
    var regs := Transposed([at[Slot(k, 0)], at[Slot(k, 1)], at[Slot(k, 2)], at[Slot(k, 3)]]);
    r := regs[k % 4];
    forall h: nat, j: nat | h < 4 && j < 8
      ensures Lane(r, h, j) == At(at, k, Col(h, Back(j, 0)))
    {
      AtGroup(at, k, h, j);
    }
  }

  method Rotate(at: Tile, k: nat, s: nat, r: Vec) returns (rotated: Vec)
    requires k < 32 && s < 8 && IsColumn(at, k, s, r)
    ensures s < 7 ==> IsColumn(at, k, s + 1, rotated)
  {
    hide At, Col, Lane;
    rotated := RotatedOnce(r);
    if s < 7 {
      forall h: nat, j: nat | h < 4 && j < 8 ensures Lane(rotated, h, j) == At(at, k, Col(h, Back(j, s + 1))) {
        assert Back(Back(j, 1), s) == Back(j, s + 1);
      }
    }
  }

  /// The accumulator of group g at rotation s.
  function Acc(g: nat, s: nat): (n: nat)
    requires g < 4 && s < 8
    ensures n < 32
  {
    8 * g + s
  }

  lemma AccApart(g: nat, s: nat, i: nat, t: nat)
    requires g < 4 && s < 8 && i < 4 && t < 8
    ensures Acc(g, s) == Acc(i, t) <==> g == i && s == t
  {}

  /// One rotation: the four groups' accumulators take the term of the rotated column.
  method Rotation(mad: Mad, x: Four, r: Vec, s: nat, acc: Tile) returns (acc': Tile)
    requires s < 8
    ensures forall g: nat, t: nat :: g < 4 && t < 8 ==>
      acc'[Acc(g, t)] == if t == s then MadVec(mad, x[g], r, acc[Acc(g, t)]) else acc[Acc(g, t)]
  {
    hide MadVec, Acc;
    acc' := acc;
    var g := 0;
    while g < 4
      invariant 0 <= g <= 4
      invariant forall i: nat, t: nat :: i < 4 && t < 8 ==>
        acc'[Acc(i, t)] == if t == s && i < g then MadVec(mad, x[i], r, acc[Acc(i, t)]) else acc[Acc(i, t)]
    {
      ghost var before := acc';
      acc' := acc'[Acc(g, s) := MadVec(mad, x[g], r, acc'[Acc(g, s)])];
      forall i: nat, t: nat | i < 4 && t < 8
        ensures acc'[Acc(i, t)] == if i == g && t == s then MadVec(mad, x[g], r, before[Acc(g, s)])
          else before[Acc(i, t)]
      {
        AccApart(g, s, i, t);
      }
      g := g + 1;
    }
  }

  /// The accumulators after term k: each lane added its own product of A and B.
  ghost predicate Term(mad: Mad, at: Tile, b: Tile, k: nat, g: nat, s: nat, before: Vec, after: Vec)
    requires k < 32 && g < 4 && s < 8
  {
    forall h: nat, j: nat :: h < 4 && j < 8 ==>
      Lane(after, h, j) == mad(At(b, k, Col(g, j)), At(at, k, Col(h, Back(j, s))), Lane(before, h, j))
  }

  /// One k: every accumulator takes its term.
  method MatmulK(mad: Mad, at: Tile, b: Tile, k: nat, acc: Tile) returns (acc': Tile)
    requires k < 32
    ensures forall g: nat, s: nat :: g < 4 && s < 8 ==> Term(mad, at, b, k, g, s, acc[Acc(g, s)], acc'[Acc(g, s)])
  {
    hide At, Slot, Col, Lane, MadVec, Acc, IsRow, IsColumn, Term;
    var none := Fill(ZERO);
    var x: Four := [none, none, none, none];
    var g := 0;
    while g < 4
      invariant 0 <= g <= 4 && forall i: nat :: i < g ==> IsRow(b, k, i, x[i])
    {
      var row := LoadX(b, k, g, [none, none, none, none]);
      x := x[g := row];
      g := g + 1;
    }
    var r := LoadR(at, k);
    acc' := acc;
    var s := 0;
    while s < 8
      invariant 0 <= s <= 8 && (s < 8 ==> IsColumn(at, k, s, r))
      invariant forall g: nat, t: nat :: g < 4 && s <= t < 8 ==> acc'[Acc(g, t)] == acc[Acc(g, t)]
      invariant forall g: nat, t: nat :: g < 4 && t < s ==> Term(mad, at, b, k, g, t, acc[Acc(g, t)], acc'[Acc(g, t)])
    {
      ghost var before := acc';
      acc' := Rotation(mad, x, r, s, acc');
      forall g: nat | g < 4 ensures Term(mad, at, b, k, g, s, acc[Acc(g, s)], acc'[Acc(g, s)]) {
        assert IsRow(b, k, g, x[g]);
        TermTaken(mad, at, b, k, g, s, x[g], r, acc[Acc(g, s)]);
      }
      r := Rotate(at, k, s, r);
      s := s + 1;
    }
  }

  lemma TermTaken(mad: Mad, at: Tile, b: Tile, k: nat, g: nat, s: nat, x: Vec, r: Vec, c: Vec)
    requires k < 32 && g < 4 && s < 8 && IsRow(b, k, g, x) && IsColumn(at, k, s, r)
    ensures Term(mad, at, b, k, g, s, c, MadVec(mad, x, r, c))
  {
    hide At, Col, Lane, MadVec;
  }

  // ---- the accumulated product ----

  /// The left fold, in increasing k, of the multiply-adds of row r and column c.
  function Dot(mad: Mad, a: seq<Tile>, b: seq<Tile>, r: nat, c: nat, n: nat): Word
    requires |a| == |b| && n <= 32 * |a| && r < 32 && c < 32
  {
    if n == 0 then ZERO
    else mad(At(b[(n - 1) / 32], (n - 1) % 32, c), At(a[(n - 1) / 32], r, (n - 1) % 32), Dot(mad, a, b, r, c, n - 1))
  }

  /// Accumulator (g, s) holds, in lane (h, j), the sum so far for row col(h, j - s) and column col(g, j).
  ghost predicate SkewedAt(mad: Mad, a: seq<Tile>, b: seq<Tile>, n: nat, v: Vec, g: nat, s: nat)
    requires |a| == |b| && n <= 32 * |a| && g < 4 && s < 8
  {
    forall h: nat, j: nat :: h < 4 && j < 8 ==> Lane(v, h, j) == Dot(mad, a, b, Col(h, Back(j, s)), Col(g, j), n)
  }

  ghost predicate Skewed(mad: Mad, a: seq<Tile>, b: seq<Tile>, n: nat, acc: Tile)
    requires |a| == |b| && n <= 32 * |a|
  {
    forall g: nat, s: nat :: g < 4 && s < 8 ==> SkewedAt(mad, a, b, n, acc[Acc(g, s)], g, s)
  }

  ghost predicate IsTransposed(at: Tile, a: Tile) {
    forall r: nat, c: nat :: r < 32 && c < 32 ==> At(at, r, c) == At(a, c, r)
  }

  lemma TermAdded(mad: Mad, a: seq<Tile>, b: seq<Tile>, kt: nat, k: nat, at: Tile, g: nat, s: nat, before: Vec,
                  after: Vec)
    requires |a| == |b| && kt < |a| && k < 32 && g < 4 && s < 8 && IsTransposed(at, a[kt])
    requires SkewedAt(mad, a, b, 32 * kt + k, before, g, s) && Term(mad, at, b[kt], k, g, s, before, after)
    ensures SkewedAt(mad, a, b, 32 * kt + k + 1, after, g, s)
  {
    hide At, Col, Lane;
    assert (32 * kt + k) / 32 == kt && (32 * kt + k) % 32 == k;
  }

  lemma Cleared(mad: Mad, a: seq<Tile>, b: seq<Tile>, acc: Tile)
    requires |a| == |b| && forall n: nat :: n < 32 ==> acc[n] == Fill(ZERO)
    ensures Skewed(mad, a, b, 0, acc)
  {
    hide At, Col, Fill;
  }

  /// acc (+)= A * B, for the k tile that comes next.
  method CalculateMatmul(mad: Mad, accumulate: bool, at: Tile, b: Tile, acc: Tile, ghost rowA: seq<Tile>,
                         ghost colB: seq<Tile>, ghost kt: nat)
    returns (acc': Tile)
    requires |rowA| == |colB| && kt < |rowA| && IsTransposed(at, rowA[kt]) && b == colB[kt]
    requires if accumulate then Skewed(mad, rowA, colB, 32 * kt, acc) else kt == 0
    ensures Skewed(mad, rowA, colB, 32 * kt + 32, acc')
  {
    hide At, Col, Lane, Acc, Term, SkewedAt, IsTransposed, Fill;
    acc' := acc;
    if !accumulate {
      var n := 0;
      while n < 32
        invariant 0 <= n <= 32 && forall i: nat :: i < n ==> acc'[i] == Fill(ZERO)
      {
        acc' := acc'[n := Fill(ZERO)];
        n := n + 1;
      }
      Cleared(mad, rowA, colB, acc');
    }
    var k := 0;
    while k < 32
      invariant 0 <= k <= 32 && Skewed(mad, rowA, colB, 32 * kt + k, acc')
    {
      ghost var before := acc';
      acc' := MatmulK(mad, at, b, k, acc');
      forall g: nat, s: nat | g < 4 && s < 8 ensures SkewedAt(mad, rowA, colB, 32 * kt + k + 1, acc'[Acc(g, s)], g, s) {
        TermAdded(mad, rowA, colB, kt, k, at, g, s, before[Acc(g, s)], acc'[Acc(g, s)]);
      }
      k := k + 1;
    }
  }
}
