/** The phases of observation rendering, on arrays as the engine does them: cutting the
    view out of the grid, quarter turns by deep copy, the two-sweep visibility mask,
    hiding what is not visible, and writing the transposed observation. */
module Render {
  import opened Objects
  import opened View

  /** The contents of a two-dimensional array as a sequence of rows. */
  ghost function Snapshot<T>(a: array2<T>): (s: seq<seq<T>>)
    reads a
    ensures IsMatrix(s, a.Length0) || a.Length0 != a.Length1
    ensures |s| == a.Length0 && forall i :: 0 <= i < a.Length0 ==> |s[i]| == a.Length1
    ensures forall i, j :: 0 <= i < a.Length0 && 0 <= j < a.Length1 ==> s[i][j] == a[i, j]
  {
    seq(a.Length0, i requires 0 <= i < a.Length0 reads a =>
      seq(a.Length1, j requires 0 <= j < a.Length1 reads a => a[i, j]))
  }

  lemma MatrixEq<T>(s: seq<seq<T>>, t: seq<seq<T>>, n: int)
    requires IsMatrix(s, n) && IsMatrix(t, n)
    requires forall i, j :: 0 <= i < n && 0 <= j < n ==> s[i][j] == t[i][j]
    ensures s == t
  {
    forall i | 0 <= i < n
      ensures s[i] == t[i]
    {
      assert forall j :: 0 <= j < n ==> s[i][j] == t[i][j];
    }
  }

  // ---------------------------------------------------------------------------
  // Extraction and rotation

  /** Cuts the n-by-n square with top-left absolute cell `top` out of a grid of the
      given width and height, reading only each cell's type; cells outside are walls. */
  method ExtractView(grid: array2<Obj>, width: int, height: int, top: (int, int), n: nat)
    returns (view: array2<Obj>)
    requires grid.Length0 == height && grid.Length1 == width
    ensures fresh(view) && view.Length0 == n && view.Length1 == n
    ensures Snapshot(view) == Extract(Snapshot(grid), top, n)
  {
    view := new Obj[n, n]((i, j) => Plain(Empty));
    ghost var g := Snapshot(grid);
    for i := 0 to n
      invariant forall a, b :: 0 <= a < i && 0 <= b < n ==> view[a, b] == Sighted(g, top.0 + b, top.1 + a)
    {
      ExtractRow(grid, width, height, top, view, i, g);
    }
    MatrixEq(Snapshot(view), Extract(g, top, n), n);
  }

  /** Fills row i of the view from the grid, leaving the other rows as they are. */
  method ExtractRow(grid: array2<Obj>, width: int, height: int, top: (int, int), view: array2<Obj>,
                    i: int, ghost g: seq<seq<Obj>>)
    requires grid.Length0 == height && grid.Length1 == width && g == Snapshot(grid)
    requires view != grid && view.Length0 == view.Length1 && 0 <= i < view.Length0
    modifies view
    ensures forall a, b :: 0 <= a < view.Length0 && 0 <= b < view.Length0 ==>
      view[a, b] == if a == i then Sighted(g, top.0 + b, top.1 + a) else old(view[a, b])
  {
    for j := 0 to view.Length0
      invariant forall a, b :: 0 <= a < view.Length0 && 0 <= b < view.Length0 ==>
        view[a, b] == if a == i && b < j then Sighted(g, top.0 + b, top.1 + a) else old(view[a, b])
    {
      var x, y := top.0 + j, top.1 + i;
      if x >= 0 && x < width && y >= 0 && y < height {
        assert g[y][x] == grid[y, x];
        view[i, j] := Plain(grid[y, x].kind);
      } else {
        view[i, j] := Plain(Wall);
      }
    }
  }

  /** One counter-clockwise quarter turn into a fresh copy: copy[n-1-x][y] := v[y][x]. */
  method RotateView(v: array2<Obj>) returns (r: array2<Obj>)
    requires v.Length0 == v.Length1
    ensures fresh(r) && r.Length0 == v.Length0 && r.Length1 == v.Length0
    ensures Snapshot(r) == Rotate(Snapshot(v))
  {
    var n := v.Length0;
    // the deep copy
    r := new Obj[n, n]((i, j) reads v => if 0 <= i < n && 0 <= j < n then v[i, j] else Plain(Empty));
    for y := 0 to n
      invariant forall yy, x :: 0 <= yy < y && 0 <= x < n ==> r[n - 1 - x, yy] == v[yy, x]
    {
      for x := 0 to n
        invariant forall yy, xx :: 0 <= yy < y && 0 <= xx < n ==> r[n - 1 - xx, yy] == v[yy, xx]
        invariant forall xx :: 0 <= xx < x ==> r[n - 1 - xx, y] == v[y, xx]
      {
        r[n - 1 - x, y] := v[y, x];
      }
    }
    ghost var g := Snapshot(v);
    forall a, b | 0 <= a < n && 0 <= b < n
      ensures Snapshot(r)[a][b] == Rotate(g)[a][b]
    {
      assert r[n - 1 - (n - 1 - a), b] == v[b, n - 1 - a];
    }
    MatrixEq(Snapshot(r), Rotate(g), n);
  }

  // ---------------------------------------------------------------------------
  // Visibility sweeps: proof state

  /** The cells that can be made visible when `src` is processed by a sweep. */
  predicate Target(src: (int, int), p: (int, int)) {
    (p.0 == src.0 && (p.1 == src.1 + 1 || p.1 == src.1 - 1)) ||
    (p.0 == src.0 - 1 && (p.1 == src.1 - 1 || p.1 == src.1 || p.1 == src.1 + 1))
  }

  /** Every cell visible in `vis` is visible in `vis2`. */
  ghost predicate Grows(vis: seq<seq<bool>>, vis2: seq<seq<bool>>, n: int) {
    IsMatrix(vis, n) && IsMatrix(vis2, n) &&
    forall a, b :: 0 <= a < n && 0 <= b < n && vis[a][b] ==> vis2[a][b]
  }

  /** Ranks after a step at time t: cells that turned visible get t. */
  ghost function Stamp(rank: seq<seq<nat>>, vis: seq<seq<bool>>, vis2: seq<seq<bool>>, t: nat, n: int): (r: seq<seq<nat>>)
    requires IsMatrix(rank, n) && IsMatrix(vis, n) && IsMatrix(vis2, n)
    ensures IsMatrix(r, n)
    ensures forall a, b :: 0 <= a < n && 0 <= b < n ==> r[a][b] == if !vis[a][b] && vis2[a][b] then t else rank[a][b]
  {
    seq(n, a requires 0 <= a < n => seq(n, b requires 0 <= b < n =>
      if !vis[a][b] && vis2[a][b] then t else rank[a][b]))
  }

  /** The sweeps' running invariant: the agent's cell is visible, every visible cell got
      its rank before time t, and every other visible cell is justified. */
  ghost predicate Sound(view: seq<seq<Obj>>, vis: seq<seq<bool>>, rank: seq<seq<nat>>, t: nat) {
    var n := |view|;
    n >= 1 && IsSquare(view) && IsMatrix(vis, n) && IsMatrix(rank, n) && vis[n - 1][n / 2] &&
    (forall a, b :: 0 <= a < n && 0 <= b < n && vis[a][b] ==> rank[a][b] < t) &&
    (forall a, b {:trigger Justified(view, vis, rank, a, b)} ::
      0 <= a < n && 0 <= b < n && vis[a][b] && (a, b) != (n - 1, n / 2) ==> Justified(view, vis, rank, a, b))
  }

  /** Processing a visible cell that lets light through keeps the invariant, whatever
      set of its targets it marks. */
  lemma StepSound(view: seq<seq<Obj>>, vis: seq<seq<bool>>, rank: seq<seq<nat>>, t: nat,
                  src: (int, int), vis2: seq<seq<bool>>)
    requires Sound(view, vis, rank, t) && Clear(view, vis, src.0, src.1)
    requires Grows(vis, vis2, |view|)
    requires forall a, b :: 0 <= a < |view| && 0 <= b < |view| && vis2[a][b] && !vis[a][b] ==> Target(src, (a, b))
    ensures Sound(view, vis2, Stamp(rank, vis, vis2, t, |view|), t + 1)
  {
    StampRanks(vis, vis2, rank, t, |view|);
    StepJustified(view, vis, rank, t, src, vis2);
  }

  /** The justification half of StepSound. */
  lemma StepJustified(view: seq<seq<Obj>>, vis: seq<seq<bool>>, rank: seq<seq<nat>>, t: nat,
                      src: (int, int), vis2: seq<seq<bool>>)
    requires Sound(view, vis, rank, t) && Clear(view, vis, src.0, src.1)
    requires Grows(vis, vis2, |view|)
    requires forall a, b :: 0 <= a < |view| && 0 <= b < |view| && vis2[a][b] && !vis[a][b] ==> Target(src, (a, b))
    ensures forall a, b {:trigger Justified(view, vis2, Stamp(rank, vis, vis2, t, |view|), a, b)} ::
      0 <= a < |view| && 0 <= b < |view| && vis2[a][b] && (a, b) != (|view| - 1, |view| / 2) ==>
      Justified(view, vis2, Stamp(rank, vis, vis2, t, |view|), a, b)
  {
    forall a, b | 0 <= a < |view| && 0 <= b < |view| && vis2[a][b] && (a, b) != (|view| - 1, |view| / 2)
      ensures Justified(view, vis2, Stamp(rank, vis, vis2, t, |view|), a, b)
    {
      StepCell(view, vis, rank, t, src, vis2, a, b);
    }
  }

  /** Stamping at time t keeps every visible cell's rank below t + 1. */
  lemma StampRanks(vis: seq<seq<bool>>, vis2: seq<seq<bool>>, rank: seq<seq<nat>>, t: nat, n: int)
    requires IsMatrix(rank, n) && Grows(vis, vis2, n)
    requires forall a, b :: 0 <= a < n && 0 <= b < n && vis[a][b] ==> rank[a][b] < t
    ensures forall a, b :: 0 <= a < n && 0 <= b < n && vis2[a][b] ==> Stamp(rank, vis, vis2, t, n)[a][b] < t + 1
  {
  }

  /** One cell of StepSound: a cell visible after the step is justified by the new ranks. */
  lemma StepCell(view: seq<seq<Obj>>, vis: seq<seq<bool>>, rank: seq<seq<nat>>, t: nat,
                 src: (int, int), vis2: seq<seq<bool>>, a: int, b: int)
    requires Sound(view, vis, rank, t) && Clear(view, vis, src.0, src.1)
    requires Grows(vis, vis2, |view|)
    requires forall a, b :: 0 <= a < |view| && 0 <= b < |view| && vis2[a][b] && !vis[a][b] ==> Target(src, (a, b))
    requires 0 <= a < |view| && 0 <= b < |view| && vis2[a][b] && (a, b) != (|view| - 1, |view| / 2)
    ensures Justified(view, vis2, Stamp(rank, vis, vis2, t, |view|), a, b)
  {
    var rank2 := Stamp(rank, vis, vis2, t, |view|);
    if vis[a][b] {
      assert Justified(view, vis, rank, a, b);
      JustifiedKept(view, vis, rank, vis2, rank2, a, b);
    } else {
      NewlyLit(view, vis, rank, t, src, vis2, rank2, a, b);
    }
  }

  /** A justification survives growing the mask when the ranks of visible cells stay. */
  lemma JustifiedKept(view: seq<seq<Obj>>, vis: seq<seq<bool>>, rank: seq<seq<nat>>,
                      vis2: seq<seq<bool>>, rank2: seq<seq<nat>>, a: int, b: int)
    requires IsSquare(view) && IsMatrix(rank, |view|) && IsMatrix(rank2, |view|) && Grows(vis, vis2, |view|)
    requires forall i, j :: 0 <= i < |view| && 0 <= j < |view| && vis[i][j] ==> rank2[i][j] == rank[i][j]
    requires 0 <= a < |view| && 0 <= b < |view| && vis[a][b] && Justified(view, vis, rank, a, b)
    ensures Justified(view, vis2, rank2, a, b)
  {
    var r := rank[a][b];
    if LitBefore(view, vis, rank, a, b - 1, r) {
      assert LitBefore(view, vis2, rank2, a, b - 1, r);
    } else if LitBefore(view, vis, rank, a, b + 1, r) {
      assert LitBefore(view, vis2, rank2, a, b + 1, r);
    } else if LitBefore(view, vis, rank, a + 1, b - 1, r) {
      assert LitBefore(view, vis2, rank2, a + 1, b - 1, r);
    } else if LitBefore(view, vis, rank, a + 1, b, r) {
      assert LitBefore(view, vis2, rank2, a + 1, b, r);
    } else {
      assert LitBefore(view, vis2, rank2, a + 1, b + 1, r);
    }
  }

  /** A cell the step at time t turned visible is justified by the processed cell. */
  lemma NewlyLit(view: seq<seq<Obj>>, vis: seq<seq<bool>>, rank: seq<seq<nat>>, t: nat, src: (int, int),
                 vis2: seq<seq<bool>>, rank2: seq<seq<nat>>, a: int, b: int)
    requires Sound(view, vis, rank, t) && Clear(view, vis, src.0, src.1) && Grows(vis, vis2, |view|)
    requires rank2 == Stamp(rank, vis, vis2, t, |view|)
    requires 0 <= a < |view| && 0 <= b < |view| && vis2[a][b] && !vis[a][b] && Target(src, (a, b))
    ensures Justified(view, vis2, rank2, a, b)
  {
    assert rank2[a][b] == t;
    assert rank2[src.0][src.1] == rank[src.0][src.1] < t;
    assert LitBefore(view, vis2, rank2, src.0, src.1, t);
  }

  /** Cell (a, b) has done its left-to-right work: when it lets light through, its right
      neighbour and the two cells above them are visible. */
  predicate RightDone(view: seq<seq<Obj>>, vis: seq<seq<bool>>, a: int, b: int)
    requires IsSquare(view) && IsMatrix(vis, |view|)
    requires 0 <= a < |view| && 0 <= b < |view| - 1
  {
    Clear(view, vis, a, b) ==> vis[a][b + 1] && (a > 0 ==> vis[a - 1][b] && vis[a - 1][b + 1])
  }

  /** Cell (a, b) has done its right-to-left work: when it lets light through, its left
      neighbour and the two cells above them are visible. */
  predicate LeftDone(view: seq<seq<Obj>>, vis: seq<seq<bool>>, a: int, b: int)
    requires IsSquare(view) && IsMatrix(vis, |view|)
    requires 0 <= a < |view| && 1 <= b < |view|
  {
    Clear(view, vis, a, b) ==> vis[a][b - 1] && (a > 0 ==> vis[a - 1][b - 1] && vis[a - 1][b])
  }

  /** Rows j and below are closed under propagation. */
  ghost predicate RowsClosedFrom(view: seq<seq<Obj>>, vis: seq<seq<bool>>, j: int)
    requires IsSquare(view) && IsMatrix(vis, |view|)
  {
    forall a, b {:trigger ClosedAt(view, vis, a, b)} ::
      0 <= a < |view| && j <= a && 0 <= b < |view| ==> ClosedAt(view, vis, a, b)
  }

  /** A row whose cells have done both sweeps' work is closed. */
  lemma RowClosed(view: seq<seq<Obj>>, vis: seq<seq<bool>>, j: int)
    requires IsSquare(view) && IsMatrix(vis, |view|) && 0 <= j < |view|
    requires forall b :: 0 <= b < |view| - 1 ==> RightDone(view, vis, j, b)
    requires forall b :: 1 <= b < |view| ==> LeftDone(view, vis, j, b)
    requires RowsClosedFrom(view, vis, j + 1)
    ensures RowsClosedFrom(view, vis, j)
  {
    var n := |view|;
    forall a, b | 0 <= a < n && j <= a && 0 <= b < n
      ensures ClosedAt(view, vis, a, b)
    {
      if a == j {
        if b < n - 1 { assert RightDone(view, vis, j, b); }
        if b >= 1 { assert LeftDone(view, vis, j, b); }
      }
    }
  }

  /** The matrix with cell (a, b) set to v. */
  ghost function Set2<T>(m: seq<seq<T>>, a: int, b: int, v: T): (m2: seq<seq<T>>)
    requires 0 <= a < |m| && 0 <= b < |m[a]|
    ensures |m2| == |m| && forall i :: 0 <= i < |m| ==> |m2[i]| == |m[i]|
    ensures forall i, k :: 0 <= i < |m| && 0 <= k < |m[i]| ==> m2[i][k] == if (i, k) == (a, b) then v else m[i][k]
  {
    m[a := m[a][b := v]]
  }

  /** What processing cell (j, i) left to right marks: the cell to its right and, below
      the top row, the cells above both. */
  ghost function MarkRight(vis: seq<seq<bool>>, n: int, j: int, i: int): (vis2: seq<seq<bool>>)
    requires IsMatrix(vis, n) && 0 <= j < n && 0 <= i < n - 1
    ensures IsMatrix(vis2, n)
    ensures forall a, b :: 0 <= a < n && 0 <= b < n ==>
      vis2[a][b] == (vis[a][b] || (a, b) == (j, i + 1) || (j > 0 && a == j - 1 && (b == i || b == i + 1)))
  {
    var v1 := Set2(vis, j, i + 1, true);
    if j > 0 then Set2(Set2(v1, j - 1, i + 1, true), j - 1, i, true) else v1
  }

  /** What processing cell (j, i) right to left marks: the cell to its left and, below
      the top row, the cells above both. */
  ghost function MarkLeft(vis: seq<seq<bool>>, n: int, j: int, i: int): (vis2: seq<seq<bool>>)
    requires IsMatrix(vis, n) && 0 <= j < n && 1 <= i < n
    ensures IsMatrix(vis2, n)
    ensures forall a, b :: 0 <= a < n && 0 <= b < n ==>
      vis2[a][b] == (vis[a][b] || (a, b) == (j, i - 1) || (j > 0 && a == j - 1 && (b == i - 1 || b == i)))
  {
    var v1 := Set2(vis, j, i - 1, true);
    if j > 0 then Set2(Set2(v1, j - 1, i - 1, true), j - 1, i, true) else v1
  }

  /** Growing a mask without touching rows j and below keeps those rows closed. */
  lemma GrowKeepsRowsClosed(view: seq<seq<Obj>>, vis: seq<seq<bool>>, vis2: seq<seq<bool>>, j: int)
    requires IsSquare(view) && Grows(vis, vis2, |view|) && RowsClosedFrom(view, vis, j)
    requires forall a, b :: 0 <= a < |view| && j <= a && 0 <= b < |view| ==> vis2[a][b] == vis[a][b]
    ensures RowsClosedFrom(view, vis2, j)
  {
    forall a, b | 0 <= a < |view| && j <= a && 0 <= b < |view|
      ensures ClosedAt(view, vis2, a, b)
    {
      assert ClosedAt(view, vis, a, b);
    }
  }

  /** One step of the left-to-right sweep keeps the invariants and finishes cell (j, i). */
  lemma RightStep(view: seq<seq<Obj>>, vis: seq<seq<bool>>, rank: seq<seq<nat>>, t: nat, j: int, i: int)
    requires Sound(view, vis, rank, t) && RowsClosedFrom(view, vis, j + 1)
    requires 0 <= j < |view| && 0 <= i < |view| - 1 && Clear(view, vis, j, i)
    requires forall b :: 0 <= b < i ==> RightDone(view, vis, j, b)
    ensures var vis2 := MarkRight(vis, |view|, j, i);
      Sound(view, vis2, Stamp(rank, vis, vis2, t, |view|), t + 1) &&
      RowsClosedFrom(view, vis2, j + 1) &&
      forall b :: 0 <= b <= i ==> RightDone(view, vis2, j, b)
  {
    var n := |view|;
    var vis2 := MarkRight(vis, n, j, i);
    assert Grows(vis, vis2, n);
    StepSound(view, vis, rank, t, (j, i), vis2);
    GrowKeepsRowsClosed(view, vis, vis2, j + 1);
    forall b | 0 <= b <= i
      ensures RightDone(view, vis2, j, b)
    {
      if b < i {
        assert RightDone(view, vis, j, b);
      }
    }
  }

  /** One step of the right-to-left sweep keeps the invariants and finishes cell (j, i);
      a cell it newly lights on the left has its left-to-right work done at once. */
  lemma LeftStep(view: seq<seq<Obj>>, vis: seq<seq<bool>>, rank: seq<seq<nat>>, t: nat, j: int, i: int)
    requires Sound(view, vis, rank, t) && RowsClosedFrom(view, vis, j + 1)
    requires 0 <= j < |view| && 1 <= i < |view| && Clear(view, vis, j, i)
    requires forall b :: 0 <= b < |view| - 1 ==> RightDone(view, vis, j, b)
    requires forall b :: i < b < |view| ==> LeftDone(view, vis, j, b)
    ensures var vis2 := MarkLeft(vis, |view|, j, i);
      Sound(view, vis2, Stamp(rank, vis, vis2, t, |view|), t + 1) &&
      RowsClosedFrom(view, vis2, j + 1) &&
      (forall b :: 0 <= b < |view| - 1 ==> RightDone(view, vis2, j, b)) &&
      (forall b :: i <= b < |view| ==> LeftDone(view, vis2, j, b))
  {
    var n := |view|;
    var vis2 := MarkLeft(vis, n, j, i);
    assert Grows(vis, vis2, n);
    StepSound(view, vis, rank, t, (j, i), vis2);
    GrowKeepsRowsClosed(view, vis, vis2, j + 1);
    forall b | i < b < n
      ensures LeftDone(view, vis2, j, b)
    {
      assert LeftDone(view, vis, j, b);
    }
    forall b | 0 <= b < n - 1
      ensures RightDone(view, vis2, j, b)
    {
      if b != i - 1 || vis[j][b] {
        assert RightDone(view, vis, j, b);
      }
    }
  }

  // ---------------------------------------------------------------------------
  // Visibility sweeps

  /** The mask array holds the ghost matrix `vis`. */
  ghost predicate Holds(mask: array2<bool>, vis: seq<seq<bool>>)
    reads mask
  {
    IsMatrix(vis, mask.Length0) && mask.Length1 == mask.Length0 &&
    forall a, b :: 0 <= a < mask.Length0 && 0 <= b < mask.Length0 ==> mask[a, b] == vis[a][b]
  }

  /** Marks what processing cell (j, i) left to right makes visible. */
  method LightRight(mask: array2<bool>, j: int, i: int, ghost vis: seq<seq<bool>>)
    requires Holds(mask, vis) && 0 <= j < mask.Length0 && 0 <= i < mask.Length0 - 1
    modifies mask
    ensures Holds(mask, MarkRight(vis, mask.Length0, j, i))
  {
    mask[j, i + 1] := true;
    if j > 0 {
      mask[j - 1, i + 1] := true;
      mask[j - 1, i] := true;
    }
  }

  /** Marks what processing cell (j, i) right to left makes visible. */
  method LightLeft(mask: array2<bool>, j: int, i: int, ghost vis: seq<seq<bool>>)
    requires Holds(mask, vis) && 0 <= j < mask.Length0 && 1 <= i < mask.Length0
    modifies mask
    ensures Holds(mask, MarkLeft(vis, mask.Length0, j, i))
  {
    mask[j, i - 1] := true;
    if j > 0 {
      mask[j - 1, i - 1] := true;
      mask[j - 1, i] := true;
    }
  }

  /** The left-to-right sweep over row j. */
  method SweepRight(view: array2<Obj>, mask: array2<bool>, j: int, ghost V: seq<seq<Obj>>,
                    ghost vis0: seq<seq<bool>>, ghost rank0: seq<seq<nat>>, ghost t0: nat)
    returns (ghost vis: seq<seq<bool>>, ghost rank: seq<seq<nat>>, ghost t: nat)
    requires V == Snapshot(view) && view.Length0 == view.Length1 == mask.Length0
    requires 0 <= j < view.Length0
    requires Holds(mask, vis0) && Sound(V, vis0, rank0, t0) && RowsClosedFrom(V, vis0, j + 1)
    modifies mask
    ensures Holds(mask, vis) && Sound(V, vis, rank, t) && RowsClosedFrom(V, vis, j + 1)
    ensures forall b :: 0 <= b < |V| - 1 ==> RightDone(V, vis, j, b)
  {
    var n := view.Length0;
    vis, rank, t := vis0, rank0, t0;
    var i := 0;
    while i <= n - 2
      invariant 0 <= i <= n - 1
      invariant Holds(mask, vis) && Sound(V, vis, rank, t) && RowsClosedFrom(V, vis, j + 1)
      invariant forall b :: 0 <= b < i ==> RightDone(V, vis, j, b)
    {
      if mask[j, i] && CanSeeBehind(view[j, i]) {
        assert Clear(V, vis, j, i);
        RightStep(V, vis, rank, t, j, i);
        ghost var vis2 := MarkRight(vis, n, j, i);
        LightRight(mask, j, i, vis);
        vis, rank, t := vis2, Stamp(rank, vis, vis2, t, n), t + 1;
      } else {
        assert RightDone(V, vis, j, i);
      }
      i := i + 1;
    }
  }

  /** The right-to-left sweep over row j. */
  method SweepLeft(view: array2<Obj>, mask: array2<bool>, j: int, ghost V: seq<seq<Obj>>,
                   ghost vis0: seq<seq<bool>>, ghost rank0: seq<seq<nat>>, ghost t0: nat)
    returns (ghost vis: seq<seq<bool>>, ghost rank: seq<seq<nat>>, ghost t: nat)
    requires V == Snapshot(view) && view.Length0 == view.Length1 == mask.Length0
    requires 0 <= j < view.Length0
    requires Holds(mask, vis0) && Sound(V, vis0, rank0, t0) && RowsClosedFrom(V, vis0, j + 1)
    requires forall b :: 0 <= b < |V| - 1 ==> RightDone(V, vis0, j, b)
    modifies mask
    ensures Holds(mask, vis) && Sound(V, vis, rank, t) && RowsClosedFrom(V, vis, j)
  {
    var n := view.Length0;
    vis, rank, t := vis0, rank0, t0;
    var i := n - 1;
    while i >= 1
      invariant 0 <= i <= n - 1
      invariant Holds(mask, vis) && Sound(V, vis, rank, t) && RowsClosedFrom(V, vis, j + 1)
      invariant forall b :: 0 <= b < n - 1 ==> RightDone(V, vis, j, b)
      invariant forall b :: i < b < n ==> LeftDone(V, vis, j, b)
    {
      if mask[j, i] && CanSeeBehind(view[j, i]) {
        assert Clear(V, vis, j, i);
        LeftStep(V, vis, rank, t, j, i);
        ghost var vis2 := MarkLeft(vis, n, j, i);
        LightLeft(mask, j, i, vis);
        vis, rank, t := vis2, Stamp(rank, vis, vis2, t, n), t + 1;
      } else {
        assert LeftDone(V, vis, j, i);
      }
      i := i - 1;
    }
    RowClosed(V, vis, j);
  }

  /** The visibility mask of a rotated view. With see-through walls every cell is
      visible; otherwise the mask is computed by sweeping the rows from the agent's row
      upward, each row left to right and then right to left. */
  method ComputeMask(view: array2<Obj>, seeThrough: bool) returns (mask: array2<bool>, ghost rank: seq<seq<nat>>)
    requires view.Length0 == view.Length1 >= 1
    ensures fresh(mask) && mask.Length0 == view.Length0 && mask.Length1 == view.Length0
    ensures seeThrough ==> forall a, b :: 0 <= a < view.Length0 && 0 <= b < view.Length0 ==> mask[a, b]
    ensures !seeThrough ==> Visibility(Snapshot(view), Snapshot(mask), rank)
  {
    if seeThrough {
      mask := AllVisible(view.Length0);
      rank := [];
    } else {
      mask, rank := SweepMask(view);
    }
  }

  /** The mask of a view seen through walls: every cell. */
  method AllVisible(n: nat) returns (mask: array2<bool>)
    ensures fresh(mask) && mask.Length0 == n && mask.Length1 == n
    ensures forall a, b :: 0 <= a < n && 0 <= b < n ==> mask[a, b]
  {
    mask := new bool[n, n]((a, b) => false);
    for a := 0 to n
      invariant forall a', b :: 0 <= a' < a && 0 <= b < n ==> mask[a', b]
    {
      for b := 0 to n
        invariant forall a', b' :: 0 <= a' < a && 0 <= b' < n ==> mask[a', b']
        invariant forall b' :: 0 <= b' < b ==> mask[a, b']
      {
        mask[a, b] := true;
      }
    }
  }

  /** The mask computed by the two sweeps per row, from the agent's cell outward. */
  method SweepMask(view: array2<Obj>) returns (mask: array2<bool>, ghost rank: seq<seq<nat>>)
    requires view.Length0 == view.Length1 >= 1
    ensures fresh(mask) && mask.Length0 == view.Length0 && mask.Length1 == view.Length0
    ensures Visibility(Snapshot(view), Snapshot(mask), rank)
  {
    var n := view.Length0;
    mask := SeedMask(n);
    rank := seq(n, a => seq(n, b => 0));
    ghost var V := Snapshot(view);
    ghost var vis := Seeded(n);
    ghost var t: nat := 1;
    SeededSound(V, rank);
    var j := n - 1;
    while j >= 0
      invariant -1 <= j <= n - 1
      invariant Holds(mask, vis) && Sound(V, vis, rank, t) && RowsClosedFrom(V, vis, j + 1)
    {
      vis, rank, t := SweepRight(view, mask, j, V, vis, rank, t);
      vis, rank, t := SweepLeft(view, mask, j, V, vis, rank, t);
      j := j - 1;
    }
    MatrixEq(vis, Snapshot(mask), n);
    SweptIsVisibility(V, vis, rank, t);
  }

  /** The mask before the sweeps: only the agent's cell. */
  ghost function Seeded(n: nat): (vis: seq<seq<bool>>)
    ensures IsMatrix(vis, n)
    ensures forall a, b :: 0 <= a < n && 0 <= b < n ==> (vis[a][b] <==> (a, b) == (n - 1, n / 2))
  {
    seq(n, a => seq(n, b => (a, b) == (n - 1, n / 2)))
  }

  /** A fresh mask holding only the agent's cell. */
  method SeedMask(n: nat) returns (mask: array2<bool>)
    requires n >= 1
    ensures fresh(mask) && Holds(mask, Seeded(n)) && mask.Length0 == n
  {
    mask := new bool[n, n]((a, b) => false);
    mask[n - 1, n / 2] := true;
  }

  lemma SeededSound(view: seq<seq<Obj>>, rank: seq<seq<nat>>)
    requires IsSquare(view) && |view| >= 1 && IsMatrix(rank, |view|)
    requires forall a, b :: 0 <= a < |view| && 0 <= b < |view| ==> rank[a][b] == 0
    ensures Sound(view, Seeded(|view|), rank, 1)
  {
  }

  /** Once every row is closed, the sweeps' invariant is the visibility characterisation. */
  lemma SweptIsVisibility(view: seq<seq<Obj>>, vis: seq<seq<bool>>, rank: seq<seq<nat>>, t: nat)
    requires Sound(view, vis, rank, t) && RowsClosedFrom(view, vis, 0)
    ensures Visibility(view, vis, rank)
  {
    var n := |view|;
    forall a, b | 0 <= a < n && 0 <= b < n
      ensures ClosedAt(view, vis, a, b)
    {
    }
  }

  // ---------------------------------------------------------------------------
  // Hiding and output

  /** Cells that are not visible are replaced by empty cells. */
  method HideInvisible(view: array2<Obj>, mask: array2<bool>)
    requires mask.Length0 == view.Length0 && mask.Length1 == view.Length1
    modifies view
    ensures forall a, b :: 0 <= a < view.Length0 && 0 <= b < view.Length1 ==>
      view[a, b] == if mask[a, b] then old(view[a, b]) else Plain(Empty)
  {
    for a := 0 to view.Length0
      invariant forall a', b :: 0 <= a' < view.Length0 && 0 <= b < view.Length1 ==>
        view[a', b] == if a' < a && !mask[a', b] then Plain(Empty) else old(view[a', b])
    {
      for b := 0 to view.Length1
        invariant forall a', b' :: 0 <= a' < view.Length0 && 0 <= b' < view.Length1 ==>
          view[a', b'] == if (a' < a || (a' == a && b' < b)) && !mask[a', b'] then Plain(Empty) else old(view[a', b'])
      {
        if !mask[a, b] {
          view[a, b] := Plain(Empty);
        }
      }
    }
  }

  /** Turns an egocentric view into the observation: computes what is visible from the
      agent's cell (everything when seeing through walls), blanks the rest, shows the
      carried object on the agent's cell and writes the visible cells into obs. */
  method Observe(v: array2<Obj>, seeThrough: bool, carrying: Obj, obs: array3<int>)
    returns (ghost vis: seq<seq<bool>>, ghost rank: seq<seq<nat>>)
    requires v.Length0 == v.Length1 >= 1
    requires obs.Length0 == v.Length0 && obs.Length1 == v.Length0 && obs.Length2 == 3
    modifies v, obs
    ensures IsMatrix(vis, v.Length0)
    ensures seeThrough ==> forall a, b :: 0 <= a < v.Length0 && 0 <= b < v.Length0 ==> vis[a][b]
    ensures !seeThrough ==> Visibility(old(Snapshot(v)), vis, rank)
    ensures forall x, y, c :: 0 <= x < v.Length0 && 0 <= y < v.Length0 && 0 <= c < 3 ==>
      obs[x, y, c] == if vis[y][x] then Channel(Rendered(old(Snapshot(v)), vis, carrying)[y][x], c)
                      else old(obs[x, y, c])
  {
    ghost var view := Snapshot(v);
    var mask;
    mask, rank := ComputeMask(v, seeThrough);
    vis := Snapshot(mask);
    Present(v, mask, !seeThrough, carrying, obs, view, vis);
  }

  /** Blanks the cells the mask hides (when asked to), overlays the carried object and
      writes the visible cells of the result into obs. */
  method Present(v: array2<Obj>, mask: array2<bool>, blank: bool, carrying: Obj, obs: array3<int>,
                 ghost view: seq<seq<Obj>>, ghost vis: seq<seq<bool>>)
    requires v.Length0 == v.Length1 >= 1 && Holds(mask, vis) && mask.Length0 == v.Length0
    requires obs.Length0 == v.Length0 && obs.Length1 == v.Length0 && obs.Length2 == 3
    requires IsSquare(view) && |view| == v.Length0
    requires forall a, b :: 0 <= a < v.Length0 && 0 <= b < v.Length0 ==> v[a, b] == view[a][b]
    modifies v, obs
    ensures forall x, y, c :: 0 <= x < v.Length0 && 0 <= y < v.Length0 && 0 <= c < 3 ==>
      obs[x, y, c] == if vis[y][x] then Channel(Rendered(view, vis, carrying)[y][x], c) else old(obs[x, y, c])
  {
    if blank {
      HideInvisible(v, mask);
    }
    Overlay(v, view, vis, carrying);
    WriteObs(obs, v, mask, Rendered(view, vis, carrying), vis);
  }

  /** Shows the carried object (or an empty cell) on the agent's cell of a view whose
      visible cells hold `view`; the visible cells then hold the rendered view. */
  method Overlay(v: array2<Obj>, ghost view: seq<seq<Obj>>, ghost vis: seq<seq<bool>>, carrying: Obj)
    requires v.Length0 == v.Length1 >= 1 && IsSquare(view) && |view| == v.Length0 && IsMatrix(vis, v.Length0)
    requires forall a, b :: 0 <= a < v.Length0 && 0 <= b < v.Length0 && vis[a][b] ==> v[a, b] == view[a][b]
    modifies v
    ensures forall a, b :: 0 <= a < v.Length0 && 0 <= b < v.Length0 && vis[a][b] ==>
      v[a, b] == Rendered(view, vis, carrying)[a][b]
  {
    var n := v.Length0;
    v[n - 1, n / 2] := if carrying.kind != Empty then carrying else Plain(Empty);
    ghost var shown := Rendered(view, vis, carrying);
    forall a, b | 0 <= a < n && 0 <= b < n && vis[a][b]
      ensures v[a, b] == shown[a][b]
    {
      if (a, b) == (n - 1, n / 2) {
        assert v[a, b] == CarriedView(carrying);
      } else {
        assert v[a, b] == view[a][b];
      }
    }
  }

  /** Writes the three channels of every visible view cell (row y, column x) to
      obs[x, y, _], transposed; entries of cells that are not visible keep their value.
      `shown` and `vis` are the values the view and mask arrays hold where it matters. */
  method WriteObs(obs: array3<int>, view: array2<Obj>, mask: array2<bool>,
                  ghost shown: seq<seq<Obj>>, ghost vis: seq<seq<bool>>)
    requires view.Length0 == view.Length1 && Holds(mask, vis) && mask.Length0 == view.Length0
    requires obs.Length0 == view.Length0 && obs.Length1 == view.Length0 && obs.Length2 == 3
    requires IsMatrix(shown, view.Length0)
    requires forall a, b :: 0 <= a < view.Length0 && 0 <= b < view.Length0 && vis[a][b] ==> view[a, b] == shown[a][b]
    modifies obs
    ensures forall x, y, c :: 0 <= x < obs.Length0 && 0 <= y < obs.Length1 && 0 <= c < 3 ==>
      obs[x, y, c] == if vis[y][x] then Channel(shown[y][x], c) else old(obs[x, y, c])
  {
    var n := view.Length0;
    for y := 0 to n
      invariant forall x, y', c :: 0 <= x < n && 0 <= y' < n && 0 <= c < 3 ==>
        obs[x, y', c] == if y' < y && vis[y'][x] then Channel(shown[y'][x], c) else old(obs[x, y', c])
    {
      for x := 0 to n
        invariant forall x', y', c :: 0 <= x' < n && 0 <= y' < n && 0 <= c < 3 ==>
          obs[x', y', c] == if (y' < y || (y' == y && x' < x)) && vis[y'][x'] then Channel(shown[y'][x'], c) else old(obs[x', y', c])
      {
        if mask[y, x] {
          obs[x, y, 0] := TypeCode(view[y, x].kind);
          obs[x, y, 1] := ColorCode(view[y, x].color);
          obs[x, y, 2] := StateCode(view[y, x]);
        }
      }
    }
  }
}
