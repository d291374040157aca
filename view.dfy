/** The agent's observation as values: the square cut out of the grid, its rotation
    into the agent's frame, and what the visibility mask of that square is. */
module View {
  import opened Objects
  import opened Geometry

  predicate IsSquare<T>(g: seq<seq<T>>) {
    forall i :: 0 <= i < |g| ==> |g[i]| == |g|
  }

  /** An n-by-n matrix; the shape of the view, the mask and the mask's ranks. */
  predicate IsMatrix<T>(m: seq<seq<T>>, n: int) {
    |m| == n && forall i :: 0 <= i < n ==> |m[i]| == n
  }

  // ---------------------------------------------------------------------------
  // Rotation

  /** One counter-clockwise quarter turn: the cell at row y, column x moves to row
      n-1-x, column y. */
  function Rotate<T>(g: seq<seq<T>>): (h: seq<seq<T>>)
    requires IsSquare(g)
    ensures IsSquare(h) && |h| == |g|
    ensures forall r, c :: 0 <= r < |g| && 0 <= c < |g| ==> h[r][c] == g[c][|g| - 1 - r]
  {
    var n := |g|;
    seq(n, r requires 0 <= r < n => seq(n, c requires 0 <= c < n => g[c][n - 1 - r]))
  }

  /** Where a rotated cell comes from: the cell at p = (row, column) after one turn
      was at Pre(n, p) before it. */
  function Pre(n: int, p: (int, int)): (q: (int, int)) {
    (p.1, n - 1 - p.0)
  }

  /** The inverse of Pre: where one turn sends the cell at p. */
  function Post(n: int, p: (int, int)): (q: (int, int))
    ensures Pre(n, q) == p
    ensures 0 <= p.0 < n && 0 <= p.1 < n ==> 0 <= q.0 < n && 0 <= q.1 < n
  {
    (n - 1 - p.1, p.0)
  }

  /** Post undoes Pre, so a quarter turn is a bijection on cells. */
  lemma PrePostInverse(n: int, p: (int, int))
    ensures Post(n, Pre(n, p)) == p && Pre(n, Post(n, p)) == p
  {
  }

  /** The cell at (r, c) after one turn, read off Pre. */
  lemma RotateAt<T>(g: seq<seq<T>>, r: int, c: int)
    requires IsSquare(g) && 0 <= r < |g| && 0 <= c < |g|
    ensures Rotate(g)[r][c] == g[Pre(|g|, (r, c)).0][Pre(|g|, (r, c)).1]
  {
  }

  /** Pre applied k times. */
  function PreN(n: int, k: nat, p: (int, int)): (q: (int, int))
    decreases k
  {
    if k == 0 then p else PreN(n, k - 1, Pre(n, p))
  }

  /** k quarter turns. */
  function RotateN<T>(g: seq<seq<T>>, k: nat): (h: seq<seq<T>>)
    requires IsSquare(g)
    ensures IsSquare(h) && |h| == |g|
    decreases k
  {
    if k == 0 then g else Rotate(RotateN(g, k - 1))
  }

  /** After k quarter turns the cell at (r, c) holds the original cell at PreN(n, k, (r, c)). */
  lemma {:induction false} RotateNAt<T>(g: seq<seq<T>>, k: nat, r: int, c: int)
    requires IsSquare(g) && 0 <= r < |g| && 0 <= c < |g|
    ensures var p := PreN(|g|, k, (r, c));
            0 <= p.0 < |g| && 0 <= p.1 < |g| && RotateN(g, k)[r][c] == g[p.0][p.1]
    decreases k
  {
    var n := |g|;
    if k > 0 {
      var h := RotateN(g, k - 1);
      var q := Pre(n, (r, c));
      assert RotateN(g, k) == Rotate(h);
      RotateAt(h, r, c);
      assert 0 <= q.0 < n && 0 <= q.1 < n;
      RotateNAt(g, k - 1, q.0, q.1);
      PreNShift(n, k - 1, (r, c));
      var p := PreN(n, k - 1, q);
      assert PreN(n, k, (r, c)) == p;
      assert RotateN(g, k)[r][c] == h[q.0][q.1] == g[p.0][p.1];
    } else {
      assert RotateN(g, k) == g && PreN(n, k, (r, c)) == (r, c);
    }
  }

  /** PreN(n, k+1, p) is Pre of PreN(n, k, p) as well as PreN of Pre(p). */
  lemma {:induction false} PreNShift(n: int, k: nat, p: (int, int))
    ensures PreN(n, k + 1, p) == PreN(n, k, Pre(n, p))
    ensures PreN(n, k + 1, p) == Pre(n, PreN(n, k, p))
    decreases k
  {
    if k > 0 {
      PreNShift(n, k - 1, Pre(n, p));
    }
  }

  /** PreN for one to four turns, unfolded; four turns bring every cell back. */
  lemma PreNUpToFour(n: int, p: (int, int))
    ensures PreN(n, 1, p) == (p.1, n - 1 - p.0)
    ensures PreN(n, 2, p) == (n - 1 - p.0, n - 1 - p.1)
    ensures PreN(n, 3, p) == (n - 1 - p.1, p.0)
    ensures PreN(n, 4, p) == p
  {
    PreNShift(n, 0, p);
    PreNShift(n, 1, p);
    PreNShift(n, 2, p);
    PreNShift(n, 3, p);
  }

  /** Four quarter turns are the identity. */
  lemma Rotate4Identity<T>(g: seq<seq<T>>)
    requires IsSquare(g)
    ensures RotateN(g, 4) == g
  {
    var h := RotateN(g, 4);
    forall r | 0 <= r < |g|
      ensures h[r] == g[r]
    {
      Rotate4Row(g, r);
    }
  }

  /** Row r of four quarter turns is row r of the original. */
  lemma Rotate4Row<T>(g: seq<seq<T>>, r: int)
    requires IsSquare(g) && 0 <= r < |g|
    ensures RotateN(g, 4)[r] == g[r]
  {
    forall c | 0 <= c < |g|
      ensures RotateN(g, 4)[r][c] == g[r][c]
    {
      RotateNAt(g, 4, r, c);
      PreNUpToFour(|g|, (r, c));
    }
  }

  /** One quarter turn is a bijection on square matrices: three more turns undo it, in
      either order. */
  lemma RotateBijective<T>(g: seq<seq<T>>)
    requires IsSquare(g)
    ensures Rotate(RotateN(g, 3)) == g
    ensures RotateN(Rotate(g), 3) == g
  {
    Rotate4Identity(g);
    var n := |g|;
    var h := RotateN(Rotate(g), 3);
    forall r | 0 <= r < n
      ensures h[r] == g[r]
    {
      forall c | 0 <= c < n
        ensures h[r][c] == g[r][c]
      {
        RotateNAt(Rotate(g), 3, r, c);
        PreNUpToFour(n, (r, c));
      }
    }
  }

  // ---------------------------------------------------------------------------
  // Extraction into the agent's frame

  /** What the view shows for absolute cell (x, y): a plain object of the cell's type
      inside the grid, a wall outside it. */
  function Sighted(g: seq<seq<Obj>>, x: int, y: int): (o: Obj)
    // only the type is copied: colour, door state and contents are the defaults
    ensures o == Plain(o.kind)
    ensures 0 <= y < |g| && 0 <= x < |g[y]| ==> o.kind == g[y][x].kind
    ensures !(0 <= y < |g| && 0 <= x < |g[y]|) ==> o.kind == Wall
  {
    if 0 <= y < |g| && 0 <= x < |g[y]| then Plain(g[y][x].kind) else Plain(Wall)
  }

  /** The n-by-n square whose top-left absolute cell is `top`, row i being y = top.1 + i
      and column j being x = top.0 + j. */
  function Extract(g: seq<seq<Obj>>, top: (int, int), n: nat): (v: seq<seq<Obj>>)
    ensures IsMatrix(v, n) && IsSquare(v)
    ensures forall i, j :: 0 <= i < n && 0 <= j < n ==> v[i][j] == Sighted(g, top.0 + j, top.1 + i)
  {
    seq(n, i requires 0 <= i < n => seq(n, j requires 0 <= j < n => Sighted(g, top.0 + j, top.1 + i)))
  }

  /** The view of an agent at (x, y) facing d: the square at the direction's corner,
      turned d+1 times. For an odd view size this puts the agent at the bottom centre
      facing up: the cell at row r, column c shows the absolute cell n-1-r steps ahead of
      the agent and c-n/2 steps to its right. */
  function EgoView(g: seq<seq<Obj>>, x: int, y: int, d: int, n: nat): (v: seq<seq<Obj>>)
    requires IsDir(d)
    ensures IsMatrix(v, n)
    ensures n % 2 == 1 ==> forall r, c :: 0 <= r < n && 0 <= c < n ==>
      v[r][c] == Sighted(g, ViewToWorld(x, y, d, n, r, c).0, ViewToWorld(x, y, d, n, r, c).1)
  {
    EgocentricView(g, x, y, d, n);
    RotateN(Extract(g, ViewCorner(x, y, d, n), n), d + 1)
  }

  /** Every cell of the square at the corner, turned d+1 times, in the agent's frame. */
  lemma EgocentricView(g: seq<seq<Obj>>, x: int, y: int, d: int, n: nat)
    requires IsDir(d)
    ensures var v := RotateN(Extract(g, ViewCorner(x, y, d, n), n), d + 1);
      n % 2 == 1 ==> forall r, c :: 0 <= r < n && 0 <= c < n ==>
        v[r][c] == Sighted(g, ViewToWorld(x, y, d, n, r, c).0, ViewToWorld(x, y, d, n, r, c).1)
  {
    if n % 2 == 1 {
      forall r, c | 0 <= r < n && 0 <= c < n
        ensures RotateN(Extract(g, ViewCorner(x, y, d, n), n), d + 1)[r][c] ==
                Sighted(g, ViewToWorld(x, y, d, n, r, c).0, ViewToWorld(x, y, d, n, r, c).1)
      {
        EgocentricFrame(g, x, y, d, n, r, c);
      }
    }
  }

  /** One cell of EgocentricView: the corner formulas and the d+1 turns meet the frame. */
  lemma EgocentricFrame(g: seq<seq<Obj>>, x: int, y: int, d: int, n: nat, r: int, c: int)
    requires IsDir(d) && n % 2 == 1
    requires 0 <= r < n && 0 <= c < n
    ensures RotateN(Extract(g, ViewCorner(x, y, d, n), n), d + 1)[r][c] ==
            Sighted(g, ViewToWorld(x, y, d, n, r, c).0, ViewToWorld(x, y, d, n, r, c).1)
  {
    var top, w := ViewCorner(x, y, d, n), ViewToWorld(x, y, d, n, r, c);
    CornerMeetsFrame(x, y, d, n, r, c);
    TurnedExtractAt(g, top, n, d + 1, r, c, w);
  }

  /** Cell (r, c) of the square at top, turned k times, shows absolute cell w when w is
      top shifted by the cell that PreN sends (r, c) back to. */
  lemma TurnedExtractAt(g: seq<seq<Obj>>, top: (int, int), n: nat, k: nat, r: int, c: int, w: (int, int))
    requires 0 <= r < n && 0 <= c < n
    requires w == (top.0 + PreN(n, k, (r, c)).1, top.1 + PreN(n, k, (r, c)).0)
    ensures RotateN(Extract(g, top, n), k)[r][c] == Sighted(g, w.0, w.1)
  {
    var e := Extract(g, top, n);
    var p := PreN(n, k, (r, c));
    RotateNAt(e, k, r, c);
    assert RotateN(e, k)[r][c] == e[p.0][p.1];
  }

  /** The corner of direction d plus the offset that d+1 turns give to view cell (r, c)
      is that cell's position in the agent's frame. */
  lemma CornerMeetsFrame(x: int, y: int, d: int, n: int, r: int, c: int)
    requires IsDir(d) && n % 2 == 1
    ensures var top, p := ViewCorner(x, y, d, n), PreN(n, d + 1, (r, c));
            (top.0 + p.1, top.1 + p.0) == ViewToWorld(x, y, d, n, r, c)
  {
    PreNUpToFour(n, (r, c));
    assert n - 1 - n / 2 == n / 2;
  }

  /** The agent's own cell is shown at the bottom centre and its forward cell right
      above it. */
  lemma AgentAtBottomCentre(g: seq<seq<Obj>>, x: int, y: int, d: int, n: nat)
    requires IsDir(d) && n % 2 == 1 && n >= 3
    ensures EgoView(g, x, y, d, n)[n - 1][n / 2] == Sighted(g, x, y)
    ensures EgoView(g, x, y, d, n)[n - 2][n / 2] == Sighted(g, FwdPos(x, y, d).0, FwdPos(x, y, d).1)
  {
    ViewToWorldAgentAndAhead(x, y, d, n);
    var here, ahead := ViewToWorld(x, y, d, n, n - 1, n / 2), ViewToWorld(x, y, d, n, n - 2, n / 2);
    assert here == (x, y) && ahead == FwdPos(x, y, d);
    var v := EgoView(g, x, y, d, n);
    assert v[n - 1][n / 2] == Sighted(g, here.0, here.1);
    assert v[n - 2][n / 2] == Sighted(g, ahead.0, ahead.1);
  }

  // ---------------------------------------------------------------------------
  // Visibility

  /** Whether cell (a, b) is visible and lets light through. */
  predicate Clear(view: seq<seq<Obj>>, vis: seq<seq<bool>>, a: int, b: int)
    requires IsSquare(view) && IsMatrix(vis, |view|)
  {
    0 <= a < |view| && 0 <= b < |view| && vis[a][b] && CanSeeBehind(view[a][b])
  }

  /** The propagation rule at (a, b): a visible cell that lets light through makes its
      left and right neighbours and the three cells above them visible. */
  predicate ClosedAt(view: seq<seq<Obj>>, vis: seq<seq<bool>>, a: int, b: int)
    requires IsSquare(view) && IsMatrix(vis, |view|)
    requires 0 <= a < |view| && 0 <= b < |view|
  {
    var n := |view|;
    Clear(view, vis, a, b) ==>
      (b + 1 < n ==> vis[a][b + 1]) && (b > 0 ==> vis[a][b - 1]) &&
      (a > 0 ==> vis[a - 1][b] && (b + 1 < n ==> vis[a - 1][b + 1]) && (b > 0 ==> vis[a - 1][b - 1]))
  }

  /** A mask that contains the agent's cell (row n-1, column n/2) and is closed under the
      propagation rule. */
  ghost predicate ClosedMask(view: seq<seq<Obj>>, vis: seq<seq<bool>>)
  {
    var n := |view|;
    n >= 1 && IsSquare(view) && IsMatrix(vis, n) && vis[n - 1][n / 2] &&
    forall a, b {:trigger ClosedAt(view, vis, a, b)} :: 0 <= a < n && 0 <= b < n ==> ClosedAt(view, vis, a, b)
  }

  /** Cell (a, b) is visible, lets light through, and became visible before time t. */
  predicate LitBefore(view: seq<seq<Obj>>, vis: seq<seq<bool>>, rank: seq<seq<nat>>, a: int, b: int, t: int)
    requires IsSquare(view) && IsMatrix(vis, |view|) && IsMatrix(rank, |view|)
  {
    Clear(view, vis, a, b) && rank[a][b] < t
  }

  /** Cell (a, b) was made visible by an earlier visible neighbour that lets light through:
      the one on its left or right, or one of the three below it. */
  predicate Justified(view: seq<seq<Obj>>, vis: seq<seq<bool>>, rank: seq<seq<nat>>, a: int, b: int)
    requires IsSquare(view) && IsMatrix(vis, |view|) && IsMatrix(rank, |view|)
    requires 0 <= a < |view| && 0 <= b < |view|
  {
    var t := rank[a][b];
    LitBefore(view, vis, rank, a, b - 1, t) || LitBefore(view, vis, rank, a, b + 1, t) ||
    LitBefore(view, vis, rank, a + 1, b - 1, t) || LitBefore(view, vis, rank, a + 1, b, t) ||
    LitBefore(view, vis, rank, a + 1, b + 1, t)
  }

  /** `vis` is the visibility mask of `view`: it holds the agent's cell, is closed under
      propagation, and every other visible cell was reached from an earlier one (`rank`
      orders the cells by when they became visible). */
  ghost predicate Visibility(view: seq<seq<Obj>>, vis: seq<seq<bool>>, rank: seq<seq<nat>>)
  {
    var n := |view|;
    ClosedMask(view, vis) && IsMatrix(rank, n) &&
    forall a, b {:trigger Justified(view, vis, rank, a, b)} ::
      0 <= a < n && 0 <= b < n && vis[a][b] && (a, b) != (n - 1, n / 2) ==> Justified(view, vis, rank, a, b)
  }

  /** The visibility mask is the least closed mask holding the agent's cell: every
      visible cell is visible in any such mask. */
  lemma {:induction false} VisibleIsLeast(view: seq<seq<Obj>>, vis: seq<seq<bool>>, rank: seq<seq<nat>>,
                                         other: seq<seq<bool>>, a: int, b: int)
    requires Visibility(view, vis, rank) && ClosedMask(view, other)
    requires 0 <= a < |view| && 0 <= b < |view| && vis[a][b]
    ensures other[a][b]
    decreases rank[a][b]
  {
    var n := |view|;
    if (a, b) != (n - 1, n / 2) {
      assert Justified(view, vis, rank, a, b);
      var t := rank[a][b];
      if LitBefore(view, vis, rank, a, b - 1, t) {
        VisibleIsLeast(view, vis, rank, other, a, b - 1);
        assert ClosedAt(view, other, a, b - 1);
      } else if LitBefore(view, vis, rank, a, b + 1, t) {
        VisibleIsLeast(view, vis, rank, other, a, b + 1);
        assert ClosedAt(view, other, a, b + 1);
      } else if LitBefore(view, vis, rank, a + 1, b - 1, t) {
        VisibleIsLeast(view, vis, rank, other, a + 1, b - 1);
        assert ClosedAt(view, other, a + 1, b - 1);
      } else if LitBefore(view, vis, rank, a + 1, b, t) {
        VisibleIsLeast(view, vis, rank, other, a + 1, b);
        assert ClosedAt(view, other, a + 1, b);
      } else {
        VisibleIsLeast(view, vis, rank, other, a + 1, b + 1);
        assert ClosedAt(view, other, a + 1, b + 1);
      }
    }
  }

  /** The view alone determines its visibility mask. */
  lemma VisibilityUnique(view: seq<seq<Obj>>, vis1: seq<seq<bool>>, rank1: seq<seq<nat>>,
                         vis2: seq<seq<bool>>, rank2: seq<seq<nat>>)
    requires Visibility(view, vis1, rank1) && Visibility(view, vis2, rank2)
    ensures vis1 == vis2
  {
    var n := |view|;
    forall a | 0 <= a < n
      ensures vis1[a] == vis2[a]
    {
      forall b | 0 <= b < n
        ensures vis1[a][b] == vis2[a][b]
      {
        if vis1[a][b] {
          VisibleIsLeast(view, vis1, rank1, vis2, a, b);
        }
        if vis2[a][b] {
          VisibleIsLeast(view, vis2, rank2, vis1, a, b);
        }
      }
    }
  }

  // ---------------------------------------------------------------------------
  // What is rendered

  /** What the agent's own cell shows: the carried object, or an empty cell. */
  function CarriedView(carrying: Obj): (o: Obj)
    ensures o.kind == carrying.kind
  {
    if carrying.kind != Empty then carrying else Plain(Empty)
  }

  /** The rendered view: hidden cells become empty and the agent's cell shows what is
      carried. */
  function Rendered(view: seq<seq<Obj>>, vis: seq<seq<bool>>, carrying: Obj): (v: seq<seq<Obj>>)
    requires IsSquare(view) && IsMatrix(vis, |view|)
    ensures IsMatrix(v, |view|)
    ensures forall r, c :: 0 <= r < |view| && 0 <= c < |view| && (r, c) != (|view| - 1, |view| / 2) ==>
      v[r][c] == if vis[r][c] then view[r][c] else Plain(Empty)
    ensures |view| >= 1 ==> v[|view| - 1][|view| / 2] == CarriedView(carrying)
  {
    var n := |view|;
    seq(n, r requires 0 <= r < n => seq(n, c requires 0 <= c < n =>
      if (r, c) == (n - 1, n / 2) then CarriedView(carrying)
      else if vis[r][c] then view[r][c]
      else Plain(Empty)))
  }
}
