/** Directions, the forward cell, turning, and the placement of the agent's viewport.
    Coordinates are (x, y) with x growing to the right and y growing downward; the grid
    itself is indexed [y][x]. */
module Geometry {

  /** 0 = East, 1 = South, 2 = West, 3 = North. */
  predicate IsDir(d: int) {
    0 <= d < 4
  }

  /** The unit offset from a cell to its neighbour in direction d. */
  function DirVec(d: int): (v: (int, int))
    requires IsDir(d)
    ensures (v.0 == 0) != (v.1 == 0)
    ensures -1 <= v.0 <= 1 && -1 <= v.1 <= 1
  {
    if d == 0 then (1, 0)
    else if d == 1 then (0, 1)
    else if d == 2 then (-1, 0)
    else (0, -1)
  }

  /** The cell the agent faces from (x, y) in direction d. */
  function FwdPos(x: int, y: int, d: int): (p: (int, int))
    requires IsDir(d)
    ensures p != (x, y)
    ensures d == 0 ==> p == (x + 1, y)
    ensures d == 1 ==> p == (x, y + 1)
    ensures d == 2 ==> p == (x - 1, y)
    ensures d == 3 ==> p == (x, y - 1)
  {
    (x + DirVec(d).0, y + DirVec(d).1)
  }

  /** Turning counter-clockwise: one less, modulo 4. */
  function TurnLeft(d: int): (r: int)
    requires IsDir(d)
    ensures IsDir(r)
    ensures r == if d == 0 then 3 else d - 1
  {
    (d + 3) % 4
  }

  /** Turning clockwise: one more, modulo 4. */
  function TurnRight(d: int): (r: int)
    requires IsDir(d)
    ensures IsDir(r)
    ensures r == if d == 3 then 0 else d + 1
  {
    (d + 1) % 4
  }

  /** Left and right turns undo each other. */
  lemma TurnsInverse(d: int)
    requires IsDir(d)
    ensures TurnLeft(TurnRight(d)) == d
    ensures TurnRight(TurnLeft(d)) == d
  {
  }

  /** Four right turns bring the agent back to its direction. */
  lemma FourTurnsIdentity(d: int)
    requires IsDir(d)
    ensures TurnRight(TurnRight(TurnRight(TurnRight(d)))) == d
  {
  }

  /** A right turn rotates the facing vector a quarter turn clockwise on screen
      (y grows downward). */
  lemma TurnRightRotatesVector(d: int)
    requires IsDir(d)
    ensures DirVec(TurnRight(d)) == (-DirVec(d).1, DirVec(d).0)
  {
  }

  /** Stepping forward and then forward again after turning around returns to the start. */
  lemma FwdThenBack(x: int, y: int, d: int)
    requires IsDir(d)
    ensures FwdPos(FwdPos(x, y, d).0, FwdPos(x, y, d).1, TurnRight(TurnRight(d))) == (x, y)
  {
  }

  /** Absolute coordinates of the top-left cell of the n-by-n square the agent sees,
      before that square is rotated to the agent's frame. The agent stands on the edge of
      the square opposite the one it faces, n / 2 cells along that edge, so the square
      reaches n - 1 cells ahead of the agent. */
  function ViewCorner(x: int, y: int, d: int, n: int): (c: (int, int))
    requires IsDir(d)
    // the agent's cell is on the square's back edge: west, north, east or south
    ensures d == 0 ==> c.0 == x
    ensures d == 1 ==> c.1 == y
    ensures d == 2 ==> c.0 + n - 1 == x
    ensures d == 3 ==> c.1 + n - 1 == y
    // and it is n / 2 cells along that edge
    ensures d % 2 == 0 ==> y - c.1 == n / 2
    ensures d % 2 == 1 ==> x - c.0 == n / 2
    // so for n >= 1 the agent's cell lies in the square
    ensures n >= 1 ==> c.0 <= x < c.0 + n && c.1 <= y < c.1 + n
  {
    if d == 0 then (x, y - n / 2)
    else if d == 1 then (x - n / 2, y)
    else if d == 2 then (x - n + 1, y - n / 2)
    else (x - n / 2, y - n + 1)
  }

  /** In the agent's frame (agent at row n-1, column n/2, facing up), the absolute cell
      shown at row r, column c: n-1-r steps ahead and c-n/2 steps to the right. */
  function ViewToWorld(x: int, y: int, d: int, n: int, r: int, c: int): (p: (int, int))
    requires IsDir(d)
  {
    var ahead, right := n - 1 - r, c - n / 2;
    if d == 0 then (x + ahead, y + right)
    else if d == 1 then (x - right, y + ahead)
    else if d == 2 then (x - ahead, y - right)
    else (x + right, y - ahead)
  }

  /** ViewToWorld moves n-1-r times along the facing vector and c-n/2 times along the
      vector of the direction to the agent's right. */
  lemma ViewToWorldAlongVectors(x: int, y: int, d: int, n: int, r: int, c: int)
    requires IsDir(d)
    ensures var ahead, right, f, s := n - 1 - r, c - n / 2, DirVec(d), DirVec(TurnRight(d));
      ViewToWorld(x, y, d, n, r, c) == (x + ahead * f.0 + right * s.0, y + ahead * f.1 + right * s.1)
  {
  }

  /** The agent's rendered cell is the agent's own cell, and the cell above it is the
      forward cell. */
  lemma ViewToWorldAgentAndAhead(x: int, y: int, d: int, n: int)
    requires IsDir(d) && n >= 2
    ensures ViewToWorld(x, y, d, n, n - 1, n / 2) == (x, y)
    ensures ViewToWorld(x, y, d, n, n - 2, n / 2) == FwdPos(x, y, d)
  {
  }
}
