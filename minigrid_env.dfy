/** The grid-world engine: the environment object with its grid, the agent's pose, the
    carried object and the episode counters; reset, one step, placement by rejection
    sampling, and rendering of the agent's partial observation. */
module MiniGrid {
  import opened Objects
  import opened Geometry
  import opened Rules
  import opened View
  import opened Render

  /** A cell a newly placed object may take: inside the grid, of type Empty, and not the
      agent's cell. */
  predicate Eligible(g: seq<seq<Obj>>, agent: (int, int), p: (int, int)) {
    0 <= p.1 < |g| && 0 <= p.0 < |g[p.1]| && g[p.1][p.0].kind == Empty && p != agent
  }

  /** The first eligible cell among the draws of the sampler, if any. */
  function FirstFree(g: seq<seq<Obj>>, agent: (int, int), draws: seq<(int, int)>): (r: Option<(int, int)>)
    ensures r.Some? <==> exists k :: 0 <= k < |draws| && Eligible(g, agent, draws[k])
    ensures r.Some? ==> Eligible(g, agent, r.value) && r.value in draws
    decreases |draws|
  {
    if |draws| == 0 then None
    else if Eligible(g, agent, draws[0]) then Some(draws[0])
    else
      var r := FirstFree(g, agent, draws[1..]);
      assert forall k :: 1 <= k < |draws| ==> draws[k] == draws[1..][k - 1];
      r
  }

  /** The sampler keeps the first eligible draw: every earlier draw was rejected. */
  lemma {:induction false} FirstFreeIsFirst(g: seq<seq<Obj>>, agent: (int, int), draws: seq<(int, int)>)
    requires FirstFree(g, agent, draws).Some?
    ensures exists k ::
              0 <= k < |draws| && draws[k] == FirstFree(g, agent, draws).value &&
              (forall i :: 0 <= i < k ==> !Eligible(g, agent, draws[i]))
    decreases |draws|
  {
    if !Eligible(g, agent, draws[0]) {
      FirstFreeIsFirst(g, agent, draws[1..]);
      var k :| 0 <= k < |draws| - 1 && draws[1..][k] == FirstFree(g, agent, draws[1..]).value &&
        forall i :: 0 <= i < k ==> !Eligible(g, agent, draws[1..][i]);
      assert draws[k + 1] == FirstFree(g, agent, draws).value;
      assert forall i :: 0 <= i < k + 1 ==> !Eligible(g, agent, draws[i]) by {
        forall i | 0 <= i < k + 1
          ensures !Eligible(g, agent, draws[i])
        {
          if i > 0 {
            assert draws[i] == draws[1..][i - 1];
          }
        }
      }
    } else {
      assert draws[0] == FirstFree(g, agent, draws).value;
    }
  }

  /** Every draw lies in the inclusive rectangle [sx, ex] x [sy, ey]. */
  predicate DrawsIn(draws: seq<(int, int)>, sx: int, sy: int, ex: int, ey: int) {
    forall k :: 0 <= k < |draws| ==> sx <= draws[k].0 <= ex && sy <= draws[k].1 <= ey
  }

  /** An end coordinate of -1 stands for the last index of the axis. */
  function EndOr(e: int, size: int): (r: int)
    ensures e != -1 ==> r == e
    ensures e == -1 ==> r == size - 1
  {
    if e == -1 then size - 1 else e
  }

  class Env {
    /** The grid, indexed [y, x]. */
    var grid: array2<Obj>
    const width: nat
    const height: nat
    const maxSteps: int
    const agentViewSize: int
    const seeThroughWalls: bool
    /** A direction to start in, or -1 for a random one. */
    const agentStartDir: int
    var agentX: int
    var agentY: int
    var agentDir: int
    var stepCount: int
    var carrying: Obj
    var done: bool

    /** The grid has the configured height and width. */
    ghost predicate Shaped()
      reads this
    {
      grid.Length0 == height && grid.Length1 == width
    }

    /** The configuration the registered tasks run under: a shaped grid, a positive step
        budget and a view of at least one cell. */
    ghost predicate Configured()
      reads this
    {
      Shaped() && maxSteps > 0 && agentViewSize >= 1
    }

    predicate InGrid(p: (int, int))
      reads this
    {
      0 <= p.0 < width && 0 <= p.1 < height
    }

    /** The cell the agent faces. */
    function Ahead(): (int, int)
      reads this
      requires IsDir(agentDir)
    {
      FwdPos(agentX, agentY, agentDir)
    }

    /** The agent stands inside the grid on a cell it may overlap. */
    ghost predicate AgentPlaced()
      reads this, grid
    {
      Shaped() && InGrid((agentX, agentY)) && CanOverlap(grid[agentY, agentX])
    }

    /** What is carried is nothing or something that can be picked up. */
    ghost predicate CarryingSane()
      reads this
    {
      carrying.kind == Empty || CanPickup(carrying)
    }

    constructor(width: nat, height: nat, maxSteps: int, agentViewSize: int, seeThroughWalls: bool,
                agentStartDir: int)
      ensures this.width == width && this.height == height && this.maxSteps == maxSteps
      ensures this.agentViewSize == agentViewSize && this.seeThroughWalls == seeThroughWalls
      ensures this.agentStartDir == agentStartDir
      ensures fresh(grid) && grid.Length0 == height && grid.Length1 == width
      ensures maxSteps > 0 && agentViewSize >= 1 ==> Configured()
      ensures carrying == Plain(Empty) && stepCount == 0 && !done
    {
      this.width := width;
      this.height := height;
      this.maxSteps := maxSteps;
      this.agentViewSize := agentViewSize;
      this.seeThroughWalls := seeThroughWalls;
      this.agentStartDir := agentStartDir;
      grid := new Obj[height, width]((y, x) => Plain(Empty));
      agentX, agentY, agentDir := -1, -1, agentStartDir;
      stepCount := 0;
      carrying := Plain(Empty);
      done := false;
    }

    /** Starts an episode on the layout and agent pose the level generator produced. */
    method Reset(layout: array2<Obj>, x: int, y: int, dir: int)
      requires layout.Length0 == height && layout.Length1 == width
      requires x >= 0 && y >= 0 && dir >= 0
      requires x < width && y < height && CanOverlap(layout[y, x])
      modifies this
      ensures grid == layout && agentX == x && agentY == y && agentDir == dir
      ensures stepCount == 0 && !done && carrying == Plain(Empty)
      ensures Shaped() && AgentPlaced() && CarryingSane()
    {
      grid := layout;
      agentX, agentY, agentDir := x, y, dir;
      stepCount := 0;
      done := false;
      carrying := Plain(Empty);
    }

    /** One step of the episode: turn, move, pick up, drop, toggle or nothing, then the
        step counter and the done flag. Returns the reward. */
    method Step(act: Action) returns (reward: real)
      requires Shaped() && maxSteps > 0 && IsDir(agentDir) && InGrid(Ahead())
      modifies this`stepCount, this`agentX, this`agentY, this`agentDir, this`carrying, this`done, grid
      ensures grid == old(grid) && Shaped()
      ensures stepCount == old(stepCount) + 1
      ensures agentDir == (if act == Left then TurnLeft(old(agentDir))
                           else if act == Right then TurnRight(old(agentDir))
                           else old(agentDir))
      ensures var p := old(Ahead());
        (agentX, agentY) == if act == Forward && CanOverlap(old(grid[p.1, p.0])) then p else old((agentX, agentY))
      ensures var p := old(Ahead());
        (grid[p.1, p.0], carrying) == Interact(act, old(grid[p.1, p.0]), old(carrying))
      ensures var p := old(Ahead());
        forall y, x :: 0 <= y < height && 0 <= x < width && (x, y) != p ==> grid[y, x] == old(grid[y, x])
      ensures var p := old(Ahead());
        done == (old(done) || EndsEpisode(act, old(grid[p.1, p.0])) || stepCount >= maxSteps)
      ensures var p := old(Ahead());
        reward == Reward(act, old(grid[p.1, p.0]), stepCount, maxSteps)
      ensures old(AgentPlaced()) ==> AgentPlaced()
      ensures old(CarryingSane()) ==> CarryingSane()
    {
      stepCount := stepCount + 1;
      var fwd := FwdPos(agentX, agentY, agentDir);
      var fx, fy := fwd.0, fwd.1;
      reward := Dispatch(act, fx, fy);
      if stepCount >= maxSteps {
        done := true;
      }
    }

    /** The action's effect on the forward cell (fx, fy), the pose, the carried object
        and the done flag. */
    method Dispatch(act: Action, fx: int, fy: int) returns (reward: real)
      requires Shaped() && maxSteps > 0 && IsDir(agentDir) && InGrid((fx, fy)) && (fx, fy) != (agentX, agentY)
      modifies this`agentX, this`agentY, this`agentDir, this`carrying, this`done, grid
      ensures agentDir == (if act == Left then TurnLeft(old(agentDir))
                           else if act == Right then TurnRight(old(agentDir))
                           else old(agentDir))
      ensures (agentX, agentY) == if act == Forward && CanOverlap(old(grid[fy, fx])) then (fx, fy) else old((agentX, agentY))
      ensures (grid[fy, fx], carrying) == Interact(act, old(grid[fy, fx]), old(carrying))
      ensures forall y, x :: 0 <= y < height && 0 <= x < width && (x, y) != (fx, fy) ==> grid[y, x] == old(grid[y, x])
      ensures done == (old(done) || EndsEpisode(act, old(grid[fy, fx])))
      ensures reward == Reward(act, old(grid[fy, fx]), stepCount, maxSteps)
      ensures old(AgentPlaced()) ==> AgentPlaced()
      ensures old(CarryingSane()) ==> CarryingSane()
    {
      if act == Pickup || act == Drop || act == Toggle {
        reward := 0.0;
        Handle(act, fx, fy);
      } else {
        reward := Move(act, fx, fy);
      }
    }

    /** Left, Right, Forward and Done: they change the pose and the done flag only. */
    method Move(act: Action, fx: int, fy: int) returns (reward: real)
      requires Shaped() && maxSteps > 0 && IsDir(agentDir) && InGrid((fx, fy))
      requires act != Pickup && act != Drop && act != Toggle
      modifies this`agentX, this`agentY, this`agentDir, this`done
      ensures agentDir == (if act == Left then TurnLeft(old(agentDir))
                           else if act == Right then TurnRight(old(agentDir))
                           else old(agentDir))
      ensures (agentX, agentY) == if act == Forward && CanOverlap(grid[fy, fx]) then (fx, fy) else old((agentX, agentY))
      ensures done == (old(done) || EndsEpisode(act, grid[fy, fx]))
      ensures reward == Reward(act, grid[fy, fx], stepCount, maxSteps)
      ensures old(AgentPlaced()) ==> AgentPlaced()
    {
      reward := 0.0;
      if act == Left {
        agentDir := agentDir - 1;
        if agentDir < 0 {
          agentDir := agentDir + 4;
        }
      } else if act == Right {
        agentDir := (agentDir + 1) % 4;
      } else if act == Forward {
        reward := MoveForward(fx, fy);
      }
    }

    /** Pickup, Drop and Toggle: they change the forward cell and the carried object only. */
    method Handle(act: Action, fx: int, fy: int)
      requires Shaped() && InGrid((fx, fy)) && (fx, fy) != (agentX, agentY)
      requires act == Pickup || act == Drop || act == Toggle
      modifies this`carrying, grid
      ensures (grid[fy, fx], carrying) == Interact(act, old(grid[fy, fx]), old(carrying))
      ensures forall y, x :: 0 <= y < height && 0 <= x < width && (x, y) != (fx, fy) ==> grid[y, x] == old(grid[y, x])
      ensures old(AgentPlaced()) ==> AgentPlaced()
      ensures old(CarryingSane()) ==> CarryingSane()
    {
      if act == Pickup {
        PickupAt(fx, fy);
      } else if act == Drop {
        DropAt(fx, fy);
      } else {
        ToggleAt(fx, fy);
      }
    }

    /** The Forward action on the forward cell (fx, fy): move when the cell may be
        overlapped; the goal ends the episode with its reward, lava ends it with none. */
    method MoveForward(fx: int, fy: int) returns (reward: real)
      requires Shaped() && maxSteps > 0 && InGrid((fx, fy))
      modifies this`agentX, this`agentY, this`done
      ensures old(AgentPlaced()) ==> AgentPlaced()
      ensures (agentX, agentY) == if CanOverlap(grid[fy, fx]) then (fx, fy) else old((agentX, agentY))
      ensures done == (old(done) || EndsEpisode(Forward, grid[fy, fx]))
      ensures reward == Reward(Forward, grid[fy, fx], stepCount, maxSteps)
    {
      reward := 0.0;
      if CanOverlap(grid[fy, fx]) {
        agentX, agentY := fx, fy;
      }
      if grid[fy, fx].kind == Goal {
        done := true;
        reward := 1.0 - 0.9 * (stepCount as real / maxSteps as real);
      } else if grid[fy, fx].kind == Lava {
        done := true;
      }
    }

    /** The Pickup action on the forward cell (fx, fy). */
    method PickupAt(fx: int, fy: int)
      requires Shaped() && InGrid((fx, fy)) && (fx, fy) != (agentX, agentY)
      modifies grid, this`carrying
      ensures old(AgentPlaced()) ==> AgentPlaced()
      ensures old(CarryingSane()) ==> CarryingSane()
      ensures (grid[fy, fx], carrying) == PickUp(old(grid[fy, fx]), old(carrying))
      ensures forall y, x :: 0 <= y < height && 0 <= x < width && (x, y) != (fx, fy) ==> grid[y, x] == old(grid[y, x])
    {
      if carrying.kind == Empty && CanPickup(grid[fy, fx]) {
        carrying := grid[fy, fx];
        grid[fy, fx] := Plain(Empty);
      }
    }

    /** The Drop action on the forward cell (fx, fy). */
    method DropAt(fx: int, fy: int)
      requires Shaped() && InGrid((fx, fy)) && (fx, fy) != (agentX, agentY)
      modifies grid, this`carrying
      ensures old(AgentPlaced()) ==> AgentPlaced()
      ensures old(CarryingSane()) ==> CarryingSane()
      ensures (grid[fy, fx], carrying) == DropOnto(old(grid[fy, fx]), old(carrying))
      ensures forall y, x :: 0 <= y < height && 0 <= x < width && (x, y) != (fx, fy) ==> grid[y, x] == old(grid[y, x])
    {
      if carrying.kind != Empty && grid[fy, fx].kind == Empty {
        grid[fy, fx] := carrying;
        carrying := Plain(Empty);
      }
    }

    /** The Toggle action on the forward cell (fx, fy): doors open or close, boxes give
        way to their contents. */
    method ToggleAt(fx: int, fy: int)
      requires Shaped() && InGrid((fx, fy)) && (fx, fy) != (agentX, agentY)
      modifies grid
      ensures old(AgentPlaced()) ==> AgentPlaced()
      ensures grid[fy, fx] == ToggleCell(old(grid[fy, fx]), carrying)
      ensures forall y, x :: 0 <= y < height && 0 <= x < width && (x, y) != (fx, fy) ==> grid[y, x] == old(grid[y, x])
    {
      var obj := grid[fy, fx];
      if obj.kind == Door {
        if obj.locked {
          if carrying.kind == Key && carrying.color == obj.color {
            grid[fy, fx] := SetDoorOpen(grid[fy, fx], true);
          }
        } else {
          grid[fy, fx] := SetDoorOpen(grid[fy, fx], !obj.open);
        }
      } else if obj.kind == Box {
        match obj.contains
        case Some(inner) =>
          grid[fy, fx] := inner;
        case None =>
          grid[fy, fx] := Plain(Empty);
      }
    }

    /** Rejection sampling over the given stream of draws: the first draw on an Empty
        cell that is not the agent's. None when the stream ends without one (the engine
        would keep drawing). */
    method PlaceObject(sx: int, sy: int, ex: int, ey: int, draws: seq<(int, int)>)
      returns (pos: Option<(int, int)>)
      requires Shaped() && 0 <= sx <= ex < width && 0 <= sy <= ey < height
      requires DrawsIn(draws, sx, sy, ex, ey)
      ensures pos == FirstFree(Snapshot(grid), (agentX, agentY), draws)
      ensures pos.Some? ==> sx <= pos.value.0 <= ex && sy <= pos.value.1 <= ey
      ensures pos.Some? ==> grid[pos.value.1, pos.value.0].kind == Empty && pos.value != (agentX, agentY)
    {
      ghost var g := Snapshot(grid);
      var k := 0;
      while k < |draws|
        invariant 0 <= k <= |draws|
        invariant FirstFree(g, (agentX, agentY), draws) == FirstFree(g, (agentX, agentY), draws[k..])
      {
        var x, y := draws[k].0, draws[k].1;
        assert draws[k..][1..] == draws[k + 1..];
        k := k + 1;
        if grid[y, x].kind != Empty {
          continue;
        }
        if agentX == x && agentY == y {
          continue;
        }
        return Some((x, y));
      }
      return None;
    }

    /** Places the agent on a sampled free cell of the rectangle (an end of -1 meaning the
        last index), ignoring its old cell, and draws a direction when none is configured. */
    method PlaceAgent(sx: int, sy: int, ex: int, ey: int, draws: seq<(int, int)>, dirDraw: int)
      requires Shaped()
      requires sx <= EndOr(ex, width) && sy <= EndOr(ey, height)
      requires 0 <= sx && 0 <= sy && EndOr(ex, width) < width && EndOr(ey, height) < height
      requires DrawsIn(draws, sx, sy, EndOr(ex, width), EndOr(ey, height))
      requires agentStartDir == -1 ==> 0 <= dirDraw <= 3
      modifies this`agentX, this`agentY, this`agentDir
      ensures (agentX, agentY) == match FirstFree(old(Snapshot(grid)), (-1, -1), draws)
                                 case Some(p) => p
                                 case None => (-1, -1)
      ensures agentDir == if agentStartDir == -1 then dirDraw else old(agentDir)
      ensures agentStartDir == -1 ==> IsDir(agentDir)
    {
      var endX := if ex == -1 then width - 1 else ex;
      var endY := if ey == -1 then height - 1 else ey;
      agentX, agentY := -1, -1;
      assert Snapshot(grid) == old(Snapshot(grid));
      var pos := PlaceObject(sx, sy, endX, endY, draws);
      match pos {
      case Some(p) =>
        agentX, agentY := p.0, p.1;
      case None =>
      }
      if agentStartDir == -1 {
        agentDir := dirDraw;
      }
    }

    /** Renders the agent's partial, egocentric observation into obs[x, y, channel]:
        the square in front of the agent, turned so the agent faces up, with what it
        cannot see hidden and what it carries shown on its own cell. Entries of cells
        that are not visible keep their value. */
    method GenImage(obs: array3<int>) returns (ghost view: seq<seq<Obj>>, ghost vis: seq<seq<bool>>,
                                                ghost rank: seq<seq<nat>>)
      requires Shaped() && agentViewSize >= 1 && IsDir(agentDir)
      requires obs.Length0 == agentViewSize && obs.Length1 == agentViewSize && obs.Length2 == 3
      modifies obs
      ensures view == EgoView(old(Snapshot(grid)), agentX, agentY, agentDir, agentViewSize)
      ensures IsMatrix(vis, agentViewSize)
      ensures seeThroughWalls ==> forall a, b :: 0 <= a < agentViewSize && 0 <= b < agentViewSize ==> vis[a][b]
      ensures !seeThroughWalls ==> Visibility(view, vis, rank)
      ensures forall x, y, c :: 0 <= x < agentViewSize && 0 <= y < agentViewSize && 0 <= c < 3 ==>
        obs[x, y, c] == if vis[y][x] then Channel(Rendered(view, vis, carrying)[y][x], c) else old(obs[x, y, c])
    {
      var v := ObservedSquare();
      view := Snapshot(v);
      vis, rank := Observe(v, seeThroughWalls, carrying, obs);
    }

    /** The square the agent sees, cut out of the grid at the viewport corner and turned
        agentDir + 1 quarter turns counter-clockwise, one deep copy per turn. */
    method ObservedSquare() returns (v: array2<Obj>)
      requires Shaped() && agentViewSize >= 1 && IsDir(agentDir)
      ensures fresh(v) && v.Length0 == agentViewSize && v.Length1 == agentViewSize
      ensures Snapshot(v) == EgoView(Snapshot(grid), agentX, agentY, agentDir, agentViewSize)
    {
      var n := agentViewSize;
      var top := ViewCorner(agentX, agentY, agentDir, n);
      v := ExtractView(grid, width, height, top, n);
      ghost var e0 := Snapshot(v);
      var i := 0;
      while i < agentDir + 1
        invariant 0 <= i <= agentDir + 1
        invariant fresh(v) && v.Length0 == n && v.Length1 == n
        invariant Snapshot(v) == RotateN(e0, i)
      {
        v := RotateView(v);
        i := i + 1;
      }
    }
  }

  /** An open 5-by-5 room with the goal two cells east of the agent, which faces
      east; episodes last at most 10 steps. */
  method GoalRoom() returns (env: Env)
    ensures fresh(env) && fresh(env.grid) && env.Configured() && env.width == 5 && env.height == 5 && env.maxSteps == 10
    ensures env.agentX == 1 && env.agentY == 1 && env.agentDir == 0 && env.stepCount == 0 && !env.done
    ensures env.grid[1, 2] == Plain(Empty) && env.grid[1, 3] == Plain(Goal)
    ensures env.agentViewSize == 7 && !env.seeThroughWalls && env.carrying == Plain(Empty)
  {
    env := new Env(5, 5, 10, 7, false, 0);
    var layout := new Obj[5, 5]((y, x) => Plain(Empty));
    layout[1, 3] := Plain(Goal);
    env.Reset(layout, 1, 1, 0);
  }

  /** A short episode in that room: two steps east onto the goal. The first step pays
      nothing and leaves the agent at (2, 1) with the episode running; the second puts it
      on the goal at (3, 1) and ends the episode with 1 - 0.9 * 2/10. */
  method GoalScenario() returns (r1: real, mid: (int, int), midDone: bool,
                                 r2: real, end: (int, int), finished: bool)
    ensures r1 == 0.0 && mid == (2, 1) && !midDone
    ensures r2 == 41.0 / 50.0 && end == (3, 1) && finished
  {
    var env := GoalRoom();
    r1 := env.Step(Forward);
    mid, midDone := (env.agentX, env.agentY), env.done;
    assert env.agentDir == 0 && env.grid[1, 3] == Plain(Goal);
    r2 := env.Step(Forward);
    end, finished := (env.agentX, env.agentY), env.done;
  }
}
