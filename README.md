# MiniGrid engine, modelled and verified in Dafny

This project models the simulation kernel of envpool's MiniGrid environment
(`envpool/minigrid/impl/minigrid_env.cc`). A single agent moves on a rectangular grid of
typed objects: empty cells, walls, floors, doors, keys, balls, boxes, goals and lava. One
step applies one of seven actions (turn left, turn right, forward, pick up, drop, toggle,
done), updates the grid, the agent's pose, the carried object, the step counter and the
done flag, and returns a reward. Rendering produces the agent's partial, egocentric view:
the square in front of the agent, turned so that the agent faces up, with occluded cells
hidden, written as type, colour and state codes into an `[x][y][channel]` buffer.

Layout:

- `objects.dfy`, module `Objects`: the object value `Obj`.
  - The object's capabilities: whether the agent may stand on it, pick it up, or see past it.
  - The observation codes.
- `geometry.dfy`, module `Geometry`: directions, the forward cell, turns, and the corner of the viewport.
  - Also the map from a view cell to the absolute cell it shows.
- `rules.dfy`, module `Rules`: what one step does to the forward cell and the carried object, and the reward.
  - These are the specification functions that the stepping methods are proved against.
- `view.dfy`, module `View`: the pure specification of the observation.
  - Quarter turns, and the extracted egocentric square.
  - An independent characterisation of the visibility mask, with proofs that this mask is the least closed mask containing the agent's cell, and is unique.
  - The rendered view.
- `render.dfy`, module `Render`: the imperative phases of rendering, as methods over `array2`.
  - Extraction, the rotation passes, the two visibility sweeps per row, hiding, the overlay and the output write.
  - Each phase is proved against `View`.
- `minigrid_env.dfy`, module `MiniGrid`: the class `Env`.
  - Its fields are those of the engine. Its methods are `Reset`, `Step` (with one helper per action), `PlaceObject`, `PlaceAgent` and `GenImage`.
  - It also holds the reference function `FirstFree` for the rejection sampler, and a two-step goal scenario.

Modelling choices:

- A `CHECK` in the engine aborts the process. Each one becomes a `requires` of the method that performs it.
- The random generator is replaced by parameters.
  - `PlaceObject` receives the stream of `(x, y)` draws it would make.
  - `PlaceAgent` receives the draws and the direction draw.
- The level generator (`GenGrid`) is not part of this model. `Reset` receives the layout and the agent pose that it produces.
- The reward is computed exactly, as a `real`.
- The observation buffer is an `array3<int>`. For the assumed type, colour and state codes, every code written into it is proved to fit an unsigned byte.

## Model

| member | source | states |
|---|---|---|
| Objects.Channel | envpool/minigrid/impl/minigrid_env.cc:287-289 | for the assumed codes, every channel value of an object fits an unsigned byte, so the `uint8_t` casts lose nothing |
| Objects.StateCode | envpool/minigrid/impl/minigrid_env.cc:289 | for the assumed codes, the state channel of a door is 0, 1 or 2, and that of any other object is 0 |
| Objects.CodesInjective | envpool/minigrid/impl/minigrid_env.cc:287-288 | for the assumed codes, distinct types, and distinct colours, get distinct codes, so an observation determines them |
| Geometry.FwdPos | envpool/minigrid/impl/minigrid_env.cc:48-65 | the forward cell is (x+1,y), (x,y+1), (x-1,y) or (x,y-1) for directions 0 to 3, and it is never the agent's own cell |
| Geometry.TurnLeft | envpool/minigrid/impl/minigrid_env.cc:72-75 | a left turn gives a direction again: one less, with East turning to North |
| Geometry.TurnRight | envpool/minigrid/impl/minigrid_env.cc:77 | a right turn gives a direction again: one more, with North turning to East |
| Geometry.TurnsInverse | envpool/minigrid/impl/minigrid_env.cc:71-77 | a left turn and a right turn undo each other, in either order |
| Geometry.FourTurnsIdentity | envpool/minigrid/impl/minigrid_env.cc:76-77 | four right turns give back the starting direction |
| Geometry.TurnRightRotatesVector | envpool/minigrid/impl/minigrid_env.cc:48-65 | after a right turn, the forward offset is the old one rotated a quarter turn clockwise on screen |
| Geometry.FwdThenBack | envpool/minigrid/impl/minigrid_env.cc:48-65 | stepping forward, turning around and stepping forward again comes back to the start |
| Geometry.ViewCorner | envpool/minigrid/impl/minigrid_env.cc:179-195 | the agent's cell lies on the edge of the square opposite the facing direction (its west, north, east or south edge for directions 0 to 3), size/2 cells along that edge, and inside the square for every size of at least 1 |
| Geometry.ViewToWorldAlongVectors | envpool/minigrid/impl/minigrid_env.cc:179-195 | the absolute cell a view cell shows lies n-1-r steps along the facing vector and c-n/2 steps along the right-hand vector from the agent |
| Geometry.ViewToWorldAgentAndAhead | envpool/minigrid/impl/minigrid_env.cc:226-227 | the view's bottom-centre cell is the agent's cell, and the cell above it is the forward cell |
| Rules.PickUp | envpool/minigrid/impl/minigrid_env.cc:88-93 | a pickup changes anything exactly when the hand is empty and the object can be picked up; then the hand holds the former cell and the cell is empty; no object is created or lost |
| Rules.DropOnto | envpool/minigrid/impl/minigrid_env.cc:94-99 | a drop changes anything exactly when something is carried and the cell is empty; then the cell holds the former carried object and the hand is empty; no object is created or lost |
| Rules.ToggleCell | envpool/minigrid/impl/minigrid_env.cc:100-124 | a locked door ends up open exactly when it was open or the agent holds a key of its colour, and without that key it is unchanged; an unlocked door flips open and changes in nothing else; a box gives way to its contents (its nested contents kept) or to an empty cell, so each toggle of a box strictly lowers the nesting depth; anything else is unchanged |
| Rules.Interact | envpool/minigrid/impl/minigrid_env.cc:70-127 | turns, forward and done leave the forward cell and the hand alone; toggling never changes the hand; pickup and drop keep the objects held between cell and hand |
| Rules.PickupThenDrop | envpool/minigrid/impl/minigrid_env.cc:88-99 | picking an object up and dropping it on the same cell restores the cell and empties the hand |
| Rules.DropThenPickup | envpool/minigrid/impl/minigrid_env.cc:88-99 | dropping an object on an empty cell and picking it up again restores the hand and empties the cell |
| Rules.ToggleDoorTwice | envpool/minigrid/impl/minigrid_env.cc:109-111 | toggling an unlocked door twice leaves it as it was |
| Rules.KeyOpenedDoorStaysOpen | envpool/minigrid/impl/minigrid_env.cc:103-108 | under the assumed `SetDoorOpen`, a door opened with its key stays locked and open, and every later toggle leaves it unchanged |
| Rules.GoalReward | envpool/minigrid/impl/minigrid_env.cc:84 | for 1 <= step_count <= max_steps the goal reward lies in [0.1, 1), and it is exactly 0.1 at the last step |
| Rules.GoalRewardDecreasing | envpool/minigrid/impl/minigrid_env.cc:84 | reaching the goal later pays strictly less |
| Rules.Reward | envpool/minigrid/impl/minigrid_env.cc:46-87 | a step pays something only when it is a forward step onto the goal, and for 1 <= step_count <= max_steps that pays at least 0.1 |
| View.Rotate | envpool/minigrid/impl/minigrid_env.cc:217-221 | one pass moves the cell at row y, column x to row size-1-x, column y |
| View.PrePostInverse | envpool/minigrid/impl/minigrid_env.cc:217-221 | the cell map of one pass has an inverse, so each pass is a bijection on cells |
| View.RotateNAt | envpool/minigrid/impl/minigrid_env.cc:213-223 | after k passes, each view cell holds the original cell that the k-fold cell map points back to |
| View.Rotate4Identity | envpool/minigrid/impl/minigrid_env.cc:213-223 | four passes are the identity |
| View.RotateBijective | envpool/minigrid/impl/minigrid_env.cc:213-223 | three more passes undo one pass, in either order |
| View.Sighted | envpool/minigrid/impl/minigrid_env.cc:204-208 | a viewed cell keeps only the type: inside the grid the type of the grid cell, outside it a wall, and default colour, door state and contents in both cases |
| View.Extract | envpool/minigrid/impl/minigrid_env.cc:198-211 | the cut-out square holds the type of each in-grid cell and a wall for each cell outside the grid |
| View.EgoView | envpool/minigrid/impl/minigrid_env.cc:179-223 | the view is size-by-size, and for an odd size its cell at row r, column c shows the absolute cell size-1-r steps ahead of the agent and c-size/2 steps to its right |
| View.EgocentricView | envpool/minigrid/impl/minigrid_env.cc:179-223 | for an odd view size, every cell of the square at the corner, after dir+1 passes, shows the cell of the agent's frame |
| View.TurnedExtractAt | envpool/minigrid/impl/minigrid_env.cc:198-223 | after k passes, a cell of the cut-out square shows the absolute cell at the corner plus the offset that the k-fold cell map points back to |
| View.EgocentricFrame | envpool/minigrid/impl/minigrid_env.cc:179-223 | for an odd view size, the corner formulas followed by dir+1 passes show at row r, column c the absolute cell size-1-r steps ahead of the agent and c-size/2 steps to its right |
| View.CornerMeetsFrame | envpool/minigrid/impl/minigrid_env.cc:179-195 | each direction's corner, offset by where dir+1 passes send a view cell, is that cell's position relative to the agent |
| View.AgentAtBottomCentre | envpool/minigrid/impl/minigrid_env.cc:226-227 | the view shows the agent's own cell at the bottom centre and the forward cell just above it |
| View.VisibleIsLeast | envpool/minigrid/impl/minigrid_env.cc:233-264 | every cell of the visibility mask is visible in every mask that holds the agent's cell and is closed under the propagation rule |
| View.VisibilityUnique | envpool/minigrid/impl/minigrid_env.cc:233-264 | a view has only one visibility mask |
| View.CarriedView | envpool/minigrid/impl/minigrid_env.cc:278-282 | the agent's cell shows an object of the carried type |
| View.Rendered | envpool/minigrid/impl/minigrid_env.cc:265-282 | in the rendered view, hidden cells are empty, visible cells show the view, and the agent's cell shows what is carried |
| Render.ExtractView | envpool/minigrid/impl/minigrid_env.cc:197-211 | the extracted array is the square that Extract specifies |
| Render.ExtractRow | envpool/minigrid/impl/minigrid_env.cc:200-210 | one pass of the inner loop fills row i and leaves the other rows alone |
| Render.RotateView | envpool/minigrid/impl/minigrid_env.cc:214-222 | one deep-copy pass yields the quarter turn of its input |
| Render.SeedMask | envpool/minigrid/impl/minigrid_env.cc:228-234 | a fresh size-by-size mask holding exactly the agent's cell, at the bottom centre |
| Render.LightRight | envpool/minigrid/impl/minigrid_env.cc:244-248 | processing cell (j, i) left to right marks its right neighbour and, below the top row, the cells above both, and changes no other mask cell |
| Render.LightLeft | envpool/minigrid/impl/minigrid_env.cc:258-262 | processing cell (j, i) right to left marks its left neighbour and, below the top row, the cells above both, and changes no other mask cell |
| Render.StepSound | envpool/minigrid/impl/minigrid_env.cc:241-262 | lighting the targets of a visible cell that lets light through keeps every visible cell justified by an earlier one |
| Render.RowClosed | envpool/minigrid/impl/minigrid_env.cc:235-263 | once both sweeps have processed a row, it is closed under the propagation rule |
| Render.RightStep | envpool/minigrid/impl/minigrid_env.cc:244-248 | marking what a left-to-right step lights keeps the sweep invariant and the closed rows below |
| Render.LeftStep | envpool/minigrid/impl/minigrid_env.cc:258-262 | marking what a right-to-left step lights keeps the sweep invariant, the closed rows below and the left-to-right work already done |
| Render.SweepRight | envpool/minigrid/impl/minigrid_env.cc:236-249 | the left-to-right sweep keeps the sweep invariant and leaves every cell of the row with its rightward work done |
| Render.SweepLeft | envpool/minigrid/impl/minigrid_env.cc:250-263 | the right-to-left sweep keeps the invariant and leaves the row closed |
| Render.SweepMask | envpool/minigrid/impl/minigrid_env.cc:228-264 | the mask produced by the sweeps is the visibility mask of the view |
| Render.SweptIsVisibility | envpool/minigrid/impl/minigrid_env.cc:233-264 | when all rows are closed, the sweep invariant is the visibility characterisation |
| Render.AllVisible | envpool/minigrid/impl/minigrid_env.cc:272-276 | with see-through walls, every mask cell is true |
| Render.ComputeMask | envpool/minigrid/impl/minigrid_env.cc:226-276 | the mask holds every cell with see-through walls, and otherwise it is the visibility mask |
| Render.HideInvisible | envpool/minigrid/impl/minigrid_env.cc:265-271 | every cell outside the mask becomes empty, and every other cell is kept |
| Render.Overlay | envpool/minigrid/impl/minigrid_env.cc:277-282 | after the overlay, the visible cells hold the rendered view, with the carried object on the agent's cell |
| Render.WriteObs | envpool/minigrid/impl/minigrid_env.cc:283-292 | obs(x, y, c) is channel c of view cell [y][x] where [y][x] is visible; every other entry is untouched |
| Render.Present | envpool/minigrid/impl/minigrid_env.cc:265-292 | hiding, overlay and output together write the rendered visible cells and nothing else |
| Render.Observe | envpool/minigrid/impl/minigrid_env.cc:224-292 | the observation of a rotated view is its rendered view on the visibility mask, or on the full mask with see-through walls |
| MiniGrid.FirstFree | envpool/minigrid/impl/minigrid_env.cc:158-172 | the sampler finds a cell exactly when some draw is eligible, and what it finds is an eligible draw: its cell is Empty and is not the agent's |
| MiniGrid.FirstFreeIsFirst | envpool/minigrid/impl/minigrid_env.cc:158-172 | the sampler keeps the first eligible draw, having rejected every earlier draw |
| MiniGrid.EndOr | envpool/minigrid/impl/minigrid_env.cc:136-137 | an end of -1 means the last index of the axis; any other end is kept |
| MiniGrid.Env.Reset | envpool/minigrid/impl/minigrid_env.cc:33-42 | a new episode starts with zero steps, not done, an empty hand, and the agent on a cell it may overlap |
| MiniGrid.Env.Step | envpool/minigrid/impl/minigrid_env.cc:44-132 | the counter rises by one; the direction turns by -1 or +1 mod 4 only on Left or Right; the agent moves to the forward cell only on Forward onto an overlappable cell; the forward cell and the hand change as Interact says and no other cell changes; done is never cleared and is set by goal, lava or reaching max_steps; the reward is Reward's; the agent stays on an overlappable cell and the hand only ever holds something that can be picked up |
| MiniGrid.Env.Dispatch | envpool/minigrid/impl/minigrid_env.cc:70-127 | the action's effect on the forward cell, the pose, the hand and the done flag, with the reward before the step limit |
| MiniGrid.Env.Move | envpool/minigrid/impl/minigrid_env.cc:71-87 | turns change only the direction; forward changes only the position and the done flag |
| MiniGrid.Env.Handle | envpool/minigrid/impl/minigrid_env.cc:88-124 | pickup, drop and toggle change only the forward cell and the hand, as Interact says |
| MiniGrid.Env.MoveForward | envpool/minigrid/impl/minigrid_env.cc:78-87 | the agent enters the forward cell exactly when it may overlap it; goal and lava end the episode; only the goal pays |
| MiniGrid.Env.PickupAt | envpool/minigrid/impl/minigrid_env.cc:88-93 | the forward cell and the hand become PickUp's result, and no other cell changes |
| MiniGrid.Env.DropAt | envpool/minigrid/impl/minigrid_env.cc:94-99 | the forward cell and the hand become DropOnto's result, and no other cell changes |
| MiniGrid.Env.ToggleAt | envpool/minigrid/impl/minigrid_env.cc:100-124 | the forward cell becomes ToggleCell's result, and no other cell changes |
| MiniGrid.Env.PlaceObject | envpool/minigrid/impl/minigrid_env.cc:153-174 | the result is the sampler's first eligible draw; it lies in the inclusive rectangle, on an Empty cell that is not the agent's |
| MiniGrid.Env.PlaceAgent | envpool/minigrid/impl/minigrid_env.cc:134-149 | the agent lands on the first draw that is an Empty cell, which may be its old cell; the direction is the direction draw (in 0..3) exactly when no start direction is configured, and is unchanged otherwise |
| MiniGrid.Env.ObservedSquare | envpool/minigrid/impl/minigrid_env.cc:179-223 | the extracted and rotated array is the egocentric view of the grid |
| MiniGrid.Env.GenImage | envpool/minigrid/impl/minigrid_env.cc:176-293 | obs holds, at every visible cell, the codes of the rendered egocentric view; the mask is the visibility mask (all cells with see-through walls); the rest of obs is untouched |
| MiniGrid.GoalRoom | envpool/minigrid/impl/minigrid_env.cc:33-42 | a 5-by-5 room with the agent at (1,1) facing east, an empty hand and the goal at (3,1), reset for a 10-step episode with a 7-cell view and walls that block sight |
| MiniGrid.GoalScenario | envpool/minigrid/impl/minigrid_env.cc:78-87 | the first forward step pays 0 and leaves the agent at (2,1) with the episode running; the second puts it on the goal at (3,1), pays 1 - 0.9 * 2/10 and ends the episode |

## Left out

- `GenGrid` and the per-level layout generators are not part of this model. `Reset` takes the grid and agent pose they leave behind.
- The random generator is not modelled. Its draws are parameters of `PlaceObject` and `PlaceAgent`.
- MiniGrid.Env.PlaceObject: the engine's loop runs until it finds an eligible cell. The model consumes a finite stream of draws and returns None when the stream ends without one. It does not state that a full rectangle makes the engine loop forever.
- MiniGrid.Env.PlaceObject: it requires the rectangle to lie inside the grid, where the engine would read outside the grid.
    - MiniGrid.Env.PlaceAgent requires the same.
    - Reset also requires the agent's cell to lie inside the grid.
- MiniGrid.Env.PlaceAgent: when the draws run out without a free cell, the agent stays at (-1, -1). The engine would keep drawing.
- Rules.GoalReward: the engine computes the reward in single-precision floating point. The model computes it exactly, so rounding is not modelled.
    - The code computes `1 - 0.9 * step_count / max_steps`, which lies in [0.1, 1) for 1 <= step_count <= max_steps, and the model follows the code.
- Rules.Reward: `max_steps` is required to be positive, because a division by zero in floating point is not modelled.
    - MiniGrid.Env.Step, MiniGrid.Env.Dispatch, MiniGrid.Env.Move and MiniGrid.Env.MoveForward require the same, as they compute that reward.
    - MiniGrid.Env.GenImage and MiniGrid.Env.ObservedSquare require a view size of at least 1.
- MiniGrid.Env.Step: `step_count` is an unbounded integer. Overflow of the engine's `int` counter is not modelled.
- MiniGrid.Env.Step: Step does not block steps after the episode is done. Like the engine, the model keeps stepping and paying the goal reward.
- Action codes outside the seven actions cannot be written in the `Action` datatype. The engine's `CHECK(false)` for them is therefore not modelled.
- The `WorldObj` header is not part of this model. The following are stated as assumed definitions:
    - the capability predicates;
    - the type, colour and state codes;
    - the one-argument constructor's defaults (colour red, a closed unlocked door, nothing inside);
    - `SetDoorOpen`, which keeps the `locked` flag as it is.
- Rules.ToggleCell: because the assumed `SetDoorOpen` keeps the lock flag, a door opened with its key stays locked in the model, and no later toggle closes it again (Rules.KeyOpenedDoorStaysOpen). If the header's `SetDoorOpen` clears the lock, the engine's next toggle closes that door, as an unlocked door's toggle does; the model does not capture that.
- Box contents are owned values. The pointer juggling and the deletion at lines 114-120 are modelled only by their effect on the cell, and aliasing is not modelled.
- View.EgocentricFrame: the egocentric-frame lemmas, and the frame clause of View.EgoView, require an odd view size. The engine does not check this. For an even size, the corner formulas do not centre the agent.
- The `Array` tensor type and the `uint8_t` casts: the observation is an `array3<int>`, and the model proves the casts are lossless instead of modelling them.
- The Python task registration (`envpool/minigrid/registration.py`) and the multi-instance parallel host are configuration and concurrency, outside this engine.
