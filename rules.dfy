/** The interaction rules of one step on the forward cell and the carried object, and
    the reward. These are the specification the stepping method is proved against. */
module Rules {
  import opened Objects

  datatype Action = Left | Right | Forward | Pickup | Drop | Toggle | Done

  /** The non-empty objects among a cell and the carried slot. */
  function Held(cell: Obj, carrying: Obj): multiset<Obj> {
    (if cell.kind == Empty then multiset{} else multiset{cell}) +
    (if carrying.kind == Empty then multiset{} else multiset{carrying})
  }

  /** Picking up: the forward object moves into the empty hand. Nothing is created or
      lost, and when it happens the hand holds exactly the former cell. */
  function PickUp(cell: Obj, carrying: Obj): (r: (Obj, Obj))
    ensures Held(r.0, r.1) == Held(cell, carrying)
    ensures r != (cell, carrying) <==> carrying.kind == Empty && CanPickup(cell)
    ensures r != (cell, carrying) ==> r.1 == cell && r.0.kind == Empty
  {
    if carrying.kind == Empty && CanPickup(cell) then (Plain(Empty), cell)
    else (cell, carrying)
  }

  /** Dropping: the carried object moves onto an empty forward cell. Nothing is created
      or lost, and when it happens the cell holds exactly the former carried object. */
  function DropOnto(cell: Obj, carrying: Obj): (r: (Obj, Obj))
    ensures Held(r.0, r.1) == Held(cell, carrying)
    ensures r != (cell, carrying) <==> carrying.kind != Empty && cell.kind == Empty
    ensures r != (cell, carrying) ==> r.0 == carrying && r.1.kind == Empty
  {
    if carrying.kind != Empty && cell.kind == Empty then (carrying, Plain(Empty))
    else (cell, carrying)
  }

  /** The door with its open flag set (the lock flag is kept as it is). */
  function SetDoorOpen(o: Obj, b: bool): Obj {
    o.(open := b)
  }

  /** Toggling the forward object. */
  function ToggleCell(cell: Obj, carrying: Obj): (r: Obj)
    // a locked door opens exactly when the agent carries a key of the door's colour, and
    // changes in nothing else (the lock flag is kept, as SetDoorOpen keeps it)
    ensures cell.kind == Door && cell.locked ==>
      (r.open <==> cell.open || (carrying.kind == Key && carrying.color == cell.color)) &&
      r.(open := cell.open) == cell
    // without the matching key a locked door stays exactly as it was
    ensures cell.kind == Door && cell.locked && !(carrying.kind == Key && carrying.color == cell.color) ==>
      r == cell
    // an unlocked door flips between open and closed and changes in nothing else
    ensures cell.kind == Door && !cell.locked ==> r.open == !cell.open && r.(open := cell.open) == cell
    // a box gives way to what it holds, or to an empty cell, so repeated toggling of boxes ends
    ensures cell.kind == Box ==> Depth(r) < Depth(cell) || r == Plain(Empty)
    ensures cell.kind == Box && cell.contains.Some? ==> r == cell.contains.value
    // nothing else reacts
    ensures cell.kind != Door && cell.kind != Box ==> r == cell
  {
    if cell.kind == Door then
      if cell.locked then
        if carrying.kind == Key && carrying.color == cell.color then SetDoorOpen(cell, true)
        else cell
      else SetDoorOpen(cell, !cell.open)
    else if cell.kind == Box then
      match cell.contains
      case Some(inner) => inner
      case None => Plain(Empty)
    else cell
  }

  /** The new (forward cell, carried object) after an action. */
  function Interact(act: Action, cell: Obj, carrying: Obj): (r: (Obj, Obj))
    ensures act != Pickup && act != Drop && act != Toggle ==> r == (cell, carrying)
    ensures act == Toggle ==> r.1 == carrying
    ensures act != Toggle ==> Held(r.0, r.1) == Held(cell, carrying)
  {
    match act
    case Pickup => PickUp(cell, carrying)
    case Drop => DropOnto(cell, carrying)
    case Toggle => (ToggleCell(cell, carrying), carrying)
    case _ => (cell, carrying)
  }

  /** Picking up and then dropping onto the same cell restores that cell and leaves the
      hand empty. */
  lemma PickupThenDrop(cell: Obj, carrying: Obj)
    requires carrying.kind == Empty && CanPickup(cell)
    ensures var (c1, h1) := Interact(Pickup, cell, carrying);
            Interact(Drop, c1, h1) == (cell, Plain(Empty))
  {
  }

  /** Dropping and then picking up again restores what is carried and leaves the cell
      empty. */
  lemma DropThenPickup(cell: Obj, carrying: Obj)
    requires cell.kind == Empty && CanPickup(carrying)
    ensures var (c1, h1) := Interact(Drop, cell, carrying);
            Interact(Pickup, c1, h1) == (Plain(Empty), carrying)
  {
  }

  /** Toggling an unlocked door twice leaves it as it was. */
  lemma ToggleDoorTwice(cell: Obj, carrying: Obj)
    requires cell.kind == Door && !cell.locked
    ensures ToggleCell(ToggleCell(cell, carrying), carrying) == cell
  {
  }

  /** With the lock flag kept on opening, a door opened with its key stays locked and open,
      and every later toggle leaves it as it is, whatever the agent holds. */
  lemma KeyOpenedDoorStaysOpen(cell: Obj, key: Obj, hand: Obj)
    requires cell.kind == Door && cell.locked && key.kind == Key && key.color == cell.color
    ensures ToggleCell(cell, key).open && ToggleCell(cell, key).locked
    ensures ToggleCell(ToggleCell(cell, key), hand) == ToggleCell(cell, key)
  {
  }

  /** Reward for reaching the goal at step s of an episode of at most m steps,
      computed exactly (the engine computes it in floating point). */
  function GoalReward(s: int, m: int): (r: real)
    requires m > 0
    ensures 1 <= s <= m ==> 1.0 / 10.0 <= r < 1.0
    ensures s == m ==> r == 1.0 / 10.0
  {
    1.0 - 0.9 * (s as real / m as real)
  }

  /** Reaching the goal later pays strictly less. */
  lemma GoalRewardDecreasing(s1: int, s2: int, m: int)
    requires m > 0 && s1 < s2
    ensures GoalReward(s1, m) > GoalReward(s2, m)
  {
    assert s1 as real / m as real < s2 as real / m as real by {
      DivMonotone(s1 as real, s2 as real, m as real);
    }
  }

  /** Dividing by a positive number keeps a strict order. */
  lemma DivMonotone(a: real, b: real, m: real)
    requires m > 0.0 && a < b
    ensures a / m < b / m
  {
    assert b / m - a / m == (b - a) / m;
  }

  /** Whether the action ends the episode by itself (walking onto the goal or lava). */
  predicate EndsEpisode(act: Action, cell: Obj) {
    act == Forward && (cell.kind == Goal || cell.kind == Lava)
  }

  /** The reward of one step: only a forward step onto the goal pays. */
  function Reward(act: Action, cell: Obj, s: int, m: int): (r: real)
    requires m > 0
    ensures r != 0.0 ==> act == Forward && cell.kind == Goal
    ensures act == Forward && cell.kind == Goal && 1 <= s <= m ==> r >= 1.0 / 10.0
  {
    if act == Forward && cell.kind == Goal then GoalReward(s, m) else 0.0
  }
}
