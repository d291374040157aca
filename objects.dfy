/** The contents of one grid cell: object types, colours, the object value itself,
    the per-type capabilities the engine consults and the integer codes written to
    an observation. */
module Objects {

  datatype Option<+T> = None | Some(value: T)

  datatype ObjType = Empty | Wall | Floor | Door | Key | Ball | Box | Goal | Lava | Agent

  datatype Color = Red | Green | Blue | Purple | Yellow | Grey

  /** A world object. `locked` and `open` are a door's state; `contains` is the object
      a box holds, owned by value (the engine's owning pointer becomes an Option). */
  datatype Obj = Obj(kind: ObjType, color: Color, locked: bool, open: bool, contains: Option<Obj>)

  /** The object built from a type alone (the one-argument WorldObj constructor):
      default colour, an unlocked closed door state, nothing inside. */
  function Plain(k: ObjType): Obj {
    Obj(k, Red, false, false, None)
  }

  /** Whether the agent may stand on the object's cell. */
  predicate CanOverlap(o: Obj) {
    o.kind == Empty || o.kind == Floor || o.kind == Goal || o.kind == Lava ||
    (o.kind == Door && o.open)
  }

  /** Whether the agent may carry the object. */
  predicate CanPickup(o: Obj) {
    o.kind == Key || o.kind == Ball || o.kind == Box
  }

  /** Whether light passes through the object's cell. */
  predicate CanSeeBehind(o: Obj) {
    o.kind != Wall && !(o.kind == Door && !o.open)
  }

  /** Channel 0 of an observation cell. Code 0 is left for "never seen". */
  function TypeCode(k: ObjType): (c: int)
    ensures 1 <= c <= 10
  {
    match k
    case Empty => 1
    case Wall => 2
    case Floor => 3
    case Door => 4
    case Key => 5
    case Ball => 6
    case Box => 7
    case Goal => 8
    case Lava => 9
    case Agent => 10
  }

  /** Channel 1 of an observation cell. */
  function ColorCode(c: Color): (r: int)
    ensures 0 <= r <= 5
  {
    match c
    case Red => 0
    case Green => 1
    case Blue => 2
    case Purple => 3
    case Yellow => 4
    case Grey => 5
  }

  /** Distinct types and colours get distinct codes, so an observation determines them. */
  lemma CodesInjective(k1: ObjType, k2: ObjType, c1: Color, c2: Color)
    ensures TypeCode(k1) == TypeCode(k2) ==> k1 == k2
    ensures ColorCode(c1) == ColorCode(c2) ==> c1 == c2
  {
  }

  /** Channel 2 of an observation cell: a door's state (open, closed, locked), 0 otherwise. */
  function StateCode(o: Obj): (r: int)
    ensures 0 <= r <= 2
    ensures o.kind != Door ==> r == 0
  {
    if o.kind != Door then 0
    else if o.open then 0
    else if o.locked then 2
    else 1
  }

  /** The value of channel `ch` for an object; every channel fits the unsigned byte the
      observation stores it in, so the narrowing cast loses nothing. */
  function Channel(o: Obj, ch: int): (r: int)
    requires 0 <= ch < 3
    ensures 0 <= r < 256
  {
    if ch == 0 then TypeCode(o.kind)
    else if ch == 1 then ColorCode(o.color)
    else StateCode(o)
  }

  /** How many boxes deep an object is nested. */
  function Depth(o: Obj): nat {
    match o.contains
    case None => 0
    case Some(inner) => 1 + Depth(inner)
  }
}
