/**
 * The equipment pool and its assignment rows, as the net effect of each request.
 * A request that the service or a database constraint refuses changes nothing.
 */
module Equipment {
  import opened Basics

  /** tracked is a history variable: never shared, and never resized below what was assigned. */
  datatype Item = Item(total: int, remaining: int, shared: bool, tracked: bool)

  /** A row of the assignment table; the table is in the order of assignment. */
  datatype Assignment = Assignment(item: nat, emp: nat, quantity: int)

  /** status tells of every employee whether it is active. */
  datatype Store = Store(items: map<nat, Item>, rows: seq<Assignment>, status: map<nat, bool>)

  datatype Request =
    | Join(emp: nat)
    | Create(id: nat, total: int, shared: Option<bool>)
    | Resize(id: nat, total: int, shared: Option<bool>)
    | Delete(id: nat)
    | Assign(id: nat, emp: nat, quantity: int)
    | Remove(id: nat, emp: nat)
    | Reassign(id: nat, from: nat, to: nat, quantity: int)
    | SetQuantity(id: nat, emp: nat, quantity: int)
    | Toggle(emp: nat, order: seq<nat>)

  function Empty(): Store {
    Store(map[], [], map[])
  }

  // ---------------------------------------------------------------------- queries

  /** Sum of a weight over rows. */
  function Sum(rows: seq<Assignment>, w: Assignment -> int): int {
    if rows == [] then 0 else Sum(rows[..|rows| - 1], w) + w(rows[|rows| - 1])
  }

  function OfItem(id: nat): Assignment -> int {
    (r: Assignment) => if r.item == id then r.quantity else 0
  }

  function OfHolder(id: nat, emp: nat): Assignment -> int {
    (r: Assignment) => if r.item == id && r.emp == emp then r.quantity else 0
  }

  /** Units of an item that are out. */
  function Assigned(rows: seq<Assignment>, id: nat): int {
    Sum(rows, OfItem(id))
  }

  /** Units of an item that one employee has. */
  function Held(rows: seq<Assignment>, id: nat, emp: nat): int {
    Sum(rows, OfHolder(id, emp))
  }

  /** The most recent row of an employee for an item, or -1. */
  function Latest(rows: seq<Assignment>, id: nat, emp: nat): (i: int)
    ensures -1 <= i < |rows|
    ensures i >= 0 ==> rows[i].item == id && rows[i].emp == emp
    ensures forall k :: i < k < |rows| ==> !(rows[k].item == id && rows[k].emp == emp)
  {
    if rows == [] then -1
    else if rows[|rows| - 1].item == id && rows[|rows| - 1].emp == emp then |rows| - 1
    else Latest(rows[..|rows| - 1], id, emp)
  }

  function Dropped(rows: seq<Assignment>, i: nat): seq<Assignment>
    requires i < |rows|
  {
    rows[..i] + rows[i + 1..]
  }

  /** The constraint on the pool columns. */
  predicate InBounds(x: Item) {
    0 <= x.remaining <= x.total
  }

  /** Pool after taking or returning units; a shared item is not counted. */
  function Moved(x: Item, delta: int): Item {
    if x.shared then x else x.(remaining := x.remaining + delta)
  }

  // ------------------------------------------------------------------------ steps

  function CreateStep(s: Store, id: nat, total: int, shared: Option<bool>): Store {
    if total < 1 || shared.None? || id in s.items then s
    else s.(items := s.items[id := Item(total, total, shared.value, !shared.value)])
  }

  /** The new size, with the remaining units shifted by the difference and cut off at zero. */
  function Resized(x: Item, total: int, shared: bool, out: int): Item {
    var shifted := x.remaining + (total - x.total);
    Item(total, if shared then total else if shifted < 0 then 0 else shifted, shared,
         x.tracked && !shared && out <= total)
  }

  function ResizeStep(s: Store, id: nat, total: int, shared: Option<bool>): Store {
    if total < 1 || id !in s.items then s
    else
      var x := s.items[id];
      var now := if shared.Some? then shared.value else x.shared;
      s.(items := s.items[id := Resized(x, total, now, Assigned(s.rows, id))])
  }

  function DeleteStep(s: Store, id: nat): Store {
    if id !in s.items || (exists i :: 0 <= i < |s.rows| && s.rows[i].item == id) then s
    else s.(items := s.items - {id})
  }

  predicate AssignAccepted(s: Store, id: nat, emp: nat, quantity: int) {
    quantity >= 1 && id in s.items && emp in s.status && (s.items[id].shared || s.items[id].remaining >= quantity)
  }

  function AssignStep(s: Store, id: nat, emp: nat, quantity: int): Store {
    if !AssignAccepted(s, id, emp, quantity) then s
    else s.(rows := s.rows + [Assignment(id, emp, quantity)],
            items := s.items[id := Moved(s.items[id], -quantity)])
  }

  /** A return needs a row, and room below the total for its units. */
  predicate RemoveAccepted(s: Store, id: nat, emp: nat) {
    var i := Latest(s.rows, id, emp);
    i >= 0 && id in s.items && InBounds(Moved(s.items[id], s.rows[i].quantity))
  }

  function RemoveStep(s: Store, id: nat, emp: nat): Store {
    if !RemoveAccepted(s, id, emp) then s
    else
      var i := Latest(s.rows, id, emp);
      s.(rows := Dropped(s.rows, i), items := s.items[id := Moved(s.items[id], s.rows[i].quantity)])
  }

  /** The giver's row without q units: gone when that was all of it. */
  function Reduced(rows: seq<Assignment>, i: nat, q: int): seq<Assignment>
    requires i < |rows|
  {
    if q == rows[i].quantity then Dropped(rows, i) else rows[i := rows[i].(quantity := rows[i].quantity - q)]
  }

  /** q units more for the receiver: merged into its most recent row, or a new row. */
  function Received(rows: seq<Assignment>, id: nat, to: nat, q: int): seq<Assignment> {
    var j := Latest(rows, id, to);
    if j >= 0 then rows[j := rows[j].(quantity := rows[j].quantity + q)] else rows + [Assignment(id, to, q)]
  }

  /** The units pass through the pool, so there must be room for them there. */
  predicate ReassignAccepted(s: Store, id: nat, from: nat, to: nat, q: int) {
    var i := Latest(s.rows, id, from);
    && q >= 1 && i >= 0 && id in s.items && to in s.status
    && q <= s.rows[i].quantity
    && InBounds(Moved(s.items[id], q))
  }

  function ReassignStep(s: Store, id: nat, from: nat, to: nat, q: int): Store {
    if !ReassignAccepted(s, id, from, to, q) then s
    else s.(rows := Received(Reduced(s.rows, Latest(s.rows, id, from), q), id, to, q))
  }

  predicate SetQuantityAccepted(s: Store, id: nat, emp: nat, quantity: int) {
    var i := Latest(s.rows, id, emp);
    quantity >= 1 && i >= 0 && id in s.items && InBounds(Moved(s.items[id], s.rows[i].quantity - quantity))
  }

  function SetQuantityStep(s: Store, id: nat, emp: nat, quantity: int): Store {
    if !SetQuantityAccepted(s, id, emp, quantity) then s
    else
      var i := Latest(s.rows, id, emp);
      s.(rows := s.rows[i := s.rows[i].(quantity := quantity)],
         items := s.items[id := Moved(s.items[id], s.rows[i].quantity - quantity)])
  }

  // ----------------------------------------------------------------- deactivation

  /** Distinct items of an employee, in whatever order the query lists them. */
  predicate Lists(order: seq<nat>, rows: seq<Assignment>, emp: nat) {
    && (forall i, j :: 0 <= i < j < |order| ==> order[i] != order[j])
    && (forall i :: 0 <= i < |order| ==> Latest(rows, order[i], emp) >= 0)
    && (forall i :: 0 <= i < |rows| && rows[i].emp == emp ==> rows[i].item in order)
  }

  /** One return after the other; None once a return is refused. */
  function Returns(s: Store, emp: nat, order: seq<nat>): Option<Store> {
    if order == [] then Some(s)
    else
      var before := Returns(s, emp, order[..|order| - 1]);
      var id := order[|order| - 1];
      if before.None? || !RemoveAccepted(before.value, id, emp) then None
      else Some(RemoveStep(before.value, id, emp))
  }

  /** Active employees are deactivated and return equipment, all or nothing; others are reactivated. */
  function ToggleStep(s: Store, emp: nat, order: seq<nat>): Store {
    if emp !in s.status || !Lists(order, s.rows, emp) then s
    else if !s.status[emp] then s.(status := s.status[emp := true])
    else
      var after := Returns(s, emp, order);
      if after.None? then s else after.value.(status := s.status[emp := false])
  }

  function Step(s: Store, r: Request): Store {
    match r
    case Join(emp) => if emp in s.status then s else s.(status := s.status[emp := true])
    case Create(id, total, shared) => CreateStep(s, id, total, shared)
    case Resize(id, total, shared) => ResizeStep(s, id, total, shared)
    case Delete(id) => DeleteStep(s, id)
    case Assign(id, emp, quantity) => AssignStep(s, id, emp, quantity)
    case Remove(id, emp) => RemoveStep(s, id, emp)
    case Reassign(id, from, to, quantity) => ReassignStep(s, id, from, to, quantity)
    case SetQuantity(id, emp, quantity) => SetQuantityStep(s, id, emp, quantity)
    case Toggle(emp, order) => ToggleStep(s, emp, order)
  }

  function Run(s: Store, requests: seq<Request>): Store {
    if requests == [] then s
    else Step(Run(s, requests[..|requests| - 1]), requests[|requests| - 1])
  }
}
