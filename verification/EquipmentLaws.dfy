/** Accounting laws of the equipment pool over all runs. */
module EquipmentLaws {
  import opened Basics
  import opened Equipment

  // ------------------------------------------------------------------ sums of rows

  lemma SumAppend(rows: seq<Assignment>, r: Assignment, w: Assignment -> int)
    ensures Sum(rows + [r], w) == Sum(rows, w) + w(r)
  {}

  lemma {:induction false} SumUpdate(rows: seq<Assignment>, i: nat, r: Assignment, w: Assignment -> int)
    requires i < |rows|
    ensures Sum(rows[i := r], w) == Sum(rows, w) - w(rows[i]) + w(r)
  {
    var n := |rows| - 1;
    if i == n {
      assert rows[i := r][..n] == rows[..n];
    } else {
      SumUpdate(rows[..n], i, r, w);
      assert rows[i := r][..n] == rows[..n][i := r];
    }
  }

  lemma {:induction false} SumDrop(rows: seq<Assignment>, i: nat, w: Assignment -> int)
    requires i < |rows|
    ensures Sum(Dropped(rows, i), w) == Sum(rows, w) - w(rows[i])
  {
    var n := |rows| - 1;
    if i == n {
      assert Dropped(rows, i) == rows[..n];
    } else {
      SumDrop(rows[..n], i, w);
      assert Dropped(rows, i)[..n - 1] == Dropped(rows[..n], i);
    }
  }

  lemma {:induction false} SumZero(rows: seq<Assignment>, w: Assignment -> int)
    requires forall i :: 0 <= i < |rows| ==> w(rows[i]) == 0
    ensures Sum(rows, w) == 0
  {
    if rows == [] {
    } else {
      SumZero(rows[..|rows| - 1], w);
    }
  }

  /** No weight exceeds the sum when none is negative. */
  lemma {:induction false} SumBounds(rows: seq<Assignment>, w: Assignment -> int, i: nat)
    requires i < |rows| && forall k :: 0 <= k < |rows| ==> w(rows[k]) >= 0
    ensures 0 <= w(rows[i]) <= Sum(rows, w)
  {
    var n := |rows| - 1;
    SumNotNegative(rows[..n], w);
    if i < n { SumBounds(rows[..n], w, i); }
  }

  lemma {:induction false} SumNotNegative(rows: seq<Assignment>, w: Assignment -> int)
    requires forall k :: 0 <= k < |rows| ==> w(rows[k]) >= 0
    ensures Sum(rows, w) >= 0
  {
    if rows == [] {
    } else {
      SumNotNegative(rows[..|rows| - 1], w);
    }
  }

  // --------------------------------------------------------------------- invariant

  predicate RowOk(s: Store, r: Assignment) {
    r.quantity >= 1 && r.item in s.items && r.emp in s.status
  }

  /** The pool constraint; no unit is lost; a shared item is fully available; a tracked one balances. */
  predicate ItemOk(x: Item, out: int) {
    && InBounds(x)
    && x.remaining + out >= x.total
    && (x.shared ==> x.remaining == x.total)
    && (x.tracked ==> !x.shared && x.remaining + out == x.total)
  }

  predicate RowsOk(s: Store) {
    forall i :: 0 <= i < |s.rows| ==> RowOk(s, s.rows[i])
  }

  predicate ItemsOk(s: Store) {
    forall id :: id in s.items ==> ItemOk(s.items[id], Assigned(s.rows, id))
  }

  predicate StoreOk(s: Store) {
    RowsOk(s) && ItemsOk(s)
  }

  lemma AssignedNotNegative(s: Store, id: nat)
    requires RowsOk(s)
    ensures Assigned(s.rows, id) >= 0
  {
    forall k | 0 <= k < |s.rows| ensures OfItem(id)(s.rows[k]) >= 0 {
      assert RowOk(s, s.rows[k]);
    }
    SumNotNegative(s.rows, OfItem(id));
  }

  /** What remains and what is out, beyond the total. */
  function Slack(s: Store, id: nat): int
    requires id in s.items
  {
    s.items[id].remaining + Assigned(s.rows, id) - s.items[id].total
  }

  /** How a request that moves delta units out changes every item's units out. */
  ghost predicate Shifts(rows: seq<Assignment>, after: seq<Assignment>, id: nat, delta: int) {
    forall other :: Assigned(after, other) == Assigned(rows, other) + if other == id then delta else 0
  }

  lemma UpdateShifts(rows: seq<Assignment>, i: nat, q: int)
    requires i < |rows|
    ensures Shifts(rows, rows[i := rows[i].(quantity := q)], rows[i].item, q - rows[i].quantity)
  {
    var after := rows[i := rows[i].(quantity := q)];
    forall other
      ensures Assigned(after, other)
              == Assigned(rows, other) + if other == rows[i].item then q - rows[i].quantity else 0
    {
      SumUpdate(rows, i, rows[i].(quantity := q), OfItem(other));
    }
  }

  lemma DropShifts(rows: seq<Assignment>, i: nat)
    requires i < |rows|
    ensures Shifts(rows, Dropped(rows, i), rows[i].item, -rows[i].quantity)
  {
    forall other
      ensures Assigned(Dropped(rows, i), other)
              == Assigned(rows, other) + if other == rows[i].item then -rows[i].quantity else 0
    {
      SumDrop(rows, i, OfItem(other));
    }
  }

  // ------------------------------------------------------------- one unit, one request

  lemma AssignKeeps(s: Store, id: nat, emp: nat, q: int)
    requires StoreOk(s) && AssignAccepted(s, id, emp, q)
    ensures StoreOk(AssignStep(s, id, emp, q))
    ensures Shifts(s.rows, AssignStep(s, id, emp, q).rows, id, q)
  {}

  lemma RemoveKeeps(s: Store, id: nat, emp: nat)
    requires StoreOk(s) && RemoveAccepted(s, id, emp)
    ensures StoreOk(RemoveStep(s, id, emp))
    ensures Shifts(s.rows, RemoveStep(s, id, emp).rows, id, -s.rows[Latest(s.rows, id, emp)].quantity)
  {
    var i := Latest(s.rows, id, emp);
    var after := RemoveStep(s, id, emp);
    DropShifts(s.rows, i);
    forall k | 0 <= k < |after.rows| ensures RowOk(after, after.rows[k]) {
      assert RowOk(s, s.rows[if k < i then k else k + 1]);
    }
    AssignedNotNegative(after, id);
    forall other | other in after.items ensures ItemOk(after.items[other], Assigned(after.rows, other)) {
      assert ItemOk(s.items[other], Assigned(s.rows, other));
    }
  }

  lemma SetQuantityKeeps(s: Store, id: nat, emp: nat, q: int)
    requires StoreOk(s) && SetQuantityAccepted(s, id, emp, q)
    ensures StoreOk(SetQuantityStep(s, id, emp, q))
    ensures Shifts(s.rows, SetQuantityStep(s, id, emp, q).rows, id, q - s.rows[Latest(s.rows, id, emp)].quantity)
  {
    var after := SetQuantityStep(s, id, emp, q);
    UpdateShifts(s.rows, Latest(s.rows, id, emp), q);
    AssignedNotNegative(after, id);
    forall other | other in after.items ensures ItemOk(after.items[other], Assigned(after.rows, other)) {
      assert ItemOk(s.items[other], Assigned(s.rows, other));
    }
  }

  lemma ReducedShifts(rows: seq<Assignment>, i: nat, q: int)
    requires i < |rows|
    ensures Shifts(rows, Reduced(rows, i, q), rows[i].item, -q)
  {
    var after := Reduced(rows, i, q);
    forall other: nat
      ensures Assigned(after, other) == Assigned(rows, other) + if other == rows[i].item then -q else 0
    {
      SumDrop(rows, i, OfItem(other));
      SumUpdate(rows, i, rows[i].(quantity := rows[i].quantity - q), OfItem(other));
    }
  }

  lemma ReceivedShifts(rows: seq<Assignment>, id: nat, to: nat, q: int)
    ensures Shifts(rows, Received(rows, id, to, q), id, q)
  {
    var after := Received(rows, id, to, q);
    var j := Latest(rows, id, to);
    forall other: nat ensures Assigned(after, other) == Assigned(rows, other) + if other == id then q else 0 {
      if j >= 0 {
        SumUpdate(rows, j, rows[j].(quantity := rows[j].quantity + q), OfItem(other));
      } else {
        SumAppend(rows, Assignment(id, to, q), OfItem(other));
      }
    }
  }

  lemma ReassignKeeps(s: Store, id: nat, from: nat, to: nat, q: int)
    requires StoreOk(s) && ReassignAccepted(s, id, from, to, q)
    ensures StoreOk(ReassignStep(s, id, from, to, q))
    ensures Shifts(s.rows, ReassignStep(s, id, from, to, q).rows, id, 0)
  {
    var i := Latest(s.rows, id, from);
    var reduced := Reduced(s.rows, i, q);
    ReducedShifts(s.rows, i, q);
    ReceivedShifts(reduced, id, to, q);
    assert forall k :: 0 <= k < |reduced| ==> RowOk(s, reduced[k]);
  }

  /** Resizing: the cut at zero keeps the pool in bounds, and never loses a unit. */
  lemma ResizeKeeps(s: Store, id: nat, total: int, shared: Option<bool>)
    requires StoreOk(s)
    ensures StoreOk(ResizeStep(s, id, total, shared))
  {}

  lemma CreateKeeps(s: Store, id: nat, total: int, shared: Option<bool>)
    requires StoreOk(s)
    ensures StoreOk(CreateStep(s, id, total, shared))
  {
    var after := CreateStep(s, id, total, shared);
    if after != s {
      assert Assigned(s.rows, id) == 0 by {
        forall i | 0 <= i < |s.rows| ensures OfItem(id)(s.rows[i]) == 0 {
          assert RowOk(s, s.rows[i]);
        }
        SumZero(s.rows, OfItem(id));
      }
      forall k | 0 <= k < |after.rows| ensures RowOk(after, after.rows[k]) {
        assert RowOk(s, s.rows[k]);
      }
    }
  }

  lemma DeleteKeeps(s: Store, id: nat)
    requires StoreOk(s)
    ensures StoreOk(DeleteStep(s, id))
  {}

  lemma {:induction false} ReturnsKeep(s: Store, emp: nat, order: seq<nat>)
    requires StoreOk(s) && Returns(s, emp, order).Some?
    ensures StoreOk(Returns(s, emp, order).value)
    ensures Returns(s, emp, order).value.status == s.status
    ensures Returns(s, emp, order).value.items.Keys == s.items.Keys
  {
    if order == [] {
    } else {
      ReturnsKeep(s, emp, order[..|order| - 1]);
      RemoveKeeps(Returns(s, emp, order[..|order| - 1]).value, order[|order| - 1], emp);
    }
  }

  lemma StatusKeeps(s: Store, emp: nat, active: bool)
    requires StoreOk(s)
    ensures StoreOk(s.(status := s.status[emp := active]))
  {}

  lemma ToggleKeeps(s: Store, emp: nat, order: seq<nat>)
    requires StoreOk(s)
    ensures StoreOk(ToggleStep(s, emp, order))
  {
    StatusKeeps(s, emp, true);
    if Returns(s, emp, order).Some? {
      ReturnsKeep(s, emp, order);
      StatusKeeps(Returns(s, emp, order).value, emp, false);
    }
  }

  /** Every request keeps the pool within its bounds and loses no unit. */
  lemma StepKeeps(s: Store, r: Request)
    requires StoreOk(s)
    ensures StoreOk(Step(s, r))
  {
    match r
    case Join(emp) => StatusKeeps(s, emp, true);
    case Create(id, total, shared) => CreateKeeps(s, id, total, shared);
    case Resize(id, total, shared) => ResizeKeeps(s, id, total, shared);
    case Delete(id) => DeleteKeeps(s, id);
    case Assign(id, emp, q) => if AssignAccepted(s, id, emp, q) { AssignKeeps(s, id, emp, q); }
    case Remove(id, emp) => if RemoveAccepted(s, id, emp) { RemoveKeeps(s, id, emp); }
    case Reassign(id, from, to, q) => if ReassignAccepted(s, id, from, to, q) { ReassignKeeps(s, id, from, to, q); }
    case SetQuantity(id, emp, q) => if SetQuantityAccepted(s, id, emp, q) { SetQuantityKeeps(s, id, emp, q); }
    case Toggle(emp, order) => ToggleKeeps(s, emp, order);
  }

  lemma {:induction false} RunKeeps(requests: seq<Request>)
    ensures StoreOk(Run(Empty(), requests))
  {
    if requests == [] {
    } else {
      RunKeeps(requests[..|requests| - 1]);
      StepKeeps(Run(Empty(), requests[..|requests| - 1]), requests[|requests| - 1]);
    }
  }

  /** Over every run: the pool is in bounds, a shared item is fully available, no unit is
      lost, and an item never shared and never resized below its use balances exactly. */
  lemma NothingIsLost(requests: seq<Request>, id: nat)
    requires id in Run(Empty(), requests).items
    ensures var s := Run(Empty(), requests);
            var x := s.items[id];
            && 0 <= x.remaining <= x.total
            && (x.shared ==> x.remaining == x.total)
            && x.remaining + Assigned(s.rows, id) >= x.total
            && (x.tracked ==> x.remaining + Assigned(s.rows, id) == x.total)
  {
    RunKeeps(requests);
    assert ItemOk(Run(Empty(), requests).items[id], Assigned(Run(Empty(), requests).rows, id));
  }

  // ---------------------------------------------------------------- rows of a holder

  function Part(r: Assignment, id: nat, emp: nat): seq<int> {
    if r.item == id && r.emp == emp then [r.quantity] else []
  }

  /** The quantities of an employee's rows for an item, oldest first. */
  function RowsOf(rows: seq<Assignment>, id: nat, emp: nat): seq<int> {
    if rows == [] then [] else RowsOf(rows[..|rows| - 1], id, emp) + Part(rows[|rows| - 1], id, emp)
  }

  function WithoutLast(q: seq<int>): seq<int> {
    if q == [] then [] else q[..|q| - 1]
  }

  /** The most recent row carries the last quantity. */
  lemma {:induction false} LatestIsLast(rows: seq<Assignment>, id: nat, emp: nat)
    ensures var q := RowsOf(rows, id, emp);
            var i := Latest(rows, id, emp);
            if i < 0 then q == [] else q != [] && q[|q| - 1] == rows[i].quantity
  {
    if rows == [] {
    } else {
      LatestIsLast(rows[..|rows| - 1], id, emp);
    }
  }

  lemma DroppedTail(rows: seq<Assignment>, i: nat, id: nat, emp: nat)
    requires i < |rows| - 1
    ensures RowsOf(Dropped(rows, i), id, emp)
            == RowsOf(Dropped(rows[..|rows| - 1], i), id, emp) + Part(rows[|rows| - 1], id, emp)
  {
    assert Dropped(rows, i)[..|rows| - 2] == Dropped(rows[..|rows| - 1], i);
  }

  lemma {:induction false} DropOther(rows: seq<Assignment>, i: nat, id: nat, emp: nat)
    requires i < |rows| && Part(rows[i], id, emp) == []
    ensures RowsOf(Dropped(rows, i), id, emp) == RowsOf(rows, id, emp)
  {
    if i == |rows| - 1 {
      assert Dropped(rows, i) == rows[..i];
    } else {
      DroppedTail(rows, i, id, emp);
      DropOther(rows[..|rows| - 1], i, id, emp);
    }
  }

  lemma {:induction false} DropOwn(rows: seq<Assignment>, id: nat, emp: nat)
    requires Latest(rows, id, emp) >= 0
    ensures RowsOf(Dropped(rows, Latest(rows, id, emp)), id, emp) == WithoutLast(RowsOf(rows, id, emp))
  {
    var i := Latest(rows, id, emp);
    if i == |rows| - 1 {
      assert Dropped(rows, i) == rows[..i];
    } else {
      DroppedTail(rows, i, id, emp);
      DropOwn(rows[..|rows| - 1], id, emp);
    }
  }

  /** Deleting the most recent row takes exactly the last quantity from its holder. */
  lemma DropLatest(rows: seq<Assignment>, id: nat, emp: nat, otherId: nat, other: nat)
    requires Latest(rows, id, emp) >= 0
    ensures var after := Dropped(rows, Latest(rows, id, emp));
            RowsOf(after, otherId, other)
            == if otherId == id && other == emp then WithoutLast(RowsOf(rows, id, emp))
               else RowsOf(rows, otherId, other)
  {
    if otherId == id && other == emp {
      DropOwn(rows, id, emp);
    } else {
      DropOther(rows, Latest(rows, id, emp), otherId, other);
    }
  }

  // ----------------------------------------------------------------- deactivation

  predicate Distinct(order: seq<nat>) {
    forall i, j :: 0 <= i < j < |order| ==> order[i] != order[j]
  }

  /** The quantities of a holder once the most recent row of each listed item of emp is gone. */
  function RowsLeft(s: Store, emp: nat, order: seq<nat>, id: nat, other: nat): seq<int> {
    if other == emp && id in order then WithoutLast(RowsOf(s.rows, id, emp)) else RowsOf(s.rows, id, other)
  }

  /** An item once that row is back in the pool. */
  function ItemLeft(s: Store, emp: nat, order: seq<nat>, id: nat): Item
    requires id in s.items
  {
    var q := RowsOf(s.rows, id, emp);
    if id in order && q != [] then Moved(s.items[id], q[|q| - 1]) else s.items[id]
  }

  lemma {:induction false} ReturnsRows(s: Store, emp: nat, order: seq<nat>, id: nat, other: nat)
    requires Distinct(order) && Returns(s, emp, order).Some?
    ensures RowsOf(Returns(s, emp, order).value.rows, id, other) == RowsLeft(s, emp, order, id, other)
  {
    if order == [] {
    } else {
      var rest, last := order[..|order| - 1], order[|order| - 1];
      var before := Returns(s, emp, rest).value;
      ReturnsRows(s, emp, rest, id, other);
      DropLatest(before.rows, last, emp, id, other);
      assert Returns(s, emp, order).value.rows == Dropped(before.rows, Latest(before.rows, last, emp));
      if id == last && other == emp {
        assert id !in rest && order[|order| - 1] == id;
      } else {
        assert id in order <==> id in rest || id == last;
      }
    }
  }

  lemma {:induction false} ReturnsItems(s: Store, emp: nat, order: seq<nat>, id: nat)
    requires Distinct(order) && Returns(s, emp, order).Some? && id in s.items
    ensures id in Returns(s, emp, order).value.items
    ensures Returns(s, emp, order).value.items[id] == ItemLeft(s, emp, order, id)
  {
    if order == [] {
    } else {
      var rest, last := order[..|order| - 1], order[|order| - 1];
      var before := Returns(s, emp, rest).value;
      ReturnsItems(s, emp, rest, id);
      assert id in order <==> id in rest || id == last;
      if id == last {
        ReturnsRows(s, emp, rest, last, emp);
        LatestIsLast(before.rows, last, emp);
      }
    }
  }

  /** What happened to other items does not matter to a return. */
  lemma ReturnIsLocal(s: Store, emp: nat, rest: seq<nat>, id: nat)
    requires StoreOk(s) && Distinct(rest) && Returns(s, emp, rest).Some? && id !in rest
    ensures RemoveAccepted(Returns(s, emp, rest).value, id, emp) <==> RemoveAccepted(s, id, emp)
  {
    var before := Returns(s, emp, rest).value;
    ReturnsKeep(s, emp, rest);
    ReturnsRows(s, emp, rest, id, emp);
    LatestIsLast(before.rows, id, emp);
    LatestIsLast(s.rows, id, emp);
    if id in s.items { ReturnsItems(s, emp, rest, id); }
  }

  /** The returns succeed exactly when each of them would on its own, in whatever order. */
  lemma {:induction false} ReturnsAccepted(s: Store, emp: nat, order: seq<nat>)
    requires StoreOk(s) && Distinct(order)
    ensures Returns(s, emp, order).Some? <==> forall i :: 0 <= i < |order| ==> RemoveAccepted(s, order[i], emp)
  {
    if order == [] {
    } else {
      var rest, last := order[..|order| - 1], order[|order| - 1];
      ReturnsAccepted(s, emp, rest);
      if Returns(s, emp, rest).Some? {
        ReturnIsLocal(s, emp, rest, last);
      } else {
        var i :| 0 <= i < |rest| && !RemoveAccepted(s, rest[i], emp);
        assert order[i] == rest[i];
      }
    }
  }

  predicate Deactivates(s: Store, emp: nat, order: seq<nat>) {
    emp in s.status && s.status[emp] && Lists(order, s.rows, emp) && Returns(s, emp, order).Some?
  }

  lemma ListedIsHeld(s: Store, emp: nat, order: seq<nat>, id: nat)
    requires Lists(order, s.rows, emp)
    ensures id in order <==> RowsOf(s.rows, id, emp) != []
  {
    LatestIsLast(s.rows, id, emp);
  }

  /** A deactivation takes exactly the most recent row of every item the employee has,
      and nothing from anybody else. */
  lemma DeactivationReturns(s: Store, emp: nat, order: seq<nat>, id: nat, other: nat)
    requires StoreOk(s) && Deactivates(s, emp, order)
    ensures var after := ToggleStep(s, emp, order);
            && after.status == s.status[emp := false]
            && RowsOf(after.rows, id, other)
               == if other == emp then WithoutLast(RowsOf(s.rows, id, emp)) else RowsOf(s.rows, id, other)
  {
    ReturnsRows(s, emp, order, id, other);
    ListedIsHeld(s, emp, order, id);
  }

  /** The pool gets those rows back, and nothing else happens to it. */
  lemma DeactivationRestores(s: Store, emp: nat, order: seq<nat>, id: nat)
    requires StoreOk(s) && Deactivates(s, emp, order) && id in s.items
    ensures var q := RowsOf(s.rows, id, emp);
            var after := ToggleStep(s, emp, order);
            && id in after.items
            && after.items[id] == if q == [] then s.items[id] else Moved(s.items[id], q[|q| - 1])
  {
    ReturnsItems(s, emp, order, id);
    ListedIsHeld(s, emp, order, id);
  }

  ghost predicate HoldsNothing(rows: seq<Assignment>, emp: nat) {
    forall id: nat :: RowsOf(rows, id, emp) == []
  }

  ghost predicate OneRowEach(rows: seq<Assignment>, emp: nat) {
    forall id: nat :: |RowsOf(rows, id, emp)| <= 1
  }

  /** It leaves the employee without equipment exactly when no item had two rows. */
  lemma DeactivationClears(s: Store, emp: nat, order: seq<nat>)
    requires StoreOk(s) && Deactivates(s, emp, order)
    ensures HoldsNothing(ToggleStep(s, emp, order).rows, emp) <==> OneRowEach(s.rows, emp)
  {
    var after := ToggleStep(s, emp, order);
    if HoldsNothing(after.rows, emp) {
      forall id: nat ensures |RowsOf(s.rows, id, emp)| <= 1 {
        DeactivationReturns(s, emp, order, id, emp);
        assert RowsOf(after.rows, id, emp) == [];
      }
      assert OneRowEach(s.rows, emp);
    }
    if OneRowEach(s.rows, emp) {
      forall id: nat ensures RowsOf(after.rows, id, emp) == [] {
        DeactivationReturns(s, emp, order, id, emp);
        assert |RowsOf(s.rows, id, emp)| <= 1;
      }
      assert HoldsNothing(after.rows, emp);
    }
  }

  /** One refused return refuses the whole deactivation, whatever the order. */
  lemma DeactivationRefused(s: Store, emp: nat, order: seq<nat>)
    requires StoreOk(s) && emp in s.status && s.status[emp] && Lists(order, s.rows, emp)
    ensures Deactivates(s, emp, order)
            <==> forall id: nat :: RowsOf(s.rows, id, emp) != [] ==> RemoveAccepted(s, id, emp)
    ensures !Deactivates(s, emp, order) ==> ToggleStep(s, emp, order) == s
  {
    ReturnsAccepted(s, emp, order);
    forall id: nat ensures id in order <==> RowsOf(s.rows, id, emp) != [] {
      ListedIsHeld(s, emp, order, id);
    }
  }

  // ------------------------------------------------------------------- reassignment

  lemma ReducedHolds(rows: seq<Assignment>, i: nat, q: int, id: nat, emp: nat)
    requires i < |rows|
    ensures Held(Reduced(rows, i, q), id, emp)
            == Held(rows, id, emp) - if rows[i].item == id && rows[i].emp == emp then q else 0
  {
    SumDrop(rows, i, OfHolder(id, emp));
    SumUpdate(rows, i, rows[i].(quantity := rows[i].quantity - q), OfHolder(id, emp));
  }

  lemma ReceivedHolds(rows: seq<Assignment>, item: nat, to: nat, q: int, id: nat, emp: nat)
    ensures Held(Received(rows, item, to, q), id, emp) == Held(rows, id, emp) + if item == id && to == emp then q else 0
  {
    var j := Latest(rows, item, to);
    if j >= 0 {
      SumUpdate(rows, j, rows[j].(quantity := rows[j].quantity + q), OfHolder(id, emp));
    } else {
      SumAppend(rows, Assignment(item, to, q), OfHolder(id, emp));
    }
  }

  /** A reassignment lowers the giver's holding by q and raises the receiver's by q; with one
      and the same employee it changes no holding.  The pool stays as it was. */
  lemma ReassignMoves(s: Store, id: nat, from: nat, to: nat, q: int, otherId: nat, other: nat)
    requires StoreOk(s) && ReassignAccepted(s, id, from, to, q)
    ensures var after := ReassignStep(s, id, from, to, q);
            && after.items == s.items && after.status == s.status
            && RowsOk(after)
            && Held(after.rows, otherId, other)
               == Held(s.rows, otherId, other) + (if otherId == id && other == to then q else 0)
                  - (if otherId == id && other == from then q else 0)
  {
    ReassignKeeps(s, id, from, to, q);
    var i := Latest(s.rows, id, from);
    ReducedHolds(s.rows, i, q, otherId, other);
    ReceivedHolds(Reduced(s.rows, i, q), id, to, q, otherId, other);
  }

  // ----------------------------------------------------------------------- refusals

  /** A return is refused exactly when the slack of a counted item exceeds what everybody
      else holds of it; so never for a tracked item. */
  lemma ReturnAccepted(s: Store, id: nat, emp: nat)
    requires StoreOk(s) && Latest(s.rows, id, emp) >= 0
    ensures id in s.items
    ensures RemoveAccepted(s, id, emp)
            <==> s.items[id].shared
                 || Slack(s, id) <= Assigned(s.rows, id) - s.rows[Latest(s.rows, id, emp)].quantity
    ensures s.items[id].tracked ==> RemoveAccepted(s, id, emp)
  {
    var i := Latest(s.rows, id, emp);
    assert RowOk(s, s.rows[i]);
    assert ItemOk(s.items[id], Assigned(s.rows, id));
    RowWithinAssigned(s, i);
  }

  lemma RowWithinAssigned(s: Store, i: nat)
    requires RowsOk(s) && i < |s.rows|
    ensures s.rows[i].quantity <= Assigned(s.rows, s.rows[i].item)
  {
    var id := s.rows[i].item;
    forall k | 0 <= k < |s.rows| ensures OfItem(id)(s.rows[k]) >= 0 {
      assert RowOk(s, s.rows[k]);
    }
    SumBounds(s.rows, OfItem(id), i);
  }

  /** For a tracked item the database bounds refuse nothing that the service's own checks allow. */
  lemma TrackedOnlyNeedsChecks(s: Store, id: nat, from: nat, to: nat, q: int)
    requires StoreOk(s) && Latest(s.rows, id, from) >= 0 && to in s.status && q >= 1
    ensures id in s.items
    ensures var held := s.rows[Latest(s.rows, id, from)].quantity;
            s.items[id].tracked ==>
              && (ReassignAccepted(s, id, from, to, q) <==> q <= held)
              && (SetQuantityAccepted(s, id, from, q) <==> q - held <= s.items[id].remaining)
  {
    var i := Latest(s.rows, id, from);
    assert RowOk(s, s.rows[i]);
    assert ItemOk(s.items[id], Assigned(s.rows, id));
    RowWithinAssigned(s, i);
  }

  /** Equipment that was shared while it was out cannot come back once it is counted again,
      and its holder cannot be deactivated. */
  lemma SharedAndBackStrands()
    ensures var s := Run(Empty(), [Join(1), Create(7, 2, Some(true)), Assign(7, 1, 1), Resize(7, 2, Some(false))]);
            && Held(s.rows, 7, 1) == 1
            && Step(s, Remove(7, 1)) == s
            && Step(s, Toggle(1, [7])) == s
            && s.status == map[1 := true]
  {
    var a := Store(map[], [], map[1 := true]);
    var b := Store(map[7 := Item(2, 2, true, false)], [], map[1 := true]);
    var c := b.(rows := [Assignment(7, 1, 1)]);
    var d := c.(items := map[7 := Item(2, 2, false, false)]);
    var all := [Join(1), Create(7, 2, Some(true)), Assign(7, 1, 1), Resize(7, 2, Some(false))];
    assert all[..3] == [Join(1), Create(7, 2, Some(true)), Assign(7, 1, 1)];
    assert all[..3][..2] == [Join(1), Create(7, 2, Some(true))];
    assert all[..3][..2][..1] == [Join(1)];
    assert Run(Empty(), [Join(1)]) == a;
    assert Run(Empty(), all[..3][..2]) == b;
    assert Run(Empty(), all[..3]) == c;
    assert Run(Empty(), all) == d;
    assert Latest(d.rows, 7, 1) == 0;
    assert Returns(d, 1, [7][..0]) == Some(d);
  }

  /** Nor can equipment that was resized below what is out: the pool is cut off at zero and has no
      room for the units. */
  lemma ResizedBelowStrands()
    ensures var s := Run(Empty(), [Join(1), Create(7, 5, Some(false)), Assign(7, 1, 5), Resize(7, 2, None)]);
            && Held(s.rows, 7, 1) == 5 && s.items == map[7 := Item(2, 0, false, false)]
            && Step(s, Remove(7, 1)) == s
            && Step(s, Toggle(1, [7])) == s
            && s.status == map[1 := true]
  {
    var a := Store(map[], [], map[1 := true]);
    var b := Store(map[7 := Item(5, 5, false, true)], [], map[1 := true]);
    var c := Store(map[7 := Item(5, 0, false, true)], [Assignment(7, 1, 5)], map[1 := true]);
    var d := c.(items := map[7 := Item(2, 0, false, false)]);
    var all := [Join(1), Create(7, 5, Some(false)), Assign(7, 1, 5), Resize(7, 2, None)];
    assert all[..3] == [Join(1), Create(7, 5, Some(false)), Assign(7, 1, 5)];
    assert all[..3][..2] == [Join(1), Create(7, 5, Some(false))];
    assert all[..3][..2][..1] == [Join(1)];
    assert Run(Empty(), [Join(1)]) == a;
    assert Run(Empty(), all[..3][..2]) == b;
    assert Run(Empty(), all[..3]) == c;
    assert Assigned(c.rows, 7) == 5;
    assert Run(Empty(), all) == d;
    assert Latest(d.rows, 7, 1) == 0;
    assert Returns(d, 1, [7][..0]) == Some(d);
  }

  // ----------------------------------------------------------------------- slack

  /** The exact movement of slack.  Counted items keep theirs under every movement of units;
      shared items gain and lose what is handed out and returned; resizing leaves what is
      out, or raises the slack to what is out beyond the new total. */
  function SlackAfter(s: Store, r: Request, id: nat): int
    requires StoreOk(s) && id in s.items
  {
    var now := Slack(s, id);
    var x := s.items[id];
    match r
    case Resize(other, total, shared) =>
      var out := Assigned(s.rows, id);
      if other != id || total < 1 then now
      else if shared == Some(true) || (shared.None? && x.shared) then out
      else if now < out - total then out - total else now
    case Assign(other, emp, q) =>
      if other == id && x.shared && AssignAccepted(s, id, emp, q) then now + q else now
    case Remove(other, emp) =>
      if other == id && x.shared && RemoveAccepted(s, id, emp)
      then now - s.rows[Latest(s.rows, id, emp)].quantity else now
    case SetQuantity(other, emp, q) =>
      if other == id && x.shared && SetQuantityAccepted(s, id, emp, q)
      then now + q - s.rows[Latest(s.rows, id, emp)].quantity else now
    case Toggle(emp, order) =>
      if id in order && x.shared && Deactivates(s, emp, order)
      then now - s.rows[Latest(s.rows, id, emp)].quantity else now
    case Reassign(_, _, _, _) => now
    case Join(_) => now
    case Create(_, _, _) => now
    case Delete(_) => now
  }

  lemma RemoveSlack(s: Store, other: nat, emp: nat, id: nat)
    requires StoreOk(s) && RemoveAccepted(s, other, emp) && id in s.items
    ensures Slack(RemoveStep(s, other, emp), id)
            == Slack(s, id) - if id == other && s.items[id].shared then s.rows[Latest(s.rows, id, emp)].quantity else 0
  {
    RemoveKeeps(s, other, emp);
  }

  /** A deactivation moves the slack of an item as that item's own return would. */
  lemma {:induction false} ReturnsSlack(s: Store, emp: nat, order: seq<nat>, id: nat)
    requires StoreOk(s) && Distinct(order) && Returns(s, emp, order).Some? && id in s.items
    ensures id in Returns(s, emp, order).value.items
    ensures var i := Latest(s.rows, id, emp);
            Slack(Returns(s, emp, order).value, id)
            == Slack(s, id) - if id in order && s.items[id].shared && i >= 0 then s.rows[i].quantity else 0
  {
    if order == [] {
    } else {
      var rest, last := order[..|order| - 1], order[|order| - 1];
      var before := Returns(s, emp, rest).value;
      ReturnsSlack(s, emp, rest, id);
      ReturnsKeep(s, emp, rest);
      ReturnsItems(s, emp, rest, id);
      RemoveSlack(before, last, emp, id);
      assert id in order <==> id in rest || id == last;
      if id == last {
        ReturnsRows(s, emp, rest, id, emp);
        LatestIsLast(before.rows, id, emp);
        LatestIsLast(s.rows, id, emp);
      }
    }
  }

  lemma AssignSlack(s: Store, other: nat, emp: nat, q: int, id: nat)
    requires StoreOk(s) && id in s.items
    ensures id in AssignStep(s, other, emp, q).items
    ensures Slack(AssignStep(s, other, emp, q), id) == SlackAfter(s, Assign(other, emp, q), id)
  {}

  lemma SetQuantitySlack(s: Store, other: nat, emp: nat, q: int, id: nat)
    requires StoreOk(s) && id in s.items
    ensures id in SetQuantityStep(s, other, emp, q).items
    ensures Slack(SetQuantityStep(s, other, emp, q), id) == SlackAfter(s, SetQuantity(other, emp, q), id)
  {
    if SetQuantityAccepted(s, other, emp, q) { SetQuantityKeeps(s, other, emp, q); }
  }

  lemma ToggleSlack(s: Store, emp: nat, order: seq<nat>, id: nat)
    requires StoreOk(s) && id in s.items
    ensures id in ToggleStep(s, emp, order).items
    ensures Slack(ToggleStep(s, emp, order), id) == SlackAfter(s, Toggle(emp, order), id)
  {
    if Deactivates(s, emp, order) { ReturnsSlack(s, emp, order, id); }
  }

  lemma ResizeSlack(s: Store, other: nat, total: int, shared: Option<bool>, id: nat)
    requires StoreOk(s) && id in s.items
    ensures Slack(ResizeStep(s, other, total, shared), id) == SlackAfter(s, Resize(other, total, shared), id)
  {}

  lemma SlackMoves(s: Store, r: Request, id: nat)
    requires StoreOk(s) && id in s.items && id in Step(s, r).items
    ensures Slack(Step(s, r), id) == SlackAfter(s, r, id)
  {
    match r
    case Join(emp) =>
    case Create(other, total, shared) =>
    case Resize(other, total, shared) => ResizeSlack(s, other, total, shared, id);
    case Delete(other) =>
    case Assign(other, emp, q) => AssignSlack(s, other, emp, q, id);
    case Remove(other, emp) => if RemoveAccepted(s, other, emp) { RemoveSlack(s, other, emp, id); }
    case Reassign(other, from, to, q) =>
      if ReassignAccepted(s, other, from, to, q) { ReassignKeeps(s, other, from, to, q); }
    case SetQuantity(other, emp, q) => SetQuantitySlack(s, other, emp, q, id);
    case Toggle(emp, order) => ToggleSlack(s, emp, order, id);
  }
}
