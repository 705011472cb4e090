/**
 * The equipment tables as an object.  Each method runs the statements of its
 * transaction on copies of the tables, checks the database constraints after every
 * statement, and stores the copies only when all of them hold.  Each is proved to
 * take the state one step of Equipment.
 */
module Warehouse {
  import opened Basics
  import opened Equipment
  import opened EquipmentLaws

  lemma RunGrows(requests: seq<Request>, r: Request)
    ensures Run(Empty(), requests + [r]) == Step(Run(Empty(), requests), r)
  {}

  /** UPDATE of the remaining quantity; fails when the constraint on it would. */
  method MovePool(items: map<nat, Item>, id: nat, delta: int) returns (ok: bool, after: map<nat, Item>)
    requires id in items
    ensures ok <==> 0 <= items[id].remaining + delta <= items[id].total
    ensures after == if ok then items[id := items[id].(remaining := items[id].remaining + delta)] else items
  {
    var x := items[id].(remaining := items[id].remaining + delta);
    ok := InBounds(x);
    after := if ok then items[id := x] else items;
  }

  /** The statements of a return. */
  method ReturnLatest(items: map<nat, Item>, rows: seq<Assignment>, ghost status: map<nat, bool>, id: nat, emp: nat)
    returns (ok: bool, newItems: map<nat, Item>, newRows: seq<Assignment>)
    requires Latest(rows, id, emp) >= 0 ==> id in items && InBounds(items[id])
    ensures ok <==> RemoveAccepted(Store(items, rows, status), id, emp)
    ensures Store(newItems, newRows, status) == RemoveStep(Store(items, rows, status), id, emp)
  {
    newItems, newRows := items, rows;
    var i := Latest(rows, id, emp);
    if i < 0 {
      return false, items, rows;
    }
    newRows := rows[..i] + rows[i + 1..];
    ok := true;
    if !items[id].shared {
      ok, newItems := MovePool(items, id, rows[i].quantity);
      if !ok {
        return false, items, rows;
      }
    }
  }

  /** The giver's row shrinks, or goes when that was all of it. */
  method TakeFrom(rows: seq<Assignment>, i: nat, quantity: int) returns (after: seq<Assignment>)
    requires i < |rows|
    ensures after == Reduced(rows, i, quantity)
    ensures forall k :: 0 <= k < |after| ==> exists h :: 0 <= h < |rows| && rows[h].emp == after[k].emp
  {
    if quantity == rows[i].quantity {
      after := rows[..i] + rows[i + 1..];
      assert forall k :: 0 <= k < |after| ==> rows[if k < i then k else k + 1].emp == after[k].emp;
    } else {
      after := rows[i := rows[i].(quantity := rows[i].quantity - quantity)];
      assert forall k :: 0 <= k < |after| ==> rows[k].emp == after[k].emp;
    }
  }

  /** The receiver's most recent row grows, or a new row refers to an employee who must exist. */
  method GiveTo(rows: seq<Assignment>, status: map<nat, bool>, id: nat, to: nat, quantity: int)
    returns (ok: bool, after: seq<Assignment>)
    requires forall k :: 0 <= k < |rows| ==> rows[k].emp in status
    ensures ok <==> to in status
    ensures ok ==> after == Received(rows, id, to, quantity)
  {
    var j := Latest(rows, id, to);
    ok, after := true, rows;
    if j >= 0 {
      after := rows[j := rows[j].(quantity := rows[j].quantity + quantity)];
    } else if to in status {
      after := rows + [Assignment(id, to, quantity)];
    } else {
      ok := false;
    }
  }

  /** The statements of a reassignment: out of the giver's row, into the pool, out of the pool
      again, into the receiver's row. */
  method HandOver(items: map<nat, Item>, rows: seq<Assignment>, status: map<nat, bool>,
                  id: nat, from: nat, to: nat, quantity: int)
    returns (ok: bool, newItems: map<nat, Item>, newRows: seq<Assignment>)
    requires id in items ==> InBounds(items[id])
    requires forall k :: 0 <= k < |rows| ==> rows[k].item in items && rows[k].emp in status
    ensures ok <==> ReassignAccepted(Store(items, rows, status), id, from, to, quantity)
    ensures Store(newItems, newRows, status) == ReassignStep(Store(items, rows, status), id, from, to, quantity)
  {
    newItems, newRows := items, rows;
    var i := Latest(rows, id, from);
    if quantity < 1 || i < 0 || quantity > rows[i].quantity {
      return false, items, rows;
    }
    newRows := TakeFrom(rows, i, quantity);
    ok := true;
    if !items[id].shared {
      ok, newItems := MovePool(items, id, quantity);
      if !ok {
        return false, items, rows;
      }
    }
    ok, newRows := GiveTo(newRows, status, id, to, quantity);
    if !ok {
      return false, items, rows;
    }
    if !items[id].shared {
      ok, newItems := MovePool(newItems, id, -quantity);
    }
    assert newItems == items;
  }

  lemma ShapeOf(s: Store, id: nat, emp: nat)
    requires StoreOk(s)
    ensures Latest(s.rows, id, emp) >= 0 ==> id in s.items && InBounds(s.items[id])
  {}

  class Stock {
    var items: map<nat, Item>
    var rows: seq<Assignment>
    var status: map<nat, bool>

    /** The requests taken so far. */
    ghost var requests: seq<Request>

    function Now(): Store
      reads this
    {
      Store(items, rows, status)
    }

    ghost predicate Valid()
      reads this
    {
      Now() == Run(Empty(), requests)
    }

    lemma Lawful()
      requires Valid()
      ensures StoreOk(Now())
    {
      RunKeeps(requests);
    }

    /** What a statement may rely on: the pool constraint, and the references of rows. */
    lemma InShape(id: nat)
      requires Valid()
      ensures id in items ==> InBounds(items[id]) && (items[id].shared ==> items[id].remaining == items[id].total)
      ensures forall i :: 0 <= i < |rows| ==> rows[i].item in items && rows[i].emp in status
    {
      Lawful();
      assert id in items ==> ItemOk(items[id], Assigned(rows, id));
      assert forall i :: 0 <= i < |rows| ==> RowOk(Now(), rows[i]);
    }

    constructor ()
      ensures Valid() && Now() == Empty()
    {
      items, rows, status, requests := map[], [], map[], [];
    }

    method CreateEquipment(id: nat, total: int, shared: Option<bool>) returns (ok: bool)
      requires Valid()
      modifies this
      ensures Valid() && Now() == Step(old(Now()), Create(id, total, shared))
      ensures ok <==> total >= 1 && shared.Some? && id !in old(items)
    {
      RunGrows(requests, Create(id, total, shared));
      requests := requests + [Create(id, total, shared)];
      ok := total >= 1 && shared.Some? && id !in items;
      if ok {
        items := items[id := Item(total, total, shared.value, !shared.value)];
      }
    }

    method UpdateEquipment(id: nat, total: int, shared: Option<bool>) returns (ok: bool)
      requires Valid()
      modifies this
      ensures Valid() && Now() == Step(old(Now()), Resize(id, total, shared))
      ensures ok <==> total >= 1 && id in old(items)
    {
      InShape(id);
      RunGrows(requests, Resize(id, total, shared));
      requests := requests + [Resize(id, total, shared)];
      if total < 1 || id !in items {
        return false;
      }
      var x := items[id];
      var isShared := x.shared;
      if shared.Some? {
        isShared := shared.value;
      }
      var remaining := total;
      if !isShared {
        remaining := x.remaining + (total - x.total);
        if remaining < 0 {
          remaining := 0;
        }
      }
      var y := Item(total, remaining, isShared, x.tracked && !isShared && Assigned(rows, id) <= total);
      ok := InBounds(y);
      if ok {
        items := items[id := y];
      }
    }

    method AssignEquipment(id: nat, emp: nat, quantity: int) returns (ok: bool)
      requires Valid()
      modifies this
      ensures Valid() && Now() == Step(old(Now()), Assign(id, emp, quantity))
      ensures ok <==> AssignAccepted(old(Now()), id, emp, quantity)
    {
      InShape(id);
      RunGrows(requests, Assign(id, emp, quantity));
      requests := requests + [Assign(id, emp, quantity)];
      if quantity < 1 || id !in items {
        return false;
      }
      if !items[id].shared && items[id].remaining < quantity {
        return false;
      }
      if emp !in status {
        return false;
      }
      var newRows := rows + [Assignment(id, emp, quantity)];
      var newItems := items;
      ok := true;
      if !items[id].shared {
        ok, newItems := MovePool(items, id, -quantity);
      }
      if ok {
        items, rows := newItems, newRows;
      }
    }

    method RemoveEquipment(id: nat, emp: nat) returns (ok: bool)
      requires Valid()
      modifies this
      ensures Valid() && Now() == Step(old(Now()), Remove(id, emp))
      ensures ok <==> RemoveAccepted(old(Now()), id, emp)
    {
      InShape(id);
      RunGrows(requests, Remove(id, emp));
      requests := requests + [Remove(id, emp)];
      ok, items, rows := ReturnLatest(items, rows, status, id, emp);
    }

    method Hand(id: nat, from: nat, to: nat, quantity: int) returns (ok: bool)
      requires Valid()
      modifies this
      ensures Valid() && Now() == Step(old(Now()), Reassign(id, from, to, quantity))
      ensures ok <==> ReassignAccepted(old(Now()), id, from, to, quantity)
    {
      InShape(id);
      RunGrows(requests, Reassign(id, from, to, quantity));
      requests := requests + [Reassign(id, from, to, quantity)];
      ok, items, rows := HandOver(items, rows, status, id, from, to, quantity);
    }

    method ChangeQuantity(id: nat, emp: nat, quantity: int) returns (ok: bool)
      requires Valid()
      modifies this
      ensures Valid() && Now() == Step(old(Now()), SetQuantity(id, emp, quantity))
      ensures ok <==> SetQuantityAccepted(old(Now()), id, emp, quantity)
    {
      InShape(id);
      RunGrows(requests, SetQuantity(id, emp, quantity));
      requests := requests + [SetQuantity(id, emp, quantity)];
      var i := Latest(rows, id, emp);
      if quantity < 1 || i < 0 {
        return false;
      }
      var diff := quantity - rows[i].quantity;
      var newItems := items;
      ok := true;
      if !items[id].shared {
        if diff > 0 {
          if items[id].remaining < diff {
            return false;
          }
          ok, newItems := MovePool(items, id, -diff);
        } else if diff < 0 {
          ok, newItems := MovePool(items, id, -diff);
        }
      }
      if ok {
        items, rows := newItems, rows[i := rows[i].(quantity := quantity)];
      }
    }

    method UpdateAssignment(id: nat, from: nat, to: Option<nat>, quantity: int) returns (ok: bool)
      requires Valid()
      modifies this
      ensures Valid()
      ensures Now() == Step(old(Now()), if to.Some? then Reassign(id, from, to.value, quantity)
                                        else SetQuantity(id, from, quantity))
      ensures ok <==> if to.Some? then ReassignAccepted(old(Now()), id, from, to.value, quantity)
                      else SetQuantityAccepted(old(Now()), id, from, quantity)
    {
      if to.Some? {
        ok := Hand(id, from, to.value, quantity);
      } else {
        ok := ChangeQuantity(id, from, quantity);
      }
    }

    /** The loop over the listed items; a refused return leaves the loop and the transaction. */
    method RestoreEmployeeEquipment(emp: nat, order: seq<nat>)
      returns (ok: bool, newItems: map<nat, Item>, newRows: seq<Assignment>)
      requires StoreOk(Now())
      ensures ok <==> Returns(Now(), emp, order).Some?
      ensures ok ==> Store(newItems, newRows, status) == Returns(Now(), emp, order).value
    {
      newItems, newRows := items, rows;
      for n := 0 to |order|
        invariant Returns(Now(), emp, order[..n]) == Some(Store(newItems, newRows, status))
      {
        ReturnsKeep(Now(), emp, order[..n]);
        ShapeOf(Store(newItems, newRows, status), order[n], emp);
        assert order[..n + 1][..n] == order[..n];
        ok, newItems, newRows := ReturnLatest(newItems, newRows, status, order[n], emp);
        if !ok {
          RefusedStays(Now(), emp, order, n + 1);
          return;
        }
      }
      assert order[..|order|] == order;
      ok := true;
    }

    method DeleteEmployeeStatus(emp: nat, order: seq<nat>) returns (ok: bool)
      requires Valid() && Lists(order, rows, emp)
      modifies this
      ensures Valid() && Now() == Step(old(Now()), Toggle(emp, order))
      ensures ok <==> emp in old(status) && (!old(status)[emp] || Returns(old(Now()), emp, order).Some?)
    {
      Lawful();
      RunGrows(requests, Toggle(emp, order));
      requests := requests + [Toggle(emp, order)];
      if emp !in status {
        return false;
      }
      var active := !status[emp];
      if active {
        status := status[emp := true];
        return true;
      }
      var newItems, newRows;
      ok, newItems, newRows := RestoreEmployeeEquipment(emp, order);
      if ok {
        items, rows, status := newItems, newRows, status[emp := false];
      }
    }
  }

  /** A refusal of a prefix is a refusal of the whole. */
  lemma {:induction false} RefusedStays(s: Store, emp: nat, order: seq<nat>, n: nat)
    requires n <= |order| && Returns(s, emp, order[..n]).None?
    ensures Returns(s, emp, order).None?
    decreases |order| - n
  {
    if n < |order| {
      assert order[..n + 1][..n] == order[..n];
      RefusedStays(s, emp, order, n + 1);
    } else {
      assert order[..n] == order;
    }
  }
}
