/**
 * What each equipment request does to the rows of every holder and to the pool.
 */
module EquipmentEffects {
  import opened Basics
  import opened Equipment
  import opened EquipmentLaws

  function Changed(rows: seq<Assignment>, i: nat, q: int): seq<Assignment>
    requires i < |rows|
  {
    rows[i := rows[i].(quantity := q)]
  }

  lemma ChangedTail(rows: seq<Assignment>, i: nat, q: int, id: nat, emp: nat)
    requires i < |rows| - 1
    ensures RowsOf(Changed(rows, i, q), id, emp)
            == RowsOf(Changed(rows[..|rows| - 1], i, q), id, emp) + Part(rows[|rows| - 1], id, emp)
  {
    assert Changed(rows, i, q)[..|rows| - 1] == Changed(rows[..|rows| - 1], i, q);
  }

  lemma {:induction false} ChangeOther(rows: seq<Assignment>, i: nat, q: int, id: nat, emp: nat)
    requires i < |rows| && Part(rows[i], id, emp) == []
    ensures RowsOf(Changed(rows, i, q), id, emp) == RowsOf(rows, id, emp)
  {
    if i == |rows| - 1 {
      assert Changed(rows, i, q)[..i] == rows[..i];
    } else {
      ChangedTail(rows, i, q, id, emp);
      ChangeOther(rows[..|rows| - 1], i, q, id, emp);
    }
  }

  lemma {:induction false} ChangeOwn(rows: seq<Assignment>, id: nat, emp: nat, q: int)
    requires Latest(rows, id, emp) >= 0
    ensures RowsOf(Changed(rows, Latest(rows, id, emp), q), id, emp) == WithoutLast(RowsOf(rows, id, emp)) + [q]
  {
    var i := Latest(rows, id, emp);
    if i == |rows| - 1 {
      assert Changed(rows, i, q)[..i] == rows[..i];
    } else {
      ChangedTail(rows, i, q, id, emp);
      ChangeOwn(rows[..|rows| - 1], id, emp, q);
    }
  }

  /** Changing the most recent row changes the last quantity of its holder and no other. */
  lemma ChangeLatest(rows: seq<Assignment>, id: nat, emp: nat, q: int, item: nat, holder: nat)
    requires Latest(rows, id, emp) >= 0
    ensures RowsOf(Changed(rows, Latest(rows, id, emp), q), item, holder)
            == if item == id && holder == emp then WithoutLast(RowsOf(rows, id, emp)) + [q]
               else RowsOf(rows, item, holder)
  {
    if item == id && holder == emp {
      ChangeOwn(rows, id, emp, q);
    } else {
      ChangeOther(rows, Latest(rows, id, emp), q, item, holder);
    }
  }

  // ------------------------------------------------------------------- assignments

  /** An assignment needs an item, an employee, and for a counted item enough in the pool, which for
      a tracked one is what is not out.  It gives the employee a row of its own, besides those that
      the employee has; nobody else's rows change. */
  lemma AssignExactly(s: Store, id: nat, emp: nat, q: int, item: nat, holder: nat)
    requires StoreOk(s)
    ensures var after := Step(s, Assign(id, emp, q));
            if q >= 1 && id in s.items && emp in s.status && (s.items[id].shared || q <= s.items[id].remaining) then
              && RowsOf(after.rows, item, holder)
                 == RowsOf(s.rows, item, holder) + (if item == id && holder == emp then [q] else [])
              && after.items == s.items[id := after.items[id]] && after.status == s.status
              && after.items[id] == s.items[id].(remaining := after.items[id].remaining)
              && after.items[id].remaining == s.items[id].remaining - if s.items[id].shared then 0 else q
            else after == s
    ensures id in s.items && s.items[id].tracked
            ==> s.items[id].remaining == s.items[id].total - Assigned(s.rows, id)
  {
    assert id in s.items ==> ItemOk(s.items[id], Assigned(s.rows, id));
    var rows := s.rows + [Assignment(id, emp, q)];
    assert rows[..|s.rows|] == s.rows;
  }

  /** The holder's most recent row is gone, and nobody else's; a counted item got it back. */
  predicate Returned(s: Store, after: Store, id: nat, emp: nat, item: nat, holder: nat) {
    RowsReturned(s.rows, after.rows, id, emp, item, holder) && PoolRepaid(s, after, id, emp)
  }

  predicate RowsReturned(rows: seq<Assignment>, after: seq<Assignment>, id: nat, emp: nat, item: nat, holder: nat) {
    RowsOf(after, item, holder)
    == if item == id && holder == emp then WithoutLast(RowsOf(rows, id, emp)) else RowsOf(rows, item, holder)
  }

  predicate PoolRepaid(s: Store, after: Store, id: nat, emp: nat) {
    var q := RowsOf(s.rows, id, emp);
    && q != [] && id in s.items
    && var x := s.items[id];
    && after.items == s.items[id := x.(remaining := x.remaining + if x.shared then 0 else q[|q| - 1])]
    && after.status == s.status
  }

  /** It has no room in the pool. */
  predicate NoRoom(s: Store, id: nat, emp: nat) {
    var q := RowsOf(s.rows, id, emp);
    && q != [] && id in s.items
    && !s.items[id].shared && s.items[id].remaining + q[|q| - 1] > s.items[id].total
  }

  lemma DroppedRows(rows: seq<Assignment>, id: nat, emp: nat, item: nat, holder: nat)
    requires Latest(rows, id, emp) >= 0
    ensures RowsReturned(rows, Dropped(rows, Latest(rows, id, emp)), id, emp, item, holder)
  {
    DropLatest(rows, id, emp, item, holder);
  }

  lemma RepaidPool(s: Store, after: Store, id: nat, emp: nat)
    requires Latest(s.rows, id, emp) >= 0 && id in s.items && after.status == s.status
    requires var x, last := s.items[id], s.rows[Latest(s.rows, id, emp)].quantity;
             after.items == s.items[id := x.(remaining := x.remaining + if x.shared then 0 else last)]
    ensures PoolRepaid(s, after, id, emp)
  {
    LatestIsLast(s.rows, id, emp);
  }

  lemma ReturnedAll(s: Store, id: nat, emp: nat, item: nat, holder: nat)
    requires Latest(s.rows, id, emp) >= 0 && RemoveAccepted(s, id, emp)
    ensures Returned(s, RemoveStep(s, id, emp), id, emp, item, holder)
  {
    var after := RemoveStep(s, id, emp);
    assert after.rows == Dropped(s.rows, Latest(s.rows, id, emp));
    DroppedRows(s.rows, id, emp, item, holder);
    RepaidPool(s, after, id, emp);
  }

  /** The item of a holder's row. */
  predicate RowFacts(s: Store, id: nat, i: nat)
    requires i < |s.rows|
  {
    id in s.items && InBounds(s.items[id]) && s.rows[i].quantity >= 1
  }

  lemma RowIsSound(s: Store, id: nat, emp: nat)
    requires StoreOk(s) && Latest(s.rows, id, emp) >= 0
    ensures RowFacts(s, id, Latest(s.rows, id, emp))
  {
    assert RowOk(s, s.rows[Latest(s.rows, id, emp)]);
    assert ItemOk(s.items[id], Assigned(s.rows, id));
  }

  /** Whether a row fits the pool, told by its holder's quantities. */
  lemma RoomFor(s: Store, id: nat, emp: nat)
    requires Latest(s.rows, id, emp) >= 0
    requires RowFacts(s, id, Latest(s.rows, id, emp))
    ensures RowsOf(s.rows, id, emp) != []
    ensures RemoveAccepted(s, id, emp) <==> !NoRoom(s, id, emp)
  {
    LatestIsLast(s.rows, id, emp);
  }

  /** A return takes the holder's most recent row, whole, unless there is no room for it. */
  lemma RemoveExactly(s: Store, id: nat, emp: nat, item: nat, holder: nat)
    requires StoreOk(s)
    ensures var after := Step(s, Remove(id, emp));
            if RowsOf(s.rows, id, emp) == [] || NoRoom(s, id, emp) then after == s
            else Returned(s, after, id, emp, item, holder)
  {
    if Latest(s.rows, id, emp) < 0 {
      LatestIsLast(s.rows, id, emp);
    } else {
      RowIsSound(s, id, emp);
      RoomFor(s, id, emp);
      if RemoveAccepted(s, id, emp) { ReturnedAll(s, id, emp, item, holder); }
    }
  }

  /** The holder's most recent row has n units; the pool of a counted item paid the difference. */
  predicate Requantified(s: Store, after: Store, id: nat, emp: nat, n: int, item: nat, holder: nat) {
    RowsRequantified(s.rows, after.rows, id, emp, n, item, holder) && PoolPaid(s, after, id, emp, n)
  }

  predicate RowsRequantified(rows: seq<Assignment>, after: seq<Assignment>, id: nat, emp: nat, n: int,
                             item: nat, holder: nat)
  {
    RowsOf(after, item, holder)
    == if item == id && holder == emp then WithoutLast(RowsOf(rows, id, emp)) + [n] else RowsOf(rows, item, holder)
  }

  predicate PoolPaid(s: Store, after: Store, id: nat, emp: nat, n: int) {
    var q := RowsOf(s.rows, id, emp);
    && q != [] && id in s.items
    && var x := s.items[id];
    && after.items == s.items[id := x.(remaining := x.remaining - if x.shared then 0 else n - q[|q| - 1])]
    && after.status == s.status
  }

  predicate PoolCannotPay(s: Store, id: nat, emp: nat, n: int) {
    var q := RowsOf(s.rows, id, emp);
    && q != [] && id in s.items
    && !s.items[id].shared && !(0 <= s.items[id].remaining - (n - q[|q| - 1]) <= s.items[id].total)
  }

  lemma PaidPool(s: Store, after: Store, id: nat, emp: nat, n: int)
    requires Latest(s.rows, id, emp) >= 0 && id in s.items && after.status == s.status
    requires var x, more := s.items[id], n - s.rows[Latest(s.rows, id, emp)].quantity;
             after.items == s.items[id := x.(remaining := x.remaining - if x.shared then 0 else more)]
    ensures PoolPaid(s, after, id, emp, n)
  {
    LatestIsLast(s.rows, id, emp);
  }

  lemma RequantifiedAll(s: Store, id: nat, emp: nat, n: int, item: nat, holder: nat)
    requires Latest(s.rows, id, emp) >= 0 && SetQuantityAccepted(s, id, emp, n)
    ensures Requantified(s, SetQuantityStep(s, id, emp, n), id, emp, n, item, holder)
  {
    var after := SetQuantityStep(s, id, emp, n);
    assert after.rows == Changed(s.rows, Latest(s.rows, id, emp), n);
    ChangedRows(s.rows, id, emp, n, item, holder);
    PaidPool(s, after, id, emp, n);
  }

  lemma ChangedRows(rows: seq<Assignment>, id: nat, emp: nat, n: int, item: nat, holder: nat)
    requires Latest(rows, id, emp) >= 0
    ensures RowsRequantified(rows, Changed(rows, Latest(rows, id, emp), n), id, emp, n, item, holder)
  {
    ChangeLatest(rows, id, emp, n, item, holder);
  }

  lemma CanPay(s: Store, id: nat, emp: nat, n: int)
    requires Latest(s.rows, id, emp) >= 0
    requires RowFacts(s, id, Latest(s.rows, id, emp))
    ensures RowsOf(s.rows, id, emp) != []
    ensures SetQuantityAccepted(s, id, emp, n) <==> n >= 1 && !PoolCannotPay(s, id, emp, n)
  {
    LatestIsLast(s.rows, id, emp);
  }

  /** A positive quantity replaces that of the holder's most recent row, if the pool can pay for it. */
  lemma SetQuantityExactly(s: Store, id: nat, emp: nat, n: int, item: nat, holder: nat)
    requires StoreOk(s)
    ensures var after := Step(s, SetQuantity(id, emp, n));
            if n < 1 || RowsOf(s.rows, id, emp) == [] || PoolCannotPay(s, id, emp, n) then after == s
            else Requantified(s, after, id, emp, n, item, holder)
  {
    if Latest(s.rows, id, emp) < 0 {
      LatestIsLast(s.rows, id, emp);
    } else {
      RowIsSound(s, id, emp);
      CanPay(s, id, emp, n);
      if SetQuantityAccepted(s, id, emp, n) { RequantifiedAll(s, id, emp, n, item, holder); }
    }
  }

  /** The giver's quantities without n units of the last one. */
  function Given(q: seq<int>, n: int): seq<int>
    requires q != []
  {
    var last := q[|q| - 1];
    if n == last then WithoutLast(q) else WithoutLast(q) + [last - n]
  }

  /** The receiver's quantities with n more units in the last one, or in a first one. */
  function Gotten(q: seq<int>, n: int): seq<int> {
    if q == [] then [n] else WithoutLast(q) + [q[|q| - 1] + n]
  }

  lemma PartRows(rows: seq<Assignment>, id: nat, emp: nat, n: int, item: nat, holder: nat)
    requires Latest(rows, id, emp) >= 0 && n != rows[Latest(rows, id, emp)].quantity
    ensures RowsOf(rows, id, emp) != []
    ensures RowsOf(Reduced(rows, Latest(rows, id, emp), n), item, holder)
            == if item == id && holder == emp then Given(RowsOf(rows, id, emp), n) else RowsOf(rows, item, holder)
  {
    LatestIsLast(rows, id, emp);
    var i := Latest(rows, id, emp);
    assert Reduced(rows, i, n) == Changed(rows, i, rows[i].quantity - n);
    ChangeLatest(rows, id, emp, rows[i].quantity - n, item, holder);
  }

  lemma ReducedRows(rows: seq<Assignment>, id: nat, emp: nat, n: int, item: nat, holder: nat)
    requires Latest(rows, id, emp) >= 0
    ensures RowsOf(rows, id, emp) != []
    ensures RowsOf(Reduced(rows, Latest(rows, id, emp), n), item, holder)
            == if item == id && holder == emp then Given(RowsOf(rows, id, emp), n) else RowsOf(rows, item, holder)
  {
    LatestIsLast(rows, id, emp);
    if n == rows[Latest(rows, id, emp)].quantity {
      DropLatest(rows, id, emp, item, holder);
    } else {
      PartRows(rows, id, emp, n, item, holder);
    }
  }

  lemma JoinedRows(rows: seq<Assignment>, id: nat, emp: nat, n: int, item: nat, holder: nat)
    requires Latest(rows, id, emp) >= 0
    ensures RowsOf(Received(rows, id, emp, n), item, holder)
            == if item == id && holder == emp then Gotten(RowsOf(rows, id, emp), n) else RowsOf(rows, item, holder)
  {
    var j := Latest(rows, id, emp);
    LatestIsLast(rows, id, emp);
    assert Received(rows, id, emp, n) == Changed(rows, j, rows[j].quantity + n);
    ChangeLatest(rows, id, emp, rows[j].quantity + n, item, holder);
  }

  lemma AppendedRows(rows: seq<Assignment>, id: nat, emp: nat, n: int, item: nat, holder: nat)
    ensures RowsOf(rows + [Assignment(id, emp, n)], item, holder)
            == RowsOf(rows, item, holder) + if item == id && holder == emp then [n] else []
  {
    assert (rows + [Assignment(id, emp, n)])[..|rows|] == rows;
  }

  lemma ReceivedRows(rows: seq<Assignment>, id: nat, emp: nat, n: int, item: nat, holder: nat)
    ensures RowsOf(Received(rows, id, emp, n), item, holder)
            == if item == id && holder == emp then Gotten(RowsOf(rows, id, emp), n) else RowsOf(rows, item, holder)
  {
    LatestIsLast(rows, id, emp);
    if Latest(rows, id, emp) >= 0 {
      JoinedRows(rows, id, emp, n, item, holder);
    } else {
      AppendedRows(rows, id, emp, n, item, holder);
    }
  }

  /** Units handed over leave the giver's most recent row, and join the receiver's or start one. */
  lemma ReassignRows(s: Store, id: nat, from: nat, to: nat, n: int, item: nat, holder: nat)
    requires StoreOk(s) && ReassignAccepted(s, id, from, to, n)
    ensures RowsOf(s.rows, id, from) != []
    ensures var after := Step(s, Reassign(id, from, to, n));
            var had := RowsOf(s.rows, item, holder);
            var kept := if item == id && holder == from then Given(had, n) else had;
            RowsOf(after.rows, item, holder) == if item == id && holder == to then Gotten(kept, n) else kept
  {
    var reduced := Reduced(s.rows, Latest(s.rows, id, from), n);
    ReducedRows(s.rows, id, from, n, item, holder);
    ReceivedRows(reduced, id, to, n, item, holder);
    assert Step(s, Reassign(id, from, to, n)).rows == Received(reduced, id, to, n);
  }

  /** It is accepted exactly for a known receiver and no more units than the giver's most recent row
      has, if a counted item has room for them in the pool, through which they pass. */
  lemma ReassignExactly(s: Store, id: nat, from: nat, to: nat, n: int)
    requires StoreOk(s)
    ensures var q := RowsOf(s.rows, id, from);
            && (q != [] ==> id in s.items)
            && (ReassignAccepted(s, id, from, to, n)
                <==> q != [] && to in s.status && 1 <= n <= q[|q| - 1]
                     && (s.items[id].shared || s.items[id].remaining + n <= s.items[id].total))
    ensures !ReassignAccepted(s, id, from, to, n) ==> Step(s, Reassign(id, from, to, n)) == s
  {
    LatestIsLast(s.rows, id, from);
    var i := Latest(s.rows, id, from);
    if i >= 0 {
      assert RowOk(s, s.rows[i]);
      assert ItemOk(s.items[id], Assigned(s.rows, id));
    }
  }

  // ------------------------------------------------------------------------ records

  /** A new item is all in the pool. */
  lemma CreateExactly(s: Store, id: nat, total: int, shared: Option<bool>)
    ensures var after := Step(s, Create(id, total, shared));
            if total < 1 || shared.None? || id in s.items then after == s
            else
              && after == s.(items := s.items[id := after.items[id]])
              && after.items[id].total == total == after.items[id].remaining
              && after.items[id].shared == shared.value
  {}

  /** A resized item has the new total, all of it in the pool if it is shared; a counted one has there
      what is not out, with the slack it had, but at least nothing. */
  lemma ResizeExactly(s: Store, id: nat, total: int, shared: Option<bool>)
    requires StoreOk(s)
    ensures var after := Step(s, Resize(id, total, shared));
            if total < 1 || id !in s.items then after == s
            else
              && after == s.(items := s.items[id := after.items[id]])
              && var x := after.items[id];
              && x.total == total && x.shared == (if shared.Some? then shared.value else s.items[id].shared)
              && var rest := total - Assigned(s.rows, id) + Slack(s, id);
              x.remaining == if x.shared then total else if rest < 0 then 0 else rest
  {}

  ghost predicate SomebodyHas(rows: seq<Assignment>, id: nat) {
    exists emp: nat :: RowsOf(rows, id, emp) != []
  }

  lemma RowsHaveHolders(rows: seq<Assignment>, id: nat)
    ensures SomebodyHas(rows, id) <==> exists i :: 0 <= i < |rows| && rows[i].item == id
  {
    if i :| 0 <= i < |rows| && rows[i].item == id {
      LatestIsLast(rows, id, rows[i].emp);
    }
    if emp: nat :| RowsOf(rows, id, emp) != [] {
      LatestIsLast(rows, id, emp);
    }
  }

  /** Exactly an item that nobody has can be deleted. */
  lemma DeleteExactly(s: Store, id: nat)
    ensures var after := Step(s, Delete(id));
            if SomebodyHas(s.rows, id) then after == s else after == s.(items := s.items - {id})
  {
    RowsHaveHolders(s.rows, id);
  }

  /** Who joins is active and has nothing taken; who is reactivated gets nothing back. */
  lemma StatusExactly(s: Store, emp: nat, order: seq<nat>)
    requires Lists(order, s.rows, emp)
    ensures Step(s, Join(emp)) == if emp in s.status then s else s.(status := s.status[emp := true])
    ensures emp !in s.status ==> Step(s, Toggle(emp, order)) == s
    ensures emp in s.status && !s.status[emp] ==> Step(s, Toggle(emp, order)) == s.(status := s.status[emp := true])
  {}
}
