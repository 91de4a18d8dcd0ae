/** The fixed pool of orders (src/engine/OrderPool.h). An `Order*` always points into the pool, so it is
    modelled by a slot number; `next` links either a price level's list or the free list. */
module Pool {
  import opened Words
  import opened Types

  datatype Link = Null | At(slot: nat)

  datatype Order = Order(info: OrderInfo, prev: Link, next: Link, active: bool)

  /** A value-initialised order. */
  const BLANK := Order(OrderInfo(0, 0, 0, 0, Buy, 0, 0, 0), Null, Null, false)

  ghost predicate Apart(list: seq<nat>, i: nat, j: nat)
    requires i < |list| && j < |list|
  {
    list[i] != list[j]
  }

  /** No slot occurs twice. Used by naming a pair of positions: `Apart(list, i, j)`. */
  ghost predicate NoDuplicates(list: seq<nat>) {
    forall i: nat, j: nat {:trigger Apart(list, i, j)} :: i < |list| && j < |list| && i != j ==> Apart(list, i, j)
  }

  lemma ConsApart(s: nat, list: seq<nat>)
    requires NoDuplicates(list) && s !in list
    ensures NoDuplicates([s] + list)
  {
    var l := [s] + list;
    forall i: nat, j: nat {:trigger Apart(l, i, j)} | i < |l| && j < |l| && i != j
      ensures Apart(l, i, j)
    {
      assert i > 0 && j > 0 ==> Apart(list, i - 1, j - 1);
    }
  }

  lemma TailApart(list: seq<nat>)
    requires NoDuplicates(list) && list != []
    ensures NoDuplicates(list[1..]) && list[0] !in list[1..]
  {
    var l := list[1..];
    forall i: nat, j: nat {:trigger Apart(l, i, j)} | i < |l| && j < |l| && i != j
      ensures Apart(l, i, j)
    {
      assert Apart(list, i + 1, j + 1);
    }
    forall i | 0 <= i < |l|
      ensures l[i] != list[0]
    {
      assert Apart(list, i + 1, 0);
    }
  }

  /** The link to the element at position `i` of a list, null beyond either end. */
  function LinkTo(list: seq<nat>, i: int): Link {
    if 0 <= i < |list| then At(list[i]) else Null
  }

  /** `free` is the LIFO free list: inactive slots below `size`, chained through `next`. */
  ghost predicate FreeChain(os: seq<Order>, size: nat, freeHead: Link, free: seq<nat>) {
    && freeHead == LinkTo(free, 0)
    && NoDuplicates(free)
    && (forall i :: 0 <= i < |free| ==> free[i] < size && free[i] < |os|)
    && forall i {:trigger os[free[i]]} :: 0 <= i < |free| ==>
         !os[free[i]].active && os[free[i]].next == LinkTo(free, i + 1)
  }

  ghost predicate Untouched(os: seq<Order>, size: nat) {
    forall s :: size <= s < |os| ==> os[s] == BLANK
  }

  class OrderPool {
    const orders: array<Order>
    const capacity: nat
    var size: nat
    var freeHead: Link
    ghost var free: seq<nat>

    ghost predicate Valid()
      reads this, orders
    {
      && orders.Length == capacity
      && size <= capacity
      && FreeChain(orders[..], size, freeHead, free)
      && Untouched(orders[..], size)
    }

    constructor (capacity: nat)
      ensures Valid() && fresh(orders)
      ensures this.capacity == capacity && size == 0 && free == []
    {
      this.capacity := capacity;
      this.orders := new Order[capacity](_ => BLANK);
      this.size := 0;
      this.freeHead := Null;
      this.free := [];
    }

    /** A blank slot: the one released last, else the next never used; null iff every slot is handed out. */
    method Allocate() returns (r: Link)
      requires Valid()
      modifies this, orders
      ensures Valid()
      ensures r == Null <==> old(free) == [] && old(size) == capacity
      ensures r == Null ==> size == old(size) && free == old(free) && orders[..] == old(orders[..])
      ensures r != Null ==>
        && r.slot < size && r.slot !in free
        && orders[..] == old(orders[..])[r.slot := BLANK]
        && (if old(free) != [] then
              r.slot == old(free)[0] && free == old(free)[1..] && size == old(size)
            else
              r.slot == old(size) && free == [] && size == old(size) + 1)
    {
      ghost var os := orders[..];
      if freeHead != Null {
        var order := freeHead.slot;
        freeHead := orders[order].next;
        orders[order] := BLANK;
        TailApart(free);
        free := free[1..];
        assert orders[..] == os[order := BLANK];
        return At(order);
      }
      if size == capacity {
        return Null;
      }
      r := At(size);
      size := size + 1;
      assert orders[..] == os[r.slot := BLANK];
    }

    /** Hands a slot back; it will be the first to be reused. */
    method Release(order: nat)
      requires Valid()
      requires order < size && order !in free
      modifies this, orders
      ensures Valid()
      ensures size == old(size) && free == [order] + old(free)
      ensures orders[..] == old(orders[..])[order := BLANK.(next := old(freeHead))]
    {
      ghost var os := orders[..];
      orders[order] := BLANK;
      orders[order] := orders[order].(next := freeHead);
      freeHead := At(order);
      assert orders[..] == os[order := BLANK.(next := old(freeHead))];
      ConsApart(order, free);
      free := [order] + free;
      assert forall i :: 0 < i < |free| ==> free[i] == old(free)[i - 1];
    }
  }
}
