/** One price level: an intrusive doubly linked FIFO with a cached 64-bit total
    (src/engine/PriceLevel.h). */
module Levels {
  import opened Words
  import opened Types
  import opened Pool

  /** `list` is exactly what following `next` from `head`, or `prev` from `tail`, visits. */
  ghost predicate Linked(os: seq<Order>, head: Link, tail: Link, list: seq<nat>) {
    && head == LinkTo(list, 0)
    && tail == LinkTo(list, |list| - 1)
    && NoDuplicates(list)
    && (forall i :: 0 <= i < |list| ==> list[i] < |os|)
    && forall i {:trigger os[list[i]]} :: 0 <= i < |list| ==>
         os[list[i]].prev == LinkTo(list, i - 1) && os[list[i]].next == LinkTo(list, i + 1)
  }

  /** Only links may differ. */
  predicate SameOrder(o: Order, o': Order) {
    o'.info == o.info && o'.active == o.active
  }

  /** Linking and unlinking touch links only, and only of the listed slots and of `s`. */
  ghost predicate OnlyRelinks(os: seq<Order>, os': seq<Order>, list: seq<nat>, s: nat) {
    && |os'| == |os|
    && forall t :: 0 <= t < |os| ==> SameOrder(os[t], os'[t]) && (t !in list && t != s ==> os'[t] == os[t])
  }

  // ---------------------------------------------------------------- the pool after linking and unlinking

  function Appended(os: seq<Order>, tail: Link, order: nat): seq<Order>
    requires order < |os| && (tail != Null ==> tail.slot < |os|)
  {
    var os1 := os[order := os[order].(prev := tail, next := Null)];
    if tail == Null then os1 else os1[tail.slot := os1[tail.slot].(next := At(order))]
  }

  function Bypassed(os: seq<Order>, before: Link, after: Link): seq<Order>
    requires (before != Null ==> before.slot < |os|) && (after != Null ==> after.slot < |os|)
  {
    var os1 := if before == Null then os else os[before.slot := os[before.slot].(next := after)];
    if after == Null then os1 else os1[after.slot := os1[after.slot].(prev := before)]
  }

  lemma SnocApart(list: seq<nat>, s: nat)
    requires NoDuplicates(list) && s !in list
    ensures NoDuplicates(list + [s])
  {
    var l := list + [s];
    forall i: nat, j: nat {:trigger Apart(l, i, j)} | i < |l| && j < |l| && i != j
      ensures Apart(l, i, j)
    {
      assert i < |list| && j < |list| ==> Apart(list, i, j);
    }
  }

  lemma AppendLinks(os: seq<Order>, head: Link, tail: Link, list: seq<nat>, order: nat)
    requires Linked(os, head, tail, list) && order < |os| && order !in list
    ensures tail != Null ==> tail.slot < |os|
    ensures var os' := Appended(os, tail, order);
      && Linked(os', if tail == Null then At(order) else head, At(order), list + [order])
      && OnlyRelinks(os, os', list, order)
  {
    var os' := Appended(os, tail, order);
    var list' := list + [order];
    SnocApart(list, order);
    forall i | 0 <= i < |list'|
      ensures os'[list'[i]].prev == LinkTo(list', i - 1) && os'[list'[i]].next == LinkTo(list', i + 1)
    {
      if i < |list| {
        assert list'[i] == list[i] && list[i] != order && os[list[i]].prev == LinkTo(list, i - 1);
        if i + 1 < |list| {
          assert Apart(list, i, |list| - 1);
        }
      }
    }
  }

  /** The list around position `k`. */
  function Cut(list: seq<nat>, k: nat): seq<nat>
    requires k < |list|
  {
    list[..k] + list[k + 1..]
  }

  /** The neighbours of an element once position `k` is cut out. */
  lemma CutNeighbours(list: seq<nat>, k: nat, i: nat)
    requires k < |list| && i < |list| - 1
    ensures var j := if i < k then i else i + 1;
      && Cut(list, k)[i] == list[j]
      && LinkTo(Cut(list, k), i - 1) == LinkTo(list, if j == k + 1 then k - 1 else j - 1)
      && LinkTo(Cut(list, k), i + 1) == LinkTo(list, if j == k - 1 then k + 1 else j + 1)
  {
  }

  lemma CutEnds(list: seq<nat>, k: nat)
    requires k < |list| && NoDuplicates(list)
    ensures NoDuplicates(Cut(list, k)) && list[k] !in Cut(list, k)
    ensures LinkTo(Cut(list, k), 0) == LinkTo(list, if k == 0 then 1 else 0)
    ensures LinkTo(Cut(list, k), |list| - 2) == LinkTo(list, if k == |list| - 1 then k - 1 else |list| - 1)
  {
    var l := Cut(list, k);
    forall i: nat, j: nat {:trigger Apart(l, i, j)} | i < |l| && j < |l| && i != j
      ensures Apart(l, i, j)
    {
      assert Apart(list, if i < k then i else i + 1, if j < k then j else j + 1);
    }
    forall i | 0 <= i < |l|
      ensures l[i] != list[k]
    {
      assert Apart(list, if i < k then i else i + 1, k);
    }
  }

  lemma BypassAt(os: seq<Order>, head: Link, tail: Link, list: seq<nat>, k: nat, j: nat)
    requires Linked(os, head, tail, list) && k < |list| && j < |list| && j != k
    requires |Bypassed(os, LinkTo(list, k - 1), LinkTo(list, k + 1))| == |os|
    ensures var os' := Bypassed(os, LinkTo(list, k - 1), LinkTo(list, k + 1));
      && os'[list[j]].prev == LinkTo(list, if j == k + 1 then k - 1 else j - 1)
      && os'[list[j]].next == LinkTo(list, if j == k - 1 then k + 1 else j + 1)
  {
    assert os[list[j]].prev == LinkTo(list, j - 1);
    if k > 0 && j != k - 1 {
      assert Apart(list, j, k - 1);
    }
    if k + 1 < |list| && j != k + 1 {
      assert Apart(list, j, k + 1);
    }
  }

  lemma BypassRelinks(os: seq<Order>, list: seq<nat>, k: nat)
    requires k < |list| && NoDuplicates(list) && forall i :: 0 <= i < |list| ==> list[i] < |os|
    ensures var os' := Bypassed(os, LinkTo(list, k - 1), LinkTo(list, k + 1));
      OnlyRelinks(os, os', list, list[k]) && os'[list[k]] == os[list[k]]
  {
    if k > 0 {
      assert Apart(list, k, k - 1);
    }
    if k + 1 < |list| {
      assert Apart(list, k, k + 1);
    }
  }

  lemma BypassLinks(os: seq<Order>, head: Link, tail: Link, list: seq<nat>, k: nat)
    requires Linked(os, head, tail, list) && k < |list|
    ensures var before, after := LinkTo(list, k - 1), LinkTo(list, k + 1);
      var os' := Bypassed(os, before, after);
      && OnlyRelinks(os, os', list, list[k])
      && os'[list[k]] == os[list[k]]
      && Linked(os', if before == Null then after else head, if after == Null then before else tail, Cut(list, k))
  {
    var os' := Bypassed(os, LinkTo(list, k - 1), LinkTo(list, k + 1));
    var list' := Cut(list, k);
    BypassRelinks(os, list, k);
    CutEnds(list, k);
    forall i {:trigger os'[list'[i]]} | 0 <= i < |list'|
      ensures list'[i] < |os'|
      ensures os'[list'[i]].prev == LinkTo(list', i - 1) && os'[list'[i]].next == LinkTo(list', i + 1)
    {
      CutNeighbours(list, k, i);
      BypassAt(os, head, tail, list, k, if i < k then i else i + 1);
    }
  }

  lemma BlankKeepsLinks(os: seq<Order>, head: Link, tail: Link, list: seq<nat>, s: nat, o: Order)
    requires Linked(os, head, tail, list) && s < |os| && s !in list
    ensures Linked(os[s := o], head, tail, list)
  {
  }

  class PriceLevel {
    const price: nat
    ghost const side: Side
    var head: Link
    var tail: Link
    var totalQuantity: Word
    ghost var list: seq<nat>

    ghost predicate Valid(orders: array<Order>)
      reads this, orders
    {
      Linked(orders[..], head, tail, list)
    }

    constructor (price: nat, ghost side: Side)
      ensures this.price == price && this.side == side
      ensures head == Null && tail == Null && totalQuantity == 0 && list == []
    {
      this.price := price;
      this.side := side;
      this.head := Null;
      this.tail := Null;
      this.totalQuantity := 0;
      this.list := [];
    }

    predicate Empty()
      reads this
    {
      head == Null
    }

    function Front(): Link
      reads this
    {
      head
    }

    method PushBack(orders: array<Order>, order: nat)
      requires Valid(orders)
      requires order < orders.Length && order !in list
      modifies this, orders
      ensures Valid(orders)
      ensures list == old(list) + [order]
      ensures OnlyRelinks(old(orders[..]), orders[..], old(list), order)
      ensures totalQuantity == WrapAdd(old(totalQuantity), old(orders[order].info.remaining))
    {
      ghost var os := orders[..];
      AppendLinks(os, head, tail, list, order);
      orders[order] := orders[order].(prev := tail, next := Null);
      if tail != Null {
        orders[tail.slot] := orders[tail.slot].(next := At(order));
      } else {
        head := At(order);
      }
      assert orders[..] == Appended(os, tail, order);
      tail := At(order);
      totalQuantity := WrapAdd(totalQuantity, orders[order].info.remaining);
      list := list + [order];
    }

    method Remove(orders: array<Order>, order: nat, ghost k: nat)
      requires Valid(orders)
      requires k < |list| && list[k] == order
      modifies this, orders
      ensures Valid(orders)
      ensures list == Cut(old(list), k)
      ensures OnlyRelinks(old(orders[..]), orders[..], old(list), order)
      ensures orders[order].prev == Null && orders[order].next == Null
      ensures totalQuantity == WrapSub(old(totalQuantity), old(orders[order].info.remaining))
    {
      ghost var os := orders[..];
      BypassLinks(os, head, tail, list, k);
      var before, after := orders[order].prev, orders[order].next;
      if before != Null {
        orders[before.slot] := orders[before.slot].(next := after);
      } else {
        head := after;
      }
      if after != Null {
        orders[after.slot] := orders[after.slot].(prev := before);
      } else {
        tail := before;
      }
      assert orders[..] == Bypassed(os, before, after);
      totalQuantity := WrapSub(totalQuantity, orders[order].info.remaining);
      CutEnds(list, k);
      list := Cut(list, k);
      BlankKeepsLinks(orders[..], head, tail, list, order, orders[order].(prev := Null, next := Null));
      ghost var linked := orders[..];
      orders[order] := orders[order].(prev := Null, next := Null);
      assert orders[..] == linked[order := linked[order].(prev := Null, next := Null)];
    }
  }
}
