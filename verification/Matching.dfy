/** What the greedy fill computes, stated position by position and independently of its recursion:
    each resting order is taken by exactly what is left of the aggressor after all orders ahead of it. */
module Matching {
  import opened Words
  import opened Types
  import opened BookSpec

  ghost function Total(q: seq<OrderInfo>): nat {
    if q == [] then 0 else q[0].remaining + Total(q[1..])
  }

  /** Length of the longest prefix that the aggressor's limit lets it trade with: a buyer pays at most its
      price, a seller takes at least its price. */
  ghost function Eligible(a: OrderInfo, q: seq<OrderInfo>): (n: nat)
    ensures n <= |q|
    ensures a.side == Buy ==> forall i :: 0 <= i < n ==> q[i].price <= a.price
    ensures a.side == Sell ==> forall i :: 0 <= i < n ==> a.price <= q[i].price
    ensures n < |q| && a.side == Buy ==> a.price < q[n].price
    ensures n < |q| && a.side == Sell ==> q[n].price < a.price
  {
    if q == [] || !Crosses(a.side, a.price, q[0].price) then 0 else 1 + Eligible(a, q[1..])
  }

  /** How much of the order at position `i` price-time priority grants to the aggressor. */
  ghost function Taken(a: OrderInfo, q: seq<OrderInfo>, i: nat): (t: nat)
    requires i < |q|
    ensures t <= q[i].remaining
  {
    if i >= Eligible(a, q) || a.remaining <= Total(q[..i]) then 0
    else Min(a.remaining - Total(q[..i]), q[i].remaining)
  }

  ghost predicate Positive(q: seq<OrderInfo>) {
    forall i :: 0 <= i < |q| ==> q[i].remaining > 0
  }

  lemma TotalHead(q: seq<OrderInfo>, i: nat)
    requires i < |q|
    ensures Total(q[..i + 1]) == q[0].remaining + Total(q[1..][..i])
  {
    assert q[..i + 1][1..] == q[1..][..i];
  }

  lemma {:induction false} TotalSplit(p: seq<OrderInfo>, q: seq<OrderInfo>)
    ensures Total(p + q) == Total(p) + Total(q)
  {
    if p == [] {
      assert p + q == q;
    } else {
      assert (p + q)[1..] == p[1..] + q;
      TotalSplit(p[1..], q);
    }
  }

  /** The aggressor's own fields stay; it keeps quantity only when nothing is left to trade with, that is
      when the best price left is strictly outside its limit. */
  lemma {:induction false} FillStops(a: OrderInfo, q: seq<OrderInfo>)
    ensures var f := Fill(a, q);
      && f.aggressor == a.(remaining := f.aggressor.remaining)
      && f.aggressor.remaining <= a.remaining
      && (f.aggressor.remaining == 0 || f.queue == [] || !Crosses(a.side, a.price, f.queue[0].price))
      && (f.aggressor.remaining > 0 && f.queue != [] && a.side == Buy ==> a.price < f.queue[0].price)
      && (f.aggressor.remaining > 0 && f.queue != [] && a.side == Sell ==> f.queue[0].price < a.price)
    decreases |q|
  {
    if a.remaining == 0 || q == [] || !Crosses(a.side, a.price, q[0].price) || a.remaining < q[0].remaining {
    } else {
      FillStops(Reduce(a, q[0].remaining), q[1..]);
    }
  }

  /** What is left of the queue is its tail; only the head of that tail may have shrunk, and it keeps
      its place and its identity. */
  lemma {:induction false} FillLeavesTail(a: OrderInfo, q: seq<OrderInfo>)
    requires Positive(q)
    ensures var f := Fill(a, q);
      && |f.queue| <= |q|
      && (f.queue != [] ==>
            && f.queue[1..] == q[|q| - |f.queue|..][1..]
            && 0 < f.queue[0].remaining <= q[|q| - |f.queue|].remaining
            && f.queue[0] == q[|q| - |f.queue|].(remaining := f.queue[0].remaining))
    decreases |q|
  {
    if a.remaining == 0 || q == [] || !Crosses(a.side, a.price, q[0].price) || a.remaining < q[0].remaining {
      assert q[0..] == q;
    } else {
      var rest := q[1..];
      FillLeavesTail(Reduce(a, q[0].remaining), rest);
      var f := Fill(a, q);
      assert f.queue == Fill(Reduce(a, q[0].remaining), rest).queue;
      assert q[|q| - |f.queue|..] == rest[|rest| - |f.queue|..];
    }
  }

  lemma {:induction false} EligibleByLimit(a: OrderInfo, b: OrderInfo, q: seq<OrderInfo>)
    requires a.side == b.side && a.price == b.price
    ensures Eligible(a, q) == Eligible(b, q)
  {
    if q != [] && Crosses(a.side, a.price, q[0].price) {
      EligibleByLimit(a, b, q[1..]);
    }
  }

  /** What priority grants behind a first order that is consumed is what it grants to the reduced aggressor. */
  lemma TakenBehind(a: OrderInfo, q: seq<OrderInfo>, i: nat)
    requires 0 < i < |q| && Crosses(a.side, a.price, q[0].price) && q[0].remaining <= a.remaining
    ensures Taken(a, q, i) == Taken(Reduce(a, q[0].remaining), q[1..], i - 1)
  {
    TotalHead(q, i - 1);
    EligibleByLimit(a, Reduce(a, q[0].remaining), q[1..]);
  }

  lemma TakenFirst(a: OrderInfo, q: seq<OrderInfo>)
    requires q != []
    ensures Taken(a, q, 0) == if Crosses(a.side, a.price, q[0].price) then Min(a.remaining, q[0].remaining) else 0
  {
    assert q[..0] == [];
  }

  /** Nothing is granted behind an order that is not consumed. */
  lemma TakenPastStop(a: OrderInfo, q: seq<OrderInfo>, i: nat)
    requires 0 < i < |q|
    requires !Crosses(a.side, a.price, q[0].price) || a.remaining < q[0].remaining || a.remaining == 0
    ensures Taken(a, q, i) == 0
  {
    TotalHead(q, i - 1);
  }

  /** MAIN RESULT. Execution `i` is with the order at position `i`, at that order's price, for exactly
      what priority grants; orders past the last execution are granted nothing. */
  lemma {:induction false} TradesAreGreedy(a: OrderInfo, q: seq<OrderInfo>, i: nat)
    requires Positive(q) && i < |q|
    ensures |Fill(a, q).executions| <= |q|
    ensures i < |Fill(a, q).executions| ==>
      var e := Fill(a, q).executions[i];
      && e.restingOrderId == q[i].orderId
      && e.aggressingOrderId == a.orderId
      && e.price == q[i].price
      && e.quantity == Taken(a, q, i) > 0
      && e.restingRemaining == q[i].remaining - Taken(a, q, i)
      && e.aggressingRemaining == a.remaining - Total(q[..i]) - Taken(a, q, i)
    ensures i >= |Fill(a, q).executions| ==> Taken(a, q, i) == 0
    decreases |q|
  {
    TakenFirst(a, q);
    assert q[..0] == [];
    if a.remaining == 0 || !Crosses(a.side, a.price, q[0].price) || a.remaining < q[0].remaining {
      if i > 0 {
        TakenPastStop(a, q, i);
      }
    } else {
      var a', rest := Reduce(a, q[0].remaining), q[1..];
      assert Fill(a, q).executions[1..] == Fill(a', rest).executions;
      if i > 0 {
        TakenBehind(a, q, i);
        TradesAreGreedy(a', rest, i - 1);
        TotalHead(q, i - 1);
        assert i < |Fill(a, q).executions| ==> Fill(a, q).executions[i] == Fill(a', rest).executions[i - 1];
      } else if |rest| > 0 {
        TradesAreGreedy(a', rest, 0);
      }
    }
  }

  lemma {:induction false} FillNotLonger(a: OrderInfo, q: seq<OrderInfo>)
    ensures |Fill(a, q).queue| <= |q|
    decreases |q|
  {
    if a.remaining == 0 || q == [] || !Crosses(a.side, a.price, q[0].price) || a.remaining < q[0].remaining {
    } else {
      FillNotLonger(Reduce(a, q[0].remaining), q[1..]);
    }
  }

  /** MAIN RESULT. The queue that stays is each order less what it was granted, those granted all gone. */
  lemma {:induction false} LeftoverIsUnfilled(a: OrderInfo, q: seq<OrderInfo>, i: nat)
    requires Positive(q) && i < |q|
    ensures var f := Fill(a, q);
      var gone := |q| - |f.queue|;
      && 0 <= gone
      && (i < gone <==> Taken(a, q, i) == q[i].remaining)
      && (i >= gone ==> f.queue[i - gone] == Reduce(q[i], Taken(a, q, i)))
    decreases |q|
  {
    TakenFirst(a, q);
    FillNotLonger(a, q);
    if a.remaining == 0 || !Crosses(a.side, a.price, q[0].price) || a.remaining < q[0].remaining {
      if i > 0 {
        TakenPastStop(a, q, i);
      }
    } else {
      var a', rest := Reduce(a, q[0].remaining), q[1..];
      assert Fill(a, q).queue == Fill(a', rest).queue;
      FillNotLonger(a', rest);
      if i > 0 {
        TakenBehind(a, q, i);
        LeftoverIsUnfilled(a', rest, i - 1);
      }
    }
  }

  /** MAIN RESULT. The aggressor gives up all that the eligible orders can take, and no more. */
  lemma {:induction false} AggressorTakesAll(a: OrderInfo, q: seq<OrderInfo>)
    ensures Fill(a, q).aggressor.remaining == a.remaining - Min(a.remaining, Total(q[..Eligible(a, q)]))
    decreases |q|
  {
    if q == [] || !Crosses(a.side, a.price, q[0].price) {
      assert q[..0] == [];
    } else {
      TotalHead(q, Eligible(a, q) - 1);
      if q[0].remaining <= a.remaining {
        EligibleByLimit(a, Reduce(a, q[0].remaining), q[1..]);
        if a.remaining == 0 {
          assert Fill(a, q).aggressor == a;
        } else {
          AggressorTakesAll(Reduce(a, q[0].remaining), q[1..]);
        }
      }
    }
  }

  /** In a queue in priority order, the eligible prefix is all that the limit lets through. */
  lemma EligibleIsAll(a: OrderInfo, q: seq<OrderInfo>, i: nat)
    requires InPriorityOrder(Opposite(a.side), q) && i < |q|
    ensures i < Eligible(a, q) <==> if a.side == Buy then q[i].price <= a.price else a.price <= q[i].price
  {
    var n := Eligible(a, q);
    if n < i {
      assert Ahead(Opposite(a.side), q[n], q[i]);
    }
  }

  /** MAIN RESULT. What the limit means, in numbers: whatever priority grants is within the limit, and an order
      within the limit is granted something exactly if the aggressor has quantity left for it. */
  lemma LimitIsRespected(a: OrderInfo, q: seq<OrderInfo>, i: nat)
    requires Positive(q) && InPriorityOrder(Opposite(a.side), q) && i < |q|
    ensures Taken(a, q, i) > 0
      <==> Total(q[..i]) < a.remaining && if a.side == Buy then q[i].price <= a.price else a.price <= q[i].price
    ensures i < |Fill(a, q).executions| ==>
      var x := Fill(a, q).executions[i];
      (a.side == Buy ==> x.price <= a.price) && (a.side == Sell ==> a.price <= x.price)
  {
    EligibleIsAll(a, q, i);
    TradesAreGreedy(a, q, i);
  }

  /** A real bound on the work: one execution per order consumed, and at most one more. Each takes at
      least one unit off the aggressor. */
  lemma {:induction false} FillIsBounded(a: OrderInfo, q: seq<OrderInfo>)
    requires Positive(q)
    ensures var f := Fill(a, q);
      && |f.executions| <= (|q| - |f.queue|) + 1
      && |f.executions| <= a.remaining - f.aggressor.remaining
    decreases |q|
  {
    if a.remaining == 0 || q == [] || !Crosses(a.side, a.price, q[0].price) || a.remaining < q[0].remaining {
    } else {
      FillIsBounded(Reduce(a, q[0].remaining), q[1..]);
    }
  }

  ghost function Prepend(executions: seq<MatchExecution>, f: FillResult): FillResult {
    f.(executions := executions + f.executions)
  }

  /** One trade with the front of the queue, and the rest of the fill. */
  lemma FillStep(a: OrderInfo, q: seq<OrderInfo>)
    requires a.remaining > 0 && q != [] && Crosses(a.side, a.price, q[0].price)
    ensures var x := Min(a.remaining, q[0].remaining);
      var q' := if x == q[0].remaining then q[1..] else [Reduce(q[0], x)] + q[1..];
      var f := Fill(Reduce(a, x), q');
      Fill(a, q) == FillResult(f.aggressor, f.queue, [Execution(a, q[0], x)] + f.executions)
  {
  }
}
