/** From per-price lists to one queue in priority order. */
module Flattening {
  import opened Words
  import opened Types
  import opened BookSpec

  function Flatten<T>(ss: seq<seq<T>>): seq<T> {
    if ss == [] then [] else ss[0] + Flatten(ss[1..])
  }

  lemma {:induction false} FlattenSplit<T>(ss: seq<seq<T>>, tt: seq<seq<T>>)
    ensures Flatten(ss + tt) == Flatten(ss) + Flatten(tt)
  {
    if ss == [] {
      assert ss + tt == tt;
    } else {
      assert (ss + tt)[1..] == ss[1..] + tt;
      FlattenSplit(ss[1..], tt);
    }
  }

  lemma FlattenAround<T>(ss: seq<seq<T>>, r: nat)
    requires r < |ss|
    ensures Flatten(ss) == Flatten(ss[..r]) + ss[r] + Flatten(ss[r + 1..])
  {
    assert ss == ss[..r] + ss[r..];
    FlattenSplit(ss[..r], ss[r..]);
    FlattenFirst(ss, r);
  }

  lemma FlattenFirst<T>(ss: seq<seq<T>>, r: nat)
    requires r < |ss|
    ensures forall front: seq<T> :: front + Flatten(ss[r..]) == front + ss[r] + Flatten(ss[r + 1..])
  {
    assert ss[r..][1..] == ss[r + 1..];
  }

  lemma FlattenUpdate<T>(ss: seq<seq<T>>, r: nat, t: seq<T>)
    requires r < |ss|
    ensures Flatten(ss[r := t]) == Flatten(ss[..r]) + t + Flatten(ss[r + 1..])
    ensures |Flatten(ss[r := t])| == |Flatten(ss)| - |ss[r]| + |t|
  {
    var tt := ss[r := t];
    FlattenAround(ss, r);
    FlattenAround(tt, r);
    assert tt[..r] == ss[..r] && tt[r + 1..] == ss[r + 1..];
  }

  lemma {:induction false} FlattenEmpty<T>(ss: seq<seq<T>>)
    requires forall r :: 0 <= r < |ss| ==> ss[r] == []
    ensures Flatten(ss) == []
  {
    if ss != [] {
      FlattenEmpty(ss[1..]);
    }
  }

  lemma {:induction false} FlattenFrom<T>(ss: seq<seq<T>>, x: T) returns (r: nat)
    requires x in Flatten(ss)
    ensures r < |ss| && x in ss[r]
  {
    if x in ss[0] {
      r := 0;
    } else {
      var r' := FlattenFrom(ss[1..], x);
      r := r' + 1;
    }
  }

  lemma FlattenHolds<T>(ss: seq<seq<T>>, r: nat, x: T)
    requires r < |ss| && x in ss[r]
    ensures x in Flatten(ss)
  {
    FlattenAround(ss, r);
  }

  // ---------------------------------------------------------------- priority

  /** Position of a price in the priority order of its side, in a grid of `n` prices. */
  function Rank(side: Side, n: nat, p: nat): (r: nat)
    requires p < n
    ensures r < n
  {
    if side == Sell then p else n - 1 - p
  }

  /** The levels of a side, best price first. */
  function ByPriority<T>(side: Side, levels: seq<T>): (r: seq<T>)
    ensures |r| == |levels|
    ensures forall i {:trigger r[i]} :: 0 <= i < |levels| ==> r[i] == levels[Rank(side, |levels|, i)]
  {
    if side == Sell then levels
    else seq(|levels|, i requires 0 <= i < |levels| => levels[|levels| - 1 - i])
  }

  lemma RankTwice(side: Side, n: nat, p: nat)
    requires p < n
    ensures Rank(side, n, Rank(side, n, p)) == p
  {
  }

  lemma ByPriorityUpdate<T>(side: Side, levels: seq<T>, p: nat, t: T)
    requires p < |levels|
    ensures ByPriority(side, levels[p := t]) == ByPriority(side, levels)[Rank(side, |levels|, p) := t]
  {
    var a, b := ByPriority(side, levels[p := t]), ByPriority(side, levels)[Rank(side, |levels|, p) := t];
    forall i | 0 <= i < |levels|
      ensures a[i] == b[i]
    {
      assert a[i] == levels[p := t][Rank(side, |levels|, i)];
    }
  }

  /** The queue that a side's price levels stand for. */
  function Queue(side: Side, levels: seq<seq<OrderInfo>>): seq<OrderInfo> {
    Flatten(ByPriority(side, levels))
  }

  /** The orders of level `p` are on `side` and priced at `p`. */
  ghost predicate PricedByLevel(side: Side, levels: seq<seq<OrderInfo>>) {
    forall p, i :: 0 <= p < |levels| && 0 <= i < |levels[p]| ==>
      levels[p][i].side == side && levels[p][i].price == p
  }

  lemma PricedAt(side: Side, levels: seq<seq<OrderInfo>>, p: nat, x: OrderInfo)
    requires PricedByLevel(side, levels) && p < |levels| && x in levels[p]
    ensures x.side == side && x.price == p
  {
    var i :| 0 <= i < |levels[p]| && levels[p][i] == x;
  }

  /** The queue before, at and behind one price level. */
  lemma QueueAround(side: Side, levels: seq<seq<OrderInfo>>, p: nat, t: seq<OrderInfo>)
    returns (ahead: seq<OrderInfo>, behind: seq<OrderInfo>)
    requires p < |levels| <= TWO_64 && PricedByLevel(side, levels)
    ensures Queue(side, levels) == ahead + levels[p] + behind
    ensures Queue(side, levels[p := t]) == ahead + t + behind
    ensures forall x :: x in ahead ==> Better(side, x.price, p)
    ensures forall x :: x in behind ==> Better(side, p, x.price)
  {
    var n := |levels|;
    var ranked, r := ByPriority(side, levels), Rank(side, n, p);
    RankTwice(side, n, p);
    ByPriorityUpdate(side, levels, p, t);
    FlattenAround(ranked, r);
    FlattenUpdate(ranked, r, t);
    ahead, behind := Flatten(ranked[..r]), Flatten(ranked[r + 1..]);
    forall x | x in ahead
      ensures Better(side, x.price, p)
    {
      var i := FlattenFrom(ranked[..r], x);
      PricedAt(side, levels, Rank(side, n, i), x);
    }
    forall x | x in behind
      ensures Better(side, p, x.price)
    {
      var i := FlattenFrom(ranked[r + 1..], x);
      assert ranked[r + 1..][i] == ranked[i + r + 1];
      PricedAt(side, levels, Rank(side, n, i + r + 1), x);
    }
  }

  lemma {:induction false} EnqueueBetween(ahead: seq<OrderInfo>, behind: seq<OrderInfo>, o: OrderInfo)
    requires forall x :: x in ahead ==> !Better(o.side, o.price, x.price)
    requires forall x :: x in behind ==> Better(o.side, o.price, x.price)
    ensures Enqueue(ahead + behind, o) == ahead + [o] + behind
  {
    if ahead == [] {
      assert ahead + behind == behind;
      if behind != [] {
        assert behind[0] in behind;
      }
    } else {
      assert ahead[0] in ahead;
      assert (ahead + behind)[1..] == ahead[1..] + behind;
      EnqueueBetween(ahead[1..], behind, o);
    }
  }

  lemma EnqueueWithin(ahead: seq<OrderInfo>, level: seq<OrderInfo>, behind: seq<OrderInfo>, o: OrderInfo)
    requires forall x :: x in ahead ==> Better(o.side, x.price, o.price)
    requires forall x :: x in level ==> x.price == o.price
    requires forall x :: x in behind ==> Better(o.side, o.price, x.price)
    ensures Enqueue(ahead + level + behind, o) == ahead + (level + [o]) + behind
  {
    forall x | x in ahead + level
      ensures !Better(o.side, o.price, x.price)
    {
      assert x in ahead || x in level;
    }
    EnqueueBetween(ahead + level, behind, o);
    assert ahead + (level + [o]) + behind == (ahead + level) + [o] + behind;
  }

  /** Appending to a price level joins the queue in priority order. */
  lemma QueueAppend(side: Side, levels: seq<seq<OrderInfo>>, p: nat, o: OrderInfo)
    requires p < |levels| <= TWO_64 && PricedByLevel(side, levels) && o.side == side && o.price == p
    ensures Queue(side, levels[p := levels[p] + [o]]) == Enqueue(Queue(side, levels), o)
  {
    var ahead, behind := QueueAround(side, levels, p, levels[p] + [o]);
    EnqueueWithin(ahead, levels[p], behind, o);
  }

  lemma {:induction false} PositionBehind(u: seq<OrderInfo>, x: OrderInfo, v: seq<OrderInfo>)
    requires forall y :: y in u ==> y.orderId != x.orderId
    ensures Position(u + [x] + v, x.orderId) == |u|
  {
    if u == [] {
      assert u + [x] + v == [x] + v;
    } else {
      assert u[0] in u;
      assert (u + [x] + v)[1..] == u[1..] + [x] + v;
      PositionBehind(u[1..], x, v);
    }
  }

  lemma DropWithin(ahead: seq<OrderInfo>, level: seq<OrderInfo>, k: nat, behind: seq<OrderInfo>)
    requires k < |level|
    requires forall y :: y in ahead ==> y.orderId != level[k].orderId
    requires forall i :: 0 <= i < k ==> level[i].orderId != level[k].orderId
    ensures var q, id := ahead + level + behind, level[k].orderId;
      && Holds(q, id)
      && q[Position(q, id)] == level[k]
      && Drop(q, id) == ahead + (level[..k] + level[k + 1..]) + behind
  {
    var u, v := ahead + level[..k], level[k + 1..] + behind;
    assert ahead + level + behind == u + [level[k]] + v;
    forall y | y in u
      ensures y.orderId != level[k].orderId
    {
      assert y in ahead || y in level[..k];
    }
    PositionBehind(u, level[k], v);
    assert RemoveAt(u + [level[k]] + v, |u|) == u + v;
    assert ahead + (level[..k] + level[k + 1..]) + behind == u + v;
  }

  /** Cutting an order out of a price level drops it from the queue, and the queue holds it. */
  lemma QueueCut(side: Side, levels: seq<seq<OrderInfo>>, p: nat, k: nat)
    requires p < |levels| <= TWO_64 && PricedByLevel(side, levels) && k < |levels[p]|
    requires forall i :: 0 <= i < k ==> levels[p][i].orderId != levels[p][k].orderId
    requires forall q, i :: 0 <= q < |levels| && q != p && 0 <= i < |levels[q]|
               ==> levels[q][i].orderId != levels[p][k].orderId
    ensures var x, q := levels[p][k], Queue(side, levels);
      && Holds(q, x.orderId)
      && q[Position(q, x.orderId)] == x
      && Queue(side, levels[p := levels[p][..k] + levels[p][k + 1..]]) == Drop(q, x.orderId)
  {
    var x := levels[p][k];
    var ahead, behind := QueueAround(side, levels, p, levels[p][..k] + levels[p][k + 1..]);
    forall y | y in ahead
      ensures y.orderId != x.orderId
    {
      QueueMember(side, levels, y);
      var q, i :| 0 <= q < |levels| && 0 <= i < |levels[q]| && levels[q][i] == y;
      assert y.price == q;
    }
    DropWithin(ahead, levels[p], k, behind);
  }

  /** The queue holds exactly what the levels hold. */
  lemma QueueMember(side: Side, levels: seq<seq<OrderInfo>>, x: OrderInfo)
    ensures x in Queue(side, levels) <==> exists p, i :: 0 <= p < |levels| && 0 <= i < |levels[p]| && levels[p][i] == x
  {
    var ranked := ByPriority(side, levels);
    if x in Queue(side, levels) {
      var r := FlattenFrom(ranked, x);
      var i :| 0 <= i < |ranked[r]| && ranked[r][i] == x;
      assert ranked[r] == levels[Rank(side, |levels|, r)];
      assert levels[Rank(side, |levels|, r)][i] == x;
    }
    if exists p, i :: 0 <= p < |levels| && 0 <= i < |levels[p]| && levels[p][i] == x {
      var p, i :| 0 <= p < |levels| && 0 <= i < |levels[p]| && levels[p][i] == x;
      RankTwice(side, |levels|, p);
      assert ranked[Rank(side, |levels|, p)] == levels[p];
      FlattenHolds(ranked, Rank(side, |levels|, p), x);
    }
  }

  /** Changing the head of the best level changes the head of the queue. */
  lemma QueueHead(side: Side, levels: seq<seq<OrderInfo>>, p: nat, t: seq<OrderInfo>)
    requires p < |levels| <= TWO_64 && PricedByLevel(side, levels) && levels[p] != []
    requires forall q :: 0 <= q < |levels| && Better(side, q, p) ==> levels[q] == []
    ensures Queue(side, levels) != [] && Queue(side, levels)[0] == levels[p][0]
    ensures Queue(side, levels[p := t + levels[p][1..]]) == t + Queue(side, levels)[1..]
  {
    var ahead, behind := QueueAround(side, levels, p, t + levels[p][1..]);
    if ahead != [] {
      assert ahead[0] in ahead;
      assert (ahead + levels[p] + behind)[0] == ahead[0];
      NothingAhead(side, levels, p, ahead[0]);
    }
    assert ahead == [];
    HeadWithin(ahead, levels[p], behind, t);
  }

  lemma NothingAhead(side: Side, levels: seq<seq<OrderInfo>>, p: nat, x: OrderInfo)
    requires p < |levels| <= TWO_64 && PricedByLevel(side, levels)
    requires forall q :: 0 <= q < |levels| && Better(side, q, p) ==> levels[q] == []
    requires x in Queue(side, levels)
    ensures !Better(side, x.price, p)
  {
    QueueMember(side, levels, x);
    var q, i :| 0 <= q < |levels| && 0 <= i < |levels[q]| && levels[q][i] == x;
    assert x.price == q;
  }

  lemma HeadWithin(ahead: seq<OrderInfo>, level: seq<OrderInfo>, behind: seq<OrderInfo>, t: seq<OrderInfo>)
    requires level != [] && ahead == []
    ensures ahead + level + behind != [] && (ahead + level + behind)[0] == level[0]
    ensures ahead + (t + level[1..]) + behind == t + (ahead + level + behind)[1..]
  {
    assert ahead + level + behind == level + behind;
    assert (level + behind)[1..] == level[1..] + behind;
  }

  /** A queue is empty exactly when every level is. */
  lemma QueueEmpty(side: Side, levels: seq<seq<OrderInfo>>)
    ensures Queue(side, levels) == [] <==> forall p :: 0 <= p < |levels| ==> levels[p] == []
  {
    if Queue(side, levels) == [] {
      forall p | 0 <= p < |levels|
        ensures levels[p] == []
      {
        if levels[p] != [] {
          assert levels[p][0] == levels[p][0];
          QueueMember(side, levels, levels[p][0]);
        }
      }
    } else {
      QueueMember(side, levels, Queue(side, levels)[0]);
    }
  }

  // ---------------------------------------------------------------- the queue seen price by price

  /** The orders of one price, in queue order. */
  function AtPrice(q: seq<OrderInfo>, p: Word): seq<OrderInfo> {
    if q == [] then []
    else if q[0].price == p then [q[0]] + AtPrice(q[1..], p)
    else AtPrice(q[1..], p)
  }

  lemma {:induction false} AtPriceSplit(a: seq<OrderInfo>, b: seq<OrderInfo>, p: Word)
    ensures AtPrice(a + b, p) == AtPrice(a, p) + AtPrice(b, p)
  {
    if a == [] {
      assert a + b == b;
    } else {
      assert (a + b)[1..] == a[1..] + b;
      AtPriceSplit(a[1..], b, p);
    }
  }

  lemma {:induction false} AtOtherPrices(q: seq<OrderInfo>, p: Word)
    requires forall x :: x in q ==> x.price != p
    ensures AtPrice(q, p) == []
  {
    if q != [] {
      assert q[0] in q;
      AtOtherPrices(q[1..], p);
    }
  }

  lemma {:induction false} AtSamePrice(q: seq<OrderInfo>, p: Word)
    requires forall x :: x in q ==> x.price == p
    ensures AtPrice(q, p) == q
  {
    if q != [] {
      assert q[0] in q;
      AtSamePrice(q[1..], p);
    }
  }

  /** Reading the queue price by price gives back the levels, each in its own order. */
  lemma QueueAtPrice(side: Side, levels: seq<seq<OrderInfo>>, p: nat)
    requires p < |levels| <= TWO_64 && PricedByLevel(side, levels)
    ensures AtPrice(Queue(side, levels), p) == levels[p]
  {
    var ahead, behind := QueueAround(side, levels, p, levels[p]);
    AtPriceSplit(ahead + levels[p], behind, p);
    AtPriceSplit(ahead, levels[p], p);
    AtOtherPrices(ahead, p);
    AtOtherPrices(behind, p);
    AtSamePrice(levels[p], p);
  }
}
