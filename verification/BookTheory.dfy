/** Resting, removing and matching keep the reference book well formed: priority order, distinct ids,
    live quantities, and bids strictly below asks. */
module BookTheory {
  import opened Words
  import opened Wrappers
  import opened Types
  import opened BookSpec
  import opened Matching

  // ---------------------------------------------------------------- resting

  /** How many orders stand ahead of a newcomer. */
  function Place(q: seq<OrderInfo>, o: OrderInfo): (k: nat)
    ensures k <= |q|
    ensures forall i :: 0 <= i < k ==> !Better(o.side, o.price, q[i].price)
    ensures k < |q| ==> Better(o.side, o.price, q[k].price)
  {
    if q == [] || Better(o.side, o.price, q[0].price) then 0 else 1 + Place(q[1..], o)
  }

  lemma {:induction false} EnqueueInserts(q: seq<OrderInfo>, o: OrderInfo)
    ensures Enqueue(q, o) == q[..Place(q, o)] + [o] + q[Place(q, o)..]
  {
    if q == [] || Better(o.side, o.price, q[0].price) {
    } else {
      EnqueueInserts(q[1..], o);
    }
  }

  lemma EnqueueKeepsOrder(q: seq<OrderInfo>, o: OrderInfo)
    requires InPriorityOrder(o.side, q) && DistinctIds(q)
    requires forall i :: 0 <= i < |q| ==> q[i].orderId < o.orderId
    ensures InPriorityOrder(o.side, Enqueue(q, o)) && DistinctIds(Enqueue(q, o))
  {
    var k := Place(q, o);
    EnqueueInserts(q, o);
    var q' := Enqueue(q, o);
    forall i, j | 0 <= i < j < |q'|
      ensures Ahead(o.side, q'[i], q'[j]) && q'[i].orderId != q'[j].orderId
    {
      if j < k {
        assert Ahead(o.side, q[i], q[j]);
      } else if i < k < j {
        assert Ahead(o.side, q[i], q[j - 1]);
      } else if i == k {
        assert q[k] == q[j - 1] || Ahead(o.side, q[k], q[j - 1]);
      } else if i > k {
        assert Ahead(o.side, q[i - 1], q[j - 1]);
      }
    }
  }

  /** A newcomer that is younger than everything on its side lands in its place in priority order. */
  lemma EnqueueKeeps(q: seq<OrderInfo>, o: OrderInfo, levels: Word, symbolId: Word)
    requires InPriorityOrder(o.side, q) && DistinctIds(q)
    requires o.orderId >= 1 && Members(o.side, levels, symbolId, o.orderId, q)
    requires Members(o.side, levels, symbolId, o.orderId + 1, [o])
    ensures var q' := Enqueue(q, o);
      && InPriorityOrder(o.side, q') && DistinctIds(q')
      && Members(o.side, levels, symbolId, o.orderId + 1, q')
      && |q'| == |q| + 1
  {
    assert [o][0] == o;
    EnqueueKeepsOrder(q, o);
    EnqueueInserts(q, o);
  }

  lemma EnqueueMembers(q: seq<OrderInfo>, o: OrderInfo, x: OrderInfo)
    ensures x in Enqueue(q, o) <==> x in q || x == o
  {
    EnqueueInserts(q, o);
    assert q == q[..Place(q, o)] + q[Place(q, o)..];
  }

  // ---------------------------------------------------------------- removing

  lemma RemoveKeeps(side: Side, q: seq<OrderInfo>, i: nat, levels: Word, symbolId: Word, nextId: nat)
    requires i < |q|
    requires InPriorityOrder(side, q) && DistinctIds(q) && Members(side, levels, symbolId, nextId, q)
    ensures InPriorityOrder(side, RemoveAt(q, i)) && DistinctIds(RemoveAt(q, i))
    ensures Members(side, levels, symbolId, nextId, RemoveAt(q, i))
  {
  }

  lemma RemovedAt(q: seq<OrderInfo>, i: nat)
    requires i < |q|
    ensures |RemoveAt(q, i)| == |q| - 1
    ensures forall j {:trigger RemoveAt(q, i)[j]} :: 0 <= j < |q| - 1 ==>
      RemoveAt(q, i)[j] == if j < i then q[j] else q[j + 1]
  {
  }

  lemma DropMembers(q: seq<OrderInfo>, id: nat, x: OrderInfo)
    requires DistinctIds(q)
    ensures x in Drop(q, id) <==> x in q && x.orderId != id
  {
    if Holds(q, id) {
      var i := Position(q, id);
      var r := RemoveAt(q, i);
      RemovedAt(q, i);
      if x in q && x.orderId != id {
        var j :| 0 <= j < |q| && q[j] == x;
        assert r[if j < i then j else j - 1] == x;
      }
      if x in r {
        var j :| 0 <= j < |r| && r[j] == x;
        var k := if j < i then j else j + 1;
        assert q[k] == x && q[k].orderId != q[i].orderId;
      }
    }
  }

  lemma DropKeeps(side: Side, q: seq<OrderInfo>, id: nat, levels: Word, symbolId: Word, nextId: nat)
    requires InPriorityOrder(side, q) && DistinctIds(q) && Members(side, levels, symbolId, nextId, q)
    ensures InPriorityOrder(side, Drop(q, id)) && DistinctIds(Drop(q, id))
    ensures Members(side, levels, symbolId, nextId, Drop(q, id))
    ensures forall x :: x in Drop(q, id) <==> x in q && x.orderId != id
  {
    if Holds(q, id) {
      RemoveKeeps(side, q, Position(q, id), levels, symbolId, nextId);
    }
    forall x
      ensures x in Drop(q, id) <==> x in q && x.orderId != id
    {
      DropMembers(q, id, x);
    }
  }

  /** No id rests on both sides. */
  lemma HeldOnOneSide(b: Book, id: nat, levels: Word, symbolId: Word, nextId: nat)
    requires WellFormed(b, levels, symbolId, nextId)
    ensures Holds(b.bids, id) ==> !Holds(b.asks, id)
  {
    if Holds(b.bids, id) {
      forall j | 0 <= j < |b.asks|
        ensures b.asks[j].orderId != id
      {
        assert b.bids[Position(b.bids, id)].orderId != b.asks[j].orderId;
      }
    }
  }

  lemma RemoveKeepsBook(b: Book, id: nat, levels: Word, symbolId: Word, nextId: nat)
    requires WellFormed(b, levels, symbolId, nextId)
    ensures WellFormed(Remove(b, id), levels, symbolId, nextId)
    ensures Remove(b, id).Size() == b.Size() - (if Find(b, id).Some? then 1 else 0)
  {
    DropKeeps(Buy, b.bids, id, levels, symbolId, nextId);
    DropKeeps(Sell, b.asks, id, levels, symbolId, nextId);
    var r := Remove(b, id);
    forall i, j | 0 <= i < |r.bids| && 0 <= j < |r.asks|
      ensures r.bids[i].price < r.asks[j].price && r.bids[i].orderId != r.asks[j].orderId
    {
      assert r.bids[i] in b.bids && r.asks[j] in b.asks;
    }
    HeldOnOneSide(b, id, levels, symbolId, nextId);
  }

  lemma FoundIsMember(q: seq<OrderInfo>, id: nat)
    ensures Holds(q, id) <==> exists x :: x in q && x.orderId == id
  {
    if exists x :: x in q && x.orderId == id {
      var x :| x in q && x.orderId == id;
      var j :| 0 <= j < |q| && q[j] == x;
    }
    if Holds(q, id) {
      assert q[Position(q, id)] in q;
    }
  }

  // ---------------------------------------------------------------- matching

  /** `q'` is the rear part of `q`, quantities aside. */
  ghost predicate RearOf(q': seq<OrderInfo>, q: seq<OrderInfo>) {
    && |q'| <= |q|
    && forall i {:trigger q'[i]} :: 0 <= i < |q'| ==>
         q'[i].remaining > 0 && q'[i] == q[|q| - |q'| + i].(remaining := q'[i].remaining)
  }

  lemma FillLeavesRear(a: OrderInfo, q: seq<OrderInfo>)
    requires Positive(q)
    ensures RearOf(Fill(a, q).queue, q)
  {
    FillLeavesTail(a, q);
    var q' := Fill(a, q).queue;
    var gone := |q| - |q'|;
    forall i {:trigger q'[i]} | 0 <= i < |q'|
      ensures q'[i].remaining > 0 && q'[i] == q[gone + i].(remaining := q'[i].remaining)
    {
      if i > 0 {
        assert q'[i] == q'[1..][i - 1] == q[gone..][1..][i - 1];
      }
    }
  }

  lemma RearKeepsOrder(side: Side, q': seq<OrderInfo>, q: seq<OrderInfo>)
    requires RearOf(q', q) && InPriorityOrder(side, q) && DistinctIds(q)
    ensures InPriorityOrder(side, q') && DistinctIds(q')
  {
    var gone := |q| - |q'|;
    forall i, j | 0 <= i < j < |q'|
      ensures Ahead(side, q'[i], q'[j]) && q'[i].orderId != q'[j].orderId
    {
      assert Ahead(side, q[gone + i], q[gone + j]);
    }
  }

  lemma RearKeepsMembers(side: Side, q': seq<OrderInfo>, q: seq<OrderInfo>, levels: Word, symbolId: Word, nextId: nat)
    requires RearOf(q', q) && Members(side, levels, symbolId, nextId, q)
    ensures Members(side, levels, symbolId, nextId, q')
  {
  }

  lemma FillKeeps(a: OrderInfo, q: seq<OrderInfo>, levels: Word, symbolId: Word, nextId: nat)
    requires InPriorityOrder(Opposite(a.side), q) && DistinctIds(q)
    requires Members(Opposite(a.side), levels, symbolId, nextId, q)
    ensures var q' := Fill(a, q).queue;
      && InPriorityOrder(Opposite(a.side), q') && DistinctIds(q')
      && Members(Opposite(a.side), levels, symbolId, nextId, q')
      && RearOf(q', q)
  {
    var q' := Fill(a, q).queue;
    FillLeavesRear(a, q);
    RearKeepsOrder(Opposite(a.side), q', q);
    RearKeepsMembers(Opposite(a.side), q', q, levels, symbolId, nextId);
  }

  /** An order fresh to the book. */
  ghost predicate Fresh(a: OrderInfo, levels: Word, symbolId: Word) {
    a.remaining > 0 && a.price < levels && a.symbolId == symbolId && a.orderId >= 1
  }

  lemma FillKeepsBook(b: Book, a: OrderInfo, levels: Word, symbolId: Word, nextId: nat)
    requires WellFormed(b, levels, symbolId, nextId)
    ensures var b' := b.With(Opposite(a.side), Fill(a, b.Queue(Opposite(a.side))).queue);
      && WellFormed(b', levels, symbolId, nextId)
      && b'.Size() <= b.Size()
  {
    var across := b.Queue(Opposite(a.side));
    FillKeeps(a, across, levels, symbolId, nextId);
    var q' := Fill(a, across).queue;
    var b' := b.With(Opposite(a.side), q');
    forall i, j | 0 <= i < |b'.bids| && 0 <= j < |b'.asks|
      ensures b'.bids[i].price < b'.asks[j].price && b'.bids[i].orderId != b'.asks[j].orderId
    {
      var gone := |across| - |q'|;
      if a.side == Buy {
        assert b.bids[i].price < b.asks[j + gone].price && b.bids[i].orderId != b.asks[j + gone].orderId;
      } else {
        assert b.bids[i + gone].price < b.asks[j].price && b.bids[i + gone].orderId != b.asks[j].orderId;
      }
    }
  }

  lemma RestKeepsBook(b: Book, o: OrderInfo, levels: Word, symbolId: Word)
    requires WellFormed(b, levels, symbolId, o.orderId) && Fresh(o, levels, symbolId)
    requires var across := b.Queue(Opposite(o.side));
             across == [] || !Crosses(o.side, o.price, across[0].price)
    ensures var b' := b.With(o.side, Enqueue(b.Queue(o.side), o));
      && WellFormed(b', levels, symbolId, o.orderId + 1)
      && b'.Size() == b.Size() + 1
  {
    assert Members(o.side, levels, symbolId, o.orderId + 1, [o]);
    EnqueueKeeps(b.Queue(o.side), o, levels, symbolId);
    RestsUncrossed(b, o, levels, symbolId);
  }

  /** Matching and resting keep the book well formed; in particular it is still uncrossed. */
  lemma ExecuteKeeps(b: Book, a: OrderInfo, levels: Word, symbolId: Word)
    requires WellFormed(b, levels, symbolId, a.orderId) && Fresh(a, levels, symbolId)
    ensures WellFormed(Execute(b, a).0, levels, symbolId, a.orderId + 1)
    ensures Execute(b, a).0.Size() <= b.Size() + 1
  {
    var f := Fill(a, b.Queue(Opposite(a.side)));
    FillStops(a, b.Queue(Opposite(a.side)));
    FillKeepsBook(b, a, levels, symbolId, a.orderId);
    var b' := b.With(Opposite(a.side), f.queue);
    if f.aggressor.remaining > 0 {
      RestKeepsBook(b', f.aggressor, levels, symbolId);
    } else {
      Weaken(b', levels, symbolId, a.orderId, a.orderId + 1);
    }
  }

  lemma RestsUncrossed(b: Book, o: OrderInfo, levels: Word, symbolId: Word)
    requires WellFormed(b, levels, symbolId, o.orderId) && Fresh(o, levels, symbolId)
    requires var across := b.Queue(Opposite(o.side));
             across == [] || !Crosses(o.side, o.price, across[0].price)
    ensures var b' := b.With(o.side, Enqueue(b.Queue(o.side), o));
            Uncrossed(b') && Disjoint(b'.bids, b'.asks)
  {
    var own, across := b.Queue(o.side), b.Queue(Opposite(o.side));
    var b' := b.With(o.side, Enqueue(own, o));
    forall i, j | 0 <= i < |b'.bids| && 0 <= j < |b'.asks|
      ensures b'.bids[i].price < b'.asks[j].price && b'.bids[i].orderId != b'.asks[j].orderId
    {
      EnqueueMembers(own, o, b'.bids[i]);
      EnqueueMembers(own, o, b'.asks[j]);
      var k := if o.side == Buy then j else i;
      assert across[k] == across[0] || Ahead(Opposite(o.side), across[0], across[k]);
    }
  }

  lemma Weaken(b: Book, levels: Word, symbolId: Word, nextId: nat, later: nat)
    requires WellFormed(b, levels, symbolId, nextId) && nextId <= later
    ensures WellFormed(b, levels, symbolId, later)
  {
  }
}
