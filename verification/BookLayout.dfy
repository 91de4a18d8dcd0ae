/** The concrete book as one value: the pool's slots, both arrays of price levels, the free list and the
    id index; what makes it consistent, and what it stands for. */
module BookLayout {
  import opened Words
  import Wrappers
  import opened Types
  import opened BookSpec
  import opened Matching
  import opened Flattening
  import opened Pool
  import opened Levels

  datatype LevelState = LevelState(head: Link, tail: Link, total: Word, list: seq<nat>)

  /** `loose` are the active slots in no list: an order in flight, or one unlinked but not yet released. */
  datatype Layout = Layout(
    os: seq<Order>, size: nat, freeHead: Link, free: seq<nat>,
    bids: seq<LevelState>, asks: seq<LevelState>, index: map<nat, nat>, loose: set<nat>)
  {
    function Side(side: Types.Side): seq<LevelState> {
      if side == Buy then bids else asks
    }

    function WithSide(side: Types.Side, levels: seq<LevelState>): Layout {
      if side == Buy then this.(bids := levels) else this.(asks := levels)
    }
  }

  // ---------------------------------------------------------------- what a layout stands for

  function InfoAt(os: seq<Order>, s: nat): OrderInfo {
    if s < |os| then os[s].info else BLANK.info
  }

  function InfosOf(os: seq<Order>, list: seq<nat>): (r: seq<OrderInfo>)
    ensures |r| == |list|
    ensures forall i :: 0 <= i < |list| ==> r[i] == InfoAt(os, list[i])
  {
    seq(|list|, i requires 0 <= i < |list| => InfoAt(os, list[i]))
  }

  function SideInfos(os: seq<Order>, levels: seq<LevelState>): (r: seq<seq<OrderInfo>>)
    ensures |r| == |levels|
    ensures forall p :: 0 <= p < |levels| ==> r[p] == InfosOf(os, levels[p].list)
  {
    seq(|levels|, p requires 0 <= p < |levels| => InfosOf(os, levels[p].list))
  }

  function BookOf(h: Layout): Book {
    Book(Queue(Buy, SideInfos(h.os, h.bids)), Queue(Sell, SideInfos(h.os, h.asks)))
  }

  // ---------------------------------------------------------------- consistency

  /** Every listed slot is active and on this side and price. */
  ghost predicate Listed(os: seq<Order>, side: Types.Side, p: nat, list: seq<nat>) {
    && (forall i :: 0 <= i < |list| ==> list[i] < |os|)
    && forall i {:trigger os[list[i]]} :: 0 <= i < |list| ==>
         var o := os[list[i]];
         o.active && o.info.side == side && o.info.price == p
  }

  ghost predicate LevelOk(os: seq<Order>, side: Types.Side, p: nat, l: LevelState) {
    && Linked(os, l.head, l.tail, l.list)
    && Listed(os, side, p, l.list)
    && l.total == Total(InfosOf(os, l.list)) % TWO_64
  }

  ghost predicate SideOk(os: seq<Order>, side: Types.Side, levels: seq<LevelState>) {
    forall p {:trigger LevelOk(os, side, p, levels[p])} :: 0 <= p < |levels| ==> LevelOk(os, side, p, levels[p])
  }

  /** The list that an order belongs in. */
  function HomeList(h: Layout, o: OrderInfo): seq<nat> {
    if o.price < |h.Side(o.side)| then h.Side(o.side)[o.price].list else []
  }

  /** An active slot is either loose or in the list of its own side and price, never both. */
  ghost predicate PlacedAt(h: Layout, symbolId: Word, s: nat)
    requires s < |h.os|
  {
    h.os[s].active ==>
      && h.os[s].info.symbolId == symbolId
      && h.os[s].info.price < |h.bids|
      && (s in h.loose <==> s !in HomeList(h, h.os[s].info))
  }

  ghost predicate Placed(h: Layout, symbolId: Word) {
    && (forall s: nat {:trigger PlacedAt(h, symbolId, s)} :: s < |h.os| ==> PlacedAt(h, symbolId, s))
    && (forall s {:trigger s in h.loose} :: s in h.loose ==> s < |h.os| && h.os[s].active)
  }

  /** Below the high-water mark a slot is free or active, never both; above it, untouched. */
  ghost predicate PoolOk(h: Layout) {
    && h.size <= |h.os|
    && FreeChain(h.os, h.size, h.freeHead, h.free)
    && Untouched(h.os, h.size)
    && forall s: nat {:trigger s in h.free} :: s < h.size && !h.os[s].active ==> s in h.free
  }

  ghost predicate KeyOk(os: seq<Order>, index: map<nat, nat>, id: nat)
    requires id in index
  {
    index[id] < |os| && os[index[id]].active && os[index[id]].info.orderId == id
  }

  ghost predicate SlotIndexed(os: seq<Order>, index: map<nat, nat>, s: nat)
    requires s < |os|
  {
    os[s].active ==> os[s].info.orderId in index && index[os[s].info.orderId] == s
  }

  /** The index maps exactly the ids of the active slots, each to its slot. */
  ghost predicate IndexOk(os: seq<Order>, index: map<nat, nat>) {
    && (forall id {:trigger KeyOk(os, index, id)} :: id in index ==> KeyOk(os, index, id))
    && (forall s: nat {:trigger SlotIndexed(os, index, s)} :: s < |os| ==> SlotIndexed(os, index, s))
  }

  ghost predicate Counted(h: Layout) {
    && BookOf(h).Size() + |h.loose| == h.size - |h.free|
    && |h.index| == h.size - |h.free|
  }

  ghost predicate LayoutOk(h: Layout, levels: nat, symbolId: Word) {
    && |h.bids| == |h.asks| == levels < TWO_64
    && SideOk(h.os, Buy, h.bids) && SideOk(h.os, Sell, h.asks)
    && Placed(h, symbolId)
    && PoolOk(h)
    && IndexOk(h.os, h.index)
    && Counted(h)
  }

  lemma EmptyLevel(os: seq<Order>, side: Types.Side, p: nat)
    ensures LevelOk(os, side, p, LevelState(Null, Null, 0, []))
  {
  }

  lemma EmptyLayout(h: Layout, levels: nat, symbolId: Word)
    requires |h.bids| == |h.asks| == levels < TWO_64
    requires forall p {:trigger h.bids[p]} :: 0 <= p < levels ==> h.bids[p] == LevelState(Null, Null, 0, [])
    requires forall p {:trigger h.asks[p]} :: 0 <= p < levels ==> h.asks[p] == LevelState(Null, Null, 0, [])
    requires forall s {:trigger h.os[s]} :: 0 <= s < |h.os| ==> h.os[s] == BLANK
    requires h.size == 0 && h.free == [] && h.freeHead == Null && h.index == map[] && h.loose == {}
    ensures LayoutOk(h, levels, symbolId) && BookOf(h) == EMPTY
  {
    QueueEmpty(Buy, SideInfos(h.os, h.bids));
    QueueEmpty(Sell, SideInfos(h.os, h.asks));
    forall p {:trigger LevelOk(h.os, Buy, p, h.bids[p])} | 0 <= p < levels
      ensures LevelOk(h.os, Buy, p, h.bids[p])
    {
      EmptyLevel(h.os, Buy, p);
    }
    forall p {:trigger LevelOk(h.os, Sell, p, h.asks[p])} | 0 <= p < levels
      ensures LevelOk(h.os, Sell, p, h.asks[p])
    {
      EmptyLevel(h.os, Sell, p);
    }
  }

  lemma EmptyRefines(h: Layout, levels: nat, symbolId: Word)
    requires |h.bids| == |h.asks| == levels < TWO_64
    requires forall p {:trigger h.bids[p]} :: 0 <= p < levels ==> h.bids[p] == LevelState(Null, Null, 0, [])
    requires forall p {:trigger h.asks[p]} :: 0 <= p < levels ==> h.asks[p] == LevelState(Null, Null, 0, [])
    requires forall s {:trigger h.os[s]} :: 0 <= s < |h.os| ==> h.os[s] == BLANK
    requires h.size == 0 && h.free == [] && h.freeHead == Null && h.index == map[] && h.loose == {}
    ensures Refines(h, EMPTY, levels, symbolId)
    ensures BestIs(Buy, h.bids, Wrappers.None) && BestIs(Sell, h.asks, Wrappers.None)
  {
    EmptyLayout(h, levels, symbolId);
  }

  // ---------------------------------------------------------------- frames

  lemma LevelFrame(os: seq<Order>, os': seq<Order>, side: Types.Side, p: nat, l: LevelState)
    requires LevelOk(os, side, p, l) && |os'| == |os|
    requires forall i {:trigger os'[l.list[i]]} {:trigger os[l.list[i]]} ::
      0 <= i < |l.list| ==> os'[l.list[i]] == os[l.list[i]]
    ensures LevelOk(os', side, p, l)
    ensures InfosOf(os', l.list) == InfosOf(os, l.list)
  {
    forall i | 0 <= i < |l.list|
      ensures InfosOf(os', l.list)[i] == InfosOf(os, l.list)[i]
    {
      assert os'[l.list[i]] == os[l.list[i]];
    }
    assert InfosOf(os', l.list) == InfosOf(os, l.list);
  }

  /** Slot `s` stands in the list of level `os[s].info.price`. */
  ghost predicate Stands(os: seq<Order>, side: Types.Side, levels: seq<LevelState>, s: nat) {
    && s < |os| && os[s].active && os[s].info.side == side
    && os[s].info.price < |levels| && s in levels[os[s].info.price].list
  }

  /** Slots of a list share its side and price, so lists of different levels share no slot. */
  lemma SideFrame(os: seq<Order>, os': seq<Order>, side: Types.Side, levels: seq<LevelState>)
    requires SideOk(os, side, levels) && |os'| == |os|
    requires forall s: nat :: Stands(os, side, levels, s) ==> os'[s] == os[s]
    ensures SideOk(os', side, levels)
    ensures SideInfos(os', levels) == SideInfos(os, levels)
  {
    forall p | 0 <= p < |levels|
      ensures LevelOk(os', side, p, levels[p])
      ensures SideInfos(os', levels)[p] == SideInfos(os, levels)[p]
    {
      var l := levels[p];
      assert LevelOk(os, side, p, l);
      forall i {:trigger os'[l.list[i]]} | 0 <= i < |l.list|
        ensures os'[l.list[i]] == os[l.list[i]]
      {
        assert os[l.list[i]].active && Stands(os, side, levels, l.list[i]);
      }
      LevelFrame(os, os', side, p, l);
    }
  }

  /** Replacing level `p`, and touching only slots that are in no other list, keeps a side. */
  lemma SideUpdate(os: seq<Order>, os': seq<Order>, side: Types.Side, levels: seq<LevelState>, p: nat, l: LevelState)
    requires SideOk(os, side, levels) && |os'| == |os| && p < |levels|
    requires LevelOk(os', side, p, l)
    requires forall s: nat :: Stands(os, side, levels, s) && os[s].info.price != p ==> os'[s] == os[s]
    ensures SideOk(os', side, levels[p := l])
    ensures SideInfos(os', levels[p := l]) == SideInfos(os, levels)[p := InfosOf(os', l.list)]
  {
    var levels' := levels[p := l];
    forall q | 0 <= q < |levels|
      ensures LevelOk(os', side, q, levels'[q])
      ensures SideInfos(os', levels')[q] == SideInfos(os, levels)[p := InfosOf(os', l.list)][q]
    {
      if q != p {
        var m := levels[q];
        assert LevelOk(os, side, q, m);
        forall i {:trigger os'[m.list[i]]} | 0 <= i < |m.list|
          ensures os'[m.list[i]] == os[m.list[i]]
        {
          assert os[m.list[i]].active && Stands(os, side, levels, m.list[i]);
        }
        LevelFrame(os, os', side, q, m);
      }
    }
  }

  lemma SidePriced(os: seq<Order>, side: Types.Side, levels: seq<LevelState>)
    requires SideOk(os, side, levels)
    ensures PricedByLevel(side, SideInfos(os, levels))
  {
    forall p, i | 0 <= p < |levels| && 0 <= i < |SideInfos(os, levels)[p]|
      ensures SideInfos(os, levels)[p][i].side == side && SideInfos(os, levels)[p][i].price == p
    {
      assert LevelOk(os, side, p, levels[p]);
      assert os[levels[p].list[i]].active;
    }
  }

  /** Relinking active slots leaves the free list, the untouched slots and the index as they are. */
  lemma RelinkFrame(h: Layout, os': seq<Order>, list: seq<nat>, s: nat)
    requires PoolOk(h) && IndexOk(h.os, h.index)
    requires OnlyRelinks(h.os, os', list, s)
    requires s < |h.os| && h.os[s].active
    requires forall t :: t in list ==> t < |h.os| && h.os[t].active
    ensures PoolOk(h.(os := os')) && IndexOk(os', h.index)
  {
    forall t | 0 <= t < |h.os| && !h.os[t].active
      ensures os'[t] == h.os[t]
    {
      assert t !in list;
    }
    forall i {:trigger os'[h.free[i]]} | 0 <= i < |h.free|
      ensures !os'[h.free[i]].active && os'[h.free[i]].next == LinkTo(h.free, i + 1)
    {
      assert !h.os[h.free[i]].active;
    }
    forall id {:trigger KeyOk(os', h.index, id)} | id in h.index
      ensures KeyOk(os', h.index, id)
    {
      assert KeyOk(h.os, h.index, id);
    }
    forall t: nat {:trigger SlotIndexed(os', h.index, t)} | t < |os'|
      ensures SlotIndexed(os', h.index, t)
    {
      assert SlotIndexed(h.os, h.index, t);
    }
  }

  lemma ListedActive(os: seq<Order>, side: Types.Side, levels: seq<LevelState>, p: nat)
    requires SideOk(os, side, levels) && p < |levels|
    ensures forall t :: t in levels[p].list ==>
              t < |os| && os[t].active && os[t].info.side == side && os[t].info.price == p
  {
    assert LevelOk(os, side, p, levels[p]);
    forall t | t in levels[p].list
      ensures t < |os| && os[t].active && os[t].info.side == side && os[t].info.price == p
    {
      var i :| 0 <= i < |levels[p].list| && levels[p].list[i] == t;
      assert os[levels[p].list[i]].active;
    }
  }

  lemma OneFewer(loose: set<nat>, s: nat)
    requires s in loose
    ensures |loose - {s}| == |loose| - 1
  {
  }

  lemma OneMore(loose: set<nat>, s: nat)
    requires s !in loose
    ensures |loose + {s}| == |loose| + 1
  {
  }

  // ---------------------------------------------------------------- appending a loose slot to its level

  ghost predicate Attaches(h: Layout, s: nat, os': seq<Order>, l': LevelState) {
    && s in h.loose && s < |h.os|
    && var o := h.os[s].info;
       && o.price < |h.Side(o.side)|
       && var l := h.Side(o.side)[o.price];
          && OnlyRelinks(h.os, os', l.list, s)
          && l'.list == l.list + [s]
          && Linked(os', l'.head, l'.tail, l'.list)
          && l'.total == WrapAdd(l.total, o.remaining)
  }

  function Attached(h: Layout, s: nat, os': seq<Order>, l': LevelState): Layout
    requires s < |h.os| && h.os[s].info.price < |h.Side(h.os[s].info.side)|
  {
    var o := h.os[s].info;
    h.(os := os').WithSide(o.side, h.Side(o.side)[o.price := l']).(loose := h.loose - {s})
  }

  /** Relinking changes no order's data. */
  lemma RelinkSameInfos(os: seq<Order>, os': seq<Order>, list: seq<nat>, s: nat, any: seq<nat>)
    requires OnlyRelinks(os, os', list, s)
    ensures InfosOf(os', any) == InfosOf(os, any)
  {
    forall i | 0 <= i < |any|
      ensures InfosOf(os', any)[i] == InfosOf(os, any)[i]
    {
      if any[i] < |os| {
        assert SameOrder(os[any[i]], os'[any[i]]);
      }
    }
  }

  lemma RelinkListed(os: seq<Order>, os': seq<Order>, list: seq<nat>, s: nat, side: Types.Side, p: nat, any: seq<nat>)
    requires OnlyRelinks(os, os', list, s) && Listed(os, side, p, any)
    ensures Listed(os', side, p, any)
  {
    forall i {:trigger os'[any[i]]} | 0 <= i < |any|
      ensures os'[any[i]].active && os'[any[i]].info.side == side && os'[any[i]].info.price == p
    {
      assert SameOrder(os[any[i]], os'[any[i]]);
    }
  }

  lemma InfosAppend(os: seq<Order>, list: seq<nat>, s: nat)
    ensures InfosOf(os, list + [s]) == InfosOf(os, list) + [InfoAt(os, s)]
    ensures Total(InfosOf(os, list + [s])) == Total(InfosOf(os, list)) + InfoAt(os, s).remaining
  {
    assert InfosOf(os, list + [s]) == InfosOf(os, list) + [InfoAt(os, s)];
    TotalSplit(InfosOf(os, list), [InfoAt(os, s)]);
    assert Total([InfoAt(os, s)]) == InfoAt(os, s).remaining;
  }

  lemma AttachLevel(h: Layout, s: nat, os': seq<Order>, l': LevelState)
    requires Attaches(h, s, os', l') && h.os[s].active
    requires SideOk(h.os, h.os[s].info.side, h.Side(h.os[s].info.side))
    ensures var o := h.os[s].info;
      && LevelOk(os', o.side, o.price, l')
      && InfosOf(os', l'.list) == InfosOf(h.os, h.Side(o.side)[o.price].list) + [o]
  {
    var o := h.os[s].info;
    var l := h.Side(o.side)[o.price];
    assert LevelOk(h.os, o.side, o.price, l);
    AppendListed(h.os, o.side, o.price, l.list, s);
    RelinkListed(h.os, os', l.list, s, o.side, o.price, l'.list);
    AttachTotal(h.os, os', l.list, s, l.total, l'.list);
  }

  lemma AttachTotal(os: seq<Order>, os': seq<Order>, list: seq<nat>, s: nat, total: Word, list': seq<nat>)
    requires OnlyRelinks(os, os', list, s) && s < |os| && list' == list + [s]
    requires total == Total(InfosOf(os, list)) % TWO_64
    ensures InfosOf(os', list') == InfosOf(os, list) + [os[s].info]
    ensures WrapAdd(total, os[s].info.remaining) == Total(InfosOf(os', list')) % TWO_64
  {
    RelinkSameInfos(os, os', list, s, list');
    InfosAppend(os, list, s);
    WrapTracksAdd(Total(InfosOf(os, list)), os[s].info.remaining);
  }

  lemma AppendListed(os: seq<Order>, side: Types.Side, p: nat, list: seq<nat>, s: nat)
    requires Listed(os, side, p, list)
    requires s < |os| && os[s].active && os[s].info.side == side && os[s].info.price == p
    ensures Listed(os, side, p, list + [s])
  {
    forall i {:trigger os[(list + [s])[i]]} | 0 <= i < |list + [s]|
      ensures os[(list + [s])[i]].active
      ensures os[(list + [s])[i]].info.side == side && os[(list + [s])[i]].info.price == p
    {
      if i < |list| {
        assert os[list[i]].active;
      }
    }
  }

  lemma AttachPlaced(h: Layout, s: nat, os': seq<Order>, l': LevelState, symbolId: Word)
    requires Placed(h, symbolId) && Attaches(h, s, os', l') && |h.bids| == |h.asks|
    ensures Placed(Attached(h, s, os', l'), symbolId)
  {
    var h' := Attached(h, s, os', l');
    forall t: nat {:trigger PlacedAt(h', symbolId, t)} | t < |os'|
      ensures PlacedAt(h', symbolId, t)
    {
      assert PlacedAt(h, symbolId, t) && SameOrder(h.os[t], os'[t]);
    }
  }

  /** Resting a loose order: still consistent, and it joins its side's queue in priority order. */
  lemma AttachKeeps(h: Layout, s: nat, os': seq<Order>, l': LevelState, levels: nat, symbolId: Word)
    requires LayoutOk(h, levels, symbolId) && Attaches(h, s, os', l')
    ensures LayoutOk(Attached(h, s, os', l'), levels, symbolId)
    ensures var o := h.os[s].info;
      BookOf(Attached(h, s, os', l')) == BookOf(h).With(o.side, Enqueue(BookOf(h).Queue(o.side), o))
  {
    var o := h.os[s].info;
    var h' := Attached(h, s, os', l');
    var l := h.Side(o.side)[o.price];
    AttachLevel(h, s, os', l');
    AttachPlaced(h, s, os', l', symbolId);
    ListedActive(h.os, o.side, h.Side(o.side), o.price);
    RelinkFrame(h, os', l.list, s);
    SidesAfterRelink(h, o.side, o.price, os', s, l');
    SidePriced(h.os, o.side, h.Side(o.side));
    QueueAppend(o.side, SideInfos(h.os, h.Side(o.side)), o.price, o);
    EnqueueSize(BookOf(h).Queue(o.side), o);
    OneFewer(h.loose, s);
  }

  lemma {:induction false} EnqueueSize(q: seq<OrderInfo>, o: OrderInfo)
    ensures |Enqueue(q, o)| == |q| + 1
  {
    if q == [] || Better(o.side, o.price, q[0].price) {
    } else {
      EnqueueSize(q[1..], o);
    }
  }

  /** Both sides after relinking within level (`side`, `p`), `s` an active slot of that level's price. */
  lemma SidesAfterRelink(h: Layout, side: Types.Side, p: nat, os': seq<Order>, s: nat, l': LevelState)
    requires SideOk(h.os, Buy, h.bids) && SideOk(h.os, Sell, h.asks)
    requires p < |h.Side(side)| && s < |h.os| && h.os[s].active
    requires h.os[s].info.side == side && h.os[s].info.price == p
    requires OnlyRelinks(h.os, os', h.Side(side)[p].list, s)
    requires LevelOk(os', side, p, l')
    ensures SideOk(os', side, h.Side(side)[p := l'])
    ensures SideOk(os', Opposite(side), h.Side(Opposite(side)))
    ensures SideInfos(os', h.Side(side)[p := l']) == SideInfos(h.os, h.Side(side))[p := InfosOf(os', l'.list)]
    ensures SideInfos(os', h.Side(Opposite(side))) == SideInfos(h.os, h.Side(Opposite(side)))
  {
    ListedActive(h.os, side, h.Side(side), p);
    SideUpdate(h.os, os', side, h.Side(side), p, l');
    SideFrame(h.os, os', Opposite(side), h.Side(Opposite(side)));
  }

  // ---------------------------------------------------------------- unlinking an order from its level

  ghost predicate Detaches(h: Layout, s: nat, k: nat, os': seq<Order>, l': LevelState) {
    && s < |h.os| && h.os[s].active
    && var o := h.os[s].info;
       && o.price < |h.Side(o.side)|
       && var l := h.Side(o.side)[o.price];
          && k < |l.list| && l.list[k] == s
          && OnlyRelinks(h.os, os', l.list, s)
          && l'.list == Cut(l.list, k)
          && Linked(os', l'.head, l'.tail, l'.list)
          && l'.total == WrapSub(l.total, o.remaining)
  }

  function Detached(h: Layout, s: nat, os': seq<Order>, l': LevelState): Layout
    requires s < |h.os| && h.os[s].info.price < |h.Side(h.os[s].info.side)|
  {
    var o := h.os[s].info;
    h.(os := os').WithSide(o.side, h.Side(o.side)[o.price := l']).(loose := h.loose + {s})
  }

  lemma InfosCut(os: seq<Order>, list: seq<nat>, k: nat)
    requires k < |list|
    ensures var q := InfosOf(os, list);
      && InfosOf(os, Cut(list, k)) == q[..k] + q[k + 1..]
      && Total(q) == Total(q[..k] + q[k + 1..]) + q[k].remaining
  {
    var q := InfosOf(os, list);
    assert InfosOf(os, Cut(list, k)) == q[..k] + q[k + 1..];
    assert q == q[..k] + ([q[k]] + q[k + 1..]);
    TotalSplit(q[..k], [q[k]] + q[k + 1..]);
    TotalSplit(q[..k], q[k + 1..]);
    TotalSplit([q[k]], q[k + 1..]);
    assert Total([q[k]]) == q[k].remaining;
  }

  lemma CutTotal(os: seq<Order>, list: seq<nat>, k: nat, total: Word)
    requires k < |list| && total == Total(InfosOf(os, list)) % TWO_64
    ensures WrapSub(total, InfosOf(os, list)[k].remaining) == Total(InfosOf(os, Cut(list, k))) % TWO_64
  {
    InfosCut(os, list, k);
    WrapTracksSub(Total(InfosOf(os, Cut(list, k))), InfosOf(os, list)[k].remaining);
  }

  lemma CutListed(os: seq<Order>, side: Types.Side, p: nat, list: seq<nat>, k: nat)
    requires Listed(os, side, p, list) && k < |list|
    ensures Listed(os, side, p, Cut(list, k))
  {
    forall i {:trigger os[Cut(list, k)[i]]} | 0 <= i < |Cut(list, k)|
      ensures os[Cut(list, k)[i]].active
      ensures os[Cut(list, k)[i]].info.side == side && os[Cut(list, k)[i]].info.price == p
    {
      assert os[list[if i < k then i else i + 1]].active;
    }
  }

  lemma DetachLevel(h: Layout, s: nat, k: nat, os': seq<Order>, l': LevelState)
    requires Detaches(h, s, k, os', l')
    requires SideOk(h.os, h.os[s].info.side, h.Side(h.os[s].info.side))
    ensures var o := h.os[s].info;
      var q := InfosOf(h.os, h.Side(o.side)[o.price].list);
      && LevelOk(os', o.side, o.price, l')
      && q[k] == o
      && InfosOf(os', l'.list) == q[..k] + q[k + 1..]
  {
    var o := h.os[s].info;
    var l := h.Side(o.side)[o.price];
    assert LevelOk(h.os, o.side, o.price, l);
    CutListed(h.os, o.side, o.price, l.list, k);
    RelinkListed(h.os, os', l.list, s, o.side, o.price, l'.list);
    RelinkSameInfos(h.os, os', l.list, s, l'.list);
    InfosCut(h.os, l.list, k);
    CutTotal(h.os, l.list, k, l.total);
  }

  lemma CutMembers(list: seq<nat>, k: nat, t: nat)
    requires k < |list| && NoDuplicates(list)
    ensures t in Cut(list, k) <==> t in list && t != list[k]
  {
    CutEnds(list, k);
    if t in Cut(list, k) {
      var i :| 0 <= i < |Cut(list, k)| && Cut(list, k)[i] == t;
      assert list[if i < k then i else i + 1] == t;
    }
    if t in list && t != list[k] {
      var i :| 0 <= i < |list| && list[i] == t;
      assert Cut(list, k)[if i < k then i else i - 1] == t;
    }
  }

  lemma DetachPlaced(h: Layout, s: nat, k: nat, os': seq<Order>, l': LevelState, symbolId: Word)
    requires Placed(h, symbolId) && Detaches(h, s, k, os', l') && |h.bids| == |h.asks|
    requires NoDuplicates(HomeList(h, h.os[s].info))
    ensures Placed(Detached(h, s, os', l'), symbolId)
    ensures s !in h.loose
  {
    var h' := Detached(h, s, os', l');
    assert PlacedAt(h, symbolId, s);
    forall t: nat {:trigger PlacedAt(h', symbolId, t)} | t < |os'|
      ensures PlacedAt(h', symbolId, t)
    {
      assert PlacedAt(h, symbolId, t) && SameOrder(h.os[t], os'[t]);
      CutMembers(HomeList(h, h.os[s].info), k, t);
    }
  }

  /** The order at position `i` of level `p`, as the index sees it. */
  lemma ListedId(h: Layout, side: Types.Side, p: nat, i: nat)
    requires SideOk(h.os, side, h.Side(side)) && IndexOk(h.os, h.index)
    requires p < |h.Side(side)| && i < |h.Side(side)[p].list|
    ensures var s := h.Side(side)[p].list[i];
      && s < |h.os| && h.os[s].active && h.os[s].info.side == side && h.os[s].info.price == p
      && SideInfos(h.os, h.Side(side))[p][i] == h.os[s].info
      && h.os[s].info.orderId in h.index && h.index[h.os[s].info.orderId] == s
  {
    ListedActive(h.os, side, h.Side(side), p);
    assert h.Side(side)[p].list[i] in h.Side(side)[p].list;
    assert SlotIndexed(h.os, h.index, h.Side(side)[p].list[i]);
  }

  /** Both sides, and the queue, after unlinking. */
  lemma DetachSides(h: Layout, s: nat, k: nat, os': seq<Order>, l': LevelState)
    requires SideOk(h.os, Buy, h.bids) && SideOk(h.os, Sell, h.asks) && IndexOk(h.os, h.index)
    requires Detaches(h, s, k, os', l') && |h.bids| == |h.asks| < TWO_64
    ensures var h' := Detached(h, s, os', l');
      SideOk(os', Buy, h'.bids) && SideOk(os', Sell, h'.asks)
    ensures var o := h.os[s].info;
      var q := BookOf(h).Queue(o.side);
      && Holds(q, o.orderId) && q[Position(q, o.orderId)] == o
      && BookOf(Detached(h, s, os', l')) == BookOf(h).With(o.side, Drop(q, o.orderId))
      && BookOf(Detached(h, s, os', l')).Size() == BookOf(h).Size() - 1
  {
    var o := h.os[s].info;
    DetachLevel(h, s, k, os', l');
    SidesAfterRelink(h, o.side, o.price, os', s, l');
    SidePriced(h.os, o.side, h.Side(o.side));
    DetachIds(h, o.side, o.price, k);
    QueueCut(o.side, SideInfos(h.os, h.Side(o.side)), o.price, k);
  }

  /** Unlinking an order: still consistent, and its side's queue drops exactly that order. */
  lemma DetachKeeps(h: Layout, s: nat, k: nat, os': seq<Order>, l': LevelState, levels: nat, symbolId: Word)
    requires LayoutOk(h, levels, symbolId) && Detaches(h, s, k, os', l')
    ensures LayoutOk(Detached(h, s, os', l'), levels, symbolId)
    ensures var o := h.os[s].info;
      var q := BookOf(h).Queue(o.side);
      && Holds(q, o.orderId) && q[Position(q, o.orderId)] == o
      && BookOf(Detached(h, s, os', l')) == BookOf(h).With(o.side, Drop(q, o.orderId))
  {
    var o := h.os[s].info;
    assert LevelOk(h.os, o.side, o.price, h.Side(o.side)[o.price]);
    DetachSides(h, s, k, os', l');
    DetachPlaced(h, s, k, os', l', symbolId);
    ListedActive(h.os, o.side, h.Side(o.side), o.price);
    RelinkFrame(h, os', h.Side(o.side)[o.price].list, s);
    OneMore(h.loose, s);
  }

  /** No other order of the side carries the id of the one at position `k` of level `p`. */
  lemma DetachIds(h: Layout, side: Types.Side, p: nat, k: nat)
    requires SideOk(h.os, side, h.Side(side)) && IndexOk(h.os, h.index)
    requires p < |h.Side(side)| && k < |h.Side(side)[p].list|
    ensures var infos := SideInfos(h.os, h.Side(side));
      && (forall i :: 0 <= i < k ==> infos[p][i].orderId != infos[p][k].orderId)
      && (forall q, i :: 0 <= q < |infos| && q != p && 0 <= i < |infos[q]|
            ==> infos[q][i].orderId != infos[p][k].orderId)
  {
    var infos: seq<seq<OrderInfo>> := SideInfos(h.os, h.Side(side));
    assert LevelOk(h.os, side, p, h.Side(side)[p]);
    ListedId(h, side, p, k);
    forall i | 0 <= i < k
      ensures infos[p][i].orderId != infos[p][k].orderId
    {
      ListedId(h, side, p, i);
      assert Apart(h.Side(side)[p].list, i, k);
    }
    forall q, i | 0 <= q < |infos| && q != p && 0 <= i < |infos[q]|
      ensures infos[q][i].orderId != infos[p][k].orderId
    {
      ListedId(h, side, q, i);
    }
  }

  // ---------------------------------------------------------------- slots outside every list

  /** Rewriting a slot that stands in no list keeps both sides and the book. */
  lemma SlotFrame(h: Layout, s: nat, o: Order)
    requires SideOk(h.os, Buy, h.bids) && SideOk(h.os, Sell, h.asks) && s < |h.os|
    requires !Stands(h.os, Buy, h.bids, s) && !Stands(h.os, Sell, h.asks, s)
    ensures SideOk(h.os[s := o], Buy, h.bids) && SideOk(h.os[s := o], Sell, h.asks)
    ensures BookOf(h.(os := h.os[s := o])) == BookOf(h)
  {
    SideFrame(h.os, h.os[s := o], Buy, h.bids);
    SideFrame(h.os, h.os[s := o], Sell, h.asks);
  }

  /** The pool with an inactive, unlisted slot turned active, or a loose one rewritten. */
  lemma ActiveFrame(h: Layout, s: nat, o: Order)
    requires PoolOk(h) && s < h.size && s !in h.free && o.active
    ensures PoolOk(h.(os := h.os[s := o]))
  {
    var os' := h.os[s := o];
    forall i {:trigger os'[h.free[i]]} | 0 <= i < |h.free|
      ensures !os'[h.free[i]].active && os'[h.free[i]].next == LinkTo(h.free, i + 1)
    {
      assert !h.os[h.free[i]].active;
    }
  }

  /** An active slot lies below the high-water mark and is not free. */
  lemma ActiveInUse(h: Layout, s: nat)
    requires PoolOk(h) && s < |h.os| && h.os[s].active
    ensures s < h.size && s !in h.free
  {
    forall i | 0 <= i < |h.free|
      ensures h.free[i] != s
    {
      assert !h.os[h.free[i]].active;
    }
  }

  /** Changing an active slot's remaining quantity, and no list, keeps every slot where it is. */
  ghost predicate OnlyQuantity(h: Layout, h': Layout, s: nat) {
    && s < |h.os| && h.os[s].active && |h'.os| == |h.os|
    && h'.os[s].active && h'.os[s].info == h.os[s].info.(remaining := h'.os[s].info.remaining)
    && (forall t :: 0 <= t < |h.os| && t != s ==> h'.os[t] == h.os[t])
    && |h'.bids| == |h.bids| && |h'.asks| == |h.asks|
    && (forall p :: 0 <= p < |h.bids| ==> h'.bids[p].list == h.bids[p].list)
    && (forall p :: 0 <= p < |h.asks| ==> h'.asks[p].list == h.asks[p].list)
    && h'.loose == h.loose && h'.index == h.index
  }

  lemma QuantityFrame(h: Layout, h': Layout, s: nat, symbolId: Word)
    requires Placed(h, symbolId) && IndexOk(h.os, h.index) && OnlyQuantity(h, h', s) && |h.bids| == |h.asks|
    ensures Placed(h', symbolId) && IndexOk(h'.os, h'.index)
  {
    forall t: nat {:trigger PlacedAt(h', symbolId, t)} | t < |h'.os|
      ensures PlacedAt(h', symbolId, t)
    {
      assert PlacedAt(h, symbolId, t);
    }
    forall id {:trigger KeyOk(h'.os, h'.index, id)} | id in h'.index
      ensures KeyOk(h'.os, h'.index, id)
    {
      assert KeyOk(h.os, h.index, id);
    }
    forall t: nat {:trigger SlotIndexed(h'.os, h'.index, t)} | t < |h'.os|
      ensures SlotIndexed(h'.os, h'.index, t)
    {
      assert SlotIndexed(h.os, h.index, t);
    }
  }

  /** Taking quantity off a loose order changes nothing else. */
  lemma ReduceLoose(h: Layout, s: nat, x: Word, levels: nat, symbolId: Word)
    requires LayoutOk(h, levels, symbolId) && s in h.loose && x <= h.os[s].info.remaining
    ensures var h' := h.(os := h.os[s := h.os[s].(info := Reduce(h.os[s].info, x))]);
      LayoutOk(h', levels, symbolId) && BookOf(h') == BookOf(h)
  {
    var o := h.os[s].(info := Reduce(h.os[s].info, x));
    ActiveInUse(h, s);
    assert PlacedAt(h, symbolId, s);
    SlotFrame(h, s, o);
    ActiveFrame(h, s, o);
    QuantityFrame(h, h.(os := h.os[s := o]), s, symbolId);
  }

  function Retired(h: Layout, s: nat): Layout
    requires s < |h.os|
  {
    Layout(h.os[s := BLANK.(next := h.freeHead)], h.size, At(s), [s] + h.free,
           h.bids, h.asks, h.index - {h.os[s].info.orderId}, h.loose - {s})
  }

  lemma RetirePool(h: Layout, s: nat)
    requires PoolOk(h) && s < |h.os| && h.os[s].active
    ensures PoolOk(Retired(h, s))
    ensures s < h.size && s !in h.free
  {
    ActiveInUse(h, s);
    ConsApart(s, h.free);
    var h' := Retired(h, s);
    forall i {:trigger h'.os[h'.free[i]]} | 0 <= i < |h'.free|
      ensures !h'.os[h'.free[i]].active && h'.os[h'.free[i]].next == LinkTo(h'.free, i + 1)
    {
      if i > 0 {
        assert h'.free[i] == h.free[i - 1] && !h.os[h.free[i - 1]].active;
        assert h.free[i - 1] in h.free;
        assert LinkTo(h'.free, i + 1) == LinkTo(h.free, i);
      } else {
        assert LinkTo(h'.free, 1) == LinkTo(h.free, 0);
      }
    }
    forall t | 0 <= t < h'.size && !h'.os[t].active
      ensures t in h'.free
    {
      if t != s {
        assert t in h.free;
      }
    }
  }

  lemma RetireIndex(h: Layout, s: nat)
    requires IndexOk(h.os, h.index) && s < |h.os| && h.os[s].active
    ensures IndexOk(Retired(h, s).os, Retired(h, s).index)
    ensures |Retired(h, s).index| == |h.index| - 1
  {
    var h' := Retired(h, s);
    assert h'.index.Keys == h.index.Keys - {h.os[s].info.orderId};
    assert SlotIndexed(h.os, h.index, s);
    forall id {:trigger KeyOk(h'.os, h'.index, id)} | id in h'.index
      ensures KeyOk(h'.os, h'.index, id)
    {
      assert KeyOk(h.os, h.index, id);
    }
    forall t: nat {:trigger SlotIndexed(h'.os, h'.index, t)} | t < |h'.os|
      ensures SlotIndexed(h'.os, h'.index, t)
    {
      assert SlotIndexed(h.os, h.index, t);
    }
  }

  lemma RetirePlaced(h: Layout, s: nat, symbolId: Word)
    requires Placed(h, symbolId) && s in h.loose && |h.bids| == |h.asks|
    ensures Placed(Retired(h, s), symbolId)
    ensures !Stands(h.os, Buy, h.bids, s) && !Stands(h.os, Sell, h.asks, s)
  {
    var h' := Retired(h, s);
    assert PlacedAt(h, symbolId, s);
    forall t: nat {:trigger PlacedAt(h', symbolId, t)} | t < |h'.os|
      ensures PlacedAt(h', symbolId, t)
    {
      assert PlacedAt(h, symbolId, t);
    }
  }

  /** Erasing a loose order from the index and releasing its slot: still consistent, same book. */
  lemma RetireKeeps(h: Layout, s: nat, levels: nat, symbolId: Word)
    requires LayoutOk(h, levels, symbolId) && s in h.loose
    ensures LayoutOk(Retired(h, s), levels, symbolId) && BookOf(Retired(h, s)) == BookOf(h)
    ensures s < h.size && s !in h.free
  {
    RetirePool(h, s);
    RetireIndex(h, s);
    RetirePlaced(h, s, symbolId);
    SlotFrame(h, s, BLANK.(next := h.freeHead));
    OneFewer(h.loose, s);
  }

  /** The layout after a fresh slot was filled in and indexed. */
  function Admitted(h: Layout, size: nat, freeHead: Link, free: seq<nat>, s: nat, o: OrderInfo): Layout
    requires s < |h.os|
  {
    Layout(h.os[s := Order(o, Null, Null, true)], size, freeHead, free,
           h.bids, h.asks, h.index[o.orderId := s], h.loose + {s})
  }

  /** The slot that the pool hands out next, and what that leaves of its bookkeeping. */
  ghost predicate HandsOut(h: Layout, size: nat, freeHead: Link, free: seq<nat>, s: nat) {
    && s < |h.os| && s < size <= |h.os|
    && freeHead == LinkTo(free, 0)
    && (if h.free != [] then s == h.free[0] && free == h.free[1..] && size == h.size
        else s == h.size && free == [] && size == h.size + 1)
  }

  lemma HandOutPool(h: Layout, size: nat, freeHead: Link, free: seq<nat>, s: nat, o: OrderInfo)
    requires PoolOk(h) && HandsOut(h, size, freeHead, free, s)
    ensures PoolOk(Admitted(h, size, freeHead, free, s, o))
    ensures !h.os[s].active
    ensures size - |free| == h.size - |h.free| + 1
  {
    var h' := Admitted(h, size, freeHead, free, s, o);
    if h.free != [] {
      TailApart(h.free);
      assert !h.os[h.free[0]].active;
    }
    forall i {:trigger h'.os[free[i]]} | 0 <= i < |free|
      ensures !h'.os[free[i]].active && h'.os[free[i]].next == LinkTo(free, i + 1)
    {
      assert free[i] == h.free[i + 1] && !h.os[h.free[i + 1]].active;
      assert free[i] in free;
      assert LinkTo(free, i + 1) == LinkTo(h.free, i + 2);
    }
    forall t | 0 <= t < size && !h'.os[t].active
      ensures t in free
    {
      if h.free != [] {
        assert t in h.free;
      }
    }
  }

  lemma AdmitPlaced(h: Layout, size: nat, freeHead: Link, free: seq<nat>, s: nat, o: OrderInfo, symbolId: Word)
    requires Placed(h, symbolId) && s < |h.os| && !h.os[s].active && |h.bids| == |h.asks|
    requires SideOk(h.os, Buy, h.bids) && SideOk(h.os, Sell, h.asks)
    requires o.price < |h.bids| && o.symbolId == symbolId
    ensures Placed(Admitted(h, size, freeHead, free, s, o), symbolId)
    ensures s !in h.loose
  {
    var h' := Admitted(h, size, freeHead, free, s, o);
    ListedActive(h.os, o.side, h.Side(o.side), o.price);
    forall t: nat {:trigger PlacedAt(h', symbolId, t)} | t < |h'.os|
      ensures PlacedAt(h', symbolId, t)
    {
      assert PlacedAt(h, symbolId, t);
    }
  }

  /** Admitting an order: it is indexed and in flight, and the book is as before. */
  lemma AdmitKeeps(h: Layout, size: nat, freeHead: Link, free: seq<nat>, s: nat, o: OrderInfo,
                   levels: nat, symbolId: Word)
    requires LayoutOk(h, levels, symbolId) && HandsOut(h, size, freeHead, free, s)
    requires o.orderId !in h.index && o.price < levels && o.symbolId == symbolId
    ensures var h' := Admitted(h, size, freeHead, free, s, o);
      LayoutOk(h', levels, symbolId) && BookOf(h') == BookOf(h)
  {
    HandOutPool(h, size, freeHead, free, s, o);
    AdmitPlaced(h, size, freeHead, free, s, o, symbolId);
    SlotFrame(h, s, Order(o, Null, Null, true));
    AdmitIndex(h, s, Order(o, Null, Null, true));
    OneMore(h.loose, s);
  }

  lemma AdmitIndex(h: Layout, s: nat, o: Order)
    requires IndexOk(h.os, h.index) && s < |h.os| && !h.os[s].active && o.active && o.info.orderId !in h.index
    ensures IndexOk(h.os[s := o], h.index[o.info.orderId := s])
    ensures |h.index[o.info.orderId := s]| == |h.index| + 1
  {
    var os', index' := h.os[s := o], h.index[o.info.orderId := s];
    assert index'.Keys == h.index.Keys + {o.info.orderId};
    forall id {:trigger KeyOk(os', index', id)} | id in index'
      ensures KeyOk(os', index', id)
    {
      assert id in h.index ==> KeyOk(h.os, h.index, id);
    }
    forall t: nat {:trigger SlotIndexed(os', index', t)} | t < |os'|
      ensures SlotIndexed(os', index', t)
    {
      assert SlotIndexed(h.os, h.index, t);
    }
  }

  // ---------------------------------------------------------------- trading with the front of a level

  /** The front order of a level, and the level's total, less `x`. */
  function HeadReduced(h: Layout, s: nat, x: Word): Layout
    requires s < |h.os| && x <= h.os[s].info.remaining && h.os[s].info.price < |h.Side(h.os[s].info.side)|
  {
    var o := h.os[s].info;
    var l := h.Side(o.side)[o.price];
    h.(os := h.os[s := h.os[s].(info := Reduce(o, x))])
     .WithSide(o.side, h.Side(o.side)[o.price := l.(total := WrapSub(l.total, x))])
  }

  /** Slot `s` is the front of its level, and no better level of its side holds an order. */
  ghost predicate BestFront(h: Layout, s: nat) {
    && s < |h.os| && h.os[s].active
    && var o := h.os[s].info;
       && o.price < |h.Side(o.side)|
       && h.Side(o.side)[o.price].list != [] && h.Side(o.side)[o.price].list[0] == s
       && forall q: Word :: q < |h.Side(o.side)| && Better(o.side, q, o.price) ==> h.Side(o.side)[q].list == []
  }

  lemma HeadTotal(os: seq<Order>, list: seq<nat>, x: Word, total: Word)
    requires list != [] && list[0] < |os| && NoDuplicates(list) && x <= os[list[0]].info.remaining
    requires total == Total(InfosOf(os, list)) % TWO_64
    ensures var os' := os[list[0] := os[list[0]].(info := Reduce(os[list[0]].info, x))];
      && InfosOf(os', list) == [Reduce(os[list[0]].info, x)] + InfosOf(os, list)[1..]
      && WrapSub(total, x) == Total(InfosOf(os', list)) % TWO_64
  {
    var r := Reduce(os[list[0]].info, x);
    var q := InfosOf(os, list);
    var os' := os[list[0] := os[list[0]].(info := r)];
    forall i | 0 <= i < |list|
      ensures InfosOf(os', list)[i] == ([r] + q[1..])[i]
    {
      assert i > 0 ==> Apart(list, i, 0);
    }
    assert InfosOf(os', list) == [r] + q[1..];
    assert ([r] + q[1..])[1..] == q[1..];
    assert Total(q) == q[0].remaining + Total(q[1..]);
    WrapTracksSub(Total([r] + q[1..]), x);
  }

  lemma HeadLevel(os: seq<Order>, side: Types.Side, p: nat, l: LevelState, x: Word)
    requires LevelOk(os, side, p, l) && l.list != [] && x <= os[l.list[0]].info.remaining
    ensures var os' := os[l.list[0] := os[l.list[0]].(info := Reduce(os[l.list[0]].info, x))];
      && LevelOk(os', side, p, l.(total := WrapSub(l.total, x)))
      && InfosOf(os', l.list) == [Reduce(os[l.list[0]].info, x)] + InfosOf(os, l.list)[1..]
  {
    var s := l.list[0];
    var os' := os[s := os[s].(info := Reduce(os[s].info, x))];
    HeadTotal(os, l.list, x, l.total);
    forall i {:trigger os'[l.list[i]]} | 0 <= i < |l.list|
      ensures os'[l.list[i]].active && os'[l.list[i]].info.side == side && os'[l.list[i]].info.price == p
      ensures os'[l.list[i]].prev == LinkTo(l.list, i - 1) && os'[l.list[i]].next == LinkTo(l.list, i + 1)
    {
      assert os[l.list[i]].active && os[l.list[i]].prev == LinkTo(l.list, i - 1);
    }
  }

  /** Trading `x` against the best front order shrinks the head of its queue and nothing else. */
  lemma HeadReducedKeeps(h: Layout, s: nat, x: Word, levels: nat, symbolId: Word)
    requires LayoutOk(h, levels, symbolId) && BestFront(h, s) && x <= h.os[s].info.remaining
    ensures LayoutOk(HeadReduced(h, s, x), levels, symbolId)
    ensures var o := h.os[s].info;
      var q := BookOf(h).Queue(o.side);
      && q != [] && q[0] == o
      && BookOf(HeadReduced(h, s, x)) == BookOf(h).With(o.side, [Reduce(o, x)] + q[1..])
  {
    var h' := HeadReduced(h, s, x);
    HeadReducedSides(h, s, x);
    ActiveInUse(h, s);
    ActiveFrame(h, s, h'.os[s]);
    HeadOnlyQuantity(h, s, x);
    QuantityFrame(h, h', s, symbolId);
  }

  lemma HeadOnlyQuantity(h: Layout, s: nat, x: Word)
    requires BestFront(h, s) && x <= h.os[s].info.remaining
    ensures OnlyQuantity(h, HeadReduced(h, s, x), s)
  {
  }

  lemma HeadReducedSides(h: Layout, s: nat, x: Word)
    requires SideOk(h.os, Buy, h.bids) && SideOk(h.os, Sell, h.asks) && |h.bids| == |h.asks| < TWO_64
    requires BestFront(h, s) && x <= h.os[s].info.remaining
    ensures var h' := HeadReduced(h, s, x);
      SideOk(h'.os, Buy, h'.bids) && SideOk(h'.os, Sell, h'.asks)
    ensures var o := h.os[s].info;
      var q := BookOf(h).Queue(o.side);
      && q != [] && q[0] == o
      && BookOf(HeadReduced(h, s, x)) == BookOf(h).With(o.side, [Reduce(o, x)] + q[1..])
      && BookOf(HeadReduced(h, s, x)).Size() == BookOf(h).Size()
  {
    var o := h.os[s].info;
    var l := h.Side(o.side)[o.price];
    var os' := h.os[s := h.os[s].(info := Reduce(o, x))];
    assert LevelOk(h.os, o.side, o.price, l);
    HeadLevel(h.os, o.side, o.price, l, x);
    SideUpdate(h.os, os', o.side, h.Side(o.side), o.price, l.(total := WrapSub(l.total, x)));
    SideFrame(h.os, os', Opposite(o.side), h.Side(Opposite(o.side)));
    SidePriced(h.os, o.side, h.Side(o.side));
    var infos := SideInfos(h.os, h.Side(o.side));
    assert infos[o.price][0] == o;
    QueueHead(o.side, infos, o.price, [Reduce(o, x)]);
  }

  // ---------------------------------------------------------------- refinement

  /** A mark that lets the solver look into `Refines`; it says nothing by itself. */
  ghost predicate Opened(h: Layout, b: Book, n: nat) {
    true
  }

  /** The layout is consistent and stands for the book `b`. The quantifier keeps the solver from
      unfolding this wherever it is mentioned: `Opened(h, b, 0)` gives access to it. */
  ghost predicate Refines(h: Layout, b: Book, levels: nat, symbolId: Word) {
    forall n: nat {:trigger Opened(h, b, n)} :: Opened(h, b, n) ==> LayoutOk(h, levels, symbolId) && BookOf(h) == b
  }

  lemma Open(h: Layout, b: Book, levels: nat, symbolId: Word)
    requires Refines(h, b, levels, symbolId)
    ensures LayoutOk(h, levels, symbolId) && BookOf(h) == b
  {
    assert Opened(h, b, 0);
  }

  lemma LevelFacts(h: Layout, b: Book, levels: nat, symbolId: Word, side: Types.Side, p: nat)
    requires Refines(h, b, levels, symbolId) && p < levels
    ensures p < |h.Side(side)|
    ensures LevelOk(h.os, side, p, h.Side(side)[p])
  {
    Open(h, b, levels, symbolId);
  }

  lemma LooseFacts(h: Layout, b: Book, levels: nat, symbolId: Word, s: nat)
    requires Refines(h, b, levels, symbolId) && s in h.loose
    ensures |h.bids| == |h.asks| == levels
    ensures s < |h.os| && h.os[s].active && h.os[s].info.price < levels && h.os[s].info.symbolId == symbolId
    ensures s !in HomeList(h, h.os[s].info)
  {
    Open(h, b, levels, symbolId);
    assert PlacedAt(h, symbolId, s);
  }

  lemma AppendRefines(h: Layout, b: Book, levels: nat, symbolId: Word, s: nat, os': seq<Order>, l': LevelState)
    requires Refines(h, b, levels, symbolId) && Attaches(h, s, os', l')
    ensures var o := h.os[s].info;
      Refines(Attached(h, s, os', l'), b.With(o.side, Enqueue(b.Queue(o.side), o)), levels, symbolId)
  {
    Open(h, b, levels, symbolId);
    AttachKeeps(h, s, os', l', levels, symbolId);
  }

  lemma UnlinkRefines(h: Layout, b: Book, levels: nat, symbolId: Word, s: nat, k: nat, os': seq<Order>, l': LevelState)
    requires Refines(h, b, levels, symbolId) && Detaches(h, s, k, os', l')
    ensures var o := h.os[s].info;
      var q := b.Queue(o.side);
      && Holds(q, o.orderId) && q[Position(q, o.orderId)] == o
      && Refines(Detached(h, s, os', l'), b.With(o.side, Drop(q, o.orderId)), levels, symbolId)
  {
    Open(h, b, levels, symbolId);
    DetachKeeps(h, s, k, os', l', levels, symbolId);
  }

  /** An active slot that is not loose stands in its level's list. */
  lemma StandsIn(h: Layout, b: Book, levels: nat, symbolId: Word, s: nat) returns (k: nat)
    requires Refines(h, b, levels, symbolId) && s < |h.os| && h.os[s].active && s !in h.loose
    ensures var o := h.os[s].info;
      && o.price < |h.Side(o.side)|
      && k < |h.Side(o.side)[o.price].list| && h.Side(o.side)[o.price].list[k] == s
  {
    Open(h, b, levels, symbolId);
    assert PlacedAt(h, symbolId, s);
    k :| 0 <= k < |HomeList(h, h.os[s].info)| && HomeList(h, h.os[s].info)[k] == s;
  }

  lemma RetireRefines(h: Layout, b: Book, levels: nat, symbolId: Word, s: nat)
    requires Refines(h, b, levels, symbolId) && s in h.loose
    ensures s < |h.os| && h.os[s].info.orderId in h.index
    ensures Refines(Retired(h, s), b, levels, symbolId)
    ensures s < h.size <= |h.os| && s !in h.free
    ensures FreeChain(h.os, h.size, h.freeHead, h.free) && Untouched(h.os, h.size)
  {
    Open(h, b, levels, symbolId);
    RetireKeeps(h, s, levels, symbolId);
    assert SlotIndexed(h.os, h.index, s);
  }

  lemma PoolFacts(h: Layout, b: Book, levels: nat, symbolId: Word)
    requires Refines(h, b, levels, symbolId)
    ensures h.size <= |h.os| && FreeChain(h.os, h.size, h.freeHead, h.free) && Untouched(h.os, h.size)
    ensures b.Size() + |h.loose| == h.size - |h.free| == |h.index|
  {
    Open(h, b, levels, symbolId);
  }

  lemma AdmitRefines(h: Layout, b: Book, levels: nat, symbolId: Word,
                     size: nat, freeHead: Link, free: seq<nat>, s: nat, o: OrderInfo)
    requires Refines(h, b, levels, symbolId) && HandsOut(h, size, freeHead, free, s)
    requires o.orderId !in h.index && o.price < levels && o.symbolId == symbolId
    ensures Refines(Admitted(h, size, freeHead, free, s, o), b, levels, symbolId)
  {
    Open(h, b, levels, symbolId);
    AdmitKeeps(h, size, freeHead, free, s, o, levels, symbolId);
  }

  /** A loose order less `x`. */
  function LooseReduced(h: Layout, s: nat, x: Word): Layout
    requires s < |h.os| && x <= h.os[s].info.remaining
  {
    h.(os := h.os[s := h.os[s].(info := Reduce(h.os[s].info, x))])
  }

  /** A trade of `x` between a loose order and the best front order shrinks the head of one queue. */
  lemma TradeRefines(h: Layout, b: Book, levels: nat, symbolId: Word, a: nat, r: nat, x: Word)
    requires Refines(h, b, levels, symbolId) && a in h.loose && r !in h.loose && BestFront(h, r)
    requires a < |h.os| && x <= h.os[a].info.remaining && x <= h.os[r].info.remaining
    ensures var o := h.os[r].info;
      var q := b.Queue(o.side);
      && q != [] && q[0] == o
      && Refines(HeadReduced(LooseReduced(h, a, x), r, x), b.With(o.side, [Reduce(o, x)] + q[1..]), levels, symbolId)
  {
    Open(h, b, levels, symbolId);
    ReduceLoose(h, a, x, levels, symbolId);
    HeadReducedKeeps(LooseReduced(h, a, x), r, x, levels, symbolId);
  }

  /** The index as seen from the book: it holds exactly the resting orders and those in flight. */
  lemma IndexFacts(h: Layout, b: Book, levels: nat, symbolId: Word, id: nat)
    requires Refines(h, b, levels, symbolId)
    ensures id in h.index ==>
      && h.index[id] < |h.os| && h.os[h.index[id]].active && h.os[h.index[id]].info.orderId == id
      && (h.index[id] in h.loose
          || (Find(b, id) == Wrappers.Some(h.os[h.index[id]].info)
              && !Holds(b.Queue(Opposite(h.os[h.index[id]].info.side)), id)))
    ensures Find(b, id).Some? ==> id in h.index && h.index[id] !in h.loose
  {
    Open(h, b, levels, symbolId);
    if id in h.index {
      assert KeyOk(h.os, h.index, id);
      var s := h.index[id];
      if s !in h.loose {
        var k := StandsIn(h, b, levels, symbolId, s);
        FindListed(h, levels, symbolId, s, k);
      }
    }
    if Find(b, id).Some? {
      FindIndexed(h, levels, symbolId, id);
    }
  }

  /** A listed order is what the book finds under its id. */
  lemma FindListed(h: Layout, levels: nat, symbolId: Word, s: nat, k: nat)
    requires LayoutOk(h, levels, symbolId) && s < |h.os| && h.os[s].active
    requires var o := h.os[s].info;
      && o.price < |h.Side(o.side)| && k < |h.Side(o.side)[o.price].list| && h.Side(o.side)[o.price].list[k] == s
    ensures Find(BookOf(h), h.os[s].info.orderId) == Wrappers.Some(h.os[s].info)
    ensures !Holds(BookOf(h).Queue(Opposite(h.os[s].info.side)), h.os[s].info.orderId)
  {
    var o := h.os[s].info;
    var infos := SideInfos(h.os, h.Side(o.side));
    assert LevelOk(h.os, o.side, o.price, h.Side(o.side)[o.price]);
    SidePriced(h.os, o.side, h.Side(o.side));
    DetachIds(h, o.side, o.price, k);
    QueueCut(o.side, infos, o.price, k);
    var across := BookOf(h).Queue(Opposite(o.side));
    if Holds(across, o.orderId) {
      var x := across[Position(across, o.orderId)];
      QueueMember(Opposite(o.side), SideInfos(h.os, h.Side(Opposite(o.side))), x);
      var p, i :| 0 <= p < levels && 0 <= i < |SideInfos(h.os, h.Side(Opposite(o.side)))[p]|
                  && SideInfos(h.os, h.Side(Opposite(o.side)))[p][i] == x;
      ListedId(h, Opposite(o.side), p, i);
      ListedId(h, o.side, o.price, k);
    }
  }

  lemma FindIndexed(h: Layout, levels: nat, symbolId: Word, id: nat)
    requires LayoutOk(h, levels, symbolId) && Find(BookOf(h), id).Some?
    ensures id in h.index && h.index[id] !in h.loose
  {
    var side := if Holds(BookOf(h).bids, id) then Buy else Sell;
    var p, i := HeldInLevel(h, side, id);
    ListedId(h, side, p, i);
    var s := h.Side(side)[p].list[i];
    assert PlacedAt(h, symbolId, s) && s in h.Side(side)[p].list;
  }

  /** An order that the book finds on a side stands in the list of some level. */
  lemma HeldInLevel(h: Layout, side: Types.Side, id: nat) returns (p: nat, i: nat)
    requires Holds(BookOf(h).Queue(side), id)
    ensures p < |h.Side(side)| && i < |h.Side(side)[p].list| && InfoAt(h.os, h.Side(side)[p].list[i]).orderId == id
  {
    var infos := SideInfos(h.os, h.Side(side));
    var q := BookOf(h).Queue(side);
    assert q == Queue(side, infos);
    var x := q[Position(q, id)];
    QueueMember(side, infos, x);
    p, i :| 0 <= p < |infos| && 0 <= i < |infos[p]| && infos[p][i] == x;
  }

  // ---------------------------------------------------------------- best prices

  /** No order of the side is priced better than `b`. */
  ghost predicate NothingBetter(side: Types.Side, levels: seq<LevelState>, b: Word) {
    forall q: Word :: q < |levels| && Better(side, q, b) ==> levels[q].list == []
  }

  /** `best` is the best non-empty level of a side, none exactly when all are empty. */
  ghost predicate BestIs(side: Types.Side, levels: seq<LevelState>, best: Wrappers.Option<nat>) {
    match best
    case None => forall p :: 0 <= p < |levels| ==> levels[p].list == []
    case Some(b) => b < |levels| < TWO_64 && levels[b].list != [] && NothingBetter(side, levels, b)
  }

  /** The cached best level is the price at the front of the reference queue. */
  lemma BestIsFront(h: Layout, b: Book, levels: nat, symbolId: Word, side: Types.Side, best: Wrappers.Option<nat>)
    requires Refines(h, b, levels, symbolId) && BestIs(side, h.Side(side), best)
    ensures best == (if b.Queue(side) == [] then Wrappers.None else Wrappers.Some(b.Queue(side)[0].price))
    ensures best.Some? ==>
      && best.value < |h.Side(side)| && h.Side(side)[best.value].list != []
      && h.Side(side)[best.value].head == At(h.Side(side)[best.value].list[0])
      && BestFront(h, h.Side(side)[best.value].list[0])
      && h.os[h.Side(side)[best.value].list[0]].info == b.Queue(side)[0]
      && b.Queue(side)[0].side == side
      && h.Side(side)[best.value].list[0] !in h.loose
  {
    Open(h, b, levels, symbolId);
    var infos := SideInfos(h.os, h.Side(side));
    QueueEmpty(side, infos);
    if best.Some? {
      var p := best.value;
      var s := h.Side(side)[p].list[0];
      ListedActive(h.os, side, h.Side(side), p);
      assert LevelOk(h.os, side, p, h.Side(side)[p]);
      assert s in h.Side(side)[p].list && PlacedAt(h, symbolId, s);
      SidePriced(h.os, side, h.Side(side));
      QueueHead(side, infos, p, []);
      assert infos[p][0] == h.os[s].info;
    }
  }

  // ---------------------------------------------------------------- a slot handed out and handed back

  /** Allocating a slot and releasing it at once: the pool may have grown, nothing else changed. */
  function HandedBack(h: Layout, size: nat, freeHead: Link, free: seq<nat>, s: nat): Layout
    requires s < |h.os|
  {
    h.(os := h.os[s := BLANK.(next := freeHead)], size := size, freeHead := At(s), free := [s] + free)
  }

  lemma HandBackPool(h: Layout, size: nat, freeHead: Link, free: seq<nat>, s: nat)
    requires PoolOk(h) && HandsOut(h, size, freeHead, free, s)
    ensures PoolOk(HandedBack(h, size, freeHead, free, s)) && !h.os[s].active
    ensures size - |[s] + free| == h.size - |h.free|
  {
    var h' := HandedBack(h, size, freeHead, free, s);
    if h.free != [] {
      assert !h.os[h.free[0]].active;
      assert h'.free == h.free;
    }
    forall i {:trigger h'.os[h'.free[i]]} | 0 <= i < |h'.free|
      ensures !h'.os[h'.free[i]].active && h'.os[h'.free[i]].next == LinkTo(h'.free, i + 1)
    {
      if i > 0 {
        assert h'.free[i] == h.free[i] && !h.os[h.free[i]].active;
        assert LinkTo(h'.free, i + 1) == LinkTo(h.free, i + 1);
      } else {
        assert LinkTo(h'.free, 1) == LinkTo(free, 0);
      }
    }
    forall t: nat {:trigger t in h'.free} | t < size && !h'.os[t].active
      ensures t in h'.free
    {
      if h.free != [] {
        assert t in h.free;
      }
    }
  }

  lemma HandBackRefines(h: Layout, b: Book, levels: nat, symbolId: Word,
                        size: nat, freeHead: Link, free: seq<nat>, s: nat)
    requires Refines(h, b, levels, symbolId) && HandsOut(h, size, freeHead, free, s)
    ensures Refines(HandedBack(h, size, freeHead, free, s), b, levels, symbolId)
  {
    Open(h, b, levels, symbolId);
    HandBackKeeps(h, levels, symbolId, size, freeHead, free, s);
  }

  lemma HandBackKeeps(h: Layout, levels: nat, symbolId: Word, size: nat, freeHead: Link, free: seq<nat>, s: nat)
    requires LayoutOk(h, levels, symbolId) && HandsOut(h, size, freeHead, free, s)
    ensures var h' := HandedBack(h, size, freeHead, free, s);
      LayoutOk(h', levels, symbolId) && BookOf(h') == BookOf(h)
  {
    HandBackPool(h, size, freeHead, free, s);
    SlotFrame(h, s, BLANK.(next := freeHead));
    HandBackPlaces(h, size, freeHead, free, s, symbolId);
    HandBackIndexes(h, s, BLANK.(next := freeHead));
  }

  lemma HandBackPlaces(h: Layout, size: nat, freeHead: Link, free: seq<nat>, s: nat, symbolId: Word)
    requires |h.bids| == |h.asks| && Placed(h, symbolId) && s < |h.os| && !h.os[s].active
    ensures Placed(HandedBack(h, size, freeHead, free, s), symbolId)
  {
    var h' := HandedBack(h, size, freeHead, free, s);
    forall t: nat {:trigger PlacedAt(h', symbolId, t)} | t < |h'.os|
      ensures PlacedAt(h', symbolId, t)
    {
      assert PlacedAt(h, symbolId, t);
    }
  }

  lemma HandBackIndexes(h: Layout, s: nat, o: Order)
    requires IndexOk(h.os, h.index) && s < |h.os| && !h.os[s].active && !o.active
    ensures IndexOk(h.os[s := o], h.index)
  {
    var os' := h.os[s := o];
    forall id {:trigger KeyOk(os', h.index, id)} | id in h.index
      ensures KeyOk(os', h.index, id)
    {
      assert KeyOk(h.os, h.index, id);
    }
    forall t: nat {:trigger SlotIndexed(os', h.index, t)} | t < |os'|
      ensures SlotIndexed(os', h.index, t)
    {
      assert SlotIndexed(h.os, h.index, t);
    }
  }

  lemma EmptyQueue(h: Layout, b: Book, levels: nat, symbolId: Word, side: Types.Side)
    requires Refines(h, b, levels, symbolId)
    ensures |h.Side(side)| == levels
    ensures b.Queue(side) == [] ==> forall p :: 0 <= p < levels ==> h.Side(side)[p].list == []
  {
    Open(h, b, levels, symbolId);
    var infos := SideInfos(h.os, h.Side(side));
    QueueEmpty(side, infos);
    if b.Queue(side) == [] {
      forall p | 0 <= p < levels
        ensures h.Side(side)[p].list == []
      {
        assert infos[p] == [];
      }
    }
  }

  lemma BestAfterAppend(side: Types.Side, levels: seq<LevelState>, best: Wrappers.Option<nat>, p: nat, l: LevelState)
    requires BestIs(side, levels, best) && p < |levels| < TWO_64 && l.list != []
    ensures BestIs(side, levels[p := l],
                   if best == Wrappers.None || Better(side, p, best.value) then Wrappers.Some(p) else best)
  {
  }

  /** Cutting from the best level leaves it the best unless it is now empty; then nothing better exists. */
  lemma BestAfterCut(side: Types.Side, levels: seq<LevelState>, best: nat, l: LevelState)
    requires BestIs(side, levels, Wrappers.Some(best))
    ensures l.list != [] ==> BestIs(side, levels[best := l], Wrappers.Some(best))
    ensures l.list == [] ==> NothingBetter(side, levels[best := l], best)
  {
  }

  lemma BestAfterOther(side: Types.Side, levels: seq<LevelState>, best: Wrappers.Option<nat>, p: nat, l: LevelState)
    requires BestIs(side, levels, best) && p < |levels| < TWO_64 && levels[p].list != []
    ensures best.Some? && (p == best.value || Better(side, best.value, p))
    ensures p != best.value ==> BestIs(side, levels[p := l], best)
  {
    assert best.Some?;
  }

  /** Trading changes quantities only, so the best levels stay the best. */
  lemma BestAfterReduction(h: Layout, a: nat, r: nat, x: Word, side: Types.Side, best: Wrappers.Option<nat>)
    requires BestIs(side, h.Side(side), best)
    requires a < |h.os| && x <= h.os[a].info.remaining && r < |h.os| && a != r && x <= h.os[r].info.remaining
    requires h.os[r].info.price < |h.Side(h.os[r].info.side)|
    ensures var h' := HeadReduced(LooseReduced(h, a, x), r, x);
      && BestIs(side, h'.Side(side), best)
      && |h'.Side(side)| == |h.Side(side)|
      && (forall p :: 0 <= p < |h.Side(side)| ==> h'.Side(side)[p].list == h.Side(side)[p].list)
  {
    var h' := HeadReduced(LooseReduced(h, a, x), r, x);
    assert forall p :: 0 <= p < |h.Side(side)| ==> h'.Side(side)[p].list == h.Side(side)[p].list;
  }

  lemma TradeSettles(h: Layout, b: Book, levels: nat, symbolId: Word, a: nat, r: nat, x: Word,
                     bestBid: Wrappers.Option<nat>, bestAsk: Wrappers.Option<nat>)
    requires Refines(h, b, levels, symbolId) && a in h.loose && r !in h.loose && BestFront(h, r)
    requires a < |h.os| && x <= h.os[a].info.remaining && x <= h.os[r].info.remaining
    requires BestIs(Buy, h.bids, bestBid) && BestIs(Sell, h.asks, bestAsk)
    ensures var h' := HeadReduced(LooseReduced(h, a, x), r, x);
      && BestIs(Buy, h'.bids, bestBid) && BestIs(Sell, h'.asks, bestAsk)
      && h'.loose == h.loose
    ensures var o := h.os[r].info;
      var q := b.Queue(o.side);
      && q != [] && q[0] == o
      && Refines(HeadReduced(LooseReduced(h, a, x), r, x), b.With(o.side, [Reduce(o, x)] + q[1..]), levels, symbolId)
      && |[Reduce(o, x)] + q[1..]| == |q|
  {
    TradeRefines(h, b, levels, symbolId, a, r, x);
    BestAfterReduction(h, a, r, x, Buy, bestBid);
    BestAfterReduction(h, a, r, x, Sell, bestAsk);
  }

  /** The layout with slot `s` handed out and blank. */
  ghost predicate Reserved(h: Layout, h': Layout, s: nat) {
    && HandsOut(h, h'.size, h'.freeHead, h'.free, s)
    && h' == h.(os := h.os[s := BLANK], size := h'.size, freeHead := h'.freeHead, free := h'.free)
  }

  /** Whatever a reserved slot holds, the pool can take it back. */
  lemma ReservedPool(h: Layout, b: Book, levels: nat, symbolId: Word, h': Layout, s: nat, o: Order)
    requires Refines(h, b, levels, symbolId) && Reserved(h, h', s)
    ensures s < h'.size <= |h'.os| && s !in h'.free
    ensures FreeChain(h'.os[s := o], h'.size, h'.freeHead, h'.free) && Untouched(h'.os[s := o], h'.size)
  {
    Open(h, b, levels, symbolId);
    ReservedChain(h, h', s, o);
  }

  lemma ReservedChain(h: Layout, h': Layout, s: nat, o: Order)
    requires PoolOk(h) && Reserved(h, h', s)
    ensures s < h'.size <= |h'.os| && s !in h'.free
    ensures FreeChain(h'.os[s := o], h'.size, h'.freeHead, h'.free) && Untouched(h'.os[s := o], h'.size)
  {
    HandOutPool(h, h'.size, h'.freeHead, h'.free, s, o.info);
    var admitted := Admitted(h, h'.size, h'.freeHead, h'.free, s, o.info);
    ActiveInUse(admitted, s);
    var os' := h'.os[s := o];
    forall i {:trigger os'[h'.free[i]]} | 0 <= i < |h'.free|
      ensures !os'[h'.free[i]].active && os'[h'.free[i]].next == LinkTo(h'.free, i + 1)
    {
      assert h'.free[i] in h'.free && !admitted.os[h'.free[i]].active;
    }
  }

  ghost predicate SameInfoAt(os: seq<Order>, os': seq<Order>, t: nat)
    requires t < |os| == |os'|
  {
    os'[t].info == os[t].info
  }

  /** No order's data changed; used by naming a slot: `SameInfoAt(os, os', t)`. */
  ghost predicate SameInfos(os: seq<Order>, os': seq<Order>) {
    |os'| == |os| && forall t: nat {:trigger SameInfoAt(os, os', t)} :: t < |os| ==> SameInfoAt(os, os', t)
  }

  lemma RelinkingKeepsInfos(os: seq<Order>, os': seq<Order>, list: seq<nat>, s: nat)
    requires OnlyRelinks(os, os', list, s)
    ensures SameInfos(os, os')
  {
    forall t: nat {:trigger SameInfoAt(os, os', t)} | t < |os|
      ensures SameInfoAt(os, os', t)
    {
      assert SameOrder(os[t], os'[t]);
    }
  }

  lemma LevelAtPrice(h: Layout, b: Book, levels: nat, symbolId: Word, side: Types.Side, p: Word)
    requires Refines(h, b, levels, symbolId) && p < levels
    ensures p < |h.Side(side)| && InfosOf(h.os, h.Side(side)[p].list) == AtPrice(b.Queue(side), p)
  {
    Open(h, b, levels, symbolId);
    SidePriced(h.os, side, h.Side(side));
    QueueAtPrice(side, SideInfos(h.os, h.Side(side)), p);
  }

  // ---------------------------------------------------------------- where a slot can be

  ghost predicate InLevel(h: Layout, side: Types.Side, p: nat, s: nat) {
    p < |h.Side(side)| && s in h.Side(side)[p].list
  }

  ghost predicate InSomeLevel(h: Layout, s: nat) {
    exists side, p: nat :: InLevel(h, side, p, s)
  }

  ghost predicate OnlyAt(list: seq<nat>, k: nat, s: nat) {
    k < |list| && list[k] == s && forall j :: 0 <= j < |list| && list[j] == s ==> j == k
  }

  ghost predicate Once(list: seq<nat>, s: nat) {
    exists k: nat :: OnlyAt(list, k, s)
  }

  function One(c: bool): nat {
    if c then 1 else 0
  }

  /** MAIN RESULT. Every slot of the pool is in exactly one place: never used, on the free list, in flight,
      or in the list of one level, which is the level of its own side and price, and at one position. */
  lemma SlotHasOnePlace(h: Layout, b: Book, levels: nat, symbolId: Word, s: nat)
    requires Refines(h, b, levels, symbolId) && s < |h.os|
    ensures One(s >= h.size) + One(s in h.free) + One(s in h.loose) + One(InSomeLevel(h, s)) == 1
    ensures forall side, p: nat :: InLevel(h, side, p, s) ==>
      && h.os[s].active && side == h.os[s].info.side && p == h.os[s].info.price
      && Once(h.Side(side)[p].list, s)
  {
    Open(h, b, levels, symbolId);
    forall side, p: nat | InLevel(h, side, p, s)
      ensures h.os[s].active && side == h.os[s].info.side && p == h.os[s].info.price
      ensures Once(h.Side(side)[p].list, s)
    {
      ListedActive(h.os, side, h.Side(side), p);
      LevelFacts(h, b, levels, symbolId, side, p);
      OnePosition(h.Side(side)[p].list, s);
    }
    SlotPlaces(h, symbolId, s);
  }

  lemma OnePosition(list: seq<nat>, s: nat)
    requires NoDuplicates(list) && s in list
    ensures Once(list, s)
  {
    var k: nat :| k < |list| && list[k] == s;
    forall j: nat | j < |list| && list[j] == s
      ensures j == k
    {
      assert j != k ==> Apart(list, j, k);
    }
    assert OnlyAt(list, k, s);
  }

  lemma SlotPlaces(h: Layout, symbolId: Word, s: nat)
    requires |h.bids| == |h.asks| && Placed(h, symbolId) && PoolOk(h) && s < |h.os|
    requires forall side, p: nat :: InLevel(h, side, p, s) ==>
      h.os[s].active && side == h.os[s].info.side && p == h.os[s].info.price
    ensures One(s >= h.size) + One(s in h.free) + One(s in h.loose) + One(InSomeLevel(h, s)) == 1
  {
    assert PlacedAt(h, symbolId, s);
    if h.os[s].active {
      ActiveInUse(h, s);
      var o := h.os[s].info;
      if s !in h.loose {
        assert InLevel(h, o.side, o.price, s);
      } else {
        assert InSomeLevel(h, s) ==> InLevel(h, o.side, o.price, s);
      }
    }
  }
}
