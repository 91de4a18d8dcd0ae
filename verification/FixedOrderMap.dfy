/** Open addressing with linear probing and backward-shift deletion, over a table that may
    become completely full (src/engine/FixedOrderMap.h). The hash is an arbitrary function. */
module OpenAddressing {
  import opened Words
  import opened Counting
  import opened Wrappers

  datatype Entry<K, V> = Vacant | Occupied(key: K, value: V)

  datatype InsertResult = Inserted | DuplicateKey | Full

  ghost predicate TableSize(n: int) {
    0 < n < TWO_64 && HasSingleBit(n)
  }

  /** `bucket(key)`: the mixed key masked to the table. */
  function Masked(mixed: Word, capacity: Word): (h: nat)
    requires TableSize(capacity)
    ensures h < capacity
  {
    MaskIsRemainder(mixed, capacity);
    BitAnd(mixed, capacity - 1)
  }

  /** `home` sends every key to a slot of a table of `n` slots, `n` a power of two. */
  ghost predicate Buckets<K(!new)>(home: K -> nat, n: int) {
    TableSize(n) && forall k :: home(k) < n
  }

  // ---------------------------------------------------------------- table invariants

  /** Every slot that probing visits before it reaches an entry is occupied, `hole` excepted. */
  ghost predicate PathsFilled<K(!new), V>(home: K -> nat, es: seq<Entry<K, V>>, hole: int)
    requires Buckets(home, |es|)
  {
    forall p, q :: 0 <= p < |es| && 0 <= q < |es| && es[p].Occupied? && q != hole
      && Dist(|es|, home(es[p].key), q) < Dist(|es|, home(es[p].key), p)
      ==> es[q].Occupied?
  }

  /** No probe path continues past the cut slot. */
  ghost predicate NoneCross<K(!new), V>(home: K -> nat, es: seq<Entry<K, V>>, cut: nat)
    requires Buckets(home, |es|) && cut < |es|
  {
    forall p :: 0 <= p < |es| && es[p].Occupied?
      ==> Dist(|es|, home(es[p].key), p) <= Dist(|es|, home(es[p].key), cut)
  }

  /** `slotOf` names the one slot of every stored key. */
  ghost predicate Indexed<K, V>(es: seq<Entry<K, V>>, slotOf: map<K, nat>) {
    && (forall k :: k in slotOf ==> slotOf[k] < |es| && es[slotOf[k]].Occupied? && es[slotOf[k]].key == k)
    && (forall p :: 0 <= p < |es| && es[p].Occupied? ==> es[p].key in slotOf && slotOf[es[p].key] == p)
  }

  ghost predicate TableOk<K(!new), V>(home: K -> nat, es: seq<Entry<K, V>>, slotOf: map<K, nat>, cut: nat) {
    && Buckets(home, |es|)
    && cut < |es|
    && Indexed(es, slotOf)
    && PathsFilled(home, es, -1)
    && NoneCross(home, es, cut)
  }

  /** The finite map a table stands for. */
  ghost function MapOf<K, V>(es: seq<Entry<K, V>>, slotOf: map<K, nat>): map<K, V>
    requires Indexed(es, slotOf)
  {
    map k | k in slotOf :: es[slotOf[k]].value
  }

  /** The table is full exactly when it stores as many keys as it has slots. */
  lemma FullSize<K, V>(es: seq<Entry<K, V>>, slotOf: map<K, nat>)
    requires Indexed(es, slotOf)
    ensures |slotOf| <= |es|
    ensures |slotOf| == |es| <==> forall p :: 0 <= p < |es| ==> es[p].Occupied?
  {
    var used := set p: nat | p < |es| && es[p].Occupied?;
    InjectiveSize(slotOf, used);
    SubsetSize(used, Below(|es|));
    if used == Below(|es|) {
      forall p | 0 <= p < |es|
        ensures es[p].Occupied?
      {
        assert p in used;
      }
    }
    if forall p :: 0 <= p < |es| ==> es[p].Occupied? {
      assert used == Below(|es|);
    }
  }

  // ---------------------------------------------------------------- probing

  /** The first `probe` slots from the key's home hold other keys. */
  ghost predicate Probed<K(!new), V>(home: K -> nat, es: seq<Entry<K, V>>, key: K, probe: int)
    requires Buckets(home, |es|)
  {
    forall q :: 0 <= q < |es| && Dist(|es|, home(key), q) < probe
      ==> es[q].Occupied? && es[q].key != key
  }

  lemma ProbeAdvances<K(!new), V>(home: K -> nat, es: seq<Entry<K, V>>, key: K, probe: nat, index: nat)
    requires Buckets(home, |es|) && index < |es| && probe < |es|
    requires Dist(|es|, home(key), index) == probe
    requires Probed(home, es, key, probe)
    requires es[index].Occupied? && es[index].key != key
    ensures Probed(home, es, key, probe + 1)
    ensures probe + 1 < |es| ==> Dist(|es|, home(key), NextSlot(|es|, index)) == probe + 1
  {
    forall q | 0 <= q < |es| && Dist(|es|, home(key), q) < probe + 1
      ensures es[q].Occupied? && es[q].key != key
    {
      if Dist(|es|, home(key), q) == probe {
        assert q == index;
      }
    }
  }

  /** Reaching a vacant slot, or going all the way round, shows that the key is absent. */
  lemma ProbeMisses<K(!new), V>(home: K -> nat, es: seq<Entry<K, V>>, slotOf: map<K, nat>, key: K, probe: nat, index: nat)
    requires Buckets(home, |es|) && Indexed(es, slotOf) && PathsFilled(home, es, -1)
    requires Probed(home, es, key, probe)
    requires probe == |es| || (index < |es| && es[index].Vacant? && Dist(|es|, home(key), index) == probe)
    ensures key !in slotOf
  {
    if key in slotOf {
      var d := Dist(|es|, home(key), slotOf[key]);
      if d < probe {
        assert false;
      }
    }
  }

  lemma InsertIndexed<K, V>(es: seq<Entry<K, V>>, slotOf: map<K, nat>, key: K, value: V, index: nat)
    requires Indexed(es, slotOf)
    requires key !in slotOf && index < |es| && es[index].Vacant?
    ensures Indexed(es[index := Occupied(key, value)], slotOf[key := index])
    ensures |slotOf[key := index]| == |slotOf| + 1
  {
    var es', slotOf' := es[index := Occupied(key, value)], slotOf[key := index];
    assert slotOf'.Keys == slotOf.Keys + {key};
    forall p | 0 <= p < |es'| && es'[p].Occupied?
      ensures es'[p].key in slotOf' && slotOf'[es'[p].key] == p
    {
      assert p != index ==> es[p].Occupied?;
    }
  }

  lemma InsertMaps<K, V>(es: seq<Entry<K, V>>, slotOf: map<K, nat>, key: K, value: V, index: nat)
    requires Indexed(es, slotOf)
    requires key !in slotOf && index < |es| && es[index].Vacant?
    requires Indexed(es[index := Occupied(key, value)], slotOf[key := index])
    ensures MapOf(es[index := Occupied(key, value)], slotOf[key := index]) == MapOf(es, slotOf)[key := value]
  {
    var es', slotOf' := es[index := Occupied(key, value)], slotOf[key := index];
    forall k | k in slotOf'
      ensures MapOf(es', slotOf')[k] == MapOf(es, slotOf)[key := value][k]
    {
      assert k != key ==> es'[slotOf[k]] == es[slotOf[k]];
    }
  }

  lemma InsertPaths<K(!new), V>(home: K -> nat, es: seq<Entry<K, V>>, key: K, value: V, index: nat)
    requires Buckets(home, |es|) && PathsFilled(home, es, -1)
    requires index < |es| && es[index].Vacant?
    requires Probed(home, es, key, Dist(|es|, home(key), index))
    ensures PathsFilled(home, es[index := Occupied(key, value)], -1)
    ensures NoneCross(home, es[index := Occupied(key, value)], index)
  {
    var n := |es|;
    var es' := es[index := Occupied(key, value)];
    forall p, q | 0 <= p < n && 0 <= q < n && es'[p].Occupied?
      && Dist(n, home(es'[p].key), q) < Dist(n, home(es'[p].key), p)
      ensures es'[q].Occupied?
    {
      if p != index && q != index {
        assert es[p].Occupied? && es[q].Occupied?;
      }
    }
    forall p | 0 <= p < n && es'[p].Occupied?
      ensures Dist(n, home(es'[p].key), p) <= Dist(n, home(es'[p].key), index)
    {
      if p != index {
        assert es[p].Occupied? && es[index].Vacant?;
      }
    }
  }

  // ---------------------------------------------------------------- backward shift

  /** The state of the shifting loop: the slots at distance 1..examined from the erased one have been
      scanned; the probe paths still broken by the hole all belong to entries that come later. */
  ghost predicate Shifting<K(!new), V>(home: K -> nat, es: seq<Entry<K, V>>, slotOf: map<K, nat>, cut: nat,
                                 start: nat, hole: nat, examined: nat)
  {
    && Buckets(home, |es|)
    && cut < |es| && start < |es| && hole < |es|
    && examined < |es|
    && es[hole].Vacant?
    && Indexed(es, slotOf)
    && PathsFilled(home, es, hole)
    && NoneCross(home, es, cut)
    && Dist(|es|, start, hole) <= examined
    && Dist(|es|, start, hole) <= Dist(|es|, start, cut)
    && (forall p :: 0 <= p < |es| && es[p].Occupied?
          && Dist(|es|, home(es[p].key), hole) < Dist(|es|, home(es[p].key), p)
          ==> Dist(|es|, start, p) > examined)
  }

  lemma EraseIndexed<K, V>(es: seq<Entry<K, V>>, slotOf: map<K, nat>, index: nat)
    requires Indexed(es, slotOf)
    requires index < |es| && es[index].Occupied?
    ensures Indexed(es[index := Vacant], slotOf - {es[index].key})
    ensures MapOf(es[index := Vacant], slotOf - {es[index].key}) == MapOf(es, slotOf) - {es[index].key}
    ensures |slotOf - {es[index].key}| == |slotOf| - 1
  {
    assert (slotOf - {es[index].key}).Keys == slotOf.Keys - {es[index].key};
  }

  lemma EraseOpens<K(!new), V>(home: K -> nat, es: seq<Entry<K, V>>, slotOf: map<K, nat>, cut: nat, index: nat)
    requires TableOk(home, es, slotOf, cut)
    requires index < |es| && es[index].Occupied?
    ensures Shifting(home, es[index := Vacant], slotOf - {es[index].key}, cut, index, index, 0)
  {
    var n := |es|;
    var es' := es[index := Vacant];
    EraseIndexed(es, slotOf, index);
    forall p, q | 0 <= p < n && 0 <= q < n && es'[p].Occupied? && q != index
      && Dist(n, home(es'[p].key), q) < Dist(n, home(es'[p].key), p)
      ensures es'[q].Occupied?
    {
      assert es[p].Occupied? && es[q].Occupied?;
    }
  }

  /** Going forward from `start`, the hole comes before the scanned slot, which comes before `p`;
      a path from `home` to `p` through the hole therefore passes the scanned slot. */
  lemma PathThrough(n: nat, start: nat, hole: nat, scan: nat, home: nat, p: nat)
    requires start < n && hole < n && scan < n && home < n && p < n
    requires Dist(n, start, hole) < Dist(n, start, scan) < Dist(n, start, p)
    requires Dist(n, home, hole) < Dist(n, home, p)
    ensures Dist(n, home, scan) < Dist(n, home, p)
  {
  }

  lemma ShiftStops<K(!new), V>(home: K -> nat, es: seq<Entry<K, V>>, slotOf: map<K, nat>, cut: nat,
                         start: nat, hole: nat, examined: nat, scan: nat)
    requires Shifting(home, es, slotOf, cut, start, hole, examined)
    requires examined == |es| - 1
             || (scan < |es| && Dist(|es|, start, scan) == examined + 1 && es[scan].Vacant?)
    ensures TableOk(home, es, slotOf, cut)
  {
    forall p, q | 0 <= p < |es| && 0 <= q < |es| && es[p].Occupied?
      && Dist(|es|, home(es[p].key), q) < Dist(|es|, home(es[p].key), p)
      ensures es[q].Occupied?
    {
      if q == hole {
        assert Dist(|es|, start, p) > examined;
        PathThrough(|es|, start, hole, scan, home(es[p].key), p);
        assert es[scan].Occupied?;
      }
    }
  }

  lemma ShiftKeeps<K(!new), V>(home: K -> nat, es: seq<Entry<K, V>>, slotOf: map<K, nat>, cut: nat,
                         start: nat, hole: nat, examined: nat, scan: nat)
    requires Shifting(home, es, slotOf, cut, start, hole, examined)
    requires examined + 1 < |es| && scan < |es| && Dist(|es|, start, scan) == examined + 1
    requires es[scan].Occupied?
    requires Dist(|es|, home(es[scan].key), hole) >= Dist(|es|, home(es[scan].key), scan)
    ensures Shifting(home, es, slotOf, cut, start, hole, examined + 1)
  {
    forall p | 0 <= p < |es| && es[p].Occupied?
      && Dist(|es|, home(es[p].key), hole) < Dist(|es|, home(es[p].key), p)
      ensures Dist(|es|, start, p) > examined + 1
    {
      assert Dist(|es|, start, p) > examined;
      assert Dist(|es|, start, p) == examined + 1 ==> p == scan;
    }
  }

  /** An entry whose path holds the hole sits no further from `start` than the cut. */
  lemma BeforeCut(n: nat, start: nat, cut: nat, hole: nat, home: nat, p: nat)
    requires start < n && cut < n && hole < n && home < n && p < n
    requires Dist(n, home, p) <= Dist(n, home, cut)
    requires Dist(n, home, hole) < Dist(n, home, p)
    requires Dist(n, start, hole) <= Dist(n, start, cut)
    requires Dist(n, start, hole) < Dist(n, start, p)
    ensures Dist(n, start, p) <= Dist(n, start, cut)
  {
  }

  /** A path through the scanned slot cannot come round to a slot scanned earlier: it would cross the cut. */
  lemma NoComeBack(n: nat, start: nat, cut: nat, scan: nat, home: nat, p: nat)
    requires start < n && cut < n && scan < n && home < n && p < n
    requires Dist(n, home, p) <= Dist(n, home, cut)
    requires Dist(n, home, scan) < Dist(n, home, p)
    requires Dist(n, start, scan) <= Dist(n, start, cut)
    ensures Dist(n, start, p) > Dist(n, start, scan)
  {
  }

  lemma MoveIndexed<K, V>(es: seq<Entry<K, V>>, slotOf: map<K, nat>, hole: nat, scan: nat)
    requires Indexed(es, slotOf)
    requires hole < |es| && scan < |es| && es[hole].Vacant? && es[scan].Occupied?
    ensures Indexed(es[hole := es[scan]][scan := Vacant], slotOf[es[scan].key := hole])
    ensures MapOf(es[hole := es[scan]][scan := Vacant], slotOf[es[scan].key := hole]) == MapOf(es, slotOf)
    ensures slotOf[es[scan].key := hole].Keys == slotOf.Keys
  {
  }

  lemma MovePaths<K(!new), V>(home: K -> nat, es: seq<Entry<K, V>>, hole: nat, scan: nat, cut: nat)
    requires Buckets(home, |es|) && hole < |es| && scan < |es| && cut < |es|
    requires PathsFilled(home, es, hole) && NoneCross(home, es, cut)
    requires es[hole].Vacant? && es[scan].Occupied?
    requires Dist(|es|, home(es[scan].key), hole) < Dist(|es|, home(es[scan].key), scan)
    ensures PathsFilled(home, es[hole := es[scan]][scan := Vacant], scan)
    ensures NoneCross(home, es[hole := es[scan]][scan := Vacant], cut)
  {
    var n := |es|;
    var es' := es[hole := es[scan]][scan := Vacant];
    forall p, q | 0 <= p < n && 0 <= q < n && es'[p].Occupied? && q != scan
      && Dist(n, home(es'[p].key), q) < Dist(n, home(es'[p].key), p)
      ensures es'[q].Occupied?
    {
      if q != hole {
        assert es[if p == hole then scan else p].Occupied? && es[q].Occupied?;
      }
    }
    forall p | 0 <= p < n && es'[p].Occupied?
      ensures Dist(n, home(es'[p].key), p) <= Dist(n, home(es'[p].key), cut)
    {
      assert es[if p == hole then scan else p].Occupied?;
    }
  }

  lemma ShiftMoves<K(!new), V>(home: K -> nat, es: seq<Entry<K, V>>, slotOf: map<K, nat>, cut: nat,
                               start: nat, hole: nat, examined: nat, scan: nat)
    requires Shifting(home, es, slotOf, cut, start, hole, examined)
    requires examined + 1 < |es| && scan < |es| && Dist(|es|, start, scan) == examined + 1
    requires es[scan].Occupied?
    requires Dist(|es|, home(es[scan].key), hole) < Dist(|es|, home(es[scan].key), scan)
    ensures Shifting(home, es[hole := es[scan]][scan := Vacant], slotOf[es[scan].key := hole], cut,
                     start, scan, examined + 1)
  {
    var n := |es|;
    var es' := es[hole := es[scan]][scan := Vacant];
    BeforeCut(n, start, cut, hole, home(es[scan].key), scan);
    MoveIndexed(es, slotOf, hole, scan);
    MovePaths(home, es, hole, scan, cut);
    forall p | 0 <= p < n && es'[p].Occupied?
      && Dist(n, home(es'[p].key), scan) < Dist(n, home(es'[p].key), p)
      ensures Dist(n, start, p) > examined + 1
    {
      NoComeBack(n, start, cut, scan, home(es'[p].key), p);
    }
  }

  /** A mark that lets the solver look into `Stores`; it says nothing by itself. */
  ghost predicate Peek<K, V>(es: seq<Entry<K, V>>, contents: map<K, V>, n: nat) {
    true
  }

  /** The table is sound and stores exactly `contents`. The quantifier keeps the solver from unfolding
      this wherever it is mentioned: `Peek(es, contents, 0)` gives access to it. */
  ghost predicate Stores<K(!new), V>(home: K -> nat, es: seq<Entry<K, V>>, slotOf: map<K, nat>, cut: nat,
                                     contents: map<K, V>)
  {
    forall n: nat {:trigger Peek(es, contents, n)} :: Peek(es, contents, n) ==>
      TableOk(home, es, slotOf, cut) && MapOf(es, slotOf) == contents
  }

  lemma Unpack<K(!new), V>(home: K -> nat, es: seq<Entry<K, V>>, slotOf: map<K, nat>, cut: nat, contents: map<K, V>)
    requires Stores(home, es, slotOf, cut, contents)
    ensures TableOk(home, es, slotOf, cut) && MapOf(es, slotOf) == contents
    ensures contents.Keys == slotOf.Keys && |contents| == |slotOf| <= |es|
  {
    assert Peek(es, contents, 0);
    assert contents.Keys == slotOf.Keys;
    assert |contents| == |contents.Keys| && |slotOf| == |slotOf.Keys|;
    FullSize(es, slotOf);
  }

  lemma InsertStores<K(!new), V>(home: K -> nat, es: seq<Entry<K, V>>, slotOf: map<K, nat>, cut: nat,
                                 contents: map<K, V>, key: K, value: V, index: nat)
    requires Stores(home, es, slotOf, cut, contents)
    requires key !in contents && index < |es| && es[index].Vacant?
    requires Buckets(home, |es|) && Probed(home, es, key, Dist(|es|, home(key), index))
    ensures Stores(home, es[index := Occupied(key, value)], slotOf[key := index], index, contents[key := value])
    ensures |contents[key := value]| == |contents| + 1
  {
    Unpack(home, es, slotOf, cut, contents);
    InsertIndexed(es, slotOf, key, value, index);
    InsertMaps(es, slotOf, key, value, index);
    InsertPaths(home, es, key, value, index);
    assert contents[key := value].Keys == contents.Keys + {key};
  }

  /** Erasing is under way: up to its hole, the table stores `contents`. Sealed as `Stores` is. */
  ghost predicate Erasing<K(!new), V>(home: K -> nat, es: seq<Entry<K, V>>, slotOf: map<K, nat>, cut: nat,
                                      contents: map<K, V>, start: nat, hole: nat, examined: nat)
  {
    forall n: nat {:trigger Peek(es, contents, n)} :: Peek(es, contents, n) ==>
      Shifting(home, es, slotOf, cut, start, hole, examined) && MapOf(es, slotOf) == contents
  }

  lemma EraseBegins<K(!new), V>(home: K -> nat, es: seq<Entry<K, V>>, slotOf: map<K, nat>, cut: nat,
                                contents: map<K, V>, index: nat)
    requires Stores(home, es, slotOf, cut, contents)
    requires index < |es| && es[index].Occupied?
    ensures var key := es[index].key;
      Erasing(home, es[index := Vacant], slotOf - {key}, cut, contents - {key}, index, index, 0)
    ensures es[index].key in contents && |contents - {es[index].key}| == |contents| - 1
  {
    Unpack(home, es, slotOf, cut, contents);
    EraseOpens(home, es, slotOf, cut, index);
    EraseIndexed(es, slotOf, index);
    assert (contents - {es[index].key}).Keys == contents.Keys - {es[index].key};
  }

  lemma EraseMoves<K(!new), V>(home: K -> nat, es: seq<Entry<K, V>>, slotOf: map<K, nat>, cut: nat,
                               contents: map<K, V>, start: nat, hole: nat, examined: nat, scan: nat)
    requires Erasing(home, es, slotOf, cut, contents, start, hole, examined)
    requires Buckets(home, |es|) && start < |es| && hole < |es| && scan < |es|
    requires examined + 1 < |es| && Dist(|es|, start, scan) == examined + 1 && es[scan].Occupied?
    requires Dist(|es|, home(es[scan].key), hole) < Dist(|es|, home(es[scan].key), scan)
    ensures Erasing(home, es[hole := es[scan]][scan := Vacant], slotOf[es[scan].key := hole], cut, contents,
                    start, scan, examined + 1)
  {
    assert Peek(es, contents, 0);
    ShiftMoves(home, es, slotOf, cut, start, hole, examined, scan);
    MoveIndexed(es, slotOf, hole, scan);
  }

  lemma EraseSkips<K(!new), V>(home: K -> nat, es: seq<Entry<K, V>>, slotOf: map<K, nat>, cut: nat,
                               contents: map<K, V>, start: nat, hole: nat, examined: nat, scan: nat)
    requires Erasing(home, es, slotOf, cut, contents, start, hole, examined)
    requires Buckets(home, |es|) && start < |es| && hole < |es| && scan < |es|
    requires examined + 1 < |es| && Dist(|es|, start, scan) == examined + 1 && es[scan].Occupied?
    requires Dist(|es|, home(es[scan].key), hole) >= Dist(|es|, home(es[scan].key), scan)
    ensures Erasing(home, es, slotOf, cut, contents, start, hole, examined + 1)
  {
    assert Peek(es, contents, 0);
    ShiftKeeps(home, es, slotOf, cut, start, hole, examined, scan);
  }

  lemma EraseEnds<K(!new), V>(home: K -> nat, es: seq<Entry<K, V>>, slotOf: map<K, nat>, cut: nat,
                              contents: map<K, V>, start: nat, hole: nat, examined: nat, scan: nat)
    requires Erasing(home, es, slotOf, cut, contents, start, hole, examined)
    requires Buckets(home, |es|) && start < |es| && scan < |es|
    requires examined == |es| - 1 || (Dist(|es|, start, scan) == examined + 1 && es[scan].Vacant?)
    ensures Stores(home, es, slotOf, cut, contents)
  {
    assert Peek(es, contents, 0);
    ShiftStops(home, es, slotOf, cut, start, hole, examined, scan);
  }

  // ---------------------------------------------------------------- why the cut slot is needed

  /** What the loop of `erase` makes of the slots. */
  ghost function ShiftedBack<K(!new), V>(home: K -> nat, es: seq<Entry<K, V>>, hole: nat, scan: nat, examined: nat)
    : (r: seq<Entry<K, V>>)
    requires Buckets(home, |es|) && hole < |es| && scan < |es|
    decreases |es| - examined
  {
    if examined >= |es| - 1 || es[scan].Vacant? then es
    else if Dist(|es|, home(es[scan].key), hole) < Dist(|es|, home(es[scan].key), scan) then
      ShiftedBack(home, es[hole := es[scan]][scan := Vacant], scan, NextSlot(|es|, scan), examined + 1)
    else
      ShiftedBack(home, es, hole, NextSlot(|es|, scan), examined + 1)
  }

  lemma BrokenPath<K(!new), V>(home: K -> nat, es: seq<Entry<K, V>>, p: nat, q: nat)
    requires Buckets(home, |es|) && p < |es| && q < |es| && es[p].Occupied? && es[q].Vacant?
    requires Dist(|es|, home(es[p].key), q) < Dist(|es|, home(es[p].key), p)
    ensures !PathsFilled(home, es, -1)
  {
  }

  /** Four keys 0, 1, 2, 3 with homes 1, 3, 3, 2. */
  function SampleHome(key: nat): nat {
    if key == 0 then 1 else if key == 3 then 2 else 3
  }

  const SAMPLE: seq<Entry<nat, nat>> := [Occupied(3, 0), Occupied(0, 0), Occupied(1, 0), Occupied(2, 0)]

  /** Filled probe paths alone are not kept by `erase` on a full table: this table has them, erasing key 0
      leaves key 1 behind a vacant slot. It is no counterexample to `Erase`: no cut slot exists for it, so no
      run of inserts and erases builds it. */
  lemma FilledPathsAreNotEnough()
    ensures Buckets(SampleHome, |SAMPLE|) && PathsFilled(SampleHome, SAMPLE, -1)
    ensures var after := ShiftedBack(SampleHome, SAMPLE[1 := Vacant], 1, 2, 0);
      after == [Vacant, Occupied(1, 0), Occupied(3, 0), Occupied(2, 0)] && !PathsFilled(SampleHome, after, -1)
    ensures forall cut: nat :: cut < |SAMPLE| ==> !NoneCross(SampleHome, SAMPLE, cut)
  {
    var e1 := SAMPLE[1 := Vacant];
    var e2 := e1[1 := Occupied(1, 0)][2 := Vacant];
    var e3 := e2[2 := Occupied(3, 0)][0 := Vacant];
    assert ShiftedBack(SampleHome, e3, 0, 1, 3) == e3;
    assert ShiftedBack(SampleHome, e2, 2, 0, 2) == e3;
    assert ShiftedBack(SampleHome, e2, 2, 3, 1) == e3;
    assert ShiftedBack(SampleHome, e1, 1, 2, 0) == e3;
    assert e3 == [Vacant, Occupied(1, 0), Occupied(3, 0), Occupied(2, 0)];
    BrokenPath(SampleHome, e3, 1, 0);
    forall cut: nat | cut < |SAMPLE|
      ensures !NoneCross(SampleHome, SAMPLE, cut)
    {
      assert SAMPLE[0].Occupied? && SAMPLE[2].Occupied?;
      assert Dist(4, 3, 2) == 3 && Dist(4, 2, 0) == 2;
      assert cut == 0 || cut == 1 || cut == 2 || cut == 3;
    }
  }

  // ---------------------------------------------------------------- the class

  class FixedOrderMap<K(==, !new), V> {
    const hash: K -> Word
    const capacity: Word
    const entries: array<Entry<K, V>>
    var size: nat
    ghost var slotOf: map<K, nat>
    ghost var cut: nat
    ghost var contents: map<K, V>  // the finite map that this table stands for

    /** The bucket of every key. */
    ghost function Homes(): K -> nat {
      k => if TableSize(capacity) then Masked(hash(k), capacity) else 0
    }

    /** The table is sound. Sealed like `Stores`, so that users of a map see only `contents`. */
    ghost predicate Valid()
      reads this, entries
    {
      && entries.Length == capacity
      && size == |contents|
      && forall n: nat {:trigger Inside(n)} :: Inside(n) ==> Sound()
    }

    ghost predicate Inside(n: nat) {
      true
    }

    ghost predicate Sound()
      reads this, entries
    {
      && entries.Length == capacity
      && TableSize(capacity)
      && Stores(Homes(), entries[..], slotOf, cut, contents)
    }

    lemma Enter()
      requires Valid()
      ensures Sound()
    {
      assert Inside(0);
    }

    /** MAIN RESULT. `contents` is nothing but what the slots hold, each key in one slot, and `size` counts
        the occupied ones. */
    lemma ContentsAreEntries()
      requires Valid()
      ensures forall k: K :: k in contents <==> exists i :: 0 <= i < entries.Length && Holding(i, k)
      ensures forall k: K, i :: 0 <= i < entries.Length && Holding(i, k) ==> contents[k] == entries[i].value
      ensures forall k: K, i, j {:trigger Holding(i, k), Holding(j, k)} ::
        0 <= i < entries.Length && 0 <= j < entries.Length && Holding(i, k) && Holding(j, k) ==> i == j
      ensures size == |contents| <= capacity
      ensures size == capacity <==> forall i :: 0 <= i < entries.Length ==> entries[i].Occupied?
    {
      Enter();
      Unpack(Homes(), entries[..], slotOf, cut, contents);
      FullSize(entries[..], slotOf);
      assert slotOf.Keys == contents.Keys;
      forall k: K | k in contents
        ensures exists i :: 0 <= i < entries.Length && Holding(i, k)
      {
        assert Holding(slotOf[k], k);
      }
    }

    ghost predicate Holding(i: int, k: K)
      requires 0 <= i < entries.Length
      reads entries
    {
      entries[i].Occupied? && entries[i].key == k
    }

    /** The source throws for any other capacity; `Create` models that. */
    constructor (hash: K -> Word, capacity: Word)
      requires HasSingleBit(capacity)
      ensures Valid() && fresh(entries)
      ensures this.hash == hash && this.capacity == capacity
      ensures contents == map[] && size == 0
    {
      this.hash := hash;
      this.capacity := capacity;
      this.entries := new Entry<K, V>[capacity](_ => Vacant);
      this.size := 0;
      this.slotOf := map[];
      this.cut := 0;
      this.contents := map[];
      new;
      assert TableOk(Homes(), entries[..], slotOf, cut) && MapOf(entries[..], slotOf) == map[];
    }

    static method Create(hash: K -> Word, capacity: Word) returns (r: Option<FixedOrderMap<K, V>>)
      ensures r.Some? <==> HasSingleBit(capacity)
      ensures r.Some? ==> fresh(r.value) && fresh(r.value.entries) && r.value.Valid()
                          && r.value.capacity == capacity && r.value.contents == map[]
    {
      if !HasSingleBit(capacity) {
        return None;
      }
      var table := new FixedOrderMap(hash, capacity);
      r := Some(table);
    }

    function Bucket(key: K): (index: nat)
      requires TableSize(capacity)
      ensures index == Homes()(key) < capacity
    {
      Masked(hash(key), capacity)
    }

    function NextBucket(index: nat): (next: nat)
      requires TableSize(capacity) && index < capacity
      ensures next == NextSlot(capacity, index)
    {
      MaskedSuccessor(capacity, index);
      BitAnd(index + 1, capacity - 1)
    }

    function ProbeDistance(from: nat, to: nat): (d: nat)
      requires TableSize(capacity) && from < capacity && to < capacity
      ensures d == Dist(capacity, from, to)
    {
      MaskedDistance(capacity, from, to);
      BitAnd(WrapSub(to, from), capacity - 1)
    }

    /** The probing loop that `insert` and `find_index` share: it stops at the first slot that is vacant
        or holds the key, or after `capacity` probes. */
    method Probe(key: K) returns (probe: nat, index: nat)
      requires Sound()
      ensures probe <= capacity && index < capacity
      ensures Probed(Homes(), entries[..], key, probe)
      ensures probe < capacity ==> Dist(capacity, Homes()(key), index) == probe
                                   && (entries[index].Vacant? || entries[index].key == key)
    {
      Unpack(Homes(), entries[..], slotOf, cut, contents);
      index := Bucket(key);
      probe := 0;
      while probe < capacity
        invariant probe <= capacity && index < capacity
        invariant Probed(Homes(), entries[..], key, probe)
        invariant probe < capacity ==> Dist(capacity, Homes()(key), index) == probe
      {
        if entries[index].Vacant? || entries[index].key == key {
          return;
        }
        ProbeAdvances(Homes(), entries[..], key, probe, index);
        index := NextBucket(index);
        probe := probe + 1;
      }
    }

    /** The slot of the key, or `capacity` when the key is absent. */
    method FindIndex(key: K) returns (index: nat)
      requires Valid()
      ensures key in contents ==> index < capacity && entries[index].Occupied? && entries[index].key == key
      ensures key in contents ==> contents[key] == entries[index].value
      ensures key !in contents ==> index == capacity
    {
      Enter();
      Unpack(Homes(), entries[..], slotOf, cut, contents);
      var probe, at := Probe(key);
      if probe == capacity || entries[at].Vacant? {
        ProbeMisses(Homes(), entries[..], slotOf, key, probe, at);
        return capacity;
      }
      index := at;
    }

    method Find(key: K) returns (r: Option<V>)
      requires Valid()
      ensures r == if key in contents then Some(contents[key]) else None
    {
      var index := FindIndex(key);
      if index == capacity {
        return None;
      }
      r := Some(entries[index].value);
    }

    method Contains(key: K) returns (present: bool)
      requires Valid()
      ensures present <==> key in contents
    {
      var index := FindIndex(key);
      present := index != capacity;
    }

    /** Fills the vacant slot that probing for an absent key arrived at. */
    method Store(key: K, value: V, index: nat)
      requires Valid() && Sound() && key !in contents
      requires index < capacity && entries[index].Vacant?
      requires Probed(Homes(), entries[..], key, Dist(capacity, Homes()(key), index))
      modifies this, entries
      ensures Valid()
      ensures contents == old(contents)[key := value]
    {
      InsertStores(Homes(), entries[..], slotOf, cut, contents, key, value, index);
      entries[index] := Occupied(key, value);
      assert entries[..] == old(entries[..])[index := Occupied(key, value)];
      slotOf := slotOf[key := index];
      cut := index;
      contents := contents[key := value];
      size := size + 1;
    }

    /** DuplicateKey iff the key is present, else Full iff every slot is taken, else stored. */
    method Insert(key: K, value: V) returns (r: InsertResult)
      requires Valid()
      modifies this, entries
      ensures Valid()
      ensures r == (if key in old(contents) then DuplicateKey
                    else if |old(contents)| == capacity then Full
                    else Inserted)
      ensures contents == if r == Inserted then old(contents)[key := value] else old(contents)
    {
      Enter();
      Unpack(Homes(), entries[..], slotOf, cut, contents);
      FullSize(entries[..], slotOf);
      var probe, index := Probe(key);
      if probe == capacity {
        ProbeMisses(Homes(), entries[..], slotOf, key, probe, index);
        r := Full;
      } else if entries[index].Vacant? {
        ProbeMisses(Homes(), entries[..], slotOf, key, probe, index);
        Store(key, value, index);
        r := Inserted;
      } else {
        r := DuplicateKey;
      }
    }

    /** Erasing is under way, with the hole at `hole` and `examined` slots scanned. */
    ghost predicate MidErase(start: nat, hole: nat, examined: nat)
      reads this, entries
    {
      && entries.Length == capacity && TableSize(capacity)
      && Erasing(Homes(), entries[..], slotOf, cut, contents, start, hole, examined)
      && size == |contents|
    }

    /** Removes exactly the given key, whatever else the table holds and however full it is. */
    method Erase(key: K) returns (erased: bool)
      requires Valid()
      modifies this, entries
      ensures Valid()
      ensures erased <==> key in old(contents)
      ensures contents == old(contents) - {key}
    {
      var index := FindIndex(key);
      if index == capacity {
        assert contents == contents - {key};
        return false;
      }
      Enter();
      EraseBegins(Homes(), entries[..], slotOf, cut, contents, index);
      var hole := index;
      entries[hole] := Vacant;
      size := size - 1;
      slotOf := slotOf - {key};
      contents := contents - {key};
      assert entries[..] == old(entries[..])[index := Vacant];
      ShiftFrom(index);
      erased := true;
    }

    /** The loop of `erase` is about to examine `scan`, and will leave the slots as `result`. Sealed like
        `Valid`, so that the loop itself need not look inside. */
    ghost predicate MidShift(start: nat, hole: nat, scan: nat, examined: nat, result: seq<Entry<K, V>>)
      reads this, entries
    {
      && entries.Length == capacity && start < capacity && hole < capacity && scan < capacity && examined < capacity
      && forall n: nat {:trigger Inside(n)} :: Inside(n) ==>
           && MidErase(start, hole, examined)
           && (examined + 1 < capacity ==> Dist(capacity, start, scan) == examined + 1)
           && ShiftedBack(Homes(), entries[..], hole, scan, examined) == result
    }

    lemma ShiftBegins(index: nat)
      requires index < capacity && MidErase(index, index, 0)
      ensures MidShift(index, index, NextSlot(capacity, index), 0,
                       ShiftedBack(Homes(), entries[..], index, NextSlot(capacity, index), 0))
    {
      if capacity > 1 {
        OneFurther(capacity, index, index);
      }
    }

    lemma ShiftEnds(start: nat, hole: nat, scan: nat, examined: nat, result: seq<Entry<K, V>>)
      requires MidShift(start, hole, scan, examined, result)
      requires examined == capacity - 1 || entries[scan].Vacant?
      ensures Valid() && entries[..] == result
    {
      assert Inside(0);
      EraseEnds(Homes(), entries[..], slotOf, cut, contents, start, hole, examined, scan);
    }

    /** The loop of `erase`, started with its hole at `index`. */
    method ShiftFrom(index: nat)
      requires index < capacity && MidErase(index, index, 0)
      modifies this`slotOf, entries
      ensures Valid()
      ensures entries[..] == ShiftedBack(Homes(), old(entries[..]), index, NextSlot(capacity, index), 0)
    {
      ghost var result := ShiftedBack(Homes(), entries[..], index, NextSlot(capacity, index), 0);
      ShiftBegins(index);
      var hole: nat := index;
      var scan: nat := NextBucket(hole);
      var examined: nat := 0;
      while examined < capacity - 1
        invariant examined <= capacity - 1
        invariant MidShift(index, hole, scan, examined, result)
      {
        if entries[scan].Vacant? {
          break;
        }
        hole, scan := ExamineSlot(hole, scan, index, examined, result);
        examined := examined + 1;
      }
      ShiftEnds(index, hole, scan, examined, result);
    }

    /** One iteration of the loop, on an occupied slot: its entry moves back into the hole if the hole is
        nearer to the entry's home. */
    method ExamineSlot(hole: nat, scan: nat, ghost start: nat, ghost examined: nat, ghost result: seq<Entry<K, V>>)
      returns (hole': nat, scan': nat)
      requires MidShift(start, hole, scan, examined, result)
      requires examined + 1 < capacity && entries[scan].Occupied?
      modifies this`slotOf, entries
      ensures scan' == NextSlot(capacity, scan)
      ensures MidShift(start, hole', scan', examined + 1, result)
    {
      assert Inside(0);
      ghost var es := entries[..];
      var home := Bucket(entries[scan].key);
      if ProbeDistance(home, hole) < ProbeDistance(home, scan) {
        EraseMoves(Homes(), es, slotOf, cut, contents, start, hole, examined, scan);
        slotOf := slotOf[es[scan].key := hole];
        entries[hole] := entries[scan];
        entries[scan] := Vacant;
        assert entries[..] == es[hole := es[scan]][scan := Vacant];
        hole' := scan;
      } else {
        EraseSkips(Homes(), es, slotOf, cut, contents, start, hole, examined, scan);
        hole' := hole;
      }
      if examined + 2 < capacity {
        OneFurther(capacity, start, scan);
      }
      scan' := NextBucket(scan);
    }
  }
}
