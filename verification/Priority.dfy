/** The order in which a batch is matched: highest bid first, then earliest sequence number. */
module Priority {
  import opened Orders
  import opened Sorting

  function Highest(bids: seq<real>, floor: real): real {
    if bids == [] then floor
    else
      var rest := Highest(bids[..|bids| - 1], floor);
      if bids[|bids| - 1] > rest then bids[|bids| - 1] else rest
  }

  /** The bid that ranks an order. A positive order-level bid wins outright, even
      over a higher bid on one of its items. */
  function RankingBid(o: Order): real {
    if o.bid > 0.0 then o.bid else Highest(o.matchedBids, o.bid)
  }

  method MaxBidPrice(o: Order) returns (best: real)
    ensures best == RankingBid(o)
    ensures o.bid > 0.0 ==> best == o.bid
    ensures o.bid <= 0.0 ==> best >= o.bid && (forall b <- o.matchedBids :: best >= b)
    ensures best == o.bid || best in o.matchedBids
  {
    if o.bid > 0.0 {
      return o.bid;
    }
    best := o.bid;
    for i := 0 to |o.matchedBids|
      invariant best == Highest(o.matchedBids[..i], o.bid)
      invariant best >= o.bid && forall k :: 0 <= k < i ==> best >= o.matchedBids[k]
      invariant best == o.bid || best in o.matchedBids[..i]
    {
      assert o.matchedBids[..i + 1][..i] == o.matchedBids[..i];
      if o.matchedBids[i] > best {
        best := o.matchedBids[i];
      }
    }
    assert o.matchedBids[..|o.matchedBids|] == o.matchedBids;
  }

  lemma {:induction false} HighestIsHighest(bids: seq<real>, floor: real)
    ensures Highest(bids, floor) >= floor && forall b <- bids :: Highest(bids, floor) >= b
  {
    if bids != [] {
      HighestIsHighest(bids[..|bids| - 1], floor);
      assert bids == bids[..|bids| - 1] + [bids[|bids| - 1]];
    }
  }

  /** The documented "highest bid" of an order and its items is what ranks it exactly if
      the order's own bid is not positive or no item bids more. */
  lemma HighestBidIff(o: Order)
    ensures RankingBid(o) >= o.bid && (forall b <- o.matchedBids :: RankingBid(o) >= b)
       <==> o.bid <= 0.0 || forall b <- o.matchedBids :: b <= o.bid
  {
    HighestIsHighest(o.matchedBids, o.bid);
  }

  predicate Outranks(a: Order, b: Order) {
    if RankingBid(a) != RankingBid(b) then RankingBid(a) > RankingBid(b)
    else a.sequence < b.sequence
  }

  lemma OutranksIsStrictWeak()
    ensures StrictWeakOrder(Outranks)
  {
  }

  /** In this order of matching nobody comes before a higher bid, nor, among equal bids,
      before an earlier sequence number. */
  predicate HighestFirst(s: seq<Order>) {
    forall i, j :: 0 <= i < j < |s| ==>
      || RankingBid(s[i]) > RankingBid(s[j])
      || (RankingBid(s[i]) == RankingBid(s[j]) && s[i].sequence <= s[j].sequence)
  }

  /** Whatever sorts a batch by the comparator puts the highest bid first. */
  lemma SortedIsHighestFirst(batch: seq<Order>, s: seq<Order>)
    requires IsSortOf(batch, s, Outranks)
    ensures HighestFirst(s)
  {
    forall i, j | 0 <= i < j < |s|
      ensures || RankingBid(s[i]) > RankingBid(s[j])
              || (RankingBid(s[i]) == RankingBid(s[j]) && s[i].sequence <= s[j].sequence)
    {
      assert !Outranks(s[j], s[i]);
    }
  }

  /** No two different orders of a batch share both ranking bid and sequence number. */
  predicate DistinctRanks(batch: seq<Order>) {
    forall i, j :: 0 <= i < j < |batch| && batch[i] != batch[j] ==>
      RankingBid(batch[i]) != RankingBid(batch[j]) || batch[i].sequence != batch[j].sequence
  }

  /** The order in which a batch is matched depends on the batch alone, and not on
      the sorting algorithm or on the order of arrival, exactly when ranks are distinct. */
  lemma ScheduleDeterminedIff(batch: seq<Order>)
    ensures (forall a, b :: IsSortOf(batch, a, Outranks) && IsSortOf(batch, b, Outranks) ==> a == b)
       <==> DistinctRanks(batch)
  {
    OutranksIsStrictWeak();
    SortDeterminedIff(batch, Outranks);
    assert Separates(batch, Outranks) <==> DistinctRanks(batch);
  }

  /** Two arrivals of the same batch are matched in the same order. */
  lemma ArrivalOrderIrrelevant(batch: seq<Order>, shuffled: seq<Order>)
    requires multiset(batch) == multiset(shuffled) && DistinctRanks(batch)
    ensures InsertionSort(batch, Outranks) == InsertionSort(shuffled, Outranks)
    ensures forall s :: IsSortOf(shuffled, s, Outranks) ==> s == InsertionSort(batch, Outranks)
  {
    OutranksIsStrictWeak();
    InsertionSortSorts(batch, Outranks);
    InsertionSortSorts(shuffled, Outranks);
    ScheduleDeterminedIff(batch);
    forall s | IsSortOf(shuffled, s, Outranks) ensures s == InsertionSort(batch, Outranks) {
      assert IsSortOf(batch, s, Outranks);
    }
  }
}
