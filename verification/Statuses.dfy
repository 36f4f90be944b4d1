/** What the order-level labels, which the broker computes from two running totals,
    say about the single lines. */
module Statuses {
  import opened Orders
  import opened Database
  import opened Matching
  import opened Allocation

  function Items(o: Order, s: Shelf, net: Network): seq<LineResult> {
    ItemsFor(o.lines, |o.lines|, SkipLabel(o), s, net)
  }

  lemma {:induction false} ReserveBounded(stock: Stock, bread: int, requested: int, attempts: seq<Attempt>)
    requires IsInt32(requested)
    ensures 0 <= Reserve(stock, bread, requested, attempts).granted <= Max(0, requested)
  {
    if attempts != [] {
      ReserveBounded(stock, bread, requested, attempts[1..]);
      ReserveBounded(AfterItem(stock, bread, requested), bread, requested, attempts[1..]);
    }
  }

  /** On any network a line is granted no more than it asked for. */
  lemma GrantBounded(o: Order, k: nat, s: Shelf, net: Network)
    requires k < |o.lines|
    ensures 0 <= Items(o, s, net)[k].fulfilled <= Wanted(o.lines[k])
  {
    hide Reserve, ServeLines;
    var line, at := o.lines[k], ServeLines(o.lines, k, s, net);
    ReserveBounded(at.stock, ToInt32(line.breadId), ToInt32(line.quantity), AttemptsOf(net, at.calls));
  }

  /** Totals of bounded parts: no more than the whole, and all of it only if every part is. */
  lemma {:induction false} TotalsTell(lines: seq<Line>, items: seq<LineResult>, n: nat)
    requires n <= |lines| && n <= |items|
    requires forall k :: 0 <= k < n ==> 0 <= items[k].fulfilled <= lines[k].quantity
    ensures 0 <= TotalFulfilled(items, n) <= TotalQuantity(lines, n)
    ensures TotalFulfilled(items, n) == TotalQuantity(lines, n)
       <==> forall k :: 0 <= k < n ==> items[k].fulfilled == lines[k].quantity
    ensures TotalFulfilled(items, n) == 0 <==> forall k :: 0 <= k < n ==> items[k].fulfilled == 0
    ensures TotalQuantity(lines, n) == 0 <==> forall k :: 0 <= k < n ==> lines[k].quantity == 0
  {
    if n > 0 {
      TotalsTell(lines, items, n - 1);
    }
  }

  predicate NoNegative(lines: seq<Line>) {
    forall l <- lines :: l.quantity >= 0
  }

  /** Some line was asked for and every such line was delivered in full. */
  predicate AllDelivered(lines: seq<Line>, items: seq<LineResult>)
    requires |items| == |lines|
  {
    && (exists k :: 0 <= k < |lines| && lines[k].quantity > 0)
    && (forall k :: 0 <= k < |lines| && lines[k].quantity > 0 ==> items[k].fulfilled == lines[k].quantity)
  }

  /** Some line was asked for and got nothing. */
  predicate SomethingRefused(lines: seq<Line>, items: seq<LineResult>)
    requires |items| == |lines|
  {
    exists k :: 0 <= k < |lines| && lines[k].quantity > 0 && items[k].fulfilled == 0
  }

  predicate NothingDelivered(items: seq<LineResult>) {
    forall k :: 0 <= k < |items| ==> items[k].fulfilled == 0
  }

  lemma RejectedMeans(o: Order, s: Shelf, net: Network)
    ensures AnyRejected(Items(o, s, net))
       <==> !o.allowPartial && !o.skipUnavailable && SomethingRefused(o.lines, Items(o, s, net))
  {
    hide CallFor, ServeLines;
    var items := Items(o, s, net);
    if SomethingRefused(o.lines, items) && !o.allowPartial && !o.skipUnavailable {
      var k :| 0 <= k < |o.lines| && o.lines[k].quantity > 0 && items[k].fulfilled == 0;
      assert items[k].status == Rejected && items[k] in items;
    }
    if AnyRejected(items) {
      var item :| item in items && item.status == Rejected;
      var k :| 0 <= k < |items| && items[k] == item;
      assert o.lines[k].quantity > 0 && items[k].fulfilled == 0;
    }
  }

  /** A result names its order and, line by line, what was asked for; an item is labelled by
      its quantity, by whether it got anything, and by the buyer's flags. */
  predicate Labelled(o: Order, r: OrderResult) {
    && r.uuid == o.uuid && |r.items| == |o.lines|
    && forall k :: 0 <= k < |o.lines| ==>
         && r.items[k].breadId == ToInt32(o.lines[k].breadId) && r.items[k].requested == ToInt32(o.lines[k].quantity)
         && r.items[k].status == (if o.lines[k].quantity <= 0 then Skipped
                                  else if r.items[k].fulfilled != 0 then Fulfilled
                                  else if o.allowPartial || o.skipUnavailable then Skipped
                                  else Rejected)
  }

  lemma ResultIsLabelled(o: Order, s: Shelf, net: Network)
    ensures Labelled(o, ResultOf(o, s, net))
  {
    hide CallFor, ServeLines, CostOf, StatusOf, TotalFulfilled, TotalQuantity, AnyRejected, ToInt32;
  }

  /** A quantity that does not fit the wire may turn smaller or negative, never larger. */
  lemma WantedBounded(line: Line)
    requires line.quantity >= 0
    ensures Wanted(line) <= line.quantity
  {
  }

  /** Each label in terms of the lines, for orders without negative quantities, on any
      network. A rejected order may still have received, and kept, some of its lines. */
  lemma StatusMeansItems(o: Order, s: Shelf, net: Network)
    requires NoNegative(o.lines)
    ensures var status, items := ResultOf(o, s, net).status, Items(o, s, net);
            && (status == OrderRejected <==>
                  !o.allowPartial && !o.skipUnavailable && SomethingRefused(o.lines, items))
            && (status == Processed <==> AllDelivered(o.lines, items))
            && (status == OrderFailed <==> status != OrderRejected && NothingDelivered(items))
            && (status == PartiallyProcessed <==>
                  status != OrderRejected && !AllDelivered(o.lines, items) && !NothingDelivered(items))
  {
    hide CallFor, ServeLines, CostOf, ItemsFor;
    var items := Items(o, s, net);
    ItemsLength(o, s, net);
    RejectedMeans(o, s, net);
    forall k | 0 <= k < |items| ensures 0 <= items[k].fulfilled <= o.lines[k].quantity {
      GrantBounded(o, k, s, net);
      assert o.lines[k] in o.lines;
      WantedBounded(o.lines[k]);
    }
    TotalsTell(o.lines, items, |items|);
  }

  lemma ItemsLength(o: Order, s: Shelf, net: Network)
    ensures |Items(o, s, net)| == |o.lines|
  {
  }

  /** "Processed" is reported exactly when all is delivered. */
  predicate ProcessedIsHonest(o: Order, s: Shelf, net: Network) {
    ResultOf(o, s, net).status == Processed <==> AllDelivered(o.lines, Items(o, s, net))
  }

  /** No order mixes quantities above and below zero. */
  predicate OneSign(lines: seq<Line>) {
    NoNegative(lines) || forall l <- lines :: l.quantity <= 0
  }

  function PositiveTotal(lines: seq<Line>, n: nat): int
    requires n <= |lines|
  {
    if n == 0 then 0 else PositiveTotal(lines, n - 1) + Max(0, lines[n - 1].quantity)
  }

  lemma {:induction false} NegativeLowersTotal(lines: seq<Line>, n: nat)
    requires n <= |lines|
    ensures PositiveTotal(lines, n) >= TotalQuantity(lines, n)
    ensures (exists k :: 0 <= k < n && lines[k].quantity < 0) ==> PositiveTotal(lines, n) > TotalQuantity(lines, n)
  {
    if n > 0 {
      NegativeLowersTotal(lines, n - 1);
    }
  }

  lemma {:induction false} FullDeliveryTotal(lines: seq<Line>, items: seq<LineResult>, n: nat)
    requires n <= |lines| && n <= |items|
    requires forall k :: 0 <= k < n ==> items[k].fulfilled == Max(0, lines[k].quantity)
    ensures TotalFulfilled(items, n) == PositiveTotal(lines, n)
  {
    if n > 0 {
      FullDeliveryTotal(lines, items, n - 1);
    }
  }

  /** A stock that holds all an order asks for. */
  function Plenty(lines: seq<Line>): Stock {
    map b | b in (set l <- lines :: ToInt32(l.breadId)) :: Demand(lines, |lines|, b)
  }

  lemma PlentyDelivers(o: Order, k: nat, s: Shelf)
    requires FitsWire(o.lines) && k < |o.lines| && s.stock == Plenty(o.lines)
    ensures Items(o, s, RELIABLE)[k].fulfilled == Max(0, o.lines[k].quantity)
  {
    hide CallFor, ServeLines;
    assert o.lines[k] in o.lines;
    GrantIsShare(o.lines, k, s);
    DemandGrows(o.lines, k + 1, |o.lines|, ToInt32(o.lines[k].breadId));
  }

  /** With a negative quantity beside a positive one, ample stock delivers everything
      and still the order is not called processed. */
  lemma MixedSignsMislead(o: Order, s: Shelf)
    requires FitsWire(o.lines) && !OneSign(o.lines) && s.stock == Plenty(o.lines)
    ensures AllDelivered(o.lines, Items(o, s, RELIABLE))
    ensures ResultOf(o, s, RELIABLE).status != Processed
  {
    hide CallFor, ServeLines, CostOf, Plenty, ItemsFor, TotalFulfilled, TotalQuantity,
         PositiveTotal, IsInt32, AnyRejected;
    var items := Items(o, s, RELIABLE);
    ItemsLength(o, s, RELIABLE);
    forall k | 0 <= k < |items| ensures items[k].fulfilled == Max(0, o.lines[k].quantity) {
      PlentyDelivers(o, k, s);
    }
    FullDeliveryTotal(o.lines, items, |items|);
    NegativeLowersTotal(o.lines, |o.lines|);
    var bad :| bad in o.lines && bad.quantity < 0;
    var good :| good in o.lines && good.quantity > 0;
  }

  /** The label "processed" can be trusted on every stock exactly when the order does
      not mix signs. */
  lemma ProcessedIsHonestIff(o: Order)
    requires FitsWire(o.lines)
    ensures (forall s: Shelf, net: Network :: ProcessedIsHonest(o, s, net)) <==> OneSign(o.lines)
  {
    if OneSign(o.lines) {
      forall s: Shelf, net: Network ensures ProcessedIsHonest(o, s, net) {
        if NoNegative(o.lines) {
          StatusMeansItems(o, s, net);
        } else {
          NothingAskedNothingProcessed(o, s, net);
        }
      }
    } else {
      MixedSignsMislead(o, Shelf(Plenty(o.lines), 0));
      assert !ProcessedIsHonest(o, Shelf(Plenty(o.lines), 0), RELIABLE);
    }
  }

  lemma {:induction false} NoPositiveTotal(lines: seq<Line>, n: nat)
    requires n <= |lines| && forall l <- lines :: l.quantity <= 0
    ensures TotalQuantity(lines, n) <= 0
  {
    if n > 0 {
      NoPositiveTotal(lines, n - 1);
    }
  }

  lemma NothingAskedNothingProcessed(o: Order, s: Shelf, net: Network)
    requires forall l <- o.lines :: l.quantity <= 0
    ensures ProcessedIsHonest(o, s, net)
  {
    hide CallFor, ServeLines, CostOf, ItemsFor;
    ItemsLength(o, s, net);
    NoPositiveTotal(o.lines, |o.lines|);
    forall k | 0 <= k < |o.lines| ensures o.lines[k].quantity <= 0 {
      assert o.lines[k] in o.lines;
    }
  }
}
