/** Where the stock goes on an unreliable network: what reservations take equals what
    the broker reports plus what lost replies hid from it. */
module Conservation {
  import opened Orders
  import opened Database
  import opened Matching
  import Allocation
  import Statuses

  lemma {:induction false} ReserveAccounts(stock: Stock, bread: int, requested: int, attempts: seq<Attempt>, other: int)
    requires IsInt32(requested)
    ensures var c := Reserve(stock, bread, requested, attempts);
            && c.granted >= 0 && c.leaked >= 0
            && Available(c.stock, other) == Available(stock, other) - if other == bread then c.granted + c.leaked else 0
  {
    if attempts != [] {
      ReserveAccounts(stock, bread, requested, attempts[1..], other);
      ReserveAccounts(AfterItem(stock, bread, requested), bread, requested, attempts[1..], other);
    }
  }

  /** Some attempt acts on the server and loses its reply before any attempt is answered. */
  predicate LosesReply(attempts: seq<Attempt>) {
    attempts != [] && (attempts[0] == ReplyLost || (attempts[0] == Refused && LosesReply(attempts[1..])))
  }

  /** A call hides stock from the broker exactly when a reply is lost while there is
      something to take. */
  lemma {:induction false} LeaksIff(stock: Stock, bread: int, requested: int, attempts: seq<Attempt>)
    requires IsInt32(requested)
    ensures Reserve(stock, bread, requested, attempts).leaked > 0
       <==> requested > 0 && Available(stock, bread) > 0 && LosesReply(attempts)
  {
    if attempts != [] {
      ReserveAccounts(AfterItem(stock, bread, requested), bread, requested, attempts[1..], bread);
      if attempts[0] == Refused {
        LeaksIff(stock, bread, requested, attempts[1..]);
      } else if attempts[0] == ReplyLost && !(requested > 0 && Available(stock, bread) > 0) {
        NothingToTake(stock, bread, requested, attempts);
      }
    }
  }

  lemma {:induction false} NothingToTake(stock: Stock, bread: int, requested: int, attempts: seq<Attempt>)
    requires requested <= 0 || Available(stock, bread) == 0
    ensures Reserve(stock, bread, requested, attempts) == Call(stock, 0, 0)
  {
    if attempts != [] {
      NothingToTake(stock, bread, requested, attempts[1..]);
    }
  }

  function Repeat(a: Attempt, times: nat): seq<Attempt> {
    if times == 0 then [] else [a] + Repeat(a, times - 1)
  }

  /** Reservations are not idempotent: with stock to spare, each lost reply before the
      answer takes the requested quantity once more. */
  lemma {:induction false} EachLostReplyDeductsAgain(stock: Stock, bread: int, requested: int, lost: nat)
    requires IsInt32(requested) && requested > 0
    requires Available(stock, bread) >= (lost + 1) * requested
    ensures var c := Reserve(stock, bread, requested, Repeat(ReplyLost, lost) + [Answered]);
            && c.granted == requested && c.leaked == lost * requested
            && Available(c.stock, bread) == Available(stock, bread) - (lost + 1) * requested
    decreases lost
  {
    hide Available, ItemGrant, AfterItem, ToInt32;
    var attempts := Repeat(ReplyLost, lost) + [Answered];
    Multiples(lost, requested);
    EnoughIsGranted(stock, bread, requested);
    if lost > 0 {
      assert attempts[0] == ReplyLost && attempts[1..] == Repeat(ReplyLost, lost - 1) + [Answered];
      EachLostReplyDeductsAgain(AfterItem(stock, bread, requested), bread, requested, lost - 1);
    }
  }

  lemma EnoughIsGranted(stock: Stock, bread: int, requested: int)
    requires 0 < requested <= Available(stock, bread)
    ensures ItemGrant(stock, bread, requested) == Granted(requested)
    ensures Available(AfterItem(stock, bread, requested), bread) == Available(stock, bread) - requested
  {
  }

  lemma Multiples(n: nat, x: int)
    requires x > 0
    ensures (n + 1) * x == n * x + x >= x
    ensures n > 0 ==> n * x == (n - 1) * x + x
  {
  }

  // What lost replies took of one bread.

  function LineLeak(line: Line, s: Shelf, net: Network, bread: int): int {
    if ToInt32(line.breadId) == bread then CallFor(line, s, net).leaked else 0
  }

  function LinesLeak(lines: seq<Line>, n: nat, s: Shelf, net: Network, bread: int): int
    requires n <= |lines|
  {
    if n == 0 then 0
    else LinesLeak(lines, n - 1, s, net, bread) + LineLeak(lines[n - 1], ServeLines(lines, n - 1, s, net), net, bread)
  }

  function OrdersLeak(orders: seq<Order>, n: nat, s: Shelf, net: Network, bread: int): int
    requires n <= |orders|
  {
    if n == 0 then 0
    else OrdersLeak(orders, n - 1, s, net, bread)
         + LinesLeak(orders[n - 1].lines, |orders[n - 1].lines|, ServeOrders(orders, n - 1, s, net), net, bread)
  }

  lemma LineAccounts(line: Line, s: Shelf, net: Network, bread: int)
    ensures var c := CallFor(line, s, net);
            && LineLeak(line, s, net, bread) >= 0
            && Available(ServeLine(line, s, net).stock, bread)
               == Available(s.stock, bread) - LineLeak(line, s, net, bread)
                  - if ToInt32(line.breadId) == bread then c.granted else 0
  {
    hide Reserve;
    ReserveAccounts(s.stock, ToInt32(line.breadId), ToInt32(line.quantity), AttemptsOf(net, s.calls), bread);
  }

  lemma {:induction false} LinesAccount(lines: seq<Line>, n: nat, unserved: ItemStatus,
                                        s: Shelf, net: Network, bread: int)
    requires n <= |lines|
    ensures LinesLeak(lines, n, s, net, bread) >= 0
    ensures Available(s.stock, bread) - Available(ServeLines(lines, n, s, net).stock, bread)
         == Reported(ItemsFor(lines, |lines|, unserved, s, net), n, bread) + LinesLeak(lines, n, s, net, bread)
  {
    hide CallFor, LineLeak, Available, ToInt32, ServeLine;
    if n > 0 {
      LinesAccount(lines, n - 1, unserved, s, net, bread);
      LineAccounts(lines[n - 1], ServeLines(lines, n - 1, s, net), net, bread);
    }
  }

  /** For every bread, network and retry pattern: what a schedule of orders took from the
      stock is what its results report, rejected orders included, plus what lost replies took. */
  lemma {:induction false} OrdersAccount(orders: seq<Order>, n: nat, s: Shelf, net: Network, bread: int)
    requires n <= |orders|
    ensures OrdersLeak(orders, n, s, net, bread) >= 0
    ensures Available(s.stock, bread) - Available(ServeOrders(orders, n, s, net).stock, bread)
         == TotalReported(ResultsFor(orders, |orders|, s, net), n, bread) + OrdersLeak(orders, n, s, net, bread)
  {
    hide Available, Reported, StatusOf, CostOf, ServeLines, LinesLeak, ItemsFor,
         AnyRejected, TotalFulfilled, TotalQuantity;
    if n > 0 {
      var o := orders[n - 1];
      OrdersAccount(orders, n - 1, s, net, bread);
      LinesAccount(o.lines, |o.lines|, SkipLabel(o), ServeOrders(orders, n - 1, s, net), net, bread);
      ItemCount(o, ServeOrders(orders, n - 1, s, net), net);
    }
  }

  lemma ItemCount(o: Order, s: Shelf, net: Network)
    ensures |ItemsFor(o.lines, |o.lines|, SkipLabel(o), s, net)| == |o.lines|
  {
  }

  // ---------------------------------------------------------------- whole runs

  /** A run of the exchange: batches, already in schedule order, and restocks by makers. */
  datatype Event = MatchBatch(schedule: seq<Order>) | Restock(bread: int, change: int)

  function Run(events: seq<Event>, n: nat, s: Shelf, net: Network): Shelf
    requires n <= |events|
  {
    if n == 0 then s
    else
      var before := Run(events, n - 1, s, net);
      match events[n - 1]
      case MatchBatch(schedule) => ServeOrders(schedule, |schedule|, before, net)
      case Restock(bread, change) => before.(stock := AdjustStock(before.stock, bread, change))
  }

  datatype Ledger = Ledger(reported: int, leaked: int, restocked: int)

  /** What a run has reported, leaked and put on the shelf of one bread. */
  function LedgerOf(events: seq<Event>, n: nat, s: Shelf, net: Network, bread: int): Ledger
    requires n <= |events|
  {
    if n == 0 then Ledger(0, 0, 0)
    else
      var l, before := LedgerOf(events, n - 1, s, net, bread), Run(events, n - 1, s, net);
      match events[n - 1]
      case MatchBatch(schedule) =>
        l.(reported := l.reported
                       + TotalReported(ResultsFor(schedule, |schedule|, before, net), |schedule|, bread),
           leaked := l.leaked + OrdersLeak(schedule, |schedule|, before, net, bread))
      case Restock(b, change) =>
        l.(restocked := l.restocked
                        + if b == bread then
                              Available(AdjustStock(before.stock, b, change), b) - Available(before.stock, b)
                          else 0)
  }

  /** No bread appears or disappears over a whole run: what there is now, what was
      reported and what leaked add up to what there was and what makers added; and never
      is more reported than was taken. */
  lemma {:induction false} RunConserves(events: seq<Event>, n: nat, s: Shelf, net: Network, bread: int)
    requires n <= |events|
    ensures var l := LedgerOf(events, n, s, net, bread);
            && l.leaked >= 0
            && Available(Run(events, n, s, net).stock, bread) + l.reported + l.leaked
               == Available(s.stock, bread) + l.restocked
  {
    hide ServeOrders, TotalReported, ResultsFor, OrdersLeak;
    if n > 0 {
      RunConserves(events, n - 1, s, net, bread);
      if events[n - 1].MatchBatch? {
        var schedule := events[n - 1].schedule;
        OrdersAccount(schedule, |schedule|, Run(events, n - 1, s, net), net, bread);
      }
    }
  }

  lemma {:induction false} NoLossNoLeak(attempts: seq<Attempt>)
    requires ReplyLost !in attempts
    ensures !LosesReply(attempts)
  {
    if attempts != [] {
      NoLossNoLeak(attempts[1..]);
    }
  }

  lemma {:induction false} LosslessLines(lines: seq<Line>, n: nat, s: Shelf, net: Network, bread: int)
    requires n <= |lines| && forall a <- net :: ReplyLost !in a
    ensures LinesLeak(lines, n, s, net, bread) == 0
  {
    hide Reserve, ServeLine;
    if n > 0 {
      LosslessLines(lines, n - 1, s, net, bread);
      var line, at := lines[n - 1], ServeLines(lines, n - 1, s, net);
      NoLossNoLeak(AttemptsOf(net, at.calls));
      LeaksIff(at.stock, ToInt32(line.breadId), ToInt32(line.quantity), AttemptsOf(net, at.calls));
      LineAccounts(line, at, net, bread);
    }
  }

  lemma {:induction false} LosslessOrders(orders: seq<Order>, n: nat, s: Shelf, net: Network, bread: int)
    requires n <= |orders| && forall a <- net :: ReplyLost !in a
    ensures OrdersLeak(orders, n, s, net, bread) == 0
  {
    hide LinesLeak, ServeLines;
    if n > 0 {
      LosslessOrders(orders, n - 1, s, net, bread);
      LosslessLines(orders[n - 1].lines, |orders[n - 1].lines|, ServeOrders(orders, n - 1, s, net), net, bread);
    }
  }

  /** When no reply is lost, whatever else the network does, the reports account for
      everything that was taken. */
  lemma {:induction false} LosslessRunsReportAll(events: seq<Event>, n: nat, s: Shelf, net: Network, bread: int)
    requires n <= |events| && forall a <- net :: ReplyLost !in a
    ensures LedgerOf(events, n, s, net, bread).leaked == 0
    ensures Available(Run(events, n, s, net).stock, bread) + LedgerOf(events, n, s, net, bread).reported
         == Available(s.stock, bread) + LedgerOf(events, n, s, net, bread).restocked
  {
    hide ServeOrders, TotalReported, ResultsFor, OrdersLeak, Available;
    RunConserves(events, n, s, net, bread);
    if n > 0 {
      LosslessRunsReportAll(events, n - 1, s, net, bread);
      if events[n - 1].MatchBatch? {
        var schedule := events[n - 1].schedule;
        LosslessOrders(schedule, |schedule|, Run(events, n - 1, s, net), net, bread);
      }
    }
  }

  // ---------------------------------------------------------------- nothing is given back

  /** Some attempt acts on the server before one is answered that its database failed. */
  predicate Reaches(attempts: seq<Attempt>) {
    attempts != []
    && (attempts[0] == Answered || attempts[0] == ReplyLost || (attempts[0] == Refused && Reaches(attempts[1..])))
  }

  lemma {:induction false} ReserveTakesIff(stock: Stock, bread: int, requested: int, attempts: seq<Attempt>)
    requires IsInt32(requested)
    ensures Reserve(stock, bread, requested, attempts).stock.Keys == stock.Keys
    ensures Reserve(stock, bread, requested, attempts).granted + Reserve(stock, bread, requested, attempts).leaked > 0
       <==> requested > 0 && Available(stock, bread) > 0 && Reaches(attempts)
  {
    if attempts != [] {
      ReserveTakesIff(stock, bread, requested, attempts[1..]);
      ReserveTakesIff(AfterItem(stock, bread, requested), bread, requested, attempts[1..]);
      ReserveAccounts(AfterItem(stock, bread, requested), bread, requested, attempts[1..], bread);
      if requested <= 0 || Available(stock, bread) == 0 {
        NothingToTake(stock, bread, requested, attempts);
      }
    }
  }

  /** The reservation calls that the first `n` lines make. */
  function CallsMade(lines: seq<Line>, n: nat): nat
    requires n <= |lines|
  {
    if n == 0 then 0 else CallsMade(lines, n - 1) + if lines[n - 1].quantity > 0 then 1 else 0
  }

  /** Line `k` takes nothing from `stock`: it asks for nothing, there is nothing, or no
      attempt of its call gets to the stock. All of this is known beforehand. */
  predicate TakesNothing(lines: seq<Line>, k: nat, s: Shelf, net: Network)
    requires k < |lines|
  {
    || Allocation.Wanted(lines[k]) == 0
    || Available(s.stock, ToInt32(lines[k].breadId)) == 0
    || !Reaches(AttemptsOf(net, s.calls + CallsMade(lines, k)))
  }

  /** Stock `b` has no more of any bread than `a`, and is `a` only if it has no less. */
  ghost predicate Within(a: Stock, b: Stock) {
    b.Keys == a.Keys && forall bread: int :: Available(b, bread) <= Available(a, bread)
  }

  lemma LineTakesIff(line: Line, s: Shelf, net: Network)
    ensures var after := ServeLine(line, s, net).stock;
            && Within(s.stock, after)
            && (after == s.stock <==> || Allocation.Wanted(line) == 0
                                      || Available(s.stock, ToInt32(line.breadId)) == 0
                                      || !Reaches(AttemptsOf(net, s.calls)))
  {
    hide Reserve, Reaches, Available;
    var bread, requested := ToInt32(line.breadId), ToInt32(line.quantity);
    var c := CallFor(line, s, net);
    if line.quantity > 0 {
      ReserveTakesIff(s.stock, bread, requested, AttemptsOf(net, s.calls));
      forall other: int
        ensures Available(c.stock, other)
             == Available(s.stock, other) - if other == bread then c.granted + c.leaked else 0
        ensures c.granted >= 0 && c.leaked >= 0
      {
        ReserveAccounts(s.stock, bread, requested, AttemptsOf(net, s.calls), other);
      }
      if c.granted + c.leaked == 0 {
        SameEverywhere(c.stock, s.stock);
      } else {
        assert Available(c.stock, bread) != Available(s.stock, bread);
      }
    }
  }

  lemma SameEverywhere(a: Stock, b: Stock)
    requires a.Keys == b.Keys && forall bread: int :: Available(a, bread) == Available(b, bread)
    ensures a == b
  {
    forall bread | bread in a ensures a[bread] == b[bread] {
      assert Available(a, bread) == Available(b, bread);
    }
  }

  /** What has gone does not come back. */
  lemma NeverBack(a: Stock, b: Stock, c: Stock)
    requires Within(a, b) && Within(b, c)
    ensures Within(a, c) && (c == a ==> b == a)
  {
    if c == a {
      forall bread: int ensures Available(b, bread) == Available(a, bread) {
        assert Available(c, bread) <= Available(b, bread) <= Available(a, bread);
      }
      SameEverywhere(b, a);
    }
  }

  /** Whatever label an order ends up with, "rejected" included, and whatever the network
      does: it leaves the stock as it was exactly if every one of its lines takes nothing
      from the stock it starts with. Nothing is ever given back. */
  lemma {:induction false} StockIsKeptIff(lines: seq<Line>, n: nat, s: Shelf, net: Network)
    requires n <= |lines|
    ensures Within(s.stock, ServeLines(lines, n, s, net).stock)
    ensures ServeLines(lines, n, s, net).calls == s.calls + CallsMade(lines, n)
    ensures ServeLines(lines, n, s, net).stock == s.stock <==> forall k :: 0 <= k < n ==> TakesNothing(lines, k, s, net)
  {
    hide CallFor, Within, Available, Reaches, Allocation.Wanted, ToInt32;
    if n == 0 {
      WithinItself(s.stock);
    } else {
      StockIsKeptIff(lines, n - 1, s, net);
      var at := ServeLines(lines, n - 1, s, net);
      LineTakesIff(lines[n - 1], at, net);
      NeverBack(s.stock, at.stock, ServeLines(lines, n, s, net).stock);
      if at.stock == s.stock {
        assert ServeLines(lines, n, s, net).stock == s.stock <==> TakesNothing(lines, n - 1, s, net);
      }
    }
  }

  lemma WithinItself(a: Stock)
    ensures Within(a, a)
  {
  }

  /** On a reliable network the condition is about the stock alone. */
  lemma ReliablyKeptIff(o: Order, s: Shelf)
    ensures ServeLines(o.lines, |o.lines|, s, RELIABLE).stock == s.stock
       <==> forall l <- o.lines :: Allocation.Wanted(l) == 0 || Available(s.stock, ToInt32(l.breadId)) == 0
  {
    hide ServeLines, Available, Allocation.Wanted, ToInt32, CallsMade;
    StockIsKeptIff(o.lines, |o.lines|, s, RELIABLE);
    forall k | 0 <= k < |o.lines|
      ensures TakesNothing(o.lines, k, s, RELIABLE)
         <==> Allocation.Wanted(o.lines[k]) == 0 || Available(s.stock, ToInt32(o.lines[k].breadId)) == 0
    {
      assert Reaches([Answered]);
      assert o.lines[k] in o.lines;
    }
  }

  /** Line `k` comes too late: what is ahead of it in its own order uses the stock up. */
  predicate ComesTooLate(lines: seq<Line>, k: nat, s: Shelf)
    requires k < |lines|
  {
    || Allocation.Wanted(lines[k]) == 0
    || Available(s.stock, ToInt32(lines[k].breadId)) <= Allocation.Demand(lines, k, ToInt32(lines[k].breadId))
  }

  /** When a rejected order has taken stock for nothing: both flags are off, some line
      that asks for something comes too late, and some line finds something to take. */
  lemma RejectedButTakenIff(o: Order, s: Shelf)
    ensures ResultOf(o, s, RELIABLE).status == OrderRejected
            && ServeLines(o.lines, |o.lines|, s, RELIABLE).stock != s.stock
       <==> && !o.allowPartial && !o.skipUnavailable
            && (exists k :: 0 <= k < |o.lines| && o.lines[k].quantity > 0 && ComesTooLate(o.lines, k, s))
            && (exists l <- o.lines :: Allocation.Wanted(l) > 0 && Available(s.stock, ToInt32(l.breadId)) > 0)
  {
    hide CallFor, ServeLines, Available, CostOf, AnyRejected, TotalFulfilled, TotalQuantity, Allocation.Demand,
         Allocation.Wanted, ToInt32;
    var items := Statuses.Items(o, s, RELIABLE);
    Statuses.ItemsLength(o, s, RELIABLE);
    Statuses.RejectedMeans(o, s, RELIABLE);
    ReliablyKeptIff(o, s);
    forall k | 0 <= k < |o.lines| ensures items[k].fulfilled == 0 <==> ComesTooLate(o.lines, k, s) {
      Allocation.GrantIsShare(o.lines, k, s);
    }
  }

  /** An order of two lines without flags, the first in stock and the second not: it is
      rejected, and it keeps, and is charged for, what its first line got. */
  lemma RejectedButTaken(o: Order, first: Line, second: Line, s: Shelf)
    requires o.lines == [first, second] && FitsWire(o.lines) && first.breadId != second.breadId
    requires !o.allowPartial && !o.skipUnavailable && first.quantity > 0 && second.quantity > 0
    requires Available(s.stock, first.breadId) > 0 && Available(s.stock, second.breadId) == 0
    ensures var got := Min(first.quantity, Available(s.stock, first.breadId));
            && got > 0
            && ResultOf(o, s, RELIABLE).status == OrderRejected
            && ResultOf(o, s, RELIABLE).cost == LineCost(got, first.price) + LineCost(0, second.price)
            && Available(ServeLines(o.lines, 2, s, RELIABLE).stock, first.breadId)
               == Available(s.stock, first.breadId) - got
  {
    hide CallFor, ServeLines, Available, LineCost, CostOf, AnyRejected, TotalFulfilled, TotalQuantity,
         Allocation.Demand;
    var items := Statuses.Items(o, s, RELIABLE);
    Statuses.ItemsLength(o, s, RELIABLE);
    assert first in o.lines && second in o.lines;
    TwoDemands(o.lines, first, second);
    Allocation.GrantIsShare(o.lines, 0, s);
    Allocation.GrantIsShare(o.lines, 1, s);
    Allocation.LinesLeave(o.lines, 2, s, first.breadId);
    Statuses.RejectedMeans(o, s, RELIABLE);
    assert o.lines[1] == second && items[1].fulfilled == 0;
    assert Statuses.SomethingRefused(o.lines, items);
    TwoCosts(o.lines, items);
  }

  lemma TwoCosts(lines: seq<Line>, items: seq<LineResult>)
    requires |lines| == 2 && |items| == 2
    ensures CostOf(lines, items, 2)
         == LineCost(items[0].fulfilled, lines[0].price) + LineCost(items[1].fulfilled, lines[1].price)
  {
    hide LineCost;
    assert CostOf(lines, items, 1) == CostOf(lines, items, 0) + LineCost(items[0].fulfilled, lines[0].price);
  }

  lemma TwoDemands(lines: seq<Line>, first: Line, second: Line)
    requires lines == [first, second] && FitsWire(lines) && first.breadId != second.breadId
    requires first.quantity > 0 && second.quantity > 0
    ensures Allocation.Demand(lines, 0, first.breadId) == 0
    ensures Allocation.Demand(lines, 1, second.breadId) == 0
    ensures Allocation.Demand(lines, 2, first.breadId) == first.quantity
  {
    assert first in lines && second in lines;
  }
}
