/** What a schedule of orders gets out of the stock when every call is answered. */
module Allocation {
  import opened Orders
  import opened Database
  import opened Matching
  import opened Priority
  import opened Sorting

  /** What a line asks the server for: nothing for a skipped line or one whose quantity
      turns negative in the 32-bit request. */
  function Wanted(line: Line): nat {
    if line.quantity > 0 then Max(0, ToInt32(line.quantity)) else 0
  }

  function WantedOf(line: Line, bread: int): nat {
    if ToInt32(line.breadId) == bread then Wanted(line) else 0
  }

  function Demand(lines: seq<Line>, n: nat, bread: int): nat
    requires n <= |lines|
  {
    if n == 0 then 0 else Demand(lines, n - 1, bread) + WantedOf(lines[n - 1], bread)
  }

  function OrdersDemand(orders: seq<Order>, n: nat, bread: int): nat
    requires n <= |orders|
  {
    if n == 0 then 0
    else OrdersDemand(orders, n - 1, bread) + Demand(orders[n - 1].lines, |orders[n - 1].lines|, bread)
  }

  /** What is left for somebody once `ahead` units have been asked for before him. */
  function Share(stock: nat, ahead: nat, wanted: nat): nat {
    Min(wanted, Max(0, stock - ahead))
  }

  /** Serving `ahead` first and then `wanted` is serving both together. */
  lemma TakingTurns(stock: nat, ahead: nat, wanted: nat)
    ensures Max(0, stock - ahead) - Share(stock, ahead, wanted) == Max(0, stock - (ahead + wanted))
    ensures Min(stock, ahead) + Share(stock, ahead, wanted) == Min(stock, ahead + wanted)
  {
  }

  lemma ShareOfRest(stock: nat, before: nat, ahead: nat, wanted: nat)
    ensures Share(Max(0, stock - before), ahead, wanted) == Share(stock, before + ahead, wanted)
  {
  }

  /** One line takes its share of the stock it finds, from its own bread only. */
  lemma LineTakesShare(line: Line, s: Shelf, bread: int)
    ensures ServeLine(line, s, RELIABLE).stock.Keys == s.stock.Keys
    ensures CallFor(line, s, RELIABLE).granted == Min(Wanted(line), Available(s.stock, ToInt32(line.breadId)))
    ensures Available(ServeLine(line, s, RELIABLE).stock, bread)
         == Available(s.stock, bread) - Min(WantedOf(line, bread), Available(s.stock, bread))
  {
  }

  /** The first `n` lines leave of each bread what their demand does not use up. */
  lemma {:induction false} LinesLeave(lines: seq<Line>, n: nat, s: Shelf, bread: int)
    requires n <= |lines|
    ensures ServeLines(lines, n, s, RELIABLE).stock.Keys == s.stock.Keys
    ensures Available(ServeLines(lines, n, s, RELIABLE).stock, bread)
         == Max(0, Available(s.stock, bread) - Demand(lines, n, bread))
  {
    if n > 0 {
      LinesLeave(lines, n - 1, s, bread);
      LineTakesShare(lines[n - 1], ServeLines(lines, n - 1, s, RELIABLE), bread);
      TakingTurns(Available(s.stock, bread), Demand(lines, n - 1, bread), WantedOf(lines[n - 1], bread));
    }
  }

  /** Line `k` is granted its share of what the lines before it left. */
  lemma GrantIsShare(lines: seq<Line>, k: nat, s: Shelf)
    requires k < |lines|
    ensures var bread := ToInt32(lines[k].breadId);
            GrantTo(lines, k, s, RELIABLE)
              == Share(Available(s.stock, bread), Demand(lines, k, bread), Wanted(lines[k]))
  {
    hide CallFor, ServeLines, Available, Demand, Wanted, ToInt32;
    LinesLeave(lines, k, s, ToInt32(lines[k].breadId));
    LineTakesShare(lines[k], ServeLines(lines, k, s, RELIABLE), 0);
  }

  lemma NoDemand(lines: seq<Line>, bread: int)
    ensures Demand(lines, 0, bread) == 0
  {
  }

  lemma DemandStep(lines: seq<Line>, k: nat, bread: int)
    requires k < |lines|
    ensures Demand(lines, k + 1, bread) == Demand(lines, k, bread) + WantedOf(lines[k], bread)
  {
  }

  /** Together the first `n` lines are reported the lesser of the stock and their demand. */
  lemma {:induction false} LinesReport(lines: seq<Line>, n: nat, unserved: ItemStatus, s: Shelf, bread: int)
    requires n <= |lines|
    ensures Reported(ItemsFor(lines, |lines|, unserved, s, RELIABLE), n, bread)
         == Min(Available(s.stock, bread), Demand(lines, n, bread))
  {
    hide Available, Demand, Share, GrantTo, ToInt32, Wanted;
    if n == 0 {
      assert Demand(lines, 0, bread) == 0 by { NoDemand(lines, bread); }
    } else {
      DemandStep(lines, n - 1, bread);
      LinesReport(lines, n - 1, unserved, s, bread);
      GrantIsShare(lines, n - 1, s);
      TakingTurns(Available(s.stock, bread), Demand(lines, n - 1, bread), WantedOf(lines[n - 1], bread));
    }
  }

  lemma {:induction false} OrdersLeave(orders: seq<Order>, n: nat, s: Shelf, bread: int)
    requires n <= |orders|
    ensures ServeOrders(orders, n, s, RELIABLE).stock.Keys == s.stock.Keys
    ensures Available(ServeOrders(orders, n, s, RELIABLE).stock, bread)
         == Max(0, Available(s.stock, bread) - OrdersDemand(orders, n, bread))
  {
    hide ServeLines, Available, Demand;
    if n > 0 {
      OrdersLeave(orders, n - 1, s, bread);
      LinesLeave(orders[n - 1].lines, |orders[n - 1].lines|, ServeOrders(orders, n - 1, s, RELIABLE), bread);
    }
  }

  lemma OrderReports(orders: seq<Order>, i: nat, s: Shelf, bread: int)
    requires i < |orders|
    ensures var items := ResultsFor(orders, |orders|, s, RELIABLE)[i].items;
            Reported(items, |items|, bread)
              == Share(Available(s.stock, bread), OrdersDemand(orders, i, bread),
                       Demand(orders[i].lines, |orders[i].lines|, bread))
  {
    hide Available, Reported, StatusOf, CostOf, Demand, OrdersDemand, ServeLines;
    OrdersLeave(orders, i, s, bread);
    LinesReport(orders[i].lines, |orders[i].lines|, SkipLabel(orders[i]), ServeOrders(orders, i, s, RELIABLE), bread);
  }

  lemma {:induction false} OrdersReport(orders: seq<Order>, n: nat, s: Shelf, bread: int)
    requires n <= |orders|
    ensures TotalReported(ResultsFor(orders, |orders|, s, RELIABLE), n, bread)
         == Min(Available(s.stock, bread), OrdersDemand(orders, n, bread))
  {
    hide Available, Reported, ResultOf, Demand, Max, Share, ServeOrders;
    if n > 0 {
      var demand := Demand(orders[n - 1].lines, |orders[n - 1].lines|, bread);
      TakingTurns(Available(s.stock, bread), OrdersDemand(orders, n - 1, bread), demand);
      OrdersReport(orders, n - 1, s, bread);
      OrderReports(orders, n - 1, s, bread);
    }
  }

  /** Over a schedule: after `n` orders each bread has lost the lesser of what there was
      and what those orders wanted, and exactly that is what they report. */
  lemma GreedyAllocation(orders: seq<Order>, n: nat, s: Shelf, bread: int)
    requires n <= |orders|
    ensures Available(ServeOrders(orders, n, s, RELIABLE).stock, bread)
         == Available(s.stock, bread) - Min(Available(s.stock, bread), OrdersDemand(orders, n, bread))
    ensures TotalReported(ResultsFor(orders, |orders|, s, RELIABLE), n, bread)
         == Min(Available(s.stock, bread), OrdersDemand(orders, n, bread))
  {
    hide ResultsFor, ServeOrders, TotalReported, Available, OrdersDemand;
    OrdersLeave(orders, n, s, bread);
    OrdersReport(orders, n, s, bread);
  }

  /** Where an item of the results comes from. */
  lemma ItemOf(orders: seq<Order>, i: nat, k: nat, s: Shelf, net: Network)
    requires i < |orders| && k < |orders[i].lines|
    ensures ResultsFor(orders, |orders|, s, net)[i].items[k]
         == ItemFor(orders[i].lines, k, SkipLabel(orders[i]), ServeOrders(orders, i, s, net), net)
  {
    hide CallFor, ServeLines, ServeOrders, StatusOf, CostOf, ItemFor, SkipLabel;
  }

  /** The exact allocation: line `k` of the `i`-th order of the schedule is granted what
      the demand ahead of it, and nothing else, leaves of the initial stock. */
  lemma ExactShare(orders: seq<Order>, i: nat, k: nat, s: Shelf)
    requires i < |orders| && k < |orders[i].lines|
    ensures var item := ResultsFor(orders, |orders|, s, RELIABLE)[i].items[k];
            var lines := orders[i].lines;
            && item.breadId == ToInt32(lines[k].breadId)
            && item.fulfilled == Share(Available(s.stock, item.breadId),
                                       OrdersDemand(orders, i, item.breadId) + Demand(lines, k, item.breadId),
                                       Wanted(lines[k]))
  {
    hide CallFor, GrantTo, Share, Available, ToInt32, Wanted, Demand, OrdersDemand, ResultsFor, ServeOrders, Label;
    ItemOf(orders, i, k, s, RELIABLE);
    var bread := ToInt32(orders[i].lines[k].breadId);
    ShareOfRest(Available(s.stock, bread), OrdersDemand(orders, i, bread), Demand(orders[i].lines, k, bread),
                Wanted(orders[i].lines[k]));
    OrdersLeave(orders, i, s, bread);
    GrantIsShare(orders[i].lines, k, ServeOrders(orders, i, s, RELIABLE));
  }

  /** The demand ahead of a place in the schedule only grows further down. */
  lemma DemandAhead(orders: seq<Order>, i: nat, k: nat, j: nat, l: nat, bread: int)
    requires i < |orders| && k < |orders[i].lines| && j < |orders| && l < |orders[j].lines|
    requires i < j || (i == j && k < l)
    ensures OrdersDemand(orders, i, bread) + Demand(orders[i].lines, k, bread) + WantedOf(orders[i].lines[k], bread)
         <= OrdersDemand(orders, j, bread) + Demand(orders[j].lines, l, bread)
  {
    if i < j {
      DemandGrows(orders[i].lines, k + 1, |orders[i].lines|, bread);
      OrdersDemandGrows(orders, i + 1, j, bread);
    } else {
      DemandGrows(orders[i].lines, k + 1, l, bread);
    }
  }

  lemma {:induction false} DemandGrows(lines: seq<Line>, k: nat, n: nat, bread: int)
    requires k <= n <= |lines|
    ensures Demand(lines, k, bread) <= Demand(lines, n, bread)
  {
    if k < n {
      DemandGrows(lines, k, n - 1, bread);
    }
  }

  lemma {:induction false} OrdersDemandGrows(orders: seq<Order>, k: nat, n: nat, bread: int)
    requires k <= n <= |orders|
    ensures OrdersDemand(orders, k, bread) <= OrdersDemand(orders, n, bread)
  {
    if k < n {
      OrdersDemandGrows(orders, k, n - 1, bread);
    }
  }

  /** Nobody overtakes: if a line gets anything of a bread, every line for that bread
      ahead of it in the schedule got all it wanted. */
  lemma NobodyOvertakes(orders: seq<Order>, i: nat, k: nat, j: nat, l: nat, s: Shelf)
    requires i < |orders| && k < |orders[i].lines| && j < |orders| && l < |orders[j].lines|
    requires i < j || (i == j && k < l)
    requires ToInt32(orders[i].lines[k].breadId) == ToInt32(orders[j].lines[l].breadId)
    ensures var results := ResultsFor(orders, |orders|, s, RELIABLE);
            results[j].items[l].fulfilled > 0 ==> results[i].items[k].fulfilled == Wanted(orders[i].lines[k])
  {
    hide ResultsFor, Available, OrdersDemand, Demand;
    ExactShare(orders, i, k, s);
    ExactShare(orders, j, l, s);
    DemandAhead(orders, i, k, j, l, ToInt32(orders[i].lines[k].breadId));
  }

  /** Allocation by bids: if an order gets anything of a bread, every line for it in an
      order of the same batch that bids more, or as much with an earlier sequence number,
      got all it wanted. */
  lemma HigherBidsAreFilled(batch: seq<Order>, schedule: seq<Order>, i: nat, k: nat, j: nat, l: nat, s: Shelf)
    requires IsSortOf(batch, schedule, Outranks)
    requires i < |schedule| && k < |schedule[i].lines| && j < |schedule| && l < |schedule[j].lines|
    requires || RankingBid(schedule[i]) > RankingBid(schedule[j])
             || (RankingBid(schedule[i]) == RankingBid(schedule[j]) && schedule[i].sequence < schedule[j].sequence)
    requires ToInt32(schedule[i].lines[k].breadId) == ToInt32(schedule[j].lines[l].breadId)
    ensures var results := ResultsFor(schedule, |schedule|, s, RELIABLE);
            results[j].items[l].fulfilled > 0 ==> results[i].items[k].fulfilled == Wanted(schedule[i].lines[k])
  {
    hide ResultsFor, RankingBid, Wanted, ToInt32, IsSortOf;
    SortedIsHighestFirst(batch, schedule);
    assert i < j;
    NobodyOvertakes(schedule, i, k, j, l, s);
  }

  /** With distinct ranks, whatever order a batch arrived in and however it was sorted,
      the same results are reported and the same stock is left, on any network. */
  lemma ArrivalOrderChangesNothing(batch: seq<Order>, shuffled: seq<Order>, a: seq<Order>, b: seq<Order>,
                                   s: Shelf, net: Network)
    requires DistinctRanks(batch) && multiset(shuffled) == multiset(batch)
    requires IsSortOf(batch, a, Outranks) && IsSortOf(shuffled, b, Outranks)
    ensures |a| == |b|
    ensures ServeOrders(a, |a|, s, net) == ServeOrders(b, |b|, s, net)
    ensures ResultsFor(a, |a|, s, net) == ResultsFor(b, |b|, s, net)
  {
    ArrivalOrderIrrelevant(batch, batch);
    ArrivalOrderIrrelevant(batch, shuffled);
  }
}
