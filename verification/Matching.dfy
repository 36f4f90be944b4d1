/** The matching engine as a function of the stock and of the network's behaviour. */
module Matching {
  import opened Orders
  import opened Database

  /** How one attempt at a remote reservation ends. `Refused` never reached the server
      (or the breaker forbade it); with `ReplyLost` the server acted but the broker saw
      an error; `DatabaseDown` is the server answering "insufficient stock" because its
      database failed; `Answered` is a plain reply. */
  datatype Attempt = Refused | ReplyLost | Answered | DatabaseDown

  /** The attempts behind the reservation calls of a run, one list per call, under any
      retry policy. Calls past the end of the list are answered at once, so the empty
      list is a network that never fails. */
  type Network = seq<seq<Attempt>>

  const RELIABLE: Network := []

  function AttemptsOf(net: Network, call: nat): seq<Attempt> {
    if call < |net| then net[call] else [Answered]
  }

  /** A finished call: the stock it leaves, what the reply granted (0 for a refusal or
      an error), and what attempts with a lost reply took without anybody being told. */
  datatype Call = Call(stock: Stock, granted: int, leaked: int)

  function GrantedAmount(g: Grant): nat {
    if g.Granted? then g.amount else 0
  }

  /** One `ReserveInventory` call with its retries; it returns at the first answer. */
  function Reserve(stock: Stock, bread: int, requested: int, attempts: seq<Attempt>): Call {
    if attempts == [] then Call(stock, 0, 0)
    else
      match attempts[0]
      case Refused => Reserve(stock, bread, requested, attempts[1..])
      case DatabaseDown => Call(stock, 0, 0)
      case Answered =>
        var g := ItemGrant(stock, bread, requested);
        Call(AfterItem(stock, bread, requested), ToInt32(GrantedAmount(g)), 0)
      case ReplyLost =>
        var g := ItemGrant(stock, bread, requested);
        var rest := Reserve(AfterItem(stock, bread, requested), bread, requested, attempts[1..]);
        rest.(leaked := rest.leaked + GrantedAmount(g))
  }

  /** What matching works against: the stock, and how many reservation calls were made. */
  datatype Shelf = Shelf(stock: Stock, calls: nat)

  /** The reservation call a line makes; a line without a positive quantity makes none. */
  function CallFor(line: Line, s: Shelf, net: Network): Call {
    if line.quantity <= 0 then Call(s.stock, 0, 0)
    else Reserve(s.stock, ToInt32(line.breadId), ToInt32(line.quantity), AttemptsOf(net, s.calls))
  }

  function ServeLine(line: Line, s: Shelf, net: Network): Shelf {
    Shelf(CallFor(line, s, net).stock, if line.quantity <= 0 then s.calls else s.calls + 1)
  }

  function ServeLines(lines: seq<Line>, n: nat, s: Shelf, net: Network): Shelf
    requires n <= |lines|
  {
    if n == 0 then s else ServeLine(lines[n - 1], ServeLines(lines, n - 1, s, net), net)
  }

  /** What the reply to line `k` grants. */
  function GrantTo(lines: seq<Line>, k: nat, s: Shelf, net: Network): int
    requires k < |lines|
  {
    CallFor(lines[k], ServeLines(lines, k, s, net), net).granted
  }

  function Label(line: Line, granted: int, unserved: ItemStatus): ItemStatus {
    if line.quantity <= 0 then Skipped
    else if granted == 0 then unserved
    else Fulfilled
  }

  function ItemFor(lines: seq<Line>, k: nat, unserved: ItemStatus, s: Shelf, net: Network): LineResult
    requires k < |lines|
  {
    var granted := GrantTo(lines, k, s, net);
    LineResult(ToInt32(lines[k].breadId), ToInt32(lines[k].quantity), granted, Label(lines[k], granted, unserved))
  }

  /** The items of the first `n` lines. */
  function ItemsFor(lines: seq<Line>, n: nat, unserved: ItemStatus, s: Shelf, net: Network): seq<LineResult>
    requires n <= |lines|
  {
    seq(n, k requires 0 <= k < n => ItemFor(lines, k, unserved, s, net))
  }

  // The running totals of `fulfillOrder`, read off the items.

  function TotalFulfilled(items: seq<LineResult>, n: nat): int
    requires n <= |items|
  {
    if n == 0 then 0 else TotalFulfilled(items, n - 1) + items[n - 1].fulfilled
  }

  function CostOf(lines: seq<Line>, items: seq<LineResult>, n: nat): real
    requires n <= |items| && n <= |lines|
  {
    if n == 0 then 0.0 else CostOf(lines, items, n - 1) + LineCost(items[n - 1].fulfilled, lines[n - 1].price)
  }

  predicate AnyRejected(items: seq<LineResult>) {
    exists item <- items :: item.status == Rejected
  }

  function ResultOf(o: Order, s: Shelf, net: Network): OrderResult {
    var items := ItemsFor(o.lines, |o.lines|, SkipLabel(o), s, net);
    OrderResult(o.uuid,
                StatusOf(AnyRejected(items), o.allowPartial, TotalFulfilled(items, |items|),
                         TotalQuantity(o.lines, |o.lines|)),
                items,
                CostOf(o.lines, items, |items|))
  }

  /** The shelf once the first `n` orders of a schedule have been matched. */
  function ServeOrders(orders: seq<Order>, n: nat, s: Shelf, net: Network): Shelf
    requires n <= |orders|
  {
    if n == 0 then s
    else ServeLines(orders[n - 1].lines, |orders[n - 1].lines|, ServeOrders(orders, n - 1, s, net), net)
  }

  /** One result per order of the schedule, each computed on what its predecessors left. */
  function ResultsFor(orders: seq<Order>, n: nat, s: Shelf, net: Network): seq<OrderResult>
    requires n <= |orders|
  {
    seq(n, i requires 0 <= i < n => ResultOf(orders[i], ServeOrders(orders, i, s, net), net))
  }

  /** What the first `n` reported items give out of one bread. */
  function Reported(items: seq<LineResult>, n: nat, bread: int): int
    requires n <= |items|
  {
    if n == 0 then 0
    else Reported(items, n - 1, bread) + if items[n - 1].breadId == bread then items[n - 1].fulfilled else 0
  }

  function TotalReported(results: seq<OrderResult>, n: nat, bread: int): int
    requires n <= |results|
  {
    if n == 0 then 0
    else TotalReported(results, n - 1, bread) + Reported(results[n - 1].items, |results[n - 1].items|, bread)
  }
}
