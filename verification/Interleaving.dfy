/** The matching engine one attempt at a time, with restocks, themselves split into read
    and write, falling anywhere in between. */
module Interleaving {
  import opened Orders
  import opened Database
  import opened Matching
  import Restock

  /** Where the broker is in its schedule, and what it has reported so far. */
  datatype Place = Place(order: nat, line: nat, items: seq<LineResult>, results: seq<OrderResult>)

  datatype State = State(shop: Restock.System, place: Place)

  /** A step of the broker: skipping a line, one attempt of a reservation, the end of the
      retries, or the end of an order. */
  datatype Move = Skip | Try(attempt: Attempt) | GiveUp | Close

  datatype Action = Broker(move: Move) | Listener(action: Restock.Action)

  predicate AtLine(schedule: seq<Order>, at: Place) {
    at.order < |schedule| && at.line < |schedule[at.order].lines|
  }

  function LineAt(schedule: seq<Order>, at: Place): Line
    requires AtLine(schedule, at)
  {
    schedule[at.order].lines[at.line]
  }

  predicate Possible(schedule: seq<Order>, s: State, a: Action) {
    match a
    case Listener(action) => !action.Reserve? && Restock.Possible(s.shop, action)
    case Broker(Skip) => AtLine(schedule, s.place) && LineAt(schedule, s.place).quantity <= 0
    case Broker(Close) =>
      && s.place.order < |schedule| && s.place.line == |schedule[s.place.order].lines|
      && |s.place.items| == s.place.line
    case Broker(_) => AtLine(schedule, s.place) && LineAt(schedule, s.place).quantity > 0
  }

  /** The next line, after `granted` units for this one. */
  function Advance(schedule: seq<Order>, at: Place, granted: int): Place
    requires AtLine(schedule, at)
  {
    var o, line := schedule[at.order], LineAt(schedule, at);
    var item := LineResult(ToInt32(line.breadId), ToInt32(line.quantity), granted, Label(line, granted, SkipLabel(o)));
    at.(line := at.line + 1, items := at.items + [item])
  }

  function Closed(schedule: seq<Order>, at: Place): Place
    requires at.order < |schedule| && |at.items| == |schedule[at.order].lines|
  {
    var o, items := schedule[at.order], at.items;
    var status := StatusOf(AnyRejected(items), o.allowPartial, TotalFulfilled(items, |items|),
                           TotalQuantity(o.lines, |o.lines|));
    Place(at.order + 1, 0, [], at.results + [OrderResult(o.uuid, status, items, CostOf(o.lines, items, |items|))])
  }

  function Taken(stock: Stock, line: Line): Stock {
    AfterItem(stock, ToInt32(line.breadId), ToInt32(line.quantity))
  }

  function GrantFor(stock: Stock, line: Line): nat {
    GrantedAmount(ItemGrant(stock, ToInt32(line.breadId), ToInt32(line.quantity)))
  }

  function Step(schedule: seq<Order>, s: State, a: Action): State
    requires Possible(schedule, s, a)
  {
    match a
    case Listener(action) => s.(shop := Restock.Step(s.shop, action))
    case Broker(Skip) => s.(place := Advance(schedule, s.place, 0))
    case Broker(GiveUp) => s.(place := Advance(schedule, s.place, 0))
    case Broker(Close) => s.(place := Closed(schedule, s.place))
    case Broker(Try(Refused)) => s
    case Broker(Try(DatabaseDown)) => s.(place := Advance(schedule, s.place, 0))
    case Broker(Try(ReplyLost)) =>
      s.(shop := s.shop.(stock := Taken(s.shop.stock, LineAt(schedule, s.place))))
    case Broker(Try(Answered)) =>
      var line := LineAt(schedule, s.place);
      State(s.shop.(stock := Taken(s.shop.stock, line)),
            Advance(schedule, s.place, ToInt32(GrantFor(s.shop.stock, line))))
  }

  /** The end of a run; what is not possible does not happen. */
  function After(schedule: seq<Order>, s: State, run: seq<Action>): State
    decreases |run|
  {
    if run == [] then s
    else After(schedule, if Possible(schedule, s, run[0]) then Step(schedule, s, run[0]) else s, run[1..])
  }

  // ---------------------------------------------------------------- conservation

  /** What lost replies took of a bread, what restocks added to the quantity they had read,
      and what they overwrote: the change between their read and their write. */
  datatype Ledger = Ledger(leaked: int, restocked: int, forgotten: int)

  function Both(a: Ledger, b: Ledger): Ledger {
    Ledger(a.leaked + b.leaked, a.restocked + b.restocked, a.forgotten + b.forgotten)
  }

  function Entry(schedule: seq<Order>, s: State, a: Action, bread: int): Ledger
    requires Possible(schedule, s, a)
  {
    match a
    case Broker(Try(ReplyLost)) =>
      var line := LineAt(schedule, s.place);
      Ledger(if ToInt32(line.breadId) == bread then GrantFor(s.shop.stock, line) else 0, 0, 0)
    case Listener(Write(w, _)) =>
      var held := s.shop.listeners[w];
      if held.message.bread == bread && bread in s.shop.stock
      then Ledger(0, held.quantity - held.read, s.shop.stock[bread] - held.read)
      else Ledger(0, 0, 0)
    case _ => Ledger(0, 0, 0)
  }

  function LedgerOf(schedule: seq<Order>, s: State, run: seq<Action>, bread: int): Ledger
    decreases |run|
  {
    if run == [] then Ledger(0, 0, 0)
    else if !Possible(schedule, s, run[0]) then LedgerOf(schedule, s, run[1..], bread)
    else Both(Entry(schedule, s, run[0], bread), LedgerOf(schedule, Step(schedule, s, run[0]), run[1..], bread))
  }

  /** What all finished orders and the items of the current one report of a bread. */
  function ReportedAt(at: Place, bread: int): int {
    TotalReported(at.results, |at.results|, bread) + Reported(at.items, |at.items|, bread)
  }

  lemma {:induction false} ReportedPrefix(items: seq<LineResult>, more: seq<LineResult>, n: nat, bread: int)
    requires n <= |items|
    ensures Reported(items + more, n, bread) == Reported(items, n, bread)
  {
    if n > 0 {
      ReportedPrefix(items, more, n - 1, bread);
    }
  }

  lemma {:induction false} TotalReportedPrefix(results: seq<OrderResult>, more: seq<OrderResult>, n: nat, bread: int)
    requires n <= |results|
    ensures TotalReported(results + more, n, bread) == TotalReported(results, n, bread)
  {
    hide Reported;
    if n > 0 {
      TotalReportedPrefix(results, more, n - 1, bread);
    }
  }

  lemma AdvanceReports(schedule: seq<Order>, at: Place, granted: int, bread: int)
    requires AtLine(schedule, at)
    ensures ReportedAt(Advance(schedule, at, granted), bread)
         == ReportedAt(at, bread) + if ToInt32(LineAt(schedule, at).breadId) == bread then granted else 0
  {
    hide ToInt32, TotalReported;
    var after := Advance(schedule, at, granted);
    ReportedPrefix(at.items, [after.items[|at.items|]], |at.items|, bread);
  }

  lemma ClosedReports(schedule: seq<Order>, at: Place, bread: int)
    requires at.order < |schedule| && |at.items| == |schedule[at.order].lines|
    ensures ReportedAt(Closed(schedule, at), bread) == ReportedAt(at, bread)
  {
    hide StatusOf, AnyRejected, TotalFulfilled, TotalQuantity, CostOf;
    var after := Closed(schedule, at);
    TotalReportedPrefix(at.results, [after.results[|at.results|]], |at.results|, bread);
    assert Reported([], 0, bread) == 0;
  }

  lemma TakenAccounts(stock: Stock, line: Line, bread: int)
    ensures Taken(stock, line).Keys == stock.Keys
    ensures ToInt32(GrantFor(stock, line)) == GrantFor(stock, line)
    ensures Available(Taken(stock, line), bread)
         == Available(stock, bread) - if ToInt32(line.breadId) == bread then GrantFor(stock, line) else 0
  {
  }

  lemma StepConserves(schedule: seq<Order>, s: State, a: Action, bread: int)
    requires Possible(schedule, s, a)
    ensures var after, l := Step(schedule, s, a), Entry(schedule, s, a, bread);
            && l.leaked >= 0
            && Available(after.shop.stock, bread) + ReportedAt(after.place, bread) + l.leaked + l.forgotten
               == Available(s.shop.stock, bread) + ReportedAt(s.place, bread) + l.restocked
  {
    hide ReportedAt, Advance, Closed, Taken, GrantFor, ToInt32;
    match a
    case Listener(_) =>
    case Broker(Close) => ClosedReports(schedule, s.place, bread);
    case Broker(_) =>
      var line := LineAt(schedule, s.place);
      TakenAccounts(s.shop.stock, line, bread);
      AdvanceReports(schedule, s.place, 0, bread);
      AdvanceReports(schedule, s.place, GrantFor(s.shop.stock, line), bread);
  }

  /** Over any interleaving of reservation attempts, retries, restocks and redeliveries:
      what there is of a bread, what was reported and what leaked add up to what there was
      and what restocks added, less the changes that restocks overwrote. */
  lemma {:induction false} InterleavingConserves(schedule: seq<Order>, s: State, run: seq<Action>, bread: int)
    ensures var end, l := After(schedule, s, run), LedgerOf(schedule, s, run, bread);
            && l.leaked >= 0
            && Available(end.shop.stock, bread) + ReportedAt(end.place, bread) + l.leaked + l.forgotten
               == Available(s.shop.stock, bread) + ReportedAt(s.place, bread) + l.restocked
    decreases |run|
  {
    hide Possible, Step, Entry, ReportedAt, Available;
    if run != [] {
      if Possible(schedule, s, run[0]) {
        StepConserves(schedule, s, run[0], bread);
        InterleavingConserves(schedule, Step(schedule, s, run[0]), run[1..], bread);
      } else {
        InterleavingConserves(schedule, s, run[1..], bread);
      }
    }
  }

  // ---------------------------------------------------------------- undisturbed, it is the matching engine

  /** The steps of one reservation call with its retries. */
  function CallMoves(attempts: seq<Attempt>): seq<Action> {
    if attempts == [] then [Broker(GiveUp)]
    else if attempts[0] == Refused || attempts[0] == ReplyLost then
      [Broker(Try(attempts[0]))] + CallMoves(attempts[1..])
    else [Broker(Try(attempts[0]))]
  }

  function LineMoves(line: Line, s: Shelf, net: Network): seq<Action> {
    if line.quantity <= 0 then [Broker(Skip)] else CallMoves(AttemptsOf(net, s.calls))
  }

  function LinesMoves(lines: seq<Line>, n: nat, s: Shelf, net: Network): seq<Action>
    requires n <= |lines|
  {
    if n == 0 then []
    else LinesMoves(lines, n - 1, s, net) + LineMoves(lines[n - 1], ServeLines(lines, n - 1, s, net), net)
  }

  /** The steps of the first `n` orders, on a network and with nobody else at work. */
  function ScheduleMoves(schedule: seq<Order>, n: nat, s: Shelf, net: Network): seq<Action>
    requires n <= |schedule|
  {
    if n == 0 then []
    else
      var o, before := schedule[n - 1], ServeOrders(schedule, n - 1, s, net);
      ScheduleMoves(schedule, n - 1, s, net) + (LinesMoves(o.lines, |o.lines|, before, net) + [Broker(Close)])
  }

  lemma {:induction false} AfterConcat(schedule: seq<Order>, s: State, first: seq<Action>, second: seq<Action>)
    ensures After(schedule, s, first + second) == After(schedule, After(schedule, s, first), second)
    decreases |first|
  {
    hide Possible, Step;
    if first == [] {
      assert first + second == second;
    } else {
      assert (first + second)[0] == first[0] && (first + second)[1..] == first[1..] + second;
      var next := if Possible(schedule, s, first[0]) then Step(schedule, s, first[0]) else s;
      AfterConcat(schedule, next, first[1..], second);
    }
  }

  lemma AfterOne(schedule: seq<Order>, s: State, a: Action)
    requires Possible(schedule, s, a)
    ensures After(schedule, s, [a]) == Step(schedule, s, a)
  {
    hide Possible, Step;
    assert [a][1..] == [];
  }

  lemma {:induction false} CallRun(schedule: seq<Order>, s: State, attempts: seq<Attempt>)
    requires AtLine(schedule, s.place) && LineAt(schedule, s.place).quantity > 0
    ensures var line := LineAt(schedule, s.place);
            var call := Reserve(s.shop.stock, ToInt32(line.breadId), ToInt32(line.quantity), attempts);
            After(schedule, s, CallMoves(attempts))
            == State(s.shop.(stock := call.stock), Advance(schedule, s.place, call.granted))
    decreases |attempts|
  {
    hide Advance, ItemGrant, AfterItem, ToInt32, After;
    if attempts == [] {
      AfterOne(schedule, s, Broker(GiveUp));
    } else {
      var a := Broker(Try(attempts[0]));
      assert Possible(schedule, s, a);
      AfterOne(schedule, s, a);
      if attempts[0] == Refused || attempts[0] == ReplyLost {
        AfterConcat(schedule, s, [a], CallMoves(attempts[1..]));
        CallRun(schedule, Step(schedule, s, a), attempts[1..]);
      }
    }
  }

  lemma LineRun(schedule: seq<Order>, s: State, shelf: Shelf, net: Network)
    requires AtLine(schedule, s.place) && shelf.stock == s.shop.stock
    ensures var line := LineAt(schedule, s.place);
            After(schedule, s, LineMoves(line, shelf, net))
            == State(s.shop.(stock := ServeLine(line, shelf, net).stock),
                     Advance(schedule, s.place, CallFor(line, shelf, net).granted))
  {
    hide Advance, Reserve, After, CallMoves;
    var line := LineAt(schedule, s.place);
    if line.quantity <= 0 {
      AfterOne(schedule, s, Broker(Skip));
    } else {
      CallRun(schedule, s, AttemptsOf(net, shelf.calls));
    }
  }

  lemma {:induction false} LinesRun(schedule: seq<Order>, s: State, n: nat, shelf: Shelf, net: Network)
    requires s.place.order < |schedule| && s.place.line == 0 && s.place.items == []
    requires n <= |schedule[s.place.order].lines| && shelf.stock == s.shop.stock
    ensures var o := schedule[s.place.order];
            After(schedule, s, LinesMoves(o.lines, n, shelf, net))
            == State(s.shop.(stock := ServeLines(o.lines, n, shelf, net).stock),
                     s.place.(line := n, items := ItemsFor(o.lines, n, SkipLabel(o), shelf, net)))
  {
    hide ServeLine, CallFor, LineMoves, After, Label, ToInt32, SkipLabel;
    var o := schedule[s.place.order];
    if n == 0 {
      AfterNothing(schedule, s);
      assert ItemsFor(o.lines, 0, SkipLabel(o), shelf, net) == [];
    } else {
      LinesRun(schedule, s, n - 1, shelf, net);
      var middle := After(schedule, s, LinesMoves(o.lines, n - 1, shelf, net));
      var at := ServeLines(o.lines, n - 1, shelf, net);
      AfterConcat(schedule, s, LinesMoves(o.lines, n - 1, shelf, net), LineMoves(o.lines[n - 1], at, net));
      LineRun(schedule, middle, at, net);
      assert ItemsFor(o.lines, n, SkipLabel(o), shelf, net)
          == ItemsFor(o.lines, n - 1, SkipLabel(o), shelf, net) + [ItemFor(o.lines, n - 1, SkipLabel(o), shelf, net)];
    }
  }

  lemma AfterNothing(schedule: seq<Order>, s: State)
    ensures After(schedule, s, []) == s
  {
  }

  /** With nobody else at work the steps add up to the matching engine: the same results
      for every order and the same stock, on any network. */
  lemma {:induction false} ScheduleRun(schedule: seq<Order>, shop: Restock.System, n: nat, calls: nat, net: Network)
    requires n <= |schedule|
    ensures var s := Shelf(shop.stock, calls);
            After(schedule, State(shop, Place(0, 0, [], [])), ScheduleMoves(schedule, n, s, net))
            == State(shop.(stock := ServeOrders(schedule, n, s, net).stock),
                     Place(n, 0, [], ResultsFor(schedule, n, s, net)))
  {
    hide ServeLines, After, Closed, LinesMoves, ResultOf;
    var s, start := Shelf(shop.stock, calls), State(shop, Place(0, 0, [], []));
    if n == 0 {
      AfterNothing(schedule, start);
      assert ResultsFor(schedule, 0, s, net) == [];
    } else {
      ScheduleRun(schedule, shop, n - 1, calls, net);
      var o, before := schedule[n - 1], ServeOrders(schedule, n - 1, s, net);
      var middle := After(schedule, start, ScheduleMoves(schedule, n - 1, s, net));
      var moves := LinesMoves(o.lines, |o.lines|, before, net);
      AfterConcat(schedule, start, ScheduleMoves(schedule, n - 1, s, net), moves + [Broker(Close)]);
      AfterConcat(schedule, middle, moves, [Broker(Close)]);
      LinesRun(schedule, middle, |o.lines|, before, net);
      var matched := After(schedule, middle, moves);
      AfterOne(schedule, matched, Broker(Close));
      ClosedIsResult(schedule, matched.place, before, net);
      assert ResultsFor(schedule, n, s, net) == ResultsFor(schedule, n - 1, s, net) + [ResultOf(o, before, net)];
    }
  }

  lemma ClosedIsResult(schedule: seq<Order>, at: Place, before: Shelf, net: Network)
    requires at.order < |schedule| && |at.items| == |schedule[at.order].lines|
    requires var o := schedule[at.order]; at.items == ItemsFor(o.lines, |o.lines|, SkipLabel(o), before, net)
    ensures Closed(schedule, at)
         == Place(at.order + 1, 0, [], at.results + [ResultOf(schedule[at.order], before, net)])
  {
    hide ItemsFor, StatusOf, CostOf, TotalFulfilled, TotalQuantity, AnyRejected;
  }
}
