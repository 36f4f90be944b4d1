/** The broker's item-by-item reservations against the single transaction they replaced. */
module Refinement {
  import opened Orders
  import opened Sorting
  import opened Database
  import opened Matching
  import opened Allocation
  import opened Statuses
  import Repository

  /** The orders the schema can store: one line per existing bread, in 32 bits. */
  predicate Comparable(o: Order, stock: Stock) {
    && FitsWire(o.lines) && DistinctBreads(o.lines)
    && forall l <- o.lines :: l.breadId in stock
  }

  /** What the transaction takes for a line that does not compete with other lines of its
      order. A negative quantity on a stocked bread takes less than nothing. */
  function Allot(line: Line, stock: Stock): int {
    if Available(stock, line.breadId) == 0 then 0 else Min(line.quantity, Available(stock, line.breadId))
  }

  /** No line makes the transaction add to a stocked bread. */
  predicate NothingAdded(o: Order, stock: Stock) {
    forall l <- o.lines :: l.quantity >= 0 || Available(stock, l.breadId) == 0
  }

  predicate OutOfStock(line: Line, stock: Stock) {
    Available(stock, line.breadId) == 0
  }

  /** If the transaction rejects the order, the broker does so as well: a line that asks
      for nothing, which only the broker skips, is not the only one out of stock. */
  predicate SameRefusal(o: Order, stock: Stock) {
    || o.allowPartial || o.skipUnavailable
    || (forall l <- o.lines :: OutOfStock(l, stock) ==> l.quantity > 0)
    || (exists l <- o.lines :: OutOfStock(l, stock) && l.quantity > 0)
  }

  function AllotBy(stock: Stock): Line -> int {
    (line: Line) => Allot(line, stock)
  }

  function Asked(line: Line): int {
    line.quantity
  }

  function Total(lines: seq<Line>, n: nat, weigh: Line -> int): int
    requires n <= |lines|
  {
    if n == 0 then 0 else Total(lines, n - 1, weigh) + weigh(lines[n - 1])
  }

  lemma {:induction false} TotalOfPrefix(lines: seq<Line>, more: seq<Line>, n: nat, weigh: Line -> int)
    requires n <= |lines|
    ensures Total(lines + more, n, weigh) == Total(lines, n, weigh)
  {
    if n > 0 {
      TotalOfPrefix(lines, more, n - 1, weigh);
    }
  }

  lemma {:induction false} InsertTotal(s: seq<Line>, x: Line, weigh: Line -> int)
    ensures |Insert(s, x, LowerId)| == |s| + 1
    ensures Total(Insert(s, x, LowerId), |s| + 1, weigh) == Total(s, |s|, weigh) + weigh(x)
  {
    if s == [] || !LowerId(x, s[|s| - 1]) {
      TotalOfPrefix(s, [x], |s|, weigh);
    } else {
      var front, last := s[..|s| - 1], s[|s| - 1];
      InsertTotal(front, x, weigh);
      TotalOfPrefix(Insert(front, x, LowerId), [last], |s|, weigh);
      TotalOfPrefix(front, [last], |front|, weigh);
      assert s == front + [last];
    }
  }

  /** Sorting into locking order changes no total. */
  lemma {:induction false} LockOrderTotal(lines: seq<Line>, weigh: Line -> int)
    ensures |LockOrder(lines)| == |lines|
    ensures Total(LockOrder(lines), |lines|, weigh) == Total(lines, |lines|, weigh)
  {
    if lines != [] {
      var front, last := lines[..|lines| - 1], lines[|lines| - 1];
      LockOrderTotal(front, weigh);
      InsertTotal(LockOrder(front), last, weigh);
      TotalOfPrefix(front, [last], |front|, weigh);
      assert lines == front + [last];
    }
  }

  lemma LockOrderMembers(lines: seq<Line>)
    ensures forall l :: l in LockOrder(lines) <==> l in lines
  {
    LowerIdIsStrictWeak();
    InsertionSortSorts(lines, LowerId);
    forall l ensures l in LockOrder(lines) <==> l in lines {
      assert l in multiset(LockOrder(lines)) <==> l in multiset(lines);
    }
  }

  predicate Ascending(lines: seq<Line>) {
    forall i, j :: 0 <= i < j < |lines| ==> lines[i].breadId < lines[j].breadId
  }

  predicate AllBelow(lines: seq<Line>, bread: int) {
    forall k :: 0 <= k < |lines| ==> lines[k].breadId < bread
  }

  lemma {:induction false} InsertBelow(s: seq<Line>, x: Line, bread: int)
    requires AllBelow(s, bread) && x.breadId < bread
    ensures AllBelow(Insert(s, x, LowerId), bread)
  {
    if s != [] {
      InsertBelow(s[..|s| - 1], x, bread);
    }
  }

  lemma {:induction false} InsertAscends(s: seq<Line>, x: Line)
    requires Ascending(s) && forall k :: 0 <= k < |s| ==> s[k].breadId != x.breadId
    ensures Ascending(Insert(s, x, LowerId))
  {
    if s != [] && LowerId(x, s[|s| - 1]) {
      InsertAscends(s[..|s| - 1], x);
      InsertBelow(s[..|s| - 1], x, s[|s| - 1].breadId);
    }
  }

  /** Distinct breads stay distinct, so they are locked in strictly ascending order. */
  lemma {:induction false} LockOrderAscends(lines: seq<Line>)
    requires DistinctBreads(lines)
    ensures Ascending(LockOrder(lines))
  {
    if lines != [] {
      var front, last := lines[..|lines| - 1], lines[|lines| - 1];
      LockOrderAscends(front);
      LockOrderMembers(front);
      forall k | 0 <= k < |LockOrder(front)| ensures LockOrder(front)[k].breadId != last.breadId {
        assert LockOrder(front)[k] in front;
      }
      InsertAscends(LockOrder(front), last);
    }
  }

  // ---------------------------------------------------------------- the transaction

  function TxLabel(line: Line, stock: Stock, o: Order): ItemStatus {
    if Available(stock, line.breadId) == 0 then SkipLabel(o)
    else if Allot(line, stock) < line.quantity then PartiallyFulfilled
    else Fulfilled
  }

  function TxDetail(line: Line, stock: Stock, o: Order): DetailWrite {
    DetailWrite(line.breadId,
                if Available(stock, line.breadId) == 0 then None else Some(Allot(line, stock)),
                TxLabel(line, stock, o))
  }

  predicate RowsWritten(lines: seq<Line>, n: nat, stock: Stock, writes: map<int, nat>)
    requires n <= |lines|
  {
    && (forall b <- writes :: exists k :: 0 <= k < n && lines[k].breadId == b)
    && (forall k :: 0 <= k < n ==>
          var b := lines[k].breadId;
          (b in stock && b in writes ==> writes[b] == stock[b] - Allot(lines[k], stock))
          && (b in stock && b !in writes ==> stock[b] == 0))
  }

  /** One more line, on a row the transaction has not written yet. */
  lemma FreshLine(o: Order, line: Line, stock: Stock, w: Work)
    requires line.breadId in stock && line.breadId !in w.writes
    ensures FulfillLine(o, line, stock, w).Some?
    ensures var r := FulfillLine(o, line, stock, w).value;
            && r.details == w.details + [TxDetail(line, stock, o)]
            && r.requested == w.requested + Asked(line)
            && r.fulfilled == w.fulfilled + Allot(line, stock)
            && (r.rejected <==> w.rejected || (SkipLabel(o) == Rejected && stock[line.breadId] == 0))
            && r.writes == if stock[line.breadId] == 0 then w.writes
                           else w.writes[line.breadId := stock[line.breadId] - Allot(line, stock)]
  {
  }

  predicate Fulfillable(lines: seq<Line>, stock: Stock) {
    Ascending(lines) && forall k :: 0 <= k < |lines| ==> lines[k].breadId in stock
  }

  lemma {:induction false} TransactionWrites(o: Order, lines: seq<Line>, n: nat, stock: Stock)
    requires n <= |lines| && Fulfillable(lines, stock)
    ensures FulfillLines(o, lines, n, stock).Some?
    ensures RowsWritten(lines, n, stock, FulfillLines(o, lines, n, stock).value.writes)
  {
    hide FulfillLine, TxDetail, SkipLabel;
    if n > 0 {
      TransactionWrites(o, lines, n - 1, stock);
      FreshLine(o, lines[n - 1], stock, FulfillLines(o, lines, n - 1, stock).value);
    }
  }

  lemma {:induction false} TransactionNotes(o: Order, lines: seq<Line>, n: nat, stock: Stock)
    requires n <= |lines| && Fulfillable(lines, stock)
    ensures FulfillLines(o, lines, n, stock).Some?
    ensures var w := FulfillLines(o, lines, n, stock).value;
            && |w.details| == n && (forall k :: 0 <= k < n ==> w.details[k] == TxDetail(lines[k], stock, o))
            && (w.rejected <==> SkipLabel(o) == Rejected && exists k :: 0 <= k < n && stock[lines[k].breadId] == 0)
  {
    hide FulfillLine, TxDetail, SkipLabel, Allot;
    if n > 0 {
      TransactionNotes(o, lines, n - 1, stock);
      TransactionWrites(o, lines, n - 1, stock);
      FreshLine(o, lines[n - 1], stock, FulfillLines(o, lines, n - 1, stock).value);
    }
  }

  lemma {:induction false} TransactionTotals(o: Order, lines: seq<Line>, n: nat, stock: Stock)
    requires n <= |lines| && Fulfillable(lines, stock)
    ensures FulfillLines(o, lines, n, stock).Some?
    ensures FulfillLines(o, lines, n, stock).value.requested == Total(lines, n, Asked)
    ensures FulfillLines(o, lines, n, stock).value.fulfilled == Total(lines, n, AllotBy(stock))
  {
    hide FulfillLine, TxDetail, SkipLabel, Allot, Asked;
    if n > 0 {
      TransactionTotals(o, lines, n - 1, stock);
      TransactionWrites(o, lines, n - 1, stock);
      FreshLine(o, lines[n - 1], stock, FulfillLines(o, lines, n - 1, stock).value);
    }
  }

  /** Also for lines that repeat a bread, which only the transaction's reading of its own
      writes keeps apart: what is left of a bread is what the demand for it does not use up. */
  lemma {:induction false} TransactionLeaves(o: Order, lines: seq<Line>, n: nat, stock: Stock, bread: int)
    requires n <= |lines| && FitsWire(lines) && NoNegative(lines) && forall l <- lines :: l.breadId in stock
    ensures FulfillLines(o, lines, n, stock).Some?
    ensures var after := stock + FulfillLines(o, lines, n, stock).value.writes;
            && after.Keys == stock.Keys
            && Available(after, bread) == Max(0, Available(stock, bread) - Demand(lines, n, bread))
  {
    hide FulfillLine, SkipLabel;
    if n == 0 {
      assert stock + NO_WORK.writes == stock;
    } else {
      TransactionLeaves(o, lines, n - 1, stock, bread);
      assert lines[n - 1] in lines;
      LineTakes(o, lines[n - 1], stock, FulfillLines(o, lines, n - 1, stock).value, bread);
    }
  }

  lemma LineTakes(o: Order, line: Line, stock: Stock, w: Work, bread: int)
    requires line.breadId in stock && line.quantity >= 0 && (stock + w.writes).Keys == stock.Keys
    ensures FulfillLine(o, line, stock, w).Some?
    ensures var before, after := stock + w.writes, stock + FulfillLine(o, line, stock, w).value.writes;
            && after.Keys == stock.Keys
            && Available(after, bread)
               == Max(0, Available(before, bread) - if line.breadId == bread then line.quantity else 0)
  {
    assert (stock + w.writes)[line.breadId] == Read(stock, w.writes, line.breadId);
  }

  // ---------------------------------------------------------------- the broker

  lemma {:induction false} NoDemandYet(lines: seq<Line>, n: nat, k: nat)
    requires n <= k < |lines| && FitsWire(lines) && DistinctBreads(lines)
    ensures Demand(lines, n, lines[k].breadId) == 0
  {
    if n > 0 {
      NoDemandYet(lines, n - 1, k);
      assert lines[n - 1] in lines && lines[k] in lines;
    }
  }

  /** Without competition inside the order a line is granted its allotment. */
  lemma GrantIsAllotment(o: Order, k: nat, s: Shelf)
    requires Comparable(o, s.stock) && k < |o.lines|
    ensures Items(o, s, RELIABLE)[k].fulfilled == Max(0, Allot(o.lines[k], s.stock))
    ensures NothingAdded(o, s.stock) ==> Items(o, s, RELIABLE)[k].fulfilled == Allot(o.lines[k], s.stock)
  {
    hide CallFor, ServeLines, Demand;
    assert o.lines[k] in o.lines;
    GrantIsShare(o.lines, k, s);
    NoDemandYet(o.lines, k, k);
  }

  lemma {:induction false} DemandOf(lines: seq<Line>, n: nat, bread: int)
    requires n <= |lines| && FitsWire(lines) && DistinctBreads(lines)
    ensures forall k :: 0 <= k < n && lines[k].breadId == bread ==>
              Demand(lines, n, bread) == Max(0, lines[k].quantity)
    ensures (forall k :: 0 <= k < n ==> lines[k].breadId != bread) ==> Demand(lines, n, bread) == 0
  {
    if n > 0 {
      DemandOf(lines, n - 1, bread);
      assert lines[n - 1] in lines;
    }
  }

  lemma {:induction false} BrokerTotals(o: Order, n: nat, s: Shelf)
    requires Comparable(o, s.stock) && NothingAdded(o, s.stock) && n <= |o.lines|
    ensures |Items(o, s, RELIABLE)| == |o.lines|
    ensures TotalFulfilled(Items(o, s, RELIABLE), n) == Total(o.lines, n, AllotBy(s.stock))
    ensures TotalQuantity(o.lines, n) == Total(o.lines, n, Asked)
  {
    hide CallFor, ServeLines, Allot;
    if n > 0 {
      BrokerTotals(o, n - 1, s);
      GrantIsAllotment(o, n - 1, s);
    }
  }

  lemma LockOrderFulfillable(o: Order, stock: Stock)
    requires Comparable(o, stock)
    ensures Fulfillable(LockOrder(o.lines), stock) && |LockOrder(o.lines)| == |o.lines|
    ensures forall l :: l in LockOrder(o.lines) <==> l in o.lines
  {
    hide InsertionSort;
    LockOrderMembers(o.lines);
    LockOrderAscends(o.lines);
    LockOrderTotal(o.lines, Asked);
    forall k | 0 <= k < |LockOrder(o.lines)| ensures LockOrder(o.lines)[k].breadId in stock {
      assert LockOrder(o.lines)[k] in o.lines;
    }
  }

  lemma BrokerRow(o: Order, s: Shelf, bread: int)
    requires Comparable(o, s.stock)
    ensures ServeLines(o.lines, |o.lines|, s, RELIABLE).stock.Keys == s.stock.Keys
    ensures forall l <- o.lines :: l.breadId == bread ==>
              Available(ServeLines(o.lines, |o.lines|, s, RELIABLE).stock, bread)
              == Available(s.stock, bread) - Max(0, Allot(l, s.stock))
    ensures (forall l <- o.lines :: l.breadId != bread) ==>
              Available(ServeLines(o.lines, |o.lines|, s, RELIABLE).stock, bread) == Available(s.stock, bread)
  {
    hide CallFor, Demand, ServeLines;
    LinesLeave(o.lines, |o.lines|, s, bread);
    assert forall k :: 0 <= k < |o.lines| ==> o.lines[k] in o.lines;
    DemandOf(o.lines, |o.lines|, bread);
  }

  lemma TransactionRow(o: Order, lines: seq<Line>, stock: Stock, bread: int)
    requires Fulfillable(lines, stock)
    ensures FulfillLines(o, lines, |lines|, stock).Some?
    ensures var after := stock + FulfillLines(o, lines, |lines|, stock).value.writes;
            && after.Keys == stock.Keys
            && (forall l <- lines :: l.breadId == bread ==>
                  Available(after, bread) == Available(stock, bread) - Allot(l, stock))
            && ((forall l <- lines :: l.breadId != bread) ==> Available(after, bread) == Available(stock, bread))
  {
    hide FulfillLine, FulfillLines;
    TransactionWrites(o, lines, |lines|, stock);
    var writes := FulfillLines(o, lines, |lines|, stock).value.writes;
    forall b | b in writes ensures b in stock {
      var k :| 0 <= k < |lines| && lines[k].breadId == b;
    }
    assert (stock + writes).Keys == stock.Keys + writes.Keys;
  }

  /** The two paths leave the same stock exactly if the transaction adds to none. */
  lemma SameStockIff(o: Order, s: Shelf)
    requires Comparable(o, s.stock)
    ensures FulfillLines(o, LockOrder(o.lines), |LockOrder(o.lines)|, s.stock).Some?
    ensures s.stock + FulfillLines(o, LockOrder(o.lines), |LockOrder(o.lines)|, s.stock).value.writes
         == ServeLines(o.lines, |o.lines|, s, RELIABLE).stock
       <==> NothingAdded(o, s.stock)
  {
    hide FulfillLines, ServeLines, InsertionSort, Allot;
    LockOrderFulfillable(o, s.stock);
    var locked := LockOrder(o.lines);
    TransactionRow(o, locked, s.stock, 0);
    BrokerRow(o, s, 0);
    var a := s.stock + FulfillLines(o, locked, |locked|, s.stock).value.writes;
    var b := ServeLines(o.lines, |o.lines|, s, RELIABLE).stock;
    forall bread | bread in a
      ensures a[bread] == b[bread] <==> forall l <- o.lines :: l.breadId == bread ==> Allot(l, s.stock) >= 0
    {
      TransactionRow(o, locked, s.stock, bread);
      BrokerRow(o, s, bread);
      assert a[bread] == Available(a, bread) && b[bread] == Available(b, bread);
    }
    forall l | l in o.lines ensures Allot(l, s.stock) >= 0 <==> l.quantity >= 0 || Available(s.stock, l.breadId) == 0 {
      AllotSign(l, s.stock);
    }
    if !NothingAdded(o, s.stock) {
      var l :| l in o.lines && l.quantity < 0 && Available(s.stock, l.breadId) != 0;
      assert a[l.breadId] != b[l.breadId];
    }
  }

  lemma AllotSign(l: Line, stock: Stock)
    ensures Allot(l, stock) >= 0 <==> l.quantity >= 0 || Available(stock, l.breadId) == 0
  {
  }

  /** The transaction rejects whatever the broker rejects, and more unless `SameRefusal`. */
  lemma SameRejectionIff(o: Order, s: Shelf)
    requires Comparable(o, s.stock)
    ensures FulfillLines(o, LockOrder(o.lines), |LockOrder(o.lines)|, s.stock).Some?
    ensures var rejected := FulfillLines(o, LockOrder(o.lines), |LockOrder(o.lines)|, s.stock).value.rejected;
            && (rejected ==> SkipLabel(o) == Rejected)
            && ((rejected <==> AnyRejected(Items(o, s, RELIABLE))) <==> SameRefusal(o, s.stock))
  {
    hide FulfillLines, ServeLines, InsertionSort, ItemsFor, AnyRejected;
    LockOrderFulfillable(o, s.stock);
    var locked, items := LockOrder(o.lines), Items(o, s, RELIABLE);
    TransactionNotes(o, locked, |locked|, s.stock);
    ItemsLength(o, s, RELIABLE);
    RejectedMeans(o, s, RELIABLE);
    forall k | 0 <= k < |o.lines|
      ensures o.lines[k].quantity > 0 ==> (items[k].fulfilled == 0 <==> OutOfStock(o.lines[k], s.stock))
    {
      GrantIsAllotment(o, k, s);
    }
    SomeLine(o.lines, locked, s.stock);
    RefusedLine(o.lines, items, s.stock);
  }

  lemma SomeLine(lines: seq<Line>, locked: seq<Line>, stock: Stock)
    requires forall l :: l in locked <==> l in lines
    requires forall l <- lines :: l.breadId in stock
    ensures (exists k :: 0 <= k < |locked| && locked[k].breadId in stock && stock[locked[k].breadId] == 0)
       <==> exists l <- lines :: OutOfStock(l, stock)
  {
    if k :| 0 <= k < |locked| && locked[k].breadId in stock && stock[locked[k].breadId] == 0 {
      assert locked[k] in lines && OutOfStock(locked[k], stock);
    }
    if l :| l in lines && OutOfStock(l, stock) {
      var k :| 0 <= k < |locked| && locked[k] == l;
    }
  }

  lemma RefusedLine(lines: seq<Line>, items: seq<LineResult>, stock: Stock)
    requires |items| == |lines|
    requires forall k :: 0 <= k < |lines| && lines[k].quantity > 0 ==>
               (items[k].fulfilled == 0 <==> OutOfStock(lines[k], stock))
    ensures SomethingRefused(lines, items) <==> exists l <- lines :: OutOfStock(l, stock) && l.quantity > 0
  {
    if SomethingRefused(lines, items) {
      var k :| 0 <= k < |lines| && lines[k].quantity > 0 && items[k].fulfilled == 0;
      assert lines[k] in lines;
    }
    if l :| l in lines && OutOfStock(l, stock) && l.quantity > 0 {
      var k :| 0 <= k < |lines| && lines[k] == l;
    }
  }

  /** The two paths leave the same stock and reach the same order status. */
  predicate Agree(o: Order, s: Shelf) {
    var w := FulfillLines(o, LockOrder(o.lines), |LockOrder(o.lines)|, s.stock);
    && w.Some?
    && s.stock + w.value.writes == ServeLines(o.lines, |o.lines|, s, RELIABLE).stock
    && StatusOf(w.value.rejected, o.allowPartial, w.value.fulfilled, w.value.requested)
       == ResultOf(o, s, RELIABLE).status
  }

  lemma SameTotals(o: Order, s: Shelf)
    requires Comparable(o, s.stock) && NothingAdded(o, s.stock)
    ensures var w, items := FulfillLines(o, LockOrder(o.lines), |LockOrder(o.lines)|, s.stock), Items(o, s, RELIABLE);
            && w.Some? && |items| == |o.lines|
            && w.value.requested == TotalQuantity(o.lines, |o.lines|)
            && w.value.fulfilled == TotalFulfilled(items, |items|)
  {
    hide FulfillLines, ServeLines, InsertionSort, ItemsFor, Total, TotalFulfilled, TotalQuantity;
    LockOrderFulfillable(o, s.stock);
    TransactionTotals(o, LockOrder(o.lines), |o.lines|, s.stock);
    LockOrderTotal(o.lines, Asked);
    LockOrderTotal(o.lines, AllotBy(s.stock));
    BrokerTotals(o, |o.lines|, s);
  }

  lemma StatusTellsRejection(a: bool, b: bool, allowPartial: bool, fulfilled: int, requested: int)
    requires a || b ==> !allowPartial
    ensures StatusOf(a, allowPartial, fulfilled, requested) == StatusOf(b, allowPartial, fulfilled, requested)
       <==> a == b
  {
  }

  /** On a reliable network, for every order that the schema can store and every stock:
      reserving item by item in the buyer's order leaves the stock and reaches the order
      status of the transaction that locks the breads in ascending order, exactly if no
      line with a negative quantity meets a stocked bread, and no line that asks for
      nothing or less is alone in being out of stock while both flags are off. */
  lemma AgreeIff(o: Order, s: Shelf)
    requires Comparable(o, s.stock)
    ensures Agree(o, s) <==> NothingAdded(o, s.stock) && SameRefusal(o, s.stock)
  {
    hide FulfillLines, ServeLines, InsertionSort, ItemsFor, AnyRejected, TotalFulfilled, TotalQuantity, CostOf,
         StatusOf, NothingAdded, SameRefusal, Comparable;
    SameStockIff(o, s);
    SameRejectionIff(o, s);
    if NothingAdded(o, s.stock) {
      SameTotals(o, s);
      var w, items := FulfillLines(o, LockOrder(o.lines), |LockOrder(o.lines)|, s.stock).value, Items(o, s, RELIABLE);
      RejectedMeans(o, s, RELIABLE);
      StatusTellsRejection(w.rejected, AnyRejected(items), o.allowPartial, w.fulfilled, w.requested);
    }
  }

  /** Orders that both paths treat alike: each line asks for something, or for nothing
      with one of the flags set. */
  predicate AsksEnough(o: Order) {
    forall l <- o.lines :: l.quantity > 0 || (l.quantity == 0 && (o.allowPartial || o.skipUnavailable))
  }

  lemma BrokerRefinesTransaction(o: Order, s: Shelf)
    requires Comparable(o, s.stock) && AsksEnough(o)
    ensures Agree(o, s)
  {
    hide Agree;
    AgreeIff(o, s);
  }

  predicate AllExist(o: Order, stock: Stock) {
    forall l <- o.lines :: l.breadId in stock
  }

  /** A stock with one unit of every bread of the order but `without`, of which there is none. */
  function OneOfEach(o: Order, without: set<int>): Stock {
    map b | b in (set l <- o.lines :: l.breadId) :: if b in without then 0 else 1
  }

  /** The two paths agree on every stock exactly for the orders that ask enough. */
  lemma AgreeOnEveryStockIff(o: Order)
    requires FitsWire(o.lines) && DistinctBreads(o.lines)
    ensures (forall stock: Stock :: AllExist(o, stock) ==> Agree(o, Shelf(stock, 0))) <==> AsksEnough(o)
  {
    hide Agree, NothingAdded, SameRefusal;
    if AsksEnough(o) {
      forall stock: Stock | AllExist(o, stock) ensures Agree(o, Shelf(stock, 0)) {
        BrokerRefinesTransaction(o, Shelf(stock, 0));
      }
    } else {
      var bad :| bad in o.lines
        && !(bad.quantity > 0 || (bad.quantity == 0 && (o.allowPartial || o.skipUnavailable)));
      var stock := OneOfEach(o, if bad.quantity < 0 then {} else {bad.breadId});
      assert AllExist(o, stock);
      OneOfEachDisagrees(o, bad);
      AgreeIff(o, Shelf(stock, 0));
    }
  }

  lemma OneOfEachDisagrees(o: Order, bad: Line)
    requires bad in o.lines && DistinctBreads(o.lines)
    requires bad.quantity < 0 || (bad.quantity == 0 && !o.allowPartial && !o.skipUnavailable)
    ensures bad.quantity < 0 ==> !NothingAdded(o, OneOfEach(o, {}))
    ensures bad.quantity == 0 ==> !SameRefusal(o, OneOfEach(o, {bad.breadId}))
  {
    var stock := OneOfEach(o, {bad.breadId});
    assert Available(OneOfEach(o, {}), bad.breadId) == 1;
    assert OutOfStock(bad, stock);
    forall l | l in o.lines && OutOfStock(l, stock) ensures l == bad {
      assert l.breadId == bad.breadId;
      var i :| 0 <= i < |o.lines| && o.lines[i] == l;
      var j :| 0 <= j < |o.lines| && o.lines[j] == bad;
    }
  }

  // ---------------------------------------------------------------- the stored details

  function Update(d: Detail, w: DetailWrite): Detail {
    d.(quantity := if w.quantity.Some? then w.quantity.value else d.quantity, status := w.status)
  }

  /** Of writes with distinct breads, a row gets the one for its bread and no other. */
  lemma {:induction false} WriteDetailsAt(details: seq<Detail>, ws: seq<DetailWrite>, d: nat, j: nat)
    requires d < |details| && j <= |ws|
    requires forall i, k :: 0 <= i < k < |ws| ==> ws[i].breadId != ws[k].breadId
    requires j < |ws| ==> ws[j].breadId == details[d].breadId
    requires j == |ws| ==> forall k :: 0 <= k < |ws| ==> ws[k].breadId != details[d].breadId
    ensures |WriteDetails(details, ws)| == |details|
    ensures WriteDetails(details, ws)[d] == if j < |ws| then Update(details[d], ws[j]) else details[d]
  {
    if ws != [] {
      WriteDetailsAt(details, ws[..|ws| - 1], d, if j < |ws| then j else |ws| - 1);
    }
  }

  /** What the transaction leaves in the stored detail row of line `k`, against what the
      broker reports for it. Both serve the same quantity; only the label differs for a
      partly served line, and for one that asks for nothing. */
  lemma SameItems(o: Order, k: nat, s: Shelf, orders: map<int, OrderRow>, d: nat)
    requires Comparable(o, s.stock) && k < |o.lines|
    requires o.id in orders && d < |orders[o.id].details| && orders[o.id].details[d].breadId == o.lines[k].breadId
    ensures FulfillLines(o, LockOrder(o.lines), |LockOrder(o.lines)|, s.stock).Some?
    ensures var w := FulfillLines(o, LockOrder(o.lines), |LockOrder(o.lines)|, s.stock).value;
            && o.id in SettleOrder(orders, o, w)
            && |SettleOrder(orders, o, w)[o.id].details| == |orders[o.id].details|
    ensures var w := FulfillLines(o, LockOrder(o.lines), |LockOrder(o.lines)|, s.stock).value;
            var before, after := orders[o.id].details[d], SettleOrder(orders, o, w)[o.id].details[d];
            var item, line := Items(o, s, RELIABLE)[k], o.lines[k];
            && after.breadId == item.breadId && after.price == before.price
            && (line.quantity > 0 && item.fulfilled == 0 ==>
                  after.quantity == before.quantity && after.status == item.status == SkipLabel(o))
            && (line.quantity > 0 && item.fulfilled > 0 ==>
                  && after.quantity == item.fulfilled && item.status == Fulfilled
                  && after.status == if item.fulfilled < line.quantity then PartiallyFulfilled else Fulfilled)
            && (line.quantity <= 0 && OutOfStock(line, s.stock) ==>
                  after.quantity == before.quantity && after.status == SkipLabel(o) && item.status == Skipped)
            && (line.quantity <= 0 && !OutOfStock(line, s.stock) ==>
                  after.quantity == line.quantity && after.status == Fulfilled && item.status == Skipped)
  {
    hide FulfillLines, ServeLines, InsertionSort, CallFor, WriteDetails;
    LockOrderFulfillable(o, s.stock);
    var locked := LockOrder(o.lines);
    TransactionNotes(o, locked, |locked|, s.stock);
    var details := FulfillLines(o, locked, |locked|, s.stock).value.details;
    GrantIsAllotment(o, k, s);
    assert o.lines[k] in o.lines && o.lines[k] in locked;
    var j :| 0 <= j < |locked| && locked[j] == o.lines[k];
    assert details[j] == TxDetail(o.lines[k], s.stock, o);
    WriteDetailsAt(orders[o.id].details, details, d, j);
  }

  // ---------------------------------------------------------------- the stored status

  /** The row that a committed transaction leaves for its order. It keeps everything but
      status and details, and details for other breads; and it stores the status that the
      broker reports, for orders that add to no stock exactly if both refuse alike. No
      other order is touched, and none is created. */
  lemma StoredOrder(o: Order, s: Shelf, orders: map<int, OrderRow>)
    requires Comparable(o, s.stock)
    ensures FulfillLines(o, LockOrder(o.lines), |LockOrder(o.lines)|, s.stock).Some?
    ensures var w := FulfillLines(o, LockOrder(o.lines), |LockOrder(o.lines)|, s.stock).value;
            var after := SettleOrder(orders, o, w);
            && after.Keys == orders.Keys
            && (forall id <- orders :: id != o.id ==> after[id] == orders[id])
            && (o.id in orders ==>
                  && after[o.id].uuid == orders[o.id].uuid && after[o.id].customerId == orders[o.id].customerId
                  && SparesOthers(o, orders[o.id].details, after[o.id].details)
                  && (NothingAdded(o, s.stock) ==>
                        (after[o.id].status == ResultOf(o, s, RELIABLE).status <==> SameRefusal(o, s.stock))))
  {
    hide FulfillLines, ServeLines, InsertionSort, ItemsFor, StatusOf, ResultOf, NothingAdded, SameRefusal, Fulfillable,
         WriteDetails;
    LockOrderFulfillable(o, s.stock);
    var locked := LockOrder(o.lines);
    TransactionNotes(o, locked, |locked|, s.stock);
    AgreeIff(o, s);
    SameStockIff(o, s);
    if o.id in orders {
      OthersSpared(o, orders[o.id].details, FulfillLines(o, locked, |locked|, s.stock).value.details, s.stock);
    }
  }

  /** Details for breads that the order does not name stay as they are. */
  predicate SparesOthers(o: Order, before: seq<Detail>, after: seq<Detail>) {
    && |after| == |before|
    && forall d :: 0 <= d < |before| && (forall l <- o.lines :: l.breadId != before[d].breadId) ==>
         after[d] == before[d]
  }

  lemma OthersSpared(o: Order, details: seq<Detail>, ws: seq<DetailWrite>, stock: Stock)
    requires Comparable(o, stock) && |ws| == |LockOrder(o.lines)|
    requires forall k :: 0 <= k < |ws| ==> ws[k] == TxDetail(LockOrder(o.lines)[k], stock, o)
    ensures SparesOthers(o, details, WriteDetails(details, ws))
  {
    hide InsertionSort, WriteDetails, Allot;
    LockOrderFulfillable(o, stock);
    var locked := LockOrder(o.lines);
    Repository.WriteDetailsBreads(details, ws);
    forall d | 0 <= d < |details| && (forall l <- o.lines :: l.breadId != details[d].breadId)
      ensures WriteDetails(details, ws)[d] == details[d]
    {
      forall k | 0 <= k < |ws| ensures ws[k].breadId != details[d].breadId {
        assert locked[k] in o.lines;
      }
      Repository.UnnamedDetails(details, ws, d);
    }
  }

  lemma {:induction false} AllotTotalsTell(lines: seq<Line>, n: nat, stock: Stock)
    requires n <= |lines| && NoNegative(lines)
    ensures 0 <= Total(lines, n, AllotBy(stock)) <= Total(lines, n, Asked)
    ensures Total(lines, n, AllotBy(stock)) == Total(lines, n, Asked)
       <==> forall k :: 0 <= k < n ==> lines[k].quantity <= Available(stock, lines[k].breadId)
    ensures Total(lines, n, AllotBy(stock)) == 0
       <==> forall k :: 0 <= k < n ==> lines[k].quantity == 0 || OutOfStock(lines[k], stock)
    ensures Total(lines, n, Asked) == 0 <==> forall k :: 0 <= k < n ==> lines[k].quantity == 0
  {
    if n > 0 {
      AllotTotalsTell(lines, n - 1, stock);
      assert lines[n - 1] in lines;
    }
  }

  /** With both flags off, a single line that is out of stock rejects the order, even one
      that asks for nothing. */
  predicate Refuses(o: Order, stock: Stock) {
    !o.allowPartial && !o.skipUnavailable && exists l <- o.lines :: OutOfStock(l, stock)
  }

  /** Something was asked for, and of each bread there is as much as was asked for. */
  predicate AllThere(o: Order, stock: Stock) {
    && (exists l <- o.lines :: l.quantity > 0)
    && (forall l <- o.lines :: l.quantity <= Available(stock, l.breadId))
  }

  predicate NothingThere(o: Order, stock: Stock) {
    forall l <- o.lines :: l.quantity > 0 ==> OutOfStock(l, stock)
  }

  /** The stored status, read off the lines and the stock before the transaction. */
  lemma StoredStatusMeansStock(o: Order, stock: Stock, orders: map<int, OrderRow>)
    requires Comparable(o, stock) && o.id in orders
    ensures FulfillLines(o, LockOrder(o.lines), |LockOrder(o.lines)|, stock).Some?
    ensures var w := FulfillLines(o, LockOrder(o.lines), |LockOrder(o.lines)|, stock).value;
            var after := SettleOrder(orders, o, w);
            && o.id in after
            && var status := after[o.id].status;
            && (status == OrderRejected <==> Refuses(o, stock))
            && (NoNegative(o.lines) ==>
                  && (status == Processed <==> !Refuses(o, stock) && AllThere(o, stock))
                  && (status == OrderFailed <==> !Refuses(o, stock) && NothingThere(o, stock))
                  && (status == PartiallyProcessed <==>
                        !Refuses(o, stock) && !AllThere(o, stock) && !NothingThere(o, stock)))
  {
    hide FulfillLines, InsertionSort, Total, Allot, WriteDetails, NothingAdded, Fulfillable, TxDetail;
    LockOrderFulfillable(o, stock);
    var locked := LockOrder(o.lines);
    TransactionNotes(o, locked, |locked|, stock);
    TransactionTotals(o, locked, |locked|, stock);
    LockOrderTotal(o.lines, Asked);
    LockOrderTotal(o.lines, AllotBy(stock));
    SomeLine(o.lines, locked, stock);
    if NoNegative(o.lines) {
      AllotTotalsTell(o.lines, |o.lines|, stock);
      EveryLine(o.lines, stock);
    }
  }

  /** By index and by membership. */
  lemma EveryLine(lines: seq<Line>, stock: Stock)
    requires NoNegative(lines)
    ensures (forall k :: 0 <= k < |lines| ==> lines[k].quantity <= Available(stock, lines[k].breadId))
       <==> forall l <- lines :: l.quantity <= Available(stock, l.breadId)
    ensures (forall k :: 0 <= k < |lines| ==> lines[k].quantity == 0 || OutOfStock(lines[k], stock))
       <==> forall l <- lines :: l.quantity > 0 ==> OutOfStock(l, stock)
    ensures (forall k :: 0 <= k < |lines| ==> lines[k].quantity == 0) <==> !exists l <- lines :: l.quantity > 0
  {
    assert forall k :: 0 <= k < |lines| ==> lines[k] in lines;
    forall l | l in lines ensures exists k :: 0 <= k < |lines| && lines[k] == l {
    }
  }
}
