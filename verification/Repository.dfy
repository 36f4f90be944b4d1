/** The server's repository: the only writer of the tables. Each method is one call
    of the data layer; a call that fails leaves the tables as they were. */
module Repository {
  import opened Orders
  import opened Sorting
  import opened Database

  class PostgresRepository {
    var stock: Stock
    var orders: map<int, OrderRow>
    var customers: set<int>
    var outbox: seq<OutboxRow>
    var nextOrderId: int
    var nextOutboxId: int

    /** The schema's constraints: uuids and keys are unique. */
    ghost predicate Valid()
      reads this
    {
      && (forall id <- orders :: id < nextOrderId && DistinctDetails(orders[id].details))
      && (forall i, j :: i in orders && j in orders && i != j ==> orders[i].uuid != orders[j].uuid)
      && (forall k :: 0 <= k < |outbox| ==> outbox[k].id < nextOutboxId)
      && DistinctIds(outbox)
    }

    constructor (stock: Stock, customers: set<int>)
      ensures Valid()
      ensures this.stock == stock && this.customers == customers && orders == map[] && outbox == []
    {
      this.stock := stock;
      this.customers := customers;
      orders, outbox := map[], [];
      nextOrderId, nextOutboxId := 1, 1;
    }

    method FulfillOrderItem(bread: int, requested: int) returns (grant: Grant)
      requires Valid()
      modifies this`stock
      ensures Valid()
      ensures grant == NoSuchBread <==> bread !in old(stock)
      ensures grant.Granted? <==> bread in old(stock) && requested > 0 && old(stock)[bread] > 0
      ensures grant.Granted? ==>
                && grant.amount == Min(requested, old(stock)[bread])
                && stock == old(stock)[bread := old(stock)[bread] - grant.amount]
      ensures !grant.Granted? ==> stock == old(stock)
      ensures grant == ItemGrant(old(stock), bread, requested) && stock == AfterItem(old(stock), bread, requested)
    {
      if bread !in stock {
        return NoSuchBread;
      }
      var current := stock[bread];
      var fulfilled := requested;
      if fulfilled > current {
        fulfilled := current;
      }
      if fulfilled <= 0 {
        return InsufficientStock;
      }
      stock := stock[bread := stock[bread] - fulfilled];
      grant := Granted(fulfilled);
    }

    /** The per-line loop of `FulfillOrderTx`, on the transaction's own writes. */
    static method RunLines(o: Order, lines: seq<Line>, stock: Stock) returns (result: Option<Work>)
      ensures result == FulfillLines(o, lines, |lines|, stock)
    {
      var writes: map<int, nat>, details: seq<DetailWrite> := map[], [];
      var requested, fulfilled, rejected := 0, 0, false;
      for i := 0 to |lines|
        invariant Some(Work(writes, details, requested, fulfilled, rejected)) == FulfillLines(o, lines, i, stock)
      {
        var line := lines[i];
        requested := requested + line.quantity;
        if line.breadId !in stock {
          MissingLineFails(o, lines, i, |lines|, stock);
          return None;
        }
        var current := Read(stock, writes, line.breadId);
        if current == 0 {
          if o.skipUnavailable || o.allowPartial {
            details := details + [DetailWrite(line.breadId, None, Skipped)];
          } else {
            rejected := true;
            details := details + [DetailWrite(line.breadId, None, Rejected)];
          }
          continue;
        }
        var amount := line.quantity;
        if current < amount {
          amount := current;
        }
        writes := writes[line.breadId := current - amount];
        var status := Fulfilled;
        if amount < line.quantity {
          status := PartiallyFulfilled;
        }
        details := details + [DetailWrite(line.breadId, Some(amount), status)];
        fulfilled := fulfilled + amount;
      }
      result := Some(Work(writes, details, requested, fulfilled, rejected));
    }

    /** Locks, checks and deducts every line in ascending bread order, in one transaction. */
    method FulfillOrderTx(o: Order) returns (ok: bool)
      requires Valid()
      modifies this`stock, this`orders
      ensures Valid()
      ensures |LockOrder(o.lines)| == |o.lines|
      ensures match FulfillLines(o, LockOrder(o.lines), |o.lines|, old(stock))
              case None => !ok && stock == old(stock) && orders == old(orders)
              case Some(w) => ok && stock == old(stock) + w.writes && orders == SettleOrder(old(orders), o, w)
      ensures orders.Keys == old(orders).Keys && forall id <- orders :: id != o.id ==> orders[id] == old(orders)[id]
      ensures ok && o.id in orders ==>
                var w, row := FulfillLines(o, LockOrder(o.lines), |o.lines|, old(stock)).value, old(orders)[o.id];
                orders[o.id] == OrderRow(row.uuid, row.customerId,
                                         StatusOf(w.rejected, o.allowPartial, w.fulfilled, w.requested),
                                         WriteDetails(row.details, w.details))
    {
      hide FulfillLines, WriteDetails, StatusOf, InsertionSort, DistinctIds, DistinctDetails;
      var sorted := new Line[|o.lines|](i requires 0 <= i < |o.lines| => o.lines[i]);
      assert sorted[..] == o.lines;
      LowerIdIsStrictWeak();
      SortSlice(sorted, LowerId);
      var result := RunLines(o, sorted[..], stock);
      if result.None? {
        return false;
      }
      var w := result.value;
      WriteDetailsKeepBreads(o, w, orders);
      stock := stock + w.writes;
      orders := SettleOrder(orders, o, w);
      ok := true;
    }

    method FetchQuantity(bread: int) returns (quantity: Option<nat>)
      ensures quantity == if bread in stock then Some(stock[bread]) else None
    {
      quantity := if bread in stock then Some(stock[bread]) else None;
    }

    method StoreQuantity(bread: int, quantity: nat)
      requires Valid()
      modifies this`stock
      ensures Valid() && stock == Written(old(stock), bread, quantity)
      ensures stock == if bread in old(stock) then old(stock)[bread := quantity] else old(stock)
    {
      if bread in stock {
        stock := stock[bread := quantity];
      }
    }

    /** Two statements, here with nothing in between. `counted` says that all of the
        change was stored. */
    method AdjustBreadQuantity(bread: int, change: int) returns (counted: bool, error: Option<AdjustError>)
      requires Valid()
      modifies this`stock
      ensures Valid() && stock == AdjustStock(old(stock), bread, change)
      ensures bread in old(stock) && old(stock)[bread] + change >= 0 ==>
                stock == old(stock)[bread := Min(100, old(stock)[bread] + change)]
      ensures error.Some? ==> stock == old(stock)
      ensures error.None? <==> bread in old(stock) && old(stock)[bread] + change >= 0
      ensures error == Some(UnknownBread) <==> bread !in old(stock)
      ensures error == Some(TooLittleStock) <==> bread in old(stock) && old(stock)[bread] + change < 0
      ensures counted <==> error.None? && stock[bread] == old(stock)[bread] + change
    {
      var current := FetchQuantity(bread);
      if current.None? {
        return false, Some(UnknownBread);
      }
      counted := true;
      var newQuantity := current.value + change;
      if newQuantity < 0 {
        return false, Some(TooLittleStock);
      }
      if newQuantity > 100 {
        newQuantity := 100;
        counted := false;
      }
      StoreQuantity(bread, newQuantity);
      error := None;
    }

    /** Stores a new order and its details, or nothing. The id sequence moves on either way. */
    method InsertBuyOrder(uuid: string, customer: int, lines: seq<Line>) returns (id: Option<int>)
      requires Valid()
      modifies this`orders, this`nextOrderId
      ensures Valid() && nextOrderId == old(nextOrderId) + 1
      ensures id.Some? <==> Admitted(stock, old(orders), customers, uuid, customer, lines)
      ensures id.Some? <==> Insertable(stock, old(orders), customers, uuid, customer, lines)
      ensures id.None? ==> orders == old(orders)
      ensures id.Some? ==>
                && id.value == old(nextOrderId) && id.value !in old(orders)
                && orders == old(orders)[id.value := OrderRow(uuid, customer, Processing, NewDetails(lines))]
      ensures id.Some? ==> IsNewRow(orders[id.value], uuid, customer, lines)
    {
      hide Admitted, IsNewRow, DistinctIds, NewDetails, DistinctBreads, FitsPriceColumn;
      AdmittedIff(stock, orders, customers, uuid, customer, lines);
      NewRowIsNew(uuid, customer, lines);
      NewRowIsDistinct(lines);
      NoDetails();
      var newId := nextOrderId;
      nextOrderId := nextOrderId + 1;
      if customer !in customers || |uuid| > UUID_LIMIT || UuidTaken(orders, uuid) {
        return None;
      }
      var details: seq<Detail> := [];
      for i := 0 to |lines|
        invariant orders == old(orders) && nextOrderId == newId + 1
        invariant details == NewDetails(lines[..i])
        invariant DistinctBreads(lines[..i])
        invariant forall k :: 0 <= k < i ==> lines[k].breadId in stock && FitsPriceColumn(lines[k].price)
      {
        var line := lines[i];
        NextBread(lines, i);
        if line.breadId !in stock || !FitsPriceColumn(line.price) || exists d <- details :: d.breadId == line.breadId {
          assert line in lines;
          return None;
        }
        NewDetailsNext(lines, i);
        details := details + [Detail(line.breadId, line.quantity, ToCents(line.price), Pending)];
      }
      assert lines[..|lines|] == lines;
      orders := orders[newId := OrderRow(uuid, customer, Processing, details)];
      id := Some(newId);
    }

    method GetBuyOrderByUUID(uuid: string) returns (id: Option<int>)
      ensures id.Some? <==> UuidTaken(orders, uuid)
      ensures id.Some? ==> id.value in orders && orders[id.value].uuid == uuid
    {
      if k :| k in orders && orders[k].uuid == uuid {
        id := Some(k);
      } else {
        id := None;
      }
    }

    /** The sum of price times quantity over the order's details; 0 for an unknown order. */
    method GetOrderTotalCost(orderId: int) returns (total: real)
      ensures total == if orderId in orders then DetailsCost(orders[orderId].details) else 0.0
    {
      total := 0.0;
      if orderId in orders {
        var details := orders[orderId].details;
        for i := 0 to |details|
          invariant total == DetailsCost(details[..i])
        {
          assert details[..i + 1][..i] == details[..i];
          var amount := details[i].price * details[i].quantity as real;
          assert amount == LineCost(details[i].quantity, details[i].price);
          total := total + amount;
        }
        assert details[..|details|] == details;
      }
    }

    /** Flips the oldest unsent message to sent and returns it. */
    method ClaimOutboxMessage() returns (message: Option<OutboxRow>)
      requires Valid()
      modifies this`outbox
      ensures Valid()
      ensures message.None? ==> outbox == old(outbox) && forall row <- outbox :: row.sent
      ensures message.Some? ==>
                exists k :: Claimable(old(outbox), k) &&
                          outbox == MarkSent(old(outbox), k) && message.value == outbox[k]
    {
      var best := -1;
      for i := 0 to |outbox|
        invariant best == -1 ==> forall j :: 0 <= j < i ==> outbox[j].sent
        invariant best != -1 ==> 0 <= best < i && !outbox[best].sent
        invariant best != -1 ==>
                    forall j :: 0 <= j < i && !outbox[j].sent ==> outbox[best].createdAt <= outbox[j].createdAt
      {
        if !outbox[i].sent && (best == -1 || outbox[i].createdAt < outbox[best].createdAt) {
          best := i;
        }
      }
      if best == -1 {
        return None;
      }
      assert Claimable(outbox, best);
      outbox := MarkSent(outbox, best);
      message := Some(outbox[best]);
    }

    /** A failing delete is logged and swallowed: the caller cannot tell. */
    method DeleteOutboxMessage(id: int, databaseFails: bool)
      requires Valid()
      modifies this`outbox
      ensures Valid()
      ensures outbox == if databaseFails then old(outbox) else RemoveRow(old(outbox), id)
    {
      if !databaseFails {
        RemoveRowSelects(outbox, id);
        outbox := RemoveRow(outbox, id);
        assert forall k :: 0 <= k < |outbox| ==> outbox[k] in outbox;
      }
    }
  }

  lemma NewRowIsDistinct(lines: seq<Line>)
    ensures DistinctBreads(lines) ==> DistinctDetails(NewDetails(lines))
  {
    hide ToCents;
  }

  /** What the schema asks of a new order, limits written out. */
  predicate Admitted(stock: Stock, orders: map<int, OrderRow>, customers: set<int>,
                     uuid: string, customer: int, lines: seq<Line>)
  {
    && customer in customers && |uuid| <= 255
    && (forall id <- orders :: orders[id].uuid != uuid)
    && (forall i, j :: 0 <= i < j < |lines| ==> lines[i].breadId != lines[j].breadId)
    && (forall l <- lines :: l.breadId in stock && -100000000.0 < ToCents(l.price) < 100000000.0)
  }

  lemma AdmittedIff(stock: Stock, orders: map<int, OrderRow>, customers: set<int>,
                    uuid: string, customer: int, lines: seq<Line>)
    ensures Admitted(stock, orders, customers, uuid, customer, lines)
       <==> Insertable(stock, orders, customers, uuid, customer, lines)
  {
    hide ToCents;
  }

  /** One pending detail per line, in order, at the price that the column holds. */
  predicate IsNewRow(row: OrderRow, uuid: string, customer: int, lines: seq<Line>) {
    && row.uuid == uuid && row.customerId == customer && row.status == Processing && |row.details| == |lines|
    && forall k :: 0 <= k < |lines| ==>
         row.details[k] == Detail(lines[k].breadId, lines[k].quantity, ToCents(lines[k].price), Pending)
  }

  lemma NewRowIsNew(uuid: string, customer: int, lines: seq<Line>)
    ensures IsNewRow(OrderRow(uuid, customer, Processing, NewDetails(lines)), uuid, customer, lines)
  {
    hide ToCents;
  }

  lemma NewDetailsNext(lines: seq<Line>, i: nat)
    requires i < |lines|
    ensures NewDetails(lines[..i + 1])
         == NewDetails(lines[..i]) + [Detail(lines[i].breadId, lines[i].quantity, ToCents(lines[i].price), Pending)]
  {
    hide ToCents;
  }

  /** The next line's bread is among the details so far exactly if it is not a new one. */
  lemma NextBread(lines: seq<Line>, i: nat)
    requires i < |lines|
    ensures DistinctBreads(lines[..i + 1])
       <==> DistinctBreads(lines[..i]) && !exists d <- NewDetails(lines[..i]) :: d.breadId == lines[i].breadId
    ensures !DistinctBreads(lines[..i + 1]) ==> !DistinctBreads(lines)
  {
    hide ToCents;
    var before := NewDetails(lines[..i]);
    assert forall k :: 0 <= k < i ==> before[k].breadId == lines[k].breadId && before[k] in before;
    if d :| d in before && d.breadId == lines[i].breadId {
      var k :| 0 <= k < i && before[k] == d;
      assert lines[..i + 1][k].breadId == lines[..i + 1][i].breadId;
    }
  }

  lemma NoDetails()
    ensures NewDetails([]) == [] && DistinctBreads([])
  {
  }

  ghost predicate DistinctDetails(details: seq<Detail>) {
    forall i, j :: 0 <= i < j < |details| ==> details[i].breadId != details[j].breadId
  }

  lemma {:induction false} MissingLineFails(o: Order, lines: seq<Line>, i: nat, n: nat, stock: Stock)
    requires i < n <= |lines| && lines[i].breadId !in stock
    ensures FulfillLines(o, lines, n, stock).None?
    decreases n
  {
    if i < n - 1 {
      MissingLineFails(o, lines, i, n - 1, stock);
    }
  }

  lemma {:induction false} WriteDetailsBreads(details: seq<Detail>, ws: seq<DetailWrite>)
    ensures |WriteDetails(details, ws)| == |details|
    ensures forall i :: 0 <= i < |details| ==> WriteDetails(details, ws)[i].breadId == details[i].breadId
  {
    if ws != [] {
      WriteDetailsBreads(details, ws[..|ws| - 1]);
    }
  }

  /** A detail row of a bread that no write names stays as it is. */
  lemma {:induction false} UnnamedDetails(details: seq<Detail>, ws: seq<DetailWrite>, d: nat)
    requires d < |details| && forall k :: 0 <= k < |ws| ==> ws[k].breadId != details[d].breadId
    ensures |WriteDetails(details, ws)| == |details| && WriteDetails(details, ws)[d] == details[d]
  {
    if ws != [] {
      UnnamedDetails(details, ws[..|ws| - 1], d);
    }
  }

  lemma WriteDetailsKeepBreads(o: Order, w: Work, orders: map<int, OrderRow>)
    requires forall id <- orders :: DistinctDetails(orders[id].details)
    ensures forall id <- SettleOrder(orders, o, w) :: DistinctDetails(SettleOrder(orders, o, w)[id].details)
  {
    if o.id in orders {
      WriteDetailsBreads(orders[o.id].details, w.details);
    }
  }
}
