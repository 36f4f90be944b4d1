/** The broker service: it buffers accepted orders, matches them in batches and reports
    the results, reaching the tables only through the server. */
module Broker {
  import opened Orders
  import opened Sorting
  import opened Database
  import opened Repository
  import opened BrokerServer
  import opened Priority
  import opened Matching
  import opened Statuses
  import Ingestion
  import Outbox

  /** Incoming orders waiting to be matched. */
  class OrderBuffer {
    var orders: seq<Order>

    constructor ()
      ensures orders == []
    {
      orders := [];
    }

    method Add(o: Order)
      modifies this
      ensures orders == old(orders) + [o]
    {
      orders := orders + [o];
    }

    method Drain() returns (batch: seq<Order>)
      modifies this
      ensures batch == old(orders) && orders == []
    {
      if |orders| == 0 {
        return [];
      }
      batch := orders;
      orders := [];
    }

    method Len() returns (n: nat)
      ensures n == |orders|
    {
      n := |orders|;
    }
  }

  /** How one attempt to report a batch ends. */
  datatype PostAttempt = NotSent | Served(failAt: nat, replyLost: bool)

  /** How many of the attempts commit a postable batch of `size` results, up to the first
      one whose confirmation comes back. */
  function Commits(attempts: seq<PostAttempt>, size: nat): nat {
    if attempts == [] then 0
    else if attempts[0].NotSent? || attempts[0].failAt <= 2 * size + 1 then Commits(attempts[1..], size)
    else if attempts[0].replyLost then 1 + Commits(attempts[1..], size)
    else 1
  }

  /** The attempt gets a postable batch of `size` results committed: the begin, two
      statements per result and the commit all succeed. */
  predicate CommitsBatch(a: PostAttempt, size: nat) {
    a.Served? && a.failAt > 2 * size + 1
  }

  /** The confirmation of the attempt comes back. */
  predicate Confirms(a: PostAttempt, size: nat) {
    CommitsBatch(a, size) && !a.replyLost
  }

  predicate SomeCommits(attempts: seq<PostAttempt>, size: nat) {
    exists k :: 0 <= k < |attempts| && CommitsBatch(attempts[k], size)
  }

  /** One of the first `n` attempts is confirmed. */
  predicate SomeConfirms(attempts: seq<PostAttempt>, n: nat, size: nat)
    requires n <= |attempts|
  {
    exists k :: 0 <= k < n && Confirms(attempts[k], size)
  }

  lemma NextConfirms(attempts: seq<PostAttempt>, n: nat, size: nat)
    requires 0 < n <= |attempts|
    ensures SomeConfirms(attempts, n, size) <==> SomeConfirms(attempts, n - 1, size) || Confirms(attempts[n - 1], size)
    ensures Confirms(attempts[n - 1], size) ==> SomeConfirms(attempts, |attempts|, size)
  {
    assert Confirms(attempts[n - 1], size) ==> SomeConfirms(attempts, n, size);
  }

  lemma NoneConfirmsYet(attempts: seq<PostAttempt>, size: nat)
    ensures !SomeConfirms(attempts, 0, size)
  {
  }

  /** How many of the first `n` attempts commit. */
  function CommitsAmong(attempts: seq<PostAttempt>, n: nat, size: nat): nat
    requires n <= |attempts|
  {
    if n == 0 then 0
    else CommitsAmong(attempts, n - 1, size) + if CommitsBatch(attempts[n - 1], size) then 1 else 0
  }

  lemma {:induction false} CommitsAmongNext(attempts: seq<PostAttempt>, n: nat, size: nat)
    requires 0 < n <= |attempts|
    ensures CommitsAmong(attempts, n, size)
         == (if CommitsBatch(attempts[0], size) then 1 else 0) + CommitsAmong(attempts[1..], n - 1, size)
  {
    if n > 1 {
      CommitsAmongNext(attempts, n - 1, size);
    }
  }

  /** A batch is committed by each attempt that can, up to the first one that is confirmed. */
  lemma {:induction false} CommitsUpTo(attempts: seq<PostAttempt>, size: nat, n: nat)
    requires n <= |attempts| && forall i :: 0 <= i < n - 1 ==> !Confirms(attempts[i], size)
    requires n == |attempts| || (n > 0 && Confirms(attempts[n - 1], size))
    ensures Commits(attempts, size) == CommitsAmong(attempts, n, size)
    decreases |attempts|
  {
    hide CommitsAmong;
    if n > 0 {
      CommitsAmongNext(attempts, n, size);
      if n > 1 {
        CommitsUpTo(attempts[1..], size, n - 1);
      } else if Confirms(attempts[0], size) {
        NoCommitsYet(attempts[1..], size);
      } else {
        CommitsUpTo(attempts[1..], size, 0);
      }
    } else {
      NoCommitsYet(attempts, size);
    }
  }

  lemma NoCommitsYet(attempts: seq<PostAttempt>, size: nat)
    ensures CommitsAmong(attempts, 0, size) == 0
  {
  }

  /** It is committed at all exactly if some attempt can. */
  lemma {:induction false} CommittedIff(attempts: seq<PostAttempt>, size: nat)
    ensures Commits(attempts, size) > 0 <==> SomeCommits(attempts, size)
  {
    if attempts != [] {
      CommittedIff(attempts[1..], size);
      if k :| 0 < k < |attempts| && CommitsBatch(attempts[k], size) {
        assert CommitsBatch(attempts[1..][k - 1], size);
      }
    }
  }

  class BrokerService {
    const server: BrokerServiceServer
    const buffer: OrderBuffer
    var calls: nat

    constructor (server: BrokerServiceServer)
      ensures this.server == server && fresh(buffer) && buffer.orders == [] && calls == 0
    {
      this.server := server;
      buffer := new OrderBuffer();
      calls := 0;
    }

    // ---------------------------------------------------------------- intake

    /** One message from the order queue. What cannot be read is acknowledged and dropped.
        An order is requeued when the server could not be made to answer, and acknowledged
        otherwise; only an accepted order is buffered. */
    method ProcessOneOrder(body: Option<Order>, attempts: seq<Ingestion.ReportAttempt>) returns (acked: bool)
      requires server.repo.Valid()
      modifies buffer, server.repo`orders, server.repo`nextOrderId
      ensures server.repo.Valid()
      ensures var repo := server.repo;
              var before := Ingestion.Intake(Ingestion.Book(old(repo.orders), old(repo.nextOrderId)),
                                            old(buffer.orders), []);
              var event := if body.None? then Ingestion.Garbled
                           else Ingestion.Deliver(body.value, Ingestion.World(repo.stock, repo.customers), attempts);
              Ingestion.Handle(before, event)
              == Ingestion.Intake(Ingestion.Book(repo.orders, repo.nextOrderId), buffer.orders, [])
      ensures body.None? ==>
                acked && buffer.orders == old(buffer.orders) && server.repo.orders == old(server.repo.orders)
      ensures body.Some? && UuidTaken(old(server.repo.orders), body.value.uuid) ==>
                && (acked <==> Ingestion.FoundBy(attempts, 0))
                && buffer.orders == old(buffer.orders) && server.repo.orders == old(server.repo.orders)
      ensures && body.Some? && !UuidTaken(old(server.repo.orders), body.value.uuid)
              && (|| !Ingestion.Acceptable(body.value, server.repo.stock, server.repo.customers)
                  || forall j :: !Ingestion.FirstInsert(attempts, j))
              ==> !acked && buffer.orders == old(buffer.orders) && server.repo.orders == old(server.repo.orders)
      ensures && body.Some? && !UuidTaken(old(server.repo.orders), body.value.uuid)
              && Ingestion.Acceptable(body.value, server.repo.stock, server.repo.customers)
              ==> forall j :: Ingestion.FirstInsert(attempts, j) ==>
                    && Ingestion.AddsRow(old(server.repo.orders), server.repo.orders,
                                         old(server.repo.nextOrderId), body.value)
                    && (acked <==> !attempts[j].replyLost || Ingestion.FoundBy(attempts, j + 1))
                    && buffer.orders
                       == old(buffer.orders)
                          + if attempts[j].replyLost then []
                            else if ToInt32(body.value.id) > 0 then [body.value]
                            else [body.value.(id := ToInt32(old(server.repo.nextOrderId)))]
    {
      hide Ingestion.Report, Ingestion.FoundBy, Ingestion.FirstInsert, Ingestion.AddsRow, Ingestion.Acceptable,
           Ingestion.Storable, UuidTaken, ToInt32;
      if body.None? {
        return true;
      }
      var o := body.value;
      ReportTells(Ingestion.Book(server.repo.orders, server.repo.nextOrderId), o,
                  Ingestion.World(server.repo.stock, server.repo.customers), attempts);
      var reply := ReportOrder(o, attempts);
      if reply.InternalError? {
        return false;
      }
      if reply.Duplicate? {
        return true;
      }
      var numbered := o;
      if ToInt32(o.id) <= 0 {
        numbered := o.(id := ToInt32(reply.id));
      }
      buffer.Add(numbered);
      acked := true;
    }

    /** The retried call behind it. */
    method ReportOrder(o: Order, attempts: seq<Ingestion.ReportAttempt>) returns (reply: Ingestion.Reply)
      requires server.repo.Valid()
      modifies server.repo`orders, server.repo`nextOrderId
      ensures server.repo.Valid()
      ensures Ingestion.Reported(Ingestion.Book(server.repo.orders, server.repo.nextOrderId), reply)
           == Ingestion.Report(Ingestion.Book(old(server.repo.orders), old(server.repo.nextOrderId)), o,
                               Ingestion.World(server.repo.stock, server.repo.customers), attempts)
    {
      hide Ingestion.Serve;
      var repo := server.repo;
      ghost var world := Ingestion.World(repo.stock, repo.customers);
      ghost var goal := Ingestion.Report(Ingestion.Book(repo.orders, repo.nextOrderId), o, world, attempts);
      var i := 0;
      while i < |attempts|
        invariant 0 <= i <= |attempts| && repo.Valid()
        invariant Ingestion.Report(Ingestion.Book(repo.orders, repo.nextOrderId), o, world, attempts[i..]) == goal
      {
        var a := attempts[i];
        assert attempts[i..][0] == a && attempts[i..][1..] == attempts[i + 1..];
        i := i + 1;
        if a.Served? {
          ghost var book := Ingestion.Book(repo.orders, repo.nextOrderId);
          var r := server.ReportOrder(o, a.lookupFails, a.insertFails);
          ReplyFateIrrelevant(book, o, world, a);
          if !a.replyLost && !r.InternalError? {
            return r;
          }
        }
      }
      reply := Ingestion.InternalError;
    }

    // ---------------------------------------------------------------- matching

    /** A reservation with its retries; 0 stands for "not reserved" and for an error. */
    method ReserveInventory(bread: int, requested: int, attempts: seq<Attempt>) returns (granted: int)
      requires server.repo.Valid()
      modifies server.repo`stock
      ensures server.repo.Valid()
      ensures var call := Reserve(old(server.repo.stock), bread, requested, attempts);
              server.repo.stock == call.stock && granted == call.granted
    {
      var repo := server.repo;
      ghost var goal := Reserve(repo.stock, bread, requested, attempts);
      var i := 0;
      while i < |attempts|
        invariant 0 <= i <= |attempts| && repo.Valid()
        invariant Reserve(repo.stock, bread, requested, attempts[i..]).stock == goal.stock
        invariant Reserve(repo.stock, bread, requested, attempts[i..]).granted == goal.granted
      {
        var a := attempts[i];
        assert attempts[i..][0] == a && attempts[i..][1..] == attempts[i + 1..];
        i := i + 1;
        if a != Refused {
          var reserved, fulfilled := server.ReserveInventory(bread, requested, a == DatabaseDown);
          if a != ReplyLost {
            return fulfilled;
          }
        }
      }
      granted := 0;
    }

    /** One line of an order: skipped, reserved, or labelled by the buyer's preferences. */
    method MatchLine(o: Order, line: Line, net: Network) returns (item: LineResult)
      requires server.repo.Valid()
      modifies this`calls, server.repo`stock
      ensures server.repo.Valid()
      ensures var s := Shelf(old(server.repo.stock), old(calls));
              && Shelf(server.repo.stock, calls) == ServeLine(line, s, net)
              && item == LineResult(ToInt32(line.breadId), ToInt32(line.quantity), CallFor(line, s, net).granted,
                                    Label(line, CallFor(line, s, net).granted, SkipLabel(o)))
    {
      hide Reserve, ToInt32;
      var bread, quantity := ToInt32(line.breadId), ToInt32(line.quantity);
      if line.quantity <= 0 {
        return LineResult(bread, quantity, 0, Skipped);
      }
      var granted := ReserveInventory(bread, quantity, AttemptsOf(net, calls));
      calls := calls + 1;
      if granted == 0 {
        var status := Rejected;
        if o.allowPartial || o.skipUnavailable {
          status := Skipped;
        }
        return LineResult(bread, quantity, 0, status);
      }
      item := LineResult(bread, quantity, granted, Fulfilled);
    }

    /** Matches one order line by line and labels it from the running totals. */
    method FulfillOrder(o: Order, net: Network) returns (result: OrderResult)
      requires server.repo.Valid()
      modifies this`calls, server.repo`stock
      ensures server.repo.Valid()
      ensures result == ResultOf(o, Shelf(old(server.repo.stock), old(calls)), net)
      ensures Shelf(server.repo.stock, calls)
           == ServeLines(o.lines, |o.lines|, Shelf(old(server.repo.stock), old(calls)), net)
      ensures Labelled(o, result)
    {
      hide CallFor, ServeLine, StatusOf, ToInt32, AnyRejected, Label, SkipLabel, TotalFulfilled, CostOf;
      var repo := server.repo;
      ghost var s, unserved := Shelf(repo.stock, calls), SkipLabel(o);
      var fulfilled, rejected, items, cost := 0, false, [], 0.0;
      NoTotals(o.lines);
      for i := 0 to |o.lines|
        invariant repo.Valid() && Shelf(repo.stock, calls) == ServeLines(o.lines, i, s, net)
        invariant items == ItemsFor(o.lines, i, unserved, s, net)
        invariant fulfilled == TotalFulfilled(items, i) && cost == CostOf(o.lines, items, i)
        invariant rejected == AnyRejected(items)
      {
        var item := MatchLine(o, o.lines[i], net);
        TotalsAppend(o.lines, items, item, i);
        items := items + [item];
        if item.status == Rejected {
          rejected := true;
        }
        fulfilled := fulfilled + item.fulfilled;
        assert item.fulfilled as real * o.lines[i].price == LineCost(item.fulfilled, o.lines[i].price);
        cost := cost + item.fulfilled as real * o.lines[i].price;
      }
      var status := OrderStatusFrom(rejected, o, fulfilled);
      result := OrderResult(o.uuid, status, items, cost);
      ResultIsLabelled(o, s, net);
    }

    method OrderStatusFrom(rejected: bool, o: Order, fulfilled: int) returns (status: OrderStatus)
      ensures status == StatusOf(rejected, o.allowPartial, fulfilled, TotalQuantity(o.lines, |o.lines|))
      ensures status == OrderRejected <==> rejected && !o.allowPartial
      ensures status == Processed <==>
                status != OrderRejected && fulfilled == TotalQuantity(o.lines, |o.lines|) && fulfilled > 0
      ensures status == OrderFailed <==> status != OrderRejected && status != Processed && fulfilled <= 0
      ensures status == PartiallyProcessed <==> status != OrderRejected && status != Processed && fulfilled > 0
    {
      var requested := 0;
      for i := 0 to |o.lines|
        invariant requested == TotalQuantity(o.lines, i)
      {
        requested := requested + o.lines[i].quantity;
      }
      if rejected && !o.allowPartial {
        status := OrderRejected;
      } else if fulfilled == requested && requested > 0 {
        status := Processed;
      } else if fulfilled > 0 {
        status := PartiallyProcessed;
      } else {
        status := OrderFailed;
      }
    }

    /** Reports a batch, with retries, until a confirmation comes back. */
    method PostResults(results: seq<OrderResult>, now: int, attempts: seq<PostAttempt>) returns (confirmed: bool)
      requires server.repo.Valid() && Postable(server.repo.orders, results)
      modifies server.repo`orders, server.repo`outbox, server.repo`nextOutboxId
      ensures server.repo.Valid()
      ensures Outbox.Payloads(server.repo.outbox)
           == Outbox.Payloads(old(server.repo.outbox)) + Outbox.Copies(results, Commits(attempts, |results|))
      ensures server.repo.orders == if Commits(attempts, |results|) == 0 then old(server.repo.orders)
                                    else PostStatuses(old(server.repo.orders), results, |results|)
      ensures confirmed <==> SomeConfirms(attempts, |attempts|, |results|)
      ensures server.repo.orders == if SomeCommits(attempts, |results|)
                                    then PostStatuses(old(server.repo.orders), results, |results|)
                                    else old(server.repo.orders)
    {
      hide PostStatuses, UuidTaken, SomeCommits, SomeConfirms, Postable, Outbox.Copies, Outbox.Payloads,
           NewOutboxRows, DistinctIds;
      CommittedIff(attempts, |results|);
      NoneConfirmsYet(attempts, |results|);
      var repo := server.repo;
      ghost var size, posted := |results|, PostStatuses(repo.orders, results, |results|);
      ghost var goal := Outbox.Payloads(repo.outbox) + Outbox.Copies(results, Commits(attempts, size));
      ghost var done := 0;
      Outbox.PostingTwiceIsPostingOnce(repo.orders, results);
      PostableStays(repo.orders, results);
      for i := 0 to |attempts|
        invariant repo.Valid() && Postable(repo.orders, results)
        invariant done + Commits(attempts[i..], size) == Commits(attempts, size)
        invariant Outbox.Payloads(repo.outbox) + Outbox.Copies(results, Commits(attempts[i..], size)) == goal
        invariant repo.orders == if done == 0 then old(repo.orders) else posted
        invariant done >= 0
        invariant !SomeConfirms(attempts, i, size)
      {
        var a := attempts[i];
        assert attempts[i..][0] == a && attempts[i..][1..] == attempts[i + 1..];
        NextConfirms(attempts, i + 1, size);
        if a.Served? {
          ghost var outbox, firstId := repo.outbox, repo.nextOutboxId;
          var ok := server.ReportMatchingResults(results, now, a.failAt);
          if ok {
            NewPayloads(outbox, results, firstId, now);
            OneMoreCopy(Outbox.Payloads(outbox), results, Commits(attempts[i..], size));
            done := done + 1;
            if !a.replyLost {
              return true;
            }
          }
        }
      }
      assert attempts[|attempts|..] == [];
      OneMoreCopy(Outbox.Payloads(repo.outbox), results, 0);
      confirmed := false;
    }

    /** Sorts a batch in place, matches its orders one after the other and reports them together. */
    method ProcessMatchingBatch(batch: array<Order>, net: Network, now: int, attempts: seq<PostAttempt>)
      returns (results: seq<OrderResult>)
      requires server.repo.Valid()
      modifies batch, this`calls, server.repo
      ensures server.repo.Valid()
      ensures multiset(batch[..]) == multiset(old(batch[..])) && HighestFirst(batch[..])
      ensures batch[..] == InsertionSort(old(batch[..]), Outranks)
      ensures results == ResultsFor(batch[..], batch.Length, Shelf(old(server.repo.stock), old(calls)), net)
      ensures Shelf(server.repo.stock, calls)
           == ServeOrders(batch[..], batch.Length, Shelf(old(server.repo.stock), old(calls)), net)
      ensures Outbox.Payloads(server.repo.outbox)
           == Outbox.Payloads(old(server.repo.outbox)) + Outbox.Copies(results, Commits(attempts, batch.Length))
      ensures server.repo.orders == if Commits(attempts, batch.Length) == 0 then old(server.repo.orders)
                                    else PostStatuses(old(server.repo.orders), results, batch.Length)
    {
      hide ResultsFor, ServeOrders, Commits, Outbox.Copies, Outbox.Payloads, PostStatuses, UuidTaken, InsertionSort;
      NothingToPost(batch.Length, attempts, server.repo.orders);
      OutranksIsStrictWeak();
      SortSlice(batch, Outranks);
      SortedIsHighestFirst(old(batch[..]), batch[..]);
      results := MatchAll(batch, net);
      if batch.Length > 0 {
        var confirmed := PostResults(results, now, attempts);
      }
    }

    /** Matches the orders of a sorted batch one after the other. */
    method MatchAll(batch: array<Order>, net: Network) returns (results: seq<OrderResult>)
      requires server.repo.Valid()
      modifies this`calls, server.repo`stock
      ensures server.repo.Valid()
      ensures |results| == batch.Length && forall r <- results :: !r.status.Unlisted?
      ensures results == ResultsFor(batch[..], batch.Length, Shelf(old(server.repo.stock), old(calls)), net)
      ensures Shelf(server.repo.stock, calls)
           == ServeOrders(batch[..], batch.Length, Shelf(old(server.repo.stock), old(calls)), net)
    {
      hide ResultOf, ServeLines;
      results := [];
      ghost var s := Shelf(server.repo.stock, calls);
      for i := 0 to batch.Length
        invariant server.repo.Valid() && Shelf(server.repo.stock, calls) == ServeOrders(batch[..], i, s, net)
        invariant results == ResultsFor(batch[..], i, s, net)
        invariant forall k :: 0 <= k < i ==> !results[k].status.Unlisted?
      {
        ListedStatus(batch[i], Shelf(server.repo.stock, calls), net);
        var result := FulfillOrder(batch[i], net);
        results := results + [result];
      }
    }

    // ---------------------------------------------------------------- the batch decisions

    /** The batch timer: takes whatever is buffered. */
    method OnTick() returns (batch: seq<Order>)
      modifies buffer
      ensures batch == old(buffer.orders) && buffer.orders == []
      ensures forall book :: Ingestion.Handle(Ingestion.Intake(book, old(buffer.orders), []), Ingestion.Tick)
                          == Ingestion.Intake(book, buffer.orders, if batch == [] then [] else [batch])
    {
      batch := buffer.Drain();
    }

    /** The busy check between ticks: takes the buffer once a full batch is there. */
    method OnBusy() returns (batch: seq<Order>)
      modifies buffer
      ensures |old(buffer.orders)| >= 100 ==> batch == old(buffer.orders) && buffer.orders == []
      ensures |old(buffer.orders)| < 100 ==> batch == [] && buffer.orders == old(buffer.orders)
      ensures forall book :: Ingestion.Handle(Ingestion.Intake(book, old(buffer.orders), []), Ingestion.SizeCheck)
                          == Ingestion.Intake(book, buffer.orders, if batch == [] then [] else [batch])
    {
      var n := buffer.Len();
      batch := [];
      if n >= Ingestion.BATCH_SIZE {
        batch := buffer.Drain();
      }
    }
  }

  lemma ReplyFateIrrelevant(b: Ingestion.Book, o: Order, w: Ingestion.World, a: Ingestion.ReportAttempt)
    requires a.Served?
    ensures Ingestion.Serve(b, o, w, a) == Ingestion.Serve(b, o, w, a.(replyLost := false))
  {
  }

  /** The three fates of a reported order: known, refused by the schema, and new. */
  lemma ReportTells(b: Ingestion.Book, o: Order, w: Ingestion.World, attempts: seq<Ingestion.ReportAttempt>)
    ensures var r, acceptable := Ingestion.Report(b, o, w, attempts), Ingestion.Acceptable(o, w.stock, w.customers);
            && (UuidTaken(b.orders, o.uuid) ==>
                  && r.reply == (if Ingestion.FoundBy(attempts, 0) then Ingestion.Duplicate
                                 else Ingestion.InternalError)
                  && r.book.orders == b.orders)
            && (!UuidTaken(b.orders, o.uuid) && (!acceptable || forall j :: !Ingestion.FirstInsert(attempts, j)) ==>
                  r.reply == Ingestion.InternalError && r.book.orders == b.orders)
            && (!UuidTaken(b.orders, o.uuid) && acceptable ==>
                  forall j :: Ingestion.FirstInsert(attempts, j) ==>
                    && Ingestion.AddsRow(b.orders, r.book.orders, b.nextId, o)
                    && r.reply == (if !attempts[j].replyLost then Ingestion.Accepted(b.nextId)
                                   else if Ingestion.FoundBy(attempts, j + 1) then Ingestion.Duplicate
                                   else Ingestion.InternalError))
  {
    hide Ingestion.Report, Ingestion.FoundBy, Ingestion.FirstInsert, Ingestion.AddsRow, Ingestion.Acceptable,
         Ingestion.Storable;
    Ingestion.StorableIff(b, o, w);
    if UuidTaken(b.orders, o.uuid) {
      Ingestion.RedeliveryIff(b, o, w, attempts);
    } else if Ingestion.Storable(b, o, w) {
      Ingestion.FateOfNewOrder(b, o, w, attempts);
    } else {
      Ingestion.UnstorableStaysOut(b, o, w, attempts);
    }
  }

  lemma ListedStatus(o: Order, s: Shelf, net: Network)
    ensures !ResultOf(o, s, net).status.Unlisted?
  {
  }

  lemma {:induction false} CopiesOfNothing(times: nat)
    ensures Outbox.Copies([], times) == []
  {
    if times > 0 {
      CopiesOfNothing(times - 1);
    }
  }

  /** Posting an empty batch would change nothing. */
  lemma NothingToPost(n: nat, attempts: seq<PostAttempt>, orders: map<int, OrderRow>)
    ensures n == 0 ==> Outbox.Copies([], Commits(attempts, n)) == [] && PostStatuses(orders, [], 0) == orders
  {
    CopiesOfNothing(Commits(attempts, n));
  }

  lemma NoTotals(lines: seq<Line>)
    ensures TotalFulfilled([], 0) == 0 && CostOf(lines, [], 0) == 0.0 && !AnyRejected([])
  {
  }

  lemma PostableStays(orders: map<int, OrderRow>, results: seq<OrderResult>)
    requires Postable(orders, results)
    ensures Postable(PostStatuses(orders, results, |results|), results)
  {
    hide PostStatuses, UuidTaken;
    Outbox.PostingKeepsUuids(orders, results, |results|);
  }

  lemma OneMoreCopy(payloads: seq<OrderResult>, results: seq<OrderResult>, times: nat)
    ensures times > 0 ==>
              payloads + Outbox.Copies(results, times) == payloads + results + Outbox.Copies(results, times - 1)
    ensures Outbox.Copies(results, 0) == []
  {
  }

  lemma NewPayloads(outbox: seq<OutboxRow>, results: seq<OrderResult>, firstId: int, now: int)
    ensures Outbox.Payloads(outbox + NewOutboxRows(results, firstId, now)) == Outbox.Payloads(outbox) + results
  {
  }

  lemma {:induction false} PrefixTotals(lines: seq<Line>, items: seq<LineResult>, item: LineResult, n: nat)
    requires n <= |items| && n <= |lines|
    ensures TotalFulfilled(items + [item], n) == TotalFulfilled(items, n)
    ensures CostOf(lines, items + [item], n) == CostOf(lines, items, n)
  {
    if n > 0 {
      PrefixTotals(lines, items, item, n - 1);
    }
  }

  lemma TotalsAppend(lines: seq<Line>, items: seq<LineResult>, item: LineResult, i: nat)
    requires i == |items| < |lines|
    ensures TotalFulfilled(items + [item], i + 1) == TotalFulfilled(items, i) + item.fulfilled
    ensures CostOf(lines, items + [item], i + 1) == CostOf(lines, items, i) + LineCost(item.fulfilled, lines[i].price)
    ensures AnyRejected(items + [item]) <==> AnyRejected(items) || item.status == Rejected
  {
    PrefixTotals(lines, items, item, i);
    assert item in items + [item];
    assert forall x :: x in items ==> x in items + [item];
  }
}
