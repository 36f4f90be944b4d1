/** How a buy order gets from the queue into the database and the matching buffer, when
    messages are redelivered, calls are retried and replies get lost. */
module Ingestion {
  import opened Orders
  import opened Database

  /** How one attempt to report an order ends. A served attempt may meet a database that
      fails on the duplicate check or on the insert, and its reply may get lost. */
  datatype ReportAttempt = NotSent | Served(lookupFails: bool, insertFails: bool, replyLost: bool)

  datatype Reply = InternalError | Duplicate | Accepted(id: int)

  /** The breads and customers that exist when an order is reported. */
  datatype World = World(stock: Stock, customers: set<int>)

  datatype Book = Book(orders: map<int, OrderRow>, nextId: int)

  datatype Reported = Reported(book: Book, reply: Reply)

  /** The lines as the 32-bit message carries them. */
  function WireLines(lines: seq<Line>): seq<Line> {
    seq(|lines|, i requires 0 <= i < |lines| =>
      Line(ToInt32(lines[i].breadId), ToInt32(lines[i].quantity), lines[i].price))
  }

  predicate Storable(b: Book, o: Order, w: World) {
    Insertable(w.stock, b.orders, w.customers, o.uuid, ToInt32(o.customerId), WireLines(o.lines))
  }

  /** What the schema asks of an order with a new uuid, said of the order as it was sent:
      the message cuts its numbers to 32 bits. */
  predicate Acceptable(o: Order, stock: Stock, customers: set<int>) {
    && ToInt32(o.customerId) in customers && |o.uuid| <= 255
    && (forall i, j :: 0 <= i < j < |o.lines| ==> ToInt32(o.lines[i].breadId) != ToInt32(o.lines[j].breadId))
    && (forall l <- o.lines :: ToInt32(l.breadId) in stock && -100000000.0 < ToCents(l.price) < 100000000.0)
  }

  lemma StorableIff(b: Book, o: Order, w: World)
    ensures Storable(b, o, w)
       <==> Acceptable(o, w.stock, w.customers) && forall id <- b.orders :: b.orders[id].uuid != o.uuid
  {
    hide ToInt32, ToCents;
    var lines := WireLines(o.lines);
    forall k | 0 <= k < |lines|
      ensures lines[k].breadId == ToInt32(o.lines[k].breadId) && lines[k].price == o.lines[k].price
      ensures lines[k] in lines && o.lines[k] in o.lines
    {
    }
    forall l | l in o.lines ensures exists k :: 0 <= k < |lines| && o.lines[k] == l {
    }
  }

  /** The server's handler: duplicate check, then insert. A failing check counts as
      "not seen before". */
  function Serve(b: Book, o: Order, w: World, a: ReportAttempt): Reported
    requires a.Served?
  {
    if !a.lookupFails && UuidTaken(b.orders, o.uuid) then Reported(b, Duplicate)
    else if a.insertFails then Reported(b, InternalError)
    else if !Storable(b, o, w) then Reported(b.(nextId := b.nextId + 1), InternalError)
    else
      var row := OrderRow(o.uuid, ToInt32(o.customerId), Processing, NewDetails(WireLines(o.lines)));
      Reported(Book(b.orders[b.nextId := row], b.nextId + 1), Accepted(b.nextId))
  }

  /** The retried call: it ends at the first reply that comes back and is not an error,
      or with an error when attempts run out. */
  function Report(b: Book, o: Order, w: World, attempts: seq<ReportAttempt>): Reported
    decreases |attempts|
  {
    if attempts == [] then Reported(b, InternalError)
    else if attempts[0].NotSent? then Report(b, o, w, attempts[1..])
    else
      var r := Serve(b, o, w, attempts[0]);
      if attempts[0].replyLost || r.reply.InternalError? then Report(r.book, o, w, attempts[1..]) else r
  }

  /** The broker's buffer, the batches taken out of it so far, and the server's book. */
  datatype Intake = Intake(book: Book, buffer: seq<Order>, drained: seq<seq<Order>>)

  const BATCH_SIZE := 100

  datatype Event =
    | Garbled
    | Deliver(order: Order, world: World, attempts: seq<ReportAttempt>)
    | Tick
    | SizeCheck

  /** The order as it enters the buffer: it takes the server's id unless it came with one. */
  function Numbered(o: Order, id: int): Order {
    if ToInt32(o.id) <= 0 then o.(id := ToInt32(id)) else o
  }

  function Drain(i: Intake): Intake {
    if i.buffer == [] then i else i.(buffer := [], drained := i.drained + [i.buffer])
  }

  /** What an event adds to the buffer: an accepted order, nothing otherwise. */
  function Adds(i: Intake, e: Event): seq<Order> {
    match e
    case Deliver(o, w, attempts) =>
      var r := Report(i.book, o, w, attempts).reply;
      if r.Accepted? then [Numbered(o, r.id)] else []
    case _ => []
  }

  function Handle(i: Intake, e: Event): Intake {
    match e
    case Garbled => i
    case Deliver(o, w, attempts) => i.(book := Report(i.book, o, w, attempts).book, buffer := i.buffer + Adds(i, e))
    case Tick => Drain(i)
    case SizeCheck => if |i.buffer| >= BATCH_SIZE then Drain(i) else i
  }

  function Run(i: Intake, events: seq<Event>, n: nat): Intake
    requires n <= |events|
  {
    if n == 0 then i else Handle(Run(i, events, n - 1), events[n - 1])
  }

  /** All orders a run has put into the buffer, in order. */
  function Added(i: Intake, events: seq<Event>, n: nat): seq<Order>
    requires n <= |events|
  {
    if n == 0 then [] else Added(i, events, n - 1) + Adds(Run(i, events, n - 1), events[n - 1])
  }

  // ---------------------------------------------------------------- at most once

  predicate UuidsUnique(b: Book) {
    && (forall id <- b.orders :: id < b.nextId)
    && (forall i, j :: i in b.orders && j in b.orders && i != j ==> b.orders[i].uuid != b.orders[j].uuid)
  }

  lemma ServeKeeps(b: Book, o: Order, w: World, a: ReportAttempt)
    requires a.Served? && UuidsUnique(b)
    ensures var r := Serve(b, o, w, a);
            && UuidsUnique(r.book)
            && (forall u :: UuidTaken(b.orders, u) ==> UuidTaken(r.book.orders, u))
            && (r.reply.Accepted? ==> !UuidTaken(b.orders, o.uuid) && UuidTaken(r.book.orders, o.uuid))
            && (!r.reply.Accepted? ==> r.book.orders == b.orders)
  {
    hide WireLines, ToInt32, NewDetails;
    var r := Serve(b, o, w, a);
    forall u | UuidTaken(b.orders, u) ensures UuidTaken(r.book.orders, u) {
      var id :| id in b.orders && b.orders[id].uuid == u;
      assert r.book.orders[id].uuid == u;
    }
    if r.reply.Accepted? {
      assert r.book.orders[b.nextId].uuid == o.uuid;
    }
  }

  /** Whatever the attempts, a report keeps uuids unique, forgets no order, and says
      "accepted" only for a uuid that was not there before and is there now. */
  lemma {:induction false} ReportKeeps(b: Book, o: Order, w: World, attempts: seq<ReportAttempt>)
    requires UuidsUnique(b)
    ensures var r := Report(b, o, w, attempts);
            && UuidsUnique(r.book)
            && (forall u :: UuidTaken(b.orders, u) ==> UuidTaken(r.book.orders, u))
            && (r.reply.Accepted? ==> !UuidTaken(b.orders, o.uuid) && UuidTaken(r.book.orders, o.uuid))
    decreases |attempts|
  {
    hide Serve, UuidsUnique, UuidTaken;
    if attempts != [] {
      if attempts[0].NotSent? {
        ReportKeeps(b, o, w, attempts[1..]);
      } else {
        ServeKeeps(b, o, w, attempts[0]);
        ReportKeeps(Serve(b, o, w, attempts[0]).book, o, w, attempts[1..]);
      }
    }
  }

  /** Orders added since book `before`, each new to it, are stored and have different uuids. */
  predicate AddedOnce(added: seq<Order>, before: Book, b: Book) {
    && (forall k :: 0 <= k < |added| ==> !UuidTaken(before.orders, added[k].uuid) && UuidTaken(b.orders, added[k].uuid))
    && (forall j, k :: 0 <= j < k < |added| ==> added[j].uuid != added[k].uuid)
  }

  predicate Remembers(before: Book, b: Book) {
    forall id <- before.orders :: UuidTaken(b.orders, before.orders[id].uuid)
  }

  /** From any order table, as a restarted broker finds it, and over any run of deliveries,
      redeliveries, retries and drains: no uuid is stored twice, none enters the buffer
      twice or if it was stored before, whatever entered the buffer is stored, and no
      stored order is forgotten. */
  lemma {:induction false} AtMostOnce(i: Intake, events: seq<Event>, n: nat)
    requires n <= |events| && UuidsUnique(i.book)
    ensures UuidsUnique(Run(i, events, n).book)
    ensures AddedOnce(Added(i, events, n), i.book, Run(i, events, n).book)
    ensures Remembers(i.book, Run(i, events, n).book)
  {
    hide UuidsUnique, AddedOnce, Remembers, Handle, Adds;
    if n == 0 {
      NothingAddedYet(i.book);
    } else {
      AtMostOnce(i, events, n - 1);
      HandleAddsOnce(i.book, Added(i, events, n - 1), Run(i, events, n - 1), events[n - 1]);
    }
  }

  lemma NothingAddedYet(b: Book)
    ensures AddedOnce([], b, b) && Remembers(b, b)
  {
  }

  lemma HandleAddsOnce(start: Book, added: seq<Order>, i: Intake, e: Event)
    requires UuidsUnique(i.book) && AddedOnce(added, start, i.book) && Remembers(start, i.book)
    ensures var after := Handle(i, e).book;
            UuidsUnique(after) && AddedOnce(added + Adds(i, e), start, after) && Remembers(start, after)
  {
    hide Report, UuidsUnique;
    if e.Deliver? {
      ReportKeeps(i.book, e.order, e.world, e.attempts);
      if UuidTaken(start.orders, e.order.uuid) {
        var id :| id in start.orders && start.orders[id].uuid == e.order.uuid;
        assert UuidTaken(i.book.orders, start.orders[id].uuid);
      }
    } else {
      DrainKeepsBook(i);
      assert added + Adds(i, e) == added;
    }
  }

  lemma DrainKeepsBook(i: Intake)
    ensures Drain(i).book == i.book
  {
  }

  function Flatten(batches: seq<seq<Order>>): seq<Order> {
    if batches == [] then [] else Flatten(batches[..|batches| - 1]) + batches[|batches| - 1]
  }

  lemma DrainKeepsOrders(i: Intake)
    ensures Flatten(Drain(i).drained) + Drain(i).buffer == Flatten(i.drained) + i.buffer
  {
    assert (i.drained + [i.buffer])[..|i.drained|] == i.drained;
  }

  /** Nothing is lost or duplicated between the buffer and the batches: the drained
      batches one after the other, followed by what is still buffered, are what there was
      at the start and then the orders that were added, in order; and no batch is empty. */
  lemma {:induction false} BufferIsFaithful(start: Intake, events: seq<Event>, n: nat)
    requires n <= |events|
    ensures var i := Run(start, events, n);
            && Flatten(i.drained) + i.buffer == Flatten(start.drained) + start.buffer + Added(start, events, n)
            && |start.drained| <= |i.drained|
            && forall k :: |start.drained| <= k < |i.drained| ==> i.drained[k] != []
  {
    hide Adds, Flatten, Handle;
    if n > 0 {
      BufferIsFaithful(start, events, n - 1);
      var i, e := Run(start, events, n - 1), events[n - 1];
      HandleIsFaithful(i, e);
      var there, added := Flatten(start.drained) + start.buffer, Added(start, events, n - 1);
      assert there + added + Adds(i, e) == there + (added + Adds(i, e));
    }
  }

  lemma HandleIsFaithful(i: Intake, e: Event)
    ensures var after := Handle(i, e);
            && Flatten(after.drained) + after.buffer == Flatten(i.drained) + i.buffer + Adds(i, e)
            && i.drained <= after.drained
            && forall k :: |i.drained| <= k < |after.drained| ==> after.drained[k] != []
  {
    hide Report, Flatten;
    DrainKeepsOrders(i);
    if e.Deliver? {
      assert Flatten(i.drained) + (i.buffer + Adds(i, e)) == Flatten(i.drained) + i.buffer + Adds(i, e);
    } else {
      assert Flatten(i.drained) + i.buffer + [] == Flatten(i.drained) + i.buffer;
    }
  }

  // ---------------------------------------------------------------- lost orders

  /** An attempt that finds a stored order, and whose "duplicate" comes back. */
  predicate Finds(a: ReportAttempt) {
    a.Served? && !a.lookupFails && !a.replyLost
  }

  /** Some attempt from number `from` on finds the order. */
  predicate FoundBy(attempts: seq<ReportAttempt>, from: nat) {
    exists k :: from <= k < |attempts| && Finds(attempts[k])
  }

  /** An attempt that gets as far as inserting an order that is not stored yet. */
  predicate Inserts(a: ReportAttempt) {
    a.Served? && !a.insertFails
  }

  predicate FirstInsert(attempts: seq<ReportAttempt>, j: int) {
    0 <= j < |attempts| && Inserts(attempts[j]) && forall i :: 0 <= i < j ==> !Inserts(attempts[i])
  }

  /** A redelivered order is answered "duplicate", and so acknowledged, exactly if some
      attempt with a working duplicate check is heard; otherwise it goes back to the queue. */
  lemma {:induction false} RedeliveryIff(b: Book, o: Order, w: World, attempts: seq<ReportAttempt>)
    requires UuidTaken(b.orders, o.uuid)
    ensures Report(b, o, w, attempts).reply == if FoundBy(attempts, 0) then Duplicate else InternalError
    ensures Report(b, o, w, attempts).book.orders == b.orders
    decreases |attempts|
  {
    hide WireLines, UuidTaken;
    if attempts != [] {
      FoundLater(attempts, 0);
      if attempts[0].NotSent? {
        RedeliveryIff(b, o, w, attempts[1..]);
      } else {
        RedeliveryIff(Serve(b, o, w, attempts[0]).book, o, w, attempts[1..]);
      }
    }
  }

  lemma FoundLater(attempts: seq<ReportAttempt>, from: nat)
    requires attempts != []
    ensures FoundBy(attempts, from + 1) <==> FoundBy(attempts[1..], from)
    ensures FoundBy(attempts, 0) <==> Finds(attempts[0]) || FoundBy(attempts, 1)
  {
    if k :| from + 1 <= k < |attempts| && Finds(attempts[k]) {
      assert Finds(attempts[1..][k - 1]);
    }
    if k :| from <= k < |attempts| - 1 && Finds(attempts[1..][k]) {
      assert Finds(attempts[k + 1]);
    }
    if k :| 0 <= k < |attempts| && Finds(attempts[k]) && k > 0 {
      assert FoundBy(attempts, 1);
    }
  }

  /** The row of a new order, as the 32-bit message and the columns leave it. */
  predicate IsRowOf(row: OrderRow, o: Order) {
    && row.uuid == o.uuid && row.customerId == ToInt32(o.customerId) && row.status == Processing
    && |row.details| == |o.lines|
    && forall k :: 0 <= k < |o.lines| ==>
         row.details[k]
         == Detail(ToInt32(o.lines[k].breadId), ToInt32(o.lines[k].quantity), ToCents(o.lines[k].price), Pending)
  }

  /** The order table once `o` was added to it under `id`. */
  predicate AddsRow(before: map<int, OrderRow>, after: map<int, OrderRow>, id: int, o: Order) {
    id in after && after == before[id := after[id]] && IsRowOf(after[id], o)
  }

  lemma ServeInserts(b: Book, o: Order, w: World, a: ReportAttempt)
    requires Inserts(a) && Storable(b, o, w)
    ensures Serve(b, o, w, a).reply == Accepted(b.nextId)
    ensures AddsRow(b.orders, Serve(b, o, w, a).book.orders, b.nextId, o)
    ensures UuidTaken(Serve(b, o, w, a).book.orders, o.uuid)
  {
    hide ToInt32, ToCents;
    assert Serve(b, o, w, a).book.orders[b.nextId].uuid == o.uuid;
  }

  /** What becomes of a new order, read off the attempts before any of them is made. It is
      stored exactly if some attempt reaches the insert. It is accepted, and buffered,
      exactly if the first such attempt is heard; if that one is not, it is acknowledged
      as a duplicate exactly if a later attempt finds it: stored, but never matched. */
  lemma {:induction false} FateOfNewOrder(b: Book, o: Order, w: World, attempts: seq<ReportAttempt>)
    requires Storable(b, o, w)
    ensures forall j :: FirstInsert(attempts, j) ==>
              && AddsRow(b.orders, Report(b, o, w, attempts).book.orders, b.nextId, o)
              && Report(b, o, w, attempts).reply
                 == (if !attempts[j].replyLost then Accepted(b.nextId)
                     else if FoundBy(attempts, j + 1) then Duplicate
                     else InternalError)
    ensures (forall j :: !FirstInsert(attempts, j)) ==> Report(b, o, w, attempts) == Reported(b, InternalError)
    decreases |attempts|
  {
    hide WireLines, UuidTaken, Insertable, NewDetails, AddsRow;
    if attempts != [] {
      if Inserts(attempts[0]) {
        ServeInserts(b, o, w, attempts[0]);
        FoundLater(attempts, 0);
        RedeliveryIff(Serve(b, o, w, attempts[0]).book, o, w, attempts[1..]);
        assert FirstInsert(attempts, 0);
      } else {
        NewIsNotTaken(b, o, w);
        FateOfNewOrder(b, o, w, attempts[1..]);
        forall j ensures FirstInsert(attempts, j) <==> FirstInsert(attempts[1..], j - 1) {
          LaterFirstInsert(attempts, j);
        }
        forall j | FirstInsert(attempts, j) ensures FoundBy(attempts, j + 1) <==> FoundBy(attempts[1..], j) {
          FoundLater(attempts, j);
        }
        assert forall j :: FirstInsert(attempts[1..], j) ==> FirstInsert(attempts, j + 1) by {
          forall j | FirstInsert(attempts[1..], j) ensures FirstInsert(attempts, j + 1) {
            LaterFirstInsert(attempts, j + 1);
          }
        }
      }
    }
  }

  lemma NewIsNotTaken(b: Book, o: Order, w: World)
    requires Storable(b, o, w)
    ensures !UuidTaken(b.orders, o.uuid)
  {
  }

  lemma LaterFirstInsert(attempts: seq<ReportAttempt>, j: int)
    requires attempts != [] && !Inserts(attempts[0])
    ensures FirstInsert(attempts, j) <==> FirstInsert(attempts[1..], j - 1)
  {
    if FirstInsert(attempts[1..], j - 1) {
      forall i | 0 <= i < j ensures !Inserts(attempts[i]) {
        if i > 0 {
          assert !Inserts(attempts[1..][i - 1]);
        }
      }
    }
  }

  /** An order the schema refuses is neither stored nor buffered, however often it is
      retried; and unless it is a duplicate it goes back to the queue each time. */
  lemma {:induction false} UnstorableStaysOut(b: Book, o: Order, w: World, attempts: seq<ReportAttempt>)
    requires !Storable(b, o, w)
    ensures Report(b, o, w, attempts).book.orders == b.orders
    ensures !Report(b, o, w, attempts).reply.Accepted?
    ensures !UuidTaken(b.orders, o.uuid) ==> Report(b, o, w, attempts).reply == InternalError
    decreases |attempts|
  {
    hide WireLines, UuidTaken;
    if attempts != [] {
      UnstorableStaysOut(b, o, w, attempts[1..]);
      UnstorableStaysOut(b.(nextId := b.nextId + 1), o, w, attempts[1..]);
    }
  }

  /** A lost order stays lost: once a uuid is stored, no continuation of the run, with
      whatever redeliveries, ever adds it to the buffer. */
  lemma {:induction false} StrandedForever(i: Intake, events: seq<Event>, n: nat, uuid: string)
    requires n <= |events| && UuidsUnique(i.book) && UuidTaken(i.book.orders, uuid)
    ensures UuidsUnique(Run(i, events, n).book) && UuidTaken(Run(i, events, n).book.orders, uuid)
    ensures forall k :: 0 <= k < |Added(i, events, n)| ==> Added(i, events, n)[k].uuid != uuid
  {
    hide Report, UuidsUnique, UuidTaken, Drain;
    if n > 0 {
      StrandedForever(i, events, n - 1, uuid);
      var before := Run(i, events, n - 1);
      DrainKeepsBook(before);
      if events[n - 1].Deliver? {
        var e := events[n - 1];
        ReportKeeps(before.book, e.order, e.world, e.attempts);
        if e.order.uuid == uuid {
          RedeliveryIff(before.book, e.order, e.world, e.attempts);
        }
      }
    }
  }
}
