/** The tables the server owns, and what each transaction on them does. A bread row
    is its quantity; an order row carries its detail rows, which the schema ties to it. */
module Database {
  import opened Orders
  import opened Sorting

  /** Bread id to quantity; the CHECK constraint keeps quantities nonnegative. */
  type Stock = map<int, nat>

  datatype Detail = Detail(breadId: int, quantity: int, price: real, status: ItemStatus)

  datatype OrderRow = OrderRow(uuid: string, customerId: int, status: OrderStatus, details: seq<Detail>)

  datatype OutboxRow = OutboxRow(id: int, payload: OrderResult, sent: bool, createdAt: int)

  /** A missing bread has nothing to give. */
  function Available(stock: Stock, bread: int): nat {
    if bread in stock then stock[bread] else 0
  }

  // ---------------------------------------------------------------- FulfillOrderItem

  datatype Grant = Granted(amount: nat) | NoSuchBread | InsufficientStock

  function ItemGrant(stock: Stock, bread: int, requested: int): Grant {
    if bread !in stock then NoSuchBread
    else if Min(requested, stock[bread]) <= 0 then InsufficientStock
    else Granted(Min(requested, stock[bread]))
  }

  function AfterItem(stock: Stock, bread: int, requested: int): Stock {
    match ItemGrant(stock, bread, requested)
    case Granted(amount) => stock[bread := stock[bread] - amount]
    case _ => stock
  }

  // ---------------------------------------------------------------- FulfillOrderTx

  /** `UPDATE order_details`: a new label, and a new quantity where something was granted. */
  datatype DetailWrite = DetailWrite(breadId: int, quantity: Option<int>, status: ItemStatus)

  /** What a running transaction has written and counted so far. */
  datatype Work = Work(
    writes: map<int, nat>,
    details: seq<DetailWrite>,
    requested: int,
    fulfilled: int,
    rejected: bool)

  const NO_WORK := Work(map[], [], 0, 0, false)

  /** A transaction reads its own writes first. */
  function Read(stock: Stock, writes: map<int, nat>, bread: int): nat
    requires bread in stock
  {
    if bread in writes then writes[bread] else stock[bread]
  }

  function SkipLabel(o: Order): ItemStatus {
    if o.skipUnavailable || o.allowPartial then Skipped else Rejected
  }

  function FulfillLine(o: Order, line: Line, stock: Stock, w: Work): Option<Work> {
    if line.breadId !in stock then None
    else
      var current := Read(stock, w.writes, line.breadId);
      if current == 0 then
        Some(Work(w.writes,
                  w.details + [DetailWrite(line.breadId, None, SkipLabel(o))],
                  w.requested + line.quantity,
                  w.fulfilled,
                  w.rejected || SkipLabel(o) == Rejected))
      else
        var amount := Min(line.quantity, current);
        var status := if amount < line.quantity then PartiallyFulfilled else Fulfilled;
        Some(Work(w.writes[line.breadId := current - amount],
                  w.details + [DetailWrite(line.breadId, Some(amount), status)],
                  w.requested + line.quantity,
                  w.fulfilled + amount,
                  w.rejected))
  }

  /** The first `n` lines; `None` once a bread row is missing. */
  function FulfillLines(o: Order, lines: seq<Line>, n: nat, stock: Stock): Option<Work>
    requires n <= |lines|
  {
    if n == 0 then Some(NO_WORK)
    else
      match FulfillLines(o, lines, n - 1, stock)
      case None => None
      case Some(w) => FulfillLine(o, lines[n - 1], stock, w)
  }

  function WriteDetail(details: seq<Detail>, w: DetailWrite): seq<Detail> {
    seq(|details|, i requires 0 <= i < |details| =>
      if details[i].breadId != w.breadId then details[i]
      else
        Detail(w.breadId,
               if w.quantity.Some? then w.quantity.value else details[i].quantity,
               details[i].price,
               w.status))
  }

  function WriteDetails(details: seq<Detail>, ws: seq<DetailWrite>): seq<Detail> {
    if ws == [] then details
    else WriteDetail(WriteDetails(details, ws[..|ws| - 1]), ws[|ws| - 1])
  }

  /** The order table once a transaction on order `o` commits. */
  function SettleOrder(orders: map<int, OrderRow>, o: Order, w: Work): map<int, OrderRow> {
    if o.id !in orders then orders
    else
      var row := orders[o.id];
      orders[o.id := row.(status := StatusOf(w.rejected, o.allowPartial, w.fulfilled, w.requested),
                          details := WriteDetails(row.details, w.details))]
  }

  /** The comparison by which every transaction picks its locking order. */
  predicate LowerId(a: Line, b: Line) {
    a.breadId < b.breadId
  }

  lemma LowerIdIsStrictWeak()
    ensures StrictWeakOrder(LowerId)
  {
  }

  function LockOrder(lines: seq<Line>): seq<Line> {
    InsertionSort(lines, LowerId)
  }

  // ---------------------------------------------------------------- AdjustBreadQuantity

  const SHELF_LIMIT: nat := 100

  /** The quantity to write back after `current` was read; `None` is insufficient stock. */
  function Adjusted(current: nat, change: int): Option<nat> {
    if current + change < 0 then None else Some(Min(SHELF_LIMIT, current + change))
  }

  /** An update of a row; one that does not exist is not created. */
  function Written(stock: Stock, bread: int, quantity: nat): Stock {
    if bread in stock then stock[bread := quantity] else stock
  }

  datatype AdjustError = UnknownBread | TooLittleStock

  function AdjustStock(stock: Stock, bread: int, change: int): Stock {
    if bread in stock && Adjusted(stock[bread], change).Some?
    then stock[bread := Adjusted(stock[bread], change).value] else stock
  }

  // ---------------------------------------------------------------- InsertBuyOrder

  /** `numeric(10,2)`: a nonnegative price is stored to the nearest cent. */
  function ToCents(price: real): real {
    if price >= 0.0 then (price * 100.0 + 0.5).Floor as real / 100.0
    else -((-price * 100.0 + 0.5).Floor as real / 100.0)
  }

  function NewDetails(lines: seq<Line>): seq<Detail> {
    seq(|lines|, i requires 0 <= i < |lines| =>
      Detail(lines[i].breadId, lines[i].quantity, ToCents(lines[i].price), Pending))
  }

  predicate UuidTaken(orders: map<int, OrderRow>, uuid: string) {
    exists id <- orders :: orders[id].uuid == uuid
  }

  const UUID_LIMIT: nat := 255
  const PRICE_LIMIT := 100000000.0

  /** `numeric(10,2)` holds eight digits before the point. */
  predicate FitsPriceColumn(price: real) {
    -PRICE_LIMIT < ToCents(price) < PRICE_LIMIT
  }

  /** The schema's conditions on a new order: a known customer, a fresh uuid that fits its
      column, and one detail row per existing bread, at a price that fits its own. */
  predicate Insertable(stock: Stock, orders: map<int, OrderRow>, customers: set<int>,
                       uuid: string, customer: int, lines: seq<Line>)
  {
    && customer in customers
    && |uuid| <= UUID_LIMIT && !UuidTaken(orders, uuid)
    && DistinctBreads(lines)
    && forall l <- lines :: l.breadId in stock && FitsPriceColumn(l.price)
  }

  function DetailsCost(details: seq<Detail>): real {
    if details == [] then 0.0
    else DetailsCost(details[..|details| - 1])
         + LineCost(details[|details| - 1].quantity, details[|details| - 1].price)
  }

  // ---------------------------------------------------------------- matching results and the outbox

  /** `UPDATE buy_order SET status ... WHERE buy_order_uuid = ...`. */
  function PostStatus(orders: map<int, OrderRow>, r: OrderResult): map<int, OrderRow> {
    map id <- orders :: if orders[id].uuid == r.uuid then orders[id].(status := r.status) else orders[id]
  }

  function PostStatuses(orders: map<int, OrderRow>, results: seq<OrderResult>, n: nat): map<int, OrderRow>
    requires n <= |results|
  {
    if n == 0 then orders else PostStatus(PostStatuses(orders, results, n - 1), results[n - 1])
  }

  function NewOutboxRows(results: seq<OrderResult>, firstId: int, now: int): seq<OutboxRow> {
    seq(|results|, i requires 0 <= i < |results| => OutboxRow(firstId + i, results[i], false, now))
  }

  /** No stored order would be given a status that its CHECK constraint refuses. */
  predicate Postable(orders: map<int, OrderRow>, results: seq<OrderResult>) {
    forall r <- results :: UuidTaken(orders, r.uuid) ==> !r.status.Unlisted?
  }

  /** Row `k` is one the claiming query may pick: unsent, and none unsent is older. */
  predicate Claimable(outbox: seq<OutboxRow>, k: int) {
    && 0 <= k < |outbox| && !outbox[k].sent
    && forall j :: 0 <= j < |outbox| && !outbox[j].sent ==> outbox[k].createdAt <= outbox[j].createdAt
  }

  function MarkSent(outbox: seq<OutboxRow>, k: nat): seq<OutboxRow>
    requires k < |outbox|
  {
    outbox[k := outbox[k].(sent := true)]
  }

  function RemoveRow(outbox: seq<OutboxRow>, id: int): seq<OutboxRow> {
    if outbox == [] then []
    else
      var front, last := RemoveRow(outbox[..|outbox| - 1], id), outbox[|outbox| - 1];
      if last.id == id then front else front + [last]
  }

  predicate DistinctIds(outbox: seq<OutboxRow>) {
    forall j, k :: 0 <= j < k < |outbox| ==> outbox[j].id != outbox[k].id
  }

  /** Deleting by id removes the rows with that id and keeps every other. */
  lemma {:induction false} RemoveRowSelects(rows: seq<OutboxRow>, id: int)
    requires DistinctIds(rows)
    ensures DistinctIds(RemoveRow(rows, id))
    ensures forall row :: row in RemoveRow(rows, id) <==> row in rows && row.id != id
  {
    if rows != [] {
      var front, last := rows[..|rows| - 1], rows[|rows| - 1];
      RemoveRowSelects(front, id);
      assert rows == front + [last];
      var r := RemoveRow(front, id);
      forall j | 0 <= j < |r| ensures r[j].id != last.id {
        assert r[j] in front;
      }
    }
  }
}
