/** Stock transactions running at the same time. Each locks its rows one after the other,
    works on private copies, and installs its writes when it commits, holding every lock
    until then. */
module RowLocks {
  import opened Orders
  import opened Sorting
  import opened Database
  import Repository

  datatype Row = BreadRow(bread: int) | DetailRow(orderId: int, bread: int) | HeaderRow(orderId: int)

  datatype Tables = Tables(stock: Stock, orders: map<int, OrderRow>)

  /** `FulfillOrderTx` on lines in locking order, or `FulfillOrderItem`. */
  datatype Program = OrderTx(order: Order, lines: seq<Line>) | ItemTx(bread: int, requested: int)

  /** What sorting by id gives the program: breads in ascending order, repeats allowed. */
  predicate InLockOrder(p: Program) {
    p.OrderTx? ==> forall i, j :: 0 <= i < j < |p.lines| ==> p.lines[i].breadId <= p.lines[j].breadId
  }

  lemma SortedProgramsAreInLockOrder(o: Order)
    ensures InLockOrder(OrderTx(o, LockOrder(o.lines)))
  {
    hide InsertionSort;
    LowerIdIsStrictWeak();
    InsertionSortSorts(o.lines, LowerId);
    var lines := LockOrder(o.lines);
    forall i, j | 0 <= i < j < |lines| ensures lines[i].breadId <= lines[j].breadId {
      assert !LowerId(lines[j], lines[i]);
    }
  }

  // ---------------------------------------------------------------- one transaction

  function LockCount(p: Program): nat {
    match p
    case OrderTx(_, lines) => 2 * |lines| + 1
    case ItemTx(_, _) => 1
  }

  /** The rows a transaction locks, in order: per line the bread and then the detail row,
      and the order header last. */
  function LockAt(p: Program, k: nat): Row
    requires k < LockCount(p)
  {
    match p
    case ItemTx(bread, _) => BreadRow(bread)
    case OrderTx(o, lines) =>
      if k == 2 * |lines| then HeaderRow(o.id)
      else if k % 2 == 0 then BreadRow(lines[k / 2].breadId)
      else DetailRow(o.id, lines[k / 2].breadId)
  }

  predicate Holds(p: Program, held: nat, row: Row)
    requires held <= LockCount(p)
  {
    exists k :: 0 <= k < held && LockAt(p, k) == row
  }

  /** The work done on getting lock `k`: a bread row is read and its line computed. */
  function WorkAt(p: Program, k: nat, stock: Stock, w: Work): Option<Work>
    requires k < LockCount(p)
  {
    match p
    case ItemTx(bread, requested) =>
      (match ItemGrant(stock, bread, requested)
       case Granted(amount) => Some(w.(writes := map[bread := stock[bread] - amount], fulfilled := amount))
       case _ => None)
    case OrderTx(o, lines) =>
      if k < 2 * |lines| && k % 2 == 0 then FulfillLine(o, lines[k / 2], stock, w) else Some(w)
  }

  /** The work behind the first `held` locks if nobody else interfered. */
  function Compute(p: Program, held: nat, stock: Stock): Option<Work>
    requires held <= LockCount(p)
  {
    if held == 0 then Some(NO_WORK)
    else
      match Compute(p, held - 1, stock)
      case None => None
      case Some(w) => WorkAt(p, held - 1, stock, w)
  }

  function Install(t: Tables, p: Program, w: Work): Tables {
    Tables(t.stock + w.writes, if p.OrderTx? then SettleOrder(t.orders, p.order, w) else t.orders)
  }

  /** The whole transaction, alone on the tables; a failing one changes nothing. */
  function Alone(t: Tables, p: Program): Tables {
    match Compute(p, LockCount(p), t.stock)
    case None => t
    case Some(w) => Install(t, p, w)
  }

  lemma {:induction false} ComputeIsFulfillLines(o: Order, lines: seq<Line>, n: nat, stock: Stock)
    requires n <= |lines|
    ensures Compute(OrderTx(o, lines), 2 * n, stock) == FulfillLines(o, lines, n, stock)
  {
    hide FulfillLine;
    if n > 0 {
      ComputeIsFulfillLines(o, lines, n - 1, stock);
      var p := OrderTx(o, lines);
      assert Compute(p, 2 * n - 1, stock).Some? ==> Compute(p, 2 * n, stock) == Compute(p, 2 * n - 1, stock);
    }
  }

  /** Alone on the tables, a transaction is what the repository's own methods do. */
  lemma AloneIsTheRepositoryCall(t: Tables, o: Order, lines: seq<Line>, bread: int, requested: int)
    ensures Alone(t, OrderTx(o, lines)) == (match FulfillLines(o, lines, |lines|, t.stock)
                                            case None => t
                                            case Some(w) => Tables(t.stock + w.writes, SettleOrder(t.orders, o, w)))
    ensures Alone(t, ItemTx(bread, requested)) == t.(stock := AfterItem(t.stock, bread, requested))
  {
    hide FulfillLine, SettleOrder;
    ComputeIsFulfillLines(o, lines, |lines|, t.stock);
    if ItemGrant(t.stock, bread, requested).Granted? {
      var left := t.stock[bread] - ItemGrant(t.stock, bread, requested).amount;
      assert t.stock + map[bread := left] == t.stock[bread := left];
    }
    var p := ItemTx(bread, requested);
    assert Compute(p, 1, t.stock) == WorkAt(p, 0, t.stock, NO_WORK);
  }

  lemma {:induction false} DetailWritesAreHeld(p: Program, n: nat, stock: Stock)
    requires n <= LockCount(p) && Compute(p, n, stock).Some? && p.OrderTx?
    ensures forall k :: 0 <= k < |Compute(p, n, stock).value.details| ==>
              exists j :: 0 <= j < |p.lines| && p.lines[j].breadId == Compute(p, n, stock).value.details[k].breadId
  {
    if n > 0 {
      DetailWritesAreHeld(p, n - 1, stock);
    }
  }

  /** A transaction that holds all its locks holds one on each row it changes when it
      commits: breads, order headers and, among an order's details, the detail rows. */
  lemma OnlyHeldRowsChange(t: Tables, p: Program, bread: int, id: int, d: nat)
    ensures var all, after := LockCount(p), Alone(t, p);
            && (bread in t.stock && bread in after.stock && after.stock[bread] != t.stock[bread] ==>
                  Holds(p, all, BreadRow(bread)))
            && after.orders.Keys == t.orders.Keys
            && (id in t.orders && after.orders[id] != t.orders[id] ==> Holds(p, all, HeaderRow(id)))
            && (id in t.orders && d < |t.orders[id].details| && d < |after.orders[id].details|
                && after.orders[id].details[d] != t.orders[id].details[d] ==>
                  Holds(p, all, DetailRow(id, t.orders[id].details[d].breadId)))
  {
    hide WorkAt, Compute, WriteDetails;
    if Compute(p, LockCount(p), t.stock).Some? {
      var w := Compute(p, LockCount(p), t.stock).value;
      WritesAreHeld(p, LockCount(p), t.stock);
      if p.OrderTx? && id in t.orders && id == p.order.id {
        assert LockAt(p, 2 * |p.lines|) == HeaderRow(id);
        if d < |t.orders[id].details| {
          DetailWritesAreHeld(p, LockCount(p), t.stock);
          if k :| 0 <= k < |w.details| && w.details[k].breadId == t.orders[id].details[d].breadId {
            var j :| 0 <= j < |p.lines| && p.lines[j].breadId == w.details[k].breadId;
            assert LockAt(p, 2 * j + 1) == DetailRow(id, p.lines[j].breadId);
          } else {
            Repository.UnnamedDetails(t.orders[id].details, w.details, d);
          }
        }
      }
    }
  }

  // ---------------------------------------------------------------- many transactions

  datatype Phase = Running | Committed | Aborted

  datatype Txn = Txn(program: Program, held: nat, work: Work, phase: Phase)

  datatype System = System(tables: Tables, txns: seq<Txn>, log: seq<nat>)

  function Start(t: Tables, programs: seq<Program>): System {
    System(t, seq(|programs|, i requires 0 <= i < |programs| => Txn(programs[i], 0, NO_WORK, Running)), [])
  }

  predicate Owns(t: Txn, row: Row) {
    t.phase == Running && t.held <= LockCount(t.program) && Holds(t.program, t.held, row)
  }

  predicate Blocked(s: System, i: nat, row: Row) {
    exists j :: 0 <= j < |s.txns| && j != i && Owns(s.txns[j], row)
  }

  /** A scheduler's choice. `Kill` is a lost connection, a timeout or any other database
      error; it may strike a running transaction at any time. */
  datatype Action = Advance(txn: nat) | Kill(txn: nat)

  /** Whether a running transaction can go on by itself: it can commit, or nobody else
      owns the row it needs next. */
  predicate CanAdvance(s: System, i: nat) {
    && i < |s.txns| && s.txns[i].phase == Running
    && var t := s.txns[i];
    t.held < LockCount(t.program) ==> !Blocked(s, i, LockAt(t.program, t.held))
  }

  predicate Enabled(s: System, a: Action) {
    if a.Kill? then a.txn < |s.txns| && s.txns[a.txn].phase == Running else CanAdvance(s, a.txn)
  }

  /** Getting the next lock, failing on it, or committing once all are held. */
  function Next(s: System, a: Action): System
    requires Enabled(s, a)
  {
    var t := s.txns[a.txn];
    if a.Kill? then s.(txns := s.txns[a.txn := t.(phase := Aborted)])
    else if t.held < LockCount(t.program) then
      match WorkAt(t.program, t.held, s.tables.stock, t.work)
      case None => s.(txns := s.txns[a.txn := t.(phase := Aborted)])
      case Some(w) => s.(txns := s.txns[a.txn := t.(held := t.held + 1, work := w)])
    else
      System(Install(s.tables, t.program, t.work), s.txns[a.txn := t.(phase := Committed)], s.log + [a.txn])
  }

  predicate IsRun(s: System, actions: seq<Action>)
    decreases |actions|
  {
    actions == [] || (Enabled(s, actions[0]) && IsRun(Next(s, actions[0]), actions[1..]))
  }

  function After(s: System, actions: seq<Action>): System
    requires IsRun(s, actions)
    decreases |actions|
  {
    if actions == [] then s else After(Next(s, actions[0]), actions[1..])
  }

  predicate LogFits(log: seq<nat>, programs: seq<Program>) {
    forall n :: 0 <= n < |log| ==> log[n] < |programs|
  }

  /** The committed transactions, one after the other. */
  function Serial(t: Tables, programs: seq<Program>, log: seq<nat>, n: nat): Tables
    requires n <= |log| && LogFits(log, programs)
  {
    if n == 0 then t else Alone(Serial(t, programs, log, n - 1), programs[log[n - 1]])
  }

  // ---------------------------------------------------------------- serialisability

  predicate Consistent(t: Txn, stock: Stock) {
    t.phase == Running ==>
      t.held <= LockCount(t.program) && Compute(t.program, t.held, stock) == Some(t.work)
  }

  ghost predicate Exclusive(s: System) {
    forall i, j, row :: 0 <= i < |s.txns| && 0 <= j < |s.txns| && i != j && Owns(s.txns[i], row) ==>
      !Owns(s.txns[j], row)
  }

  predicate RunningConsistent(s: System) {
    forall i :: 0 <= i < |s.txns| ==> Consistent(s.txns[i], s.tables.stock)
  }

  predicate SamePrograms(s: System, programs: seq<Program>) {
    |s.txns| == |programs| && forall i :: 0 <= i < |s.txns| ==> s.txns[i].program == programs[i]
  }

  /** The `n`-th transaction to commit did the work it would have done in the serial run. */
  predicate AnsweredSerially(txns: seq<Txn>, start: Tables, programs: seq<Program>, log: seq<nat>, n: nat)
    requires |txns| == |programs| && LogFits(log, programs) && n < |log|
  {
    && txns[log[n]].phase == Committed
    && Compute(programs[log[n]], LockCount(programs[log[n]]), Serial(start, programs, log, n).stock)
       == Some(txns[log[n]].work)
  }

  /** The tables, and the answers given, are those of a serial run in commit order. */
  predicate Serialised(s: System, start: Tables, programs: seq<Program>) {
    && |s.txns| == |programs| && LogFits(s.log, programs)
    && s.tables == Serial(start, programs, s.log, |s.log|)
    && forall n :: 0 <= n < |s.log| ==> AnsweredSerially(s.txns, start, programs, s.log, n)
  }

  predicate AgreeOn(a: Stock, b: Stock, bread: int) {
    (bread in a <==> bread in b) && (bread in a ==> a[bread] == b[bread])
  }

  lemma WorkIsLocal(p: Program, k: nat, a: Stock, b: Stock, w: Work)
    requires k < LockCount(p)
    requires LockAt(p, k).BreadRow? ==> AgreeOn(a, b, LockAt(p, k).bread)
    ensures WorkAt(p, k, a, w) == WorkAt(p, k, b, w)
  {
  }

  /** A transaction's work depends on the rows it holds and on nothing else. */
  lemma {:induction false} ComputeIsLocal(p: Program, n: nat, a: Stock, b: Stock)
    requires n <= LockCount(p)
    requires forall bread :: Holds(p, n, BreadRow(bread)) ==> AgreeOn(a, b, bread)
    ensures Compute(p, n, a) == Compute(p, n, b)
  {
    hide WorkAt, AgreeOn, LockAt, LockCount;
    if n > 0 {
      forall bread | Holds(p, n - 1, BreadRow(bread)) ensures AgreeOn(a, b, bread) {
        assert Holds(p, n, BreadRow(bread));
      }
      ComputeIsLocal(p, n - 1, a, b);
      if LockAt(p, n - 1).BreadRow? {
        assert Holds(p, n, BreadRow(LockAt(p, n - 1).bread));
      }
      if Compute(p, n - 1, a).Some? {
        WorkIsLocal(p, n - 1, a, b, Compute(p, n - 1, a).value);
      }
    }
  }

  lemma WorkWrites(p: Program, k: nat, stock: Stock, w: Work)
    requires k < LockCount(p) && WorkAt(p, k, stock, w).Some?
    ensures forall b <- WorkAt(p, k, stock, w).value.writes :: b in w.writes || LockAt(p, k) == BreadRow(b)
  {
  }

  /** It writes only bread rows it holds. */
  lemma {:induction false} WritesAreHeld(p: Program, n: nat, stock: Stock)
    requires n <= LockCount(p) && Compute(p, n, stock).Some?
    ensures forall b <- Compute(p, n, stock).value.writes :: Holds(p, n, BreadRow(b))
  {
    hide WorkAt, LockAt, LockCount;
    if n > 0 {
      WritesAreHeld(p, n - 1, stock);
      WorkWrites(p, n - 1, stock, Compute(p, n - 1, stock).value);
      forall b | b in Compute(p, n, stock).value.writes ensures Holds(p, n, BreadRow(b)) {
        if b in Compute(p, n - 1, stock).value.writes {
          assert Holds(p, n - 1, BreadRow(b));
        }
      }
    }
  }

  /** A commit leaves everybody else's work as it was. */
  lemma CommitDisturbsNobody(s: System, i: nat, j: nat)
    requires i < |s.txns| && j < |s.txns| && i != j
    requires s.txns[i].phase == Running && s.txns[i].held == LockCount(s.txns[i].program)
    requires Exclusive(s) && Consistent(s.txns[i], s.tables.stock) && Consistent(s.txns[j], s.tables.stock)
    ensures Consistent(s.txns[j], s.tables.stock + s.txns[i].work.writes)
  {
    hide WorkAt, LockAt, LockCount, Compute, Holds;
    var t, u := s.txns[i], s.txns[j];
    if u.phase == Running {
      WritesAreHeld(t.program, t.held, s.tables.stock);
      forall bread | Holds(u.program, u.held, BreadRow(bread))
        ensures AgreeOn(s.tables.stock, s.tables.stock + t.work.writes, bread)
      {
        assert Owns(u, BreadRow(bread));
        assert !Owns(t, BreadRow(bread));
      }
      ComputeIsLocal(u.program, u.held, s.tables.stock, s.tables.stock + t.work.writes);
    }
  }

  lemma NextKeepsConsistent(s: System, a: Action)
    requires Enabled(s, a) && Exclusive(s) && RunningConsistent(s)
    ensures RunningConsistent(Next(s, a))
  {
    hide WorkAt, LockAt, LockCount, Holds, Exclusive, SettleOrder, Blocked;
    var t, r := s.txns[a.txn], Next(s, a);
    assert Consistent(t, s.tables.stock);
    forall j | 0 <= j < |r.txns| ensures Consistent(r.txns[j], r.tables.stock) {
      assert Consistent(s.txns[j], s.tables.stock);
      if a.Advance? && t.held == LockCount(t.program) && j != a.txn {
        CommitDisturbsNobody(s, a.txn, j);
      }
    }
  }

  lemma NextKeepsExclusive(s: System, a: Action)
    requires Enabled(s, a) && Exclusive(s) && RunningConsistent(s)
    ensures Exclusive(Next(s, a))
  {
    hide WorkAt, LockAt, LockCount, Compute, Install;
    var i, r := a.txn, Next(s, a);
    assert Consistent(s.txns[i], s.tables.stock);
    forall p, q, row | 0 <= p < |r.txns| && 0 <= q < |r.txns| && p != q && Owns(r.txns[p], row)
      ensures !Owns(r.txns[q], row)
    {
      assert p != i ==> r.txns[p] == s.txns[p];
      assert q != i ==> r.txns[q] == s.txns[q];
    }
  }

  lemma {:induction false} SerialPrefix(t: Tables, programs: seq<Program>, log: seq<nat>, last: nat, n: nat)
    requires n <= |log| && LogFits(log + [last], programs)
    ensures LogFits(log, programs)
    ensures Serial(t, programs, log + [last], n) == Serial(t, programs, log, n)
  {
    hide Alone;
    forall k | 0 <= k < |log| ensures log[k] < |programs| {
      assert (log + [last])[k] == log[k];
    }
    if n > 0 {
      SerialPrefix(t, programs, log, last, n - 1);
    }
  }

  /** Committing now is running the whole transaction now. */
  lemma CommitIsSerial(s: System, i: nat, start: Tables, programs: seq<Program>)
    requires i < |s.txns| && s.txns[i].phase == Running && s.txns[i].held == LockCount(s.txns[i].program)
    requires Consistent(s.txns[i], s.tables.stock) && SamePrograms(s, programs)
    requires Serialised(s, start, programs)
    ensures var t := s.txns[i];
            Serialised(System(Install(s.tables, t.program, t.work), s.txns[i := t.(phase := Committed)], s.log + [i]),
                       start, programs)
  {
    hide WorkAt, LockAt, LockCount, Compute, Install, Holds, Serial;
    var log, t := s.log + [i], s.txns[i];
    var txns := s.txns[i := t.(phase := Committed)];
    assert LogFits(log, programs);
    LastCommit(start, programs, log);
    SerialPrefix(start, programs, s.log, i, |s.log|);
    forall n | 0 <= n < |log| ensures AnsweredSerially(txns, start, programs, log, n) {
      if n < |s.log| {
        SerialPrefix(start, programs, s.log, i, n);
        assert AnsweredSerially(s.txns, start, programs, s.log, n);
      }
    }
  }

  lemma LastCommit(t: Tables, programs: seq<Program>, log: seq<nat>)
    requires log != [] && LogFits(log, programs)
    ensures Serial(t, programs, log, |log|) == Alone(Serial(t, programs, log, |log| - 1), programs[log[|log| - 1]])
  {
  }

  lemma NextKeepsSerialised(s: System, a: Action, start: Tables, programs: seq<Program>)
    requires Enabled(s, a) && RunningConsistent(s) && SamePrograms(s, programs)
    requires Serialised(s, start, programs)
    ensures SamePrograms(Next(s, a), programs) && Serialised(Next(s, a), start, programs)
  {
    hide WorkAt, LockAt, LockCount, Holds, Blocked, Compute, Serial, Install;
    var t, r := s.txns[a.txn], Next(s, a);
    assert Consistent(t, s.tables.stock);
    if a.Advance? && t.held == LockCount(t.program) {
      CommitIsSerial(s, a.txn, start, programs);
    } else {
      forall n | 0 <= n < |r.log| ensures AnsweredSerially(r.txns, start, programs, r.log, n) {
        assert AnsweredSerially(s.txns, start, programs, s.log, n);
      }
    }
  }

  lemma StartIsSerialised(t: Tables, programs: seq<Program>)
    ensures var s := Start(t, programs);
            Exclusive(s) && RunningConsistent(s) && SamePrograms(s, programs) && Serialised(s, t, programs)
  {
  }

  lemma {:induction false} RunKeepsAll(s: System, actions: seq<Action>, start: Tables, programs: seq<Program>)
    requires IsRun(s, actions)
    requires Exclusive(s) && RunningConsistent(s) && SamePrograms(s, programs) && Serialised(s, start, programs)
    ensures var r := After(s, actions);
            Exclusive(r) && RunningConsistent(r) && SamePrograms(r, programs) && Serialised(r, start, programs)
    decreases |actions|
  {
    hide Exclusive, RunningConsistent, SamePrograms, Serialised, Next, Enabled;
    if actions != [] {
      NextKeepsExclusive(s, actions[0]);
      NextKeepsConsistent(s, actions[0]);
      NextKeepsSerialised(s, actions[0], start, programs);
      RunKeepsAll(Next(s, actions[0]), actions[1..], start, programs);
    }
  }

  /** However transactions are interleaved, killed or fail, the tables are at every
      moment those of running the committed ones alone, one at a time, in commit order;
      and each committed one answered what it would have answered there. */
  lemma Serialisable(t: Tables, programs: seq<Program>, actions: seq<Action>)
    requires IsRun(Start(t, programs), actions)
    ensures Serialised(After(Start(t, programs), actions), t, programs)
    ensures Exclusive(After(Start(t, programs), actions))
  {
    hide Exclusive, RunningConsistent, SamePrograms, Serialised;
    StartIsSerialised(t, programs);
    RunKeepsAll(Start(t, programs), actions, t, programs);
  }

  // ---------------------------------------------------------------- progress

  /** The place of a bread or detail row in everybody's locking order. */
  function Rank(row: Row): int
    requires !row.HeaderRow?
  {
    if row.BreadRow? then 2 * row.bread else 2 * row.bread + 1
  }

  /** Rows come in ascending rank, except that a repeated bread asks again for rows
      which are held already. */
  lemma LocksAscend(p: Program, j: nat, k: nat)
    requires InLockOrder(p) && j < k < LockCount(p) && !LockAt(p, k).HeaderRow?
    ensures || Holds(p, k, LockAt(p, k))
            || (!LockAt(p, j).HeaderRow? && Rank(LockAt(p, j)) < Rank(LockAt(p, k)))
  {
    assert p.OrderTx?;
    var i, l := j / 2, k / 2;
    if i < l && p.lines[i].breadId == p.lines[l].breadId {
      var first := 2 * i + k % 2;
      assert first < k && LockAt(p, first) == LockAt(p, k);
    }
  }

  lemma HeaderIsLast(p: Program, k: nat)
    requires k < LockCount(p)
    ensures LockAt(p, k).HeaderRow? ==> k == LockCount(p) - 1
  {
  }

  predicate AllInLockOrder(s: System) {
    forall i :: 0 <= i < |s.txns| ==> InLockOrder(s.txns[i].program)
  }

  predicate IsRunning(s: System, i: nat) {
    i < |s.txns| && s.txns[i].phase == Running
  }

  /** A running transaction that waits for a bread or detail row. */
  predicate Waits(s: System, i: nat) {
    && IsRunning(s, i) && s.txns[i].held < LockCount(s.txns[i].program)
    && !LockAt(s.txns[i].program, s.txns[i].held).HeaderRow?
  }

  function Wanted(s: System, i: nat): Row
    requires Waits(s, i)
  {
    LockAt(s.txns[i].program, s.txns[i].held)
  }

  /** Whoever holds everything, or lacks only the header, can go on, unless the header is
      held by somebody who can commit. */
  lemma NearTheEnd(s: System, i: nat)
    requires RunningConsistent(s) && IsRunning(s, i) && !Waits(s, i)
    ensures exists j :: CanAdvance(s, j)
  {
    hide LockAt, LockCount, Compute, InLockOrder;
    var t := s.txns[i];
    if t.held < LockCount(t.program) && !CanAdvance(s, i) {
      var row := LockAt(t.program, t.held);
      var j :| 0 <= j < |s.txns| && j != i && Owns(s.txns[j], row);
      var u := s.txns[j];
      var k :| 0 <= k < u.held && LockAt(u.program, k) == row;
      HeaderIsLast(u.program, k);
      assert CanAdvance(s, j);
    } else {
      assert Consistent(t, s.tables.stock);
      assert CanAdvance(s, i);
    }
  }

  lemma {:induction false} HighestWaiting(s: System, n: nat) returns (top: nat)
    requires n <= |s.txns| && exists i :: 0 <= i < n && Waits(s, i)
    ensures Waits(s, top)
    ensures forall i :: 0 <= i < n && Waits(s, i) ==> Rank(Wanted(s, i)) <= Rank(Wanted(s, top))
  {
    hide LockAt, LockCount, Rank;
    if exists i :: 0 <= i < n - 1 && Waits(s, i) {
      top := HighestWaiting(s, n - 1);
      if Waits(s, n - 1) && Rank(Wanted(s, n - 1)) > Rank(Wanted(s, top)) {
        top := n - 1;
      }
    } else {
      top := n - 1;
    }
  }

  /** The holder of the highest wanted row is not waiting for anybody. */
  lemma HolderOfHighest(s: System, top: nat, j: nat)
    requires AllInLockOrder(s) && RunningConsistent(s) && Exclusive(s)
    requires Waits(s, top) && IsRunning(s, j) && Owns(s.txns[j], Wanted(s, top))
    requires forall i :: 0 <= i < |s.txns| && Waits(s, i) ==> Rank(Wanted(s, i)) <= Rank(Wanted(s, top))
    ensures Waits(s, j) ==> CanAdvance(s, j)
  {
    hide LockAt, LockCount, Rank, InLockOrder, Compute;
    if Waits(s, j) {
      var u, row := s.txns[j], Wanted(s, top);
      var k :| 0 <= k < u.held && LockAt(u.program, k) == row;
      LocksAscend(u.program, k, u.held);
      assert Owns(u, Wanted(s, j));
    }
  }

  /** No deadlock: as long as a transaction is unfinished, some transaction can go on. */
  lemma SomebodyCanAdvance(s: System)
    requires AllInLockOrder(s) && RunningConsistent(s) && Exclusive(s)
    requires exists i :: IsRunning(s, i)
    ensures exists j :: CanAdvance(s, j)
  {
    hide LockAt, LockCount, Rank, InLockOrder, Compute, RunningConsistent, Exclusive;
    if i :| IsRunning(s, i) && !Waits(s, i) {
      NearTheEnd(s, i);
    } else {
      var top := HighestWaiting(s, |s.txns|);
      if !CanAdvance(s, top) {
        var j :| 0 <= j < |s.txns| && j != top && Owns(s.txns[j], Wanted(s, top));
        HolderOfHighest(s, top, j);
      }
    }
  }

  /** Locks still to get plus the commit. */
  function Remaining(t: Txn): nat {
    if t.phase == Running && t.held <= LockCount(t.program) then LockCount(t.program) - t.held + 1 else 0
  }

  function Measure(txns: seq<Txn>): nat {
    if txns == [] then 0 else Measure(txns[..|txns| - 1]) + Remaining(txns[|txns| - 1])
  }

  lemma {:induction false} MeasureDrops(txns: seq<Txn>, i: nat, t: Txn)
    requires i < |txns| && Remaining(t) < Remaining(txns[i])
    ensures Measure(txns[i := t]) < Measure(txns)
  {
    hide Remaining;
    var front := txns[..|txns| - 1];
    if i == |txns| - 1 {
      assert txns[i := t][..|txns| - 1] == front;
    } else {
      MeasureDrops(front, i, t);
      assert txns[i := t][..|txns| - 1] == front[i := t];
    }
  }

  /** Every action uses up some of the work that is left. */
  lemma NextMeasure(s: System, a: Action)
    requires Enabled(s, a) && RunningConsistent(s)
    ensures Measure(Next(s, a).txns) < Measure(s.txns)
  {
    hide LockCount, LockAt, WorkAt, Compute, Install, Measure, Blocked;
    assert Consistent(s.txns[a.txn], s.tables.stock);
    MeasureDrops(s.txns, a.txn, Next(s, a).txns[a.txn]);
  }

  /** So no run is longer than the locks and commits its transactions started with. */
  lemma {:induction false} RunsAreBounded(s: System, actions: seq<Action>, start: Tables, programs: seq<Program>)
    requires IsRun(s, actions)
    requires Exclusive(s) && RunningConsistent(s) && SamePrograms(s, programs) && Serialised(s, start, programs)
    ensures |actions| + Measure(After(s, actions).txns) <= Measure(s.txns)
    decreases |actions|
  {
    hide Exclusive, RunningConsistent, SamePrograms, Serialised, Next, Enabled, Measure;
    if actions != [] {
      NextMeasure(s, actions[0]);
      NextKeepsExclusive(s, actions[0]);
      NextKeepsConsistent(s, actions[0]);
      NextKeepsSerialised(s, actions[0], start, programs);
      RunsAreBounded(Next(s, actions[0]), actions[1..], start, programs);
    }
  }

  predicate Finished(s: System) {
    forall i :: 0 <= i < |s.txns| ==> s.txns[i].phase != Running
  }

  lemma OrderKept(s: System, actions: seq<Action>, programs: seq<Program>)
    requires IsRun(s, actions) && SamePrograms(After(s, actions), programs)
    requires forall i :: 0 <= i < |programs| ==> InLockOrder(programs[i])
    ensures AllInLockOrder(After(s, actions))
  {
    hide InLockOrder, After, IsRun;
  }

  /** Deadlock freedom and termination together: whatever has happened so far to
      transactions that lock in ascending order, those still running can go on, and after
      no more actions than there is work left all are finished. */
  lemma NoDeadlock(t: Tables, programs: seq<Program>, actions: seq<Action>)
    requires forall i :: 0 <= i < |programs| ==> InLockOrder(programs[i])
    requires IsRun(Start(t, programs), actions)
    ensures var s := After(Start(t, programs), actions);
            && (Finished(s) || exists j :: CanAdvance(s, j))
            && |actions| + Measure(s.txns) <= Measure(Start(t, programs).txns)
  {
    hide InLockOrder, After, IsRun, Measure, Exclusive, RunningConsistent, SamePrograms, Serialised;
    StartIsSerialised(t, programs);
    RunKeepsAll(Start(t, programs), actions, t, programs);
    RunsAreBounded(Start(t, programs), actions, t, programs);
    OrderKept(Start(t, programs), actions, programs);
    var s := After(Start(t, programs), actions);
    if i :| 0 <= i < |s.txns| && s.txns[i].phase == Running {
      assert IsRunning(s, i);
      SomebodyCanAdvance(s);
    }
  }

  lemma CrosswiseIsStuck(s: System, a: Order, b: Order, x: int, y: int)
    requires a.lines == [Line(x, 1, 0.0), Line(y, 1, 0.0)] && b.lines == [Line(y, 1, 0.0), Line(x, 1, 0.0)]
    requires |s.txns| == 2 && forall i :: 0 <= i < 2 ==> s.txns[i].phase == Running && s.txns[i].held == 2
    requires s.txns[0].program == OrderTx(a, a.lines) && s.txns[1].program == OrderTx(b, b.lines)
    ensures Stuck(s)
  {
    assert LockAt(OrderTx(a, a.lines), 0) == LockAt(OrderTx(b, b.lines), 2) == BreadRow(x);
    assert LockAt(OrderTx(b, b.lines), 0) == LockAt(OrderTx(a, a.lines), 2) == BreadRow(y);
    assert Owns(s.txns[0], BreadRow(x)) && Owns(s.txns[1], BreadRow(y));
    assert Blocked(s, 0, BreadRow(y)) && Blocked(s, 1, BreadRow(x));
  }

  /** Locking in the buyer's own order instead can leave two orders waiting for each
      other for ever: each holds the bread the other one wants next. */
  lemma UnsortedLocksDeadlock(a: Order, b: Order, x: int, y: int, q: nat)
    requires x != y && a.id != b.id && q > 0
    requires a.lines == [Line(x, 1, 0.0), Line(y, 1, 0.0)] && b.lines == [Line(y, 1, 0.0), Line(x, 1, 0.0)]
    ensures var s := Start(Tables(map[x := q, y := q], map[]), [OrderTx(a, a.lines), OrderTx(b, b.lines)]);
            exists actions :: IsRun(s, actions) && Stuck(After(s, actions))
  {
    hide FulfillLine, SettleOrder, Stuck;
    var s0 := Start(Tables(map[x := q, y := q], map[]), [OrderTx(a, a.lines), OrderTx(b, b.lines)]);
    assert FulfillLine(a, a.lines[0], s0.tables.stock, NO_WORK).Some? by { TakesOne(a, a.lines[0], s0.tables.stock); }
    assert FulfillLine(b, b.lines[0], s0.tables.stock, NO_WORK).Some? by { TakesOne(b, b.lines[0], s0.tables.stock); }
    assert Enabled(s0, Advance(0));
    var s1 := Next(s0, Advance(0));
    assert Enabled(s1, Advance(1));
    var s2 := Next(s1, Advance(1));
    assert Enabled(s2, Advance(0));
    var s3 := Next(s2, Advance(0));
    assert Enabled(s3, Advance(1));
    var s4 := Next(s3, Advance(1));
    CrosswiseIsStuck(s4, a, b, x, y);
    Prepend(s3, Advance(1), []);
    Prepend(s2, Advance(0), [Advance(1)] + []);
    Prepend(s1, Advance(1), [Advance(0)] + ([Advance(1)] + []));
    Prepend(s0, Advance(0), [Advance(1)] + ([Advance(0)] + ([Advance(1)] + [])));
  }

  lemma Prepend(s: System, a: Action, rest: seq<Action>)
    requires Enabled(s, a) && IsRun(Next(s, a), rest)
    ensures IsRun(s, [a] + rest) && After(s, [a] + rest) == After(Next(s, a), rest)
  {
    assert ([a] + rest)[1..] == rest;
  }

  lemma TakesOne(o: Order, line: Line, stock: Stock)
    requires line.breadId in stock
    ensures FulfillLine(o, line, stock, NO_WORK).Some?
  {
  }

  /** Unfinished, and nobody can go on. */
  predicate Stuck(s: System) {
    !Finished(s) && forall j :: 0 <= j < |s.txns| ==> !CanAdvance(s, j)
  }
}
