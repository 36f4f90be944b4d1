/** Everything that locks rows: the stock transactions, which lock exclusively, beside new
    orders, whose detail rows share-lock the breads they refer to in the buyer's order, and
    posted batches, which lock order headers. Only the locks matter here. */
module InsertLocks {
  import opened Orders
  import opened Database
  import RowLocks

  /** A new uuid is a key of its own: a second insert of it waits for the first. */
  datatype Key = UuidKey(uuid: string) | RowKey(row: RowLocks.Row)

  datatype Mode = Shared | Exclusive

  datatype Lock = Lock(key: Key, mode: Mode)

  /** A transaction as the locks it takes, in order. */
  type Locks = seq<Lock>

  /** What a stock transaction locks. */
  function StockLocks(p: RowLocks.Program): Locks {
    seq(RowLocks.LockCount(p), k requires 0 <= k < RowLocks.LockCount(p) =>
      Lock(RowKey(RowLocks.LockAt(p, k)), Exclusive))
  }

  /** What storing an order locks: its uuid, and by foreign key the breads of its details. */
  function InsertedLocks(uuid: string, breads: seq<int>): Locks {
    [Lock(UuidKey(uuid), Exclusive)]
    + seq(|breads|, k requires 0 <= k < |breads| => Lock(RowKey(RowLocks.BreadRow(breads[k])), Shared))
  }

  /** What posting a batch locks: the headers of its orders, one after the other. */
  function PostedLocks(orderIds: seq<int>): Locks {
    seq(|orderIds|, k requires 0 <= k < |orderIds| => Lock(RowKey(RowLocks.HeaderRow(orderIds[k])), Exclusive))
  }

  predicate Conflict(a: Lock, b: Lock) {
    a.key == b.key && (a.mode == Exclusive || b.mode == Exclusive)
  }

  predicate Conflicting(a: Locks, b: Locks) {
    exists i, j :: 0 <= i < |a| && 0 <= j < |b| && Conflict(a[i], b[j])
  }

  /** Two new orders can be in each other's way exactly if they have the same uuid: their
      locks on common breads are shared. */
  lemma InsertsConflictIff(uuid: string, breads: seq<int>, other: string, others: seq<int>)
    ensures Conflicting(InsertedLocks(uuid, breads), InsertedLocks(other, others)) <==> uuid == other
  {
    assert uuid == other ==> Conflict(InsertedLocks(uuid, breads)[0], InsertedLocks(other, others)[0]);
  }

  /** A new order and a stock transaction, exactly if they have a bread in common. */
  lemma InsertStockConflictIff(uuid: string, breads: seq<int>, p: RowLocks.Program)
    ensures Conflicting(InsertedLocks(uuid, breads), StockLocks(p))
       <==> if p.OrderTx? then exists i, j :: 0 <= i < |breads| && 0 <= j < |p.lines| && breads[i] == p.lines[j].breadId
            else p.bread in breads
  {
    var a, b := InsertedLocks(uuid, breads), StockLocks(p);
    if Conflicting(a, b) {
      var i, j :| 0 <= i < |a| && 0 <= j < |b| && Conflict(a[i], b[j]);
      assert i > 0 && breads[i - 1] in breads;
      assert p.OrderTx? ==> breads[i - 1] == p.lines[j / 2].breadId;
    }
    if p.OrderTx? {
      if i, j :| 0 <= i < |breads| && 0 <= j < |p.lines| && breads[i] == p.lines[j].breadId {
        assert Conflict(a[i + 1], b[2 * j]);
      }
    } else if i :| 0 <= i < |breads| && breads[i] == p.bread {
      assert Conflict(a[i + 1], b[0]);
    }
  }

  // ---------------------------------------------------------------- running

  datatype Txn = Txn(locks: Locks, held: nat, over: bool)

  type System = seq<Txn>

  predicate Holds(t: Txn, l: Lock) {
    !t.over && exists k :: 0 <= k < t.held && k < |t.locks| && t.locks[k] == l
  }

  predicate Blocks(t: Txn, l: Lock) {
    !t.over && exists k :: 0 <= k < t.held && k < |t.locks| && Conflict(t.locks[k], l)
  }

  /** A running transaction takes its next lock or, holding all, ends. */
  predicate CanAdvance(s: System, i: nat) {
    && i < |s| && !s[i].over && s[i].held <= |s[i].locks|
    && (s[i].held < |s[i].locks| ==>
          forall j :: 0 <= j < |s| && j != i ==> !Blocks(s[j], s[i].locks[s[i].held]))
  }

  /** `Kill` is any error, a rollback of the database's own choice included. */
  datatype Action = Advance(txn: nat) | Kill(txn: nat)

  predicate Enabled(s: System, a: Action) {
    if a.Kill? then a.txn < |s| && !s[a.txn].over else CanAdvance(s, a.txn)
  }

  function Next(s: System, a: Action): System
    requires Enabled(s, a)
  {
    var t := s[a.txn];
    s[a.txn := if a.Kill? || t.held == |t.locks| then t.(over := true) else t.(held := t.held + 1)]
  }

  predicate IsRun(s: System, actions: seq<Action>)
    decreases |actions|
  {
    actions == [] || (Enabled(s, actions[0]) && IsRun(Next(s, actions[0]), actions[1..]))
  }

  function After(s: System, actions: seq<Action>): System
    requires IsRun(s, actions)
    decreases |actions|
  {
    if actions == [] then s else After(Next(s, actions[0]), actions[1..])
  }

  function Start(programs: seq<Locks>): System {
    seq(|programs|, i requires 0 <= i < |programs| => Txn(programs[i], 0, false))
  }

  /** Somebody is unfinished and nobody can go on. */
  predicate Stuck(s: System) {
    (exists i :: 0 <= i < |s| && !s[i].over) && forall i :: 0 <= i < |s| ==> !CanAdvance(s, i)
  }

  // ---------------------------------------------------------------- no deadlock

  /** One locking order for all keys: uuids, then breads with their details, then headers. */
  function Rank(key: Key): (int, int) {
    match key
    case UuidKey(_) => (0, 0)
    case RowKey(BreadRow(b)) => (1, 2 * b)
    case RowKey(DetailRow(_, b)) => (1, 2 * b + 1)
    case RowKey(HeaderRow(id)) => (2, id)
  }

  predicate Below(a: Key, b: Key) {
    Rank(a).0 < Rank(b).0 || (Rank(a).0 == Rank(b).0 && Rank(a).1 < Rank(b).1)
  }

  /** Each lock comes after all earlier ones, unless it is one of them again. */
  predicate Ordered(locks: Locks) {
    forall k :: 0 <= k < |locks| ==> OrderedAt(locks, k)
  }

  predicate OrderedAt(locks: Locks, k: nat)
    requires k < |locks|
  {
    || (exists j :: 0 <= j < k && locks[j] == locks[k])
    || (forall j :: 0 <= j < k ==> Below(locks[j].key, locks[k].key))
  }

  /** No two running transactions hold conflicting locks. */
  ghost predicate Compatible(s: System) {
    forall i, j, l :: 0 <= i < |s| && 0 <= j < |s| && i != j && Holds(s[i], l) ==> !Blocks(s[j], l)
  }

  predicate Sane(s: System) {
    forall i :: 0 <= i < |s| ==> s[i].held <= |s[i].locks| && Ordered(s[i].locks)
  }

  lemma NextKeeps(s: System, a: Action)
    requires Enabled(s, a) && Compatible(s) && Sane(s)
    ensures Compatible(Next(s, a)) && Sane(Next(s, a)) && |Next(s, a)| == |s|
  {
    hide Ordered;
    var r, n := Next(s, a), a.txn;
    forall i, j, l | 0 <= i < |r| && 0 <= j < |r| && i != j && Holds(r[i], l) ensures !Blocks(r[j], l) {
      NextAdds(s, a, i, l);
      if Blocks(r[j], l) {
        NextBlocks(s, a, j, l);
        if !Blocks(s[j], l) {
          var mine := s[n].locks[s[n].held];
          assert j == n && Conflict(mine, l);
          assert Holds(s[i], l);
          HolderBlocks(s[i], l, mine);
        }
      }
    }
  }

  lemma HolderBlocks(t: Txn, l: Lock, other: Lock)
    requires Holds(t, l) && Conflict(other, l)
    ensures Blocks(t, other)
  {
  }

  /** What a transaction holds after a step it held before, or has just got. */
  lemma NextAdds(s: System, a: Action, i: nat, l: Lock)
    requires Enabled(s, a) && i < |s| && Holds(Next(s, a)[i], l)
    ensures Holds(s[i], l)
         || (a == Advance(i) && s[i].held < |s[i].locks| && s[i].locks[s[i].held] == l)
  {
  }

  lemma NextBlocks(s: System, a: Action, i: nat, l: Lock)
    requires Enabled(s, a) && i < |s| && Blocks(Next(s, a)[i], l)
    ensures Blocks(s[i], l)
         || (a == Advance(i) && s[i].held < |s[i].locks| && Conflict(s[i].locks[s[i].held], l))
  {
  }

  predicate Waits(s: System, i: nat) {
    i < |s| && !s[i].over && s[i].held < |s[i].locks|
  }

  function Wanted(s: System, i: nat): Lock
    requires Waits(s, i)
  {
    s[i].locks[s[i].held]
  }

  /** Among the waiting there is one whose wanted key no other wanted key comes after. */
  lemma {:induction false} HighestWaiting(s: System, n: nat) returns (top: nat)
    requires n <= |s| && exists i :: 0 <= i < n && Waits(s, i)
    ensures Waits(s, top)
    ensures forall i :: 0 <= i < n && Waits(s, i) ==> !Below(Wanted(s, top).key, Wanted(s, i).key)
  {
    hide Rank;
    if exists i :: 0 <= i < n - 1 && Waits(s, i) {
      top := HighestWaiting(s, n - 1);
      if Waits(s, n - 1) && Below(Wanted(s, top).key, Wanted(s, n - 1).key) {
        top := n - 1;
      }
    } else {
      top := n - 1;
    }
  }

  lemma BlockedBy(s: System, i: nat) returns (j: nat)
    requires Waits(s, i) && !CanAdvance(s, i) && Sane(s)
    ensures j < |s| && j != i && Blocks(s[j], Wanted(s, i))
  {
    j :| 0 <= j < |s| && j != i && Blocks(s[j], s[i].locks[s[i].held]);
  }

  /** Transactions that lock in order are never stuck, shared locks or not. */
  lemma NeverStuck(s: System)
    requires Compatible(s) && Sane(s)
    ensures !Stuck(s)
  {
    hide Below, Ordered, Blocks, Conflict, Compatible;
    if Stuck(s) {
      forall i | 0 <= i < |s| && !s[i].over ensures Waits(s, i) {
        assert !CanAdvance(s, i);
      }
      var top := HighestWaiting(s, |s|);
      var j := BlockedBy(s, top);
      assert Waits(s, j) by { BlockerRuns(s[j], Wanted(s, top)); }
      var m := BlockedBy(s, j);
      BlockerIsAhead(s, top, j);
      NotBoth(s, j, m, Wanted(s, j));
    }
  }

  lemma BlockerRuns(t: Txn, l: Lock)
    requires Blocks(t, l)
    ensures !t.over
  {
  }

  lemma NotBoth(s: System, i: nat, j: nat, l: Lock)
    requires Compatible(s) && i < |s| && j < |s| && i != j
    ensures Holds(s[i], l) ==> !Blocks(s[j], l)
  {
    hide Blocks, Holds;
  }

  /** Whoever blocks a wanted key wants one that comes after it, or one it holds already. */
  lemma BlockerIsAhead(s: System, i: nat, j: nat)
    requires Sane(s) && Waits(s, i) && Waits(s, j) && Blocks(s[j], Wanted(s, i))
    ensures Below(Wanted(s, i).key, Wanted(s, j).key) || Holds(s[j], Wanted(s, j))
  {
    hide Rank;
    assert OrderedAt(s[j].locks, s[j].held);
  }

  lemma {:induction false} RunKeeps(s: System, actions: seq<Action>)
    requires Compatible(s) && Sane(s) && IsRun(s, actions)
    ensures Compatible(After(s, actions)) && Sane(After(s, actions))
    decreases |actions|
  {
    hide Compatible, Sane, Next, Enabled;
    if actions != [] {
      NextKeeps(s, actions[0]);
      RunKeeps(Next(s, actions[0]), actions[1..]);
    }
  }

  lemma StartIsFine(programs: seq<Locks>)
    requires forall p <- programs :: Ordered(p)
    ensures Compatible(Start(programs)) && Sane(Start(programs))
  {
    hide Ordered;
  }

  /** Over every run, killed transactions included. */
  lemma NoDeadlock(programs: seq<Locks>, actions: seq<Action>)
    requires (forall p <- programs :: Ordered(p)) && IsRun(Start(programs), actions)
    ensures !Stuck(After(Start(programs), actions))
  {
    hide Compatible, Sane, Ordered, Stuck, IsRun, After;
    StartIsFine(programs);
    RunKeeps(Start(programs), actions);
    NeverStuck(After(Start(programs), actions));
  }

  // ---------------------------------------------------------------- who locks in order

  predicate Ascending(keys: seq<int>) {
    forall i, j :: 0 <= i < j < |keys| ==> keys[i] < keys[j]
  }

  predicate Distinct(keys: seq<int>) {
    forall i, j :: 0 <= i < j < |keys| ==> keys[i] != keys[j]
  }

  /** The stock transactions do, because they sort their breads. */
  lemma StockIsOrdered(p: RowLocks.Program)
    requires RowLocks.InLockOrder(p)
    ensures Ordered(StockLocks(p))
  {
    var locks := StockLocks(p);
    forall k | 0 <= k < |locks| ensures OrderedAt(locks, k) {
      StockIsOrderedAt(p, k);
    }
  }

  lemma StockIsOrderedAt(p: RowLocks.Program, k: nat)
    requires RowLocks.InLockOrder(p) && k < RowLocks.LockCount(p)
    ensures OrderedAt(StockLocks(p), k)
  {
    var locks := StockLocks(p);
    if p.OrderTx? && k < 2 * |p.lines| && k >= 2 && p.lines[k / 2 - 1].breadId == p.lines[k / 2].breadId {
      assert locks[k - 2] == locks[k];
    } else {
      forall j | 0 <= j < k ensures Below(locks[j].key, locks[k].key) {
        if p.OrderTx? && k < 2 * |p.lines| && j / 2 < k / 2 {
          assert p.lines[j / 2].breadId <= p.lines[k / 2 - 1].breadId < p.lines[k / 2].breadId;
        }
      }
    }
  }

  lemma InsertIsOrdered(uuid: string, breads: seq<int>)
    requires Ascending(breads)
    ensures Ordered(InsertedLocks(uuid, breads))
  {
    var locks := InsertedLocks(uuid, breads);
    forall k | 0 <= k < |locks| ensures OrderedAt(locks, k) {
      forall j | 0 <= j < k ensures Below(locks[j].key, locks[k].key) {
        if j > 0 {
          assert breads[j - 1] < breads[k - 1];
        }
      }
    }
  }

  lemma PostIsOrdered(orderIds: seq<int>)
    requires Ascending(orderIds)
    ensures Ordered(PostedLocks(orderIds))
  {
    var locks := PostedLocks(orderIds);
    forall k | 0 <= k < |locks| ensures OrderedAt(locks, k) {
    }
  }

  // ---------------------------------------------------------------- why an insert has to

  /** An insert beside stock transactions. */
  function Company(insert: Locks, stocks: seq<RowLocks.Program>): seq<Locks> {
    [insert] + seq(|stocks|, k requires 0 <= k < |stocks| => StockLocks(stocks[k]))
  }

  predicate AllSorted(stocks: seq<RowLocks.Program>) {
    forall k :: 0 <= k < |stocks| ==> RowLocks.InLockOrder(stocks[k])
  }

  predicate NeverStuckBeside(insert: Locks, stocks: seq<RowLocks.Program>, actions: seq<Action>) {
    AllSorted(stocks) && IsRun(Start(Company(insert, stocks)), actions) ==>
      !Stuck(After(Start(Company(insert, stocks)), actions))
  }

  function Repeat(a: Action, n: nat): seq<Action> {
    if n == 0 then [] else [a] + Repeat(a, n - 1)
  }

  lemma {:induction false} RunConcat(s: System, first: seq<Action>, second: seq<Action>)
    requires IsRun(s, first) && IsRun(After(s, first), second)
    ensures IsRun(s, first + second) && After(s, first + second) == After(After(s, first), second)
    decreases |first|
  {
    hide Next, Enabled;
    if first == [] {
      assert first + second == second;
    } else {
      assert (first + second)[0] == first[0] && (first + second)[1..] == first[1..] + second;
      RunConcat(Next(s, first[0]), first[1..], second);
    }
  }

  lemma RunOne(s: System, a: Action)
    requires Enabled(s, a)
    ensures IsRun(s, [a]) && After(s, [a]) == Next(s, a)
  {
    hide Next, Enabled;
    assert [a][1..] == [];
  }

  /** As long as the other one holds nothing, the first transaction takes lock after lock. */
  lemma {:induction false} FirstAlone(s: System, n: nat)
    requires |s| == 2 && !s[0].over && s[1].held == 0 && s[0].held + n <= |s[0].locks|
    ensures IsRun(s, Repeat(Advance(0), n))
    ensures After(s, Repeat(Advance(0), n)) == [s[0].(held := s[0].held + n), s[1]]
    decreases n
  {
    hide Blocks, IsRun, After;
    if n == 0 {
      RunNothing(s);
      assert s == [s[0], s[1]];
    } else {
      NothingHeldNothingBlocked(s[1], s[0].locks[s[0].held]);
      assert Enabled(s, Advance(0));
      RunOne(s, Advance(0));
      FirstAlone(Next(s, Advance(0)), n - 1);
      RunConcat(s, [Advance(0)], Repeat(Advance(0), n - 1));
    }
  }

  lemma RunNothing(s: System)
    ensures IsRun(s, []) && After(s, []) == s
  {
  }

  lemma NothingHeldNothingBlocked(t: Txn, l: Lock)
    requires t.held == 0
    ensures !Blocks(t, l)
  {
  }

  /** The second transaction takes its next lock, which the first does not hold. */
  lemma SecondAdvances(s: System, actions: seq<Action>)
    requires |s| == 2 && IsRun(s, actions) && |After(s, actions)| == 2
    requires var r := After(s, actions);
             && !r[1].over && r[1].held < |r[1].locks| && !Blocks(r[0], r[1].locks[r[1].held])
    ensures IsRun(s, actions + [Advance(1)])
    ensures var r := After(s, actions);
            After(s, actions + [Advance(1)]) == [r[0], r[1].(held := r[1].held + 1)]
  {
    hide Blocks, IsRun, After;
    var r := After(s, actions);
    assert Enabled(r, Advance(1));
    RunOne(r, Advance(1));
    RunConcat(s, actions, [Advance(1)]);
    assert Next(r, Advance(1)) == [r[0], r[1].(held := r[1].held + 1)];
  }

  /** A stock transaction on two breads. */
  function TwoBreads(x: int, y: int): RowLocks.Program {
    var lines := [Line(x, 1, 0.0), Line(y, 1, 0.0)];
    RowLocks.OrderTx(Order(0, 0, "", lines, 0, 0.0, [], false, false), lines)
  }

  /** What an insert holds after the details of its first `n` breads blocks only these. */
  lemma InsertBlocks(uuid: string, breads: seq<int>, n: nat, l: Lock)
    requires n <= |breads|
    ensures var t := Txn(InsertedLocks(uuid, breads), n + 1, false);
            && (l.key.RowKey? && l.key.row.BreadRow? && l.mode == Exclusive ==>
                  (Blocks(t, l) <==> exists k :: 0 <= k < n && breads[k] == l.key.row.bread))
            && (l.key.RowKey? && !l.key.row.BreadRow? ==> !Blocks(t, l))
  {
    var t := Txn(InsertedLocks(uuid, breads), n + 1, false);
    forall k | 0 <= k < n ensures t.locks[k + 1] == Lock(RowKey(RowLocks.BreadRow(breads[k])), Shared) {
    }
    if l.key.RowKey? && l.key.row.BreadRow? && l.mode == Exclusive {
      if k :| 0 <= k < n && breads[k] == l.key.row.bread {
        assert Conflict(t.locks[k + 1], l);
      }
    }
  }

  /** An insert with its breads out of order, and a transaction that locks two of them in
      order: each ends up holding the bread that the other one wants next. */
  lemma OutOfOrderSticks(uuid: string, breads: seq<int>, i: nat, j: nat)
    requires i < j < |breads| && breads[i] > breads[j] && Distinct(breads)
    ensures var s := Start(Company(InsertedLocks(uuid, breads), [TwoBreads(breads[j], breads[i])]));
            exists actions :: IsRun(s, actions) && Stuck(After(s, actions))
  {
    hide IsRun, After, Stuck, Blocks;
    var x, y := breads[j], breads[i];
    var insert, stock := InsertedLocks(uuid, breads), StockLocks(TwoBreads(x, y));
    TwoBreadsLocks(x, y);
    var s := Start(Company(insert, [TwoBreads(x, y)]));
    assert s == [Txn(insert, 0, false), Txn(stock, 0, false)];
    var first := Repeat(Advance(0), j + 1);
    FirstAlone(s, j + 1);
    InsertBlocks(uuid, breads, j, stock[0]);
    SecondAdvances(s, first);
    InsertBlocks(uuid, breads, j, stock[1]);
    SecondAdvances(s, first + [Advance(1)]);
    InsertBlocks(uuid, breads, j, stock[2]);
    Crosswise([Txn(insert, j + 1, false), Txn(stock, 2, false)]);
  }

  lemma TwoBreadsLocks(x: int, y: int)
    ensures var locks := StockLocks(TwoBreads(x, y));
            && |locks| == 5
            && locks[0] == Lock(RowKey(RowLocks.BreadRow(x)), Exclusive)
            && locks[1] == Lock(RowKey(RowLocks.DetailRow(0, x)), Exclusive)
            && locks[2] == Lock(RowKey(RowLocks.BreadRow(y)), Exclusive)
  {
  }

  lemma Crosswise(s: System)
    requires |s| == 2 && !s[0].over && !s[1].over
    requires 0 < s[0].held < |s[0].locks| && 0 < s[1].held < |s[1].locks|
    requires Conflict(s[1].locks[0], s[0].locks[s[0].held])
    requires Blocks(s[0], s[1].locks[s[1].held])
    ensures Stuck(s)
  {
    assert Blocks(s[1], s[0].locks[s[0].held]);
  }

  /** Storing an order can run into a deadlock with the stock transactions exactly if the
      buyer did not list the breads in ascending order. */
  lemma InsertIsSafeIff(uuid: string, breads: seq<int>)
    requires Distinct(breads)
    ensures (forall stocks: seq<RowLocks.Program>, actions: seq<Action> ::
               NeverStuckBeside(InsertedLocks(uuid, breads), stocks, actions))
       <==> Ascending(breads)
  {
    hide Stuck, IsRun, After, StockLocks, InsertedLocks, Ordered;
    var insert := InsertedLocks(uuid, breads);
    if Ascending(breads) {
      InsertIsOrdered(uuid, breads);
      forall stocks: seq<RowLocks.Program>, actions: seq<Action> ensures NeverStuckBeside(insert, stocks, actions) {
        if AllSorted(stocks) && IsRun(Start(Company(insert, stocks)), actions) {
          forall k | 0 <= k < |stocks| ensures Ordered(StockLocks(stocks[k])) {
            StockIsOrdered(stocks[k]);
          }
          NoDeadlock(Company(insert, stocks), actions);
        }
      }
    } else {
      var i, j :| 0 <= i < j < |breads| && breads[i] >= breads[j];
      OutOfOrderSticks(uuid, breads, i, j);
      var stocks := [TwoBreads(breads[j], breads[i])];
      var s := Start(Company(insert, stocks));
      var actions :| IsRun(s, actions) && Stuck(After(s, actions));
      assert AllSorted(stocks);
      assert !NeverStuckBeside(insert, stocks, actions);
    }
  }

  /** Two batches that post the same two orders in opposite orders can block each other. */
  lemma CrosswisePostsStick(a: int, b: int)
    requires a != b
    ensures var s := Start([PostedLocks([a, b]), PostedLocks([b, a])]);
            exists actions :: IsRun(s, actions) && Stuck(After(s, actions))
  {
    hide IsRun, After, Stuck;
    var one, two := PostedLocks([a, b]), PostedLocks([b, a]);
    var s := Start([one, two]);
    assert s == [Txn(one, 0, false), Txn(two, 0, false)];
    FirstAlone(s, 1);
    SecondAdvances(s, Repeat(Advance(0), 1));
    assert Conflict(one[0], two[1]);
    Crosswise([Txn(one, 1, false), Txn(two, 1, false)]);
  }
}
