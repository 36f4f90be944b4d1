/** Restocking by bread-made messages beside reservations. `AdjustBreadQuantity` reads a
    quantity in one statement and writes the new one in another, so that anything may
    happen in between. */
module Restock {
  import opened Orders
  import opened Database
  import opened Repository

  datatype Message = Message(bread: int, quantity: int)

  /** A listener between its two statements holds the quantity it has read and the one it
      is about to write. */
  datatype Listener = Idle | Holding(message: Message, read: nat, quantity: nat)

  datatype System = System(stock: Stock, queue: multiset<Message>, listeners: seq<Listener>)

  /** `Read` is a delivery up to the first statement, `Write` the second one. A message
      whose acknowledgement is lost, or whose write fails, goes back to the queue. */
  datatype Action =
    | Read(listener: nat, message: Message)
    | Write(listener: nat, ackLost: bool)
    | WriteFails(listener: nat)
    | Reserve(bread: int, requested: int)

  predicate Possible(s: System, a: Action) {
    match a
    case Read(w, message) => w < |s.listeners| && s.listeners[w].Idle? && message in s.queue
    case Write(w, _) => w < |s.listeners| && s.listeners[w].Holding?
    case WriteFails(w) => w < |s.listeners| && s.listeners[w].Holding?
    case Reserve(_, _) => true
  }

  /** What the first statement makes of a message: a quantity to write, or an error. */
  function Intended(stock: Stock, m: Message): Option<nat> {
    if m.bread in stock then Adjusted(stock[m.bread], m.quantity) else None
  }

  function Step(s: System, a: Action): System
    requires Possible(s, a)
  {
    match a
    case Read(w, message) =>
      (match Intended(s.stock, message)
       case None => s
       case Some(q) =>
         s.(queue := s.queue - multiset{message},
            listeners := s.listeners[w := Holding(message, s.stock[message.bread], q)]))
    case Write(w, ackLost) =>
      var held := s.listeners[w];
      System(Written(s.stock, held.message.bread, held.quantity),
             if ackLost then s.queue + multiset{held.message} else s.queue,
             s.listeners[w := Idle])
    case WriteFails(w) =>
      s.(queue := s.queue + multiset{s.listeners[w].message}, listeners := s.listeners[w := Idle])
    case Reserve(bread, requested) =>
      s.(stock := AfterItem(s.stock, bread, requested))
  }

  /** The state after the first `n` actions of a run; what is not possible does not happen. */
  function After(s: System, run: seq<Action>, n: nat): System
    requires n <= |run|
  {
    if n == 0 then s
    else
      var before := After(s, run, n - 1);
      if Possible(before, run[n - 1]) then Step(before, run[n - 1]) else before
  }

  predicate InRange(s: System) {
    && (forall b <- s.stock :: s.stock[b] <= SHELF_LIMIT)
    && (forall w :: 0 <= w < |s.listeners| && s.listeners[w].Holding? ==> s.listeners[w].quantity <= SHELF_LIMIT)
  }

  lemma StepKeepsRange(s: System, a: Action)
    requires Possible(s, a)
    ensures Step(s, a).stock.Keys == s.stock.Keys && |Step(s, a).listeners| == |s.listeners|
    ensures InRange(s) ==> InRange(Step(s, a))
  {
    hide AfterItem, Adjusted, InRange;
    match a
    case Reserve(bread, requested) =>
      ReservingTakes(s.stock, bread, requested);
      ReservingKeepsRange(s, bread, requested);
    case Read(w, message) => ReadingKeepsRange(s, w, message);
    case Write(w, ackLost) => WritingKeepsRange(s, w, ackLost);
    case WriteFails(w) => FailingKeepsRange(s, w);
  }

  lemma ReservingKeepsRange(s: System, bread: int, requested: int)
    ensures InRange(s) ==> InRange(s.(stock := AfterItem(s.stock, bread, requested)))
  {
    hide AfterItem;
    ReservingTakes(s.stock, bread, requested);
  }

  lemma ReadingKeepsRange(s: System, w: nat, m: Message)
    requires Possible(s, Read(w, m))
    ensures InRange(s) ==> InRange(Step(s, Read(w, m)))
  {
  }

  lemma WritingKeepsRange(s: System, w: nat, ackLost: bool)
    requires Possible(s, Write(w, ackLost))
    ensures InRange(s) ==> InRange(Step(s, Write(w, ackLost)))
  {
  }

  lemma FailingKeepsRange(s: System, w: nat)
    requires Possible(s, WriteFails(w))
    ensures InRange(s) ==> InRange(Step(s, WriteFails(w)))
  {
  }

  lemma ReservingTakes(stock: Stock, bread: int, requested: int)
    ensures AfterItem(stock, bread, requested).Keys == stock.Keys
    ensures forall b <- stock :: AfterItem(stock, bread, requested)[b] <= stock[b]
  {
  }

  /** Under any interleaving of listeners and reservations, with any redeliveries, no
      quantity leaves 0 to 100, and no bread appears or disappears. */
  lemma {:induction false} StockStaysInRange(s: System, run: seq<Action>, n: nat)
    requires n <= |run|
    ensures After(s, run, n).stock.Keys == s.stock.Keys && |After(s, run, n).listeners| == |s.listeners|
    ensures InRange(s) ==> InRange(After(s, run, n))
  {
    hide Possible, Step, InRange;
    if n > 0 {
      StockStaysInRange(s, run, n - 1);
      if Possible(After(s, run, n - 1), run[n - 1]) {
        StepKeepsRange(After(s, run, n - 1), run[n - 1]);
      }
    }
  }

  // ---------------------------------------------------------------- lost updates

  /** Nothing in the run is done by listener `w`. */
  predicate LeavesAlone(run: seq<Action>, w: nat) {
    forall a <- run :: a.Reserve? || a.listener != w
  }

  lemma {:induction false} HoldingStays(s: System, run: seq<Action>, n: nat, w: nat)
    requires LeavesAlone(run, w) && n <= |run| && w < |s.listeners|
    ensures |After(s, run, n).listeners| == |s.listeners| && After(s, run, n).listeners[w] == s.listeners[w]
  {
    hide Possible, Step;
    if n > 0 {
      HoldingStays(s, run, n - 1, w);
      assert run[n - 1] in run;
      if Possible(After(s, run, n - 1), run[n - 1]) {
        StepLeavesAlone(After(s, run, n - 1), run[n - 1], w);
      }
    }
  }

  lemma StepLeavesAlone(s: System, a: Action, w: nat)
    requires Possible(s, a) && w < |s.listeners| && (a.Reserve? || a.listener != w)
    ensures |Step(s, a).listeners| == |s.listeners| && Step(s, a).listeners[w] == s.listeners[w]
  {
    hide Intended, AfterItem, Written;
  }

  /** A restock as it ends: read, then whatever others do, then written. */
  function Interrupted(s: System, w: nat, m: Message, between: seq<Action>, ackLost: bool): System
    requires w < |s.listeners| && Possible(s, Read(w, m))
  {
    var middle := After(Step(s, Read(w, m)), between, |between|);
    if Possible(middle, Write(w, ackLost)) then Step(middle, Write(w, ackLost)) else middle
  }

  /** The write forgets all that happened since the read: the bread ends up where the
      restock alone would have put it, whatever others granted or restocked meanwhile. */
  lemma WriteForgetsTheMeantime(s: System, w: nat, m: Message, between: seq<Action>, ackLost: bool)
    requires w < |s.listeners| && Possible(s, Read(w, m)) && Intended(s.stock, m).Some? && LeavesAlone(between, w)
    ensures var end := Interrupted(s, w, m, between, ackLost);
            && m.bread in end.stock
            && end.stock[m.bread] == AdjustStock(s.stock, m.bread, m.quantity)[m.bread]
  {
    hide LeavesAlone, After;
    var read := Step(s, Read(w, m));
    HoldingStays(read, between, |between|, w);
    StockStaysInRange(read, between, |between|);
    assert m.bread in After(read, between, |between|).stock.Keys;
  }

  /** No update is lost by a change computed from `read` and written over `now`: the two
      are the same, or the limit of 100 hides the difference, or the change would now be
      refused and the write happens to restore what is there. */
  predicate NothingLost(read: nat, now: nat, change: int) {
    || now == read
    || (now + change >= SHELF_LIMIT && read + change >= SHELF_LIMIT)
    || (now + change < 0 && now == Min(SHELF_LIMIT, read + change))
  }

  /** The exact condition for one such restock to count as if it were atomic. */
  lemma WriteIsAtomicIff(s: System, w: nat, m: Message, between: seq<Action>, ackLost: bool)
    requires w < |s.listeners| && Possible(s, Read(w, m)) && Intended(s.stock, m).Some? && LeavesAlone(between, w)
    ensures After(Step(s, Read(w, m)), between, |between|).stock.Keys == s.stock.Keys
    ensures var now := After(Step(s, Read(w, m)), between, |between|).stock;
            && (Interrupted(s, w, m, between, ackLost).stock == AdjustStock(now, m.bread, m.quantity)
                <==> NothingLost(s.stock[m.bread], now[m.bread], m.quantity))
  {
    hide LeavesAlone, After;
    var read := Step(s, Read(w, m));
    HoldingStays(read, between, |between|, w);
    StockStaysInRange(read, between, |between|);
    var now := After(read, between, |between|).stock;
    assert m.bread in now.Keys;
    var end := Interrupted(s, w, m, between, ackLost).stock;
    assert end == now[m.bread := Adjusted(s.stock[m.bread], m.quantity).value];
    assert end[m.bread] == Adjusted(s.stock[m.bread], m.quantity).value;
    if NothingLost(s.stock[m.bread], now[m.bread], m.quantity) {
      assert now[m.bread := now[m.bread]] == now;
    }
  }

  /** What a reservation between read and write costs: the bread granted to it is back on
      the shelf, so that more is given out than was ever there. */
  lemma GrantedBreadComesBack(s: System, w: nat, m: Message, requested: int)
    requires w < |s.listeners| && Possible(s, Read(w, m)) && m.bread in s.stock
    requires m.quantity >= 0 && s.stock[m.bread] + m.quantity <= SHELF_LIMIT
    requires 0 < requested <= s.stock[m.bread]
    ensures var between := [Reserve(m.bread, requested)];
            && ItemGrant(Step(s, Read(w, m)).stock, m.bread, requested) == Granted(requested)
            && Available(Interrupted(s, w, m, between, false).stock, m.bread) == s.stock[m.bread] + m.quantity
  {
    var between := [Reserve(m.bread, requested)];
    assert LeavesAlone(between, w);
    WriteForgetsTheMeantime(s, w, m, between, false);
  }

  // ---------------------------------------------------------------- redelivery

  /** A message whose acknowledgement is lost is applied twice. That makes no difference
      exactly when it adds nothing, or the first time already filled the shelf, or it
      takes away and the second time there is too little left to take from. */
  lemma RedeliveryCountsTwice(stock: Stock, m: Message)
    requires m.bread in stock
    ensures AdjustStock(AdjustStock(stock, m.bread, m.quantity), m.bread, m.quantity)
              == AdjustStock(stock, m.bread, m.quantity)
       <==> || m.quantity == 0
            || (m.quantity > 0 && stock[m.bread] + m.quantity >= SHELF_LIMIT)
            || (m.quantity < 0 && Min(SHELF_LIMIT, stock[m.bread] + m.quantity) + m.quantity < 0)
  {
    var once := AdjustStock(stock, m.bread, m.quantity);
    var twice := AdjustStock(once, m.bread, m.quantity);
    if twice[m.bread] == once[m.bread] {
      assert once[m.bread := once[m.bread]] == once;
    }
  }

  /** A message that no listener will ever be able to apply. */
  predicate Hopeless(stock: Stock, m: Message) {
    m.bread !in stock || m.quantity + SHELF_LIMIT < 0
  }

  predicate NobodyHolds(s: System, m: Message) {
    forall w :: 0 <= w < |s.listeners| && s.listeners[w].Holding? ==> s.listeners[w].message != m
  }

  lemma StepKeepsHopeless(s: System, a: Action, m: Message)
    requires Possible(s, a) && InRange(s) && Hopeless(s.stock, m) && NobodyHolds(s, m)
    ensures Step(s, a).queue[m] == s.queue[m] && NobodyHolds(Step(s, a), m)
  {
    hide AfterItem;
    if a.Read? && a.message == m {
      assert Step(s, a) == s;
    }
  }

  /** Such a message is requeued for ever: it is in the queue after every run, as often
      as it was there at the start. */
  lemma {:induction false} HopelessStaysQueued(s: System, run: seq<Action>, n: nat, m: Message)
    requires n <= |run| && InRange(s) && Hopeless(s.stock, m) && NobodyHolds(s, m)
    ensures After(s, run, n).queue[m] == s.queue[m] && NobodyHolds(After(s, run, n), m)
  {
    hide Possible, Step, InRange, NobodyHolds;
    if n > 0 {
      HopelessStaysQueued(s, run, n - 1, m);
      StockStaysInRange(s, run, n - 1);
      if Possible(After(s, run, n - 1), run[n - 1]) {
        assert m.bread in s.stock.Keys <==> m.bread in After(s, run, n - 1).stock.Keys;
        StepKeepsHopeless(After(s, run, n - 1), run[n - 1], m);
      }
    }
  }

  // ---------------------------------------------------------------- no message is lost

  function Held(listeners: seq<Listener>, m: Message): nat {
    if listeners == [] then 0
    else
      var last := listeners[|listeners| - 1];
      Held(listeners[..|listeners| - 1], m) + if last.Holding? && last.message == m then 1 else 0
  }

  /** The action writes what `m` asked for and acknowledges it. */
  predicate Acknowledges(s: System, a: Action, m: Message) {
    a.Write? && !a.ackLost && Possible(s, a) && s.listeners[a.listener].message == m
  }

  function Acknowledged(s: System, run: seq<Action>, n: nat, m: Message): nat
    requires n <= |run|
  {
    if n == 0 then 0
    else Acknowledged(s, run, n - 1, m) + if Acknowledges(After(s, run, n - 1), run[n - 1], m) then 1 else 0
  }

  lemma {:induction false} HeldAppend(front: seq<Listener>, back: seq<Listener>, m: Message)
    ensures Held(front + back, m) == Held(front, m) + Held(back, m)
  {
    if back == [] {
      assert front + back == front;
    } else {
      HeldAppend(front, back[..|back| - 1], m);
      assert (front + back)[..|front + back| - 1] == front + back[..|back| - 1];
    }
  }

  lemma HeldUpdate(listeners: seq<Listener>, w: nat, l: Listener, m: Message)
    requires w < |listeners|
    ensures Held(listeners[w := l], m) + Held([listeners[w]], m) == Held(listeners, m) + Held([l], m)
  {
    var front, back := listeners[..w], listeners[w + 1..];
    assert listeners == front + [listeners[w]] + back;
    assert listeners[w := l] == front + [l] + back;
    HeldAppend(front + [listeners[w]], back, m);
    HeldAppend(front, [listeners[w]], m);
    HeldAppend(front + [l], back, m);
    HeldAppend(front, [l], m);
  }

  lemma StepAccounts(s: System, a: Action, m: Message)
    requires Possible(s, a)
    ensures Step(s, a).queue[m] + Held(Step(s, a).listeners, m) + (if Acknowledges(s, a, m) then 1 else 0)
         == s.queue[m] + Held(s.listeners, m)
  {
    hide Held, AfterItem, Adjusted, Written;
    if !a.Reserve? {
      HeldUpdate(s.listeners, a.listener, Step(s, a).listeners[a.listener], m);
      HeldAlone(s.listeners[a.listener], m);
      HeldAlone(Step(s, a).listeners[a.listener], m);
      assert s.listeners[a.listener := s.listeners[a.listener]] == s.listeners;
    }
  }

  lemma HeldAlone(l: Listener, m: Message)
    ensures Held([l], m) == if l.Holding? && l.message == m then 1 else 0
  {
    assert [l][..0] == [];
  }

  /** Over any run with any failures: of each message there are as many as at the start,
      waiting, held by a listener, or acknowledged after a write. */
  lemma {:induction false} NoMessageIsLost(s: System, run: seq<Action>, n: nat, m: Message)
    requires n <= |run|
    ensures After(s, run, n).queue[m] + Held(After(s, run, n).listeners, m) + Acknowledged(s, run, n, m)
         == s.queue[m] + Held(s.listeners, m)
  {
    hide Possible, Step, Held, Acknowledges;
    if n > 0 {
      NoMessageIsLost(s, run, n - 1, m);
      var before := After(s, run, n - 1);
      if Possible(before, run[n - 1]) {
        StepAccounts(before, run[n - 1], m);
      } else {
        ImpossibleAcknowledgesNothing(before, run[n - 1], m);
      }
    }
  }

  lemma ImpossibleAcknowledgesNothing(s: System, a: Action, m: Message)
    requires !Possible(s, a)
    ensures !Acknowledges(s, a, m)
  {
  }

  // ---------------------------------------------------------------- the listener

  datatype Disposition = Acked | Requeued | Discarded

  /** One delivery, undisturbed: a body that cannot be read is discarded, an adjustment
      that fails is requeued, and only one that was stored is acknowledged. */
  method HandleBreadMade(repo: PostgresRepository, body: Option<Message>) returns (d: Disposition)
    requires repo.Valid()
    modifies repo`stock
    ensures repo.Valid()
    ensures body.None? ==> d == Discarded && repo.stock == old(repo.stock)
    ensures body.Some? ==>
              && (d == Acked <==> && body.value.bread in old(repo.stock)
                                  && old(repo.stock)[body.value.bread] + body.value.quantity >= 0)
              && (d == Acked <==> Intended(old(repo.stock), body.value).Some?)
              && (d == Requeued <==> d != Acked)
              && repo.stock == AdjustStock(old(repo.stock), body.value.bread, body.value.quantity)
  {
    if body.None? {
      return Discarded;
    }
    var _, error := repo.AdjustBreadQuantity(body.value.bread, body.value.quantity);
    d := if error.Some? then Requeued else Acked;
  }
}
