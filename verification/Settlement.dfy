/** The dispatcher that routes settled orders to the streams waiting for them, first as
    a board of channels and what each operation makes of it. */
module Settlement {
  import opened Orders

  /** A one-slot channel, the uuid it was handed out for, and how often it was closed. */
  datatype Channel = Channel(uuid: string, closes: nat, buffer: seq<Order>)

  /** All channels ever handed out, in that order, and which of them each uuid maps to. */
  datatype Board = Board(channels: seq<Channel>, waiting: map<string, nat>)

  const EMPTY := Board([], map[])

  predicate Mapped(b: Board, n: nat)
    requires n < |b.channels|
  {
    b.channels[n].uuid in b.waiting && b.waiting[b.channels[n].uuid] == n
  }

  /** A channel is closed once, and exactly if it is no longer mapped; it holds at most
      one order, which carries its uuid. */
  predicate SoundChannel(c: Channel, mapped: bool) {
    && c.closes <= 1 && (c.closes == 0 <==> mapped)
    && |c.buffer| <= 1 && forall o <- c.buffer :: o.uuid == c.uuid
  }

  /** Each mapped channel belongs to the uuid that maps to it, so that no two share one. */
  predicate SoundEntry(b: Board, u: string)
    requires u in b.waiting
  {
    b.waiting[u] < |b.channels| && b.channels[b.waiting[u]].uuid == u
  }

  predicate Sound(b: Board) {
    && (forall u <- b.waiting :: SoundEntry(b, u))
    && (forall n :: 0 <= n < |b.channels| ==> SoundChannel(b.channels[n], Mapped(b, n)))
  }

  /** Closes the channel that `u` maps to, if any. */
  function CloseFor(b: Board, u: string): seq<Channel>
    requires Sound(b)
  {
    if u !in b.waiting then b.channels
    else
      var n := b.waiting[u];
      b.channels[n := b.channels[n].(closes := b.channels[n].closes + 1)]
  }

  function Registered(b: Board, u: string): Board
    requires Sound(b)
  {
    Board(CloseFor(b, u) + [Channel(u, 0, [])], b.waiting[u := |b.channels|])
  }

  function Unregistered(b: Board, u: string): Board
    requires Sound(b)
  {
    Board(CloseFor(b, u), b.waiting - {u})
  }

  /** Somebody waits for `u` with an empty slot. */
  predicate Deliverable(b: Board, u: string)
    requires Sound(b)
  {
    u in b.waiting && b.channels[b.waiting[u]].buffer == []
  }

  /** One attempt to hand over an order. */
  function Attempted(b: Board, o: Order): Board
    requires Sound(b)
  {
    if !Deliverable(b, o.uuid) then b
    else
      var n := b.waiting[o.uuid];
      b.(channels := b.channels[n := b.channels[n].(buffer := [o])])
  }

  /** A stream takes what its channel holds. */
  function Received(b: Board, n: nat): Board {
    if n >= |b.channels| then b else b.(channels := b.channels[n := b.channels[n].(buffer := [])])
  }

  datatype Action = Register(uuid: string) | Unregister(uuid: string) | Attempt(order: Order) | Receive(channel: nat)

  function Step(b: Board, a: Action): Board
    requires Sound(b)
  {
    match a
    case Register(u) => Registered(b, u)
    case Unregister(u) => Unregistered(b, u)
    case Attempt(o) => Attempted(b, o)
    case Receive(n) => Received(b, n)
  }

  lemma RegisteredIsSound(b: Board, u: string)
    requires Sound(b)
    ensures Sound(Registered(b, u))
  {
    hide SoundChannel, Mapped;
    var after := Registered(b, u);
    forall n | 0 <= n < |after.channels| ensures SoundChannel(after.channels[n], Mapped(after, n)) {
      RegisteredChannel(b, u, n);
    }
  }

  lemma RegisteredChannel(b: Board, u: string, n: nat)
    requires Sound(b) && n <= |b.channels|
    ensures SoundChannel(Registered(b, u).channels[n], Mapped(Registered(b, u), n))
  {
    if n < |b.channels| {
      assert SoundChannel(b.channels[n], Mapped(b, n));
    }
  }

  lemma UnregisteredIsSound(b: Board, u: string)
    requires Sound(b)
    ensures Sound(Unregistered(b, u))
  {
    hide SoundChannel, Mapped;
    var after := Unregistered(b, u);
    forall n | 0 <= n < |after.channels| ensures SoundChannel(after.channels[n], Mapped(after, n)) {
      UnregisteredChannel(b, u, n);
    }
    assert forall v <- after.waiting :: SoundEntry(b, v);
  }

  lemma UnregisteredChannel(b: Board, u: string, n: nat)
    requires Sound(b) && n < |b.channels|
    ensures SoundChannel(Unregistered(b, u).channels[n], Mapped(Unregistered(b, u), n))
  {
    assert SoundChannel(b.channels[n], Mapped(b, n));
  }

  lemma AttemptedIsSound(b: Board, o: Order)
    requires Sound(b)
    ensures Sound(Attempted(b, o))
  {
    var after := Attempted(b, o);
    forall n | 0 <= n < |after.channels| ensures SoundChannel(after.channels[n], Mapped(after, n)) {
      assert SoundChannel(b.channels[n], Mapped(b, n));
    }
    assert forall v <- after.waiting :: SoundEntry(b, v);
  }

  lemma ReceivedIsSound(b: Board, k: nat)
    requires Sound(b)
    ensures Sound(Received(b, k))
  {
    var after := Received(b, k);
    forall n | 0 <= n < |after.channels| ensures SoundChannel(after.channels[n], Mapped(after, n)) {
      assert SoundChannel(b.channels[n], Mapped(b, n));
    }
    assert forall v <- after.waiting :: SoundEntry(b, v);
  }

  lemma StepKeepsSound(b: Board, a: Action)
    requires Sound(b)
    ensures Sound(Step(b, a))
  {
    match a
    case Register(u) => RegisteredIsSound(b, u);
    case Unregister(u) => UnregisteredIsSound(b, u);
    case Attempt(o) => AttemptedIsSound(b, o);
    case Receive(n) => ReceivedIsSound(b, n);
  }

  // ---------------------------------------------------------------- whole runs

  /** The board after the first `n` actions of a run. */
  function After(b: Board, run: seq<Action>, n: nat): (r: Board)
    requires Sound(b) && n <= |run|
    ensures Sound(r)
  {
    if n == 0 then b
    else
      StepKeepsSound(After(b, run, n - 1), run[n - 1]);
      Step(After(b, run, n - 1), run[n - 1])
  }

  lemma AfterNext(b: Board, run: seq<Action>, n: nat)
    requires Sound(b) && n < |run|
    ensures After(b, run, n + 1) == Step(After(b, run, n), run[n])
  {
    hide Sound, Step;
  }

  lemma AfterRegister(b: Board, run: seq<Action>, k: nat)
    requires Sound(b) && k < |run| && run[k].Register?
    ensures var u, c, after := run[k].uuid, |After(b, run, k).channels|, After(b, run, k + 1);
            && |after.channels| == c + 1 && after.channels[c] == Channel(u, 0, [])
            && u in after.waiting && after.waiting[u] == c
  {
    hide After, SoundChannel;
    AfterNext(b, run, k);
  }

  /** The action changes who waits for `u`. */
  predicate On(a: Action, u: string) {
    a == Register(u) || a == Unregister(u)
  }

  predicate NobodyTouches(run: seq<Action>, from: nat, n: nat, u: string)
    requires n <= |run|
  {
    forall j :: from <= j < n ==> !On(run[j], u)
  }

  lemma StepHandsOut(b: Board, a: Action)
    requires Sound(b)
    ensures |Step(b, a).channels| == |b.channels| + if a.Register? then 1 else 0
    ensures forall c :: 0 <= c < |b.channels| ==> Step(b, a).channels[c].uuid == b.channels[c].uuid
  {
  }

  lemma {:induction false} HandedOut(b: Board, run: seq<Action>, from: nat, n: nat)
    requires Sound(b) && from <= n <= |run|
    ensures |After(b, run, from).channels| <= |After(b, run, n).channels|
    ensures forall c :: 0 <= c < |After(b, run, from).channels| ==>
              After(b, run, n).channels[c].uuid == After(b, run, from).channels[c].uuid
    decreases n
  {
    hide Step, Sound;
    if from < n {
      HandedOut(b, run, from, n - 1);
      StepHandsOut(After(b, run, n - 1), run[n - 1]);
    }
  }

  /** Somebody waits for `u` exactly if `u` was registered and not unregistered since. */
  lemma {:induction false} WaitsIff(run: seq<Action>, n: nat, u: string)
    requires n <= |run|
    ensures u in After(EMPTY, run, n).waiting
       <==> exists k :: 0 <= k < n && run[k] == Register(u) && forall j :: k < j < n ==> run[j] != Unregister(u)
  {
    hide Sound, CloseFor;
    if n > 0 {
      WaitsIff(run, n - 1, u);
    }
  }

  /** A channel that `u` maps to stays the one exactly as long as nobody registers or
      unregisters `u`, whoever that may be. */
  lemma {:induction false} StaysMappedIff(b: Board, run: seq<Action>, from: nat, n: nat, u: string)
    requires Sound(b) && from <= n <= |run| && u in After(b, run, from).waiting
    ensures var c := After(b, run, from).waiting[u];
            u in After(b, run, n).waiting && After(b, run, n).waiting[u] == c <==> NobodyTouches(run, from, n, u)
    decreases n
  {
    hide Sound, Step, SoundEntry;
    if from < n {
      StaysMappedIff(b, run, from, n - 1, u);
      HandedOut(b, run, from, n - 1);
      PlaceOf(After(b, run, from), u);
      StepMapsIff(After(b, run, n - 1), run[n - 1], u, After(b, run, from).waiting[u]);
    }
  }

  lemma PlaceOf(b: Board, u: string)
    requires Sound(b) && u in b.waiting
    ensures b.waiting[u] < |b.channels|
  {
    Entry(b, u);
  }

  lemma StepMapsIff(b: Board, a: Action, u: string, c: nat)
    requires Sound(b) && c < |b.channels|
    ensures u in Step(b, a).waiting && Step(b, a).waiting[u] == c
       <==> u in b.waiting && b.waiting[u] == c && !On(a, u)
  {
    hide Sound, CloseFor;
  }

  lemma Entry(b: Board, u: string)
    requires Sound(b) && u in b.waiting
    ensures SoundEntry(b, u)
  {
  }

  /** A channel that a look finds open is closed later exactly if somebody has registered
      or unregistered the uuid in between. */
  lemma ClosedSinceIff(b: Board, run: seq<Action>, from: nat, n: nat, u: string)
    requires Sound(b) && from <= n <= |run| && u in After(b, run, from).waiting
    ensures var c := After(b, run, from).waiting[u];
            && c < |After(b, run, n).channels|
            && (After(b, run, n).channels[c].closes > 0 <==> !NobodyTouches(run, from, n, u))
  {
    hide NobodyTouches, After, Sound;
    StaysMappedIff(b, run, from, n, u);
    HandedOut(b, run, from, n);
    var c, end := After(b, run, from).waiting[u], After(b, run, n);
    Entry(After(b, run, from), u);
    ChannelIsSound(end, c);
  }

  /** The delivery loop looks a waiter up, then reads its `closed` flag, and only then
      sends. It sends to a closed channel, which is fatal, exactly if nobody registered or
      unregistered the uuid between look and check, but somebody did between check and send. */
  lemma SplitSendFailsIff(b: Board, run: seq<Action>, look: nat, check: nat, send: nat, u: string)
    requires Sound(b) && look <= check <= send <= |run| && u in After(b, run, look).waiting
    ensures var c := After(b, run, look).waiting[u];
            && c < |After(b, run, check).channels| && c < |After(b, run, send).channels|
            && (After(b, run, check).channels[c].closes == 0 && After(b, run, send).channels[c].closes > 0
                <==> NobodyTouches(run, look, check, u) && !NobodyTouches(run, check, send, u))
  {
    hide After, Sound;
    ClosedSinceIff(b, run, look, check, u);
    ClosedSinceIff(b, run, look, send, u);
  }

  lemma ChannelIsSound(b: Board, n: nat)
    requires Sound(b) && n < |b.channels|
    ensures SoundChannel(b.channels[n], Mapped(b, n))
  {
  }

  /** A stream that registers gets a channel of its own, and keeps being found exactly as
      long as nobody else registers its uuid, and nobody, itself included, unregisters it. */
  lemma StreamIsFoundIff(b: Board, run: seq<Action>, k: nat, n: nat)
    requires Sound(b) && k < n <= |run| && run[k].Register?
    ensures var u, c := run[k].uuid, |After(b, run, k).channels|;
            && c < |After(b, run, n).channels| && After(b, run, n).channels[c].uuid == u
            && (u in After(b, run, n).waiting && After(b, run, n).waiting[u] == c
                <==> NobodyTouches(run, k + 1, n, u))
  {
    hide NobodyTouches, Sound, After;
    AfterRegister(b, run, k);
    StaysMappedIff(b, run, k + 1, n, run[k].uuid);
    HandedOut(b, run, k + 1, n);
  }

  /** What the first settlement for `u` among actions `from` to `n - 1` delivers. */
  function FirstSettlement(run: seq<Action>, from: nat, n: nat, u: string): seq<Order>
    requires from <= n <= |run|
    decreases n
  {
    if from == n then []
    else
      var before := FirstSettlement(run, from, n - 1, u);
      if before != [] then before
      else if run[n - 1].Attempt? && run[n - 1].order.uuid == u then [run[n - 1].order]
      else []
  }

  /** A stream that is left alone finds the first settlement of its order in its channel;
      later ones, the duplicates of at-least-once delivery, do not replace it. */
  lemma {:induction false} FirstSettlementIsKept(b: Board, run: seq<Action>, k: nat, n: nat)
    requires Sound(b) && k < n <= |run| && run[k].Register? && NobodyTouches(run, k + 1, n, run[k].uuid)
    requires forall j :: k < j < n ==> run[j] != Receive(|After(b, run, k).channels|)
    ensures var c := |After(b, run, k).channels|;
            && c < |After(b, run, n).channels|
            && After(b, run, n).channels[c].buffer == FirstSettlement(run, k + 1, n, run[k].uuid)
    decreases n
  {
    hide Sound, After, Step;
    AfterRegister(b, run, k);
    if n > k + 1 {
      FirstSettlementIsKept(b, run, k, n - 1);
      StreamIsFoundIff(b, run, k, n - 1);
      AfterNext(b, run, n - 1);
      OtherStepsSpare(After(b, run, n - 1), run[n - 1], run[k].uuid, |After(b, run, k).channels|);
    }
  }

  lemma OtherStepsSpare(b: Board, a: Action, u: string, c: nat)
    requires Sound(b) && c < |b.channels| && u in b.waiting && b.waiting[u] == c
    requires !On(a, u) && a != Receive(c)
    ensures c < |Step(b, a).channels|
    ensures Step(b, a).channels[c].buffer
         == if a.Attempt? && a.order.uuid == u && b.channels[c].buffer == [] then [a.order] else b.channels[c].buffer
  {
    Entry(b, u);
    match a
    case Attempt(o) => if o.uuid in b.waiting { Entry(b, o.uuid); }
    case Unregister(v) => if v in b.waiting { Entry(b, v); }
    case Register(v) => if v in b.waiting { Entry(b, v); }
    case Receive(_) =>
  }

  // ---------------------------------------------------------------- the delivery loop

  const GRACE_MILLISECONDS := 500

  /** One turn of the loop: what others did since the last turn, the clock at the look,
      and what others do between look and check and between check and send. */
  datatype Turn = Turn(sleep: seq<Action>, now: int, toCheck: seq<Action>, toSend: seq<Action>)

  /** How a turn ends. The first two make the loop go on, the last one ends the process. */
  datatype Sending = Missed | Full | Sent | Fatal

  /** One turn from its look on, with the send going to the channel that was looked up. */
  function Tried(b: Board, o: Order, t: Turn): (r: (Board, Sending))
    requires Sound(b)
    ensures Sound(r.0)
  {
    var meantime := t.toCheck + t.toSend;
    var check, end := After(b, meantime, |t.toCheck|), After(b, meantime, |meantime|);
    if o.uuid !in b.waiting then (end, Missed)
    else
      var c := b.waiting[o.uuid];
      ClosedSinceIff(b, meantime, 0, |t.toCheck|, o.uuid);
      ClosedSinceIff(b, meantime, 0, |meantime|, o.uuid);
      if check.channels[c].closes > 0 then (end, Missed)
      else if end.channels[c].closes > 0 then (end, Fatal)
      else if end.channels[c].buffer != [] then (end, Full)
      else
        PushIsAttempt(b, o, meantime);
        (Pushed(end, c, o), Sent)
  }

  function Pushed(b: Board, c: nat, o: Order): Board
    requires c < |b.channels|
  {
    b.(channels := b.channels[c := b.channels[c].(buffer := [o])])
  }

  lemma PushedIsSound(b: Board, c: nat, o: Order)
    requires Sound(b) && c < |b.channels| && b.channels[c].uuid == o.uuid
    ensures Sound(Pushed(b, c, o))
  {
    var after := Pushed(b, c, o);
    forall n | 0 <= n < |after.channels| ensures SoundChannel(after.channels[n], Mapped(after, n)) {
      assert SoundChannel(b.channels[n], Mapped(b, n));
    }
    assert forall v <- after.waiting :: SoundEntry(b, v);
  }

  /** A channel that is still open is still the one that the uuid maps to. */
  lemma PushIsAttempt(b: Board, o: Order, run: seq<Action>)
    requires Sound(b) && o.uuid in b.waiting
    ensures var c, end := b.waiting[o.uuid], After(b, run, |run|);
            && c < |end.channels|
            && (end.channels[c].closes == 0 ==>
                  && (Deliverable(end, o.uuid) <==> end.channels[c].buffer == [])
                  && (Deliverable(end, o.uuid) ==> Attempted(end, o) == Pushed(end, c, o))
                  && Sound(Attempted(end, o)))
  {
    hide NobodyTouches, After, Sound;
    assert After(b, run, 0) == b by { AfterNothing(b, run); }
    ClosedSinceIff(b, run, 0, |run|, o.uuid);
    StaysMappedIff(b, run, 0, |run|, o.uuid);
    AttemptedIsSound(After(b, run, |run|), o);
  }

  lemma AfterNothing(b: Board, run: seq<Action>)
    requires Sound(b)
    ensures After(b, run, 0) == b
  {
  }

  /** How a turn ends, and when a single step stands for it. It misses exactly if nobody
      was waiting or somebody touched the uuid before the check, it is fatal exactly if
      somebody did after it, and otherwise it is one atomic attempt at the moment of the
      send. Only a sent order changes the board beyond what others do to it. */
  lemma TriedIff(b: Board, o: Order, t: Turn)
    requires Sound(b)
    ensures var meantime, r := t.toCheck + t.toSend, Tried(b, o, t);
            var end := After(b, meantime, |meantime|);
            && (r.1 == Missed <==> o.uuid !in b.waiting || !NobodyTouches(meantime, 0, |t.toCheck|, o.uuid))
            && (r.1 == Fatal <==> && o.uuid in b.waiting
                                  && NobodyTouches(meantime, 0, |t.toCheck|, o.uuid)
                                  && !NobodyTouches(meantime, |t.toCheck|, |meantime|, o.uuid))
            && (r.1 == Sent <==> && o.uuid in b.waiting
                                 && NobodyTouches(meantime, 0, |meantime|, o.uuid) && Deliverable(end, o.uuid))
            && (r.1 == Full <==> && o.uuid in b.waiting
                                 && NobodyTouches(meantime, 0, |meantime|, o.uuid) && !Deliverable(end, o.uuid))
            && r.0 == if r.1 == Sent then Attempted(end, o) else end
  {
    hide After, Sound, Attempted, Deliverable;
    var meantime := t.toCheck + t.toSend;
    AfterNothing(b, meantime);
    if o.uuid in b.waiting {
      SplitSendFailsIff(b, meantime, 0, |t.toCheck|, |meantime|, o.uuid);
      ClosedSinceIff(b, meantime, 0, |t.toCheck|, o.uuid);
      PushIsAttempt(b, o, meantime);
    }
  }

  predicate Ends(s: Sending) {
    s == Sent || s == Fatal
  }

  /** A turn that gets nothing across and lets the loop go on: nobody waits at the look, or
      somebody touches the uuid before the check, or nobody does after it but the waiter's
      slot is full at the send. All of this is known from what the others do. */
  predicate Idle(b: Board, o: Order, t: Turn)
    requires Sound(b)
  {
    var meantime := t.toCheck + t.toSend;
    || o.uuid !in b.waiting
    || !NobodyTouches(meantime, 0, |t.toCheck|, o.uuid)
    || (&& NobodyTouches(meantime, |t.toCheck|, |meantime|, o.uuid)
        && !Deliverable(After(b, meantime, |meantime|), o.uuid))
  }

  lemma IdleIff(b: Board, o: Order, t: Turn)
    requires Sound(b)
    ensures Idle(b, o, t) <==> !Ends(Tried(b, o, t).1)
  {
    hide After, Sound, Attempted, Deliverable, Tried;
    TriedIff(b, o, t);
  }

  /** Turns before the deadline until one of them delivers or is fatal; `Missed` if none does. */
  function Delivery(b: Board, o: Order, deadline: int, turns: seq<Turn>): (r: (Board, Sending))
    requires Sound(b)
    ensures Sound(r.0)
    decreases |turns|
  {
    if turns == [] then (b, Missed)
    else
      var seen := After(b, turns[0].sleep, |turns[0].sleep|);
      if turns[0].now >= deadline then (seen, Missed)
      else
        var r := Tried(seen, o, turns[0]);
        if Ends(r.1) then r else Delivery(r.0, o, deadline, turns[1..])
  }

  /** All that others do before the look of turn `k`. */
  function Until(turns: seq<Turn>, k: nat): seq<Action>
    requires k < |turns|
  {
    if k == 0 then turns[0].sleep
    else turns[0].sleep + (turns[0].toCheck + turns[0].toSend) + Until(turns[1..], k - 1)
  }

  lemma {:induction false} AfterBoth(b: Board, first: seq<Action>, second: seq<Action>, n: nat)
    requires Sound(b) && n <= |second|
    ensures After(b, first + second, |first| + n) == After(After(b, first, |first|), second, n)
  {
    hide Sound, Step;
    if n == 0 {
      AfterPrefix(b, first, second, |first|);
    } else {
      AfterBoth(b, first, second, n - 1);
      AfterNext(b, first + second, |first| + n - 1);
    }
  }

  lemma AfterWhole(b: Board, first: seq<Action>, second: seq<Action>)
    requires Sound(b)
    ensures After(b, first + second, |first + second|) == After(After(b, first, |first|), second, |second|)
  {
    hide Sound, After;
    AfterBoth(b, first, second, |second|);
  }

  lemma {:induction false} AfterPrefix(b: Board, first: seq<Action>, second: seq<Action>, n: nat)
    requires Sound(b) && n <= |first|
    ensures After(b, first + second, n) == After(b, first, n)
  {
    hide Sound, Step;
    if n > 0 {
      AfterPrefix(b, first, second, n - 1);
    }
  }

  /** What the look of turn `k` finds if no earlier turn has changed the board. */
  function SeenAt(b: Board, turns: seq<Turn>, k: nat): (r: Board)
    requires Sound(b) && k < |turns|
    ensures Sound(r)
  {
    After(b, Until(turns, k), |Until(turns, k)|)
  }

  predicate EndsAt(b: Board, o: Order, turns: seq<Turn>, k: nat)
    requires Sound(b) && k < |turns|
  {
    !Idle(SeenAt(b, turns, k), o, turns[k])
  }

  /** Turn `k` takes place and is not idle, and all earlier ones are. */
  predicate FirstEnd(b: Board, o: Order, deadline: int, turns: seq<Turn>, k: nat)
    requires Sound(b) && k < |turns|
  {
    && (forall i :: 0 <= i <= k ==> turns[i].now < deadline)
    && EndsAt(b, o, turns, k)
    && (forall i :: 0 <= i < k ==> !EndsAt(b, o, turns, i))
  }

  lemma SeenLater(b: Board, turns: seq<Turn>, k: nat)
    requires Sound(b) && k + 1 < |turns|
    ensures var meantime := turns[0].toCheck + turns[0].toSend;
            SeenAt(b, turns, k + 1)
            == SeenAt(After(After(b, turns[0].sleep, |turns[0].sleep|), meantime, |meantime|), turns[1..], k)
  {
    hide Sound, After;
    var sleep, meantime, later := turns[0].sleep, turns[0].toCheck + turns[0].toSend, Until(turns[1..], k);
    AfterWhole(b, sleep, meantime);
    AfterWhole(b, sleep + meantime, later);
    assert Until(turns, k + 1) == sleep + meantime + later;
  }

  lemma SeenFirst(b: Board, turns: seq<Turn>)
    requires Sound(b) && turns != []
    ensures SeenAt(b, turns, 0) == After(b, turns[0].sleep, |turns[0].sleep|)
  {
    hide Sound, After;
  }

  /** The board that a turn which does not end the loop leaves to the next one. */
  function Passed(b: Board, t: Turn): (r: Board)
    requires Sound(b)
    ensures Sound(r)
  {
    After(After(b, t.sleep, |t.sleep|), t.toCheck + t.toSend, |t.toCheck + t.toSend|)
  }

  lemma LaterFirstEnd(b: Board, o: Order, deadline: int, turns: seq<Turn>, k: nat)
    requires Sound(b) && k + 1 < |turns|
    ensures FirstEnd(b, o, deadline, turns, k + 1)
       <==> && turns[0].now < deadline && !EndsAt(b, o, turns, 0)
            && FirstEnd(Passed(b, turns[0]), o, deadline, turns[1..], k)
  {
    hide Sound, After, Idle, SeenAt;
    var passed := Passed(b, turns[0]);
    forall i | 0 <= i <= k
      ensures EndsAt(b, o, turns, i + 1) == EndsAt(passed, o, turns[1..], i) && turns[1..][i] == turns[i + 1]
    {
      SeenLater(b, turns, i);
    }
    if turns[0].now < deadline && !EndsAt(b, o, turns, 0) && FirstEnd(passed, o, deadline, turns[1..], k) {
      forall i | 0 <= i <= k + 1 ensures turns[i].now < deadline && (i <= k ==> !EndsAt(b, o, turns, i)) {
        if i > 0 {
          assert turns[1..][i - 1].now < deadline;
          assert EndsAt(b, o, turns, i - 1 + 1) == EndsAt(passed, o, turns[1..], i - 1);
        }
      }
    }
  }

  /** The loop ends early exactly if one of its turns before the deadline is not idle. Then
      it has done what the first such turn does, and nothing else to the board: it hands
      over one order at most. */
  lemma {:induction false} DeliveryIff(b: Board, o: Order, deadline: int, turns: seq<Turn>)
    requires Sound(b)
    ensures Delivery(b, o, deadline, turns).1 != Full
    ensures Ends(Delivery(b, o, deadline, turns).1)
       <==> exists k :: 0 <= k < |turns| && FirstEnd(b, o, deadline, turns, k)
    ensures forall k :: 0 <= k < |turns| && FirstEnd(b, o, deadline, turns, k) ==>
              Delivery(b, o, deadline, turns) == Tried(SeenAt(b, turns, k), o, turns[k])
    decreases |turns|
  {
    hide Sound, After, Tried, Idle, SeenAt, Until;
    if turns != [] {
      SeenFirst(b, turns);
      IdleIff(SeenAt(b, turns, 0), o, turns[0]);
      if turns[0].now >= deadline {
        assert forall k :: 0 <= k < |turns| ==> !FirstEnd(b, o, deadline, turns, k);
      } else if EndsAt(b, o, turns, 0) {
        assert FirstEnd(b, o, deadline, turns, 0);
        assert forall k :: 0 < k < |turns| ==> !FirstEnd(b, o, deadline, turns, k);
      } else {
        var passed := Passed(b, turns[0]);
        TriedIff(SeenAt(b, turns, 0), o, turns[0]);
        DeliveryIff(passed, o, deadline, turns[1..]);
        assert !FirstEnd(b, o, deadline, turns, 0);
        forall k | 0 <= k < |turns| - 1
          ensures FirstEnd(b, o, deadline, turns, k + 1) == FirstEnd(passed, o, deadline, turns[1..], k)
        {
          LaterFirstEnd(b, o, deadline, turns, k);
        }
        forall k | 0 <= k < |turns| && FirstEnd(b, o, deadline, turns, k)
          ensures 0 < k && FirstEnd(passed, o, deadline, turns[1..], k - 1)
          ensures Delivery(b, o, deadline, turns) == Tried(SeenAt(b, turns, k), o, turns[k])
        {
          assert FirstEnd(b, o, deadline, turns, k - 1 + 1);
          SeenLater(b, turns, k - 1);
        }
        if k :| 0 <= k < |turns| - 1 && FirstEnd(passed, o, deadline, turns[1..], k) {
          assert FirstEnd(b, o, deadline, turns, k + 1);
        }
      }
    }
  }

  /** Every turn that takes place before the deadline is idle. */
  predicate AllIdle(b: Board, o: Order, deadline: int, turns: seq<Turn>)
    requires Sound(b)
  {
    forall k :: 0 <= k < |turns| && (forall i :: 0 <= i <= k ==> turns[i].now < deadline) ==>
      Idle(SeenAt(b, turns, k), o, turns[k])
  }

  lemma {:induction false} SomeFirstEnd(b: Board, o: Order, deadline: int, turns: seq<Turn>, k: nat)
    requires Sound(b) && k < |turns| && forall i :: 0 <= i <= k ==> turns[i].now < deadline
    requires EndsAt(b, o, turns, k)
    ensures exists j :: 0 <= j <= k && FirstEnd(b, o, deadline, turns, j)
    decreases k
  {
    hide EndsAt;
    if j :| 0 <= j < k && EndsAt(b, o, turns, j) {
      SomeFirstEnd(b, o, deadline, turns, j);
    } else {
      assert FirstEnd(b, o, deadline, turns, k);
    }
  }

  /** A settlement is lost, neither handed over nor fatal, exactly if every turn before the
      deadline is idle: if no stream is found with a free slot while the window is open. */
  lemma LostIff(b: Board, o: Order, deadline: int, turns: seq<Turn>)
    requires Sound(b)
    ensures Delivery(b, o, deadline, turns).1 == Missed <==> AllIdle(b, o, deadline, turns)
  {
    hide Sound, Tried, SeenAt, Idle, Delivery;
    DeliveryIff(b, o, deadline, turns);
    forall k | 0 <= k < |turns| && (forall i :: 0 <= i <= k ==> turns[i].now < deadline) && EndsAt(b, o, turns, k)
      ensures exists j :: 0 <= j < |turns| && FirstEnd(b, o, deadline, turns, j)
    {
      SomeFirstEnd(b, o, deadline, turns, k);
    }
  }

  /** A turn that hands the order over: somebody waits from the look to the send, undisturbed,
      with an empty slot at the send. */
  predicate HandsOver(b: Board, o: Order, t: Turn)
    requires Sound(b)
  {
    var meantime := t.toCheck + t.toSend;
    && o.uuid in b.waiting && NobodyTouches(meantime, 0, |meantime|, o.uuid)
    && Deliverable(After(b, meantime, |meantime|), o.uuid)
  }

  /** A settlement is handed over exactly if the first turn in time that is not idle hands
      it over; if that turn does not, it is fatal. */
  lemma DeliveredIff(b: Board, o: Order, deadline: int, turns: seq<Turn>)
    requires Sound(b)
    ensures Delivery(b, o, deadline, turns).1 == Sent <==>
              exists k :: 0 <= k < |turns| && FirstEnd(b, o, deadline, turns, k)
                          && HandsOver(SeenAt(b, turns, k), o, turns[k])
    ensures Delivery(b, o, deadline, turns).1 == Fatal <==>
              exists k :: 0 <= k < |turns| && FirstEnd(b, o, deadline, turns, k)
                          && !HandsOver(SeenAt(b, turns, k), o, turns[k])
  {
    hide Sound, Tried, SeenAt, Idle, Delivery, After, Deliverable, NobodyTouches;
    DeliveryIff(b, o, deadline, turns);
    forall k | 0 <= k < |turns| && FirstEnd(b, o, deadline, turns, k)
      ensures Ends(Tried(SeenAt(b, turns, k), o, turns[k]).1)
      ensures Tried(SeenAt(b, turns, k), o, turns[k]).1 == Sent <==> HandsOver(SeenAt(b, turns, k), o, turns[k])
    {
      TriedIff(SeenAt(b, turns, k), o, turns[k]);
      IdleIff(SeenAt(b, turns, k), o, turns[k]);
    }
  }

  /** Whoever waits for the order's uuid has this very order in the slot. */
  predicate HeldBy(b: Board, o: Order) {
    o.uuid in b.waiting && b.waiting[o.uuid] < |b.channels| && b.channels[b.waiting[o.uuid]].buffer == [o]
  }

  /** A settlement that was sent lies in the channel of whoever waits for its uuid. */
  lemma SentIsHeld(b: Board, o: Order, deadline: int, turns: seq<Turn>)
    requires Sound(b)
    ensures Delivery(b, o, deadline, turns).1 == Sent ==> HeldBy(Delivery(b, o, deadline, turns).0, o)
  {
    hide Sound, Tried, SeenAt, FirstEnd, Delivery, After, NobodyTouches;
    DeliveryIff(b, o, deadline, turns);
    forall k | 0 <= k < |turns| && FirstEnd(b, o, deadline, turns, k)
      ensures Delivery(b, o, deadline, turns).1 == Sent ==> HeldBy(Delivery(b, o, deadline, turns).0, o)
    {
      var seen, meantime := SeenAt(b, turns, k), turns[k].toCheck + turns[k].toSend;
      TriedIff(seen, o, turns[k]);
      if Tried(seen, o, turns[k]).1 == Sent {
        PlaceOf(After(seen, meantime, |meantime|), o.uuid);
      }
    }
  }

  /** A stream that registers when the window has just closed: its settlement is gone, and
      it waits with an empty slot. */
  lemma LateStreamGetsNothing(o: Order, deadline: int)
    ensures var turns := [Turn([], deadline - 1, [], []), Turn([Register(o.uuid)], deadline, [], [])];
            && Delivery(EMPTY, o, deadline, turns).1 == Missed
            && Delivery(EMPTY, o, deadline, turns).0 == Board([Channel(o.uuid, 0, [])], map[o.uuid := 0])
  {
    hide SoundChannel, Idle;
    var first, second := Turn([], deadline - 1, [], []), Turn([Register(o.uuid)], deadline, [], []);
    assert [first, second][1..] == [second];
    assert After(EMPTY, [], 0) == EMPTY;
    assert Tried(EMPTY, o, first) == (EMPTY, Missed) by {
      assert first.toCheck + first.toSend == [];
    }
    assert After(EMPTY, second.sleep, 0) == EMPTY;
    AfterNext(EMPTY, second.sleep, 0);
    assert Registered(EMPTY, o.uuid) == Board([Channel(o.uuid, 0, [])], map[o.uuid := 0]);
  }

  /** A message body as the two readings of it: as a publish result, and as an order. */
  datatype Body = Body(asResult: Option<Order>, asOrder: Option<Order>)

  /** A message that is neither acknowledged nor discarded stays with the queue. */
  datatype Disposition = Acked | Discarded | Crashed

  /** What becomes of an order that is routed: it is handed over exactly if the first turn
      that is not idle does so, and then lies with whoever waits for it; it brings the
      process down exactly if that turn does not; and it is acknowledged and lost exactly
      if every turn of the window is idle. */
  ghost predicate Routed(before: Board, o: Order, deadline: int, turns: seq<Turn>,
                         after: Board, d: Disposition, sent: bool)
    requires Sound(before)
  {
    && after == Delivery(before, o, deadline, turns).0
    && (sent ==> d == Acked && HeldBy(after, o))
    && (sent <==> exists k :: 0 <= k < |turns| && FirstEnd(before, o, deadline, turns, k)
                              && HandsOver(SeenAt(before, turns, k), o, turns[k]))
    && (d == Crashed <==> exists k :: 0 <= k < |turns| && FirstEnd(before, o, deadline, turns, k)
                                      && !HandsOver(SeenAt(before, turns, k), o, turns[k]))
    && (d == Acked && !sent <==> AllIdle(before, o, deadline, turns))
  }

  // ---------------------------------------------------------------- the dispatcher

  class OrderChannel {
    var buffer: seq<Order>
    var closes: nat
    ghost const uuid: string
    ghost const place: nat

    ghost function Value(): Channel
      reads this
    {
      Channel(uuid, closes, buffer)
    }

    constructor (ghost uuid: string, ghost place: nat)
      ensures Value() == Channel(uuid, 0, []) && this.place == place
    {
      buffer, closes := [], 0;
      this.uuid, this.place := uuid, place;
    }

    /** Sending to a closed channel, or closing it again, is fatal. */
    method TrySend(o: Order) returns (sent: bool)
      requires closes == 0
      modifies this`buffer
      ensures sent <==> old(buffer) == []
      ensures buffer == if sent then [o] else old(buffer)
    {
      sent := |buffer| < 1;
      if sent {
        buffer := buffer + [o];
      }
    }

    /** A stream's receive, once there is something to receive or the channel is closed. */
    method Take() returns (o: Option<Order>)
      requires buffer != [] ==> |buffer| == 1
      modifies this`buffer
      ensures buffer == []
      ensures o == if old(buffer) == [] then None else Some(old(buffer)[0])
    {
      o := if buffer == [] then None else Some(buffer[0]);
      buffer := [];
    }

    method Close()
      requires closes == 0
      modifies this`closes
      ensures closes == 1
    {
      closes := closes + 1;
    }
  }

  ghost function Values(channels: seq<OrderChannel>): seq<Channel>
    reads channels
  {
    seq(|channels|, i requires 0 <= i < |channels| reads channels => channels[i].Value())
  }

  lemma OneMore(channels: seq<OrderChannel>, ch: OrderChannel)
    ensures Values(channels + [ch]) == Values(channels) + [ch.Value()]
  {
  }

  lemma SameLength(channels: seq<OrderChannel>)
    ensures |Values(channels)| == |channels|
  {
  }

  class SettlementWaiter {
    const ch: OrderChannel
    var closed: bool

    constructor (ch: OrderChannel)
      ensures this.ch == ch && !closed
    {
      this.ch, closed := ch, false;
    }
  }

  /** Each waiter is the one issued with the channel at its place. */
  ghost predicate Wired(waiters: map<string, SettlementWaiter>, places: map<string, nat>,
                        handed: seq<OrderChannel>, issued: seq<SettlementWaiter>)
  {
    && places.Keys == waiters.Keys && |issued| == |handed|
    && (forall u <- waiters :: places[u] < |issued| && waiters[u] == issued[places[u]])
    && (forall i :: 0 <= i < |handed| ==> handed[i].place == i && issued[i].ch == handed[i])
  }

  /** The flags of all waiters ever issued agree with their channels. */
  ghost predicate Flagged(issued: seq<SettlementWaiter>)
    reads issued, set w <- issued :: w.ch
  {
    forall i :: 0 <= i < |issued| ==> (issued[i].closed <==> issued[i].ch.closes > 0)
  }

  lemma FlaggedMore(issued: seq<SettlementWaiter>, waiter: SettlementWaiter)
    requires Flagged(issued) && !waiter.closed && waiter.ch.closes == 0
    ensures Flagged(issued + [waiter])
  {
  }

  lemma WiredMore(waiters: map<string, SettlementWaiter>, places: map<string, nat>, handed: seq<OrderChannel>,
                  issued: seq<SettlementWaiter>, uuid: string, waiter: SettlementWaiter)
    requires Wired(waiters, places, handed, issued) && waiter.ch.place == |handed|
    ensures Wired(waiters[uuid := waiter], places[uuid := |handed|], handed + [waiter.ch], issued + [waiter])
  {
  }

  lemma WiredFewer(waiters: map<string, SettlementWaiter>, places: map<string, nat>, handed: seq<OrderChannel>,
                   issued: seq<SettlementWaiter>, uuid: string)
    requires Wired(waiters, places, handed, issued)
    ensures Wired(waiters - {uuid}, places - {uuid}, handed, issued)
  {
  }

  /** Only the dispatcher's own goroutine delivers. */
  predicate NoAttempts(actions: seq<Action>) {
    forall a <- actions :: !a.Attempt?
  }

  class SettlementDispatcher {
    var waiters: map<string, SettlementWaiter>
    /** The channels handed out so far, which the streams hold. */
    var handed: seq<OrderChannel>
    ghost var places: map<string, nat>
    ghost var issued: seq<SettlementWaiter>

    ghost function Contents(): Board
      reads this, handed
    {
      Board(Values(handed), places)
    }

    ghost predicate Valid()
      reads this, handed, issued, set w <- issued :: w.ch
    {
      Wired(waiters, places, handed, issued) && Sound(Contents()) && Flagged(issued)
    }

    constructor ()
      ensures Valid() && Contents() == EMPTY && waiters == map[]
    {
      waiters, handed, places, issued := map[], [], map[], [];
    }

    /** Closes whatever channel a uuid maps to. */
    method CloseOld(uuid: string)
      requires Valid()
      modifies handed, issued
      ensures Contents() == Board(CloseFor(old(Contents()), uuid), places) && Flagged(issued)
      ensures uuid in waiters ==> waiters[uuid].closed
    {
      hide Sound;
      if uuid in waiters {
        var w := waiters[uuid];
        Entry(Contents(), uuid);
        ChannelIsSound(Contents(), places[uuid]);
        w.closed := true;
        w.ch.Close();
      }
    }

    method Register(uuid: string) returns (ch: OrderChannel)
      requires Valid()
      modifies this, handed, issued
      ensures Valid() && Contents() == Registered(old(Contents()), uuid)
      ensures fresh(ch) && handed == old(handed) + [ch]
      ensures |issued| == |old(issued)| + 1 && old(issued) <= issued && fresh(issued[|old(issued)|])
      ensures uuid in old(waiters) ==> old(waiters)[uuid].closed
      ensures waiters.Keys == old(waiters).Keys + {uuid} && waiters[uuid].ch == ch
    {
      hide Sound, CloseFor, Values, Wired, Flagged;
      RegisteredIsSound(Contents(), uuid);
      SameLength(handed);
      CloseOld(uuid);
      ghost var before, was := handed, Values(handed);
      ch := new OrderChannel(uuid, |handed|);
      var waiter := new SettlementWaiter(ch);
      WiredMore(waiters, places, handed, issued, uuid, waiter);
      FlaggedMore(issued, waiter);
      waiters := waiters[uuid := waiter];
      places := places[uuid := |handed|];
      handed := handed + [ch];
      issued := issued + [waiter];
      OneMore(before, ch);
      assert Values(before) == was;
      assert Values(handed) == was + [Channel(uuid, 0, [])];
      assert Contents() == Registered(old(Contents()), uuid);
    }

    /** Keyed by uuid: it removes whoever waits for it now, no matter who asks. */
    method Unregister(uuid: string)
      requires Valid()
      modifies this, handed, issued
      ensures Valid() && Contents() == Unregistered(old(Contents()), uuid)
      ensures handed == old(handed) && issued == old(issued) && waiters == old(waiters) - {uuid}
      ensures uuid in old(waiters) ==> old(waiters)[uuid].closed
    {
      hide Sound, CloseFor, Values, Wired;
      UnregisteredIsSound(Contents(), uuid);
      CloseOld(uuid);
      WiredFewer(waiters, places, handed, issued, uuid);
      waiters := waiters - {uuid};
      places := places - {uuid};
    }

    /** A stream takes the order out of its channel. */
    method Receive(channel: nat)
      requires Valid()
      modifies handed
      ensures Valid() && Contents() == Received(old(Contents()), channel)
      ensures channel < |handed| ==> handed[channel].buffer == []
      ensures forall i :: 0 <= i < |handed| && i != channel ==> handed[i].buffer == old(handed[i].buffer)
    {
      hide Sound;
      ReceivedIsSound(Contents(), channel);
      if channel < |handed| {
        ChannelIsSound(Contents(), channel);
        var _ := handed[channel].Take();
      }
      assert Contents() == Received(old(Contents()), channel);
    }

    /** What other goroutines do meanwhile. */
    method Perform(actions: seq<Action>)
      requires Valid() && NoAttempts(actions)
      modifies this, handed, issued
      ensures Valid() && Contents() == After(old(Contents()), actions, |actions|)
      ensures old(handed) <= handed && forall i :: |old(handed)| <= i < |handed| ==> fresh(handed[i])
      ensures old(issued) <= issued && forall i :: |old(issued)| <= i < |issued| ==> fresh(issued[i])
    {
      hide Sound, Values, Wired, Flagged, Registered, Unregistered, Received;
      for k := 0 to |actions|
        invariant Valid() && Contents() == After(old(Contents()), actions, k)
        invariant old(handed) <= handed && forall i :: |old(handed)| <= i < |handed| ==> fresh(handed[i])
        invariant old(issued) <= issued && forall i :: |old(issued)| <= i < |issued| ==> fresh(issued[i])
      {
        assert actions[k] in actions;
        match actions[k] {
          case Register(u) => var _ := Register(u);
          case Unregister(u) => Unregister(u);
          case Receive(c) => Receive(c);
        }
      }
    }

    /** The waiter for a uuid, under the read lock, with the place of its channel. */
    method LookUp(uuid: string) returns (w: SettlementWaiter?, ghost c: nat)
      requires Valid()
      ensures w == null <==> uuid !in Contents().waiting
      ensures w != null ==> c == Contents().waiting[uuid] && c < |issued| && issued[c] == w
    {
      hide Sound;
      w, c := null, 0;
      if uuid in waiters {
        w, c := waiters[uuid], places[uuid];
      }
    }

    /** Whether the waiter in place `c`, looked up earlier, is flagged by now. */
    method IsClosed(w: SettlementWaiter, ghost c: nat) returns (closed: bool)
      requires Valid() && c < |issued| && issued[c] == w
      ensures c < |Contents().channels| && (closed <==> Contents().channels[c].closes > 0)
    {
      hide Sound;
      closed := w.closed;
    }

    /** The send to a waiter that was found unflagged. */
    method SendTo(w: SettlementWaiter, ghost c: nat, o: Order) returns (r: Sending)
      requires Valid() && c < |issued| && issued[c] == w
      requires c < |Contents().channels| && Contents().channels[c].uuid == o.uuid
      modifies handed
      ensures Valid()
      ensures var b := old(Contents());
              && c < |b.channels|
              && r == (if b.channels[c].closes > 0 then Fatal else if b.channels[c].buffer == [] then Sent else Full)
              && Contents() == if r == Sent then Pushed(b, c, o) else b
    {
      hide Sound;
      if w.ch.closes > 0 {
        return Fatal;
      }
      PushedIsSound(Contents(), c, o);
      var sent := w.ch.TrySend(o);
      r := if sent then Sent else Full;
      assert Contents() == if sent then Pushed(old(Contents()), c, o) else old(Contents());
    }

    /** One turn of the delivery loop from its look on: look the waiter up, read its flag,
        send, with the others at work in between. */
    method TryDeliver(o: Order, t: Turn) returns (r: Sending)
      requires Valid() && NoAttempts(t.toCheck) && NoAttempts(t.toSend)
      modifies this, handed, issued
      ensures Valid() && (Contents(), r) == Tried(old(Contents()), o, t)
      ensures old(handed) <= handed && forall i :: |old(handed)| <= i < |handed| ==> fresh(handed[i])
      ensures old(issued) <= issued && forall i :: |old(issued)| <= i < |issued| ==> fresh(issued[i])
    {
      hide Sound, Attempted, Deliverable, After, Values, Wired, Flagged, NoAttempts;
      ghost var b, meantime := Contents(), t.toCheck + t.toSend;
      AfterPrefix(b, t.toCheck, t.toSend, |t.toCheck|);
      AfterWhole(b, t.toCheck, t.toSend);
      HandedOut(b, meantime, 0, |meantime|);
      AfterNothing(b, meantime);
      var w, c := LookUp(o.uuid);
      Perform(t.toCheck);
      if w == null {
        Perform(t.toSend);
        return Missed;
      }
      Entry(b, o.uuid);
      var closed := IsClosed(w, c);
      Perform(t.toSend);
      if closed {
        return Missed;
      }
      r := SendTo(w, c, o);
    }

    /** Turns until one delivers or is fatal, or the grace window is over. */
    method Deliver(o: Order, start: int, turns: seq<Turn>) returns (r: Sending)
      requires Valid()
      requires forall t <- turns :: NoAttempts(t.sleep) && NoAttempts(t.toCheck) && NoAttempts(t.toSend)
      modifies this, handed, issued
      ensures Valid() && (Contents(), r) == Delivery(old(Contents()), o, start + GRACE_MILLISECONDS, turns)
    {
      hide Sound, Values, Wired, Flagged, NoAttempts, Tried, After;
      var deadline := start + GRACE_MILLISECONDS;
      assert turns[0..] == turns;
      for k := 0 to |turns|
        invariant Valid()
        invariant Delivery(Contents(), o, deadline, turns[k..]) == Delivery(old(Contents()), o, deadline, turns)
        invariant old(handed) <= handed && forall i :: |old(handed)| <= i < |handed| ==> fresh(handed[i])
        invariant old(issued) <= issued && forall i :: |old(issued)| <= i < |issued| ==> fresh(issued[i])
      {
        var t := turns[k];
        assert turns[k..][0] == t && turns[k..][1..] == turns[k + 1..] && t in turns;
        Perform(t.sleep);
        if t.now >= deadline {
          return Missed;
        }
        r := TryDeliver(o, t);
        if Ends(r) {
          return;
        }
      }
      r := Missed;
    }

    /** One message: it is routed as a publish result if it reads as one with a uuid, else as
        an order if it reads as one, and else discarded; what is routed is acknowledged,
        whether or not anybody got it, unless the send brings the process down. */
    method RouteAndAck(body: Body, start: int, turns: seq<Turn>) returns (d: Disposition, sent: bool)
      requires Valid()
      requires forall t <- turns :: NoAttempts(t.sleep) && NoAttempts(t.toCheck) && NoAttempts(t.toSend)
      modifies this, handed, issued
      ensures Valid()
      ensures d == Discarded
         <==> body.asOrder.None? && (body.asResult.None? || body.asResult.value.uuid == "")
      ensures d == Discarded ==> Contents() == old(Contents()) && !sent
      ensures body.asResult.Some? && body.asResult.value.uuid != "" ==>
                Routed(old(Contents()), body.asResult.value, start + 500, turns, Contents(), d, sent)
      ensures (body.asResult.None? || body.asResult.value.uuid == "") && body.asOrder.Some? ==>
                Routed(old(Contents()), body.asOrder.value, start + 500, turns, Contents(), d, sent)
    {
      hide Sound, Wired, Delivery, NoAttempts, AllIdle, FirstEnd, HandsOver, HeldBy, SeenAt, Values, Flagged;
      var order: Option<Order> := None;
      if body.asResult.Some? && body.asResult.value.uuid != "" {
        order := body.asResult;
      } else if body.asOrder.None? {
        return Discarded, false;
      } else {
        order := body.asOrder;
      }
      ghost var before, deadline := Contents(), start + 500;
      DeliveryIff(before, order.value, deadline, turns);
      LostIff(before, order.value, deadline, turns);
      DeliveredIff(before, order.value, deadline, turns);
      SentIsHeld(before, order.value, deadline, turns);
      var r := Deliver(order.value, start, turns);
      d, sent := if r == Fatal then Crashed else Acked, r == Sent;
    }
  }
}
