/** The cost the broker reports against the cost the database adds up. */
module Costs {
  import opened Orders
  import opened Database
  import opened Matching
  import opened Allocation
  import opened Statuses
  import Ingestion

  predicate WholeCents(price: real) {
    (price * 100.0).Floor as real == price * 100.0
  }

  lemma RoundsToItself(x: real)
    ensures (x + 0.5).Floor as real == x <==> x.Floor as real == x
  {
    if x.Floor as real == x {
      assert (x + 0.5).Floor == x.Floor;
    }
  }

  lemma Hundredth(c: real, price: real)
    ensures c / 100.0 == price <==> c == price * 100.0
  {
  }

  lemma WholeBothWays(x: real)
    ensures x.Floor as real == x <==> (-x).Floor as real == -x
  {
    if x.Floor as real == x {
      assert (-x).Floor == -x.Floor;
    }
    if (-x).Floor as real == -x {
      assert x.Floor == -(-x).Floor;
    }
  }

  /** The price column keeps a price of either sign as it is exactly when it is in whole cents. */
  lemma CentsKeptIff(price: real)
    ensures ToCents(price) == price <==> WholeCents(price)
  {
    var size := if price >= 0.0 then price else -price;
    RoundsToItself(size * 100.0);
    Hundredth((size * 100.0 + 0.5).Floor as real, size);
    WholeBothWays(price * 100.0);
    assert price < 0.0 ==> size * 100.0 == -(price * 100.0);
  }

  /** The price column rounds to the nearest cent, and half a cent away from zero. */
  lemma NearestCent(price: real)
    ensures WholeCents(ToCents(price))
    ensures price >= 0.0 ==> -0.005 < ToCents(price) - price <= 0.005
    ensures price < 0.0 ==> -0.005 <= ToCents(price) - price < 0.005
  {
    var size := if price >= 0.0 then price else -price;
    var cents := (size * 100.0 + 0.5).Floor as real;
    Hundredth(cents, cents / 100.0);
    WholeBothWays(cents);
    assert ToCents(price) * 100.0 == if price >= 0.0 then cents else -cents;
  }

  /** What the server stores for an order: the wire lines at column precision. */
  function StoredDetails(o: Order): seq<Detail> {
    NewDetails(Ingestion.WireLines(o.lines))
  }

  function StoredCost(o: Order, n: nat): real
    requires n <= |o.lines|
  {
    if n == 0 then 0.0 else StoredCost(o, n - 1) + LineCost(o.lines[n - 1].quantity, ToCents(o.lines[n - 1].price))
  }

  lemma {:induction false} StoredCostIsDetailsCost(o: Order, n: nat)
    requires FitsWire(o.lines) && n <= |o.lines|
    ensures |StoredDetails(o)| == |o.lines|
    ensures DetailsCost(StoredDetails(o)[..n]) == StoredCost(o, n)
  {
    hide ToCents, LineCost;
    var details := StoredDetails(o);
    if n > 0 {
      StoredCostIsDetailsCost(o, n - 1);
      assert details[..n][..n - 1] == details[..n - 1];
      assert o.lines[n - 1] in o.lines;
    }
  }

  predicate AllWholeCents(lines: seq<Line>) {
    forall l <- lines :: WholeCents(l.price)
  }

  /** What the lines cost in full, at the buyer's own prices. */
  function FullCost(lines: seq<Line>, n: nat): real
    requires n <= |lines|
  {
    if n == 0 then 0.0 else FullCost(lines, n - 1) + LineCost(lines[n - 1].quantity, lines[n - 1].price)
  }

  lemma {:induction false} FullDeliveryCost(lines: seq<Line>, items: seq<LineResult>, n: nat)
    requires n <= |lines| && n <= |items|
    requires forall k :: 0 <= k < n ==> items[k].fulfilled == lines[k].quantity
    ensures CostOf(lines, items, n) == FullCost(lines, n)
  {
    if n > 0 {
      FullDeliveryCost(lines, items, n - 1);
    }
  }

  lemma {:induction false} WholeCentsAreStored(o: Order, n: nat)
    requires n <= |o.lines| && AllWholeCents(o.lines)
    ensures StoredCost(o, n) == FullCost(o.lines, n)
  {
    hide ToCents, WholeCents, LineCost;
    if n > 0 {
      WholeCentsAreStored(o, n - 1);
      assert o.lines[n - 1] in o.lines;
      CentsKeptIff(o.lines[n - 1].price);
    }
  }

  /** If the order is processed, it costs the same in both places. */
  predicate AgreesIfProcessed(o: Order, s: Shelf, net: Network) {
    ResultOf(o, s, net).status == Processed ==> ResultOf(o, s, net).cost == DetailsCost(StoredDetails(o))
  }

  /** A processed order without negative quantities was delivered line by line. */
  lemma ProcessedInFull(o: Order, s: Shelf, net: Network)
    requires NoNegative(o.lines) && ResultOf(o, s, net).status == Processed
    ensures ResultOf(o, s, net).cost == FullCost(o.lines, |o.lines|)
  {
    hide CallFor, ServeLines, CostOf, FullCost, TotalFulfilled, TotalQuantity, ItemsFor;
    var items := Items(o, s, net);
    ItemsLength(o, s, net);
    StatusMeansItems(o, s, net);
    forall k | 0 <= k < |items| ensures items[k].fulfilled == o.lines[k].quantity {
      GrantBounded(o, k, s, net);
      WantedBounded(o.lines[k]);
      assert o.lines[k] in o.lines;
    }
    FullDeliveryCost(o.lines, items, |items|);
  }

  /** For quantities not of both signs and prices of either sign in whole cents, carried
      through both wire formats and the price column: a processed order is reported to
      cost exactly what the database adds up, whatever the network did. */
  lemma CostAgreement(o: Order, s: Shelf, net: Network)
    requires FitsWire(o.lines) && OneSign(o.lines) && AllWholeCents(o.lines)
    ensures AgreesIfProcessed(o, s, net)
  {
    hide ResultOf, FullCost, StoredCost, DetailsCost, StoredDetails, WholeCents, FitsWire;
    if ResultOf(o, s, net).status == Processed {
      if NoNegative(o.lines) {
        ProcessedInFull(o, s, net);
        WholeCentsAreStored(o, |o.lines|);
        StoredCostIsDetailsCost(o, |o.lines|);
        assert StoredDetails(o)[..|o.lines|] == StoredDetails(o);
      } else {
        NothingAskedNothingProcessed(o, s, net);
        assert false;
      }
    }
  }

  // ---------------------------------------------------------------- the bound

  /** The price column neither lowers the price nor makes it negative. */
  predicate NotLowered(price: real) {
    0.0 <= ToCents(price) && price <= ToCents(price)
  }

  lemma PartOfTheWhole(part: int, whole: int, price: real, stored: real)
    requires 0 <= part <= whole && price <= stored && 0.0 <= stored
    ensures LineCost(part, price) <= LineCost(whole, stored)
  {
    assert part as real * price <= part as real * stored;
    assert part as real * stored <= whole as real * stored;
  }

  /** Delivering no more than was asked for costs no more than the order. */
  lemma {:induction false} CostBounded(o: Order, items: seq<LineResult>, n: nat)
    requires n <= |items| && n <= |o.lines| && forall l <- o.lines :: NotLowered(l.price)
    requires forall k :: 0 <= k < n ==> 0 <= items[k].fulfilled <= o.lines[k].quantity
    ensures CostOf(o.lines, items, n) <= StoredCost(o, n)
  {
    hide ToCents, LineCost;
    if n > 0 {
      CostBounded(o, items, n - 1);
      assert o.lines[n - 1] in o.lines;
      PartOfTheWhole(items[n - 1].fulfilled, o.lines[n - 1].quantity, o.lines[n - 1].price,
                     ToCents(o.lines[n - 1].price));
    }
  }

  predicate NeverExceeds(o: Order, s: Shelf, net: Network) {
    ResultOf(o, s, net).cost <= DetailsCost(StoredDetails(o))
  }

  /** Then no order is reported to cost more than the database says, whatever its label
      and whatever the network did. */
  lemma CostNeverExceeds(o: Order, s: Shelf, net: Network)
    requires FitsWire(o.lines) && NoNegative(o.lines) && forall l <- o.lines :: NotLowered(l.price)
    ensures NeverExceeds(o, s, net)
  {
    hide CallFor, ServeLines, CostOf, DetailsCost, StoredCost, TotalFulfilled, TotalQuantity,
         ItemsFor, StoredDetails, NotLowered;
    var items := Items(o, s, net);
    ItemsLength(o, s, net);
    forall k | 0 <= k < |items| ensures 0 <= items[k].fulfilled <= o.lines[k].quantity {
      GrantBounded(o, k, s, net);
      WantedBounded(o.lines[k]);
      assert o.lines[k] in o.lines;
    }
    CostBounded(o, items, |items|);
    StoredCostIsDetailsCost(o, |o.lines|);
    assert StoredDetails(o)[..|o.lines|] == StoredDetails(o);
  }

  /** Nonnegative prices in whole cents are among those. */
  lemma WholeCentsNotLowered(price: real)
    requires price >= 0.0 && WholeCents(price)
    ensures NotLowered(price)
  {
    hide ToCents, WholeCents;
    CentsKeptIff(price);
  }

  // ---------------------------------------------------------------- whole cents are necessary

  /** The same breads at the same prices. */
  predicate SamePrices(a: seq<Line>, b: seq<Line>) {
    |a| == |b| && forall k :: 0 <= k < |a| ==> a[k].breadId == b[k].breadId && a[k].price == b[k].price
  }

  predicate AllPositive(lines: seq<Line>) {
    forall l <- lines :: l.quantity > 0
  }

  /** One unit of everything, but `q` units of line `j`. */
  function Ones(o: Order, j: nat, q: int): Order
    requires j < |o.lines|
  {
    o.(lines := seq(|o.lines|, k requires 0 <= k < |o.lines| => o.lines[k].(quantity := if k == j then q else 1)))
  }

  lemma {:induction false} OneMoreUnit(o: Order, j: nat, n: nat)
    requires j < |o.lines| && n <= |o.lines|
    ensures FullCost(Ones(o, j, 2).lines, n)
         == FullCost(Ones(o, j, 1).lines, n) + if j < n then o.lines[j].price else 0.0
    ensures StoredCost(Ones(o, j, 2), n)
         == StoredCost(Ones(o, j, 1), n) + if j < n then ToCents(o.lines[j].price) else 0.0
  {
    hide ToCents, LineCost;
    if n > 0 {
      OneMoreUnit(o, j, n - 1);
      TwoUnits(o.lines[j].price);
      TwoUnits(ToCents(o.lines[j].price));
    }
  }

  lemma TwoUnits(price: real)
    ensures LineCost(2, price) == LineCost(1, price) + price
  {
  }

  /** With ample stock an order without negative quantities costs what its lines add up to. */
  lemma PlentyCost(o: Order, s: Shelf)
    requires FitsWire(o.lines) && AllPositive(o.lines) && o.lines != [] && s.stock == Plenty(o.lines)
    ensures ResultOf(o, s, RELIABLE).status == Processed
    ensures ResultOf(o, s, RELIABLE).cost == FullCost(o.lines, |o.lines|)
  {
    hide CallFor, ServeLines, CostOf, FullCost, Plenty, ItemsFor, AnyRejected, TotalFulfilled, TotalQuantity, IsInt32;
    var items := Items(o, s, RELIABLE);
    ItemsLength(o, s, RELIABLE);
    forall k | 0 <= k < |items| ensures items[k].fulfilled == o.lines[k].quantity > 0 {
      PlentyDelivers(o, k, s);
      assert o.lines[k] in o.lines;
    }
    StatusMeansItems(o, s, RELIABLE);
    assert o.lines[0].quantity > 0;
    FullDeliveryCost(o.lines, items, |items|);
  }

  lemma OnesIsSuitable(o: Order, j: nat, q: int)
    requires j < |o.lines| && (q == 1 || q == 2) && forall l <- o.lines :: IsInt32(l.breadId)
    ensures var p := Ones(o, j, q);
            SamePrices(p.lines, o.lines) && FitsWire(p.lines) && AllPositive(p.lines) && p.lines != []
  {
    var p := Ones(o, j, q);
    forall l | l in p.lines ensures IsInt32(l.breadId) && IsInt32(l.quantity) && l.quantity > 0 {
      var k :| 0 <= k < |p.lines| && p.lines[k] == l;
      assert o.lines[k] in o.lines;
    }
  }

  /** For given breads and prices, of any number and sign: every processed order for them
      costs the same in both places, whatever its quantities as long as they are not of
      both signs, the stock and the network, exactly if all the prices are in whole cents. */
  lemma AgreementIff(o: Order)
    requires forall l <- o.lines :: IsInt32(l.breadId)
    ensures (forall p: Order, s: Shelf, net: Network ::
               SamePrices(p.lines, o.lines) && FitsWire(p.lines) && OneSign(p.lines) ==> AgreesIfProcessed(p, s, net))
       <==> AllWholeCents(o.lines)
  {
    hide AgreesIfProcessed, WholeCents, FitsWire, SamePrices, OneSign;
    if AllWholeCents(o.lines) {
      forall p: Order, s: Shelf, net: Network |
        SamePrices(p.lines, o.lines) && FitsWire(p.lines) && OneSign(p.lines)
        ensures AgreesIfProcessed(p, s, net)
      {
        SamePricesWholeCents(o, p);
        CostAgreement(p, s, net);
      }
    } else {
      var l :| l in o.lines && !WholeCents(l.price);
      var j :| 0 <= j < |o.lines| && o.lines[j] == l;
      OnesIsSuitable(o, j, 1);
      OnesIsSuitable(o, j, 2);
      PositiveIsOneSign(Ones(o, j, 1).lines);
      PositiveIsOneSign(Ones(o, j, 2).lines);
      OnesDisagree(o, j);
      assert !AgreesIfProcessed(Ones(o, j, 1), Shelf(Plenty(Ones(o, j, 1).lines), 0), RELIABLE)
          || !AgreesIfProcessed(Ones(o, j, 2), Shelf(Plenty(Ones(o, j, 2).lines), 0), RELIABLE);
    }
  }

  lemma PositiveIsOneSign(lines: seq<Line>)
    requires AllPositive(lines)
    ensures OneSign(lines)
  {
  }

  lemma SamePricesWholeCents(o: Order, p: Order)
    requires SamePrices(p.lines, o.lines) && AllWholeCents(o.lines)
    ensures AllWholeCents(p.lines)
  {
    hide WholeCents;
    forall l | l in p.lines ensures WholeCents(l.price) {
      var k :| 0 <= k < |p.lines| && p.lines[k] == l;
      assert o.lines[k] in o.lines;
    }
  }

  lemma OnesCost(o: Order, j: nat, q: int)
    requires j < |o.lines| && (q == 1 || q == 2) && forall l <- o.lines :: IsInt32(l.breadId)
    ensures var p := Ones(o, j, q);
            AgreesIfProcessed(p, Shelf(Plenty(p.lines), 0), RELIABLE)
            <==> FullCost(p.lines, |o.lines|) == StoredCost(p, |o.lines|)
  {
    hide ResultOf, FullCost, StoredCost, Plenty, DetailsCost, StoredDetails;
    var p := Ones(o, j, q);
    OnesIsSuitable(o, j, q);
    PlentyCost(p, Shelf(Plenty(p.lines), 0));
    StoredCostIsDetailsCost(p, |p.lines|);
    assert StoredDetails(p)[..|p.lines|] == StoredDetails(p);
  }

  /** One more unit of a line with a fraction of a cent tips the balance. */
  lemma OnesDisagree(o: Order, j: nat)
    requires j < |o.lines| && forall l <- o.lines :: IsInt32(l.breadId)
    requires !WholeCents(o.lines[j].price)
    ensures !AgreesIfProcessed(Ones(o, j, 1), Shelf(Plenty(Ones(o, j, 1).lines), 0), RELIABLE)
         || !AgreesIfProcessed(Ones(o, j, 2), Shelf(Plenty(Ones(o, j, 2).lines), 0), RELIABLE)
  {
    hide AgreesIfProcessed, FullCost, StoredCost, ToCents, WholeCents, Plenty;
    OnesCost(o, j, 1);
    OnesCost(o, j, 2);
    OneMoreUnit(o, j, |o.lines|);
    CentsKeptIff(o.lines[j].price);
  }

  lemma DifferentPrices(quantity: int, p: real, q: real)
    requires quantity > 0 && p != q
    ensures LineCost(quantity, p) != LineCost(quantity, q)
  {
    assert LineCost(quantity, p) - LineCost(quantity, q) == LineCost(quantity, p - q);
  }

  lemma {:induction false} OneLineCost(o: Order, line: Line, items: seq<LineResult>)
    requires o.lines == [line] && |items| == 1 && items[0].fulfilled == line.quantity
    requires FitsWire(o.lines)
    ensures CostOf(o.lines, items, 1) == LineCost(line.quantity, line.price)
    ensures DetailsCost(StoredDetails(o)) == LineCost(line.quantity, ToCents(line.price))
  {
    hide ToCents, DetailsCost, StoredDetails, LineCost;
    StoredCostIsDetailsCost(o, 1);
    assert StoredDetails(o)[..1] == StoredDetails(o);
    assert CostOf(o.lines, items, 0) == 0.0 && StoredCost(o, 0) == 0.0;
  }

  lemma OneLineDelivered(o: Order, line: Line, s: Shelf)
    requires o.lines == [line] && FitsWire(o.lines) && line.quantity > 0
    requires Available(s.stock, line.breadId) >= line.quantity
    ensures Items(o, s, RELIABLE)[0].fulfilled == line.quantity
  {
    hide CallFor, ServeLines, Available;
    assert line in o.lines;
    GrantIsShare(o.lines, 0, s);
  }

  /** A single order of one line, filled in full, costs the same in both places exactly
      when its price is in whole cents; with several lines rounding errors may cancel out
      for some quantities. */
  lemma OneLineAgreesIff(o: Order, line: Line, s: Shelf)
    requires o.lines == [line] && FitsWire(o.lines) && line.quantity > 0
    requires Available(s.stock, line.breadId) >= line.quantity
    ensures ResultOf(o, s, RELIABLE).status == Processed
    ensures ResultOf(o, s, RELIABLE).cost == DetailsCost(StoredDetails(o)) <==> WholeCents(line.price)
  {
    hide ToCents, WholeCents, CostOf, DetailsCost, StoredDetails, ItemsFor, Available, LineCost;
    var items := Items(o, s, RELIABLE);
    ItemsLength(o, s, RELIABLE);
    CentsKeptIff(line.price);
    OneLineDelivered(o, line, s);
    StatusMeansItems(o, s, RELIABLE);
    assert o.lines[0].quantity > 0;
    OneLineCost(o, line, items);
    if !WholeCents(line.price) {
      DifferentPrices(line.quantity, line.price, ToCents(line.price));
    }
  }

  // ---------------------------------------------------------------- when the bound holds

  /** One unit of line `j` and nothing of the others. */
  function OneUnit(o: Order, j: nat): Order
    requires j < |o.lines|
  {
    o.(lines := seq(|o.lines|, k requires 0 <= k < |o.lines| => o.lines[k].(quantity := if k == j then 1 else 0)))
  }

  lemma LineCostUnits(price: real)
    ensures LineCost(0, price) == 0.0 && LineCost(1, price) == price
  {
  }

  lemma {:induction false} OneUnitStored(o: Order, j: nat, n: nat)
    requires j < |o.lines| && n <= |o.lines|
    ensures StoredCost(OneUnit(o, j), n) == if j < n then ToCents(o.lines[j].price) else 0.0
  {
    hide ToCents, LineCost;
    if n > 0 {
      OneUnitStored(o, j, n - 1);
      LineCostUnits(ToCents(o.lines[n - 1].price));
    }
  }

  /** The cost of items that deliver `got` units of line `j` and nothing else. */
  lemma {:induction false} OneUnitCost(o: Order, j: nat, items: seq<LineResult>, got: int, n: nat)
    requires j < |o.lines| && n <= |o.lines| && |items| == |o.lines| && (got == 0 || got == 1)
    requires forall k :: 0 <= k < n ==> items[k].fulfilled == if k == j then got else 0
    ensures CostOf(OneUnit(o, j).lines, items, n) == if j < n && got == 1 then o.lines[j].price else 0.0
  {
    hide LineCost;
    if n > 0 {
      OneUnitCost(o, j, items, got, n - 1);
      LineCostUnits(o.lines[n - 1].price);
    }
  }

  lemma OneUnitIsSuitable(o: Order, j: nat)
    requires j < |o.lines| && forall l <- o.lines :: IsInt32(l.breadId)
    ensures var p := OneUnit(o, j);
            SamePrices(p.lines, o.lines) && FitsWire(p.lines) && NoNegative(p.lines)
  {
    var p := OneUnit(o, j);
    forall l | l in p.lines ensures IsInt32(l.breadId) && IsInt32(l.quantity) && l.quantity >= 0 {
      var k :| 0 <= k < |p.lines| && p.lines[k] == l;
      assert o.lines[k] in o.lines;
    }
  }

  lemma EmptyShelfDelivers(o: Order, k: nat)
    requires k < |o.lines|
    ensures Items(o, Shelf(map[], 0), RELIABLE)[k].fulfilled == 0
  {
    hide CallFor, ServeLines;
    GrantIsShare(o.lines, k, Shelf(map[], 0));
  }

  /** With an empty shelf it costs nothing, with ample stock its price. */
  lemma OneUnitExceeds(o: Order, j: nat)
    requires j < |o.lines| && forall l <- o.lines :: IsInt32(l.breadId)
    requires !NotLowered(o.lines[j].price)
    ensures var p := OneUnit(o, j);
            || !NeverExceeds(p, Shelf(map[], 0), RELIABLE)
            || !NeverExceeds(p, Shelf(Plenty(p.lines), 0), RELIABLE)
  {
    hide CallFor, ServeLines, CostOf, DetailsCost, StoredCost, Plenty, StatusOf, ItemsFor, StoredDetails, ToCents;
    var p := OneUnit(o, j);
    OneUnitIsSuitable(o, j);
    StoredCostIsDetailsCost(p, |p.lines|);
    assert StoredDetails(p)[..|p.lines|] == StoredDetails(p);
    OneUnitStored(o, j, |o.lines|);
    var empty, plenty := Shelf(map[], 0), Shelf(Plenty(p.lines), 0);
    ItemsLength(p, empty, RELIABLE);
    ItemsLength(p, plenty, RELIABLE);
    forall k | 0 <= k < |p.lines|
      ensures Items(p, empty, RELIABLE)[k].fulfilled == 0
      ensures Items(p, plenty, RELIABLE)[k].fulfilled == if k == j then 1 else 0
    {
      EmptyShelfDelivers(p, k);
      PlentyDelivers(p, k, plenty);
    }
    OneUnitCost(o, j, Items(p, empty, RELIABLE), 0, |p.lines|);
    OneUnitCost(o, j, Items(p, plenty, RELIABLE), 1, |p.lines|);
  }

  /** For given breads and prices: no order for them, in any nonnegative quantities, is
      ever reported to cost more than the database says, exactly if the price column
      neither lowers a price nor makes it negative. */
  lemma NeverExceedsIff(o: Order)
    requires forall l <- o.lines :: IsInt32(l.breadId)
    ensures (forall p: Order, s: Shelf, net: Network ::
               SamePrices(p.lines, o.lines) && FitsWire(p.lines) && NoNegative(p.lines) ==> NeverExceeds(p, s, net))
       <==> forall l <- o.lines :: NotLowered(l.price)
  {
    hide NeverExceeds, NotLowered, FitsWire, NoNegative;
    if forall l <- o.lines :: NotLowered(l.price) {
      forall p: Order, s: Shelf, net: Network |
        SamePrices(p.lines, o.lines) && FitsWire(p.lines) && NoNegative(p.lines)
        ensures NeverExceeds(p, s, net)
      {
        forall l | l in p.lines ensures NotLowered(l.price) {
          var k :| 0 <= k < |p.lines| && p.lines[k] == l;
          assert o.lines[k] in o.lines;
        }
        CostNeverExceeds(p, s, net);
      }
    } else {
      var l :| l in o.lines && !NotLowered(l.price);
      var j :| 0 <= j < |o.lines| && o.lines[j] == l;
      OneUnitIsSuitable(o, j);
      OneUnitExceeds(o, j);
    }
  }
}
