/** The server's side of the broker protocol: the only way the broker reaches the tables. */
module BrokerServer {
  import opened Orders
  import opened Database
  import opened Repository
  import Ingestion
  import Matching
  import Outbox

  class BrokerServiceServer {
    const repo: PostgresRepository

    constructor (repo: PostgresRepository)
      ensures this.repo == repo
    {
      this.repo := repo;
    }

    /** Duplicate check and insert, on a database that may fail at either. */
    method ReportOrder(o: Order, lookupFails: bool, insertFails: bool) returns (reply: Ingestion.Reply)
      requires repo.Valid()
      modifies repo`orders, repo`nextOrderId
      ensures repo.Valid()
      ensures Ingestion.Reported(Ingestion.Book(repo.orders, repo.nextOrderId), reply)
           == Ingestion.Serve(Ingestion.Book(old(repo.orders), old(repo.nextOrderId)), o,
                              Ingestion.World(repo.stock, repo.customers),
                              Ingestion.Served(lookupFails, insertFails, false))
      ensures reply == Ingestion.Duplicate <==>
                !lookupFails && exists id <- old(repo.orders) :: old(repo.orders)[id].uuid == o.uuid
      ensures reply.Accepted? ==>
                reply.id == old(repo.nextOrderId) && Ingestion.AddsRow(old(repo.orders), repo.orders, reply.id, o)
      ensures !reply.Accepted? ==> repo.orders == old(repo.orders)
      ensures reply == Ingestion.InternalError && !insertFails ==>
                || (exists id <- old(repo.orders) :: old(repo.orders)[id].uuid == o.uuid)
                || !Ingestion.Acceptable(o, repo.stock, repo.customers)
      ensures reply.Accepted? ==> !insertFails && Ingestion.Acceptable(o, repo.stock, repo.customers)
    {
      hide Ingestion.Acceptable, Ingestion.AddsRow, Insertable, NewDetails, ToInt32, ToCents;
      ghost var book := Ingestion.Book(repo.orders, repo.nextOrderId);
      ghost var world := Ingestion.World(repo.stock, repo.customers);
      Ingestion.StorableIff(book, o, world);
      if !insertFails && Ingestion.Storable(book, o, world) {
        Ingestion.ServeInserts(book, o, world, Ingestion.Served(lookupFails, insertFails, false));
      }
      if !lookupFails {
        var known := repo.GetBuyOrderByUUID(o.uuid);
        if known.Some? {
          return Ingestion.Duplicate;
        }
      }
      if insertFails {
        return Ingestion.InternalError;
      }
      var id := repo.InsertBuyOrder(o.uuid, ToInt32(o.customerId), Ingestion.WireLines(o.lines));
      if id.None? {
        return Ingestion.InternalError;
      }
      reply := Ingestion.Accepted(id.value);
    }

    /** Any failure, out of stock or not, is answered as "not reserved". */
    method ReserveInventory(bread: int, requested: int, databaseDown: bool) returns (reserved: bool, fulfilled: int)
      requires repo.Valid()
      modifies repo`stock
      ensures repo.Valid()
      ensures databaseDown ==> repo.stock == old(repo.stock) && !reserved && fulfilled == 0
      ensures !databaseDown ==>
                && repo.stock == AfterItem(old(repo.stock), bread, requested)
                && (reserved <==> ItemGrant(old(repo.stock), bread, requested).Granted?)
                && fulfilled == ToInt32(Matching.GrantedAmount(ItemGrant(old(repo.stock), bread, requested)))
    {
      if databaseDown {
        return false, 0;
      }
      var grant := repo.FulfillOrderItem(bread, requested);
      match grant
      case Granted(amount) => return true, ToInt32(amount);
      case _ => return false, 0;
    }

    /** Statuses and outbox rows of a batch in one transaction. Statement number `failAt`,
        counting the begin, two per result and the commit, fails; a larger number means none does. */
    method ReportMatchingResults(results: seq<OrderResult>, now: int, failAt: nat) returns (ok: bool)
      requires repo.Valid()
      modifies repo`orders, repo`outbox, repo`nextOutboxId
      ensures repo.Valid()
      ensures ok <==> failAt > 2 * |results| + 1 && Postable(old(repo.orders), results)
      ensures ok ==> Outbox.NoneUnlisted(old(repo.orders), results)
      ensures ok ==>
                && repo.orders == PostStatuses(old(repo.orders), results, |results|)
                && repo.outbox == old(repo.outbox) + NewOutboxRows(results, old(repo.nextOutboxId), now)
      ensures ok ==> Outbox.Appends(old(repo.outbox), repo.outbox, results, old(repo.nextOutboxId), now)
      ensures !ok ==> repo.orders == old(repo.orders) && repo.outbox == old(repo.outbox)
    {
      hide PostStatus, UuidTaken, Postable, Outbox.Appends, Outbox.NoneUnlisted, DistinctDetails, DistinctIds,
           NewOutboxRows;
      if failAt == 0 {
        return false;
      }
      var orders, rows := repo.orders, [];
      var firstId := repo.nextOutboxId;
      Outbox.NothingIsPostable(repo.orders);
      Outbox.NoNewRows(firstId, now);
      for k := 0 to |results|
        invariant orders == PostStatuses(repo.orders, results, k)
        invariant rows == NewOutboxRows(results[..k], firstId, now)
        invariant Postable(repo.orders, results[..k])
        invariant repo.orders == old(repo.orders) && repo.outbox == old(repo.outbox)
        invariant repo.nextOutboxId == firstId + k && repo.Valid()
        invariant failAt > 2 * k
      {
        Outbox.PostingKeepsUuids(repo.orders, results, k);
        Outbox.PostableNext(repo.orders, results, k);
        if failAt == 2 * k + 1 || (UuidTaken(orders, results[k].uuid) && results[k].status.Unlisted?) {
          return false;
        }
        orders := PostStatus(orders, results[k]);
        if failAt == 2 * k + 2 {
          return false;
        }
        Outbox.NewRowsNext(results, k, firstId, now);
        rows := rows + [OutboxRow(repo.nextOutboxId, results[k], false, now)];
        repo.nextOutboxId := repo.nextOutboxId + 1;
      }
      if failAt == 2 * |results| + 1 {
        return false;
      }
      assert results[..|results|] == results;
      Outbox.PostingKeepsUuids(repo.orders, results, |results|);
      Outbox.PostableMeans(repo.orders, results);
      Outbox.NewRowsAppend(repo.outbox, results, firstId, now);
      Outbox.NewRowsKeepIds(repo.outbox, results, firstId, now);
      repo.orders := orders;
      repo.outbox := repo.outbox + rows;
      ok := true;
    }
  }
}
