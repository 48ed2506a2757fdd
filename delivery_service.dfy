/**
 * The in-memory delivery store: a fixed table of deliveries, read by status (newest first) or
 * by id, and updated in place when a delivery changes status.
 */
module Deliveries {
  import opened Wrappers
  import opened DeliveryTypes

  /** The error thrown when no delivery has the requested id. */
  const NotFoundMessage := "Entrega no encontrada"

  /** Ordered by creation time, newest first. */
  predicate NewestFirst(ds: seq<Delivery>)
  {
    forall i, j :: 0 <= i < j < |ds| ==> ds[i].createdAt >= ds[j].createdAt
  }

  /** Place `d` after every strictly newer delivery and before the others. */
  function InsertByDate(d: Delivery, sorted: seq<Delivery>): (r: seq<Delivery>)
    ensures |r| == |sorted| + 1
    ensures r[0] == d || (sorted != [] && r[0] == sorted[0])
  {
    if sorted == [] || sorted[0].createdAt <= d.createdAt then [d] + sorted
    else [sorted[0]] + InsertByDate(d, sorted[1..])
  }

  /** Inserting into a newest-first list keeps it newest first. */
  lemma {:induction false} InsertByDateKeepsOrder(d: Delivery, sorted: seq<Delivery>)
    requires NewestFirst(sorted)
    ensures NewestFirst(InsertByDate(d, sorted))
    decreases |sorted|
  {
    if sorted != [] && sorted[0].createdAt > d.createdAt {
      var tail := InsertByDate(d, sorted[1..]);
      InsertByDateKeepsOrder(d, sorted[1..]);
      var r := [sorted[0]] + tail;
      assert tail[0].createdAt <= sorted[0].createdAt;
      forall i, j | 0 <= i < j < |r|
        ensures r[i].createdAt >= r[j].createdAt
      {
        assert r[j] == tail[j - 1];
        if i > 0 {
          assert r[i] == tail[i - 1];
        }
      }
    }
  }

  /** Inserting adds exactly the one delivery. */
  lemma {:induction false} InsertByDateAddsOne(d: Delivery, sorted: seq<Delivery>)
    ensures multiset(InsertByDate(d, sorted)) == multiset(sorted) + multiset{d}
    decreases |sorted|
  {
    if sorted != [] && sorted[0].createdAt > d.createdAt {
      InsertByDateAddsOne(d, sorted[1..]);
      assert sorted == [sorted[0]] + sorted[1..];
    }
  }

  /**
   * `sort((a, b) => b.createdAt - a.createdAt)`: a stable sort, newest first; deliveries created
   * at the same instant keep their order.
   */
  function SortNewestFirst(ds: seq<Delivery>): (r: seq<Delivery>)
    ensures NewestFirst(r)
    ensures multiset(r) == multiset(ds)
    ensures |r| == |ds|
  {
    if ds == [] then []
    else
      var rest := SortNewestFirst(ds[1..]);
      InsertByDateKeepsOrder(ds[0], rest);
      InsertByDateAddsOne(ds[0], rest);
      assert multiset(ds) == multiset{ds[0]} + multiset(ds[1..]) by {
        assert ds == [ds[0]] + ds[1..];
      }
      InsertByDate(ds[0], rest)
  }

  /** A list that is already newest first comes back unchanged: ties are never reordered. */
  lemma {:induction false} SortKeepsSortedInput(ds: seq<Delivery>)
    requires NewestFirst(ds)
    ensures SortNewestFirst(ds) == ds
    decreases |ds|
  {
    if ds != [] {
      assert NewestFirst(ds[1..]);
      SortKeepsSortedInput(ds[1..]);
      assert ds == [ds[0]] + ds[1..];
    }
  }

  /** The deliveries `getDeliveries` keeps before sorting: all of them, or those with the status. */
  function Selected(ds: seq<Delivery>, status: Option<DeliveryStatus>): (r: seq<Delivery>)
    ensures status.None? ==> r == ds
    ensures status.Some? ==> forall d :: d in r <==> d in ds && d.status == status.value
  {
    match status
    case None => ds
    case Some(st) => WithStatus(ds, st)
  }

  /** What a by-status read returns: exactly the deliveries with that status, newest first. */
  lemma DeliveriesWithStatus(ds: seq<Delivery>, st: DeliveryStatus)
    ensures var r := SortNewestFirst(Selected(ds, Some(st)));
      && NewestFirst(r)
      && (forall d :: d in r <==> d in ds && d.status == st)
      && |r| == multiset(Statuses(ds))[st]
  {
    var r := SortNewestFirst(Selected(ds, Some(st)));
    forall d
      ensures d in r <==> d in ds && d.status == st
    {
      assert d in r <==> d in multiset(r);
      assert d in WithStatus(ds, st) <==> d in multiset(WithStatus(ds, st));
    }
    WithStatusCount(ds, st);
  }

  /** The table after setting the status of the entry at position k, every other entry as it was. */
  function WithStatusAt(ds: seq<Delivery>, k: nat, status: DeliveryStatus): (r: seq<Delivery>)
    requires k < |ds|
    ensures |r| == |ds|
    ensures r[k].status == status
    ensures r[k] == ds[k].(status := status)
    ensures forall j :: 0 <= j < |ds| && j != k ==> r[j] == ds[j]
  {
    ds[k := ds[k].(status := status)]
  }

  /** After a status update by id, reading that id returns the updated delivery. */
  lemma FindAfterUpdate(ds: seq<Delivery>, id: string, status: DeliveryStatus)
    requires FirstWithId(ds, id).Some?
    ensures var k := FirstWithId(ds, id).value;
      FindById(WithStatusAt(ds, k, status), id) == Some(ds[k].(status := status))
  {
    var k := FirstWithId(ds, id).value;
    var r := WithStatusAt(ds, k, status);
    assert forall j :: 0 <= j < k ==> r[j].id != id;
    var k' := FirstWithId(r, id).value;
    assert k' <= k;
    assert k' == k;
  }

  /** The module-level table of deliveries and the operations on it. */
  class DeliveryService {
    const table: array<Delivery>

    constructor (deliveries: seq<Delivery>)
      ensures fresh(table)
      ensures table[..] == deliveries
    {
      table := new Delivery[|deliveries|](i requires 0 <= i < |deliveries| => deliveries[i]);
    }

    /** `getDeliveries`: a filtered, sorted copy; the table itself is not touched. */
    method GetDeliveries(status: Option<DeliveryStatus>) returns (deliveries: seq<Delivery>)
      ensures deliveries == SortNewestFirst(Selected(table[..], status))
      ensures NewestFirst(deliveries)
      ensures multiset(deliveries) == multiset(Selected(table[..], status))
    {
      deliveries := table[..];
      if status.Some? {
        deliveries := WithStatus(deliveries, status.value);
      }
      deliveries := SortNewestFirst(deliveries);
    }

    /** `getDeliveryById`: the first delivery with the id, or nothing. */
    method GetDeliveryById(id: string) returns (delivery: Option<Delivery>)
      ensures delivery.None? <==> forall j :: 0 <= j < table.Length ==> table[j].id != id
      ensures delivery.Some? ==> exists k :: FirstWithId(table[..], id) == Some(k) && delivery.value == table[k]
    {
      delivery := FindById(table[..], id);
    }

    /**
     * `updateDeliveryStatus`: fail with "Entrega no encontrada" if no delivery has the id;
     * otherwise set the status of the first one in place and return it.
     */
    method UpdateDeliveryStatus(id: string, status: DeliveryStatus) returns (result: Result<Delivery>)
      modifies table
      ensures FirstWithId(old(table[..]), id).None? ==>
                result == Failure(NotFoundMessage) && table[..] == old(table[..])
      ensures FirstWithId(old(table[..]), id).Some? ==>
                var k := FirstWithId(old(table[..]), id).value;
                table[..] == WithStatusAt(old(table[..]), k, status) && result == Success(table[k])
    {
      var found := FirstWithId(table[..], id);
      if found.None? {
        return Failure(NotFoundMessage);
      }
      var k := found.value;
      table[k] := table[k].(status := status);
      assert table[..] == WithStatusAt(old(table[..]), k, status);
      result := Success(table[k]);
    }

    /** `getPendingCount`: the number of PENDING deliveries in the table. */
    method GetPendingCount() returns (count: nat)
      ensures count == multiset(Statuses(table[..]))[Pending]
    {
      var deliveries := GetDeliveries(Some(Pending));
      WithStatusCount(table[..], Pending);
      count := |deliveries|;
    }
  }
}
