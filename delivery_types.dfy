/** The records shared by the services and screens of the driver app. */
module DeliveryTypes {
  import opened Wrappers

  /** Lifecycle state of a delivery. */
  datatype DeliveryStatus = Pending | InProgress | Completed | Cancelled

  /** A geographic coordinate in decimal degrees (not range-checked anywhere in the app). */
  datatype Location = Location(latitude: real, longitude: real)

  datatype Customer = Customer(id: string, name: string, phone: string, address: string, location: Location)

  datatype DeliveryItem = DeliveryItem(id: string, name: string, quantity: int, price: real)

  /** A delivery order; `createdAt` is the creation instant as an integer timestamp. */
  datatype Delivery = Delivery(
    id: string,
    orderId: string,
    customer: Customer,
    items: seq<DeliveryItem>,
    status: DeliveryStatus,
    totalAmount: real,
    createdAt: int,
    estimatedDeliveryTime: Option<int>,
    distance: Option<real>,
    notes: Option<string>)

  /** The three roles a user record may carry. */
  datatype Role = Driver | Admin | CustomerRole

  /** The string a role is stored and compared as. */
  function RoleName(r: Role): string
  {
    match r
    case Driver => "driver"
    case Admin => "admin"
    case CustomerRole => "customer"
  }

  /** Distinct roles are stored as distinct strings, so comparing names compares roles. */
  lemma RoleNameInjective(a: Role, b: Role)
    ensures RoleName(a) == RoleName(b) ==> a == b
  {
  }

  /** A user as exposed to the app (never carries a password). */
  datatype User = User(id: string, email: string, name: string, role: Role, phone: Option<string>)

  /** `filter(d => d.status === st)`: the deliveries with that status, in their original order. */
  function WithStatus(ds: seq<Delivery>, st: DeliveryStatus): (r: seq<Delivery>)
    ensures |r| <= |ds|
    ensures forall d :: d in r <==> d in ds && d.status == st
  {
    if ds == [] then []
    else (if ds[0].status == st then [ds[0]] else []) + WithStatus(ds[1..], st)
  }

  /** Filtering a concatenation filters each part and keeps them in order. */
  lemma {:induction false} WithStatusConcat(a: seq<Delivery>, b: seq<Delivery>, st: DeliveryStatus)
    ensures WithStatus(a + b, st) == WithStatus(a, st) + WithStatus(b, st)
    decreases |a|
  {
    if a == [] {
      assert a + b == b;
    } else {
      assert (a + b)[0] == a[0];
      assert (a + b)[1..] == a[1..] + b;
      WithStatusConcat(a[1..], b, st);
      var head := if a[0].status == st then [a[0]] else [];
      assert WithStatus(a + b, st) == head + WithStatus(a[1..] + b, st);
      assert WithStatus(a, st) == head + WithStatus(a[1..], st);
    }
  }

  /** The statuses of a list of deliveries, in order. */
  function Statuses(ds: seq<Delivery>): (r: seq<DeliveryStatus>)
    ensures |r| == |ds| && forall i :: 0 <= i < |ds| ==> r[i] == ds[i].status
  {
    seq(|ds|, i requires 0 <= i < |ds| => ds[i].status)
  }

  /** The filter keeps exactly as many deliveries as carry the status. */
  lemma {:induction false} WithStatusCount(ds: seq<Delivery>, st: DeliveryStatus)
    ensures |WithStatus(ds, st)| == multiset(Statuses(ds))[st]
    decreases |ds|
  {
    if ds != [] {
      WithStatusCount(ds[1..], st);
      assert Statuses(ds) == [ds[0].status] + Statuses(ds[1..]);
    }
  }

  /** `findIndex(d => d.id === id)`: the first position holding that id, if any. */
  function FirstWithId(ds: seq<Delivery>, id: string): (k: Option<nat>)
    ensures k.None? <==> forall j :: 0 <= j < |ds| ==> ds[j].id != id
    ensures k.Some? ==> k.value < |ds| && ds[k.value].id == id
    ensures k.Some? ==> forall j :: 0 <= j < k.value ==> ds[j].id != id
  {
    if ds == [] then None
    else if ds[0].id == id then Some(0)
    else match FirstWithId(ds[1..], id)
      case None => None
      case Some(k) => Some(k + 1)
  }

  /** `find(d => d.id === id) || null`: the first delivery with that id, if any. */
  function FindById(ds: seq<Delivery>, id: string): (r: Option<Delivery>)
    ensures r.None? <==> forall d :: d in ds ==> d.id != id
    ensures r.Some? ==> r.value in ds && r.value.id == id
    ensures r.Some? ==> FirstWithId(ds, id).Some? && r.value == ds[FirstWithId(ds, id).value]
  {
    match FirstWithId(ds, id)
    case None => None
    case Some(k) => Some(ds[k])
  }
}
