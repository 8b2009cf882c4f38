// Storage: one pharmacy's stock ledger, a map from product id to the product
// and its strictly positive quantity. Every check precedes the write, so a
// failed call leaves the ledger as it was.

module Storages {
  import opened Errors
  import opened LexOrder
  import opened Products

  /** One ledger entry: the product first stocked under the id, and how many
      units of it are on hand. */
  datatype Item = Item(product: Product, quantity: int)

  // ---------------------------------------------------------------------
  // The ledger as quantities: the reference the methods are proved against

  /** How many units of each product are on hand. */
  function Quantities(items: map<string, Item>): (r: map<string, int>)
    ensures r.Keys == items.Keys
    ensures forall k :: k in r ==> r[k] == items[k].quantity
  {
    map k | k in items :: items[k].quantity
  }

  /** The quantity of `id`, zero when it is not stocked. */
  function QuantityOf(q: map<string, int>, id: string): int {
    if id in q then q[id] else 0
  }

  /** The ledger after `n` units of `id` arrive. */
  function Added(q: map<string, int>, id: string, n: int): (r: map<string, int>)
    ensures QuantityOf(r, id) == QuantityOf(q, id) + n
    ensures forall k :: k != id ==> QuantityOf(r, k) == QuantityOf(q, k)
  {
    q[id := QuantityOf(q, id) + n]
  }

  /** The ledger after `n` units of `id` leave; an id whose quantity reaches
      zero is dropped. */
  function Removed(q: map<string, int>, id: string, n: int): (r: map<string, int>)
    ensures QuantityOf(r, id) == QuantityOf(q, id) - n
    ensures forall k :: k != id ==> QuantityOf(r, k) == QuantityOf(q, k)
    ensures id in r <==> QuantityOf(q, id) != n
  {
    if QuantityOf(q, id) == n then q - {id} else q[id := QuantityOf(q, id) - n]
  }

  /** Every stocked quantity is positive. */
  predicate AllPositive(q: map<string, int>) {
    forall k :: k in q ==> q[k] > 0
  }

  // ---------------------------------------------------------------------
  // The insufficient-quantity error

  /** The error as `removeProduct` builds it: the on-hand amount goes where
      the constructor expects the requested one, and the other way round. */
  function InsufficientErrorAsWritten(id: string, current: int, quantity: int): (e: Error)
    ensures e.InsufficientQuantity? && e.id == id
  {
    InsufficientQuantity(id, current, quantity)
  }

  /** When a removal is refused, the error as written claims that less was
      asked for than is on hand. */
  lemma InsufficientErrorSwapped(id: string, current: int, quantity: int)
    requires quantity > current
    ensures InsufficientErrorAsWritten(id, current, quantity).requested < InsufficientErrorAsWritten(id, current, quantity).available
    ensures InsufficientErrorAsWritten(id, current, quantity).requested != quantity
  {
  }

  /** The error with the requested and available amounts in their places. */
  function InsufficientError(id: string, current: int, quantity: int): (e: Error)
    ensures e.InsufficientQuantity? && e.id == id
  {
    InsufficientQuantity(id, quantity, current)
  }

  /** The corrected error reports the amount asked for as requested and the
      amount on hand as available, so requested exceeds available. */
  lemma InsufficientErrorReports(id: string, current: int, quantity: int)
    requires quantity > current
    ensures InsufficientError(id, current, quantity).requested == quantity
    ensures InsufficientError(id, current, quantity).available == current
    ensures InsufficientError(id, current, quantity).requested > InsufficientError(id, current, quantity).available
  {
  }

  // ---------------------------------------------------------------------
  // The ledger object

  class Storage {
    var items: map<string, Item>

    /** Every entry holds a positive quantity of a product filed under its
        own id. */
    predicate Valid()
      reads this
    {
      forall k :: k in items ==> items[k].quantity > 0 && items[k].product.Id() == k
    }

    constructor ()
      ensures items == map[] && Valid()
    {
      items := map[];
    }

    /** `addProduct`: a null product is an InventoryException and a
        non-positive quantity a NegativeQuantityException, both before any
        write. Otherwise the quantity of the product's id grows by exactly
        `quantity`; a known id keeps the product first stocked under it. */
    method AddProduct(product: Product?, quantity: Int32) returns (o: Outcome)
      modifies this
      ensures product == null ==> o == Raise(InventoryError) && items == old(items)
      ensures product != null && quantity <= 0 ==> o == Raise(NegativeQuantity(quantity)) && items == old(items)
      ensures product != null && quantity > 0 ==>
                o == Pass
                && Quantities(items) == Added(Quantities(old(items)), product.Id(), quantity)
                && (product.Id() in old(items) ==> items[product.Id()].product == old(items)[product.Id()].product)
                && (product.Id() !in old(items) ==> items[product.Id()].product == product)
                && (forall k :: k in items && k != product.Id() ==> items[k] == old(items)[k])
      ensures old(Valid()) ==> Valid()
    {
      if product == null {
        return Raise(InventoryError);
      }
      if quantity <= 0 {
        return Raise(NegativeQuantity(quantity));
      }
      var id := product.Id();
      if id in items {
        items := items[id := Item(items[id].product, items[id].quantity + quantity)];
      } else {
        items := items[id := Item(product, quantity)];
      }
      o := Pass;
    }

    /** `removeProduct`: an empty id or an unknown one is an
        InventoryException, a non-positive quantity a
        NegativeQuantityException, more than is on hand an
        InsufficientQuantityException; all leave the ledger alone. Otherwise
        the quantity drops by `quantity` and an entry reaching zero is
        erased. */
    method RemoveProduct(id: string, quantity: Int32) returns (o: Outcome)
      modifies this
      ensures id == "" ==> o == Raise(InventoryError) && items == old(items)
      ensures id != "" && quantity <= 0 ==> o == Raise(NegativeQuantity(quantity)) && items == old(items)
      ensures id != "" && quantity > 0 && id !in old(items) ==> o == Raise(InventoryError) && items == old(items)
      ensures id != "" && quantity > 0 && id in old(items) && quantity > old(items)[id].quantity ==>
                o == Raise(InsufficientError(id, old(items)[id].quantity, quantity)) && items == old(items)
      ensures id != "" && quantity > 0 && id in old(items) && quantity <= old(items)[id].quantity ==>
                o == Pass
                && Quantities(items) == Removed(Quantities(old(items)), id, quantity)
                && (id in items ==> items[id].product == old(items)[id].product)
                && (forall k :: k in items && k != id ==> items[k] == old(items)[k])
      ensures old(Valid()) ==> Valid()
    {
      if id == "" {
        return Raise(InventoryError);
      }
      if quantity <= 0 {
        return Raise(NegativeQuantity(quantity));
      }
      if id !in items {
        return Raise(InventoryError);
      }
      var current := items[id].quantity;
      if quantity > current {
        return Raise(InsufficientError(id, current, quantity));
      }
      if current - quantity == 0 {
        items := items - {id};
      } else {
        items := items[id := Item(items[id].product, current - quantity)];
      }
      o := Pass;
    }

    /** `getQuantity`: zero for an unknown id; an empty id is an
        InventoryException. */
    function GetQuantity(id: string): (r: Result<int>)
      reads this
      ensures id == "" <==> r == Fail(InventoryError)
      ensures r.Ok? ==> r.value == QuantityOf(Quantities(items), id)
      ensures r.Ok? && Valid() ==> (r.value > 0 <==> id in items) && r.value >= 0
    {
      if id == "" then Fail(InventoryError)
      else if id in items then Ok(items[id].quantity)
      else Ok(0)
    }

    /** `contains`: an empty id is an InventoryException. */
    function Contains(id: string): (r: Result<bool>)
      reads this
      ensures id == "" <==> r == Fail(InventoryError)
      ensures r.Ok? ==> (r.value <==> id in items)
    {
      if id == "" then Fail(InventoryError) else Ok(id in items)
    }

    /** `getAllProductIds`: every stocked id once, in ascending order. */
    method GetAllProductIds() returns (ids: seq<string>)
      ensures ids == Ordered(items.Keys)
      ensures StrictlySorted(ids) && |ids| == |items|
      ensures forall k :: k in ids <==> k in items
    {
      ids := OrderedKeys(items.Keys);
    }
  }

  /** In a valid ledger an id is stocked exactly when its quantity is
      positive. */
  lemma ContainsIffPositive(s: Storage, id: string)
    requires s.Valid() && id != ""
    ensures s.Contains(id).Ok? && s.GetQuantity(id).Ok?
    ensures s.Contains(id).value <==> s.GetQuantity(id).value > 0
  {
  }

  // ---------------------------------------------------------------------
  // Runs of successful operations

  datatype Op = Add(id: string, quantity: int) | Remove(id: string, quantity: int)

  /** The ledger after one operation, or None when the methods above refuse
      it. */
  function Apply(q: map<string, int>, op: Op): (r: Option<map<string, int>>)
    ensures op.Add? ==> (r.Some? <==> op.quantity > 0)
    ensures op.Remove? ==> (r.Some? <==> op.id != "" && 0 < op.quantity <= QuantityOf(q, op.id) && op.id in q)
  {
    match op
    case Add(id, n) => if n <= 0 then None else Some(Added(q, id, n))
    case Remove(id, n) =>
      if id == "" || n <= 0 || id !in q || n > q[id] then None else Some(Removed(q, id, n))
  }

  /** The ledger after a run of operations, None when one is refused. */
  function ApplyAll(q: map<string, int>, ops: seq<Op>): Option<map<string, int>>
  {
    if |ops| == 0 then Some(q)
    else match ApplyAll(q, ops[..|ops| - 1])
      case None => None
      case Some(q') => Apply(q', ops[|ops| - 1])
  }

  function AddedTotal(ops: seq<Op>, id: string): int {
    if |ops| == 0 then 0
    else AddedTotal(ops[..|ops| - 1], id) + (if ops[|ops| - 1].Add? && ops[|ops| - 1].id == id then ops[|ops| - 1].quantity else 0)
  }

  function RemovedTotal(ops: seq<Op>, id: string): int {
    if |ops| == 0 then 0
    else RemovedTotal(ops[..|ops| - 1], id) + (if ops[|ops| - 1].Remove? && ops[|ops| - 1].id == id then ops[|ops| - 1].quantity else 0)
  }

  /** One operation keeps every stocked quantity positive. */
  lemma ApplyKeepsPositive(q: map<string, int>, op: Op)
    requires AllPositive(q) && Apply(q, op).Some?
    ensures AllPositive(Apply(q, op).value)
  {
  }

  /** Starting from an empty ledger, a run of accepted operations leaves
      every quantity positive, and each product's quantity is what arrived
      minus what left. */
  lemma {:induction false} ApplyAllBalance(ops: seq<Op>, id: string)
    requires ApplyAll(map[], ops).Some?
    ensures AllPositive(ApplyAll(map[], ops).value)
    ensures QuantityOf(ApplyAll(map[], ops).value, id) == AddedTotal(ops, id) - RemovedTotal(ops, id)
  {
    if |ops| > 0 {
      var init := ops[..|ops| - 1];
      ApplyAllBalance(init, id);
      var q' := ApplyAll(map[], init).value;
      ApplyKeepsPositive(q', ops[|ops| - 1]);
    }
  }
}
