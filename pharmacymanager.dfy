// PharmacyManager: the network's product catalog (a map from id to product,
// iterated in ascending id order), its pharmacies (a binary search tree
// ordered by pharmacy id) and the list of inventory operations.

module PharmacyManagers {
  import opened Errors
  import opened Text
  import opened LexOrder
  import opened Products
  import opened Storages
  import opened Pharmacies
  import opened Operations
  import opened BinaryTrees
  import opened TreeAlgorithms

  /** PharmacyComparator's key: pharmacies are ordered by id. */
  function PharmacyId(p: Pharmacy): string { p.info.id }

  /** The products of a catalog under the given keys, in that order. */
  function ValuesAt(c: map<string, Product>, keys: seq<string>): (r: seq<Product>)
    requires forall i :: 0 <= i < |keys| ==> keys[i] in c
    ensures |r| == |keys| && forall i :: 0 <= i < |keys| ==> r[i] == c[keys[i]]
  {
    if |keys| == 0 then []
    else ValuesAt(c, keys[..|keys| - 1]) + [c[keys[|keys| - 1]]]
  }

  /** One more key adds its product at the end. */
  lemma ValuesAtGrows(c: map<string, Product>, keys: seq<string>, i: nat)
    requires i < |keys| && forall j :: 0 <= j < |keys| ==> keys[j] in c
    ensures ValuesAt(c, keys[..i + 1]) == ValuesAt(c, keys[..i]) + [c[keys[i]]]
    ensures ValuesAt(c, keys[..i + 1])[..i] == ValuesAt(c, keys[..i])
  {
    assert keys[..i + 1][..i] == keys[..i];
  }

  /** The search over one more key of the catalog. */
  lemma HitsGrow(c: map<string, Product>, keys: seq<string>, i: nat, term: string)
    requires i < |keys| && forall j :: 0 <= j < |keys| ==> keys[j] in c
    ensures Hits(ValuesAt(c, keys[..i + 1]), term)
            == Hits(ValuesAt(c, keys[..i]), term) + if SearchHit(c[keys[i]], term) then [c[keys[i]]] else []
  {
    ValuesAtGrows(c, keys, i);
  }

  /** The analogue scan over one more key of the catalog. */
  lemma AnaloguesGrow(c: map<string, Product>, keys: seq<string>, i: nat, id: string, substance: string)
    requires i < |keys| && forall j :: 0 <= j < |keys| ==> keys[j] in c
    ensures AnaloguesIn(ValuesAt(c, keys[..i + 1]), id, substance)
            == AnaloguesIn(ValuesAt(c, keys[..i]), id, substance)
               + if AnalogueOf(c[keys[i]], id, substance) then [c[keys[i]]] else []
  {
    ValuesAtGrows(c, keys, i);
  }

  /** The products of a catalog filed by id, taken under its keys in
      ascending order, carry ascending ids and include every product. */
  lemma {:induction false} CatalogInOrder(c: map<string, Product>, keys: seq<string>)
    requires forall k :: k in c ==> c[k].Id() == k
    requires StrictlySorted(keys) && forall k :: k in keys <==> k in c
    ensures IdsOf(ValuesAt(c, keys)) == keys
    ensures IdsAscending(ValuesAt(c, keys))
    ensures forall k :: k in c ==> c[k] in ValuesAt(c, keys)
    ensures forall p :: p in ValuesAt(c, keys) ==> p in c.Values
  {
    var ps := ValuesAt(c, keys);
    forall k | k in c
      ensures c[k] in ps
    {
      var j :| 0 <= j < |keys| && keys[j] == k;
      assert ps[j] == c[k];
    }
    forall p | p in ps
      ensures p in c.Values
    {
      var j :| 0 <= j < |ps| && ps[j] == p;
      assert c[keys[j]] == p;
    }
  }

  /** `searchProducts` over a catalog filed by id: each matching product
      once, in ascending id order, and nothing else. */
  lemma SearchResult(c: map<string, Product>, term: string)
    requires forall k :: k in c ==> c[k].Id() == k
    ensures IdsAscending(Hits(ValuesAt(c, Ordered(c.Keys)), term))
    ensures forall k :: k in c ==> (c[k] in Hits(ValuesAt(c, Ordered(c.Keys)), term) <==> SearchHit(c[k], term))
    ensures forall p :: p in Hits(ValuesAt(c, Ordered(c.Keys)), term) ==> p in c.Values
  {
    var ps := ValuesAt(c, Ordered(c.Keys));
    CatalogInOrder(c, Ordered(c.Keys));
    HitsAscending(ps, term);
    HitsExact(ps, term);
  }

  /** `getAnalogues` over a catalog filed by id: each medicine with
      another id and the substance once, in ascending id order, and
      nothing else. */
  lemma AnaloguesResult(c: map<string, Product>, id: string, substance: string)
    requires forall k :: k in c ==> c[k].Id() == k
    ensures IdsAscending(AnaloguesIn(ValuesAt(c, Ordered(c.Keys)), id, substance))
    ensures forall k :: k in c ==>
              (c[k] in AnaloguesIn(ValuesAt(c, Ordered(c.Keys)), id, substance) <==> AnalogueOf(c[k], id, substance))
  {
    var ps := ValuesAt(c, Ordered(c.Keys));
    CatalogInOrder(c, Ordered(c.Keys));
    AnaloguesAscending(ps, id, substance);
    AnaloguesExact(ps, id, substance);
  }

  /** Every medicine of the catalog lists `id` among its analogues, the
      lists being those in `lists`. */
  predicate ListedByAll(c: map<string, Product>, lists: map<string, seq<Product>>, id: string) {
    forall k :: k in c && k in lists && c[k].IsMedicine() ==> id in IdsOf(lists[k])
  }

  /** An analogue list after its medicine is asked to drop `id` when
      `drop` holds: the entries with the id go if the list names it. */
  function Stripped(ps: seq<Product>, id: string, drop: bool): seq<Product>
  {
    if drop && id in IdsOf(ps) then Without(ps, id) else ps
  }

  /** A list that has dropped `id` no longer names it, and keeps every
      other entry. */
  lemma {:induction false} StrippedDropsId(ps: seq<Product>, id: string)
    ensures id !in IdsOf(Stripped(ps, id, true))
    ensures forall i :: 0 <= i < |ps| && ps[i].Id() != id ==> ps[i] in Stripped(ps, id, true)
  {
    var r := Stripped(ps, id, true);
    forall i | 0 <= i < |r|
      ensures IdsOf(r)[i] != id
    {
      if id in IdsOf(ps) {
        assert r[i].Id() != id;
      } else {
        assert r[i].Id() == IdsOf(ps)[i];
      }
    }
  }

  /** A medicine never lists itself, so a catalog holding a medicine under
      its own id never has every medicine listing that id. */
  lemma {:induction false} MedicineUnlisted(c: map<string, Product>, lists: map<string, seq<Product>>, id: string)
    requires id in c && id in lists && lists[id] == c[id].analogues
    requires c[id].Id() == id && c[id].IsMedicine() && c[id].Valid()
    ensures !ListedByAll(c, lists, id)
  {
    var ids := IdsOf(lists[id]);
    forall i | 0 <= i < |ids|
      ensures ids[i] != id
    {
      assert c[id].analogues[i].Id() != c[id].Id();
    }
  }

  /** A key of a sorted sequence comes before exactly the keys after it. */
  lemma {:induction false} SortedBefore(keys: seq<string>, i: nat, j: nat)
    requires StrictlySorted(keys) && i < |keys| && j < |keys|
    ensures Less(keys[j], keys[i]) <==> j < i
  {
    if j < i {
    } else if j == i {
      LessIrreflexive(keys[i]);
    } else {
      LessAsymmetric(keys[i], keys[j]);
    }
  }

  // ---------------------------------------------------------------------
  // The catalog queries, as filters over the catalog in id order

  /** `searchProducts`' test: the term occurs in the name, the id or the
      country, or, for a medicine, in the active substance. */
  predicate SearchHit(p: Product, term: string) {
    Contains(p.data.base.name, term) || Contains(p.Id(), term) || Contains(p.data.base.country, term)
    || (p.IsMedicine() && Contains(p.Substance(), term))
  }

  /** The products of `ps` that match the term, in the order of `ps`. */
  function Hits(ps: seq<Product>, term: string): (r: seq<Product>)
    ensures |r| <= |ps|
  {
    if |ps| == 0 then []
    else
      var last := ps[|ps| - 1];
      var init := Hits(ps[..|ps| - 1], term);
      if SearchHit(last, term) then init + [last] else init
  }

  /** The search keeps exactly the products of `ps` that match. */
  lemma {:induction false} HitsExact(ps: seq<Product>, term: string)
    ensures forall j :: 0 <= j < |Hits(ps, term)| ==> Hits(ps, term)[j] in ps && SearchHit(Hits(ps, term)[j], term)
    ensures forall i :: 0 <= i < |ps| && SearchHit(ps[i], term) ==> ps[i] in Hits(ps, term)
  {
    if |ps| > 0 {
      var init := ps[..|ps| - 1];
      HitsExact(init, term);
      assert forall i :: 0 <= i < |ps| - 1 ==> init[i] == ps[i];
    }
  }

  /** Products listed in strictly ascending id order: each id at most
      once. */
  predicate IdsAscending(ps: seq<Product>) {
    forall i, j :: 0 <= i < j < |ps| ==> Less(ps[i].Id(), ps[j].Id())
  }

  /** The search keeps the order of the catalog. */
  lemma {:induction false} HitsAscending(ps: seq<Product>, term: string)
    requires IdsAscending(ps)
    ensures IdsAscending(Hits(ps, term))
  {
    if |ps| > 0 {
      var init := ps[..|ps| - 1];
      HitsAscending(init, term);
      HitsExact(init, term);
      var r := Hits(init, term);
      forall j | 0 <= j < |r|
        ensures Less(r[j].Id(), ps[|ps| - 1].Id())
      {
        var i :| 0 <= i < |init| && init[i] == r[j];
      }
    }
  }

  /** `getAnalogues`' test against the original medicine. */
  predicate AnalogueOf(p: Product, id: string, substance: string) {
    p.IsMedicine() && p.Id() != id && p.Substance() == substance
  }

  /** The medicines of `ps` with another id and the given substance. */
  function AnaloguesIn(ps: seq<Product>, id: string, substance: string): (r: seq<Product>)
    ensures |r| <= |ps|
  {
    if |ps| == 0 then []
    else
      var last := ps[|ps| - 1];
      var init := AnaloguesIn(ps[..|ps| - 1], id, substance);
      if AnalogueOf(last, id, substance) then init + [last] else init
  }

  /** The analogue scan keeps exactly the analogues among `ps`. */
  lemma {:induction false} AnaloguesExact(ps: seq<Product>, id: string, substance: string)
    ensures forall j :: 0 <= j < |AnaloguesIn(ps, id, substance)| ==>
              AnaloguesIn(ps, id, substance)[j] in ps && AnalogueOf(AnaloguesIn(ps, id, substance)[j], id, substance)
    ensures forall i :: 0 <= i < |ps| && AnalogueOf(ps[i], id, substance) ==> ps[i] in AnaloguesIn(ps, id, substance)
  {
    if |ps| > 0 {
      var init := ps[..|ps| - 1];
      AnaloguesExact(init, id, substance);
      assert forall i :: 0 <= i < |ps| - 1 ==> init[i] == ps[i];
    }
  }

  /** The analogue scan keeps the order of the catalog. */
  lemma {:induction false} AnaloguesAscending(ps: seq<Product>, id: string, substance: string)
    requires IdsAscending(ps)
    ensures IdsAscending(AnaloguesIn(ps, id, substance))
  {
    if |ps| > 0 {
      var init := ps[..|ps| - 1];
      AnaloguesAscending(init, id, substance);
      AnaloguesExact(init, id, substance);
      var r := AnaloguesIn(init, id, substance);
      forall j | 0 <= j < |r|
        ensures Less(r[j].Id(), ps[|ps| - 1].Id())
      {
        var i :| 0 <= i < |init| && init[i] == r[j];
      }
    }
  }

  /** The operations of `ps` of the same kind as `kind`, in list order:
      what `dynamic_pointer_cast` to Supply, Return or WriteOff keeps. */
  function OfKind(ops: seq<InventoryOperation>, kind: Details): (r: seq<InventoryOperation>)
    reads set i | 0 <= i < |ops| :: ops[i]
    ensures |r| <= |ops|
    ensures forall j :: 0 <= j < |r| ==> r[j] in ops && SameKind(r[j].details, kind)
    ensures forall i :: 0 <= i < |ops| && SameKind(ops[i].details, kind) ==> ops[i] in r
  {
    if |ops| == 0 then []
    else
      var last := ops[|ops| - 1];
      var init := OfKind(ops[..|ops| - 1], kind);
      assert forall i :: 0 <= i < |ops| - 1 ==> ops[..|ops| - 1][i] == ops[i];
      if SameKind(last.details, kind) then init + [last] else init
  }

  // ---------------------------------------------------------------------
  // The pharmacy queries, as folds over the pharmacies in id order

  /** `checkStock` of a pharmacy for a non-empty id. */
  function StockOf(p: Pharmacy, id: string): int
    reads p.storage
  {
    QuantityOf(Quantities(p.storage.items), id)
  }

  /** `getProductAvailability`'s map built over `ps`: each pharmacy id with
      a positive quantity of the product, later pharmacies overwriting. */
  function Availability(ps: seq<Pharmacy>, id: string): (r: map<string, int>)
    reads set i | 0 <= i < |ps| :: ps[i].storage
    ensures forall k :: k in r ==> r[k] > 0
  {
    if |ps| == 0 then map[]
    else
      var last := ps[|ps| - 1];
      var init := Availability(ps[..|ps| - 1], id);
      if StockOf(last, id) > 0 then init[last.info.id := StockOf(last, id)] else init
  }

  /** A pharmacy stocking a product whose id or name is the query: what
      `Pharmacy::findProduct` reports as non-null. */
  predicate Carries(p: Pharmacy, query: string)
    reads p.storage
  {
    exists k :: k in p.storage.items && Matches(p.storage.items[k].product, query)
  }

  /** `findProductInPharmacies`' list over `ps`: (id, name) of each
      pharmacy carrying the product, in the order of `ps`. */
  function Carriers(ps: seq<Pharmacy>, query: string): (r: seq<(string, string)>)
    reads set i | 0 <= i < |ps| :: ps[i].storage
    ensures |r| <= |ps|
  {
    if |ps| == 0 then []
    else
      var last := ps[|ps| - 1];
      var init := Carriers(ps[..|ps| - 1], query);
      if Carries(last, query) then init + [(last.info.id, last.info.name)] else init
  }

  /** A pharmacy carrying the product is on the carrier list. */
  lemma {:induction false} CarriersHas(ps: seq<Pharmacy>, query: string, i: nat)
    requires i < |ps| && Carries(ps[i], query)
    ensures (ps[i].info.id, ps[i].info.name) in Carriers(ps, query)
  {
    var n := |ps| - 1;
    if i < n {
      var init := ps[..n];
      assert init[i] == ps[i];
      CarriersHas(init, query, i);
    }
  }

  /** Every entry of the carrier list names a pharmacy carrying the
      product. */
  lemma {:induction false} CarriersOnly(ps: seq<Pharmacy>, query: string, j: nat)
    requires j < |Carriers(ps, query)|
    ensures exists i :: 0 <= i < |ps| && Carries(ps[i], query) && Carriers(ps, query)[j] == (ps[i].info.id, ps[i].info.name)
  {
    var n := |ps| - 1;
    var init := ps[..n];
    if j < |Carriers(init, query)| {
      CarriersOnly(init, query, j);
      var i :| 0 <= i < |init| && Carries(init[i], query) && Carriers(init, query)[j] == (init[i].info.id, init[i].info.name);
      assert ps[i] == init[i];
    } else {
      assert Carries(ps[n], query);
    }
  }

  /** The carrier list names every pharmacy of `ps` carrying the product,
      and only those. */
  lemma CarriersExact(ps: seq<Pharmacy>, query: string)
    ensures forall i :: 0 <= i < |ps| && Carries(ps[i], query) ==> (ps[i].info.id, ps[i].info.name) in Carriers(ps, query)
    ensures forall e :: e in Carriers(ps, query) ==>
              exists i :: 0 <= i < |ps| && Carries(ps[i], query) && e == (ps[i].info.id, ps[i].info.name)
  {
    forall i | 0 <= i < |ps| && Carries(ps[i], query)
      ensures (ps[i].info.id, ps[i].info.name) in Carriers(ps, query)
    {
      CarriersHas(ps, query, i);
    }
    forall e | e in Carriers(ps, query)
      ensures exists i :: 0 <= i < |ps| && Carries(ps[i], query) && e == (ps[i].info.id, ps[i].info.name)
    {
      var j :| 0 <= j < |Carriers(ps, query)| && Carriers(ps, query)[j] == e;
      CarriersOnly(ps, query, j);
    }
  }

  /** The availability map over one more pharmacy. */
  lemma AvailabilityGrows(ps: seq<Pharmacy>, id: string, k: nat)
    requires k < |ps|
    ensures Availability(ps[..k + 1], id)
            == if StockOf(ps[k], id) > 0 then Availability(ps[..k], id)[ps[k].info.id := StockOf(ps[k], id)]
               else Availability(ps[..k], id)
  {
    assert ps[..k + 1][..k] == ps[..k];
  }

  /** The carrier list over one more pharmacy. */
  lemma CarriersGrow(ps: seq<Pharmacy>, query: string, k: nat)
    requires k < |ps|
    ensures Carriers(ps[..k + 1], query)
            == Carriers(ps[..k], query) + if Carries(ps[k], query) then [(ps[k].info.id, ps[k].info.name)] else []
  {
    assert ps[..k + 1][..k] == ps[..k];
  }

  /** A pharmacy with stock of the product is in the availability map with
      its quantity, when no later pharmacy shares its id. */
  lemma {:induction false} AvailabilityHas(ps: seq<Pharmacy>, id: string, i: nat)
    requires forall i, j :: 0 <= i < j < |ps| ==> ps[i].info.id != ps[j].info.id
    requires i < |ps| && StockOf(ps[i], id) > 0
    ensures ps[i].info.id in Availability(ps, id)
    ensures Availability(ps, id)[ps[i].info.id] == StockOf(ps[i], id)
  {
    var n := |ps| - 1;
    if i < n {
      var init := ps[..n];
      assert init[i] == ps[i];
      AvailabilityHas(init, id, i);
      assert ps[i].info.id != ps[n].info.id;
    }
  }

  /** Every id in the availability map belongs to a pharmacy of the list
      with stock of the product. */
  lemma {:induction false} AvailabilityOnly(ps: seq<Pharmacy>, id: string, k: string)
    requires k in Availability(ps, id)
    ensures exists i :: 0 <= i < |ps| && ps[i].info.id == k && StockOf(ps[i], id) > 0
  {
    var n := |ps| - 1;
    var last := ps[n];
    if !(StockOf(last, id) > 0 && k == last.info.id) {
      var init := ps[..n];
      AvailabilityOnly(init, id, k);
      var i :| 0 <= i < |init| && init[i].info.id == k && StockOf(init[i], id) > 0;
      assert ps[i] == init[i];
    }
  }

  /** In a list of pharmacies with distinct ids, the availability map holds
      exactly the pharmacies with stock of the product, each with its
      quantity. */
  lemma {:induction false} AvailabilityExact(ps: seq<Pharmacy>, id: string)
    requires forall i, j :: 0 <= i < j < |ps| ==> ps[i].info.id != ps[j].info.id
    ensures forall k :: k in Availability(ps, id) <==>
              exists i :: 0 <= i < |ps| && ps[i].info.id == k && StockOf(ps[i], id) > 0
    ensures forall i :: 0 <= i < |ps| && StockOf(ps[i], id) > 0 ==>
              ps[i].info.id in Availability(ps, id) && Availability(ps, id)[ps[i].info.id] == StockOf(ps[i], id)
  {
    forall i | 0 <= i < |ps| && StockOf(ps[i], id) > 0
      ensures ps[i].info.id in Availability(ps, id) && Availability(ps, id)[ps[i].info.id] == StockOf(ps[i], id)
    {
      AvailabilityHas(ps, id, i);
    }
    forall k | k in Availability(ps, id)
      ensures exists i :: 0 <= i < |ps| && ps[i].info.id == k && StockOf(ps[i], id) > 0
    {
      AvailabilityOnly(ps, id, k);
    }
  }

  // -------------------------------------------------------------------
  // `getProductAvailability` as written: the tree has no copy constructor,
  // so `tempTree = pharmaciesTree` copies only the root pointer, and the
  // copy's destructor deletes the nodes the manager still points at.

  /** The manager's pharmacy nodes: owned by its tree, or deleted by a
      shallow copy while its root still points at them. */
  datatype Nodes = Live(tree: Tree<Pharmacy>) | Deleted

  /** The pharmacies reachable from the manager's root. */
  function Held(nodes: Nodes): (r: seq<Pharmacy>)
    ensures nodes.Deleted? ==> r == []
  {
    if nodes.Live? then InOrder(nodes.tree) else []
  }

  /** One call of `getProductAvailability` as written, on the nodes the
      manager holds: the answer and the nodes afterwards, or None when the
      walk reads deleted nodes, which C++ leaves undefined. An empty id
      throws before the copy is made; an empty tree's copy deletes nothing. */
  function AvailabilityAsWritten(nodes: Nodes, id: string): (r: Option<(Result<map<string, int>>, Nodes)>)
    reads set i | 0 <= i < |Held(nodes)| :: Held(nodes)[i].storage
    ensures id == "" ==> r == Some((Fail(InvalidProductData("product ID")), nodes))
    ensures r.None? <==> id != "" && nodes.Deleted?
    ensures r.Some? && id != "" ==> r.value.0 == Ok(Availability(Held(nodes), id))
  {
    if id == "" then Some((Fail(InvalidProductData("product ID")), nodes))
    else match nodes
      case Deleted => None
      case Live(t) => Some((Ok(Availability(Held(nodes), id)), if t.Nil? then nodes else Deleted))
  }

  /** On a manager with at least one pharmacy, the first call answers as the
      intended `getProductAvailability` does but deletes the tree, so a
      second call has no defined result. */
  lemma AvailabilityTwiceAsWritten(t: Tree<Pharmacy>, id: string)
    requires t != Nil && id != ""
    ensures var first := AvailabilityAsWritten(Live(t), id);
            first == Some((Ok(Availability(InOrder(t), id)), Deleted))
            && AvailabilityAsWritten(first.value.1, id).None?
  {
  }

  class PharmacyManager {
    var catalog: map<string, Product>
    const pharmacies: BinaryTree<Pharmacy>
    var operations: seq<InventoryOperation>

    /** Every product of the catalog is filed under its own id. */
    ghost predicate FiledById()
      reads this
    {
      forall k :: k in catalog ==> catalog[k].Id() == k
    }

    /** Each catalog key with its product's analogue list. */
    ghost function Lists(): (r: map<string, seq<Product>>)
      reads this, catalog.Values
      ensures r.Keys == catalog.Keys
    {
      map k | k in catalog :: catalog[k].analogues
    }

    /** The catalog is filed by id, and the pharmacy tree is a search tree
        keyed by pharmacy id. */
    ghost predicate Valid()
      reads this, pharmacies
    {
      FiledById()
      && pharmacies.key == PharmacyId
      && pharmacies.Valid()
    }

    constructor ()
      ensures catalog == map[] && operations == [] && fresh(pharmacies)
      ensures pharmacies.Elements() == [] && Valid()
    {
      catalog := map[];
      operations := [];
      pharmacies := new BinaryTree(PharmacyId);
    }

    /** The pharmacy ids in the tree are distinct. */
    lemma {:induction false} PharmacyIdsDistinct()
      requires Valid()
      ensures forall i, j :: 0 <= i < j < |pharmacies.Elements()| ==>
                pharmacies.Elements()[i].info.id != pharmacies.Elements()[j].info.id
    {
      var s := pharmacies.Elements();
      forall i, j | 0 <= i < j < |s|
        ensures s[i].info.id != s[j].info.id
      {
        assert Comp(pharmacies.key, s[i], s[j]);
        LessIrreflexive(s[i].info.id);
      }
    }

    // -------------------------------------------------------------------
    // Products

    /** `addProduct`: null is InvalidProductData and an id already in the
        catalog DuplicateProduct, both leaving the catalog alone; otherwise
        the product is filed under its id. */
    method AddProduct(product: Product?) returns (o: Outcome)
      requires Valid()
      modifies this
      ensures Valid() && operations == old(operations)
      ensures product == null ==> o == Raise(InvalidProductData("product")) && catalog == old(catalog)
      ensures product != null && product.Id() in old(catalog) ==>
                o == Raise(DuplicateProduct(product.Id())) && catalog == old(catalog)
      ensures product != null && product.Id() !in old(catalog) ==>
                o == Pass && catalog == old(catalog)[product.Id() := product]
    {
      if product == null {
        return Raise(InvalidProductData("product"));
      }
      if product.Id() in catalog {
        return Raise(DuplicateProduct(product.Id()));
      }
      catalog := catalog[product.Id() := product];
      o := Pass;
    }

    /** `getProduct`: never null; an empty id is InvalidProductData and an
        absent one ProductNotFound. */
    function GetProduct(id: string): (r: Result<Product>)
      reads this
      ensures r.Ok? <==> id != "" && id in catalog
      ensures id == "" ==> r == Fail(InvalidProductData("product ID"))
      ensures id != "" && id !in catalog ==> r == Fail(ProductNotFound(id))
      ensures r.Ok? ==> r.value == catalog[id]
    {
      if id == "" then Fail(InvalidProductData("product ID"))
      else if id !in catalog then Fail(ProductNotFound(id))
      else Ok(catalog[id])
    }

    /** `getAllProducts`: the catalog's products in ascending id order. */
    method GetAllProducts() returns (r: seq<Product>)
      requires FiledById()
      ensures r == ValuesAt(catalog, Ordered(catalog.Keys))
      ensures |r| == |catalog| && IdsAscending(r)
      ensures forall k :: k in catalog ==> catalog[k] in r
      ensures forall p :: p in r ==> p in catalog.Values
    {
      var keys := OrderedKeys(catalog.Keys);
      r := CollectAll(catalog, keys);
      CatalogInOrder(catalog, keys);
    }

    /** `searchProducts`: an empty term is InvalidProductData; otherwise
        every product whose name, id or country contains the term, or whose
        active substance does for a medicine, once each and in id order. */
    method SearchProducts(term: string) returns (r: Result<seq<Product>>)
      requires FiledById()
      ensures term == "" <==> r == Fail(InvalidProductData("search term"))
      ensures r.Ok? ==> r.value == Hits(ValuesAt(catalog, Ordered(catalog.Keys)), term)
      ensures r.Ok? ==> IdsAscending(r.value)
      ensures r.Ok? ==> forall k :: k in catalog ==> (catalog[k] in r.value <==> SearchHit(catalog[k], term))
      ensures r.Ok? ==> forall p :: p in r.value ==> p in catalog.Values
    {
      if term == "" {
        return Fail(InvalidProductData("search term"));
      }
      var keys := OrderedKeys(catalog.Keys);
      var found := CollectHits(catalog, keys, term);
      SearchResult(catalog, term);
      r := Ok(found);
    }

    /** `getAnalogues`: an empty id is InvalidProductData, an absent one
        ProductNotFound (from `getProduct`), a product that is not a
        medicine InvalidProductData; otherwise the other medicines of the
        catalog with the same active substance, in id order. */
    method GetAnalogues(id: string) returns (r: Result<seq<Product>>)
      requires FiledById()
      ensures id == "" ==> r == Fail(InvalidProductData("product ID"))
      ensures id != "" && id !in catalog ==> r == Fail(ProductNotFound(id))
      ensures id != "" && id in catalog && !catalog[id].IsMedicine() ==> r == Fail(InvalidProductData("product"))
      ensures r.Ok? <==> id != "" && id in catalog && catalog[id].IsMedicine()
      ensures r.Ok? ==> r.value == AnaloguesIn(ValuesAt(catalog, Ordered(catalog.Keys)), id, catalog[id].Substance())
      ensures r.Ok? ==> IdsAscending(r.value)
      ensures r.Ok? ==> forall k :: k in catalog ==>
                (catalog[k] in r.value <==> AnalogueOf(catalog[k], id, catalog[id].Substance()))
    {
      if id == "" {
        return Fail(InvalidProductData("product ID"));
      }
      var got := GetProduct(id);
      if got.Fail? {
        return Fail(got.error);
      }
      var original := got.value;
      if !original.IsMedicine() {
        return Fail(InvalidProductData("product"));
      }
      var keys := OrderedKeys(catalog.Keys);
      var found := CollectAnalogues(catalog, keys, id, original.Substance());
      AnaloguesResult(catalog, id, original.Substance());
      r := Ok(found);
    }

    /** `updateProduct`: the product replaces the entry under its id and
        the answer is true when the id is in the catalog; otherwise false
        and nothing changes. */
    method UpdateProduct(product: Product) returns (updated: bool)
      requires Valid()
      modifies this
      ensures Valid() && operations == old(operations)
      ensures updated <==> product.Id() in old(catalog)
      ensures updated ==> catalog == old(catalog)[product.Id() := product]
      ensures !updated ==> catalog == old(catalog)
    {
      var id := product.Id();
      if id in catalog {
        catalog := catalog[id := product];
        return true;
      }
      updated := false;
    }

    /** The loop of `removeProduct`: visits the catalog in id order and asks
        each medicine to drop `id`. As written (`strict`) every medicine is
        asked, and the first that does not list the id throws
        `runtime_error` out of the loop; its key is returned, and only the
        keys before it (`done`) have been visited. Otherwise only the
        medicines listing the id are asked, none fails and every key is
        visited. The catalog map itself stays as it was. */
    method StripAnalogues(id: string, strict: bool, ghost before: map<string, seq<Product>>)
      returns (failed: Option<string>, ghost done: seq<string>)
      requires FiledById() && id != ""
      requires forall k :: k in catalog ==> k in before && catalog[k].analogues == before[k]
      modifies catalog.Values
      ensures failed.None? ==> forall k :: k in catalog ==> k in done
      ensures failed.Some? ==>
                strict && failed.value in catalog && catalog[failed.value].IsMedicine()
                && id !in IdsOf(before[failed.value])
                && forall k :: k in catalog ==> (k in done <==> Less(k, failed.value))
      ensures Visited(catalog, done, id, strict, before)
    {
      var c := catalog;
      var keys := OrderedKeys(c.Keys);
      var i := 0;
      while i < |keys|
        invariant 0 <= i <= |keys| && catalog == c
        invariant Visited(c, keys[..i], id, strict, before)
      {
        var key := keys[i];
        SortedPrefix(keys, i);
        var raised := StripStep(c, key, keys[..i], id, strict, before);
        if raised {
          return Some(key), keys[..i];
        }
        PrefixGrows(keys, i);
        i := i + 1;
      }
      assert keys[..i] == keys;
      failed, done := None, keys;
    }

    /** `removeProduct` as written: after the id checks every medicine of
        the catalog is asked to drop the id, and `removeAnalogue` throws
        `runtime_error` for an id its list lacks. The first medicine not
        listing the id therefore ends the removal with that error, the
        medicines before it having already lost the analogue, and the
        product stays in the catalog. A medicine never lists itself, so a
        medicine can never be removed. */
    method RemoveProductAsWritten(id: string) returns (o: Outcome)
      requires Valid()
      modifies this, catalog.Values
      ensures Valid() && operations == old(operations)
      ensures id == "" ==> o == Raise(InvalidProductData("product ID")) && catalog == old(catalog)
      ensures id != "" && id !in old(catalog) ==> o == Raise(ProductNotFound(id)) && catalog == old(catalog)
      ensures id != "" && id in old(catalog) ==> (o == Pass <==> ListedByAll(old(catalog), old(Lists()), id))
      ensures id != "" && id in old(catalog) && o == Pass ==>
                catalog == old(catalog) - {id} && StrippedBelow(old(catalog), old(Lists()), id, None)
      ensures id != "" && id in old(catalog) && o != Pass ==>
                o == Raise(RuntimeError) && catalog == old(catalog)
                && exists f :: FirstUnlisted(catalog, old(Lists()), id, f)
                               && StrippedBelow(catalog, old(Lists()), id, Some(f))
    {
      if id == "" {
        return Raise(InvalidProductData("product ID"));
      }
      if id !in catalog {
        return Raise(ProductNotFound(id));
      }
      var failed, done := StripAnalogues(id, true, Lists());
      VisitedBelow(catalog, done, id, true, old(Lists()), failed);
      if failed.Some? {
        return Raise(RuntimeError);
      }
      catalog := catalog - {id};
      o := Pass;
    }

    /** `removeProduct` as evidently intended: the product leaves the
        catalog and the analogue list of every medicine that named it; no
        medicine is asked to drop an analogue it does not have, and no
        medicine left lists the id. */
    method RemoveProduct(id: string) returns (o: Outcome)
      requires Valid()
      modifies this, catalog.Values
      ensures Valid() && operations == old(operations)
      ensures id == "" ==> o == Raise(InvalidProductData("product ID")) && catalog == old(catalog)
      ensures id != "" && id !in old(catalog) ==> o == Raise(ProductNotFound(id)) && catalog == old(catalog)
      ensures id != "" && id in old(catalog) ==>
                o == Pass && catalog == old(catalog) - {id} && StrippedBelow(old(catalog), old(Lists()), id, None)
      ensures id != "" && id in old(catalog) ==>
                forall k :: k in catalog && catalog[k].IsMedicine() ==> id !in catalog[k].AnalogueIds()
    {
      if id == "" {
        return Raise(InvalidProductData("product ID"));
      }
      if id !in catalog {
        return Raise(ProductNotFound(id));
      }
      var failed, done := StripAnalogues(id, false, Lists());
      VisitedBelow(catalog, done, id, false, old(Lists()), failed);
      forall k | k in catalog && catalog[k].IsMedicine()
        ensures id !in catalog[k].AnalogueIds()
      {
        StrippedDropsId(old(Lists())[k], id);
      }
      catalog := catalog - {id};
      o := Pass;
    }

    // -------------------------------------------------------------------
    // Pharmacies

    /** `findPharmacyInTree`: the pharmacy `find_if` reaches with the id
        test, null when no pharmacy has the id. */
    method FindPharmacy(id: string) returns (p: Pharmacy?)
      requires Valid()
      ensures p == null <==> forall x :: x in pharmacies.Elements() ==> x.info.id != id
      ensures p != null ==> p in pharmacies.Elements() && p.info.id == id
    {
      var it := pharmacies.Find((x: Pharmacy) => x.info.id == id);
      var end := pharmacies.End();
      var atEnd := it.Equals(end);
      if atEnd {
        return null;
      }
      var r := it.Deref();
      p := r.value;
    }

    /** `addPharmacy`: null is InvalidProductData and a present id
        DuplicateProduct; otherwise the pharmacy joins the tree. */
    method AddPharmacy(pharmacy: Pharmacy?) returns (o: Outcome)
      requires Valid()
      modifies pharmacies
      ensures Valid()
      ensures pharmacy == null ==> o == Raise(InvalidProductData("pharmacy")) && pharmacies.root == old(pharmacies.root)
      ensures pharmacy != null && (exists x :: x in old(pharmacies.Elements()) && x.info.id == pharmacy.info.id) ==>
                o == Raise(DuplicateProduct("Pharmacy with ID: " + pharmacy.info.id))
                && pharmacies.root == old(pharmacies.root)
      ensures pharmacy != null && (forall x :: x in old(pharmacies.Elements()) ==> x.info.id != pharmacy.info.id) ==>
                o == Pass
                && multiset(pharmacies.Elements()) == multiset(old(pharmacies.Elements())) + multiset{pharmacy}
    {
      if pharmacy == null {
        return Raise(InvalidProductData("pharmacy"));
      }
      var existing := FindPharmacy(pharmacy.info.id);
      if existing != null {
        assert existing in pharmacies.Elements() && existing.info.id == pharmacy.info.id;
        return Raise(DuplicateProduct("Pharmacy with ID: " + pharmacy.info.id));
      }
      forall y | y in pharmacies.Elements()
        ensures pharmacies.key(y) != pharmacies.key(pharmacy)
      {
        assert pharmacies.key(y) == y.info.id && pharmacies.key(pharmacy) == pharmacy.info.id;
      }
      pharmacies.Push(pharmacy);
      o := Pass;
    }

    /** `removePharmacy`: an empty id is InvalidProductData and an absent
        one ProductNotFound; otherwise exactly the pharmacy with the id
        leaves the tree. */
    method RemovePharmacy(id: string) returns (o: Outcome)
      requires Valid()
      modifies pharmacies
      ensures Valid()
      ensures id == "" ==> o == Raise(InvalidProductData("pharmacy ID")) && pharmacies.root == old(pharmacies.root)
      ensures id != "" && (forall x :: x in old(pharmacies.Elements()) ==> x.info.id != id) ==>
                o == Raise(ProductNotFound("Pharmacy with ID: " + id)) && pharmacies.root == old(pharmacies.root)
      ensures id != "" && (exists x :: x in old(pharmacies.Elements()) && x.info.id == id) ==>
                o == Pass
                && |pharmacies.Elements()| == |old(pharmacies.Elements())| - 1
                && (forall x :: x in pharmacies.Elements() <==> x in old(pharmacies.Elements()) && x.info.id != id)
    {
      if id == "" {
        return Raise(InvalidProductData("pharmacy ID"));
      }
      var pharmacy := FindPharmacy(id);
      if pharmacy == null {
        return Raise(ProductNotFound("Pharmacy with ID: " + id));
      }
      PharmacyIdsDistinct();
      ghost var before := pharmacies.Elements();
      var removed := pharmacies.Remove(pharmacy);
      RemovedById(before, pharmacies.Elements(), pharmacy);
      o := Pass;
    }

    /** `getPharmacy`: an empty id is InvalidProductData; otherwise the
        pharmacy with the id, or null. */
    method GetPharmacy(id: string) returns (r: Result<Pharmacy?>)
      requires Valid()
      ensures id == "" <==> r == Fail(InvalidProductData("pharmacy ID"))
      ensures r.Ok? ==> (r.value == null <==> forall x :: x in pharmacies.Elements() ==> x.info.id != id)
      ensures r.Ok? && r.value != null ==> r.value in pharmacies.Elements() && r.value.info.id == id
    {
      if id == "" {
        return Fail(InvalidProductData("pharmacy ID"));
      }
      var p := FindPharmacy(id);
      r := Ok(p);
    }

    /** `getAllPharmacies`: the pharmacies from `begin()` to `end()`, in
        ascending id order. */
    method GetAllPharmacies() returns (r: seq<Pharmacy>)
      requires Valid()
      ensures r == pharmacies.Elements()
      ensures forall i, j :: 0 <= i < j < |r| ==> Less(r[i].info.id, r[j].info.id)
    {
      ghost var t := pharmacies.root;
      ghost var n := |InOrder(t)|;
      var it := pharmacies.Begin();
      var end := pharmacies.End();
      PositionData(t, Right, n);
      ghost var k := 0;
      if k < n {
        LoopStep(t, Right, k, n);
      }
      r := [];
      var atEnd := it.Equals(end);
      while !atEnd
        invariant 0 <= k <= n && it.tree == t && it.Valid() && it != end && end.current == None
        invariant it.current == Position(t, Right, k)
        invariant atEnd <==> k == n
        invariant r == InOrder(t)[..k]
        decreases n - k
      {
        var pharmacy := TakeAscending(it, k, n);
        SliceGrows(InOrder(t), 0, k);
        r := r + [pharmacy];
        k := k + 1;
        atEnd := it.Equals(end);
      }
      assert InOrder(t)[..n] == InOrder(t);
      forall i, j | 0 <= i < j < |r|
        ensures Less(r[i].info.id, r[j].info.id)
      {
        assert Comp(pharmacies.key, r[i], r[j]);
      }
    }

    /** `getProductAvailability`: an empty id is InvalidProductData;
        otherwise every pharmacy is asked `checkStock`, and those with a
        positive quantity are mapped from their id to it. */
    method GetProductAvailability(id: string) returns (r: Result<map<string, int>>)
      requires Valid()
      ensures id == "" <==> r == Fail(InvalidProductData("product ID"))
      ensures r.Ok? ==> r.value == Availability(pharmacies.Elements(), id)
      ensures r.Ok? ==> forall i :: 0 <= i < |pharmacies.Elements()| && StockOf(pharmacies.Elements()[i], id) > 0 ==>
                pharmacies.Elements()[i].info.id in r.value
                && r.value[pharmacies.Elements()[i].info.id] == StockOf(pharmacies.Elements()[i], id)
      ensures r.Ok? ==> forall k :: k in r.value ==>
                exists i :: 0 <= i < |pharmacies.Elements()| && pharmacies.Elements()[i].info.id == k
                            && StockOf(pharmacies.Elements()[i], id) > 0
    {
      if id == "" {
        return Fail(InvalidProductData("product ID"));
      }
      PharmacyIdsDistinct();
      ghost var ps := pharmacies.Elements();
      ghost var t := pharmacies.root;
      ghost var n := |InOrder(t)|;
      var it := pharmacies.Begin();
      var end := pharmacies.End();
      PositionData(t, Right, n);
      ghost var k := 0;
      if k < n {
        LoopStep(t, Right, k, n);
      }
      var availability := map[];
      var atEnd := it.Equals(end);
      while !atEnd
        invariant 0 <= k <= n && it.tree == t && it.Valid() && it != end && end.current == None
        invariant it.current == Position(t, Right, k)
        invariant atEnd <==> k == n
        invariant availability == Availability(InOrder(t)[..k], id)
        decreases n - k
      {
        availability, atEnd := AvailabilityStep(it, end, k, n, id, availability);
        k := k + 1;
      }
      assert InOrder(t)[..n] == InOrder(t) == ps;
      AvailabilityExact(ps, id);
      r := Ok(availability);
    }

    /** `findProductInPharmacies`: an empty query is InvalidProductData;
        otherwise (id, name) of every pharmacy whose `findProduct` finds a
        product with that id or name, in ascending pharmacy id order. */
    method FindProductInPharmacies(query: string) returns (r: Result<seq<(string, string)>>)
      requires Valid()
      ensures query == "" <==> r == Fail(InvalidProductData("product name or ID"))
      ensures r.Ok? ==> r.value == Carriers(pharmacies.Elements(), query)
      ensures r.Ok? ==> forall i :: 0 <= i < |pharmacies.Elements()| && Carries(pharmacies.Elements()[i], query) ==>
                (pharmacies.Elements()[i].info.id, pharmacies.Elements()[i].info.name) in r.value
      ensures r.Ok? ==> forall e :: e in r.value ==>
                exists i :: 0 <= i < |pharmacies.Elements()| && Carries(pharmacies.Elements()[i], query)
                            && e == (pharmacies.Elements()[i].info.id, pharmacies.Elements()[i].info.name)
    {
      if query == "" {
        return Fail(InvalidProductData("product name or ID"));
      }
      ghost var t := pharmacies.root;
      ghost var n := |InOrder(t)|;
      var it := pharmacies.Begin();
      var end := pharmacies.End();
      PositionData(t, Right, n);
      ghost var k := 0;
      if k < n {
        LoopStep(t, Right, k, n);
      }
      var found := [];
      var atEnd := it.Equals(end);
      while !atEnd
        invariant 0 <= k <= n && it.tree == t && it.Valid() && it != end && end.current == None
        invariant it.current == Position(t, Right, k)
        invariant atEnd <==> k == n
        invariant found == Carriers(InOrder(t)[..k], query)
        decreases n - k
      {
        found, atEnd := CarriersStep(it, end, k, n, query, found);
        k := k + 1;
      }
      assert InOrder(t)[..n] == InOrder(t);
      CarriersExact(InOrder(t), query);
      r := Ok(found);
    }

    // -------------------------------------------------------------------
    // Operations

    /** `addOperation`: null is InvalidProductData; otherwise appended. */
    method AddOperation(operation: InventoryOperation?) returns (o: Outcome)
      modifies this
      ensures catalog == old(catalog)
      ensures operation == null ==> o == Raise(InvalidProductData("operation")) && operations == old(operations)
      ensures operation != null ==> o == Pass && operations == old(operations) + [operation]
    {
      if operation == null {
        return Raise(InvalidProductData("operation"));
      }
      operations := operations + [operation];
      o := Pass;
    }

    /** `getSupplyOperations`, `getReturnOperations` and
        `getWriteOffOperations`: the operations of one kind, in the order
        they were added. */
    method OperationsOfKind(kind: Details) returns (r: seq<InventoryOperation>)
      ensures r == OfKind(operations, kind)
    {
      r := [];
      var i := 0;
      while i < |operations|
        invariant 0 <= i <= |operations|
        invariant r == OfKind(operations[..i], kind)
      {
        assert operations[..i + 1][..i] == operations[..i];
        if SameKind(operations[i].details, kind) {
          r := r + [operations[i]];
        }
        i := i + 1;
      }
      assert operations[..i] == operations;
    }

    /** `clearAll`: no products, no operations and no pharmacies. */
    method ClearAll()
      requires Valid()
      modifies this, pharmacies
      ensures catalog == map[] && operations == [] && pharmacies.Elements() == [] && Valid()
    {
      catalog := map[];
      operations := [];
      pharmacies.Clear();
    }

    /** `getAllOperations`. */
    method GetAllOperations() returns (r: seq<InventoryOperation>)
      ensures r == operations
    {
      r := operations;
    }
  }

  /** One pass of `getProductAvailability`'s loop: the pharmacy under the
      iterator is asked `checkStock`, enters the map with a positive
      quantity, and the iterator moves on. */
  method AvailabilityStep(it: Iterator<Pharmacy>, end: Iterator<Pharmacy>, ghost k: nat, ghost n: nat, id: string,
                          acc: map<string, int>)
    returns (next: map<string, int>, atEnd: bool)
    requires id != "" && k < n <= |InOrder(it.tree)| && it.current == Position(it.tree, Right, k)
    requires it != end && end.current == Position(it.tree, Right, n)
    requires acc == Availability(InOrder(it.tree)[..k], id)
    modifies it
    ensures it.Valid() && it.current == Position(it.tree, Right, k + 1)
    ensures atEnd <==> k + 1 == n
    ensures next == Availability(InOrder(it.tree)[..k + 1], id)
  {
    ghost var ps := InOrder(it.tree);
    AvailabilityGrows(ps, id, k);
    ghost var want := Availability(ps[..k + 1], id);
    var pharmacy := TakeAscending(it, k, n);
    assert Availability(ps[..k + 1], id) == want;
    var quantity := pharmacy.CheckStock(id);
    next := if quantity.value > 0 then acc[pharmacy.info.id := quantity.value] else acc;
    atEnd := it.Equals(end);
  }

  /** `pharmacy->findProduct(query)` is non-null: the pharmacy stocks a
      product with that id or name. */
  method FindsProduct(pharmacy: Pharmacy, query: string) returns (found: bool)
    ensures found <==> Carries(pharmacy, query)
  {
    var product := pharmacy.FindProduct(query);
    found := product != null;
  }

  /** One pass of `findProductInPharmacies`' loop: the pharmacy under the
      iterator is asked `findProduct`, is listed when it finds one, and the
      iterator moves on. */
  method CarriersStep(it: Iterator<Pharmacy>, end: Iterator<Pharmacy>, ghost k: nat, ghost n: nat, query: string,
                      acc: seq<(string, string)>)
    returns (next: seq<(string, string)>, atEnd: bool)
    requires k < n <= |InOrder(it.tree)| && it.current == Position(it.tree, Right, k)
    requires it != end && end.current == Position(it.tree, Right, n)
    requires acc == Carriers(InOrder(it.tree)[..k], query)
    modifies it
    ensures it.Valid() && it.current == Position(it.tree, Right, k + 1)
    ensures atEnd <==> k + 1 == n
    ensures next == Carriers(InOrder(it.tree)[..k + 1], query)
  {
    ghost var ps := InOrder(it.tree);
    CarriersGrow(ps, query, k);
    ghost var want := Carriers(ps[..k + 1], query);
    ghost var carries := Carries(ps[k], query);
    var pharmacy := TakeAscending(it, k, n);
    assert Carriers(ps[..k + 1], query) == want;
    assert Carries(pharmacy, query) == carries;
    var found := FindsProduct(pharmacy, query);
    next := if found then acc + [(pharmacy.info.id, pharmacy.info.name)] else acc;
    atEnd := it.Equals(end);
  }

  /** `searchProducts`' loop: the products under `keys`, in that order,
      that match the term. */
  method CollectHits(c: map<string, Product>, keys: seq<string>, term: string) returns (found: seq<Product>)
    requires forall j :: 0 <= j < |keys| ==> keys[j] in c
    ensures found == Hits(ValuesAt(c, keys), term)
  {
    found := [];
    var i := 0;
    while i < |keys|
      invariant 0 <= i <= |keys|
      invariant found == Hits(ValuesAt(c, keys[..i]), term)
    {
      var product := c[keys[i]];
      HitsGrow(c, keys, i, term);
      found := found + if SearchHit(product, term) then [product] else [];
      i := i + 1;
    }
    assert keys[..i] == keys;
  }

  /** `getAnalogues`' loop: the products under `keys`, in that order,
      that are medicines with another id and the substance. */
  method CollectAnalogues(c: map<string, Product>, keys: seq<string>, id: string, substance: string)
    returns (found: seq<Product>)
    requires forall j :: 0 <= j < |keys| ==> keys[j] in c
    ensures found == AnaloguesIn(ValuesAt(c, keys), id, substance)
  {
    found := [];
    var i := 0;
    while i < |keys|
      invariant 0 <= i <= |keys|
      invariant found == AnaloguesIn(ValuesAt(c, keys[..i]), id, substance)
    {
      var product := c[keys[i]];
      AnaloguesGrow(c, keys, i, id, substance);
      if product.IsMedicine() && product.Id() != id && product.Substance() == substance {
        found := found + [product];
      }
      i := i + 1;
    }
    assert keys[..i] == keys;
  }

  /** `getAllProducts`' loop: the products under `keys`, in that order. */
  method CollectAll(c: map<string, Product>, keys: seq<string>) returns (r: seq<Product>)
    requires forall j :: 0 <= j < |keys| ==> keys[j] in c
    ensures r == ValuesAt(c, keys)
  {
    r := [];
    var i := 0;
    while i < |keys|
      invariant 0 <= i <= |keys|
      invariant r == ValuesAt(c, keys[..i])
    {
      ValuesAtGrows(c, keys, i);
      r := r + [c[keys[i]]];
      i := i + 1;
    }
    assert keys[..i] == keys;
  }

  /** The state of `removeProduct`'s loop once the keys `done` have been
      visited: their medicines have dropped `id` (as written, each of them
      listed it), and every other analogue list is as in `before`. */
  ghost predicate Visited(c: map<string, Product>, done: seq<string>, id: string, strict: bool,
                          before: map<string, seq<Product>>)
    reads c.Values
  {
    (forall k :: k in c ==> k in before)
    && (forall k :: k in c && k !in done ==> c[k].analogues == before[k])
    && (forall k :: k in c && k in done ==> c[k].analogues == Stripped(before[k], id, c[k].IsMedicine()))
    && (strict ==> forall k :: k in c && k in done && c[k].IsMedicine() ==> id in IdsOf(before[k]))
  }

  /** The analogue lists of `c` against `before`: each medicine filed
      below `bound` (every medicine, without a bound) has dropped `id`,
      every other product keeps its list. */
  ghost predicate StrippedBelow(c: map<string, Product>, before: map<string, seq<Product>>, id: string,
                                bound: Option<string>)
    reads c.Values
  {
    forall k :: k in c ==>
      k in before
      && c[k].analogues == Stripped(before[k], id, c[k].IsMedicine() && (bound.None? || Less(k, bound.value)))
  }

  /** `f` is the first medicine, in id order, whose list does not name
      `id`. */
  ghost predicate FirstUnlisted(c: map<string, Product>, before: map<string, seq<Product>>, id: string, f: string)
    reads c.Values
  {
    f in c && f in before && c[f].IsMedicine() && id !in IdsOf(before[f])
    && forall k :: k in c && k in before && c[k].IsMedicine() && Less(k, f) ==> id in IdsOf(before[k])
  }

  /** Where the loop ends: all keys visited, or the keys below the one that
      threw. */
  lemma {:induction false} VisitedBelow(c: map<string, Product>, done: seq<string>, id: string, strict: bool,
                                        before: map<string, seq<Product>>, failed: Option<string>)
    requires Visited(c, done, id, strict, before)
    requires failed.None? ==> forall k :: k in c ==> k in done
    requires failed.Some? ==> forall k :: k in c ==> (k in done <==> Less(k, failed.value))
    requires failed.Some? ==> failed.value in c && c[failed.value].IsMedicine() && id !in IdsOf(before[failed.value])
    ensures StrippedBelow(c, before, id, failed)
    ensures strict ==> (failed.None? <==> ListedByAll(c, before, id))
    ensures strict && failed.Some? ==> FirstUnlisted(c, before, id, failed.value)
  {
    forall k | k in c
      ensures c[k].analogues == Stripped(before[k], id, c[k].IsMedicine() && (failed.None? || Less(k, failed.value)))
    {
      if k in done {
        assert c[k].analogues == Stripped(before[k], id, c[k].IsMedicine());
      } else {
        assert c[k].analogues == before[k];
      }
    }
  }

  /** One pass of that loop: the product, if it is a medicine, is asked to
      drop `id` (as written always, otherwise only when it lists the id);
      `raised` tells that `removeAnalogue` threw. */
  method StripOne(product: Product, id: string, strict: bool) returns (raised: bool)
    requires id != ""
    modifies product
    ensures raised <==> strict && product.IsMedicine() && id !in old(product.AnalogueIds())
    ensures product.analogues == Stripped(old(product.analogues), id, product.IsMedicine() && !raised)
  {
    raised := false;
    if product.IsMedicine() && (strict || id in product.AnalogueIds()) {
      var r := product.RemoveAnalogue(id);
      raised := r.Raise?;
    }
  }

  /** The pass at `key` in a catalog filed by id: only that product
      changes, so the loop state extends to `key` unless it threw. */
  method StripStep(c: map<string, Product>, key: string, ghost done: seq<string>, id: string, strict: bool,
                   ghost before: map<string, seq<Product>>)
    returns (raised: bool)
    requires key in c && key !in done && id != ""
    requires forall k :: k in c ==> c[k].Id() == k
    requires Visited(c, done, id, strict, before)
    modifies c[key]
    ensures raised ==> Visited(c, done, id, strict, before)
    ensures raised ==> strict && c[key].IsMedicine() && id !in IdsOf(before[key])
    ensures !raised ==> Visited(c, done + [key], id, strict, before)
  {
    var product := c[key];
    raised := StripOne(product, id, strict);
    assert forall k :: k in c && k != key ==> c[k] != product && c[k].analogues == old(c[k].analogues);
  }

  /** In a strictly sorted sequence the keys before position `i` are
      exactly those less than the key at `i`, which is not among them. */
  lemma {:induction false} SortedPrefix(keys: seq<string>, i: nat)
    requires StrictlySorted(keys) && i < |keys|
    ensures keys[i] !in keys[..i]
    ensures forall k :: k in keys ==> (k in keys[..i] <==> Less(k, keys[i]))
  {
    forall k | k in keys
      ensures k in keys[..i] <==> Less(k, keys[i])
    {
      var j :| 0 <= j < |keys| && keys[j] == k;
      SortedBefore(keys, i, j);
      if j < i {
        assert keys[..i][j] == k;
      }
      if k in keys[..i] {
        var m :| 0 <= m < i && keys[m] == k;
        SortedBefore(keys, i, m);
      }
    }
    LessIrreflexive(keys[i]);
  }

  /** A prefix grows by the element at its end. */
  lemma PrefixGrows<X>(s: seq<X>, i: nat)
    requires i < |s|
    ensures s[..i + 1] == s[..i] + [s[i]]
  {
  }

  /** Removing from a list of pharmacies with distinct ids the one that
      has the id `p.info.id` leaves exactly the pharmacies with other
      ids. */
  lemma {:induction false} RemovedById(before: seq<Pharmacy>, after: seq<Pharmacy>, p: Pharmacy)
    requires forall i, j :: 0 <= i < j < |before| ==> before[i].info.id != before[j].info.id
    requires p in before
    requires multiset(after) == multiset(before) - multiset{p}
    ensures forall x :: x in after <==> x in before && x.info.id != p.info.id
  {
    assert forall i, j :: 0 <= i < j < |before| ==> before[i] != before[j];
    OnlyOnce(before, p);
    forall x
      ensures x in after <==> x in before && x.info.id != p.info.id
    {
      assert x in after <==> x in multiset(after);
      assert x in before <==> x in multiset(before);
      if x in before && x.info.id == p.info.id {
        var i :| 0 <= i < |before| && before[i] == x;
        var j :| 0 <= j < |before| && before[j] == p;
        assert i == j;
      }
    }
  }

  /** An element of a duplicate-free sequence leaves its multiset once
      removed once. */
  lemma {:induction false} OnlyOnce<X>(s: seq<X>, x: X)
    requires x in s
    requires forall i, j :: 0 <= i < j < |s| ==> s[i] != s[j]
    ensures multiset(s)[x] == 1
  {
    var i :| 0 <= i < |s| && s[i] == x;
    assert s == s[..i] + [x] + s[i + 1..];
    assert x !in s[..i] && x !in s[i + 1..];
    assert multiset(s) == multiset(s[..i]) + multiset{x} + multiset(s[i + 1..]);
  }
}
