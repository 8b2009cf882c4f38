// Pharmacy: a pharmacy's details and the stock ledger it owns, with stricter
// rules than the ledger itself, the read-only queries over the ledger, and the
// `;`-separated text form of the details.

module Pharmacies {
  import opened Errors
  import opened Text
  import opened LexOrder
  import opened SafeInput
  import opened Products
  import opened ProductCodecs
  import opened Storages

  /** The details a Pharmacy carries besides its stock. */
  datatype PharmacyInfo = PharmacyInfo(id: string, name: string, address: string, phone: string, rent: real)

  /** The default-constructed pharmacy. */
  const DefaultInfo := PharmacyInfo("", "Green Pharmacy", "", "", 0.0)

  /** The name the parser gives a pharmacy whose name field is empty. */
  function FallbackName(id: string): (r: string)
    ensures |r| > |id| && r[|r| - |id|..] == id
  {
    "Аптека №" + id
  }

  /** `findProduct`'s test: the query is the product's id or its name. */
  predicate Matches(p: Product, query: string) {
    p.Id() == query || p.data.base.name == query
  }

  /** A product of the ledger with at least one unit on hand. */
  predicate InStock(items: map<string, Item>, id: string) {
    id in items && items[id].quantity > 0
  }

  /** The products of `ps` that are in stock, in the order of `ps`. */
  function Stocked(ps: seq<Product>, items: map<string, Item>): (r: seq<Product>)
    ensures |r| <= |ps|
    ensures forall j :: 0 <= j < |r| ==> r[j] in ps && InStock(items, r[j].Id())
    ensures forall i :: 0 <= i < |ps| ==> (ps[i] in r <==> InStock(items, ps[i].Id()))
  {
    if |ps| == 0 then []
    else
      var last := ps[|ps| - 1];
      var init := Stocked(ps[..|ps| - 1], items);
      assert forall i :: 0 <= i < |ps| - 1 ==> ps[..|ps| - 1][i] == ps[i];
      if InStock(items, last.Id()) then init + [last] else init
  }

  /** The ledger entries filed under `ids`, as (product, quantity), in the
      order of `ids`. */
  function Rows(items: map<string, Item>, ids: seq<string>): (r: seq<(Product, int)>)
    requires forall j :: 0 <= j < |ids| ==> ids[j] in items
    ensures |r| == |ids|
    ensures forall j :: 0 <= j < |ids| ==> r[j] == (items[ids[j]].product, items[ids[j]].quantity)
  {
    if |ids| == 0 then []
    else
      var n := |ids| - 1;
      assert forall j :: 0 <= j < n ==> ids[..n][j] == ids[j];
      Rows(items, ids[..n]) + [(items[ids[n]].product, items[ids[n]].quantity)]
  }

  lemma RowsSnoc(items: map<string, Item>, ids: seq<string>, i: nat)
    requires i < |ids| && forall j :: 0 <= j < |ids| ==> ids[j] in items
    ensures Rows(items, ids[..i + 1]) == Rows(items, ids[..i]) + [(items[ids[i]].product, items[ids[i]].quantity)]
  {
    assert ids[..i + 1][..i] == ids[..i];
  }

  /** The loop of `getAllProducts`: one (product, quantity) pair per id. */
  method CollectRows(items: map<string, Item>, ids: seq<string>) returns (r: seq<(Product, int)>)
    requires forall j :: 0 <= j < |ids| ==> ids[j] in items
    ensures r == Rows(items, ids)
  {
    r := [];
    var i := 0;
    while i < |ids|
      invariant 0 <= i <= |ids|
      invariant r == Rows(items, ids[..i])
    {
      RowsSnoc(items, ids, i);
      r := r + [(items[ids[i]].product, items[ids[i]].quantity)];
      i := i + 1;
    }
    assert ids[..i] == ids;
  }

  /** The loop of `findProduct`: the index of the first row whose product
      matches the query, or the number of rows when none does. */
  method FirstMatch(rows: seq<(Product, int)>, query: string) returns (i: nat)
    ensures i <= |rows|
    ensures i < |rows| ==> Matches(rows[i].0, query)
    ensures forall j :: 0 <= j < i ==> !Matches(rows[j].0, query)
  {
    i := 0;
    while i < |rows|
      invariant i <= |rows|
      invariant forall j :: 0 <= j < i ==> !Matches(rows[j].0, query)
    {
      if Matches(rows[i].0, query) {
        return;
      }
      i := i + 1;
    }
  }

  class Pharmacy {
    const info: PharmacyInfo
    const storage: Storage

    /** The stock ledger is valid. */
    predicate Valid()
      reads this, storage
    {
      storage.Valid()
    }

    /** The constructor from details checks nothing: any rent is taken. */
    constructor (info: PharmacyInfo)
      ensures this.info == info && fresh(storage) && storage.items == map[] && Valid()
    {
      this.info := info;
      storage := new Storage();
    }

    constructor Default()
      ensures info == DefaultInfo && fresh(storage) && storage.items == map[] && Valid()
    {
      info := DefaultInfo;
      storage := new Storage();
    }

    /** `addToStorage`: a null product or a non-positive quantity is
        InvalidProductData, an already stocked id is DuplicateProduct (so
        stock of a product can never grow through a Pharmacy), and an empty
        id is the InventoryException of `contains`; none of these changes
        the ledger. Otherwise the product is stocked with `quantity`. */
    method AddToStorage(product: Product?, quantity: Int32) returns (o: Outcome)
      modifies storage
      ensures product == null ==> o == Raise(InvalidProductData("product")) && storage.items == old(storage.items)
      ensures product != null && quantity <= 0 ==>
                o == Raise(InvalidProductData("quantity")) && storage.items == old(storage.items)
      ensures product != null && quantity > 0 && product.Id() == "" ==>
                o == Raise(InventoryError) && storage.items == old(storage.items)
      ensures product != null && quantity > 0 && product.Id() != "" && product.Id() in old(storage.items) ==>
                o == Raise(DuplicateProduct(product.Id())) && storage.items == old(storage.items)
      ensures product != null && quantity > 0 && product.Id() != "" && product.Id() !in old(storage.items) ==>
                o == Pass && storage.items == old(storage.items)[product.Id() := Item(product, quantity)]
      ensures old(Valid()) ==> Valid()
    {
      if product == null {
        return Raise(InvalidProductData("product"));
      }
      if quantity <= 0 {
        return Raise(InvalidProductData("quantity"));
      }
      var contained := storage.Contains(product.Id());
      if contained.Fail? {
        return Raise(contained.error);
      }
      if contained.value {
        return Raise(DuplicateProduct(product.Id()));
      }
      o := storage.AddProduct(product, quantity);
    }

    /** `removeFromStorage`: an empty id or a non-positive quantity is
        InvalidProductData and an unstocked id ProductNotFound; otherwise it
        is `Storage::removeProduct`. */
    method RemoveFromStorage(id: string, quantity: Int32) returns (o: Outcome)
      modifies storage
      ensures id == "" ==> o == Raise(InvalidProductData("product ID")) && storage.items == old(storage.items)
      ensures id != "" && quantity <= 0 ==>
                o == Raise(InvalidProductData("quantity")) && storage.items == old(storage.items)
      ensures id != "" && quantity > 0 && id !in old(storage.items) ==>
                o == Raise(ProductNotFound(id)) && storage.items == old(storage.items)
      ensures id != "" && quantity > 0 && id in old(storage.items) && quantity > old(storage.items)[id].quantity ==>
                o == Raise(InsufficientError(id, old(storage.items)[id].quantity, quantity))
                && storage.items == old(storage.items)
      ensures id != "" && quantity > 0 && id in old(storage.items) && quantity <= old(storage.items)[id].quantity ==>
                o == Pass
                && Quantities(storage.items) == Removed(Quantities(old(storage.items)), id, quantity)
                && (id in storage.items ==> storage.items[id].product == old(storage.items)[id].product)
                && (forall k :: k in storage.items && k != id ==> storage.items[k] == old(storage.items)[k])
      ensures old(Valid()) ==> Valid()
    {
      if id == "" {
        return Raise(InvalidProductData("product ID"));
      }
      if quantity <= 0 {
        return Raise(InvalidProductData("quantity"));
      }
      if !storage.Contains(id).value {
        return Raise(ProductNotFound(id));
      }
      o := storage.RemoveProduct(id, quantity);
    }

    /** `checkStock`: the quantity on hand, zero for an unstocked product;
        an empty id is `invalid_argument`. */
    function CheckStock(id: string): (r: Result<int>)
      reads this, storage
      ensures id == "" <==> r == Fail(InvalidArgument)
      ensures r.Ok? ==> r.value == QuantityOf(Quantities(storage.items), id)
      ensures r.Ok? && Valid() ==> (r.value > 0 <==> id in storage.items)
    {
      if id == "" then Fail(InvalidArgument) else storage.GetQuantity(id)
    }

    /** `findAvailableAnalogues`: the analogues of a stocked medicine that
        are themselves in stock, in analogue-list order; nothing for a
        product that is not stocked or not a medicine. */
    method FindAvailableAnalogues(medicineId: string) returns (r: Result<seq<Product>>)
      ensures medicineId == "" <==> r == Fail(InvalidArgument)
      ensures medicineId != "" && medicineId !in storage.items ==> r == Ok([])
      ensures medicineId != "" && medicineId in storage.items && !storage.items[medicineId].product.IsMedicine() ==>
                r == Ok([])
      ensures medicineId != "" && medicineId in storage.items && storage.items[medicineId].product.IsMedicine() ==>
                r == Ok(Stocked(storage.items[medicineId].product.analogues, storage.items))
    {
      if medicineId == "" {
        return Fail(InvalidArgument);
      }
      if medicineId !in storage.items {
        return Ok([]);
      }
      var medicine := storage.items[medicineId].product;
      if !medicine.IsMedicine() {
        return Ok([]);
      }
      var analogues := medicine.analogues;
      var result: seq<Product> := [];
      var i := 0;
      while i < |analogues|
        invariant 0 <= i <= |analogues|
        invariant result == Stocked(analogues[..i], storage.items)
      {
        assert analogues[..i + 1][..i] == analogues[..i];
        var a := analogues[i];
        if a.Id() in storage.items && storage.items[a.Id()].quantity > 0 {
          result := result + [a];
        }
        i := i + 1;
      }
      assert analogues[..i] == analogues;
      r := Ok(result);
    }

    /** `getAllProducts`: every ledger entry as (product, quantity), in
        ascending id order. */
    method GetAllProducts() returns (r: seq<(Product, int)>)
      ensures var keys := Ordered(storage.items.Keys);
              |r| == |keys| == |storage.items|
              && forall i :: 0 <= i < |r| ==>
                   keys[i] in storage.items
                   && r[i] == (storage.items[keys[i]].product, storage.items[keys[i]].quantity)
    {
      var items := storage.items;
      var ids := storage.GetAllProductIds();
      assert forall j :: 0 <= j < |ids| ==> ids[j] in items;
      r := CollectRows(items, ids);
    }

    /** `findProduct`: the first stocked product, in ascending id order,
        whose id or name is the query; null when there is none. */
    method FindProduct(query: string) returns (p: Product?)
      ensures p == null <==> forall k :: k in storage.items ==> !Matches(storage.items[k].product, query)
      ensures p != null ==>
                var keys := Ordered(storage.items.Keys);
                exists i :: 0 <= i < |keys| && keys[i] in storage.items
                  && p == storage.items[keys[i]].product && Matches(p, query)
                  && forall j :: 0 <= j < i ==> !Matches(storage.items[keys[j]].product, query)
    {
      var all := GetAllProducts();
      ghost var keys := Ordered(storage.items.Keys);
      var i := FirstMatch(all, query);
      if i < |all| {
        return all[i].0;
      }
      forall k | k in storage.items
        ensures !Matches(storage.items[k].product, query)
      {
        var j :| 0 <= j < |keys| && keys[j] == k;
        assert all[j].0 == storage.items[k].product;
      }
      p := null;
    }
  }

  // ---------------------------------------------------------------------
  // Text form of the details

  /** `os << pharmacy` as written: the five details and then the number of
      stocked products. */
  function EncodeAsWritten(info: PharmacyInfo, stocked: nat): (r: string)
    ensures InfoRoundTrips(info) ==> LineOf(r) == r && Split(r, ';') == InfoFields(info) + [NatToString(stocked)]
  {
    var fields := [info.id, info.name, info.address, info.phone, RealToString(info.rent), NatToString(stocked)];
    if InfoRoundTrips(info) then AsWrittenPlain(info, stocked); LineSplits(fields); Join(fields, ';')
    else Join(fields, ';')
  }

  /** The five details, the form the parser and the pharmacy loader read. */
  function InfoFields(info: PharmacyInfo): (r: seq<string>)
    ensures |r| == 5
  {
    [info.id, info.name, info.address, info.phone, RealToString(info.rent)]
  }

  /** The serialiser corrected to write what the readers accept. */
  function Encode(info: PharmacyInfo): (r: string)
    ensures InfoRoundTrips(info) ==> LineOf(r) == r && Split(r, ';') == InfoFields(info)
  {
    if InfoRoundTrips(info) then InfoFieldsPlain(info); LineSplits(InfoFields(info)); Join(InfoFields(info), ';')
    else Join(InfoFields(info), ';')
  }

  /** `is >> pharmacy` on an existing `target`: exactly five fields, a
      non-empty id, the fallback name for an empty one, a non-empty address
      and phone, and a rent `readPositiveDouble` accepts. Each field is
      stored before it is checked, so a failure can leave the target partly
      overwritten. */
  function ParseInto(target: PharmacyInfo, s: string): (r: (PharmacyInfo, Outcome))
    ensures |Split(LineOf(s), ';')| != 5 ==> r == (target, Raise(InvalidProductData("pharmacy data")))
    ensures r.1.Raise? ==> r.1.error.IsInvalidProductData()
    ensures r.1.Pass? ==>
              var tokens := Split(LineOf(s), ';');
              |tokens| == 5 && r.0.id == tokens[0] != "" && r.0.address == tokens[2] != ""
              && r.0.phone == tokens[3] != "" && r.0.rent >= 0.0
              && r.0.name == (if tokens[1] == "" then FallbackName(tokens[0]) else tokens[1])
  {
    var tokens := Split(LineOf(s), ';');
    if |tokens| != 5 then (target, Raise(InvalidProductData("pharmacy data")))
    else
      var withId := target.(id := tokens[0]);
      if tokens[0] == "" then (withId, Raise(InvalidProductData("Pharmacy ID")))
      else
        var named := withId.(name := if tokens[1] == "" then FallbackName(tokens[0]) else tokens[1]);
        var addressed := named.(address := tokens[2]);
        if tokens[2] == "" then (addressed, Raise(InvalidProductData("Address")))
        else
          var phoned := addressed.(phone := tokens[3]);
          if tokens[3] == "" then (phoned, Raise(InvalidProductData("Phone number")))
          else
            match ReadPositiveDouble(tokens[4], "Rent cost")
            case Fail(e) => (phoned, Raise(e))
            case Ok(rent) => (phoned.(rent := rent), Pass)
  }

  /** Details whose text form reads back as themselves. */
  predicate InfoRoundTrips(info: PharmacyInfo) {
    PlainText(info.id) && PlainText(info.name) && PlainText(info.address) && PlainText(info.phone)
    && WholeNonNeg(info.rent)
  }

  lemma {:induction false} InfoFieldsPlain(info: PharmacyInfo)
    requires InfoRoundTrips(info)
    ensures NoSep(InfoFields(info), ';') && NoSep(InfoFields(info), '\n')
  {
    RentPlain(info.rent);
    FivePlain(info.id, info.name, info.address, info.phone, RealToString(info.rent));
  }

  lemma {:induction false} RentPlain(rent: real)
    requires WholeNonNeg(rent)
    ensures PlainText(RealToString(rent))
  {
    WholeText(rent);
    DigitsPlain(RealToString(rent));
  }

  lemma FivePlain(a: string, b: string, c: string, d: string, e: string)
    requires PlainText(a) && PlainText(b) && PlainText(c) && PlainText(d) && PlainText(e)
    ensures NoSep([a, b, c, d, e], ';') && NoSep([a, b, c, d, e], '\n')
  {
  }

  /** The six fields `<<` writes for a pharmacy whose details are plain
      hold no separator. */
  lemma {:induction false} AsWrittenPlain(info: PharmacyInfo, stocked: nat)
    requires InfoRoundTrips(info)
    ensures var fields := [info.id, info.name, info.address, info.phone, RealToString(info.rent), NatToString(stocked)];
            NoSep(fields, ';') && NoSep(fields, '\n') && fields == InfoFields(info) + [NatToString(stocked)]
  {
    InfoFieldsPlain(info);
    DigitsPlain(NatToString(stocked));
    NoSepAppend(InfoFields(info), [NatToString(stocked)], ';');
    NoSepAppend(InfoFields(info), [NatToString(stocked)], '\n');
  }

  /** The serialiser as written and the parser disagree on the number of
      fields: a written pharmacy never reads back. */
  lemma {:induction false} WrittenPharmacyNeverReads(info: PharmacyInfo, stocked: nat, target: PharmacyInfo)
    requires InfoRoundTrips(info)
    ensures ParseInto(target, EncodeAsWritten(info, stocked)) == (target, Raise(InvalidProductData("pharmacy data")))
  {
  }

  lemma {:induction false} ParseIntoSteps(target: PharmacyInfo, s: string, info: PharmacyInfo)
    requires Split(LineOf(s), ';') == InfoFields(info)
    requires info.id != "" && info.name != "" && info.address != "" && info.phone != ""
    requires ReadPositiveDouble(RealToString(info.rent), "Rent cost") == Ok(info.rent)
    ensures ParseInto(target, s) == (info, Pass)
  {
    var tokens := Split(LineOf(s), ';');
    assert tokens[4] == RealToString(info.rent);
    var full := target.(id := tokens[0]).(name := tokens[1]).(address := tokens[2]).(phone := tokens[3])
                      .(rent := info.rent);
    assert full == info;
  }

  /** Reading back the corrected text form restores every detail, whatever
      the target held. */
  lemma {:induction false} RoundTrip(info: PharmacyInfo, target: PharmacyInfo)
    requires InfoRoundTrips(info)
    ensures ParseInto(target, Encode(info)) == (info, Pass)
  {
    InfoFieldsPlain(info);
    LineSplits(InfoFields(info));
    NumberReads(info.rent, "Rent cost");
    ParseIntoSteps(target, Encode(info), info);
  }

  /** An empty name is read as the fallback name built from the id. */
  lemma {:induction false} EmptyNameFallsBack(info: PharmacyInfo, target: PharmacyInfo)
    requires InfoRoundTrips(info.(name := "x"))
    ensures ParseInto(target, Encode(info.(name := ""))).0.name == FallbackName(info.id)
  {
    var named := info.(name := "x");
    var unnamed := info.(name := "");
    InfoFieldsPlain(named);
    assert InfoFields(unnamed) == InfoFields(named)[1 := ""];
    assert NoSep(InfoFields(unnamed), ';') && NoSep(InfoFields(unnamed), '\n');
    LineSplits(InfoFields(unnamed));
    NumberReads(info.rent, "Rent cost");
  }
}
