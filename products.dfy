// The product hierarchy: MedicalProduct, the abstract Medicine, and its three
// dosage forms Tablet, Syrup and Ointment. The descriptive fields are values
// fixed at construction; a medicine's list of analogues is the one piece of
// state its methods change in place.

module Products {
  import opened Errors
  import opened SafeDates

  /** The fields of every MedicalProduct. */
  datatype BaseInfo = BaseInfo(id: string, name: string, price: real, expiration: SafeDate, country: string)

  /** What distinguishes the three concrete medicines. */
  datatype Form =
    | Tablet(units: Int32, dosageMg: real, coating: string)
    | Syrup(volumeMl: real, hasSugar: bool, flavor: string)
    | Ointment(weightG: real, baseType: string)

  /** The fields Medicine adds to MedicalProduct. */
  datatype MedInfo = MedInfo(prescription: bool, substance: string, instructions: string, form: Form)

  /** A product's descriptive fields; `med` is present exactly for medicines. */
  datatype ProductData = ProductData(base: BaseInfo, med: Option<MedInfo>)

  /** The field values of a default-constructed MedicalProduct. */
  const DefaultBase := BaseInfo("", "", 0.0, Date(2025, 12, 31), "")

  // ---------------------------------------------------------------------
  // Constants of the dosage forms

  function DosageForm(f: Form): (r: string)
    ensures r != "" && ';' !in r && '\n' !in r
  {
    match f
    case Tablet(_, _, _) => "Tablet"
    case Syrup(_, _, _) => "Syrup"
    case Ointment(_, _) => "Ointment"
  }

  function AdministrationMethod(f: Form): (r: string)
    ensures r != "" && ';' !in r && '\n' !in r
    ensures r == "External" <==> f.Ointment?
  {
    if f.Ointment? then "External" else "Oral"
  }

  // ---------------------------------------------------------------------
  // Constructor checks

  /** `SafeInput::validateProductId` and `SafeInput::validateTextField`,
      whose definitions are not part of this model: each either accepts its
      argument or raises some error. */
  datatype Validators = Validators(productId: string -> Outcome, textField: (string, string) -> Outcome)

  /** The MedicalProduct constructor: empty id, name or country and a
      negative price are refused, in that order. */
  function CheckBase(b: BaseInfo): (r: Outcome)
    ensures r.Pass? <==> b.id != "" && b.name != "" && b.price >= 0.0 && b.country != ""
    ensures b.id == "" ==> r == Raise(InvalidProductData("id"))
    ensures b.id != "" && b.name == "" ==> r == Raise(InvalidProductData("name"))
    ensures r.Raise? ==> r.error.InvalidProductData?
  {
    if b.id == "" then Raise(InvalidProductData("id"))
    else if b.name == "" then Raise(InvalidProductData("name"))
    else if b.price < 0.0 then Raise(InvalidProductData("price"))
    else if b.country == "" then Raise(InvalidProductData("manufacturer country"))
    else Pass
  }

  /** Whether the undefined validators accept a medicine's text fields. */
  predicate TextAccepted(v: Validators, b: BaseInfo, m: MedInfo) {
    v.productId(b.id).Pass? && v.textField(b.name, "Name").Pass?
    && v.textField(b.country, "Country").Pass?
    && v.textField(m.substance, "Active substance").Pass?
    && v.textField(m.instructions, "Instructions").Pass?
  }

  /** The Medicine constructor: the MedicalProduct checks, then non-empty
      substance and instructions (as `invalid_argument`), the validators,
      and finally a strictly positive price. */
  function CheckMedicine(b: BaseInfo, m: MedInfo, v: Validators): (r: Outcome)
    ensures r.Pass? <==> CheckBase(b).Pass? && m.substance != "" && m.instructions != ""
                         && TextAccepted(v, b, m) && b.price > 0.0
    ensures CheckBase(b).Pass? && m.substance == "" ==> r == Raise(InvalidArgument)
    ensures CheckBase(b).Pass? && m.substance != "" && m.instructions == "" ==> r == Raise(InvalidArgument)
  {
    if CheckBase(b).Raise? then CheckBase(b)
    else if m.substance == "" then Raise(InvalidArgument)
    else if m.instructions == "" then Raise(InvalidArgument)
    else if v.productId(b.id).Raise? then v.productId(b.id)
    else if v.textField(b.name, "Name").Raise? then v.textField(b.name, "Name")
    else if v.textField(b.country, "Country").Raise? then v.textField(b.country, "Country")
    else if v.textField(m.substance, "Active substance").Raise? then v.textField(m.substance, "Active substance")
    else if v.textField(m.instructions, "Instructions").Raise? then v.textField(m.instructions, "Instructions")
    else if b.price <= 0.0 then Raise(InvalidProductData("Price"))
    else Pass
  }

  /** The text field each form hands to `validateTextField`. */
  function FormText(f: Form): (string, string) {
    match f
    case Tablet(_, _, coating) => (coating, "Coating")
    case Syrup(_, _, flavor) => (flavor, "Flavor")
    case Ointment(_, baseType) => (baseType, "Base type")
  }

  /** The range checks a form's constructor makes after `validateTextField`. */
  predicate FormInRange(f: Form) {
    match f
    case Tablet(units, dosage, coating) => units > 0 && dosage > 0.0 && coating != ""
    case Syrup(volume, _, flavor) => 0.0 < volume <= 1000.0 && flavor != ""
    case Ointment(weight, baseType) => 0.0 < weight <= 1000.0 && baseType != ""
  }

  /** The checks of the Tablet, Syrup and Ointment constructors. Ointment
      alone reports its failures as `invalid_argument`. */
  function CheckForm(f: Form, v: Validators): (r: Outcome)
    ensures r.Pass? <==> v.textField(FormText(f).0, FormText(f).1).Pass? && FormInRange(f)
    ensures r.Raise? && v.textField(FormText(f).0, FormText(f).1).Pass? ==>
              r.error == (if f.Ointment? then InvalidArgument else InvalidProductData(FormText(f).1))
                || (f.Tablet? && r.error == InvalidProductData("Units per package"))
                || (f.Tablet? && r.error == InvalidProductData("Dosage"))
                || (f.Syrup? && r.error == InvalidProductData("Volume"))
  {
    var text := v.textField(FormText(f).0, FormText(f).1);
    if text.Raise? then text
    else match f
    case Tablet(units, dosage, coating) =>
      if units <= 0 then Raise(InvalidProductData("Units per package"))
      else if dosage <= 0.0 then Raise(InvalidProductData("Dosage"))
      else if coating == "" then Raise(InvalidProductData("Coating"))
      else Pass
    case Syrup(volume, _, flavor) =>
      if volume <= 0.0 then Raise(InvalidProductData("Volume"))
      else if volume > 1000.0 then Raise(InvalidProductData("Volume"))
      else if flavor == "" then Raise(InvalidProductData("Flavor"))
      else Pass
    case Ointment(weight, baseType) =>
      if weight <= 0.0 then Raise(InvalidArgument)
      else if weight > 1000.0 then Raise(InvalidArgument)
      else if baseType == "" then Raise(InvalidArgument)
      else Pass
  }

  /** The field rules every constructor enforces, independent of the
      undefined validators. */
  predicate Acceptable(d: ProductData) {
    var b := d.base;
    b.id != "" && b.name != "" && b.country != "" && b.price >= 0.0
    && (d.med.Some? ==>
          b.price > 0.0 && d.med.value.substance != "" && d.med.value.instructions != ""
          && FormInRange(d.med.value.form))
  }

  predicate ValidatorsAccept(v: Validators, d: ProductData) {
    d.med.Some? ==>
      TextAccepted(v, d.base, d.med.value)
      && v.textField(FormText(d.med.value.form).0, FormText(d.med.value.form).1).Pass?
  }

  /** Constructing the most derived class: the base checks run first. */
  function CheckProduct(d: ProductData, v: Validators): (r: Outcome)
  {
    match d.med
    case None => CheckBase(d.base)
    case Some(m) =>
      var medicine := CheckMedicine(d.base, m, v);
      if medicine.Raise? then medicine else CheckForm(m.form, v)
  }

  /** A constructor succeeds exactly when the field rules hold and the
      validators accept the text fields. */
  lemma {:induction false} CheckProductAccepts(d: ProductData, v: Validators)
    ensures CheckProduct(d, v).Pass? <==> Acceptable(d) && ValidatorsAccept(v, d)
  {
    if d.med.Some? {
      var m := d.med.value;
      if CheckMedicine(d.base, m, v).Pass? {
        assert CheckProduct(d, v) == CheckForm(m.form, v);
      }
    }
  }

  /** A price of zero is enough for a MedicalProduct but not for a Medicine,
      which reports it as an invalid "Price". */
  lemma {:induction false} MedicineNeedsPositivePrice(b: BaseInfo, m: MedInfo, v: Validators)
    requires b.price == 0.0 && CheckBase(b).Pass?
    requires m.substance != "" && m.instructions != "" && TextAccepted(v, b, m)
    ensures CheckMedicine(b, m, v) == Raise(InvalidProductData("Price"))
  {
  }

  // ---------------------------------------------------------------------
  // Products as objects

  class Product {
    const data: ProductData
    /** A Medicine's analogues, in insertion order. */
    var analogues: seq<Product>

    constructor (d: ProductData)
      ensures data == d && analogues == []
    {
      data := d;
      analogues := [];
    }

    function Id(): string { data.base.id }

    predicate IsMedicine() { data.med.Some? }

    /** The active substance of a medicine, "" for other products. */
    function Substance(): string { if data.med.Some? then data.med.value.substance else "" }

    /** The analogue list holds medicines only, never this product's own id,
        and no id twice; products that are not medicines have none. */
    predicate Valid()
      reads this
    {
      (!IsMedicine() ==> analogues == [])
      && (forall i :: 0 <= i < |analogues| ==> analogues[i].IsMedicine() && analogues[i].Id() != Id())
      && DistinctIds(analogues)
    }

    /** `getAnalogueIds`. */
    function AnalogueIds(): (r: seq<string>)
      reads this
      ensures |r| == |analogues|
      ensures forall i :: 0 <= i < |r| ==> r[i] == analogues[i].Id()
    {
      IdsOf(analogues)
    }

    /** `addAnalogue`: appends a non-null medicine with a different id that is
        not yet listed; anything else is `invalid_argument` and changes
        nothing. */
    method AddAnalogue(a: Product?) returns (o: Outcome)
      requires IsMedicine() && (a != null ==> a.IsMedicine())
      modifies this
      ensures a == null ==> o == Raise(InvalidArgument) && analogues == old(analogues)
      ensures a != null && a.Id() == Id() ==> o == Raise(InvalidArgument) && analogues == old(analogues)
      ensures a != null && a.Id() in old(AnalogueIds()) ==> o == Raise(InvalidArgument) && analogues == old(analogues)
      ensures a != null && a.Id() != Id() && a.Id() !in old(AnalogueIds()) ==>
                o == Pass && analogues == old(analogues) + [a]
      ensures old(Valid()) ==> Valid()
    {
      if a == null {
        return Raise(InvalidArgument);
      }
      if a.Id() == Id() {
        return Raise(InvalidArgument);
      }
      var i := 0;
      while i < |analogues|
        invariant 0 <= i <= |analogues|
        invariant forall j :: 0 <= j < i ==> analogues[j].Id() != a.Id()
        invariant analogues == old(analogues)
      {
        if analogues[i].Id() == a.Id() {
          return Raise(InvalidArgument);
        }
        i := i + 1;
      }
      analogues := analogues + [a];
      o := Pass;
    }

    /** `removeAnalogue`: drops every analogue with the id and keeps the
        order of the rest; an empty id is `invalid_argument`, an unlisted one
        `runtime_error`, and both leave the list alone. */
    method RemoveAnalogue(id: string) returns (o: Outcome)
      modifies this
      ensures id == "" ==> o == Raise(InvalidArgument) && analogues == old(analogues)
      ensures id != "" && id !in old(AnalogueIds()) ==> o == Raise(RuntimeError) && analogues == old(analogues)
      ensures id != "" && id in old(AnalogueIds()) ==> o == Pass && analogues == Without(old(analogues), id)
      ensures old(Valid()) ==> Valid()
    {
      if id == "" {
        return Raise(InvalidArgument);
      }
      var kept: seq<Product> := [];
      var i := 0;
      while i < |analogues|
        invariant 0 <= i <= |analogues|
        invariant kept == Without(analogues[..i], id)
        invariant analogues == old(analogues)
      {
        assert analogues[..i + 1] == analogues[..i] + [analogues[i]];
        WithoutAppend(analogues[..i], analogues[i], id);
        if analogues[i].Id() != id {
          kept := kept + [analogues[i]];
        }
        i := i + 1;
      }
      assert analogues[..i] == analogues;
      if |kept| == |analogues| {
        WithoutAbsent(analogues, id);
        return Raise(RuntimeError);
      }
      WithoutPresent(analogues, id);
      if Valid() {
        WithoutKeepsValid(analogues, id);
      }
      analogues := kept;
      o := Pass;
    }

    /** `clearAnalogues`. */
    method ClearAnalogues()
      modifies this
      ensures analogues == []
      ensures old(Valid()) ==> Valid()
    {
      analogues := [];
    }

    /** `addAnalogueById`: the first medicine of `all` with the id is added
        through `AddAnalogue`; its own id is `invalid_argument` and an id
        missing from `all` is `runtime_error`. */
    method AddAnalogueById(id: string, all: seq<Product>) returns (o: Outcome)
      requires IsMedicine() && forall p :: p in all ==> p.IsMedicine()
      modifies this
      ensures id == Id() ==> o == Raise(InvalidArgument) && analogues == old(analogues)
      ensures id != Id() && id !in IdsOf(all) ==> o == Raise(RuntimeError) && analogues == old(analogues)
      ensures id != Id() && id in IdsOf(all) && id in old(AnalogueIds()) ==>
                o == Raise(InvalidArgument) && analogues == old(analogues)
      ensures id != Id() && id in IdsOf(all) && id !in old(AnalogueIds()) ==>
                o == Pass && analogues == old(analogues) + [all[IndexOfId(all, id)]]
      ensures old(Valid()) ==> Valid()
    {
      if id == Id() {
        return Raise(InvalidArgument);
      }
      var i := 0;
      while i < |all|
        invariant 0 <= i <= |all|
        invariant forall j :: 0 <= j < i ==> all[j].Id() != id
      {
        if all[i].Id() == id {
          assert IndexOfId(all, id) == i by { IndexOfIdFirst(all, id, i); }
          o := AddAnalogue(all[i]);
          return;
        }
        i := i + 1;
      }
      o := Raise(RuntimeError);
    }

    /** `findAnaloguesBySubstance`: the analogues whose active substance is
        the given one, in list order; an empty substance is refused. */
    function FindAnaloguesBySubstance(substance: string): (r: Result<seq<Product>>)
      reads this
      ensures substance == "" <==> r == Fail(InvalidArgument)
      ensures r.Ok? ==> r.value == WithSubstance(analogues, substance)
    {
      if substance == "" then Fail(InvalidArgument) else Ok(WithSubstance(analogues, substance))
    }

    /** `isAnalogueOf`: a different id and the same active substance. */
    predicate IsAnalogueOf(other: Product)
      requires IsMedicine() && other.IsMedicine()
    {
      Id() != other.Id() && Substance() == other.Substance()
    }
  }

  lemma IsAnalogueOfIrreflexive(p: Product)
    requires p.IsMedicine()
    ensures !p.IsAnalogueOf(p)
  {
  }

  lemma IsAnalogueOfSymmetric(p: Product, q: Product)
    requires p.IsMedicine() && q.IsMedicine()
    ensures p.IsAnalogueOf(q) <==> q.IsAnalogueOf(p)
  {
  }

  // ---------------------------------------------------------------------
  // Lists of products

  function IdsOf(ps: seq<Product>): (r: seq<string>)
    ensures |r| == |ps|
    ensures forall i :: 0 <= i < |ps| ==> r[i] == ps[i].Id()
  {
    if |ps| == 0 then [] else [ps[0].Id()] + IdsOf(ps[1..])
  }

  predicate DistinctIds(ps: seq<Product>) {
    forall i, j :: 0 <= i < j < |ps| ==> ps[i].Id() != ps[j].Id()
  }

  /** The position of the first product with the id (`std::find_if`). */
  function IndexOfId(ps: seq<Product>, id: string): (r: nat)
    requires id in IdsOf(ps)
    ensures r < |ps| && ps[r].Id() == id
    ensures forall j :: 0 <= j < r ==> ps[j].Id() != id
  {
    if ps[0].Id() == id then 0
    else
      assert IdsOf(ps) == [ps[0].Id()] + IdsOf(ps[1..]);
      1 + IndexOfId(ps[1..], id)
  }

  lemma IndexOfIdFirst(ps: seq<Product>, id: string, i: nat)
    requires i < |ps| && ps[i].Id() == id
    requires forall j :: 0 <= j < i ==> ps[j].Id() != id
    ensures id in IdsOf(ps) && IndexOfId(ps, id) == i
  {
    assert IdsOf(ps)[i] == id;
  }

  /** The list with every product of the id removed (`remove_if` + `erase`). */
  function Without(ps: seq<Product>, id: string): (r: seq<Product>)
    ensures |r| <= |ps|
    ensures forall i :: 0 <= i < |r| ==> r[i] in ps && r[i].Id() != id
    ensures forall i :: 0 <= i < |ps| && ps[i].Id() != id ==> ps[i] in r
  {
    if |ps| == 0 then []
    else if ps[0].Id() == id then Without(ps[1..], id)
    else [ps[0]] + Without(ps[1..], id)
  }

  lemma {:induction false} WithoutAppend(ps: seq<Product>, p: Product, id: string)
    ensures Without(ps + [p], id) == Without(ps, id) + (if p.Id() == id then [] else [p])
    decreases |ps|
  {
    if |ps| == 0 {
      assert ps + [p] == [p];
    } else {
      assert (ps + [p])[1..] == ps[1..] + [p];
      WithoutAppend(ps[1..], p, id);
    }
  }

  lemma {:induction false} WithoutAbsent(ps: seq<Product>, id: string)
    requires |Without(ps, id)| == |ps|
    ensures id !in IdsOf(ps)
    decreases |ps|
  {
    if |ps| > 0 {
      WithoutAbsent(ps[1..], id);
      assert IdsOf(ps) == [ps[0].Id()] + IdsOf(ps[1..]);
    }
  }

  lemma {:induction false} WithoutPresent(ps: seq<Product>, id: string)
    requires |Without(ps, id)| < |ps|
    ensures id in IdsOf(ps)
    decreases |ps|
  {
    assert IdsOf(ps) == [ps[0].Id()] + IdsOf(ps[1..]);
    if ps[0].Id() != id {
      WithoutPresent(ps[1..], id);
    }
  }

  /** Removing entries keeps the ids of the rest distinct. */
  lemma {:induction false} WithoutKeepsDistinct(ps: seq<Product>, id: string)
    requires DistinctIds(ps)
    ensures DistinctIds(Without(ps, id))
    decreases |ps|
  {
    if |ps| > 0 {
      WithoutKeepsDistinct(ps[1..], id);
      if ps[0].Id() != id {
        var r := Without(ps, id);
        assert r == [ps[0]] + Without(ps[1..], id);
        forall i, j | 0 <= i < j < |r| ensures r[i].Id() != r[j].Id() {
          if i == 0 {
            assert r[j] in Without(ps[1..], id);
            var k :| 0 <= k < |ps[1..]| && ps[1..][k] == r[j];
            assert ps[k + 1] == r[j];
          }
        }
      }
    }
  }

  lemma WithoutKeepsValid(ps: seq<Product>, id: string)
    requires DistinctIds(ps)
    ensures DistinctIds(Without(ps, id))
    ensures forall i :: 0 <= i < |Without(ps, id)| ==> Without(ps, id)[i] in ps
  {
    WithoutKeepsDistinct(ps, id);
  }

  /** The medicines of a list whose active substance is the given one. */
  function WithSubstance(ps: seq<Product>, substance: string): (r: seq<Product>)
    ensures forall i :: 0 <= i < |r| ==> r[i] in ps && r[i].Substance() == substance
    ensures forall i :: 0 <= i < |ps| && ps[i].Substance() == substance ==> ps[i] in r
    ensures |r| <= |ps|
  {
    if |ps| == 0 then []
    else if ps[0].Substance() == substance then [ps[0]] + WithSubstance(ps[1..], substance)
    else WithSubstance(ps[1..], substance)
  }
}
