// The `;`-separated text forms of the products: `operator<<` and
// `operator>>` of MedicalProduct, Medicine, Tablet, Syrup and Ointment, and
// the conditions under which reading back what was written gives the same
// product. The expiry check takes the clock reading as a parameter.

module ProductCodecs {
  import opened Errors
  import opened Text
  import opened SafeDates
  import opened SafeInput
  import opened Products

  function YesNo(b: bool): string { if b then "Yes" else "No" }

  /** The handler of a `catch (PharmacyException&) { throw; }` followed by
      `catch (std::exception&)` that re-raises as InvalidProductData(field). */
  function Rethrow(e: Error, field: string): (r: Error)
    ensures r.IsPharmacyException()
    ensures e.IsPharmacyException() ==> r == e
  {
    if e.IsPharmacyException() then e else InvalidProductData(field)
  }

  // ---------------------------------------------------------------------
  // MedicalProduct

  function BaseFields(b: BaseInfo): (r: seq<string>)
    ensures |r| == 5
  {
    [b.id, b.name, RealToString(b.price), SafeDates.ToString(b.expiration), b.country]
  }

  /** `os << product`: `id;name;price;YYYY-MM-DD;country`. */
  function EncodeBase(b: BaseInfo): string { Join(BaseFields(b), ';') }

  /** The checks `operator>>` makes once all five fields are stored: expiry
      first, then the id rule, then non-empty name and country. */
  function ValidateBase(b: BaseInfo, now: Clock): (r: Outcome)
    ensures r.Pass? <==> !IsExpired(b.expiration, now) && IsProductId(b.id) && b.name != "" && b.country != ""
    ensures IsExpired(b.expiration, now) ==> r == Raise(ExpiredProduct(b.id))
    ensures !IsExpired(b.expiration, now) && !IsProductId(b.id) ==> r == Raise(InvalidProductData(b.id))
    ensures r.Raise? ==> r.error.IsPharmacyException()
  {
    if IsExpired(b.expiration, now) then Raise(ExpiredProduct(b.id))
    else if |b.id| < 3 then Raise(InvalidProductData(b.id))
    else if exists i :: 0 <= i < |b.id| && !IsIdChar(b.id[i]) then Raise(InvalidProductData(b.id))
    else if b.name == "" then Raise(InvalidProductData("Product name"))
    else if b.country == "" then Raise(InvalidProductData("Manufacturer country"))
    else Pass
  }

  /** `is >> product` on an existing `target`: the product after the call
      and how the call ended. Id and name are stored before the price is
      read, the price before the date is read, and date and country before
      any check, so a failure can leave the target partly overwritten. */
  function ParseBaseInto(target: BaseInfo, s: string, now: Clock): (r: (BaseInfo, Outcome))
    ensures |Split(LineOf(s), ';')| != 5 ==> r == (target, Raise(InvalidProductData("input")))
    ensures |Split(LineOf(s), ';')| == 5 ==>
              r.0.id == Split(LineOf(s), ';')[0] && r.0.name == Split(LineOf(s), ';')[1]
    ensures r.1.Raise? ==> r.1.error.IsPharmacyException()
    ensures r.1.Pass? ==> ValidateBase(r.0, now).Pass?
  {
    ParseBaseFields(target, Split(LineOf(s), ';'), now)
  }

  /** The same read once the line is split into its fields. */
  function ParseBaseFields(target: BaseInfo, tokens: seq<string>, now: Clock): (r: (BaseInfo, Outcome))
    ensures |tokens| != 5 ==> r == (target, Raise(InvalidProductData("input")))
    ensures |tokens| == 5 ==> r.0.id == tokens[0] && r.0.name == tokens[1]
    ensures r.1.Raise? ==> r.1.error.IsPharmacyException()
    ensures r.1.Pass? ==> ValidateBase(r.0, now).Pass?
  {
    if |tokens| != 5 then (target, Raise(InvalidProductData("input")))
    else
      var named := target.(id := tokens[0], name := tokens[1]);
      match ReadPositiveDouble(tokens[2], "Price")
      case Fail(e) => (named, Raise(Rethrow(e, "input data")))
      case Ok(price) => ParseBaseDate(named.(price := price), tokens[3], tokens[4], now)
  }

  /** The rest of the read once the price is stored: the date, then the
      country, then the checks. */
  function ParseBaseDate(priced: BaseInfo, dateText: string, country: string, now: Clock): (r: (BaseInfo, Outcome))
    ensures r.0.id == priced.id && r.0.name == priced.name && r.0.price == priced.price
    ensures r.1.Raise? ==> r.1.error.IsPharmacyException()
    ensures r.1.Pass? ==> ValidateBase(r.0, now).Pass? && r.0.country == country
  {
    match SafeDates.FromString(dateText)
    case Fail(e) => (priced, Raise(Rethrow(e, "input data")))
    case Ok(date) =>
      var full := priced.(expiration := date, country := country);
      (full, ValidateBase(full, now))
  }

  /** Reading into a default-constructed product. */
  function ParseBase(s: string, now: Clock): (r: Result<BaseInfo>)
    ensures r.Ok? ==> ValidateBase(r.value, now).Pass?
    ensures r.Fail? ==> r.error.IsPharmacyException()
  {
    var (b, o) := ParseBaseInto(DefaultBase, s, now);
    if o.Raise? then Fail(o.error) else Ok(b)
  }

  /** A successful read does not depend on what the target held before. */
  lemma {:induction false} ParseBaseIntoAnyTarget(t1: BaseInfo, t2: BaseInfo, s: string, now: Clock)
    requires ParseBaseInto(t1, s, now).1.Pass?
    ensures ParseBaseInto(t2, s, now) == ParseBaseInto(t1, s, now)
  {
  }

  // ---------------------------------------------------------------------
  // Medicine

  /** What `operator>>` of Medicine reads; the form fields are skipped. */
  datatype MedicineHead = MedicineHead(base: BaseInfo, prescription: bool, substance: string, instructions: string)

  /** `os << medicine`: the five product fields, then the prescription flag,
      substance, instructions, dosage form and administration method. */
  function MedicineFields(b: BaseInfo, m: MedInfo): (r: seq<string>)
    ensures |r| == 10 && r[..5] == BaseFields(b)
  {
    BaseFields(b) + [YesNo(m.prescription), m.substance, m.instructions,
                     DosageForm(m.form), AdministrationMethod(m.form)]
  }

  /** `is >> medicine`: at least ten fields, the first five re-joined and read
      as a MedicalProduct, then the flag, substance and instructions. Fields
      8 and 9 are ignored. The analogue list is emptied on success, which a
      freshly built Product already is. */
  function ParseMedicine(s: string, now: Clock): (r: Result<MedicineHead>)
    ensures r.Ok? ==> ValidateBase(r.value.base, now).Pass? && r.value.substance != "" && r.value.instructions != ""
    ensures |Split(LineOf(s), ';')| < 10 ==> r == Fail(InvalidProductData("medicine data"))
    ensures r.Fail? ==> r.error.IsPharmacyException()
  {
    var tokens := Split(LineOf(s), ';');
    if |tokens| < 10 then Fail(InvalidProductData("medicine data"))
    else
      var r := MedicineFromTokens(tokens, now);
      if r.Fail? then Fail(Rethrow(r.error, "medicine data")) else r
  }

  function MedicineFromTokens(tokens: seq<string>, now: Clock): (r: Result<MedicineHead>)
    requires |tokens| >= 10
    ensures r.Ok? ==> ValidateBase(r.value.base, now).Pass? && r.value.substance != "" && r.value.instructions != ""
  {
    var base :- ParseBase(Join(tokens[..5], ';'), now);
    var prescription :- ReadBoolean(tokens[5], "Prescription status");
    if tokens[6] == "" then Fail(InvalidProductData("Active substance"))
    else if tokens[7] == "" then Fail(InvalidProductData("Instructions"))
    else Ok(MedicineHead(base, prescription, tokens[6], tokens[7]))
  }

  function WithForm(h: MedicineHead, f: Form): ProductData {
    ProductData(h.base, Some(MedInfo(h.prescription, h.substance, h.instructions, f)))
  }

  // ---------------------------------------------------------------------
  // Tablet, Syrup, Ointment

  /** The type marker a form's `operator<<` writes first. */
  function Marker(f: Form): (r: string)
    ensures |r| > 0 && r[|r| - 1] == ';'
  {
    match f
    case Tablet(_, _, _) => "[TABLET];"
    case Syrup(_, _, _) => "[SYRUP];"
    case Ointment(_, _) => "[OINTMENT];"
  }

  function FormFields(f: Form): (r: seq<string>)
    ensures |r| == (if f.Ointment? then 2 else 3)
  {
    match f
    case Tablet(units, dosage, coating) => [IntToString(units), RealToString(dosage) + " mg", coating]
    case Syrup(volume, sugar, flavor) => [RealToString(volume) + " ml", YesNo(sugar), flavor]
    case Ointment(weight, baseType) => [RealToString(weight) + " g", baseType]
  }

  /** A medicine's fields after the marker. */
  function Fields(b: BaseInfo, m: MedInfo): (r: seq<string>)
    ensures |r| == (if m.form.Ointment? then 12 else 13)
    ensures r[..10] == MedicineFields(b, m)
  {
    MedicineFields(b, m) + FormFields(m.form)
  }

  /** `os << tablet` (and syrup, ointment); a product that is not a medicine
      is written by `operator<<` of MedicalProduct. */
  function Encode(d: ProductData): (r: string)
    ensures d.med.None? && BasePlain(d.base) ==> LineOf(r) == r && Split(r, ';') == BaseFields(d.base)
    ensures d.med.Some? && MedicinePlain(d.base, d.med.value) ==>
              |Marker(d.med.value.form)| <= |r| && Split(r[|Marker(d.med.value.form)|..], ';') == Fields(d.base, d.med.value)
  {
    match d.med
    case None =>
      if BasePlain(d.base) then BaseFieldsPlain(d.base); LineSplits(BaseFields(d.base)); EncodeBase(d.base)
      else EncodeBase(d.base)
    case Some(m) =>
      var text := Join(Fields(d.base, m), ';');
      assert (Marker(m.form) + text)[|Marker(m.form)|..] == text;
      if MedicinePlain(d.base, m) then FieldsSplit(d.base, m); Marker(m.form) + text
      else Marker(m.form) + text
  }

  /** `n` successive `std::getline(is, token, ';')`, or None when the input
      ends first. */
  function TakeFields(s: string, n: nat): (r: Option<seq<string>>)
    ensures r.Some? <==> |Split(s, ';')| >= n
    ensures r.Some? ==> r.value == Split(s, ';')[..n]
  {
    var all := Split(s, ';');
    if |all| < n then None else Some(all[..n])
  }

  /** The facts every successful form parse establishes. */
  predicate ParsedMedicine(d: ProductData, now: Clock) {
    d.med.Some? && ValidateBase(d.base, now).Pass?
    && d.med.value.substance != "" && d.med.value.instructions != ""
  }

  /** `is >> tablet`: 13 fields, the first ten read as a Medicine, then a
      positive unit count, a positive dosage before " mg" and a non-empty
      coating. A number `stod` cannot read is reported as "dosage". */
  function ParseTablet(s: string, now: Clock): (r: Result<ProductData>)
    ensures TakeFields(s, 13).None? ==> r == Fail(InvalidProductData("tablet data"))
    ensures r.Ok? ==> ParsedMedicine(r.value, now) && r.value.med.value.form.Tablet?
    ensures r.Ok? ==> var f := r.value.med.value.form; f.units > 0 && f.dosageMg > 0.0 && f.coating != ""
    ensures r.Fail? ==> r.error.IsPharmacyException()
  {
    match TakeFields(s, 13)
    case None => Fail(InvalidProductData("tablet data"))
    case Some(tokens) =>
      var r := TabletFromTokens(tokens, now);
      if r.Ok? then r
      else if r.error == InvalidArgument then Fail(InvalidProductData("dosage"))
      else Fail(Rethrow(r.error, "tablet data"))
  }

  function TabletFromTokens(tokens: seq<string>, now: Clock): (r: Result<ProductData>)
    requires |tokens| == 13
    ensures r.Ok? ==> ParsedMedicine(r.value, now) && r.value.med.value.form.Tablet?
    ensures r.Ok? ==> var f := r.value.med.value.form; f.units > 0 && f.dosageMg > 0.0 && f.coating != ""
  {
    var head :- ParseMedicine(Join(tokens[..10], ';'), now);
    var units :- ReadPositiveInt(tokens[10], "Units per package");
    var dosage :- Stod(BeforeUnit(tokens[11], " mg"));
    if dosage <= 0.0 then Fail(InvalidProductData("Dosage"))
    else if tokens[12] == "" then Fail(InvalidProductData("Coating"))
    else Ok(WithForm(head, Tablet(units, dosage, tokens[12])))
  }

  /** `is >> syrup`: 13 fields, then a positive volume before " ml", the
      sugar flag and a non-empty flavour. There is no upper bound on the
      volume here, unlike the constructor's. */
  function ParseSyrup(s: string, now: Clock): (r: Result<ProductData>)
    ensures TakeFields(s, 13).None? ==> r == Fail(InvalidProductData("syrup data"))
    ensures r.Ok? ==> ParsedMedicine(r.value, now) && r.value.med.value.form.Syrup?
    ensures r.Ok? ==> var f := r.value.med.value.form; f.volumeMl > 0.0 && f.flavor != ""
    ensures r.Fail? ==> r.error.IsPharmacyException()
  {
    match TakeFields(s, 13)
    case None => Fail(InvalidProductData("syrup data"))
    case Some(tokens) =>
      var r := SyrupFromTokens(tokens, now);
      if r.Ok? then r
      else if r.error == InvalidArgument then Fail(InvalidProductData("volume"))
      else Fail(Rethrow(r.error, "syrup data"))
  }

  function SyrupFromTokens(tokens: seq<string>, now: Clock): (r: Result<ProductData>)
    requires |tokens| == 13
    ensures r.Ok? ==> ParsedMedicine(r.value, now) && r.value.med.value.form.Syrup?
    ensures r.Ok? ==> var f := r.value.med.value.form; f.volumeMl > 0.0 && f.flavor != ""
  {
    var head :- ParseMedicine(Join(tokens[..10], ';'), now);
    var volume :- Stod(BeforeUnit(tokens[10], " ml"));
    if volume <= 0.0 then Fail(InvalidProductData("Volume"))
    else
      var sugar :- ReadBoolean(tokens[11], "Contains sugar");
      if tokens[12] == "" then Fail(InvalidProductData("Flavor"))
      else Ok(WithForm(head, Syrup(volume, sugar, tokens[12])))
  }

  /** `is >> ointment`: 12 fields, then a positive weight before " g" and a
      non-empty base type; no upper bound on the weight. */
  function ParseOintment(s: string, now: Clock): (r: Result<ProductData>)
    ensures TakeFields(s, 12).None? ==> r == Fail(InvalidProductData("ointment data"))
    ensures r.Ok? ==> ParsedMedicine(r.value, now) && r.value.med.value.form.Ointment?
    ensures r.Ok? ==> var f := r.value.med.value.form; f.weightG > 0.0 && f.baseType != ""
    ensures r.Fail? ==> r.error.IsPharmacyException()
  {
    match TakeFields(s, 12)
    case None => Fail(InvalidProductData("ointment data"))
    case Some(tokens) =>
      var r := OintmentFromTokens(tokens, now);
      if r.Ok? then r
      else if r.error == InvalidArgument then Fail(InvalidProductData("weight"))
      else Fail(Rethrow(r.error, "ointment data"))
  }

  function OintmentFromTokens(tokens: seq<string>, now: Clock): (r: Result<ProductData>)
    requires |tokens| == 12
    ensures r.Ok? ==> ParsedMedicine(r.value, now) && r.value.med.value.form.Ointment?
    ensures r.Ok? ==> var f := r.value.med.value.form; f.weightG > 0.0 && f.baseType != ""
  {
    var head :- ParseMedicine(Join(tokens[..10], ';'), now);
    var weight :- Stod(BeforeUnit(tokens[10], " g"));
    if weight <= 0.0 then Fail(InvalidProductData("weight"))
    else if tokens[11] == "" then Fail(InvalidProductData("Base type"))
    else Ok(WithForm(head, Ointment(weight, tokens[11])))
  }

  /** The parser for a form's fields after its marker. */
  function ParseForm(f: Form, s: string, now: Clock): Result<ProductData> {
    match f
    case Tablet(_, _, _) => ParseTablet(s, now)
    case Syrup(_, _, _) => ParseSyrup(s, now)
    case Ointment(_, _) => ParseOintment(s, now)
  }

  // ---------------------------------------------------------------------
  // Round trips

  /** Text a field can hold and still be read back as itself. */
  predicate PlainText(s: string) { s != "" && ';' !in s && '\n' !in s }

  /** A whole number that `<<` writes in full and `>>` reads back: below a
      million, six significant digits hold every digit. */
  predicate WholeNonNeg(x: real) { 0.0 <= x < 1000000.0 && IsIntegral(x) }

  /** The products whose fields `<<` writes so that they split back apart:
      a valid id, plain text fields and a whole-number price. */
  predicate BasePlain(b: BaseInfo) {
    IsProductId(b.id) && PlainText(b.name) && PlainText(b.country) && WholeNonNeg(b.price)
  }

  /** The products whose text form reads back as themselves at clock `now`:
      plain fields and a date not yet expired. */
  predicate BaseRoundTrips(b: BaseInfo, now: Clock) {
    BasePlain(b) && !IsExpired(b.expiration, now)
  }

  predicate FormRoundTrips(f: Form) {
    match f
    case Tablet(units, dosage, coating) => units > 0 && WholeNonNeg(dosage) && dosage > 0.0 && PlainText(coating)
    case Syrup(volume, _, flavor) => WholeNonNeg(volume) && volume > 0.0 && PlainText(flavor)
    case Ointment(weight, baseType) => WholeNonNeg(weight) && weight > 0.0 && PlainText(baseType)
  }

  predicate MedicinePlain(b: BaseInfo, m: MedInfo) {
    BasePlain(b) && PlainText(m.substance) && PlainText(m.instructions) && FormRoundTrips(m.form)
  }

  predicate MedicineRoundTrips(b: BaseInfo, m: MedInfo, now: Clock) {
    MedicinePlain(b, m) && !IsExpired(b.expiration, now)
  }

  lemma DigitsPlain(s: string)
    requires AllDigits(s)
    ensures ';' !in s && '\n' !in s && ' ' !in s
  {
  }

  lemma {:induction false} WholeText(x: real)
    requires WholeNonNeg(x)
    ensures RealToString(x) == NatToString(x.Floor) && AllDigits(RealToString(x))
    ensures ScanReal(RealToString(x)) == Some((x, ""))
    ensures ExtractReal(RealToString(x)) == Some((x, ""))
  {
    var n := x.Floor;
    assert x == n as real;
    NonNegRealToStringIntegral(n);
    ScanRealOfIntegral(n);
  }

  /** A whole number below a million is written with digits only. */
  lemma {:induction false} WholePlain(x: real)
    requires WholeNonNeg(x)
    ensures ';' !in RealToString(x) && '\n' !in RealToString(x) && ' ' !in RealToString(x)
  {
    var n := x.Floor;
    assert x == n as real;
    NonNegRealToStringIntegral(n);
    DigitsPlain(NatToString(n));
  }

  lemma {:induction false} DateTextPlain(d: SafeDate)
    ensures ';' !in SafeDates.ToString(d) && '\n' !in SafeDates.ToString(d)
  {
    DigitsPlain(NatToString(d.year as nat));
    DigitsPlain(Pad2(d.month as nat));
    DigitsPlain(Pad2(d.day as nat));
  }

  lemma {:induction false} IdPlain(id: string)
    requires IsProductId(id)
    ensures PlainText(id)
  {
    forall i | 0 <= i < |id| ensures id[i] != ';' && id[i] != '\n' {
      assert IsIdChar(id[i]);
    }
  }

  lemma {:induction false} BaseFieldsPlain(b: BaseInfo)
    requires BasePlain(b)
    ensures NoSep(BaseFields(b), ';') && NoSep(BaseFields(b), '\n')
  {
    IdPlain(b.id);
    WholePlain(b.price);
    DateTextPlain(b.expiration);
    var fields := BaseFields(b);
    forall i | 0 <= i < 5 ensures ';' !in fields[i] && '\n' !in fields[i] {
    }
  }

  /** A joined line of plain fields is one line that splits back into them. */
  lemma {:induction false} LineSplits(fields: seq<string>)
    requires |fields| > 0 && fields[|fields| - 1] != ""
    requires NoSep(fields, ';') && NoSep(fields, '\n')
    ensures LineOf(Join(fields, ';')) == Join(fields, ';')
    ensures Split(LineOf(Join(fields, ';')), ';') == fields
  {
    JoinHasNoChar(fields, ';', '\n');
    LineOfLine(Join(fields, ';'));
    SplitJoin(fields, ';');
  }

  lemma {:induction false} ValidateBaseOk(b: BaseInfo, now: Clock)
    requires BaseRoundTrips(b, now)
    ensures ValidateBase(b, now) == Pass
  {
  }

  lemma {:induction false} NumberReads(x: real, field: string)
    requires WholeNonNeg(x)
    ensures ReadPositiveDouble(RealToString(x), field) == Ok(x)
    ensures Stod(RealToString(x)) == Ok(x)
  {
    WholeText(x);
  }

  lemma {:induction false} ParseBaseSteps(target: BaseInfo, tokens: seq<string>, now: Clock, b: BaseInfo)
    requires |tokens| == 5 && tokens[0] == b.id && tokens[1] == b.name && tokens[4] == b.country
    requires ReadPositiveDouble(tokens[2], "Price") == Ok(b.price)
    requires SafeDates.FromString(tokens[3]) == Result<Date>.Ok(b.expiration)
    requires ValidateBase(b, now) == Pass
    ensures ParseBaseFields(target, tokens, now) == (b, Pass)
  {
    ParseBaseDateSteps(target.(id := b.id, name := b.name).(price := b.price), tokens[3], tokens[4], now, b);
  }

  lemma {:induction false} ParseBaseDateSteps(priced: BaseInfo, dateText: string, country: string, now: Clock, b: BaseInfo)
    requires priced.id == b.id && priced.name == b.name && priced.price == b.price && country == b.country
    requires SafeDates.FromString(dateText) == Result<Date>.Ok(b.expiration)
    requires ValidateBase(b, now) == Pass
    ensures ParseBaseDate(priced, dateText, country, now) == (b, Pass)
  {
    assert priced.(expiration := b.expiration, country := country) == b;
  }

  /** The five fields of a product read back into it. */
  lemma {:induction false} BaseTokensRead(b: BaseInfo, tokens: seq<string>)
    requires tokens == BaseFields(b) && WholeNonNeg(b.price)
    ensures |tokens| == 5 && tokens[0] == b.id && tokens[1] == b.name && tokens[4] == b.country
    ensures ReadPositiveDouble(tokens[2], "Price") == Ok(b.price)
    ensures SafeDates.FromString(tokens[3]) == Result<Date>.Ok(b.expiration)
  {
    assert tokens[2] == RealToString(b.price) && tokens[3] == SafeDates.ToString(b.expiration);
    NumberReads(b.price, "Price");
    FromStringToString(b.expiration);
  }

  lemma {:induction false} ParseBaseOfFields(b: BaseInfo, s: string, now: Clock)
    requires BaseRoundTrips(b, now)
    requires Split(LineOf(s), ';') == BaseFields(b)
    ensures forall target :: ParseBaseInto(target, s, now) == (b, Pass)
  {
    BaseTokensRead(b, Split(LineOf(s), ';'));
    ValidateBaseOk(b, now);
    forall target
      ensures ParseBaseInto(target, s, now) == (b, Pass)
    {
      ParseBaseSteps(target, Split(LineOf(s), ';'), now, b);
    }
  }

  /** Reading back what `operator<<` of MedicalProduct wrote restores every
      field, whatever the target held. */
  lemma {:induction false} BaseRoundTrip(b: BaseInfo, now: Clock)
    requires BaseRoundTrips(b, now)
    ensures forall target :: ParseBaseInto(target, EncodeBase(b), now) == (b, Pass)
  {
    BaseFieldsPlain(b);
    LineSplits(BaseFields(b));
    ParseBaseOfFields(b, EncodeBase(b), now);
  }

  lemma {:induction false} ParseBaseRoundTrip(b: BaseInfo, now: Clock)
    requires BaseRoundTrips(b, now)
    ensures ParseBase(EncodeBase(b), now) == Ok(b)
  {
    BaseRoundTrip(b, now);
    assert ParseBaseInto(DefaultBase, EncodeBase(b), now) == (b, Pass);
  }

  lemma {:induction false} MedicineFieldsPlain(b: BaseInfo, m: MedInfo)
    requires MedicinePlain(b, m)
    ensures NoSep(MedicineFields(b, m), ';') && NoSep(MedicineFields(b, m), '\n')
  {
    BaseFieldsPlain(b);
    var fields := MedicineFields(b, m);
    var base := BaseFields(b);
    forall i | 0 <= i < 10 ensures ';' !in fields[i] && '\n' !in fields[i] {
      if i < 5 {
        assert fields[i] == base[i];
      }
    }
  }

  lemma {:induction false} MedicineFromFields(b: BaseInfo, m: MedInfo, tokens: seq<string>, now: Clock)
    requires BaseRoundTrips(b, now) && m.substance != "" && m.instructions != ""
    requires |tokens| >= 10 && tokens[..10] == MedicineFields(b, m)
    ensures MedicineFromTokens(tokens, now) == Ok(MedicineHead(b, m.prescription, m.substance, m.instructions))
  {
    var fields := MedicineFields(b, m);
    assert tokens[..5] == fields[..5] == BaseFields(b);
    assert tokens[5] == fields[5] == YesNo(m.prescription);
    assert tokens[6] == fields[6] && tokens[7] == fields[7];
    ParseBaseRoundTrip(b, now);
    ReadBooleanYesNo(m.prescription, "Prescription status");
    MedicineSteps(b, m, tokens, now);
  }

  lemma {:induction false} MedicineSteps(b: BaseInfo, m: MedInfo, tokens: seq<string>, now: Clock)
    requires |tokens| >= 10
    requires ParseBase(Join(tokens[..5], ';'), now) == Ok(b)
    requires ReadBoolean(tokens[5], "Prescription status") == Ok(m.prescription)
    requires tokens[6] == m.substance != "" && tokens[7] == m.instructions != ""
    ensures MedicineFromTokens(tokens, now) == Ok(MedicineHead(b, m.prescription, m.substance, m.instructions))
  {
  }

  /** Reading back what `operator<<` of Medicine wrote restores the product
      fields, the flag, the substance and the instructions. */
  lemma {:induction false} MedicineRoundTrip(b: BaseInfo, m: MedInfo, now: Clock)
    requires MedicineRoundTrips(b, m, now)
    ensures ParseMedicine(Join(MedicineFields(b, m), ';'), now)
            == Ok(MedicineHead(b, m.prescription, m.substance, m.instructions))
  {
    MedicineFieldsPlain(b, m);
    LineSplits(MedicineFields(b, m));
    MedicineFromFields(b, m, MedicineFields(b, m), now);
  }

  lemma {:induction false} FormFieldsPlain(f: Form)
    requires FormRoundTrips(f)
    ensures NoSep(FormFields(f), ';') && NoSep(FormFields(f), '\n')
  {
    match f
    case Tablet(units, dosage, coating) =>
      DigitsPlain(NatToString(units as nat));
      assert IntToString(units) == NatToString(units as nat);
      NumberPlain(dosage, " mg");
      var fields := FormFields(f);
      forall i | 0 <= i < 3 ensures ';' !in fields[i] && '\n' !in fields[i] {
      }
    case Syrup(volume, _, _) =>
      NumberPlain(volume, " ml");
      var fields := FormFields(f);
      forall i | 0 <= i < 3 ensures ';' !in fields[i] && '\n' !in fields[i] {
      }
    case Ointment(weight, _) =>
      NumberPlain(weight, " g");
      var fields := FormFields(f);
      forall i | 0 <= i < 2 ensures ';' !in fields[i] && '\n' !in fields[i] {
      }
  }

  lemma {:induction false} NumberPlain(x: real, unit: string)
    requires WholeNonNeg(x) && PlainText(unit)
    ensures PlainText(RealToString(x) + unit)
  {
    WholePlain(x);
  }

  lemma NoSepAppend(a: seq<string>, b: seq<string>, c: char)
    requires NoSep(a, c) && NoSep(b, c)
    ensures NoSep(a + b, c)
  {
  }

  lemma {:induction false} FieldsPlain(b: BaseInfo, m: MedInfo)
    requires MedicinePlain(b, m)
    ensures NoSep(Fields(b, m), ';') && NoSep(Fields(b, m), '\n')
  {
    MedicineFieldsPlain(b, m);
    FormFieldsPlain(m.form);
    NoSepAppend(MedicineFields(b, m), FormFields(m.form), ';');
    NoSepAppend(MedicineFields(b, m), FormFields(m.form), '\n');
  }

  /** The fields of a form's text read back as themselves. */
  lemma {:induction false} FieldsSplit(b: BaseInfo, m: MedInfo)
    requires MedicinePlain(b, m)
    ensures Split(Join(Fields(b, m), ';'), ';') == Fields(b, m)
    ensures LineOf(Join(MedicineFields(b, m), ';')) == Join(MedicineFields(b, m), ';')
    ensures Split(Join(MedicineFields(b, m), ';'), ';') == MedicineFields(b, m)
  {
    FieldsPlain(b, m);
    SplitJoin(Fields(b, m), ';');
    MedicineFieldsPlain(b, m);
    LineSplits(MedicineFields(b, m));
  }

  lemma {:induction false} TakeAllFields(b: BaseInfo, m: MedInfo, now: Clock)
    requires MedicineRoundTrips(b, m, now)
    ensures TakeFields(Join(Fields(b, m), ';'), |Fields(b, m)|) == Some(Fields(b, m))
  {
    FieldsSplit(b, m);
    var tokens := Fields(b, m);
    assert Split(Join(tokens, ';'), ';')[..|tokens|] == tokens;
  }

  lemma FormTokens(b: BaseInfo, m: MedInfo)
    ensures Fields(b, m)[10..] == FormFields(m.form)
  {
  }

  /** A whole number written with a unit reads back before the unit. */
  lemma {:induction false} NumberUnitReads(x: real, unit: string)
    requires WholeNonNeg(x) && |unit| > 0 && unit[0] == ' '
    ensures Stod(BeforeUnit(RealToString(x) + unit, unit)) == Ok(x)
  {
    WholeText(x);
    DigitsPlain(RealToString(x));
    BeforeUnitOf(RealToString(x), unit);
    NumberReads(x, "");
  }

  lemma {:induction false} TabletTokens(b: BaseInfo, m: MedInfo)
    requires FormRoundTrips(m.form) && m.form.Tablet?
    ensures ReadPositiveInt(Fields(b, m)[10], "Units per package") == Ok(m.form.units)
    ensures Stod(BeforeUnit(Fields(b, m)[11], " mg")) == Ok(m.form.dosageMg)
  {
    var f := m.form;
    FormTokens(b, m);
    assert Fields(b, m)[10] == IntToString(f.units) + "";
    ReadIntOfString(f.units, "");
    NumberUnitReads(f.dosageMg, " mg");
  }

  lemma {:induction false} SyrupTokens(b: BaseInfo, m: MedInfo)
    requires FormRoundTrips(m.form) && m.form.Syrup?
    ensures Stod(BeforeUnit(Fields(b, m)[10], " ml")) == Ok(m.form.volumeMl)
    ensures ReadBoolean(Fields(b, m)[11], "Contains sugar") == Ok(m.form.hasSugar)
  {
    FormTokens(b, m);
    NumberUnitReads(m.form.volumeMl, " ml");
    ReadBooleanYesNo(m.form.hasSugar, "Contains sugar");
  }

  lemma {:induction false} OintmentTokens(b: BaseInfo, m: MedInfo)
    requires FormRoundTrips(m.form) && m.form.Ointment?
    ensures Stod(BeforeUnit(Fields(b, m)[10], " g")) == Ok(m.form.weightG)
  {
    FormTokens(b, m);
    NumberUnitReads(m.form.weightG, " g");
  }

  lemma {:induction false} TabletSteps(h: MedicineHead, tokens: seq<string>, now: Clock, f: Form)
    requires |tokens| == 13 && f.Tablet?
    requires ParseMedicine(Join(tokens[..10], ';'), now) == Ok(h)
    requires ReadPositiveInt(tokens[10], "Units per package") == Ok(f.units)
    requires Stod(BeforeUnit(tokens[11], " mg")) == Ok(f.dosageMg) && f.dosageMg > 0.0
    requires tokens[12] == f.coating != ""
    ensures TabletFromTokens(tokens, now) == Ok(WithForm(h, f))
  {
  }

  lemma {:induction false} TabletRoundTrip(b: BaseInfo, m: MedInfo, now: Clock)
    requires MedicineRoundTrips(b, m, now) && m.form.Tablet?
    ensures ParseTablet(Join(Fields(b, m), ';'), now) == Ok(ProductData(b, Some(m)))
  {
    var f := m.form;
    var tokens := Fields(b, m);
    var h := MedicineHead(b, m.prescription, m.substance, m.instructions);
    assert TakeFields(Join(tokens, ';'), 13) == Some(tokens) by {
      TakeAllFields(b, m, now);
    }
    assert ParseMedicine(Join(tokens[..10], ';'), now) == Ok(h) by {
      MedicineRoundTrip(b, m, now);
    }
    TabletTokens(b, m);
    TabletSteps(h, tokens, now, f);
  }

  lemma {:induction false} SyrupSteps(h: MedicineHead, tokens: seq<string>, now: Clock, f: Form)
    requires |tokens| == 13 && f.Syrup?
    requires ParseMedicine(Join(tokens[..10], ';'), now) == Ok(h)
    requires Stod(BeforeUnit(tokens[10], " ml")) == Ok(f.volumeMl) && f.volumeMl > 0.0
    requires ReadBoolean(tokens[11], "Contains sugar") == Ok(f.hasSugar)
    requires tokens[12] == f.flavor != ""
    ensures SyrupFromTokens(tokens, now) == Ok(WithForm(h, f))
  {
  }

  lemma {:induction false} SyrupRoundTrip(b: BaseInfo, m: MedInfo, now: Clock)
    requires MedicineRoundTrips(b, m, now) && m.form.Syrup?
    ensures ParseSyrup(Join(Fields(b, m), ';'), now) == Ok(ProductData(b, Some(m)))
  {
    var f := m.form;
    var tokens := Fields(b, m);
    var h := MedicineHead(b, m.prescription, m.substance, m.instructions);
    assert TakeFields(Join(tokens, ';'), 13) == Some(tokens) by {
      TakeAllFields(b, m, now);
    }
    assert ParseMedicine(Join(tokens[..10], ';'), now) == Ok(h) by {
      MedicineRoundTrip(b, m, now);
    }
    SyrupTokens(b, m);
    SyrupSteps(h, tokens, now, f);
  }

  lemma {:induction false} OintmentSteps(h: MedicineHead, tokens: seq<string>, now: Clock, f: Form)
    requires |tokens| == 12 && f.Ointment?
    requires ParseMedicine(Join(tokens[..10], ';'), now) == Ok(h)
    requires Stod(BeforeUnit(tokens[10], " g")) == Ok(f.weightG) && f.weightG > 0.0
    requires tokens[11] == f.baseType != ""
    ensures OintmentFromTokens(tokens, now) == Ok(WithForm(h, f))
  {
  }

  lemma {:induction false} OintmentRoundTrip(b: BaseInfo, m: MedInfo, now: Clock)
    requires MedicineRoundTrips(b, m, now) && m.form.Ointment?
    ensures ParseOintment(Join(Fields(b, m), ';'), now) == Ok(ProductData(b, Some(m)))
  {
    var f := m.form;
    var tokens := Fields(b, m);
    var h := MedicineHead(b, m.prescription, m.substance, m.instructions);
    assert TakeFields(Join(tokens, ';'), 12) == Some(tokens) by {
      TakeAllFields(b, m, now);
    }
    assert ParseMedicine(Join(tokens[..10], ';'), now) == Ok(h) by {
      MedicineRoundTrip(b, m, now);
    }
    OintmentTokens(b, m);
    OintmentSteps(h, tokens, now, f);
  }

  /** Whatever its form, a medicine's text after the marker reads back as the
      same medicine. */
  lemma {:induction false} FormRoundTrip(b: BaseInfo, m: MedInfo, now: Clock)
    requires MedicineRoundTrips(b, m, now)
    ensures ParseForm(m.form, Join(Fields(b, m), ';'), now) == Ok(ProductData(b, Some(m)))
  {
    match m.form
    case Tablet(_, _, _) => TabletRoundTrip(b, m, now);
    case Syrup(_, _, _) => SyrupRoundTrip(b, m, now);
    case Ointment(_, _) => OintmentRoundTrip(b, m, now);
  }

  /** The parser does not enforce the constructor's 1000 ml limit: a syrup the
      constructor refuses can be loaded from text. */
  lemma {:induction false} SyrupParseSkipsVolumeLimit(b: BaseInfo, m: MedInfo, now: Clock, v: Validators)
    requires MedicineRoundTrips(b, m, now) && m.form.Syrup? && m.form.volumeMl > 1000.0
    ensures ParseSyrup(Join(Fields(b, m), ';'), now) == Ok(ProductData(b, Some(m)))
    ensures CheckProduct(ProductData(b, Some(m)), v).Raise?
  {
    SyrupRoundTrip(b, m, now);
    CheckProductAccepts(ProductData(b, Some(m)), v);
  }
}
