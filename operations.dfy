// Inventory operations: Return, Supply and WriteOff. Each has the common
// InventoryOperation fields, a status that `process()` moves to "completed" at
// most once, and a `;`-separated line form.

module Operations {
  import opened Errors
  import opened Text
  import opened SafeDates
  import opened SafeInput
  import opened Products
  import opened ProductCodecs

  /** The fields of each kind of operation beyond the common ones. */
  datatype Details =
    | ReturnReason(reason: string)
    | SupplyRoute(source: string, destination: string)
    | WriteOffReason(writeOffReason: string)

  /** The common fields; the product is represented by its id, the only
      thing of it an operation reads. */
  datatype OpBase = OpBase(id: string, date: SafeDate, productId: string, quantity: Int32, status: string)

  datatype OpRecord = OpRecord(base: OpBase, details: Details)

  /** The status an operation is created with when none is given. */
  const Pending := "pending"

  /** The details of a default-constructed operation of the same kind. */
  function EmptyDetails(d: Details): (r: Details)
    ensures SameKind(r, d)
  {
    match d
    case ReturnReason(_) => ReturnReason("")
    case SupplyRoute(_, _) => SupplyRoute("", "")
    case WriteOffReason(_) => WriteOffReason("")
  }

  predicate SameKind(a: Details, b: Details) {
    (a.ReturnReason? && b.ReturnReason?) || (a.SupplyRoute? && b.SupplyRoute?)
    || (a.WriteOffReason? && b.WriteOffReason?)
  }

  /** A default-constructed operation: no id, 2000-01-01, quantity zero,
      "pending". Its null product is represented by the empty id. */
  function DefaultRecord(kind: Details): (r: OpRecord)
    ensures SameKind(r.details, kind) && r.base.status == Pending
  {
    OpRecord(OpBase("", Date(2000, 1, 1), "", 0, Pending), EmptyDetails(kind))
  }

  /** `getOperationType`. */
  function OperationType(d: Details): (r: string)
    ensures r == "Return" <==> d.ReturnReason?
    ensures r == "Supply" <==> d.SupplyRoute?
    ensures r == "WriteOff" <==> d.WriteOffReason?
  {
    match d
    case ReturnReason(_) => "Return"
    case SupplyRoute(_, _) => "Supply"
    case WriteOffReason(_) => "WriteOff"
  }

  // ---------------------------------------------------------------------
  // Construction and processing

  /** The constructors' checks: the InventoryOperation ones (id, product,
      quantity, status) and then those of the kind. */
  function CheckNew(id: string, hasProduct: bool, quantity: Int32, status: string, d: Details): (r: Outcome)
    ensures r.Pass? <==> id != "" && hasProduct && quantity > 0 && status != "" && DetailsFilled(d)
    ensures id != "" && hasProduct && quantity <= 0 ==> r == Raise(NegativeQuantity(quantity))
    ensures r.Raise? && !(id != "" && hasProduct && quantity <= 0) ==> r == Raise(InventoryError)
  {
    if id == "" then Raise(InventoryError)
    else if !hasProduct then Raise(InventoryError)
    else if quantity <= 0 then Raise(NegativeQuantity(quantity))
    else if status == "" then Raise(InventoryError)
    else if !DetailsFilled(d) then Raise(InventoryError)
    else Pass
  }

  /** The detail fields a constructor and a parser insist on. */
  predicate DetailsFilled(d: Details) {
    match d
    case ReturnReason(reason) => reason != ""
    case SupplyRoute(source, destination) => source != "" && destination != ""
    case WriteOffReason(reason) => reason != ""
  }

  /** How `process()` ends: a completed or cancelled operation is an
      InventoryException; Supply and WriteOff also refuse a non-positive
      quantity; Return checks nothing else and touches no stock. */
  function ProcessOutcome(status: string, quantity: int, d: Details): (r: Outcome)
    ensures r.Pass? <==> status != "completed" && status != "cancelled" && (d.ReturnReason? || quantity > 0)
    ensures status == "completed" || status == "cancelled" ==> r == Raise(InventoryError)
    ensures r.Raise? && status != "completed" && status != "cancelled" ==> r == Raise(NegativeQuantity(quantity))
  {
    if status == "completed" then Raise(InventoryError)
    else if status == "cancelled" then Raise(InventoryError)
    else if !d.ReturnReason? && quantity <= 0 then Raise(NegativeQuantity(quantity))
    else Pass
  }

  /** After one successful `process()`, which leaves "completed", a second
      one fails. */
  lemma ProcessAtMostOnce(status: string, quantity: int, d: Details)
    ensures ProcessOutcome(status, quantity, d).Pass? ==> ProcessOutcome("completed", quantity, d).Raise?
  {
  }

  /** A Return is processed from any status but the two final ones,
      whatever its quantity. */
  lemma ReturnIgnoresQuantity(status: string, q1: int, q2: int, reason: string)
    ensures ProcessOutcome(status, q1, ReturnReason(reason)) == ProcessOutcome(status, q2, ReturnReason(reason))
  {
  }

  class InventoryOperation {
    var id: string
    var date: SafeDate
    var productId: string
    var quantity: Int32
    var status: string
    var details: Details

    function Record(): OpRecord
      reads this
    {
      OpRecord(OpBase(id, date, productId, quantity, status), details)
    }

    /** The default constructor of the kind of `kind`. */
    constructor Default(kind: Details)
      ensures Record() == DefaultRecord(kind)
    {
      var r := DefaultRecord(kind);
      id, date, productId, quantity, status, details := r.base.id, r.base.date, r.base.productId, r.base.quantity, r.base.status, r.details;
    }

    constructor FromRecord(r: OpRecord)
      ensures Record() == r
    {
      id, date, productId, quantity, status, details := r.base.id, r.base.date, r.base.productId, r.base.quantity, r.base.status, r.details;
    }

    /** The constructor of Return, Supply or WriteOff, by the kind of
        `details`, with the status defaulting to "pending". It throws what
        `CheckNew` gives. */
    static method Create(id: string, date: SafeDate, product: Product?, quantity: Int32, details: Details,
                         status: string := Pending)
      returns (r: Result<InventoryOperation>)
      ensures r.Fail? <==> CheckNew(id, product != null, quantity, status, details).Raise?
      ensures r.Fail? ==> r.error == CheckNew(id, product != null, quantity, status, details).error
      ensures r.Ok? ==> product != null && fresh(r.value)
                        && r.value.Record() == OpRecord(OpBase(id, date, product.Id(), quantity, status), details)
    {
      var check := CheckNew(id, product != null, quantity, status, details);
      if check.Raise? {
        return Fail(check.error);
      }
      var op := new InventoryOperation.FromRecord(OpRecord(OpBase(id, date, product.Id(), quantity, status), details));
      r := Ok(op);
    }

    /** `setStatus`: any text, unchecked. */
    method SetStatus(newStatus: string)
      modifies this
      ensures Record() == old(Record()).(base := old(Record()).base.(status := newStatus))
    {
      status := newStatus;
    }

    /** `process()`: the status becomes "completed" when `ProcessOutcome`
        allows it and is left alone otherwise. */
    method Process() returns (o: Outcome)
      modifies this
      ensures o == ProcessOutcome(old(status), quantity, details)
      ensures o.Pass? ==> status == "completed"
      ensures o.Raise? ==> status == old(status)
      ensures Record() == old(Record()).(base := old(Record()).base.(status := status))
    {
      if status == "completed" {
        return Raise(InventoryError);
      }
      if status == "cancelled" {
        return Raise(InventoryError);
      }
      if !details.ReturnReason? && quantity <= 0 {
        return Raise(NegativeQuantity(quantity));
      }
      status := "completed";
      o := Pass;
    }

    /** `is >> operation` on this object. */
    method Read(s: string) returns (st: ReadStatus)
      modifies this
      ensures (Record(), st) == ParseInto(old(Record()), s)
    {
      var (r, status') := ParseInto(Record(), s);
      id, date, productId, quantity, status, details := r.base.id, r.base.date, r.base.productId, r.base.quantity, r.base.status, r.details;
      st := status';
    }
  }

  // ---------------------------------------------------------------------
  // Line form

  /** How a read ends: the record was read, the stream's failbit was set
      without an exception, or an exception was thrown. */
  datatype ReadStatus = Good | FailBit | Thrown(error: Error)

  function BaseFields(b: OpBase): (r: seq<string>)
    ensures |r| == 5
  {
    [b.id, SafeDates.ToString(b.date), b.productId, IntToString(b.quantity), b.status]
  }

  function DetailFields(d: Details): (r: seq<string>)
    ensures |r| == FieldCount(d) - 5
  {
    match d
    case ReturnReason(reason) => [reason]
    case SupplyRoute(source, destination) => [source, destination]
    case WriteOffReason(reason) => [reason]
  }

  /** How many fields the parser of the kind insists on. */
  function FieldCount(d: Details): nat {
    if d.SupplyRoute? then 7 else 6
  }

  /** `os << operation` of InventoryOperation: `id;date;productId;quantity;status`. */
  function EncodeBase(b: OpBase): string {
    Join(BaseFields(b), ';')
  }

  function Fields(r: OpRecord): (f: seq<string>)
    ensures |f| == FieldCount(r.details) && f[..5] == BaseFields(r.base)
  {
    BaseFields(r.base) + DetailFields(r.details)
  }

  /** `os << op` of Return, Supply or WriteOff: the common fields, then the
      reason, or the source and destination. */
  function Encode(r: OpRecord): (line: string)
    ensures RecordRoundTrips(r) ==> LineOf(line) == line && Split(line, ';') == Fields(r)
  {
    if RecordRoundTrips(r) then FieldsPlain(r); LastFieldFilled(r); LineSplits(Fields(r)); Join(Fields(r), ';')
    else Join(Fields(r), ';')
  }

  /** The field writes all three parsers share, inside their `try`: the id,
      the date, a placeholder product with the id of field 2 (whose
      constructor refuses an empty id), the quantity by `stoi` with no sign
      check, and the status unchecked. */
  function ReadCommon(target: OpBase, tokens: seq<string>): (r: (OpBase, Outcome))
    requires |tokens| >= 5
    ensures r.1.Raise? ==> r.1.error == InventoryError
    ensures r.0.id == tokens[0]
    ensures r.1.Pass? ==> SafeDates.FromString(tokens[1]) == Result<Date>.Ok(r.0.date)
                          && r.0.productId == tokens[2] != ""
                          && Stoi(tokens[3]) == Ok(r.0.quantity) && r.0.status == tokens[4]
  {
    var withId := target.(id := tokens[0]);
    match SafeDates.FromString(tokens[1])
    case Fail(_) => (withId, Raise(InventoryError))
    case Ok(date) =>
      var dated := withId.(date := date);
      if tokens[2] == "" then (dated, Raise(InventoryError))
      else
        var withProduct := dated.(productId := tokens[2]);
        match Stoi(tokens[3])
        case Fail(_) => (withProduct, Raise(InventoryError))
        case Ok(quantity) => (withProduct.(quantity := quantity, status := tokens[4]), Pass)
  }

  /** `is >> operation` of InventoryOperation: an empty line or fewer than
      five fields sets failbit and changes nothing; a field that cannot be
      read throws an InventoryException after the earlier fields were
      stored. */
  function ParseBaseInto(target: OpBase, s: string): (r: (OpBase, ReadStatus))
    ensures LineOf(s) == "" ==> r == (target, FailBit)
    ensures |Split(LineOf(s), ';')| < 5 ==> r == (target, FailBit)
    ensures r.1.Thrown? ==> r.1.error == InventoryError
    ensures r.1 == Good ==> r.0.productId != "" && r.0.id == Split(LineOf(s), ';')[0]
  {
    var line := LineOf(s);
    if line == "" then (target, FailBit)
    else
      var tokens := Split(line, ';');
      if |tokens| < 5 then (target, FailBit)
      else
        var (b, o) := ReadCommon(target, tokens);
        (b, if o.Pass? then Good else Thrown(InventoryError))
  }

  /** `is >> op` of Return, Supply or WriteOff, by the kind of `target`: an
      empty line sets failbit and changes nothing; fewer fields than the
      kind has throws and changes nothing; otherwise the fields are stored
      in order, extra fields are ignored, and an unreadable field or an
      empty reason, source or destination throws an InventoryException. */
  function ParseInto(target: OpRecord, s: string): (r: (OpRecord, ReadStatus))
    ensures LineOf(s) == "" ==> r == (target, FailBit)
    ensures LineOf(s) != "" && |Split(LineOf(s), ';')| < FieldCount(target.details) ==>
              r == (target, Thrown(InventoryError))
    ensures r.1 != FailBit ==> LineOf(s) != ""
    ensures r.1.Thrown? ==> r.1.error == InventoryError
    ensures SameKind(r.0.details, target.details)
    ensures r.1 == Good ==> DetailsFilled(r.0.details) && r.0.base.productId != ""
  {
    var line := LineOf(s);
    if line == "" then (target, FailBit)
    else
      var tokens := Split(line, ';');
      if |tokens| < FieldCount(target.details) then (target, Thrown(InventoryError))
      else
        var (b, o) := ReadCommon(target.base, tokens);
        if o.Raise? then (target.(base := b), Thrown(InventoryError))
        else
          var d := match target.details
            case ReturnReason(_) => ReturnReason(tokens[5])
            case SupplyRoute(_, _) => SupplyRoute(tokens[5], tokens[6])
            case WriteOffReason(_) => WriteOffReason(tokens[5]);
          (OpRecord(b, d), if DetailsFilled(d) then Good else Thrown(InventoryError))
  }

  // ---------------------------------------------------------------------
  // Round trips

  /** The common fields of an operation whose line reads back as itself. */
  predicate BaseRoundTrips(b: OpBase) {
    PlainText(b.id) && PlainText(b.productId) && PlainText(b.status)
  }

  predicate DetailsRoundTrip(d: Details) {
    match d
    case ReturnReason(reason) => PlainText(reason)
    case SupplyRoute(source, destination) => PlainText(source) && PlainText(destination)
    case WriteOffReason(reason) => PlainText(reason)
  }

  predicate RecordRoundTrips(r: OpRecord) {
    BaseRoundTrips(r.base) && DetailsRoundTrip(r.details)
  }

  lemma {:induction false} QuantityPlain(q: Int32)
    ensures PlainText(IntToString(q))
  {
    if q < 0 {
      DigitsPlain(NatToString(-(q as int)));
      assert IntToString(q) == "-" + NatToString(-(q as int));
    } else {
      DigitsPlain(NatToString(q as nat));
    }
  }

  lemma FivePlain(a: string, b: string, c: string, d: string, e: string)
    requires PlainText(a) && PlainText(b) && PlainText(c) && PlainText(d) && PlainText(e)
    ensures NoSep([a, b, c, d, e], ';') && NoSep([a, b, c, d, e], '\n')
  {
  }

  lemma {:induction false} BaseFieldsPlain(b: OpBase)
    requires BaseRoundTrips(b)
    ensures NoSep(BaseFields(b), ';') && NoSep(BaseFields(b), '\n')
  {
    DateTextPlain(b.date);
    QuantityPlain(b.quantity);
    FivePlain(b.id, SafeDates.ToString(b.date), b.productId, IntToString(b.quantity), b.status);
  }

  lemma {:induction false} FieldsPlain(r: OpRecord)
    requires RecordRoundTrips(r)
    ensures NoSep(Fields(r), ';') && NoSep(Fields(r), '\n')
  {
    BaseFieldsPlain(r.base);
    NoSepAppend(BaseFields(r.base), DetailFields(r.details), ';');
    NoSepAppend(BaseFields(r.base), DetailFields(r.details), '\n');
  }

  lemma {:induction false} ReadCommonSteps(target: OpBase, tokens: seq<string>, b: OpBase)
    requires |tokens| >= 5 && tokens[0] == b.id && tokens[2] == b.productId != "" && tokens[4] == b.status
    requires SafeDates.FromString(tokens[1]) == Result<Date>.Ok(b.date)
    requires Stoi(tokens[3]) == Ok(b.quantity)
    ensures ReadCommon(target, tokens) == (b, Pass)
  {
    var full := target.(id := tokens[0]).(date := b.date).(productId := tokens[2])
                      .(quantity := b.quantity, status := tokens[4]);
    assert full == b;
  }

  lemma {:induction false} BaseFieldsRead(b: OpBase)
    ensures SafeDates.FromString(SafeDates.ToString(b.date)) == Result<Date>.Ok(b.date)
    ensures Stoi(IntToString(b.quantity)) == Ok(b.quantity)
  {
    FromStringToString(b.date);
    assert IntToString(b.quantity) == IntToString(b.quantity) + "";
    ReadIntOfString(b.quantity, "");
  }

  lemma {:induction false} ReadCommonOfFields(target: OpBase, tokens: seq<string>, b: OpBase)
    requires |tokens| >= 5 && tokens[..5] == BaseFields(b) && b.productId != ""
    ensures ReadCommon(target, tokens) == (b, Pass)
  {
    assert tokens[0] == tokens[..5][0] && tokens[1] == tokens[..5][1] && tokens[2] == tokens[..5][2];
    assert tokens[3] == tokens[..5][3] && tokens[4] == tokens[..5][4];
    BaseFieldsRead(b);
    ReadCommonSteps(target, tokens, b);
  }

  /** Reading back what the InventoryOperation serialiser wrote restores
      every common field, whatever the target held. */
  lemma {:induction false} BaseRoundTrip(b: OpBase, target: OpBase)
    requires BaseRoundTrips(b)
    ensures ParseBaseInto(target, EncodeBase(b)) == (b, Good)
  {
    BaseFieldsPlain(b);
    LineSplits(BaseFields(b));
    JoinNonEmpty(BaseFields(b), ';');
    ReadCommonOfFields(target, BaseFields(b), b);
  }

  lemma {:induction false} ParseIntoSteps(target: OpRecord, s: string, r: OpRecord)
    requires SameKind(target.details, r.details) && DetailsFilled(r.details)
    requires LineOf(s) != "" && Split(LineOf(s), ';') == Fields(r)
    requires ReadCommon(target.base, Fields(r)) == (r.base, Pass)
    ensures ParseInto(target, s) == (r, Good)
  {
    var tokens := Fields(r);
    match r.details
    case ReturnReason(reason) => assert tokens[5] == reason;
    case SupplyRoute(source, destination) => assert tokens[5] == source && tokens[6] == destination;
    case WriteOffReason(reason) => assert tokens[5] == reason;
  }

  /** The last field written, the reason or the destination, is not
      empty. */
  lemma LastFieldFilled(r: OpRecord)
    requires RecordRoundTrips(r)
    ensures Fields(r)[|Fields(r)| - 1] != ""
  {
    match r.details
    case ReturnReason(_) =>
    case SupplyRoute(_, _) =>
    case WriteOffReason(_) =>
  }

  /** Reading back what a Return, Supply or WriteOff serialiser wrote, into
      an operation of the same kind, restores every field; the quantity
      comes back whatever its sign. */
  lemma {:induction false} RoundTrip(r: OpRecord, target: OpRecord)
    requires RecordRoundTrips(r) && SameKind(target.details, r.details)
    ensures ParseInto(target, Encode(r)) == (r, Good)
  {
    JoinNonEmpty(Fields(r), ';');
    ReadCommonOfFields(target.base, Fields(r), r.base);
    ParseIntoSteps(target, Encode(r), r);
  }

  /** The line form of each kind in the operations file: a kind prefix and
      the fields. */
  function Prefix(d: Details): (p: string)
    ensures |p| == (if d.WriteOffReason? then 9 else 7) && p[|p| - 1] == ';'
  {
    match d
    case ReturnReason(_) => "RETURN;"
    case SupplyRoute(_, _) => "SUPPLY;"
    case WriteOffReason(_) => "WRITEOFF;"
  }
}
