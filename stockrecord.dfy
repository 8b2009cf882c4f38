// StockRecord: one line of the stock file, `productId;pharmacyId;quantity;date`,
// and its reader, which overwrites the fields it finds one by one and keeps
// the previous value of every field the line does not reach.

module StockRecords {
  import opened Errors
  import opened Text
  import opened SafeDates
  import opened SafeInput
  import opened ProductCodecs

  datatype StockRecord = StockRecord(productId: string, pharmacyId: string, quantity: Int32, receiptDate: SafeDate)

  /** The default-constructed record. */
  const DefaultRecord := StockRecord("", "", 0, Date(2000, 1, 1))

  function Fields(r: StockRecord): (f: seq<string>)
    ensures |f| == 4
  {
    [r.productId, r.pharmacyId, IntToString(r.quantity), SafeDates.ToString(r.receiptDate)]
  }

  /** `os << record`. */
  function Encode(r: StockRecord): (line: string)
    ensures RoundTrips(r) ==> '\n' !in line && LineOf(line) == line
  {
    if RoundTrips(r) then FieldsPlain(r); LineSplits(Fields(r)); Join(Fields(r), ';')
    else Join(Fields(r), ';')
  }

  /** `sscanf(token, "%d-%d-%d", ...) == 3`: each number may carry leading
      blanks and a sign, and each '-' must follow its number at once. */
  function ScanfDate(s: string): (r: Option<(Int32, Int32, Int32)>)
  {
    match ReadInt(s)
    case None => None
    case Some((y, r1)) =>
      if |r1| == 0 || r1[0] != '-' then None
      else match ReadInt(r1[1..])
        case None => None
        case Some((m, r2)) =>
          if |r2| == 0 || r2[0] != '-' then None
          else match ReadInt(r2[1..])
            case None => None
            case Some((d, _)) => Some((y, m, d))
  }

  /** `is >> record` on an existing `target`: the record after the call and
      how the call ended. Fields are taken in order from the `;`-separated
      line and each one the line holds is stored; the quantity goes through
      `stoi`, whose error escapes; the date changes only when the fourth
      field scans as three numbers, and a day that does not exist is the
      SafeDate constructor's `invalid_argument`. */
  function ParseInto(target: StockRecord, s: string): (r: (StockRecord, Outcome))
    ensures var tokens := Split(LineOf(s), ';');
            (|tokens| > 0 ==> r.0.productId == tokens[0])
            && (|tokens| == 0 ==> r.0.productId == target.productId)
            && (|tokens| > 1 ==> r.0.pharmacyId == tokens[1])
            && (|tokens| <= 1 ==> r.0.pharmacyId == target.pharmacyId)
            && (|tokens| <= 2 ==> r == (r.0, Pass) && r.0.quantity == target.quantity)
            && (|tokens| <= 3 ==> r.0.receiptDate == target.receiptDate)
            && (|tokens| > 2 && r.1.Pass? ==> Stoi(tokens[2]) == Ok(r.0.quantity))
            && (|tokens| > 3 && Stoi(tokens[2]).Ok? && ScanfDate(tokens[3]).None? ==>
                  r.1 == Pass && r.0.receiptDate == target.receiptDate)
    ensures s == "" ==> r == (target, Pass)
    ensures r.1.Raise? ==> r.1.error == InvalidArgument || r.1.error == OutOfRange
  {
    var tokens := Split(LineOf(s), ';');
    var withProduct := if |tokens| > 0 then target.(productId := tokens[0]) else target;
    var withPharmacy := if |tokens| > 1 then withProduct.(pharmacyId := tokens[1]) else withProduct;
    if |tokens| <= 2 then (withPharmacy, Pass)
    else
      match Stoi(tokens[2])
      case Fail(e) => (withPharmacy, Raise(e))
      case Ok(quantity) =>
        var counted := withPharmacy.(quantity := quantity);
        if |tokens| <= 3 then (counted, Pass)
        else
          match ScanfDate(tokens[3])
          case None => (counted, Pass)
          case Some((y, m, d)) =>
            match SafeDates.Make(y, m, d)
            case Fail(e) => (counted, Raise(e))
            case Ok(date) => (counted.(receiptDate := date), Pass)
  }

  // ---------------------------------------------------------------------
  // Round trip

  lemma {:induction false} ScanfDateSteps(s: string, y: Int32, r1: string, m: Int32, r2: string, d: Int32)
    requires ReadInt(s) == Some((y, r1)) && |r1| > 0 && r1[0] == '-'
    requires ReadInt(r1[1..]) == Some((m, r2)) && |r2| > 0 && r2[0] == '-'
    requires ReadInt(r2[1..]) == Some((d, ""))
    ensures ScanfDate(s) == Some((y, m, d))
  {
  }

  /** The date text `toString` writes scans back as its three numbers. */
  lemma {:induction false} ScanfDateOfToString(date: SafeDate)
    ensures ScanfDate(SafeDates.ToString(date)) == Some((date.year, date.month, date.day))
  {
    var m := Pad2(date.month as nat);
    var dd := Pad2(date.day as nat);
    var r3 := "-" + dd;
    var r2 := m + r3;
    var r1 := "-" + r2;
    var s := SafeDates.ToString(date);
    assert s == IntToString(date.year) + r1;
    ReadIntOfString(date.year, r1);
    assert r1[1..] == r2;
    ReadIntPad2(date.month as nat, r3);
    assert r3[1..] == dd + "";
    ReadIntPad2(date.day as nat, "");
    ScanfDateSteps(s, date.year, r1, date.month, r3, date.day);
  }

  /** Records whose line reads back as themselves. */
  predicate RoundTrips(r: StockRecord) {
    PlainText(r.productId) && PlainText(r.pharmacyId)
  }

  lemma {:induction false} FieldsPlain(r: StockRecord)
    requires RoundTrips(r)
    ensures NoSep(Fields(r), ';') && NoSep(Fields(r), '\n')
  {
    var q := IntToString(r.quantity);
    if r.quantity < 0 {
      DigitsPlain(NatToString(-(r.quantity as int)));
      assert q == "-" + NatToString(-(r.quantity as int));
    } else {
      DigitsPlain(NatToString(r.quantity as nat));
    }
    DateTextPlain(r.receiptDate);
    FourPlain(r.productId, r.pharmacyId, q, SafeDates.ToString(r.receiptDate));
  }

  lemma FourPlain(a: string, b: string, c: string, d: string)
    requires PlainText(a) && PlainText(b) && PlainText(c) && ';' !in d && '\n' !in d && d != ""
    ensures NoSep([a, b, c, d], ';') && NoSep([a, b, c, d], '\n')
  {
  }

  lemma {:induction false} ParseSteps(target: StockRecord, s: string, r: StockRecord)
    requires var tokens := Split(LineOf(s), ';');
             |tokens| == 4 && tokens[0] == r.productId && tokens[1] == r.pharmacyId
             && Stoi(tokens[2]) == Ok(r.quantity)
             && ScanfDate(tokens[3]) == Some((r.receiptDate.year, r.receiptDate.month, r.receiptDate.day))
    ensures ParseInto(target, s) == (r, Pass)
  {
    var date := r.receiptDate;
    assert SafeDates.Make(date.year, date.month, date.day) == Result<Date>.Ok(date);
    var full := target.(productId := r.productId).(pharmacyId := r.pharmacyId).(quantity := r.quantity)
                      .(receiptDate := date);
    assert full == r;
  }

  lemma {:induction false} FieldsRead(r: StockRecord)
    ensures Stoi(IntToString(r.quantity)) == Ok(r.quantity)
    ensures ScanfDate(SafeDates.ToString(r.receiptDate))
            == Some((r.receiptDate.year, r.receiptDate.month, r.receiptDate.day))
  {
    assert IntToString(r.quantity) == IntToString(r.quantity) + "";
    ReadIntOfString(r.quantity, "");
    ScanfDateOfToString(r.receiptDate);
  }

  /** Reading back what `operator<<` wrote restores all four fields,
      whatever the record held before; the quantity comes back whatever its
      sign. */
  lemma {:induction false} RoundTrip(r: StockRecord, target: StockRecord)
    requires RoundTrips(r)
    ensures ParseInto(target, Encode(r)) == (r, Pass)
  {
    FieldsPlain(r);
    LineSplits(Fields(r));
    var fields := Fields(r);
    assert fields[2] == IntToString(r.quantity) && fields[3] == SafeDates.ToString(r.receiptDate);
    FieldsRead(r);
    ParseSteps(target, Encode(r), r);
  }
}
