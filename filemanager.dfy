// FileManager: the line-level rules of the text files the inventory is kept
// in. A file is the sequence of its lines, and a file that cannot be opened
// is None. For each loader the model gives the rule for one line, the scan
// over all lines (what is kept, and the exception that ends the load, if
// any), and the loop proved against that scan; for the savers, the lines
// they write, and what reading those lines back gives.

module FileManagers {
  import opened Errors
  import opened Text
  import opened SafeDates
  import opened SafeInput
  import opened Products
  import opened LexOrder
  import ProductCodecs
  import Operations
  import StockRecords
  import Pharmacies
  import Storages

  /** What a loader makes of one line: nothing, an entry, or an exception
      that leaves the loop and ends the load. */
  datatype LineRead<T> = Skip | Take(value: T) | Abort(error: Error)

  /** Where a loader stands after some lines: what it kept, and the
      exception that ended it, if one did. */
  datatype Scan<T> = Scan(kept: seq<T>, stopped: Option<Error>)

  /** The scan one more line verdict takes: an exception ends it for good;
      before that, an entry is kept and a skipped line changes nothing. */
  function Next<T>(s: Scan<T>, read: LineRead<T>): (r: Scan<T>)
    ensures s.stopped.Some? ==> r == s
  {
    if s.stopped.Some? then s
    else
      match read
      case Skip => s
      case Take(x) => Scan(s.kept + [x], None)
      case Abort(e) => Scan(s.kept, Some(e))
  }

  /** The verdicts of a file's lines, scanned in order. */
  function ReadAll<T>(steps: seq<LineRead<T>>): (r: Scan<T>)
    ensures |r.kept| <= |steps|
  {
    if |steps| == 0 then Scan([], None) else Next(ReadAll(steps[..|steps| - 1]), steps[|steps| - 1])
  }

  lemma {:induction false} ReadOneMore<T>(steps: seq<LineRead<T>>, read: LineRead<T>)
    ensures ReadAll(steps + [read]) == Next(ReadAll(steps), read)
  {
    assert (steps + [read])[..|steps|] == steps;
  }

  /** Once a line has ended the load, later lines change nothing. */
  lemma {:induction false} StaysStopped<T>(steps: seq<LineRead<T>>, i: nat)
    requires i <= |steps| && ReadAll(steps[..i]).stopped.Some?
    ensures ReadAll(steps) == ReadAll(steps[..i])
    decreases |steps| - i
  {
    if i < |steps| {
      assert steps[..i + 1][..i] == steps[..i];
      StaysStopped(steps, i + 1);
    } else {
      assert steps[..i] == steps;
    }
  }

  /** What is kept is exactly the entries of the verdicts before the first
      exception, in order; with no exception, all of them. */
  lemma {:induction false} KeptAreTaken<T>(steps: seq<LineRead<T>>)
    ensures forall x :: x in ReadAll(steps).kept ==> Take(x) in steps
    ensures ReadAll(steps).stopped.Some? ==> Abort(ReadAll(steps).stopped.value) in steps
    ensures ReadAll(steps).stopped.None? ==> forall i :: 0 <= i < |steps| ==> !steps[i].Abort?
    ensures ReadAll(steps).stopped.None? ==>
              forall i :: 0 <= i < |steps| && steps[i].Take? ==> steps[i].value in ReadAll(steps).kept
  {
    if |steps| > 0 {
      var n := |steps| - 1;
      KeptAreTaken(steps[..n]);
      assert forall x :: x in steps[..n] ==> x in steps;
      assert steps == steps[..n] + [steps[n]];
    }
  }

  /** Lines that are all entries are read back as those entries. */
  lemma {:induction false} ReadAllTaken<T>(steps: seq<LineRead<T>>, xs: seq<T>)
    requires |steps| == |xs| && forall i :: 0 <= i < |steps| ==> steps[i] == Take(xs[i])
    ensures ReadAll(steps) == Scan(xs, None)
  {
    if |steps| > 0 {
      var n := |steps| - 1;
      ReadAllTaken(steps[..n], xs[..n]);
      SnocLast(xs);
    }
  }

  /** Lines none of which is taken leave nothing kept. */
  lemma {:induction false} NothingTaken<T>(steps: seq<LineRead<T>>)
    requires forall i :: 0 <= i < |steps| ==> !steps[i].Take?
    ensures ReadAll(steps).kept == []
  {
    if |steps| > 0 {
      NothingTaken(steps[..|steps| - 1]);
    }
  }

  /** What each line reads as, in file order. */
  function ReadEach<T>(lines: seq<string>, reader: string -> LineRead<T>): (r: seq<LineRead<T>>)
    ensures |r| == |lines|
    ensures forall i :: 0 <= i < |lines| ==> r[i] == reader(lines[i])
  {
    if |lines| == 0 then [] else ReadEach(lines[..|lines| - 1], reader) + [reader(lines[|lines| - 1])]
  }

  lemma ReadEachPrefix<T>(lines: seq<string>, reader: string -> LineRead<T>, i: nat)
    requires i <= |lines|
    ensures ReadEach(lines, reader)[..i] == ReadEach(lines[..i], reader)
  {
  }

  lemma ScanStep<T>(lines: seq<string>, reader: string -> LineRead<T>, i: nat)
    requires i < |lines|
    ensures ReadAll(ReadEach(lines[..i + 1], reader)) == Next(ReadAll(ReadEach(lines[..i], reader)), reader(lines[i]))
  {
    assert lines[..i + 1][..i] == lines[..i];
    ReadOneMore(ReadEach(lines[..i], reader), reader(lines[i]));
  }

  /** The reading loop every loader runs: each line in turn until the end
      of the file or the first line whose reader throws out of the loop. */
  method ScanLines<T>(lines: seq<string>, reader: string -> LineRead<T>) returns (kept: seq<T>, stopped: Option<Error>)
    ensures Scan(kept, stopped) == ReadAll(ReadEach(lines, reader))
  {
    kept := [];
    stopped := None;
    var i := 0;
    while i < |lines| && stopped.None?
      invariant 0 <= i <= |lines|
      invariant Scan(kept, stopped) == ReadAll(ReadEach(lines[..i], reader))
      decreases |lines| - i
    {
      var read := reader(lines[i]);
      ScanStep(lines, reader, i);
      match read {
        case Skip =>
        case Take(x) => kept := kept + [x];
        case Abort(e) => stopped := Some(e);
      }
      i := i + 1;
    }
    ReadEachPrefix(lines, reader, i);
    if stopped.Some? {
      StaysStopped(ReadEach(lines, reader), i);
    } else {
      assert lines[..i] == lines;
    }
  }

  lemma SnocLast<T>(s: seq<T>)
    requires |s| > 0
    ensures s[..|s| - 1] + [s[|s| - 1]] == s
  {
  }

  lemma AppendAssociates<T>(a: seq<T>, b: seq<T>, c: seq<T>)
    ensures a + (b + c) == (a + b) + c
  {
  }

  lemma PrefixOfPrefix<T>(s: seq<T>, n: nat, m: nat)
    requires m <= n <= |s|
    ensures s[..n][..m] == s[..m]
    ensures forall i :: m <= i < n ==> s[..n][i] == s[i]
  {
  }

  /** The three type markers a medicine line starts with. */
  const TabletMarker := "[TABLET];"
  const SyrupMarker := "[SYRUP];"
  const OintmentMarker := "[OINTMENT];"

  // ---------------------------------------------------------------------
  // Medicines

  /** The reader's verdict as a line read: the medicine, or its exception. */
  function ReadParsed(r: Result<ProductData>): (l: LineRead<ProductData>)
    ensures l.Take? <==> r.Ok?
    ensures l.Take? ==> l.value == r.value
    ensures l.Abort? ==> l.error == r.error
  {
    if r.Ok? then Take(r.value) else Abort(r.error)
  }

  /** The form a medicine line's marker names, if it starts with one. */
  function LineForm(line: string): (k: Option<FormKind>)
    ensures k == Some(TabletForm) <==> IsPrefix(TabletMarker, line)
    ensures k == Some(SyrupForm) <==> IsPrefix(SyrupMarker, line)
    ensures k == Some(OintmentForm) <==> IsPrefix(OintmentMarker, line)
  {
    if IsPrefix(TabletMarker, line) then
      assert line[1] == 'T';
      Some(TabletForm)
    else if IsPrefix(SyrupMarker, line) then
      assert line[1] == 'S';
      Some(SyrupForm)
    else if IsPrefix(OintmentMarker, line) then
      assert line[1] == 'O';
      Some(OintmentForm)
    else None
  }

  datatype FormKind = TabletForm | SyrupForm | OintmentForm

  /** One line of the medicines file: the marker at the start picks the
      form and the rest of the line goes to that form's `>>`. A line with
      no known marker is skipped, since the FileParseException it raises is
      caught inside the loop; whatever a form's reader throws is caught
      only outside the loop, so it ends the load. */
  function MedicineLine(line: string, now: Clock): (r: LineRead<ProductData>)
    ensures r.Skip? <==> LineForm(line).None?
    ensures r.Take? ==> ProductCodecs.ParsedMedicine(r.value, now)
    ensures r.Take? ==> LineForm(line) == Some(KindOf(r.value.med.value.form))
  {
    match LineForm(line)
    case None => Skip
    case Some(TabletForm) => ReadParsed(ProductCodecs.ParseTablet(line[9..], now))
    case Some(SyrupForm) => ReadParsed(ProductCodecs.ParseSyrup(line[8..], now))
    case Some(OintmentForm) => ReadParsed(ProductCodecs.ParseOintment(line[11..], now))
  }

  function KindOf(f: Form): FormKind {
    match f
    case Tablet(_, _, _) => TabletForm
    case Syrup(_, _, _) => SyrupForm
    case Ointment(_, _) => OintmentForm
  }

  /** The medicine reader of `loadMedicines`, line by line. */
  function MedicineReader(now: Clock): string -> LineRead<ProductData> {
    line => MedicineLine(line, now)
  }

  /** The medicines read from `lines`, in file order, up to the first line
      whose reader throws. */
  function ReadMedicines(lines: seq<string>, now: Clock): Scan<ProductData> {
    ReadAll(ReadEach(lines, MedicineReader(now)))
  }

  /** Every medicine loaded passed its form's reader: a known form, a valid
      unexpired base, and a substance and instructions. */
  lemma {:induction false} LoadedMedicinesParsed(lines: seq<string>, now: Clock)
    ensures forall d :: d in ReadMedicines(lines, now).kept ==> ProductCodecs.ParsedMedicine(d, now)
  {
    var steps := ReadEach(lines, MedicineReader(now));
    KeptAreTaken(steps);
    forall d | d in ReadMedicines(lines, now).kept
      ensures ProductCodecs.ParsedMedicine(d, now)
    {
      var i :| 0 <= i < |steps| && steps[i] == Take(d);
      assert MedicineLine(lines[i], now) == Take(d);
    }
  }

  /** The medicines with these ids, each with no analogues yet. */
  function Unlinked(ids: set<string>): (r: map<string, seq<string>>)
    ensures r.Keys == ids
    ensures forall id :: id in r ==> r[id] == []
  {
    map id | id in ids :: []
  }

  function IdsOfMedicines(meds: seq<ProductData>): set<string> {
    set d | d in meds :: d.base.id
  }

  /** `loadMedicines`: a file that cannot be opened is false and leaves the
      list alone. Otherwise the list is replaced by the medicines read
      before the first exception, and the load is true when there was
      none; only then are the analogue links loaded, and their own verdict
      is ignored. */
  method LoadMedicines(file: Option<seq<string>>, analogueFile: Option<seq<string>>,
                       previous: seq<ProductData>, now: Clock)
    returns (medicines: seq<ProductData>, analogues: map<string, seq<string>>, ok: bool)
    ensures file.None? ==> medicines == previous && analogues == map[] && !ok
    ensures file.Some? ==> medicines == ReadMedicines(file.value, now).kept
                           && (ok <==> ReadMedicines(file.value, now).stopped.None?)
    ensures ok && analogueFile.Some? ==> analogues == ReadLinks(Unlinked(IdsOfMedicines(medicines)), analogueFile.value).links
    ensures ok && analogueFile.None? ==> analogues == Unlinked(IdsOfMedicines(medicines))
    ensures file.Some? && !ok ==> analogues == Unlinked(IdsOfMedicines(medicines))
    ensures forall d :: d in medicines && file.Some? ==> ProductCodecs.ParsedMedicine(d, now)
  {
    if file.None? {
      return previous, map[], false;
    }
    var stopped;
    medicines, stopped := ScanLines(file.value, MedicineReader(now));
    LoadedMedicinesParsed(file.value, now);
    if stopped.Some? {
      return medicines, Unlinked(IdsOfMedicines(medicines)), false;
    }
    var linked;
    analogues, linked := LoadAnalogues(analogueFile, Unlinked(IdsOfMedicines(medicines)));
    ok := true;
  }

  /** The lines a saver writes: one per element, in order. */
  function Written<T>(xs: seq<T>, write: T -> string): (lines: seq<string>)
    ensures |lines| == |xs|
    ensures forall i :: 0 <= i < |xs| ==> lines[i] == write(xs[i])
  {
    if |xs| == 0 then [] else Written(xs[..|xs| - 1], write) + [write(xs[|xs| - 1])]
  }

  /** Writing two lists one after the other writes their concatenation. */
  lemma WrittenAppend<T>(xs: seq<T>, ys: seq<T>, write: T -> string)
    ensures Written(xs, write) + Written(ys, write) == Written(xs + ys, write)
  {
    var both := Written(xs, write) + Written(ys, write);
    assert forall i :: 0 <= i < |xs + ys| ==> both[i] == write((xs + ys)[i]);
  }

  /** `saveMedicines`: one line per medicine, in list order, each the
      form's `<<`, which writes its marker and its fields. */
  function SaveMedicines(meds: seq<ProductData>): (lines: seq<string>)
    requires forall d :: d in meds ==> d.med.Some?
    ensures |lines| == |meds|
    ensures forall i :: 0 <= i < |meds| ==> LineForm(lines[i]) == Some(KindOf(meds[i].med.value.form))
  {
    MarkersWritten(meds);
    Written(meds, ProductCodecs.Encode)
  }

  lemma MarkersWritten(meds: seq<ProductData>)
    requires forall d :: d in meds ==> d.med.Some?
    ensures forall i :: 0 <= i < |meds| ==>
              LineForm(Written(meds, ProductCodecs.Encode)[i]) == Some(KindOf(meds[i].med.value.form))
  {
    forall i | 0 <= i < |meds|
      ensures LineForm(ProductCodecs.Encode(meds[i])) == Some(KindOf(meds[i].med.value.form))
    {
      assert meds[i] in meds;
      var m := meds[i].med.value;
      MarkerRecognised(m.form, Join(ProductCodecs.Fields(meds[i].base, m), ';'));
    }
  }

  /** A marker followed by a form's text is recognised as that form, and
      the text after it is what the form wrote. */
  lemma {:induction false} MarkerRecognised(f: Form, body: string)
    ensures LineForm(ProductCodecs.Marker(f) + body) == Some(KindOf(f))
    ensures (ProductCodecs.Marker(f) + body)[|ProductCodecs.Marker(f)|..] == body
  {
    var line := ProductCodecs.Marker(f) + body;
    match f
    case Tablet(_, _, _) =>
      assert line[..9] == TabletMarker;
    case Syrup(_, _, _) =>
      assert line[..8] == SyrupMarker;
    case Ointment(_, _) =>
      assert line[..11] == OintmentMarker;
  }

  /** A medicine's line reads back as the same medicine. */
  lemma {:induction false} MedicineLineRoundTrip(d: ProductData, now: Clock)
    requires d.med.Some? && ProductCodecs.MedicineRoundTrips(d.base, d.med.value, now)
    ensures MedicineLine(ProductCodecs.Encode(d), now) == Take(d)
  {
    var m := d.med.value;
    var body := Join(ProductCodecs.Fields(d.base, m), ';');
    assert ProductCodecs.Encode(d) == ProductCodecs.Marker(m.form) + body;
    MarkerRecognised(m.form, body);
    ProductCodecs.FormRoundTrip(d.base, m, now);
    assert d == ProductData(d.base, Some(m));
  }

  /** Loading what `saveMedicines` wrote gives back every medicine, in
      order, and the load succeeds. */
  lemma {:induction false} SaveLoadMedicines(meds: seq<ProductData>, now: Clock)
    requires forall d :: d in meds ==> d.med.Some? && ProductCodecs.MedicineRoundTrips(d.base, d.med.value, now)
    ensures ReadMedicines(SaveMedicines(meds), now) == Scan(meds, None)
  {
    var lines := SaveMedicines(meds);
    var steps := ReadEach(lines, MedicineReader(now));
    forall i | 0 <= i < |lines| ensures steps[i] == Take(meds[i]) {
      assert meds[i] in meds;
      MedicineLineRoundTrip(meds[i], now);
    }
    ReadAllTaken(steps, meds);
  }

  // ---------------------------------------------------------------------
  // Analogue links

  /** The state of the analogue load: the analogue ids of each loaded
      medicine, by id, and the exception that ended the load, if any. */
  datatype Linking = Linking(links: map<string, seq<string>>, stopped: Option<Error>)

  /** An analogue line split at its first ';': the medicine id and the
      analogue id, which is all the rest of the line. */
  function SplitLink(line: string): (r: Option<(string, string)>)
    ensures r.None? <==> ';' !in line
    ensures r.Some? ==> ';' !in r.value.0 && line == r.value.0 + ";" + r.value.1
  {
    var i := IndexOf(line, ';');
    if i == |line| then None else Some((line[..i], line[i + 1..]))
  }

  /** Every list holds ids of loaded medicines only, never the medicine's
      own id, and no id twice: what `addAnalogue` keeps. */
  predicate LinksValid(links: map<string, seq<string>>) {
    forall m :: m in links ==>
      (forall i :: 0 <= i < |links[m]| ==> links[m][i] in links && links[m][i] != m)
      && (forall i, j :: 0 <= i < j < |links[m]| ==> links[m][i] != links[m][j])
  }

  /** One line of the analogues file: when both ids are those of loaded
      medicines, the analogue is added to the medicine's list through
      `addAnalogue`, whose `invalid_argument` for the medicine itself or an
      id already listed escapes the loop. Other lines change nothing. */
  function LinkLine(links: map<string, seq<string>>, line: string): (r: Result<map<string, seq<string>>>)
    ensures r.Fail? ==> r.error == InvalidArgument
    ensures r.Ok? ==> r.value.Keys == links.Keys
    ensures r.Ok? ==> forall m :: m in links ==> links[m] <= r.value[m]
  {
    match SplitLink(line)
    case None => Ok(links)
    case Some((m, a)) =>
      if m in links && a in links then
        if a == m || a in links[m] then Fail(InvalidArgument)
        else
          var r := links[m := links[m] + [a]];
          assert forall k :: k in links ==> links[k] <= r[k];
          Ok(r)
      else Ok(links)
  }

  /** The links after reading `lines`, up to the first line that throws. */
  function ReadLinks(links: map<string, seq<string>>, lines: seq<string>): (r: Linking)
    ensures r.links.Keys == links.Keys
    ensures r.stopped.Some? ==> r.stopped.value == InvalidArgument
  {
    if |lines| == 0 then Linking(links, None)
    else
      var before := ReadLinks(links, lines[..|lines| - 1]);
      if before.stopped.Some? then before
      else
        match LinkLine(before.links, lines[|lines| - 1])
        case Ok(next) => Linking(next, None)
        case Fail(e) => Linking(before.links, Some(e))
  }

  /** A line that links keeps the lists valid: `addAnalogue` refuses the
      medicine itself and an id already listed. */
  lemma {:induction false} LinkLineValid(links: map<string, seq<string>>, line: string)
    requires LinksValid(links) && LinkLine(links, line).Ok?
    ensures LinksValid(LinkLine(links, line).value)
  {
    match SplitLink(line)
    case None =>
    case Some((m, a)) =>
      if m in links && a in links {
        var r := LinkLine(links, line).value;
        assert r == links[m := links[m] + [a]];
        forall k | k in r
          ensures forall i :: 0 <= i < |r[k]| ==> r[k][i] in r && r[k][i] != k
          ensures forall i, j :: 0 <= i < j < |r[k]| ==> r[k][i] != r[k][j]
        {
          if k == m {
            assert r[k] == links[m] + [a];
          }
        }
      }
  }

  /** Reading a file keeps the lists valid. */
  lemma {:induction false} ReadLinksValid(links: map<string, seq<string>>, lines: seq<string>)
    requires LinksValid(links)
    ensures LinksValid(ReadLinks(links, lines).links)
  {
    if |lines| > 0 {
      var before := ReadLinks(links, lines[..|lines| - 1]);
      ReadLinksValid(links, lines[..|lines| - 1]);
      if before.stopped.None? && LinkLine(before.links, lines[|lines| - 1]).Ok? {
        LinkLineValid(before.links, lines[|lines| - 1]);
      }
    }
  }

  lemma {:induction false} LinksStayStopped(links: map<string, seq<string>>, lines: seq<string>, i: nat)
    requires i <= |lines| && ReadLinks(links, lines[..i]).stopped.Some?
    ensures ReadLinks(links, lines) == ReadLinks(links, lines[..i])
    decreases |lines| - i
  {
    if i < |lines| {
      assert lines[..i + 1][..i] == lines[..i];
      LinksStayStopped(links, lines, i + 1);
    } else {
      assert lines[..i] == lines;
    }
  }

  /** `loadAnalogues`: a missing file is no links and true; otherwise the
      lines are read in order and the load is true unless a line threw.
      Links made before that line stay. */
  method LoadAnalogues(file: Option<seq<string>>, links: map<string, seq<string>>)
    returns (after: map<string, seq<string>>, ok: bool)
    ensures file.None? ==> after == links && ok
    ensures file.Some? ==> after == ReadLinks(links, file.value).links
                           && (ok <==> ReadLinks(links, file.value).stopped.None?)
    ensures after.Keys == links.Keys
    ensures LinksValid(links) ==> LinksValid(after)
  {
    if file.None? {
      return links, true;
    }
    var lines := file.value;
    after := links;
    var stopped: Option<Error> := None;
    var i := 0;
    while i < |lines| && stopped.None?
      invariant 0 <= i <= |lines|
      decreases |lines| - i
      invariant Linking(after, stopped) == ReadLinks(links, lines[..i])
    {
      assert lines[..i + 1][..i] == lines[..i];
      match LinkLine(after, lines[i]) {
        case Ok(next) => after := next;
        case Fail(e) => stopped := Some(e);
      }
      i := i + 1;
    }
    if stopped.Some? {
      LinksStayStopped(links, lines, i);
    } else {
      assert lines[..i] == lines;
    }
    if LinksValid(links) {
      ReadLinksValid(links, lines);
    }
    ok := stopped.None?;
  }

  /** The lines `saveAnalogues` writes for one medicine: `id;analogueId`
      for each listed analogue, in list order. */
  function LinkLines(id: string, analogueIds: seq<string>): (lines: seq<string>)
    ensures |lines| == |analogueIds|
    ensures forall i :: 0 <= i < |lines| ==> lines[i] == id + ";" + analogueIds[i]
  {
    if |analogueIds| == 0 then []
    else LinkLines(id, analogueIds[..|analogueIds| - 1]) + [id + ";" + analogueIds[|analogueIds| - 1]]
  }

  /** `saveAnalogues`: the lines of each medicine, medicines in list order;
      a medicine is its id and the ids of its analogues. */
  function SaveAnalogues(meds: seq<(string, seq<string>)>): (lines: seq<string>)
    ensures LinksListed(meds, lines) && LinesLinked(meds, lines)
  {
    if |meds| == 0 then []
    else
      var last := meds[|meds| - 1];
      var earlier := SaveAnalogues(meds[..|meds| - 1]);
      LinksStep(meds, earlier);
      earlier + LinkLines(last.0, last.1)
  }

  /** Every analogue of every medicine has its `id;analogueId` line. */
  predicate LinksListed(meds: seq<(string, seq<string>)>, lines: seq<string>) {
    forall j, k :: 0 <= j < |meds| && 0 <= k < |meds[j].1| ==> meds[j].0 + ";" + meds[j].1[k] in lines
  }

  /** Every line is `id;analogueId` for an analogue some medicine lists. */
  predicate LinesLinked(meds: seq<(string, seq<string>)>, lines: seq<string>) {
    forall i :: 0 <= i < |lines| ==> IsLinkLine(meds, lines[i])
  }

  predicate IsLinkLine(meds: seq<(string, seq<string>)>, line: string) {
    exists j, k :: 0 <= j < |meds| && 0 <= k < |meds[j].1| && line == meds[j].0 + ";" + meds[j].1[k]
  }

  lemma LinksStep(meds: seq<(string, seq<string>)>, earlier: seq<string>)
    requires |meds| > 0
    requires LinksListed(meds[..|meds| - 1], earlier) && LinesLinked(meds[..|meds| - 1], earlier)
    ensures var last := meds[|meds| - 1];
            LinksListed(meds, earlier + LinkLines(last.0, last.1)) && LinesLinked(meds, earlier + LinkLines(last.0, last.1))
  {
    var n := |meds| - 1;
    var last := meds[n];
    var added := LinkLines(last.0, last.1);
    var lines := earlier + added;
    forall j, k | 0 <= j < |meds| && 0 <= k < |meds[j].1| ensures meds[j].0 + ";" + meds[j].1[k] in lines {
      if j < n {
        assert meds[..n][j] == meds[j];
      } else {
        assert added[k] in lines;
      }
    }
    forall i | 0 <= i < |lines| ensures IsLinkLine(meds, lines[i]) {
      if i < |earlier| {
        var pre := meds[..n];
        assert IsLinkLine(pre, earlier[i]);
        var j, k :| 0 <= j < |pre| && 0 <= k < |pre[j].1| && earlier[i] == pre[j].0 + ";" + pre[j].1[k];
        assert pre[j] == meds[j];
      } else {
        assert lines[i] == meds[n].0 + ";" + meds[n].1[i - |earlier|];
      }
    }
  }

  /** Reading one more line when no line has thrown yet. */
  lemma {:induction false} ReadOneMoreLink(links: map<string, seq<string>>, lines: seq<string>, line: string)
    requires ReadLinks(links, lines).stopped.None?
    ensures ReadLinks(links, lines + [line])
            == match LinkLine(ReadLinks(links, lines).links, line)
               case Ok(next) => Linking(next, None)
               case Fail(e) => Linking(ReadLinks(links, lines).links, Some(e))
  {
    assert (lines + [line])[..|lines|] == lines;
  }

  /** A written link line splits back into its two ids. */
  lemma {:induction false} SplitLinkOf(id: string, analogueId: string)
    requires ';' !in id
    ensures SplitLink(id + ";" + analogueId) == Some((id, analogueId))
  {
    IndexOfJoined(id, ';', analogueId);
    var line := id + ";" + analogueId;
    assert line[..|id|] == id && line[|id| + 1..] == analogueId;
  }

  /** A written link between two loaded medicines, not yet linked, is made. */
  lemma {:induction false} LinkOneMore(links: map<string, seq<string>>, lines: seq<string>, id: string, a: string)
    requires ReadLinks(links, lines).stopped.None? && ';' !in id
    requires id in ReadLinks(links, lines).links && a in ReadLinks(links, lines).links
    requires a != id && a !in ReadLinks(links, lines).links[id]
    ensures ReadLinks(links, lines + [id + ";" + a])
            == Linking(ReadLinks(links, lines).links[id := ReadLinks(links, lines).links[id] + [a]], None)
  {
    ReadOneMoreLink(links, lines, id + ";" + a);
    SplitLinkOf(id, a);
  }

  lemma UpdateTwice<K, V>(m: map<K, V>, k: K, v1: V, v2: V)
    ensures m[k := v1][k := v2] == m[k := v2]
  {
  }

  /** Reading the lines of one medicine whose list is still empty gives it
      exactly the analogues written, provided they are loaded medicines
      other than itself and none is listed twice. */
  lemma {:induction false} ReadMedicineLinks(links: map<string, seq<string>>, pre: seq<string>,
                                             id: string, analogueIds: seq<string>)
    requires ReadLinks(links, pre).stopped.None? && ';' !in id
    requires id in ReadLinks(links, pre).links && ReadLinks(links, pre).links[id] == []
    requires forall i :: 0 <= i < |analogueIds| ==> analogueIds[i] in links && analogueIds[i] != id
    requires forall i, j :: 0 <= i < j < |analogueIds| ==> analogueIds[i] != analogueIds[j]
    ensures ReadLinks(links, pre + LinkLines(id, analogueIds))
            == Linking(ReadLinks(links, pre).links[id := analogueIds], None)
    decreases |analogueIds|
  {
    var before := ReadLinks(links, pre).links;
    if |analogueIds| == 0 {
      assert pre + LinkLines(id, analogueIds) == pre;
      assert before[id := analogueIds] == before;
    } else {
      var n := |analogueIds| - 1;
      var init := analogueIds[..n];
      var a := analogueIds[n];
      LinkIdsInit(links, id, analogueIds);
      ReadMedicineLinks(links, pre, id, init);
      var lines := pre + LinkLines(id, init);
      LinkLinesSnoc(pre, id, analogueIds);
      LinkOneMore(links, lines, id, a);
      SnocLast(analogueIds);
      UpdateTwice(before, id, init, analogueIds);
    }
  }

  /** What the conditions on a list of analogue ids say of all but its last
      id, and of the last one. */
  lemma LinkIdsInit(links: map<string, seq<string>>, id: string, analogueIds: seq<string>)
    requires |analogueIds| > 0
    requires forall i :: 0 <= i < |analogueIds| ==> analogueIds[i] in links && analogueIds[i] != id
    requires forall i, j :: 0 <= i < j < |analogueIds| ==> analogueIds[i] != analogueIds[j]
    ensures var init := analogueIds[..|analogueIds| - 1];
            (forall i :: 0 <= i < |init| ==> init[i] in links && init[i] != id)
            && (forall i, j :: 0 <= i < j < |init| ==> init[i] != init[j])
    ensures var a := analogueIds[|analogueIds| - 1];
            a in links && a != id && a !in analogueIds[..|analogueIds| - 1]
  {
  }

  lemma LinkLinesSnoc(pre: seq<string>, id: string, analogueIds: seq<string>)
    requires |analogueIds| > 0
    ensures pre + LinkLines(id, analogueIds)
            == (pre + LinkLines(id, analogueIds[..|analogueIds| - 1])) + [id + ";" + analogueIds[|analogueIds| - 1]]
  {
  }

  /** The ids of the medicines saved, and what makes their links read back:
      distinct ids without ';', and lists of other saved medicines, none
      twice. */
  function SavedIds(meds: seq<(string, seq<string>)>): set<string> {
    set m | m in meds :: m.0
  }

  predicate LinksSaveable(meds: seq<(string, seq<string>)>) {
    (forall i, j :: 0 <= i < j < |meds| ==> meds[i].0 != meds[j].0)
    && (forall i :: 0 <= i < |meds| ==> ';' !in meds[i].0)
    && (forall i, k :: 0 <= i < |meds| && 0 <= k < |meds[i].1| ==>
          meds[i].1[k] in SavedIds(meds) && meds[i].1[k] != meds[i].0)
    && (forall i, k, l :: 0 <= i < |meds| && 0 <= k < l < |meds[i].1| ==> meds[i].1[k] != meds[i].1[l])
  }

  /** The first `k` medicines have their saved lists, the others none. */
  predicate LinkedUpTo(meds: seq<(string, seq<string>)>, links: map<string, seq<string>>, k: nat) {
    forall i :: 0 <= i < |meds| ==> meds[i].0 in links && links[meds[i].0] == (if i < k then meds[i].1 else [])
  }

  /** Giving medicine `k` its list moves the boundary by one. */
  lemma {:induction false} LinkedStep(meds: seq<(string, seq<string>)>, links: map<string, seq<string>>, k: nat)
    requires LinksSaveable(meds) && k < |meds| && LinkedUpTo(meds, links, k)
    ensures LinkedUpTo(meds, links[meds[k].0 := meds[k].1], k + 1)
  {
  }

  lemma {:induction false} NothingSavedYet(meds: seq<(string, seq<string>)>)
    ensures ReadLinks(Unlinked(SavedIds(meds)), SaveAnalogues(meds[..0])) == Linking(Unlinked(SavedIds(meds)), None)
    ensures LinkedUpTo(meds, Unlinked(SavedIds(meds)), 0)
  {
    var base := Unlinked(SavedIds(meds));
    assert SaveAnalogues(meds[..0]) == [];
    forall i | 0 <= i < |meds| ensures meds[i].0 in base && base[meds[i].0] == [] {
      assert meds[i] in meds;
    }
  }

  /** After the lines of the first `k` medicines, those have their lists and
      the others none. */
  lemma {:induction false} SavedLinksUpTo(meds: seq<(string, seq<string>)>, k: nat)
    requires LinksSaveable(meds) && k <= |meds|
    ensures ReadLinks(Unlinked(SavedIds(meds)), SaveAnalogues(meds[..k])).stopped.None?
    ensures LinkedUpTo(meds, ReadLinks(Unlinked(SavedIds(meds)), SaveAnalogues(meds[..k])).links, k)
  {
    var base := Unlinked(SavedIds(meds));
    if k == 0 {
      NothingSavedYet(meds);
    } else {
      SavedLinksUpTo(meds, k - 1);
      SavedLinksStep(meds, k - 1);
    }
  }

  lemma {:induction false} SavedOneMore(meds: seq<(string, seq<string>)>, k: nat)
    requires k < |meds|
    ensures SaveAnalogues(meds[..k + 1]) == SaveAnalogues(meds[..k]) + LinkLines(meds[k].0, meds[k].1)
  {
    assert meds[..k + 1][..k] == meds[..k];
  }

  /** What `LinksSaveable` says of medicine `k`, in the terms the reader
      checks. */
  lemma {:induction false} SaveableEntry(meds: seq<(string, seq<string>)>, k: nat)
    requires LinksSaveable(meds) && k < |meds|
    ensures ';' !in meds[k].0
    ensures forall i :: 0 <= i < |meds[k].1| ==> meds[k].1[i] in Unlinked(SavedIds(meds)) && meds[k].1[i] != meds[k].0
    ensures forall i, j :: 0 <= i < j < |meds[k].1| ==> meds[k].1[i] != meds[k].1[j]
  {
  }

  /** The lines of medicine `k` give it its list and nothing else. */
  lemma {:induction false} SavedLinksStep(meds: seq<(string, seq<string>)>, k: nat)
    requires LinksSaveable(meds) && k < |meds|
    requires ReadLinks(Unlinked(SavedIds(meds)), SaveAnalogues(meds[..k])).stopped.None?
    requires LinkedUpTo(meds, ReadLinks(Unlinked(SavedIds(meds)), SaveAnalogues(meds[..k])).links, k)
    ensures ReadLinks(Unlinked(SavedIds(meds)), SaveAnalogues(meds[..k + 1])).stopped.None?
    ensures LinkedUpTo(meds, ReadLinks(Unlinked(SavedIds(meds)), SaveAnalogues(meds[..k + 1])).links, k + 1)
  {
    var base := Unlinked(SavedIds(meds));
    var pre := SaveAnalogues(meds[..k]);
    var before := ReadLinks(base, pre).links;
    var id := meds[k].0;
    var analogueIds := meds[k].1;
    SavedOneMore(meds, k);
    SaveableEntry(meds, k);
    ReadMedicineLinks(base, pre, id, analogueIds);
    var after := ReadLinks(base, SaveAnalogues(meds[..k + 1]));
    assert after == Linking(before[id := analogueIds], None);
    LinkedStep(meds, before, k);
  }

  /** Loading what `saveAnalogues` wrote, into the same medicines with no
      links yet, gives every medicine back its analogue list, in order, and
      the load succeeds. */
  lemma {:induction false} SaveLoadAnalogues(meds: seq<(string, seq<string>)>)
    requires LinksSaveable(meds)
    ensures ReadLinks(Unlinked(SavedIds(meds)), SaveAnalogues(meds)).stopped.None?
    ensures ReadLinks(Unlinked(SavedIds(meds)), SaveAnalogues(meds)).links.Keys == SavedIds(meds)
    ensures forall i :: 0 <= i < |meds| ==>
              ReadLinks(Unlinked(SavedIds(meds)), SaveAnalogues(meds)).links[meds[i].0] == meds[i].1
  {
    SavedLinksUpTo(meds, |meds|);
    assert meds[..|meds|] == meds;
    forall id | id in SavedIds(meds) ensures id in ReadLinks(Unlinked(SavedIds(meds)), SaveAnalogues(meds)).links {
    }
  }

  // ---------------------------------------------------------------------
  // Inventory operations
  // ---------------------------------------------------------------------

  const SupplyPrefix := "SUPPLY;"
  const ReturnPrefix := "RETURN;"
  const WriteOffPrefix := "WRITEOFF;"

  /** What the stream verdict of an operation's `>>` means to the loader:
      the operation is kept only when the stream did not fail. */
  function KeptIfGood(read: (Operations.OpRecord, Operations.ReadStatus)): (r: LineRead<Operations.OpRecord>)
    ensures r.Take? <==> read.1 == Operations.Good
    ensures r.Take? ==> r.value == read.0
  {
    if read.1 == Operations.Good then Take(read.0) else Skip
  }

  /** The kind of operation a line's prefix names, as the details of a
      default-constructed operation of that kind. */
  function OperationKind(line: string): (k: Option<Operations.Details>)
    ensures k.Some? ==> IsPrefix(Operations.Prefix(k.value), line) && k.value == Operations.EmptyDetails(k.value)
    ensures k.None? <==> !IsPrefix(SupplyPrefix, line) && !IsPrefix(ReturnPrefix, line) && !IsPrefix(WriteOffPrefix, line)
  {
    if IsPrefix(SupplyPrefix, line) then Some(Operations.SupplyRoute("", ""))
    else if IsPrefix(ReturnPrefix, line) then Some(Operations.ReturnReason(""))
    else if IsPrefix(WriteOffPrefix, line) then Some(Operations.WriteOffReason(""))
    else None
  }

  /** One line of the operations file: after a kind prefix the rest of the
      line goes to that kind's `>>`, into a default operation. A line that
      fails the stream, or whose reader throws (caught as `std::exception`),
      is skipped and reading goes on; so are empty lines and lines with no
      known prefix. No line stops the load. */
  function OperationLine(line: string): (r: LineRead<Operations.OpRecord>)
    ensures !r.Abort?
    ensures r.Take? ==> IsPrefix(Operations.Prefix(r.value.details), line)
    ensures r.Take? ==> Operations.DetailsFilled(r.value.details) && r.value.base.productId != ""
  {
    match OperationKind(line)
    case None => Skip
    case Some(kind) =>
      KeptIfGood(Operations.ParseInto(Operations.DefaultRecord(kind), line[|Operations.Prefix(kind)|..]))
  }

  /** A kind prefix in front of a body is recognised, and the body is what
      the kind's reader gets. */
  lemma {:induction false} PrefixRecognised(d: Operations.Details, body: string)
    ensures OperationKind(Operations.Prefix(d) + body) == Some(Operations.EmptyDetails(d))
    ensures (Operations.Prefix(d) + body)[|Operations.Prefix(d)|..] == body
  {
    var line := Operations.Prefix(d) + body;
    match d
    case SupplyRoute(_, _) =>
      assert line[..7] == SupplyPrefix;
    case ReturnReason(_) =>
      assert line[..7] == ReturnPrefix && line[0] == 'R';
    case WriteOffReason(_) =>
      assert line[..9] == WriteOffPrefix && line[0] == 'W';
  }

  /** The operations read from `lines`, in file order. */
  function ReadOperations(lines: seq<string>): Scan<Operations.OpRecord> {
    ReadAll(ReadEach(lines, OperationLine))
  }

  /** Every line is read, and what is kept is what the readers accepted. */
  lemma {:induction false} LoadedOperationsRead(lines: seq<string>)
    ensures ReadOperations(lines).stopped.None?
    ensures forall r :: r in ReadOperations(lines).kept ==> Take(r) in ReadEach(lines, OperationLine)
  {
    var steps := ReadEach(lines, OperationLine);
    KeptAreTaken(steps);
    assert forall i :: 0 <= i < |steps| ==> !steps[i].Abort?;
  }

  /** `loadInventoryOperations`: a file that cannot be opened is false and
      leaves the list alone; otherwise the list is replaced by every
      operation read, and the load is true. */
  method LoadInventoryOperations(file: Option<seq<string>>, previous: seq<Operations.OpRecord>)
    returns (operations: seq<Operations.OpRecord>, ok: bool)
    ensures file.None? ==> operations == previous && !ok
    ensures file.Some? ==> operations == ReadOperations(file.value).kept && ok
  {
    if file.None? {
      return previous, false;
    }
    var stopped;
    operations, stopped := ScanLines(file.value, OperationLine);
    LoadedOperationsRead(file.value);
    ok := true;
  }

  /** The line `saveInventoryOperations` writes for an operation: its kind
      prefix, then its own `<<`. */
  function OperationText(r: Operations.OpRecord): string {
    Operations.Prefix(r.details) + Operations.Encode(r)
  }

  /** A written operation line reads back as the same operation. */
  lemma {:induction false} OperationLineRoundTrip(r: Operations.OpRecord)
    requires Operations.RecordRoundTrips(r)
    ensures OperationLine(OperationText(r)) == Take(r)
  {
    PrefixRecognised(r.details, Operations.Encode(r));
    var kind := Operations.EmptyDetails(r.details);
    assert Operations.SameKind(Operations.DefaultRecord(kind).details, r.details);
    Operations.RoundTrip(r, Operations.DefaultRecord(kind));
  }

  /** The lines the writing loop of `saveInventoryOperations` produces. */
  function SaveOperations(ops: seq<Operations.OpRecord>): (lines: seq<string>)
    ensures |lines| == |ops|
    ensures forall i :: 0 <= i < |ops| && Operations.RecordRoundTrips(ops[i]) ==> OperationLine(lines[i]) == Take(ops[i])
  {
    OperationsRead(ops);
    Written(ops, OperationText)
  }

  lemma OperationsRead(ops: seq<Operations.OpRecord>)
    ensures forall i :: 0 <= i < |ops| && Operations.RecordRoundTrips(ops[i]) ==>
              OperationLine(Written(ops, OperationText)[i]) == Take(ops[i])
  {
    forall i | 0 <= i < |ops| && Operations.RecordRoundTrips(ops[i])
      ensures OperationLine(OperationText(ops[i])) == Take(ops[i])
    {
      OperationLineRoundTrip(ops[i]);
    }
  }

  /** Loading what was saved gives back every operation, in order. */
  lemma {:induction false} SaveLoadOperations(ops: seq<Operations.OpRecord>)
    requires forall r :: r in ops ==> Operations.RecordRoundTrips(r)
    ensures ReadOperations(SaveOperations(ops)) == Scan(ops, None)
  {
    var lines := SaveOperations(ops);
    var steps := ReadEach(lines, OperationLine);
    forall i | 0 <= i < |lines| ensures steps[i] == Take(ops[i]) {
      assert ops[i] in ops;
    }
    ReadAllTaken(steps, ops);
  }

  /** Whether some operation in `ops` has the id: the inner search of
      `saveInventoryOperations`. */
  predicate HasId(ops: seq<Operations.OpRecord>, id: string) {
    exists j :: 0 <= j < |ops| && ops[j].base.id == id
  }

  lemma {:induction false} HasIdSnoc(ops: seq<Operations.OpRecord>, op: Operations.OpRecord, id: string)
    ensures HasId(ops + [op], id) <==> HasId(ops, id) || op.base.id == id
  {
    if HasId(ops, id) {
      var t :| 0 <= t < |ops| && ops[t].base.id == id;
      assert (ops + [op])[t] == ops[t];
    }
    assert (ops + [op])[|ops|] == op;
  }

  lemma {:induction false} HasIdPrefix(ops: seq<Operations.OpRecord>, j: nat, id: string)
    requires j <= |ops| && HasId(ops[..j], id)
    ensures HasId(ops, id)
  {
    var t :| 0 <= t < j && ops[..j][t].base.id == id;
    assert ops[t] == ops[..j][t];
  }

  /** The operations `saveInventoryOperations` writes: those already in the
      file, then each new operation whose id is not yet among them, in
      order. */
  function Merge(existing: seq<Operations.OpRecord>, incoming: seq<Operations.OpRecord>): (r: seq<Operations.OpRecord>)
    ensures existing <= r
    ensures forall x :: x in r ==> x in existing || x in incoming
  {
    if |incoming| == 0 then existing
    else
      var merged := Merge(existing, incoming[..|incoming| - 1]);
      var op := incoming[|incoming| - 1];
      if HasId(merged, op.base.id) then merged else merged + [op]
  }

  /** An id is in the merged list exactly when it was in the file or among
      the new operations. */
  lemma {:induction false} MergeIds(existing: seq<Operations.OpRecord>, incoming: seq<Operations.OpRecord>, id: string)
    ensures HasId(Merge(existing, incoming), id) <==> HasId(existing, id) || HasId(incoming, id)
  {
    if |incoming| > 0 {
      var n := |incoming| - 1;
      var merged := Merge(existing, incoming[..n]);
      MergeIds(existing, incoming[..n], id);
      assert incoming == incoming[..n] + [incoming[n]];
      HasIdSnoc(incoming[..n], incoming[n], id);
      if !HasId(merged, incoming[n].base.id) {
        HasIdSnoc(merged, incoming[n], id);
      }
    }
  }

  /** Ids distinct in the list. */
  predicate DistinctIds(ops: seq<Operations.OpRecord>) {
    forall i, j :: 0 <= i < j < |ops| ==> ops[i].base.id != ops[j].base.id
  }

  /** Merging never creates a second operation with an id already present. */
  lemma {:induction false} MergeDistinct(existing: seq<Operations.OpRecord>, incoming: seq<Operations.OpRecord>)
    requires DistinctIds(existing)
    ensures DistinctIds(Merge(existing, incoming))
  {
    if |incoming| > 0 {
      var n := |incoming| - 1;
      MergeDistinct(existing, incoming[..n]);
      var merged := Merge(existing, incoming[..n]);
      var op := incoming[n];
      if !HasId(merged, op.base.id) {
        var r := merged + [op];
        forall i, j | 0 <= i < j < |r| ensures r[i].base.id != r[j].base.id {
          if j == |merged| {
            assert r[i] == merged[i];
          }
        }
      }
    }
  }

  /** New operations whose ids are all in the file add nothing. */
  lemma {:induction false} MergeKnown(existing: seq<Operations.OpRecord>, incoming: seq<Operations.OpRecord>)
    requires forall i :: 0 <= i < |incoming| ==> HasId(existing, incoming[i].base.id)
    ensures Merge(existing, incoming) == existing
  {
    if |incoming| > 0 {
      var n := |incoming| - 1;
      MergeKnown(existing, incoming[..n]);
    }
  }

  /** Saving the same operations again changes nothing: they are all in the
      file after the first save. */
  lemma {:induction false} MergeIdempotent(existing: seq<Operations.OpRecord>, incoming: seq<Operations.OpRecord>)
    ensures Merge(Merge(existing, incoming), incoming) == Merge(existing, incoming)
  {
    var merged := Merge(existing, incoming);
    forall i | 0 <= i < |incoming| ensures HasId(merged, incoming[i].base.id) {
      MergeIds(existing, incoming, incoming[i].base.id);
    }
    MergeKnown(merged, incoming);
  }

  /** The merge loop of `saveInventoryOperations`: for each new operation,
      a search of everything gathered so far for its id. */
  method MergeOperations(existing: seq<Operations.OpRecord>, incoming: seq<Operations.OpRecord>)
    returns (all: seq<Operations.OpRecord>)
    ensures all == Merge(existing, incoming)
  {
    all := existing;
    var k := 0;
    while k < |incoming|
      invariant 0 <= k <= |incoming|
      invariant all == Merge(existing, incoming[..k])
    {
      var op := incoming[k];
      var found := false;
      var j := 0;
      while j < |all| && !found
        invariant 0 <= j <= |all|
        invariant found <==> HasId(all[..j], op.base.id)
      {
        assert all[..j + 1] == all[..j] + [all[j]];
        HasIdSnoc(all[..j], all[j], op.base.id);
        if all[j].base.id == op.base.id {
          found := true;
        }
        j := j + 1;
      }
      if found {
        HasIdPrefix(all, j, op.base.id);
      } else {
        assert all[..j] == all;
      }
      assert incoming[..k + 1][..k] == incoming[..k];
      if !found {
        all := all + [op];
      }
      k := k + 1;
    }
    assert incoming[..k] == incoming;
  }

  /** `saveInventoryOperations`: the operations already in the file (none
      when it cannot be read), merged with the new ones, are written back
      whole. */
  method SaveInventoryOperations(file: Option<seq<string>>, incoming: seq<Operations.OpRecord>)
    returns (written: seq<string>)
    ensures written == SaveOperations(Merge(if file.Some? then ReadOperations(file.value).kept else [], incoming))
  {
    var existing, loaded := LoadInventoryOperations(file, []);
    var all := MergeOperations(existing, incoming);
    written := SaveOperations(all);
  }

  /** What a save leaves in the file loads back as the merged operations,
      and saving the same operations again writes the same file. */
  lemma {:induction false} SaveInventoryTwice(existing: seq<Operations.OpRecord>, incoming: seq<Operations.OpRecord>)
    requires forall r :: r in existing ==> Operations.RecordRoundTrips(r)
    requires forall r :: r in incoming ==> Operations.RecordRoundTrips(r)
    ensures ReadOperations(SaveOperations(Merge(existing, incoming))).kept == Merge(existing, incoming)
    ensures SaveOperations(Merge(ReadOperations(SaveOperations(Merge(existing, incoming))).kept, incoming))
            == SaveOperations(Merge(existing, incoming))
  {
    SaveLoadOperations(Merge(existing, incoming));
    MergeIdempotent(existing, incoming);
  }

  // ---------------------------------------------------------------------
  // Pharmacies
  // ---------------------------------------------------------------------

  /** Empty, or spaces only: the lines `loadPharmacies` passes over. */
  predicate Blank(line: string) {
    forall k :: 0 <= k < |line| ==> line[k] == ' '
  }

  lemma {:induction false} BlankOneField(line: string)
    requires Blank(line)
    ensures |Split(line, ';')| <= 1
  {
    if |line| > 0 {
      assert ';' !in line;
      IndexOfAbsent(line, ';');
    }
  }

  /** One line of the pharmacies file: a line that is not blank, has
      exactly five `;` fields and a fifth that `>>` reads as a number
      becomes a pharmacy, through a constructor that checks nothing; every
      other line is passed over. */
  function PharmacyLine(line: string): (r: LineRead<Pharmacies.PharmacyInfo>)
    ensures !r.Abort?
    ensures r.Take? <==> !Blank(line) && |Split(line, ';')| == 5 && ExtractReal(Split(line, ';')[4]).Some?
  {
    if Blank(line) then Skip
    else
      var tokens := Split(line, ';');
      if |tokens| == 5 then
        match ExtractReal(tokens[4])
        case None => Skip
        case Some((rent, _)) => Take(Pharmacies.PharmacyInfo(tokens[0], tokens[1], tokens[2], tokens[3], rent))
      else Skip
  }

  /** The four pharmacies `loadPharmacies` falls back on. */
  const FixedPharmacies: seq<Pharmacies.PharmacyInfo> := [
    Pharmacies.PharmacyInfo("001", "Главная аптека", "ул. Ленина, 10", "+7-495-123-4567", 50000.0),
    Pharmacies.PharmacyInfo("002", "Аптека №2", "пр. Мира, 25", "+7-495-765-4321", 35000.0),
    Pharmacies.PharmacyInfo("003", "Северная аптека", "ул. Северная, 5", "+7-495-555-8899", 28000.0),
    Pharmacies.PharmacyInfo("004", "Западная аптека", "ул. Западная, 15", "+7-495-777-8888", 42000.0)
  ]

  /** The details `loadPharmacies` ends with: those of the accepted lines,
      or the fixed four when the file is missing or no line is accepted. */
  function LoadedPharmacyInfos(file: Option<seq<string>>): (r: seq<Pharmacies.PharmacyInfo>)
    ensures |r| > 0
    ensures file.None? ==> r == FixedPharmacies
  {
    if file.None? then FixedPharmacies
    else
      var kept := ReadAll(ReadEach(file.value, PharmacyLine)).kept;
      if |kept| > 0 then kept else FixedPharmacies
  }

  /** `loadPharmacies`: the list is replaced by new pharmacies with the
      loaded details, in order, each with an empty ledger. */
  method LoadPharmacies(file: Option<seq<string>>) returns (pharmacies: seq<Pharmacies.Pharmacy>)
    ensures |pharmacies| == |LoadedPharmacyInfos(file)|
    ensures forall i :: 0 <= i < |pharmacies| ==>
              pharmacies[i].info == LoadedPharmacyInfos(file)[i] && fresh(pharmacies[i])
              && fresh(pharmacies[i].storage) && pharmacies[i].storage.items == map[]
  {
    var infos := FixedPharmacies;
    if file.Some? {
      var kept, stopped := ScanLines(file.value, PharmacyLine);
      if |kept| > 0 {
        infos := kept;
      }
    }
    pharmacies := NewPharmacies(infos);
  }

  /** One new pharmacy per entry, in order, each with an empty ledger. */
  method NewPharmacies(infos: seq<Pharmacies.PharmacyInfo>) returns (pharmacies: seq<Pharmacies.Pharmacy>)
    ensures |pharmacies| == |infos|
    ensures forall i :: 0 <= i < |pharmacies| ==>
              pharmacies[i].info == infos[i] && fresh(pharmacies[i])
              && fresh(pharmacies[i].storage) && pharmacies[i].storage.items == map[]
  {
    pharmacies := [];
    var i := 0;
    while i < |infos|
      invariant 0 <= i <= |infos|
      invariant |pharmacies| == i
      invariant forall k :: 0 <= k < i ==>
                  pharmacies[k].info == infos[k] && fresh(pharmacies[k])
                  && fresh(pharmacies[k].storage) && pharmacies[k].storage.items == map[]
    {
      var p := new Pharmacies.Pharmacy(infos[i]);
      pharmacies := pharmacies + [p];
      i := i + 1;
    }
  }

  /** A line in the five-field form reads back as the same details. */
  lemma {:induction false} PharmacyLineRoundTrip(info: Pharmacies.PharmacyInfo)
    requires Pharmacies.InfoRoundTrips(info)
    ensures PharmacyLine(Pharmacies.Encode(info)) == Take(info)
  {
    var line := Pharmacies.Encode(info);
    var fields := Pharmacies.InfoFields(info);
    Pharmacies.InfoFieldsPlain(info);
    ProductCodecs.LineSplits(fields);
    assert Split(line, ';') == fields;
    if Blank(line) {
      BlankOneField(line);
    }
    ProductCodecs.WholeText(info.rent);
  }

  /** A line as `savePharmacies` writes it, with the stock count as a sixth
      field, is always passed over. */
  lemma {:induction false} WrittenPharmacyLineSkipped(info: Pharmacies.PharmacyInfo, stocked: nat)
    requires Pharmacies.InfoRoundTrips(info)
    ensures PharmacyLine(Pharmacies.EncodeAsWritten(info, stocked)) == Skip
  {
  }

  /** One pharmacy as `<<` writes it, with the number of products it
      stocks. */
  function PharmacyText(e: (Pharmacies.PharmacyInfo, nat)): string {
    Pharmacies.EncodeAsWritten(e.0, e.1)
  }

  /** `savePharmacies` as written: each pharmacy's `<<`, which adds the
      number of products it stocks and writes no line break, so the
      pharmacies follow one another on a single line. Each stock count runs
      into the next pharmacy's id, which leaves five fields per pharmacy and
      one more. */
  function SavePharmaciesAsWritten(saved: seq<(Pharmacies.PharmacyInfo, nat)>): (r: string)
    ensures (forall e :: e in saved ==> Pharmacies.InfoRoundTrips(e.0)) ==>
              '\n' !in r && (|saved| > 0 ==> |Split(r, ';')| == 5 * |saved| + 1)
  {
    var lines := Written(saved, PharmacyText);
    if forall e :: e in saved ==> Pharmacies.InfoRoundTrips(e.0) then
      assert NoSep(lines, '\n') by {
        forall i | 0 <= i < |lines| ensures '\n' !in lines[i] {
          assert saved[i] in saved;
        }
      }
      if |saved| > 0 then
        WrittenPharmaciesSplit("", saved);
        assert "" + Concat(lines) == Concat(lines);
        Concat(lines)
      else
        Concat(lines)
    else
      Concat(lines)
  }

  /** Joining texts from the front: the first, then the rest. */
  lemma {:induction false} ConcatCons(lines: seq<string>)
    requires |lines| > 0
    ensures Concat(lines) == lines[0] + Concat(lines[1..])
    decreases |lines|
  {
    if |lines| > 1 {
      var n := |lines| - 1;
      ConcatCons(lines[..n]);
      assert lines[..n][1..] == lines[1..][..n - 1];
      assert lines[1..][n - 1] == lines[n];
    }
  }

  /** One pharmacy as `<<` writes it, after a text without `;` and before
      any text: the first five fields split off, the id joined to what came
      before. */
  lemma {:induction false} WrittenPharmacySplits(p: string, info: Pharmacies.PharmacyInfo, stocked: nat, rest: string)
    requires ';' !in p && Pharmacies.InfoRoundTrips(info)
    ensures Split(p + Pharmacies.EncodeAsWritten(info, stocked) + rest, ';')
            == [p + info.id, info.name, info.address, info.phone, RealToString(info.rent)]
               + Split(NatToString(stocked) + rest, ';')
  {
    var fs := [info.id, info.name, info.address, info.phone, RealToString(info.rent), NatToString(stocked)];
    Pharmacies.AsWrittenPlain(info, stocked);
    assert Pharmacies.EncodeAsWritten(info, stocked) == Join(fs, ';');
    SplitJoinedBetween(p, fs, ';', rest);
    assert fs[1..5] == [info.name, info.address, info.phone, RealToString(info.rent)];
  }

  /** Joined fields between two texts: the first field runs into the text
      before, the last into the text after, and those between split off as
      they were. */
  lemma SplitJoinedBetween(p: string, fields: seq<string>, sep: char, rest: string)
    requires |fields| >= 2 && NoSep(fields, sep) && sep !in p
    ensures Split(p + Join(fields, sep) + rest, sep)
            == [p + fields[0]] + fields[1..|fields| - 1] + Split(fields[|fields| - 1] + rest, sep)
  {
    var n := |fields|;
    var tail := fields[1..];
    var joined := Join(tail, sep);
    var end := Split(fields[n - 1] + rest, sep);
    assert sep !in fields[0];
    NoSepTail(fields, sep);
    calc {
      Split(p + Join(fields, sep) + rest, sep);
      { assert Join(fields, sep) == fields[0] + [sep] + joined;
        FieldRegroup(p, fields[0], sep, joined, rest); }
      Split((p + fields[0]) + [sep] + (joined + rest), sep);
      { SplitCons(p + fields[0], sep, joined + rest); }
      [p + fields[0]] + Split(joined + rest, sep);
      { SplitJoinedBefore(tail, sep, rest);
        assert tail[..|tail| - 1] == fields[1..n - 1] && tail[|tail| - 1] == fields[n - 1]; }
      [p + fields[0]] + (fields[1..n - 1] + end);
      { AppendAssociates([p + fields[0]], fields[1..n - 1], end); }
      [p + fields[0]] + fields[1..n - 1] + end;
    }
  }

  lemma FieldRegroup<T>(a: seq<T>, b: seq<T>, c: T, d: seq<T>, e: seq<T>)
    ensures a + (b + [c] + d) + e == (a + b) + [c] + (d + e)
  {
  }

  lemma NoSepTail(fields: seq<string>, sep: char)
    requires |fields| > 0 && NoSep(fields, sep)
    ensures NoSep(fields[1..], sep)
  {
    forall i | 0 <= i < |fields| - 1 ensures sep !in fields[1..][i] {
      assert fields[1..][i] == fields[i + 1];
    }
  }

  /** Joined fields before a text: all but the last split off as they
      were, the last runs into the text. */
  lemma {:induction false} SplitJoinedBefore(fields: seq<string>, sep: char, rest: string)
    requires |fields| > 0 && NoSep(fields, sep)
    ensures Split(Join(fields, sep) + rest, sep) == fields[..|fields| - 1] + Split(fields[|fields| - 1] + rest, sep)
    decreases |fields|
  {
    var n := |fields|;
    if n > 1 {
      var tail := fields[1..];
      var joined := Join(tail, sep);
      var end := Split(fields[n - 1] + rest, sep);
      assert sep !in fields[0];
      NoSepTail(fields, sep);
      calc {
        Split(Join(fields, sep) + rest, sep);
        { assert Join(fields, sep) + rest == fields[0] + [sep] + (joined + rest); }
        Split(fields[0] + [sep] + (joined + rest), sep);
        { SplitCons(fields[0], sep, joined + rest); }
        [fields[0]] + Split(joined + rest, sep);
        { SplitJoinedBefore(tail, sep, rest); assert tail[|tail| - 1] == fields[n - 1]; }
        [fields[0]] + (tail[..|tail| - 1] + end);
        { FrontOfTail(fields); }
        fields[..n - 1] + end;
      }
    }
  }

  lemma FrontOfTail<T>(xs: seq<T>)
    requires |xs| > 1
    ensures [xs[0]] + xs[1..][..|xs| - 2] == xs[..|xs| - 1]
  {
  }

  /** The single line of one or more pharmacies, after a text without `;`,
      splits into five fields per pharmacy and one more. */
  lemma {:induction false} WrittenPharmaciesSplit(p: string, saved: seq<(Pharmacies.PharmacyInfo, nat)>)
    requires ';' !in p && |saved| > 0
    requires forall e :: e in saved ==> Pharmacies.InfoRoundTrips(e.0)
    ensures |Split(p + Concat(Written(saved, PharmacyText)), ';')| == 5 * |saved| + 1
    decreases |saved|
  {
    var rest := Concat(Written(saved[1..], PharmacyText));
    assert saved[0] in saved;
    var count := NatToString(saved[0].1);
    WrittenFront(p, saved);
    WrittenPharmacySplits(p, saved[0].0, saved[0].1, rest);
    Pharmacies.AsWrittenPlain(saved[0].0, saved[0].1);
    assert ';' !in count;
    if |saved| == 1 {
      assert |Written(saved[1..], PharmacyText)| == 0;
      assert count + rest == count;
      IndexOfAbsent(count, ';');
    } else {
      assert forall e :: e in saved[1..] ==> e in saved;
      WrittenPharmaciesSplit(count, saved[1..]);
    }
  }

  /** The first pharmacy's text comes first on the line. */
  lemma WrittenFront(p: string, saved: seq<(Pharmacies.PharmacyInfo, nat)>)
    requires |saved| > 0
    ensures p + Concat(Written(saved, PharmacyText))
            == p + PharmacyText(saved[0]) + Concat(Written(saved[1..], PharmacyText))
  {
    var lines := Written(saved, PharmacyText);
    var tail := Written(saved[1..], PharmacyText);
    assert lines[1..] == tail;
    ConcatCons(lines);
    assert lines[0] == PharmacyText(saved[0]);
    AppendAssociates(p, lines[0], Concat(tail));
  }

  /** Nothing `savePharmacies` wrote is ever loaded: the one line it
      leaves has more than five fields, so the loader ends with the fixed
      four whatever was saved. */
  lemma {:induction false} SavedPharmaciesNeverReload(saved: seq<(Pharmacies.PharmacyInfo, nat)>)
    requires forall e :: e in saved ==> Pharmacies.InfoRoundTrips(e.0)
    ensures LoadedPharmacyInfos(Some(FileLines(SavePharmaciesAsWritten(saved)))) == FixedPharmacies
  {
    var content := SavePharmaciesAsWritten(saved);
    FileLinesUnbroken(content);
    var lines := FileLines(content);
    var steps := ReadEach(lines, PharmacyLine);
    forall i | 0 <= i < |steps| ensures !steps[i].Take? {
      assert lines[i] == content;
    }
    NothingTaken(steps);
  }

  /** `savePharmacies` corrected to write the five fields the loader
      reads. */
  function SavePharmacies(infos: seq<Pharmacies.PharmacyInfo>): (lines: seq<string>)
    ensures |lines| == |infos|
    ensures forall i :: 0 <= i < |infos| && Pharmacies.InfoRoundTrips(infos[i]) ==> PharmacyLine(lines[i]) == Take(infos[i])
  {
    PharmaciesRead(infos);
    Written(infos, Pharmacies.Encode)
  }

  lemma PharmaciesRead(infos: seq<Pharmacies.PharmacyInfo>)
    ensures forall i :: 0 <= i < |infos| && Pharmacies.InfoRoundTrips(infos[i]) ==>
              PharmacyLine(Written(infos, Pharmacies.Encode)[i]) == Take(infos[i])
  {
    forall i | 0 <= i < |infos| && Pharmacies.InfoRoundTrips(infos[i])
      ensures PharmacyLine(Pharmacies.Encode(infos[i])) == Take(infos[i])
    {
      PharmacyLineRoundTrip(infos[i]);
    }
  }

  /** What the corrected save writes loads back as the same pharmacies, in
      order, when there is at least one. */
  lemma {:induction false} SaveLoadPharmacies(infos: seq<Pharmacies.PharmacyInfo>)
    requires |infos| > 0 && forall info :: info in infos ==> Pharmacies.InfoRoundTrips(info)
    ensures LoadedPharmacyInfos(Some(SavePharmacies(infos))) == infos
  {
    var lines := SavePharmacies(infos);
    var steps := ReadEach(lines, PharmacyLine);
    forall i | 0 <= i < |steps| ensures steps[i] == Take(infos[i]) {
      assert infos[i] in infos;
    }
    ReadAllTaken(steps, infos);
  }

  // ---------------------------------------------------------------------
  // Stock
  // ---------------------------------------------------------------------

  /** `medicineMap`: each medicine under its id, a later medicine replacing
      an earlier one with the same id. */
  function MedicineMap(meds: seq<Product>): (m: map<string, Product>)
    ensures forall id :: id in m ==> m[id] in meds && m[id].Id() == id
    ensures forall i :: 0 <= i < |meds| ==> meds[i].Id() in m
  {
    if |meds| == 0 then map[]
    else
      var last := meds[|meds| - 1];
      MedicineMap(meds[..|meds| - 1])[last.Id() := last]
  }

  /** `pharmacyMap`: each pharmacy under its id, a later pharmacy replacing
      an earlier one with the same id. */
  function PharmacyMap(ps: seq<Pharmacies.Pharmacy>): (m: map<string, Pharmacies.Pharmacy>)
    ensures forall id :: id in m ==> m[id] in ps && m[id].info.id == id
    ensures forall i :: 0 <= i < |ps| ==> ps[i].info.id in m
  {
    if |ps| == 0 then map[]
    else
      var last := ps[|ps| - 1];
      PharmacyMap(ps[..|ps| - 1])[last.info.id := last]
  }

  /** The medicine a map holds for an id is the last one in the list with
      that id. */
  lemma {:induction false} MedicineMapLast(meds: seq<Product>, i: nat)
    requires i < |meds| && forall j :: i < j < |meds| ==> meds[j].Id() != meds[i].Id()
    ensures MedicineMap(meds)[meds[i].Id()] == meds[i]
  {
    if i < |meds| - 1 {
      MedicineMapLast(meds[..|meds| - 1], i);
    }
  }

  /** Each pharmacy owns its ledger: distinct pharmacies never share one. */
  predicate OwnLedgers(ps: seq<Pharmacies.Pharmacy>) {
    forall i, j :: 0 <= i < |ps| && 0 <= j < |ps| && ps[i] != ps[j] ==> ps[i].storage != ps[j].storage
  }

  /** The ledger of each pharmacy the map holds, by pharmacy id. */
  function Ledgers(pm: map<string, Pharmacies.Pharmacy>): (r: map<string, map<string, Storages.Item>>)
    reads set id | id in pm :: pm[id].storage
    ensures r.Keys == pm.Keys
  {
    map id | id in pm :: pm[id].storage.items
  }

  /** `addToStorage` on a ledger, for a product the medicine map found: a
      non-positive quantity is InvalidProductData, an empty id the
      InventoryException of `contains`, a stocked id DuplicateProduct;
      otherwise the product is stocked with the quantity. */
  function Stocking(items: map<string, Storages.Item>, product: Product, quantity: Int32): (r: Result<map<string, Storages.Item>>)
    ensures r.Ok? <==> quantity > 0 && product.Id() != "" && product.Id() !in items
    ensures r.Ok? ==> r.value.Keys == items.Keys + {product.Id()} && r.value[product.Id()] == Storages.Item(product, quantity)
    ensures r.Ok? ==> forall k :: k in items ==> r.value[k] == items[k]
  {
    if quantity <= 0 then Fail(InvalidProductData("quantity"))
    else if product.Id() == "" then Fail(InventoryError)
    else if product.Id() in items then Fail(DuplicateProduct(product.Id()))
    else Ok(items[product.Id() := Storages.Item(product, quantity)])
  }

  /** The loader's state between lines: the record it reads into, carried
      from line to line, the ledgers, and the error that ended the load. */
  datatype StockScan = StockScan(record: StockRecords.StockRecord, ledgers: map<string, map<string, Storages.Item>>,
                                 stopped: Option<Error>)

  /** One line of the stock file: it is read into the carried record; an
      exception from the reader, or from `addToStorage` for a record whose
      pharmacy and medicine are both known, ends the load. A record naming
      an unknown pharmacy or medicine changes nothing. */
  function StockLine(s: StockScan, line: string, meds: map<string, Product>): (r: StockScan)
    ensures r.ledgers.Keys == s.ledgers.Keys
    ensures s.stopped.Some? ==> r == s
  {
    if s.stopped.Some? then s
    else
      var (record, out) := StockRecords.ParseInto(s.record, line);
      if out.Raise? then StockScan(record, s.ledgers, Some(out.error))
      else if record.pharmacyId in s.ledgers && record.productId in meds then
        match Stocking(s.ledgers[record.pharmacyId], meds[record.productId], record.quantity)
        case Ok(items) => StockScan(record, s.ledgers[record.pharmacyId := items], None)
        case Fail(e) => StockScan(record, s.ledgers, Some(e))
      else StockScan(record, s.ledgers, None)
  }

  /** The loader's state after `lines`. */
  function ReadStock(s: StockScan, lines: seq<string>, meds: map<string, Product>): (r: StockScan)
    ensures r.ledgers.Keys == s.ledgers.Keys
  {
    if |lines| == 0 then s else StockLine(ReadStock(s, lines[..|lines| - 1], meds), lines[|lines| - 1], meds)
  }

  lemma {:induction false} StockStaysStopped(s: StockScan, lines: seq<string>, i: nat, meds: map<string, Product>)
    requires i <= |lines| && ReadStock(s, lines[..i], meds).stopped.Some?
    ensures ReadStock(s, lines, meds) == ReadStock(s, lines[..i], meds)
    decreases |lines| - i
  {
    if i < |lines| {
      assert lines[..i + 1][..i] == lines[..i];
      StockStaysStopped(s, lines, i + 1, meds);
    } else {
      assert lines[..i] == lines;
    }
  }

  /** The state after one more line is that line applied to the state
      before it. */
  lemma ReadStockSnoc(s: StockScan, lines: seq<string>, line: string, meds: map<string, Product>)
    ensures ReadStock(s, lines + [line], meds) == StockLine(ReadStock(s, lines, meds), line, meds)
  {
    assert (lines + [line])[..|lines|] == lines;
  }

  /** A line `<<` wrote for a record whose ids hold no ';' or line break, on
      a load still running, sets the record to it, and stocks it as
      `addToStorage` says when its pharmacy and medicine are known. */
  lemma StockLineOfRecord(s: StockScan, r: StockRecords.StockRecord, meds: map<string, Product>)
    requires s.stopped.None? && StockRecords.RoundTrips(r)
    ensures StockLine(s, StockRecords.Encode(r), meds)
            == if r.pharmacyId in s.ledgers && r.productId in meds then
                 match Stocking(s.ledgers[r.pharmacyId], meds[r.productId], r.quantity)
                 case Ok(items) => StockScan(r, s.ledgers[r.pharmacyId := items], None)
                 case Fail(e) => StockScan(r, s.ledgers, Some(e))
               else StockScan(r, s.ledgers, None)
  {
    StockRecords.RoundTrip(r, s.record);
  }

  /** `after` is `before` with entries added and none changed or taken: each
      added entry is a medicine the map holds, filed under its own id, with
      a positive quantity. */
  predicate OnlyAdded(before: map<string, map<string, Storages.Item>>, after: map<string, map<string, Storages.Item>>,
                      meds: map<string, Product>)
  {
    before.Keys == after.Keys
    && forall p :: p in before ==>
         (forall k :: k in before[p] ==> k in after[p] && after[p][k] == before[p][k])
         && (forall k :: k in after[p] && k !in before[p] ==>
               k in meds && after[p][k].product == meds[k] && after[p][k].quantity > 0)
  }

  lemma {:induction false} OnlyAddedTransitive(a: map<string, map<string, Storages.Item>>, b: map<string, map<string, Storages.Item>>,
                                               c: map<string, map<string, Storages.Item>>, meds: map<string, Product>)
    requires OnlyAdded(a, b, meds) && OnlyAdded(b, c, meds)
    ensures OnlyAdded(a, c, meds)
  {
    forall p | p in a
      ensures forall k :: k in c[p] && k !in a[p] ==> k in meds && c[p][k].product == meds[k] && c[p][k].quantity > 0
    {
      forall k | k in c[p] && k !in a[p]
        ensures k in meds && c[p][k].product == meds[k] && c[p][k].quantity > 0
      {
        if k in b[p] {
          assert c[p][k] == b[p][k];
        }
      }
    }
  }

  /** One line only ever adds stock: `addToStorage` files a known medicine
      under its own id with a positive quantity, and never touches what is
      stocked already. */
  lemma {:induction false} StockLineOnlyAdds(s: StockScan, line: string, meds: map<string, Product>)
    requires forall k :: k in meds ==> meds[k].Id() == k
    ensures OnlyAdded(s.ledgers, StockLine(s, line, meds).ledgers, meds)
  {
    var r := StockLine(s, line, meds);
    if s.stopped.None? {
      var (record, out) := StockRecords.ParseInto(s.record, line);
      if out.Pass? && record.pharmacyId in s.ledgers && record.productId in meds {
        var p := record.pharmacyId;
        var product := meds[record.productId];
        var st := Stocking(s.ledgers[p], product, record.quantity);
        if st.Ok? {
          assert r.ledgers == s.ledgers[p := st.value];
          forall k | k in r.ledgers[p] && k !in s.ledgers[p]
            ensures k in meds && r.ledgers[p][k].product == meds[k] && r.ledgers[p][k].quantity > 0
          {
            assert k == product.Id();
          }
        }
      }
    }
  }

  /** Loading stock only ever adds: nothing stocked before a load is
      changed or taken by it, and everything it adds is a known medicine
      under its own id with a positive quantity. */
  lemma {:induction false} ReadStockOnlyAdds(s: StockScan, lines: seq<string>, meds: map<string, Product>)
    requires forall k :: k in meds ==> meds[k].Id() == k
    ensures OnlyAdded(s.ledgers, ReadStock(s, lines, meds).ledgers, meds)
    decreases |lines|
  {
    if |lines| > 0 {
      var mid := ReadStock(s, lines[..|lines| - 1], meds);
      ReadStockOnlyAdds(s, lines[..|lines| - 1], meds);
      StockLineOnlyAdds(mid, lines[|lines| - 1], meds);
      OnlyAddedTransitive(s.ledgers, mid.ledgers, ReadStock(s, lines, meds).ledgers, meds);
    }
  }

  /** The loops that build `medicineMap` and `pharmacyMap`. */
  method BuildMedicineMap(meds: seq<Product>) returns (m: map<string, Product>)
    ensures m == MedicineMap(meds)
  {
    m := map[];
    var i := 0;
    while i < |meds|
      invariant 0 <= i <= |meds| && m == MedicineMap(meds[..i])
    {
      assert meds[..i + 1][..i] == meds[..i];
      m := m[meds[i].Id() := meds[i]];
      i := i + 1;
    }
    assert meds[..i] == meds;
  }

  method BuildPharmacyMap(ps: seq<Pharmacies.Pharmacy>) returns (m: map<string, Pharmacies.Pharmacy>)
    ensures m == PharmacyMap(ps)
  {
    m := map[];
    var i := 0;
    while i < |ps|
      invariant 0 <= i <= |ps| && m == PharmacyMap(ps[..i])
    {
      assert ps[..i + 1][..i] == ps[..i];
      m := m[ps[i].info.id := ps[i]];
      i := i + 1;
    }
    assert ps[..i] == ps;
  }

  /** `addToStorage` on the pharmacy the map holds for `id`: its ledger
      changes as `Stocking` says, and no other ledger changes. */
  method StockOne(pm: map<string, Pharmacies.Pharmacy>, ghost ps: seq<Pharmacies.Pharmacy>, id: string,
                  product: Product, quantity: Int32) returns (o: Outcome)
    requires id in pm && OwnLedgers(ps) && forall k :: k in pm ==> pm[k] in ps && pm[k].info.id == k
    modifies pm[id].storage
    ensures o.Pass? <==> Stocking(old(Ledgers(pm))[id], product, quantity).Ok?
    ensures o.Raise? ==> o.error == Stocking(old(Ledgers(pm))[id], product, quantity).error
    ensures Ledgers(pm) == match Stocking(old(Ledgers(pm))[id], product, quantity)
                           case Ok(items) => old(Ledgers(pm))[id := items]
                           case Fail(_) => old(Ledgers(pm))
  {
    o := pm[id].AddToStorage(product, quantity);
    forall k | k in pm && k != id ensures pm[k].storage != pm[id].storage {
    }
  }

  /** One pass of the loading loop over line `i`: read the line into the
      record, then stock it when its pharmacy and medicine are known. The
      loader's state after the line is `ReadStock` over one more line; when
      the line ends the load, that is also its state after the whole file. */
  method StockStep(pm: map<string, Pharmacies.Pharmacy>, ghost ps: seq<Pharmacies.Pharmacy>,
                   meds: map<string, Product>, ghost start: StockScan, lines: seq<string>, i: nat,
                   record: StockRecords.StockRecord)
    returns (next: StockRecords.StockRecord, stopped: Option<Error>)
    requires OwnLedgers(ps) && forall k :: k in pm ==> pm[k] in ps && pm[k].info.id == k
    requires i < |lines| && ReadStock(start, lines[..i], meds) == StockScan(record, Ledgers(pm), None)
    modifies set k | k in pm :: pm[k].storage
    ensures ReadStock(start, lines[..i + 1], meds) == StockScan(next, Ledgers(pm), stopped)
    ensures stopped.Some? ==> ReadStock(start, lines, meds) == StockScan(next, Ledgers(pm), stopped)
  {
    assert lines[..i + 1][..i] == lines[..i];
    var line := lines[i];
    var read := StockRecords.ParseInto(record, line);
    next := read.0;
    if read.1.Raise? {
      stopped := Some(read.1.error);
    } else {
      stopped := None;
      if next.pharmacyId in pm && next.productId in meds {
        var o := StockOne(pm, ps, next.pharmacyId, meds[next.productId], next.quantity);
        if o.Raise? {
          stopped := Some(o.error);
        }
      }
    }
    if stopped.Some? {
      StockStaysStopped(start, lines, i + 1, meds);
    }
  }

  /** The loading loop of `loadStockData`, over the maps it built. */
  method StockLoop(lines: seq<string>, pm: map<string, Pharmacies.Pharmacy>, ghost ps: seq<Pharmacies.Pharmacy>,
                   meds: map<string, Product>) returns (ok: bool)
    requires OwnLedgers(ps) && forall k :: k in pm ==> pm[k] in ps && pm[k].info.id == k
    modifies set k | k in pm :: pm[k].storage
    ensures Ledgers(pm) == ReadStock(StockScan(StockRecords.DefaultRecord, old(Ledgers(pm)), None), lines, meds).ledgers
    ensures ok <==> ReadStock(StockScan(StockRecords.DefaultRecord, old(Ledgers(pm)), None), lines, meds).stopped.None?
    ensures forall p :: p in ps && p !in pm.Values ==> p.storage.items == old(p.storage.items)
  {
    OthersOutsideMap(ps, pm);
    ghost var start := StockScan(StockRecords.DefaultRecord, Ledgers(pm), None);
    var record := StockRecords.DefaultRecord;
    var i := 0;
    while i < |lines|
      invariant 0 <= i <= |lines|
      invariant ReadStock(start, lines[..i], meds) == StockScan(record, Ledgers(pm), None)
    {
      var stopped;
      record, stopped := StockStep(pm, ps, meds, start, lines, i, record);
      if stopped.Some? {
        return false;
      }
      i := i + 1;
    }
    assert lines[..i] == lines;
    ok := true;
  }

  /** `loadStockData`: a file that cannot be opened is false. Otherwise each
      line is read in turn as above, and the load is true unless a line
      ended it; the ledgers of the pharmacies the map holds end as
      `ReadStock` says, and no other ledger changes. */
  method LoadStockData(file: Option<seq<string>>, pharmacies: seq<Pharmacies.Pharmacy>, medicines: seq<Product>)
    returns (ok: bool)
    requires OwnLedgers(pharmacies)
    modifies set p | p in pharmacies :: p.storage
    ensures file.None? ==> !ok && forall p :: p in pharmacies ==> p.storage.items == old(p.storage.items)
    ensures file.Some? ==>
              var pm := PharmacyMap(pharmacies);
              var r := ReadStock(StockScan(StockRecords.DefaultRecord, old(Ledgers(pm)), None), file.value,
                                 MedicineMap(medicines));
              Ledgers(pm) == r.ledgers && (ok <==> r.stopped.None?)
    ensures forall p :: p in pharmacies && p !in PharmacyMap(pharmacies).Values ==> p.storage.items == old(p.storage.items)
  {
    if file.None? {
      return false;
    }
    ghost var before := Ledgers(PharmacyMap(pharmacies));
    var medicineMap := BuildMedicineMap(medicines);
    var pharmacyMap := BuildPharmacyMap(pharmacies);
    assert Ledgers(pharmacyMap) == before;
    ok := StockLoop(file.value, pharmacyMap, pharmacies, medicineMap);
  }

  /** A pharmacy the map does not hold keeps a ledger no held pharmacy
      owns. */
  lemma OthersOutsideMap(ps: seq<Pharmacies.Pharmacy>, pm: map<string, Pharmacies.Pharmacy>)
    requires OwnLedgers(ps) && forall k :: k in pm ==> pm[k] in ps
    ensures forall p :: p in ps && p !in pm.Values ==> p.storage !in set k | k in pm :: pm[k].storage
  {
    forall p | p in ps && p !in pm.Values ensures p.storage !in set k | k in pm :: pm[k].storage {
      forall k | k in pm ensures pm[k].storage != p.storage {
        assert pm[k] in pm.Values;
      }
    }
  }

  // ---------------------------------------------------------------------
  // saveStockData

  /** What a ledger holds, pharmacy by pharmacy: the id and the entries. */
  function Stocks(ps: seq<Pharmacies.Pharmacy>): (r: seq<(string, map<string, Storages.Item>)>)
    reads set p | p in ps :: p.storage
    ensures |r| == |ps|
    ensures forall i :: 0 <= i < |ps| ==> r[i] == (ps[i].info.id, ps[i].storage.items)
  {
    if |ps| == 0 then [] else Stocks(ps[..|ps| - 1]) + [(ps[|ps| - 1].info.id, ps[|ps| - 1].storage.items)]
  }

  /** Every quantity fits the `int` the source keeps it in. */
  predicate Int32Quantities(stocks: seq<(string, map<string, Storages.Item>)>) {
    forall i, k :: 0 <= i < |stocks| && k in stocks[i].1 ==> IsInt32(stocks[i].1[k].quantity)
  }

  /** A ledger's products and quantities as `getAllProducts` lists them, in
      ascending id order. */
  ghost function Entries(items: map<string, Storages.Item>): (r: seq<(Product, int)>)
    ensures var keys := Ordered(items.Keys);
            |r| == |keys| && forall i :: 0 <= i < |r| ==> keys[i] in items && r[i] == (items[keys[i]].product, items[keys[i]].quantity)
  {
    var keys := Ordered(items.Keys);
    seq(|keys|, i requires 0 <= i < |keys| => (items[keys[i]].product, items[keys[i]].quantity))
  }

  /** The record `saveStockData` writes for one product of a pharmacy. */
  function EntryRecord(pharmacyId: string, product: Product, quantity: Int32, today: SafeDate): StockRecords.StockRecord {
    StockRecords.StockRecord(product.Id(), pharmacyId, quantity, today)
  }

  /** The lines written for one pharmacy's entries, in order: one record per
      entry with a positive quantity, stamped with today's date. */
  function EntryLines(pharmacyId: string, entries: seq<(Product, int)>, today: SafeDate): (r: seq<string>)
    requires forall i :: 0 <= i < |entries| ==> IsInt32(entries[i].1)
    ensures |r| <= |entries|
  {
    if |entries| == 0 then []
    else
      var last := entries[|entries| - 1];
      assert IsInt32(last.1);
      EntryLines(pharmacyId, entries[..|entries| - 1], today)
      + if last.1 > 0 then [StockRecords.Encode(EntryRecord(pharmacyId, last.0, last.1, today))] else []
  }

  /** The stock file: each pharmacy's lines in turn. */
  ghost function StockFile(stocks: seq<(string, map<string, Storages.Item>)>, today: SafeDate): seq<string>
    requires Int32Quantities(stocks)
  {
    if |stocks| == 0 then []
    else
      var last := stocks[|stocks| - 1];
      StockFile(stocks[..|stocks| - 1], today) + EntryLines(last.0, Entries(last.1), today)
  }

  /** The inner loop of `saveStockData`, over one pharmacy's products. */
  method WriteEntries(pharmacyId: string, entries: seq<(Product, int)>, today: SafeDate) returns (lines: seq<string>)
    requires forall i :: 0 <= i < |entries| ==> IsInt32(entries[i].1)
    ensures lines == EntryLines(pharmacyId, entries, today)
  {
    lines := [];
    for j := 0 to |entries|
      invariant lines == EntryLines(pharmacyId, entries[..j], today)
    {
      EntryLinesSnoc(pharmacyId, entries, j, today);
      var (product, quantity) := entries[j];
      if quantity > 0 {
        lines := lines + [StockRecords.Encode(EntryRecord(pharmacyId, product, quantity, today))];
      }
    }
    assert entries[..|entries|] == entries;
  }

  lemma EntryLinesSnoc(pharmacyId: string, entries: seq<(Product, int)>, j: nat, today: SafeDate)
    requires j < |entries| && forall i :: 0 <= i < |entries| ==> IsInt32(entries[i].1)
    ensures EntryLines(pharmacyId, entries[..j + 1], today)
            == EntryLines(pharmacyId, entries[..j], today)
               + if entries[j].1 > 0 then [StockRecords.Encode(EntryRecord(pharmacyId, entries[j].0, entries[j].1, today))] else []
  {
    assert entries[..j + 1][..j] == entries[..j];
  }

  /** One pass of the outer loop of `saveStockData`: the pharmacy's
      products, in ascending id order, each written as a record. */
  method SavePharmacyStock(pharmacy: Pharmacies.Pharmacy, today: SafeDate) returns (lines: seq<string>)
    requires forall k :: k in pharmacy.storage.items ==> IsInt32(pharmacy.storage.items[k].quantity)
    ensures lines == EntryLines(pharmacy.info.id, Entries(pharmacy.storage.items), today)
  {
    var all := pharmacy.GetAllProducts();
    assert all == Entries(pharmacy.storage.items);
    lines := WriteEntries(pharmacy.info.id, all, today);
  }

  lemma StockFileSnoc(stocks: seq<(string, map<string, Storages.Item>)>, i: nat, today: SafeDate)
    requires i < |stocks| && Int32Quantities(stocks)
    ensures Int32Quantities(stocks[..i]) && Int32Quantities(stocks[..i + 1])
    ensures forall k :: k in stocks[i].1 ==> IsInt32(stocks[i].1[k].quantity)
    ensures StockFile(stocks[..i + 1], today) == StockFile(stocks[..i], today) + EntryLines(stocks[i].0, Entries(stocks[i].1), today)
  {
    assert stocks[..i + 1][..i] == stocks[..i];
  }

  /** `saveStockData`: for each pharmacy, one record per stocked product
      with a positive quantity, in ascending id order, dated today. */
  method SaveStockData(pharmacies: seq<Pharmacies.Pharmacy>, today: SafeDate) returns (lines: seq<string>)
    requires Int32Quantities(Stocks(pharmacies))
    ensures lines == StockFile(Stocks(pharmacies), today)
  {
    ghost var stocks := Stocks(pharmacies);
    lines := [];
    var i := 0;
    while i < |pharmacies|
      invariant 0 <= i <= |pharmacies|
      invariant Int32Quantities(stocks[..i]) && lines == StockFile(stocks[..i], today)
    {
      StockFileSnoc(stocks, i, today);
      var written := SavePharmacyStock(pharmacies[i], today);
      lines := lines + written;
      i := i + 1;
    }
    assert stocks[..i] == stocks;
  }

  // ---------------------------------------------------------------------
  // Reading saved stock back

  lemma {:induction false} ReadStockAppend(s: StockScan, a: seq<string>, b: seq<string>, meds: map<string, Product>)
    ensures ReadStock(s, a + b, meds) == ReadStock(ReadStock(s, a, meds), b, meds)
    decreases |b|
  {
    if |b| == 0 {
      assert a + b == a;
    } else {
      var b0 := b[..|b| - 1];
      assert a + b == (a + b0) + [b[|b| - 1]];
      ReadStockSnoc(s, a + b0, b[|b| - 1], meds);
      ReadStockAppend(s, a, b0, meds);
      ReadStockSnoc(ReadStock(s, a, meds), b0, b[|b| - 1], meds);
    }
  }

  /** Distinct product ids. */
  predicate DistinctProducts(entries: seq<(Product, int)>) {
    forall i, j :: 0 <= i < j < |entries| ==> entries[i].0.Id() != entries[j].0.Id()
  }

  /** The ledger a list of entries makes, each filed under its product's id. */
  function EntryMap(entries: seq<(Product, int)>): (r: map<string, Storages.Item>)
    ensures forall i :: 0 <= i < |entries| ==> entries[i].0.Id() in r
    ensures forall k :: k in r ==> exists i :: 0 <= i < |entries| && entries[i].0.Id() == k
  {
    if |entries| == 0 then map[]
    else
      var last := entries[|entries| - 1];
      EntryMap(entries[..|entries| - 1])[last.0.Id() := Storages.Item(last.0, last.1)]
  }

  /** Entries that reload: plain ids, positive quantities in range, and the
      medicine map holding each product under its id. */
  predicate EntriesReload(entries: seq<(Product, int)>, meds: map<string, Product>) {
    DistinctProducts(entries)
    && forall i :: 0 <= i < |entries| ==>
         ProductCodecs.PlainText(entries[i].0.Id()) && 0 < entries[i].1 && IsInt32(entries[i].1)
         && entries[i].0.Id() in meds && meds[entries[i].0.Id()] == entries[i].0
  }

  /** Reading one pharmacy's saved lines back, on a load still running and
      a ledger holding none of its products, stocks each entry. */
  lemma {:induction false} EntryLinesLoad(s: StockScan, pharmacyId: string, entries: seq<(Product, int)>, today: SafeDate,
                                          meds: map<string, Product>)
    requires s.stopped.None? && ProductCodecs.PlainText(pharmacyId) && pharmacyId in s.ledgers
    requires EntriesReload(entries, meds)
    requires forall i :: 0 <= i < |entries| ==> entries[i].0.Id() !in s.ledgers[pharmacyId]
    ensures var r := ReadStock(s, EntryLines(pharmacyId, entries, today), meds);
            r.stopped.None? && r.ledgers == s.ledgers[pharmacyId := s.ledgers[pharmacyId] + EntryMap(entries)]
    decreases |entries|
  {
    if |entries| == 0 {
      assert EntryMap(entries) == map[];
      assert s.ledgers[pharmacyId] + map[] == s.ledgers[pharmacyId];
    } else {
      LastEntryFresh(s.ledgers[pharmacyId], entries, meds);
      EntryLinesLoad(s, pharmacyId, entries[..|entries| - 1], today, meds);
      EntryLinesStep(s, pharmacyId, entries, today, meds);
    }
  }

  /** The last of a list of reloading entries is not among the ones before
      it nor in the ledger they are added to. */
  lemma LastEntryFresh(held: map<string, Storages.Item>, entries: seq<(Product, int)>, meds: map<string, Product>)
    requires |entries| > 0 && EntriesReload(entries, meds)
    requires forall i :: 0 <= i < |entries| ==> entries[i].0.Id() !in held
    ensures var n := |entries| - 1;
            EntriesReload(entries[..n], meds) && entries[n].0.Id() !in held + EntryMap(entries[..n])
            && forall i :: 0 <= i < n ==> entries[..n][i].0.Id() !in held
  {
    var n := |entries| - 1;
    var prefix := entries[..n];
    forall i | 0 <= i < n ensures prefix[i].0.Id() != entries[n].0.Id() {
      assert prefix[i] == entries[i];
    }
  }

  /** Reading one more saved entry's line. */
  lemma {:induction false} EntryLinesStep(s: StockScan, pharmacyId: string, entries: seq<(Product, int)>, today: SafeDate,
                                          meds: map<string, Product>)
    requires |entries| > 0 && s.stopped.None? && ProductCodecs.PlainText(pharmacyId) && pharmacyId in s.ledgers
    requires EntriesReload(entries, meds)
    requires var n := |entries| - 1;
             entries[n].0.Id() !in s.ledgers[pharmacyId] + EntryMap(entries[..n])
    requires var mid := ReadStock(s, EntryLines(pharmacyId, entries[..|entries| - 1], today), meds);
             mid.stopped.None? && mid.ledgers == s.ledgers[pharmacyId := s.ledgers[pharmacyId] + EntryMap(entries[..|entries| - 1])]
    ensures var r := ReadStock(s, EntryLines(pharmacyId, entries, today), meds);
            r.stopped.None? && r.ledgers == s.ledgers[pharmacyId := s.ledgers[pharmacyId] + EntryMap(entries)]
  {
    var n := |entries| - 1;
    var last := entries[n];
    LastEntryLoads(s, pharmacyId, entries, today, meds);
    EntryMapSnoc(entries);
    LedgersStep(s.ledgers, pharmacyId, s.ledgers[pharmacyId], EntryMap(entries[..n]), last.0.Id(), Storages.Item(last.0, last.1));
  }

  /** The last entry's line, read after the others, stocks its product. */
  lemma LastEntryLoads(s: StockScan, pharmacyId: string, entries: seq<(Product, int)>, today: SafeDate,
                       meds: map<string, Product>)
    requires |entries| > 0 && EntriesReload(entries, meds) && ProductCodecs.PlainText(pharmacyId)
    requires var mid := ReadStock(s, EntryLines(pharmacyId, entries[..|entries| - 1], today), meds);
             mid.stopped.None? && pharmacyId in mid.ledgers
             && entries[|entries| - 1].0.Id() !in mid.ledgers[pharmacyId]
    ensures var last := entries[|entries| - 1];
            var mid := ReadStock(s, EntryLines(pharmacyId, entries[..|entries| - 1], today), meds);
            var r := ReadStock(s, EntryLines(pharmacyId, entries, today), meds);
            r.stopped.None?
            && r.ledgers == mid.ledgers[pharmacyId := mid.ledgers[pharmacyId][last.0.Id() := Storages.Item(last.0, last.1)]]
  {
    LastEntryValid(entries, meds);
    EntryLinesLast(s, pharmacyId, entries, today, meds);
    LastLineStocks(ReadStock(s, EntryLines(pharmacyId, entries[..|entries| - 1], today), meds), pharmacyId, entries, today, meds);
  }

  /** The line of the last of a list of reloading entries stocks its
      product in a ledger that lacks it. */
  lemma LastLineStocks(mid: StockScan, pharmacyId: string, entries: seq<(Product, int)>, today: SafeDate,
                       meds: map<string, Product>)
    requires |entries| > 0 && EntriesReload(entries, meds) && ProductCodecs.PlainText(pharmacyId)
    requires mid.stopped.None? && pharmacyId in mid.ledgers && entries[|entries| - 1].0.Id() !in mid.ledgers[pharmacyId]
    ensures var last := entries[|entries| - 1];
            var t := StockLine(mid, StockRecords.Encode(EntryRecord(pharmacyId, last.0, last.1, today)), meds);
            t.stopped.None?
            && t.ledgers == mid.ledgers[pharmacyId := mid.ledgers[pharmacyId][last.0.Id() := Storages.Item(last.0, last.1)]]
  {
    var last := entries[|entries| - 1];
    LastEntryValid(entries, meds);
    LastEntryStocks(mid, pharmacyId, last.0, last.1, today, meds);
  }

  /** The last of a list of reloading entries is a medicine on file with
      a positive quantity, and every quantity fits the stream's integers. */
  lemma LastEntryValid(entries: seq<(Product, int)>, meds: map<string, Product>)
    requires |entries| > 0 && EntriesReload(entries, meds)
    ensures var last := entries[|entries| - 1];
            ProductCodecs.PlainText(last.0.Id()) && 0 < last.1 && IsInt32(last.1)
            && last.0.Id() in meds && meds[last.0.Id()] == last.0
    ensures forall i :: 0 <= i < |entries| ==> IsInt32(entries[i].1)
  {
  }

  /** The line of a product its pharmacy does not yet stock stocks it. */
  lemma LastEntryStocks(mid: StockScan, pharmacyId: string, product: Product, quantity: int, today: SafeDate,
                        meds: map<string, Product>)
    requires mid.stopped.None? && ProductCodecs.PlainText(pharmacyId) && pharmacyId in mid.ledgers
    requires ProductCodecs.PlainText(product.Id()) && 0 < quantity && IsInt32(quantity)
    requires product.Id() in meds && meds[product.Id()] == product && product.Id() !in mid.ledgers[pharmacyId]
    ensures var t := StockLine(mid, StockRecords.Encode(EntryRecord(pharmacyId, product, quantity, today)), meds);
            t.stopped.None?
            && t.ledgers == mid.ledgers[pharmacyId := mid.ledgers[pharmacyId][product.Id() := Storages.Item(product, quantity)]]
  {
    StockLineStocks(mid, EntryRecord(pharmacyId, product, quantity, today), meds);
  }

  /** Stocking one more item into a pharmacy's ledger after a batch is
      stocking the batch with the item in it. */
  lemma LedgersStep<K, P, V>(ledgers: map<K, map<P, V>>, pharmacyId: K, base: map<P, V>, batch: map<P, V>, id: P, item: V)
    ensures var mid := ledgers[pharmacyId := base + batch];
            mid[pharmacyId := mid[pharmacyId][id := item]] == ledgers[pharmacyId := base + batch[id := item]]
  {
    UnionUpdate(base, batch, id, item);
    UpdateTwice(ledgers, pharmacyId, base + batch, (base + batch)[id := item]);
  }

  /** The last entry's line is read after the lines of the others. */
  lemma EntryLinesLast(s: StockScan, pharmacyId: string, entries: seq<(Product, int)>, today: SafeDate,
                       meds: map<string, Product>)
    requires |entries| > 0 && forall i :: 0 <= i < |entries| ==> IsInt32(entries[i].1)
    requires entries[|entries| - 1].1 > 0
    ensures var n := |entries| - 1;
            ReadStock(s, EntryLines(pharmacyId, entries, today), meds)
            == StockLine(ReadStock(s, EntryLines(pharmacyId, entries[..n], today), meds),
                         StockRecords.Encode(EntryRecord(pharmacyId, entries[n].0, entries[n].1, today)), meds)
  {
    var n := |entries| - 1;
    var line := StockRecords.Encode(EntryRecord(pharmacyId, entries[n].0, entries[n].1, today));
    assert EntryLines(pharmacyId, entries, today) == EntryLines(pharmacyId, entries[..n], today) + [line];
    ReadStockSnoc(s, EntryLines(pharmacyId, entries[..n], today), line, meds);
  }

  lemma EntryMapSnoc(entries: seq<(Product, int)>)
    requires |entries| > 0
    ensures var n := |entries| - 1;
            EntryMap(entries) == EntryMap(entries[..n])[entries[n].0.Id() := Storages.Item(entries[n].0, entries[n].1)]
  {
  }

  lemma SameEntries<K, V>(a: map<K, V>, b: map<K, V>)
    requires forall k :: k in b ==> k in a && a[k] == b[k]
    requires forall k :: k in a ==> k in b
    ensures a == b
  {
    assert a.Keys == b.Keys;
  }

  lemma EmptyUnion<K, V>(m: map<K, V>)
    ensures map[] + m == m
  {
  }

  lemma UnionUpdate<K, V>(a: map<K, V>, b: map<K, V>, k: K, v: V)
    ensures (a + b)[k := v] == a + b[k := v]
  {
  }

  /** A saved record for a known pharmacy and medicine not yet stocked
      there, with a positive quantity and a medicine filed under its id,
      is stocked by its line. */
  lemma StockLineStocks(s: StockScan, r: StockRecords.StockRecord, meds: map<string, Product>)
    requires s.stopped.None? && StockRecords.RoundTrips(r)
    requires r.pharmacyId in s.ledgers && r.productId in meds && meds[r.productId].Id() == r.productId
    requires r.quantity > 0 && r.productId !in s.ledgers[r.pharmacyId]
    ensures var t := StockLine(s, StockRecords.Encode(r), meds);
            t.stopped.None?
            && t.ledgers == s.ledgers[r.pharmacyId := s.ledgers[r.pharmacyId][r.productId := Storages.Item(meds[r.productId], r.quantity)]]
  {
    StockRecords.RoundTrip(r, s.record);
  }

  /** Entries listed from a ledger whose entries are filed under their own
      products' ids have distinct ids and make that ledger again. */
  lemma {:induction false} EntryMapOfEntries(items: map<string, Storages.Item>)
    requires forall k :: k in items ==> items[k].product.Id() == k
    ensures DistinctProducts(Entries(items)) && EntryMap(Entries(items)) == items
  {
    var m := EntryMap(Entries(items));
    EntryMapCovers(items);
    EntryMapWithin(items);
    SameEntries(m, items);
  }

  lemma {:induction false} EntryMapCovers(items: map<string, Storages.Item>)
    requires forall k :: k in items ==> items[k].product.Id() == k
    ensures DistinctProducts(Entries(items))
    ensures forall k :: k in items ==> k in EntryMap(Entries(items)) && EntryMap(Entries(items))[k] == items[k]
  {
    var entries := Entries(items);
    EntriesDistinct(items);
    EntryMapValues(entries);
    forall k | k in items ensures k in EntryMap(entries) && EntryMap(entries)[k] == items[k] {
      var keys := Ordered(items.Keys);
      assert k in keys;
      var i :| 0 <= i < |keys| && keys[i] == k;
      assert entries[i].0.Id() == k;
    }
  }

  lemma {:induction false} EntryMapWithin(items: map<string, Storages.Item>)
    requires forall k :: k in items ==> items[k].product.Id() == k
    ensures forall k :: k in EntryMap(Entries(items)) ==> k in items
  {
    var entries := Entries(items);
    forall k | k in EntryMap(entries) ensures k in items {
      var i :| 0 <= i < |entries| && entries[i].0.Id() == k;
    }
  }

  /** The entries of a ledger whose entries are filed under their own
      products' ids name each product once. */
  lemma {:induction false} EntriesDistinct(items: map<string, Storages.Item>)
    requires forall k :: k in items ==> items[k].product.Id() == k
    ensures DistinctProducts(Entries(items))
  {
    var keys := Ordered(items.Keys);
    var entries := Entries(items);
    forall i, j | 0 <= i < j < |entries| ensures entries[i].0.Id() != entries[j].0.Id() {
      LessIrreflexive(keys[i]);
    }
  }

  /** In a list with distinct ids, each entry is what the map holds under its
      id. */
  lemma {:induction false} EntryMapValues(entries: seq<(Product, int)>)
    requires DistinctProducts(entries)
    ensures forall i :: 0 <= i < |entries| ==> EntryMap(entries)[entries[i].0.Id()] == Storages.Item(entries[i].0, entries[i].1)
    decreases |entries|
  {
    if |entries| > 0 {
      var n := |entries| - 1;
      assert DistinctProducts(entries[..n]);
      EntryMapValues(entries[..n]);
      forall i | 0 <= i < n ensures EntryMap(entries)[entries[i].0.Id()] == Storages.Item(entries[i].0, entries[i].1) {
        assert entries[..n][i] == entries[i];
      }
    }
  }

  /** The ledgers after each listed pharmacy's ledger is put in place. */
  function Restocked(ledgers: map<string, map<string, Storages.Item>>, stocks: seq<(string, map<string, Storages.Item>)>):
    (r: map<string, map<string, Storages.Item>>)
    ensures forall i :: 0 <= i < |stocks| ==> stocks[i].0 in r
  {
    if |stocks| == 0 then ledgers
    else
      var last := stocks[|stocks| - 1];
      Restocked(ledgers, stocks[..|stocks| - 1])[last.0 := last.1]
  }

  /** Pharmacy ids that are plain, distinct and already in the ledgers,
      with empty ledgers, and products that reload. */
  predicate StockReloads(ledgers: map<string, map<string, Storages.Item>>, stocks: seq<(string, map<string, Storages.Item>)>,
                         meds: map<string, Product>)
  {
    (forall i, j :: 0 <= i < j < |stocks| ==> stocks[i].0 != stocks[j].0)
    && forall i :: 0 <= i < |stocks| ==>
         ProductCodecs.PlainText(stocks[i].0) && stocks[i].0 in ledgers && ledgers[stocks[i].0] == map[]
         && forall k :: k in stocks[i].1 ==>
              ProductCodecs.PlainText(k) && stocks[i].1[k].product.Id() == k && 0 < stocks[i].1[k].quantity
              && IsInt32(stocks[i].1[k].quantity) && k in meds && meds[k] == stocks[i].1[k].product
  }

  lemma {:induction false} RestockedOther(ledgers: map<string, map<string, Storages.Item>>,
                                          stocks: seq<(string, map<string, Storages.Item>)>, id: string)
    requires id in ledgers && forall i :: 0 <= i < |stocks| ==> stocks[i].0 != id
    ensures id in Restocked(ledgers, stocks) && Restocked(ledgers, stocks)[id] == ledgers[id]
    decreases |stocks|
  {
    if |stocks| > 0 {
      RestockedOther(ledgers, stocks[..|stocks| - 1], id);
    }
  }

  lemma {:induction false} StockFileLoad(s: StockScan, stocks: seq<(string, map<string, Storages.Item>)>, today: SafeDate,
                                         meds: map<string, Product>)
    requires s.stopped.None? && StockReloads(s.ledgers, stocks, meds)
    ensures Int32Quantities(stocks)
    ensures var r := ReadStock(s, StockFile(stocks, today), meds);
            r.stopped.None? && r.ledgers == Restocked(s.ledgers, stocks)
    decreases |stocks|
  {
    if |stocks| > 0 {
      StockReloadsPrefix(s.ledgers, stocks, meds);
      StockFileLoad(s, stocks[..|stocks| - 1], today, meds);
      StockFileLoadLast(s, stocks, today, meds, ReadStock(s, StockFile(stocks[..|stocks| - 1], today), meds));
    }
  }

  /** The last pharmacy's lines, read after the others have been. */
  lemma StockFileLoadLast(s: StockScan, stocks: seq<(string, map<string, Storages.Item>)>, today: SafeDate,
                          meds: map<string, Product>, mid: StockScan)
    requires |stocks| > 0 && s.stopped.None? && StockReloads(s.ledgers, stocks, meds)
    requires Int32Quantities(stocks[..|stocks| - 1])
    requires mid == ReadStock(s, StockFile(stocks[..|stocks| - 1], today), meds)
    requires mid.stopped.None? && mid.ledgers == Restocked(s.ledgers, stocks[..|stocks| - 1])
    ensures Int32Quantities(stocks)
    ensures var r := ReadStock(s, StockFile(stocks, today), meds);
            r.stopped.None? && r.ledgers == Restocked(s.ledgers, stocks)
  {
    var n := |stocks| - 1;
    var prefix := stocks[..n];
    var (id, items) := stocks[n];
    RestockedOther(s.ledgers, prefix, id);
    LedgerReloads(items, meds);
    var entries := Entries(items);
    assert mid.ledgers[id] == map[];
    EntryLinesLoad(mid, id, entries, today, meds);
    ReadStockAppend(s, StockFile(prefix, today), EntryLines(id, entries, today), meds);
    EmptyUnion(items);
  }

  lemma StockReloadsPrefix(ledgers: map<string, map<string, Storages.Item>>, stocks: seq<(string, map<string, Storages.Item>)>,
                           meds: map<string, Product>)
    requires |stocks| > 0 && StockReloads(ledgers, stocks, meds)
    ensures var n := |stocks| - 1;
            StockReloads(ledgers, stocks[..n], meds) && forall i :: 0 <= i < n ==> stocks[..n][i].0 != stocks[n].0
  {
  }

  /** A saved ledger's entries reload, and make the ledger again. */
  lemma {:induction false} LedgerReloads(items: map<string, Storages.Item>, meds: map<string, Product>)
    requires forall k :: k in items ==>
               ProductCodecs.PlainText(k) && items[k].product.Id() == k && 0 < items[k].quantity
               && IsInt32(items[k].quantity) && k in meds && meds[k] == items[k].product
    ensures EntriesReload(Entries(items), meds) && EntryMap(Entries(items)) == items
  {
    EntryMapOfEntries(items);
    EntriesAreItems(items);
  }

  /** Each listed entry is the product and quantity of a ledger entry. */
  lemma EntriesAreItems(items: map<string, Storages.Item>)
    ensures forall i :: 0 <= i < |Entries(items)| ==>
              exists k :: k in items && Entries(items)[i] == (items[k].product, items[k].quantity)
  {
    var keys := Ordered(items.Keys);
    var e := Entries(items);
    forall i | 0 <= i < |e|
      ensures exists k :: k in items && e[i] == (items[k].product, items[k].quantity)
    {
      var k := keys[i];
      assert k in items && e[i] == (items[k].product, items[k].quantity);
    }
  }

  /** What `saveStockData` writes, read back line by line into empty
      ledgers, restores every pharmacy's ledger and ends without an
      exception, provided the ids are plain and distinct, quantities are
      positive and in range, and the medicine map holds each stocked
      product under its id. */
  lemma {:induction false} SaveLoadStock(s: StockScan, stocks: seq<(string, map<string, Storages.Item>)>, today: SafeDate,
                                         meds: map<string, Product>)
    requires s.stopped.None? && StockReloads(s.ledgers, stocks, meds)
    ensures Int32Quantities(stocks)
    ensures var r := ReadStock(s, StockFile(stocks, today), meds);
            r.stopped.None?
            && (forall i :: 0 <= i < |stocks| ==> r.ledgers[stocks[i].0] == stocks[i].1)
            && (forall p :: p in s.ledgers && (forall i :: 0 <= i < |stocks| ==> stocks[i].0 != p) ==> r.ledgers[p] == s.ledgers[p])
  {
    StockFileLoad(s, stocks, today, meds);
    RestockedAt(s.ledgers, stocks);
    forall p | p in s.ledgers && (forall i :: 0 <= i < |stocks| ==> stocks[i].0 != p)
      ensures Restocked(s.ledgers, stocks)[p] == s.ledgers[p]
    {
      RestockedOther(s.ledgers, stocks, p);
    }
  }

  lemma {:induction false} RestockedAt(ledgers: map<string, map<string, Storages.Item>>, stocks: seq<(string, map<string, Storages.Item>)>)
    requires forall i, j :: 0 <= i < j < |stocks| ==> stocks[i].0 != stocks[j].0
    ensures forall i :: 0 <= i < |stocks| ==> Restocked(ledgers, stocks)[stocks[i].0] == stocks[i].1
    decreases |stocks|
  {
    if |stocks| > 0 {
      var n := |stocks| - 1;
      RestockedAt(ledgers, stocks[..n]);
      forall i | 0 <= i < n ensures Restocked(ledgers, stocks)[stocks[i].0] == stocks[i].1 {
        assert stocks[..n][i] == stocks[i];
      }
    }
  }

  // ---------------------------------------------------------------------
  // Saving onto what the stock file held

  /** A product in a ledger stays there whatever lines are read after. */
  lemma {:induction false} ReadStockKeeps(s: StockScan, lines: seq<string>, meds: map<string, Product>, p: string, k: string)
    requires p in s.ledgers && k in s.ledgers[p]
    ensures p in ReadStock(s, lines, meds).ledgers && k in ReadStock(s, lines, meds).ledgers[p]
    decreases |lines|
  {
    if |lines| > 0 {
      var n := |lines| - 1;
      ReadStockKeeps(s, lines[..n], meds, p, k);
      StockLineKeeps(ReadStock(s, lines[..n], meds), lines[n], meds, p, k);
    }
  }

  lemma ReadStockKeepsAll(s: StockScan, lines: seq<string>, meds: map<string, Product>)
    ensures forall p, k :: p in s.ledgers && k in s.ledgers[p] ==> k in ReadStock(s, lines, meds).ledgers[p]
  {
    forall p, k | p in s.ledgers && k in s.ledgers[p] ensures k in ReadStock(s, lines, meds).ledgers[p] {
      ReadStockKeeps(s, lines, meds, p, k);
    }
  }

  lemma StockLineKeeps(t: StockScan, line: string, meds: map<string, Product>, p: string, k: string)
    requires p in t.ledgers && k in t.ledgers[p]
    ensures p in StockLine(t, line, meds).ledgers && k in StockLine(t, line, meds).ledgers[p]
  {
    if t.stopped.None? {
      var (record, out) := StockRecords.ParseInto(t.record, line);
      StockParsedKeeps(t, line, meds, record, out, p, k);
    }
  }

  lemma StockParsedKeeps(t: StockScan, line: string, meds: map<string, Product>, record: StockRecords.StockRecord,
                         out: Outcome, p: string, k: string)
    requires t.stopped.None? && StockRecords.ParseInto(t.record, line) == (record, out)
    requires p in t.ledgers && k in t.ledgers[p]
    ensures p in StockLine(t, line, meds).ledgers && k in StockLine(t, line, meds).ledgers[p]
  {
    if out.Pass? && record.pharmacyId in t.ledgers && record.productId in meds {
      var stocked := Stocking(t.ledgers[record.pharmacyId], meds[record.productId], record.quantity);
      if stocked.Ok? {
        assert StockLine(t, line, meds).ledgers == t.ledgers[record.pharmacyId := stocked.value];
      }
    }
  }

  /** Pharmacies with nothing stocked add no line to the stock file. */
  lemma {:induction false} StockFileTrailing(stocks: seq<(string, map<string, Storages.Item>)>, j: nat, today: SafeDate)
    requires Int32Quantities(stocks) && j < |stocks|
    requires forall i :: j < i < |stocks| ==> stocks[i].1 == map[]
    ensures Int32Quantities(stocks[..j + 1])
    ensures StockFile(stocks, today) == StockFile(stocks[..j + 1], today)
    decreases |stocks|
  {
    if |stocks| == j + 1 {
      assert stocks[..j + 1] == stocks;
    } else {
      var n := |stocks| - 1;
      StockFileEmptyLast(stocks, today);
      PrefixOfPrefix(stocks, n, j + 1);
      StockFileTrailing(stocks[..n], j, today);
    }
  }

  lemma StockFileEmptyLast(stocks: seq<(string, map<string, Storages.Item>)>, today: SafeDate)
    requires Int32Quantities(stocks) && |stocks| > 0 && stocks[|stocks| - 1].1 == map[]
    ensures Int32Quantities(stocks[..|stocks| - 1])
    ensures StockFile(stocks, today) == StockFile(stocks[..|stocks| - 1], today)
  {
    var n := |stocks| - 1;
    assert Entries(stocks[n].1) == [];
    assert EntryLines(stocks[n].0, Entries(stocks[n].1), today) == [];
  }

  /** The last pharmacy that stocks anything, when one does. */
  lemma {:induction false} LastStocked(stocks: seq<(string, map<string, Storages.Item>)>) returns (j: nat)
    requires exists i :: 0 <= i < |stocks| && stocks[i].1 != map[]
    ensures j < |stocks| && stocks[j].1 != map[]
    ensures forall i :: j < i < |stocks| ==> stocks[i].1 == map[]
    decreases |stocks|
  {
    var n := |stocks| - 1;
    if stocks[n].1 != map[] {
      j := n;
    } else {
      var i :| 0 <= i < |stocks| && stocks[i].1 != map[];
      assert stocks[..n][i] == stocks[i];
      j := LastStocked(stocks[..n]);
      assert forall i :: j < i < n ==> stocks[i] == stocks[..n][i];
    }
  }

  /** `saveStockData` opens the stock file to append. Saving twice leaves
      every record in it twice; read back into the pharmacies' empty
      ledgers, the second copy of a record meets the product the first copy
      stocked, `addToStorage` raises DuplicateProduct, and the load ends
      false. */
  lemma {:induction false} AppendedStockStops(s: StockScan, stocks: seq<(string, map<string, Storages.Item>)>, today: SafeDate,
                                              meds: map<string, Product>)
    requires s.stopped.None? && StockReloads(s.ledgers, stocks, meds)
    requires exists i :: 0 <= i < |stocks| && stocks[i].1 != map[]
    ensures Int32Quantities(stocks)
    ensures ReadStock(s, StockFile(stocks, today) + StockFile(stocks, today), meds).stopped.Some?
  {
    StockFileLoad(s, stocks, today, meds);
    var file := StockFile(stocks, today);
    ReadStockAppend(s, file, file, meds);
    RestockedAt(s.ledgers, stocks);
    var j := LastStocked(stocks);
    var before, record := StockFileEnds(s.ledgers, stocks, j, today, meds);
    SecondCopyStops(ReadStock(s, file, meds), before, record, meds);
  }

  /** The stock file ends with the record of the last product of the last
      pharmacy that stocks anything. */
  lemma {:induction false} StockFileEnds(ledgers: map<string, map<string, Storages.Item>>,
                                         stocks: seq<(string, map<string, Storages.Item>)>, j: nat, today: SafeDate,
                                         meds: map<string, Product>)
    returns (before: seq<string>, record: StockRecords.StockRecord)
    requires StockReloads(ledgers, stocks, meds) && j < |stocks| && stocks[j].1 != map[]
    requires forall i :: j < i < |stocks| ==> stocks[i].1 == map[]
    ensures Int32Quantities(stocks)
    ensures StockFile(stocks, today) == before + [StockRecords.Encode(record)]
    ensures record.pharmacyId == stocks[j].0 && record.productId in stocks[j].1 && StockRecords.RoundTrips(record)
    ensures record.productId in meds && meds[record.productId].Id() == record.productId
  {
    StockFileTrailing(stocks, j, today);
    StockFileSnoc(stocks, j, today);
    var lines;
    lines, record := EntryLinesEnd(stocks[j].0, stocks[j].1, today, meds);
    var head := StockFile(stocks[..j], today);
    before := head + lines;
    AppendAssociates(head, lines, [StockRecords.Encode(record)]);
  }

  /** A pharmacy's saved lines end with the record of its last product. */
  lemma {:induction false} EntryLinesEnd(p: string, items: map<string, Storages.Item>, today: SafeDate, meds: map<string, Product>)
    returns (lines: seq<string>, record: StockRecords.StockRecord)
    requires ProductCodecs.PlainText(p) && items != map[]
    requires forall k :: k in items ==>
               ProductCodecs.PlainText(k) && items[k].product.Id() == k && 0 < items[k].quantity
               && IsInt32(items[k].quantity) && k in meds && meds[k] == items[k].product
    ensures forall i :: 0 <= i < |Entries(items)| ==> IsInt32(Entries(items)[i].1)
    ensures EntryLines(p, Entries(items), today) == lines + [StockRecords.Encode(record)]
    ensures record.pharmacyId == p && record.productId in items && StockRecords.RoundTrips(record)
    ensures record.productId in meds && meds[record.productId].Id() == record.productId
  {
    var entries := Entries(items);
    var keys := Ordered(items.Keys);
    var n := |entries| - 1;
    var k := keys[n];
    assert k in items && entries[n] == (items[k].product, items[k].quantity);
    record := EntryRecord(p, entries[n].0, entries[n].1, today);
    lines := EntryLines(p, entries[..n], today);
  }

  /** On a load still running, a record line for a product its pharmacy's
      ledger already holds ends the load, whatever lines came before. */
  lemma {:induction false} SecondCopyStops(first: StockScan, before: seq<string>, record: StockRecords.StockRecord,
                                           meds: map<string, Product>)
    requires first.stopped.None? && StockRecords.RoundTrips(record)
    requires record.pharmacyId in first.ledgers && record.productId in first.ledgers[record.pharmacyId]
    requires record.productId in meds && meds[record.productId].Id() == record.productId
    ensures ReadStock(first, before + [StockRecords.Encode(record)], meds).stopped.Some?
  {
    ReadStockSnoc(first, before, StockRecords.Encode(record), meds);
    var mid := ReadStock(first, before, meds);
    if mid.stopped.None? {
      ReadStockKeeps(first, before, meds, record.pharmacyId, record.productId);
      StockLineOfRecord(mid, record, meds);
    }
  }

  /** `savePharmacies` opens the pharmacies file to append. Saving the same
      pharmacies twice, in the five-field form the loader reads, lists each
      of them twice when the file is loaded. */
  lemma {:induction false} AppendedPharmaciesTwice(infos: seq<Pharmacies.PharmacyInfo>)
    requires |infos| > 0 && forall info :: info in infos ==> Pharmacies.InfoRoundTrips(info)
    ensures LoadedPharmacyInfos(Some(SavePharmacies(infos) + SavePharmacies(infos))) == infos + infos
  {
    WrittenAppend(infos, infos, Pharmacies.Encode);
    SaveLoadPharmacies(infos + infos);
  }

  // ---------------------------------------------------------------------
  // The stock file as the stream layer writes and reads it

  /** The pieces of a file's text between line breaks: every piece but the
      last is followed by one; the last is what comes after the final break,
      empty when the text ends with one. */
  function Pieces(content: string): (r: seq<string>)
    ensures |r| > 0 && forall i :: 0 <= i < |r| ==> '\n' !in r[i]
    ensures Join(r, '\n') == content
    decreases |content|
  {
    var i := IndexOf(content, '\n');
    if i == |content| then [content]
    else
      var rest := Pieces(content[i + 1..]);
      assert ([content[..i]] + rest)[1..] == rest;
      assert content == content[..i] + ['\n'] + content[i + 1..];
      [content[..i]] + rest
  }

  /** The lines `std::getline` reads from a file's text: the pieces
      between line breaks, less the empty one after a final break. */
  function FileLines(content: string): (r: seq<string>)
    ensures NoSep(r, '\n')
  {
    var pieces := Pieces(content);
    if pieces[|pieces| - 1] == "" then pieces[..|pieces| - 1] else pieces
  }

  /** A text without a line break is read as that one line, or as none
      when it is empty. */
  lemma FileLinesUnbroken(content: string)
    requires '\n' !in content
    ensures FileLines(content) == if content == "" then [] else [content]
  {
    IndexOfAbsent(content, '\n');
  }

  /** Lines each followed by a break, as a line writer leaves them, are
      read back as those lines. */
  lemma FileLinesOfTerminated(lines: seq<string>)
    requires NoSep(lines, '\n')
    ensures FileLines(Terminated(lines)) == lines
  {
    PiecesOfTerminated(lines);
    assert (lines + [""])[..|lines|] == lines;
  }

  /** `loadStockData` as written, on the text of the file: each pass reads a
      record, and stocks it only when the read did not reach the end of the
      file. A line followed by a break is read and stocked; the last piece,
      when it is not empty, is read (and may raise) but never stocked, and
      the load is true; when it is empty the read fails at the end of the
      file, which raises, and the load is false. */
  function StockLoadAsWritten(ledgers: map<string, map<string, Storages.Item>>, content: string, meds: map<string, Product>):
    (r: (map<string, map<string, Storages.Item>>, bool))
    ensures r.0.Keys == ledgers.Keys
    ensures forall p, k :: p in ledgers && k in ledgers[p] ==> k in r.0[p]
  {
    var pieces := Pieces(content);
    var last := pieces[|pieces| - 1];
    var body := ReadStock(StockScan(StockRecords.DefaultRecord, ledgers, None), pieces[..|pieces| - 1], meds);
    ReadStockKeepsAll(StockScan(StockRecords.DefaultRecord, ledgers, None), pieces[..|pieces| - 1], meds);
    if body.stopped.Some? || last == "" then (body.ledgers, false)
    else (body.ledgers, StockRecords.ParseInto(body.record, last).1.Pass?)
  }

  /** As written, the load is true only for a text that does not end with
      a line break. */
  lemma StockLoadTrueUnterminated(ledgers: map<string, map<string, Storages.Item>>, content: string, meds: map<string, Product>)
    requires StockLoadAsWritten(ledgers, content, meds).1
    ensures content != "" && content[|content| - 1] != '\n'
  {
    PiecesLast(content);
  }

  /** The last piece is not empty exactly when the text does not end with a
      line break. */
  lemma {:induction false} PiecesLast(content: string)
    ensures var pieces := Pieces(content);
            pieces[|pieces| - 1] != "" <==> content != "" && content[|content| - 1] != '\n'
    decreases |content|
  {
    var i := IndexOf(content, '\n');
    if i < |content| {
      var rest := content[i + 1..];
      PiecesLast(rest);
      if rest != "" {
        assert content[|content| - 1] == rest[|rest| - 1];
      }
    }
  }

  /** Each line followed by a line break, as a line writer would leave it. */
  function Terminated(lines: seq<string>): (r: string)
    ensures |r| >= |lines|
  {
    if |lines| == 0 then "" else lines[0] + "\n" + Terminated(lines[1..])
  }

  lemma {:induction false} PiecesOfTerminated(lines: seq<string>)
    requires NoSep(lines, '\n')
    ensures Pieces(Terminated(lines)) == lines + [""]
    decreases |lines|
  {
    if |lines| > 0 {
      var tail := lines[1..];
      assert NoSep(tail, '\n') by {
        forall i | 0 <= i < |tail| ensures '\n' !in tail[i] {
          assert tail[i] == lines[i + 1];
        }
      }
      calc {
        Pieces(Terminated(lines));
        Pieces(lines[0] + "\n" + Terminated(tail));
        { PiecesCons(lines[0], Terminated(tail)); }
        [lines[0]] + Pieces(Terminated(tail));
        { PiecesOfTerminated(tail); }
        [lines[0]] + (tail + [""]);
        lines + [""];
      }
    }
  }

  /** A line and its break in front of a text split off as one piece. */
  lemma PiecesCons(a: string, rest: string)
    requires '\n' !in a
    ensures Pieces(a + "\n" + rest) == [a] + Pieces(rest)
  {
    var s := a + "\n" + rest;
    IndexOfJoined(a, '\n', rest);
    assert s[..|a|] == a;
    assert s[|a| + 1..] == rest;
  }

  /** A stock file whose every line ends with a line break, the shape a
      line writer leaves, loads as written with every line stocked as the
      corrected loader stocks it, yet the load is always false: the read
      after the last line fails at the end of the file and raises. */
  lemma {:induction false} TerminatedStockLoadFails(ledgers: map<string, map<string, Storages.Item>>, lines: seq<string>,
                                                    meds: map<string, Product>)
    requires NoSep(lines, '\n')
    ensures var r := StockLoadAsWritten(ledgers, Terminated(lines), meds);
            r.0 == ReadStock(StockScan(StockRecords.DefaultRecord, ledgers, None), lines, meds).ledgers && !r.1
  {
    PiecesOfTerminated(lines);
    var pieces := lines + [""];
    assert pieces[..|pieces| - 1] == lines;
  }

  /** The records as `saveStockData` leaves them: `<<` on a record writes no
      line break, so they follow one another on a single line. */
  ghost function SaveStockAsWritten(stocks: seq<(string, map<string, Storages.Item>)>, today: SafeDate): (r: string)
    requires Int32Quantities(stocks)
    ensures StockPlain(stocks) ==> '\n' !in r
  {
    if StockPlain(stocks) then
      StockFileFree(stocks, today, '\n');
      Concat(StockFile(stocks, today))
    else
      Concat(StockFile(stocks, today))
  }

  /** Pharmacy and product ids are plain text, and each ledger is keyed by
      its products' ids. */
  predicate StockPlain(stocks: seq<(string, map<string, Storages.Item>)>) {
    forall i :: 0 <= i < |stocks| ==>
      ProductCodecs.PlainText(stocks[i].0)
      && forall k :: k in stocks[i].1 ==> ProductCodecs.PlainText(k) && stocks[i].1[k].product.Id() == k
  }

  function Concat(lines: seq<string>): (r: string)
    ensures forall c :: c in r ==> exists i :: 0 <= i < |lines| && c in lines[i]
  {
    if |lines| == 0 then "" else Concat(lines[..|lines| - 1]) + lines[|lines| - 1]
  }

  /** A character `<<` never writes for a number, a date or a separator. */
  predicate Foreign(c: char) {
    c != ';' && c != '-' && !IsDigit(c)
  }

  lemma NumberFree(n: int, c: char)
    requires Foreign(c)
    ensures c !in IntToString(n)
  {
    if n < 0 {
      assert IntToString(n) == "-" + NatToString(-n);
    }
  }

  /** A record's line holds a foreign character only where its ids do. */
  lemma RecordFree(r: StockRecords.StockRecord, c: char)
    requires Foreign(c) && c !in r.productId && c !in r.pharmacyId
    ensures c !in StockRecords.Encode(r)
  {
    var date := r.receiptDate;
    NumberFree(r.quantity, c);
    NumberFree(date.year, c);
    assert SafeDates.ToString(date) == IntToString(date.year) + "-" + Pad2(date.month) + "-" + Pad2(date.day);
    assert NoSep(StockRecords.Fields(r), c);
    JoinHasNoChar(StockRecords.Fields(r), ';', c);
  }

  /** No line saved for a pharmacy holds a foreign character its ids do not
      hold. */
  lemma {:induction false} EntryLinesFree(pharmacyId: string, entries: seq<(Product, int)>, today: SafeDate, c: char)
    requires Foreign(c) && c !in pharmacyId
    requires forall i :: 0 <= i < |entries| ==> IsInt32(entries[i].1) && c !in entries[i].0.Id()
    ensures NoSep(EntryLines(pharmacyId, entries, today), c)
    decreases |entries|
  {
    if |entries| > 0 {
      var n := |entries| - 1;
      EntryLinesFree(pharmacyId, entries[..n], today, c);
      if entries[n].1 > 0 {
        RecordFree(EntryRecord(pharmacyId, entries[n].0, entries[n].1, today), c);
      }
    }
  }

  /** No line of the stock file holds a foreign character none of the ids
      hold. */
  lemma {:induction false} StockFileFree(stocks: seq<(string, map<string, Storages.Item>)>, today: SafeDate, c: char)
    requires Foreign(c) && Int32Quantities(stocks)
    requires forall i :: 0 <= i < |stocks| ==> c !in stocks[i].0
    requires forall i, k :: 0 <= i < |stocks| && k in stocks[i].1 ==> c !in k && stocks[i].1[k].product.Id() == k
    ensures NoSep(StockFile(stocks, today), c)
    decreases |stocks|
  {
    if |stocks| > 0 {
      var n := |stocks| - 1;
      StockFileFree(stocks[..n], today, c);
      var items := stocks[n].1;
      assert forall k :: k in items ==> IsInt32(items[k].quantity) && c !in k && items[k].product.Id() == k;
      var entries := Entries(items);
      var keys := Ordered(items.Keys);
      forall i | 0 <= i < |entries| ensures IsInt32(entries[i].1) && c !in entries[i].0.Id() {
        var k := keys[i];
        assert k in items && entries[i] == (items[k].product, items[k].quantity);
      }
      EntryLinesFree(stocks[n].0, entries, today, c);
    }
  }

  /** What `saveStockData` writes is never restored by `loadStockData` as
      written: with no line break between the records, the whole file is one
      unterminated last piece, which is read but not stocked, so every
      ledger stays as it was. */
  lemma {:induction false} SavedStockNeverReloads(ledgers: map<string, map<string, Storages.Item>>,
                                                  stocks: seq<(string, map<string, Storages.Item>)>, today: SafeDate,
                                                  meds: map<string, Product>)
    requires StockReloads(ledgers, stocks, meds)
    ensures Int32Quantities(stocks)
    ensures StockLoadAsWritten(ledgers, SaveStockAsWritten(stocks, today), meds).0 == ledgers
  {
    StockFileFree(stocks, today, '\n');
    var content := SaveStockAsWritten(stocks, today);
    IndexOfAbsent(content, '\n');
    assert Pieces(content) == [content];
    assert Pieces(content)[..0] == [];
  }

  // ---------------------------------------------------------------------
  // getAvailabilityInOtherPharmacies

  /** The pharmacy whose stock the scan never reports. */
  const MainPharmacyId := "001"

  /** The three texts the availability scan cuts a line into: the product
      id before ':', then the pharmacy id and the quantity, the next two `;`
      fields after it, each with spaces removed. None for a blank line, a
      line without ':', and a line after whose ':' two fields cannot be
      read. */
  function AvailabilityFields(line: string): (r: Option<(string, string, string)>)
    ensures r.Some? ==> ':' in line && r.value.0 == RemoveSpaces(line[..IndexOf(line, ':')])
    ensures r.Some? ==> ' ' !in r.value.1 && ' ' !in r.value.2 && ';' !in r.value.1 && ';' !in r.value.2
  {
    if Blank(line) then None
    else
      var colon := IndexOf(line, ':');
      if colon == |line| then None
      else
        var rest := line[colon + 1..];
        var semi := IndexOf(rest, ';');
        if semi + 1 >= |rest| then None
        else
          var after := rest[semi + 1..];
          Some((RemoveSpaces(line[..colon]), RemoveSpaces(rest[..semi]), RemoveSpaces(after[..IndexOf(after, ';')])))
  }

  /** The three texts the corrected scan reads from a line in the stock
      file's own format, `product;pharmacy;quantity;date`: the first three
      `;` fields, each with spaces removed. None for a blank line and a line
      with fewer than three fields. */
  function StockLineFields(line: string): (r: Option<(string, string, string)>)
    ensures r.Some? <==> !Blank(line) && |Split(line, ';')| >= 3
    ensures r.Some? ==> var fields := Split(line, ';');
                        r.value == (RemoveSpaces(fields[0]), RemoveSpaces(fields[1]), RemoveSpaces(fields[2]))
  {
    if Blank(line) then None
    else
      var fields := Split(line, ';');
      if |fields| < 3 then None
      else Some((RemoveSpaces(fields[0]), RemoveSpaces(fields[1]), RemoveSpaces(fields[2])))
  }

  /** The line format a scan reads: the one the scan was written for,
      `product:pharmacy;quantity`, or the stock file's own. */
  datatype LineFormat = ColonFormat | StockFormat

  function ScanFields(format: LineFormat, line: string): Option<(string, string, string)> {
    match format
    case ColonFormat => AvailabilityFields(line)
    case StockFormat => StockLineFields(line)
  }

  /** What the availability scan takes from one line of the stock file: the
      pharmacy id and the quantity, or None when the line is passed over.
      Both ids must be all digits and not empty, the product id must be the
      one asked for and the pharmacy not the main one, and `stoi` must read
      a positive quantity; its exception is caught and the line passed
      over. */
  function AvailabilityLine(format: LineFormat, line: string, productId: string): (r: Option<(string, Int32)>)
    ensures r.Some? ==> ScanFields(format, line).Some? && ScanFields(format, line).value.0 == productId
                        && productId != "" && AllDigits(productId)
    ensures r.Some? ==> r.value.0 != "" && AllDigits(r.value.0) && r.value.0 != MainPharmacyId && r.value.1 > 0
  {
    match ScanFields(format, line)
    case None => None
    case Some((prodId, pharmId, quantity)) =>
      if prodId == "" || !AllDigits(prodId) || pharmId == "" || !AllDigits(pharmId) then None
      else if prodId != productId || pharmId == MainPharmacyId then None
      else
        match Stoi(quantity)
        case Fail(_) => None
        case Ok(q) => if q > 0 then Some((pharmId, q)) else None
  }

  /** The first pharmacy in the list with the id, if there is one. */
  function FirstWithId(infos: seq<Pharmacies.PharmacyInfo>, id: string): (r: Option<Pharmacies.PharmacyInfo>)
    ensures r.None? <==> forall i :: 0 <= i < |infos| ==> infos[i].id != id
    ensures r.Some? ==> r.value in infos && r.value.id == id
  {
    if |infos| == 0 then None
    else if infos[0].id == id then Some(infos[0])
    else FirstWithId(infos[1..], id)
  }

  /** How the scan names a pharmacy: name, address and phone on three lines
      for the first loaded pharmacy with the id, otherwise a number sign
      and the id. */
  function DisplayName(infos: seq<Pharmacies.PharmacyInfo>, pharmacyId: string): (r: string)
    ensures (forall i :: 0 <= i < |infos| ==> infos[i].id != pharmacyId) ==> r == "Аптека №" + pharmacyId
    ensures forall i :: 0 <= i < |infos| && infos[i].id == pharmacyId && (forall j :: 0 <= j < i ==> infos[j].id != pharmacyId) ==>
              r == infos[i].name + "\n" + infos[i].address + "\n" + infos[i].phone
  {
    FirstIsFirst(infos, pharmacyId);
    match FirstWithId(infos, pharmacyId)
    case Some(p) => p.name + "\n" + p.address + "\n" + p.phone
    case None => "Аптека №" + pharmacyId
  }

  lemma FirstIsFirst(infos: seq<Pharmacies.PharmacyInfo>, id: string)
    ensures forall i :: 0 <= i < |infos| && infos[i].id == id && (forall j :: 0 <= j < i ==> infos[j].id != id) ==>
              FirstWithId(infos, id) == Some(infos[i])
  {
    forall i | 0 <= i < |infos| && infos[i].id == id && (forall j :: 0 <= j < i ==> infos[j].id != id)
      ensures FirstWithId(infos, id) == Some(infos[i])
    {
      FirstAt(infos, i, id);
    }
  }

  /** The scan's result over the lines of the stock file, in file order. */
  function Availability(format: LineFormat, lines: seq<string>, productId: string, infos: seq<Pharmacies.PharmacyInfo>):
    (r: seq<(string, Int32)>)
    ensures |r| <= |lines|
    ensures QuantitiesPositive(r)
  {
    if |lines| == 0 then []
    else
      Availability(format, lines[..|lines| - 1], productId, infos) + AvailabilityRow(format, lines[|lines| - 1], productId, infos)
  }

  /** Every row reports a positive quantity. */
  predicate QuantitiesPositive(rows: seq<(string, Int32)>) {
    forall i :: 0 <= i < |rows| ==> rows[i].1 > 0
  }

  /** What one line adds to the result: nothing, or the named pharmacy and
      its quantity. */
  function AvailabilityRow(format: LineFormat, line: string, productId: string, infos: seq<Pharmacies.PharmacyInfo>):
    (r: seq<(string, Int32)>)
    ensures |r| <= 1 && (|r| == 1 ==> r[0].1 > 0)
  {
    match AvailabilityLine(format, line, productId)
    case None => []
    case Some((pharmacyId, quantity)) => [(DisplayName(infos, pharmacyId), quantity)]
  }

  /** `infos` are the details of `pharmacies`, in order. */
  predicate InfosOf(pharmacies: seq<Pharmacies.Pharmacy>, infos: seq<Pharmacies.PharmacyInfo>) {
    |pharmacies| == |infos| && forall i :: 0 <= i < |infos| ==> pharmacies[i].info == infos[i]
  }

  /** The inner loop of the scan: the first loaded pharmacy with the id
      gives the name. */
  method NameOf(pharmacies: seq<Pharmacies.Pharmacy>, ghost infos: seq<Pharmacies.PharmacyInfo>, pharmacyId: string)
    returns (name: string)
    requires InfosOf(pharmacies, infos)
    ensures name == DisplayName(infos, pharmacyId)
  {
    var i := 0;
    while i < |pharmacies|
      invariant 0 <= i <= |pharmacies|
      invariant forall j :: 0 <= j < i ==> infos[j].id != pharmacyId
    {
      var info := pharmacies[i].info;
      if info.id == pharmacyId {
        FirstAt(infos, i, pharmacyId);
        return info.name + "\n" + info.address + "\n" + info.phone;
      }
      i := i + 1;
    }
    name := "Аптека №" + pharmacyId;
  }

  /** The pharmacy found is the first with the id: none before it has it. */
  lemma {:induction false} FirstAt(infos: seq<Pharmacies.PharmacyInfo>, i: nat, id: string)
    requires i < |infos| && infos[i].id == id && forall j :: 0 <= j < i ==> infos[j].id != id
    ensures FirstWithId(infos, id) == Some(infos[i])
    decreases i
  {
    if i > 0 {
      FirstAt(infos[1..], i - 1, id);
    }
  }

  /** `getAvailabilityInOtherPharmacies`: the pharmacies are loaded as
      `loadPharmacies` loads them; without a stock file the result is
      empty; otherwise it lists, line by line, each pharmacy and quantity
      the scan takes from a `product:pharmacy;quantity` line, named from
      the loaded pharmacies. */
  method GetAvailabilityInOtherPharmacies(pharmacyFile: Option<seq<string>>, stockFile: Option<seq<string>>, productId: string)
    returns (result: seq<(string, Int32)>)
    ensures result == if stockFile.None? then [] else Availability(ColonFormat, stockFile.value, productId, LoadedPharmacyInfos(pharmacyFile))
  {
    result := ScanStockFile(ColonFormat, pharmacyFile, stockFile, productId);
  }

  /** The scan corrected to read the stock file's own lines,
      `product;pharmacy;quantity;date`; the rest is unchanged. */
  method GetAvailabilityFromStockLines(pharmacyFile: Option<seq<string>>, stockFile: Option<seq<string>>, productId: string)
    returns (result: seq<(string, Int32)>)
    ensures result == if stockFile.None? then [] else Availability(StockFormat, stockFile.value, productId, LoadedPharmacyInfos(pharmacyFile))
  {
    result := ScanStockFile(StockFormat, pharmacyFile, stockFile, productId);
  }

  /** The body of the scan, in either line format. */
  method ScanStockFile(format: LineFormat, pharmacyFile: Option<seq<string>>, stockFile: Option<seq<string>>, productId: string)
    returns (result: seq<(string, Int32)>)
    ensures result == if stockFile.None? then [] else Availability(format, stockFile.value, productId, LoadedPharmacyInfos(pharmacyFile))
  {
    var pharmacies := LoadPharmacies(pharmacyFile);
    result := [];
    if stockFile.Some? {
      result := ScanAvailability(format, stockFile.value, productId, pharmacies, LoadedPharmacyInfos(pharmacyFile));
    }
  }

  /** The loop over the lines of the stock file. */
  method ScanAvailability(format: LineFormat, lines: seq<string>, productId: string, pharmacies: seq<Pharmacies.Pharmacy>,
                          ghost infos: seq<Pharmacies.PharmacyInfo>) returns (result: seq<(string, Int32)>)
    requires InfosOf(pharmacies, infos)
    ensures result == Availability(format, lines, productId, infos)
  {
    result := [];
    for i := 0 to |lines|
      invariant result == Availability(format, lines[..i], productId, infos)
    {
      result := ScanNext(format, result, lines, i, productId, pharmacies, infos);
    }
    AvailabilityOfAll(format, lines, productId, infos);
  }

  lemma AvailabilityOfAll(format: LineFormat, lines: seq<string>, productId: string, infos: seq<Pharmacies.PharmacyInfo>)
    ensures Availability(format, lines[..|lines|], productId, infos) == Availability(format, lines, productId, infos)
  {
    assert lines[..|lines|] == lines;
  }

  /** One turn of the scan: the rows of line `i` join those before it. */
  method ScanNext(format: LineFormat, result: seq<(string, Int32)>, lines: seq<string>, i: nat, productId: string,
                  pharmacies: seq<Pharmacies.Pharmacy>, ghost infos: seq<Pharmacies.PharmacyInfo>)
    returns (next: seq<(string, Int32)>)
    requires InfosOf(pharmacies, infos) && i < |lines|
    requires result == Availability(format, lines[..i], productId, infos)
    ensures next == Availability(format, lines[..i + 1], productId, infos)
  {
    var row := ScanLine(format, lines[i], productId, pharmacies, infos);
    AvailabilitySnoc(format, lines, i, productId, infos);
    next := result + row;
  }

  /** The body of the scan for one line. */
  method ScanLine(format: LineFormat, line: string, productId: string, pharmacies: seq<Pharmacies.Pharmacy>,
                  ghost infos: seq<Pharmacies.PharmacyInfo>) returns (row: seq<(string, Int32)>)
    requires InfosOf(pharmacies, infos)
    ensures row == AvailabilityRow(format, line, productId, infos)
  {
    row := [];
    var found := AvailabilityLine(format, line, productId);
    if found.Some? {
      var name := NameOf(pharmacies, infos, found.value.0);
      row := [(name, found.value.1)];
    }
  }

  lemma AvailabilitySnoc(format: LineFormat, lines: seq<string>, i: nat, productId: string, infos: seq<Pharmacies.PharmacyInfo>)
    requires i < |lines|
    ensures Availability(format, lines[..i + 1], productId, infos)
            == Availability(format, lines[..i], productId, infos) + AvailabilityRow(format, lines[i], productId, infos)
  {
    assert lines[..i + 1][..i] == lines[..i];
  }

  lemma RemoveSpacesNone(s: string)
    requires ' ' !in s
    ensures RemoveSpaces(s) == s
  {
    if |s| > 0 {
      RemoveSpacesNone(s[1..]);
      assert s == [s[0]] + s[1..];
    }
  }

  /** A line in the format the scan expects, `product:pharmacy;quantity`
      with all-digit ids and a positive quantity, is taken exactly when its
      product is the one asked for and its pharmacy is not the main one. */
  lemma {:induction false} AvailabilityLineOf(product: string, pharmacyId: string, quantity: Int32, wanted: string)
    requires product != "" && AllDigits(product) && pharmacyId != "" && AllDigits(pharmacyId) && quantity > 0
    ensures AvailabilityLine(ColonFormat, product + ":" + pharmacyId + ";" + IntToString(quantity), wanted)
            == if wanted == product && pharmacyId != MainPharmacyId then Some((pharmacyId, quantity)) else None
  {
    assert IntToString(quantity) == NatToString(quantity as nat);
    AvailabilityFieldsOf(product, pharmacyId, quantity);
    ReadIntOfString(quantity, "");
    assert IntToString(quantity) + "" == IntToString(quantity);
  }

  lemma {:induction false} AvailabilityFieldsOf(product: string, pharmacyId: string, quantity: Int32)
    requires AllDigits(product) && AllDigits(pharmacyId) && AllDigits(IntToString(quantity)) && IntToString(quantity) != ""
    ensures AvailabilityFields(product + ":" + pharmacyId + ";" + IntToString(quantity))
            == Some((product, pharmacyId, IntToString(quantity)))
  {
    var qs := IntToString(quantity);
    var rest := pharmacyId + ";" + qs;
    var line := product + ":" + pharmacyId + ";" + IntToString(quantity);
    DigitsFree(product);
    DigitsFree(pharmacyId);
    DigitsFree(qs);
    assert line == product + [':'] + rest;
    IndexOfJoined(product, ':', rest);
    assert line[..|product|] == product && line[|product| + 1..] == rest;
    assert !Blank(line) by { assert line[|product|] == ':'; }
    SecondField(pharmacyId, qs);
    RemoveSpacesNone(product);
  }

  /** The two fields after ':' are read back from `pharmacy;quantity`. */
  lemma SecondField(pharmacyId: string, qs: string)
    requires ';' !in pharmacyId && ' ' !in pharmacyId && ';' !in qs && ' ' !in qs && qs != ""
    ensures var rest := pharmacyId + ";" + qs;
            var semi := IndexOf(rest, ';');
            semi + 1 < |rest| && RemoveSpaces(rest[..semi]) == pharmacyId
            && RemoveSpaces(rest[semi + 1..][..IndexOf(rest[semi + 1..], ';')]) == qs
  {
    var rest := pharmacyId + ";" + qs;
    assert rest == pharmacyId + [';'] + qs;
    IndexOfJoined(pharmacyId, ';', qs);
    assert rest[..|pharmacyId|] == pharmacyId && rest[|pharmacyId| + 1..] == qs;
    IndexOfAbsent(qs, ';');
    assert qs[..|qs|] == qs;
    RemoveSpacesNone(pharmacyId);
    RemoveSpacesNone(qs);
  }

  /** A text of digits holds no separator and no space. */
  lemma DigitsFree(s: string)
    requires AllDigits(s)
    ensures ':' !in s && ';' !in s && ' ' !in s
  {
    forall k | 0 <= k < |s| ensures s[k] != ':' && s[k] != ';' && s[k] != ' ' {
      assert IsDigit(s[k]);
    }
  }

  /** A file none of whose lines holds ':' yields nothing. */
  lemma {:induction false} AvailabilityWithoutColons(lines: seq<string>, productId: string, infos: seq<Pharmacies.PharmacyInfo>)
    requires NoSep(lines, ':')
    ensures Availability(ColonFormat, lines, productId, infos) == []
    decreases |lines|
  {
    if |lines| > 0 {
      AvailabilityWithoutColons(lines[..|lines| - 1], productId, infos);
      IndexOfAbsent(lines[|lines| - 1], ':');
    }
  }

  /** The scan never finds anything in the stock file as `saveStockData`
      writes it, one record per line: a record line holds no ':' when its
      ids hold none. */
  lemma SavedStockHasNoAvailability(stocks: seq<(string, map<string, Storages.Item>)>, today: SafeDate, productId: string,
                                    infos: seq<Pharmacies.PharmacyInfo>)
    requires Int32Quantities(stocks)
    requires forall i :: 0 <= i < |stocks| ==> ':' !in stocks[i].0
    requires forall i, k :: 0 <= i < |stocks| && k in stocks[i].1 ==> ':' !in k && stocks[i].1[k].product.Id() == k
    ensures Availability(ColonFormat, StockFile(stocks, today), productId, infos) == []
  {
    StockFileFree(stocks, today, ':');
    AvailabilityWithoutColons(StockFile(stocks, today), productId, infos);
  }

  // The corrected scan on the stock file `saveStockData` writes

  /** Pharmacy and product ids are all digits and not empty, as the scan
      demands, and each ledger is keyed by its products' ids. */
  predicate DigitIds(stocks: seq<(string, map<string, Storages.Item>)>) {
    forall i :: 0 <= i < |stocks| ==>
      stocks[i].0 != "" && AllDigits(stocks[i].0)
      && forall k :: k in stocks[i].1 ==> k != "" && AllDigits(k) && stocks[i].1[k].product.Id() == k
  }

  /** What one ledger should contribute: the pharmacy, named from the loaded
      pharmacies, with its quantity, when it is not the main one and holds a
      positive quantity of the product. */
  function HeldElsewhere(pharmacyId: string, items: map<string, Storages.Item>, productId: string,
                         infos: seq<Pharmacies.PharmacyInfo>): (r: seq<(string, Int32)>)
    requires productId in items ==> IsInt32(items[productId].quantity)
    ensures |r| == 1 <==> pharmacyId != MainPharmacyId && productId in items && items[productId].quantity > 0
    ensures |r| <= 1 && (|r| == 1 ==> r[0] == (DisplayName(infos, pharmacyId), items[productId].quantity))
  {
    if pharmacyId != MainPharmacyId && productId in items && items[productId].quantity > 0
    then [(DisplayName(infos, pharmacyId), items[productId].quantity as Int32)]
    else []
  }

  /** The pharmacies other than the main one that hold the product, in
      ledger order, each with its quantity. */
  ghost function StockedElsewhere(stocks: seq<(string, map<string, Storages.Item>)>, productId: string,
                                  infos: seq<Pharmacies.PharmacyInfo>): (r: seq<(string, Int32)>)
    requires Int32Quantities(stocks)
    ensures |r| <= |stocks|
  {
    if |stocks| == 0 then []
    else
      var n := |stocks| - 1;
      assert stocks[n] in stocks;
      StockedElsewhere(stocks[..n], productId, infos) + HeldElsewhere(stocks[n].0, stocks[n].1, productId, infos)
  }

  /** The corrected scan on the stock file `saveStockData` writes reports
      exactly the pharmacies other than the main one that stock the product,
      in the order of the ledgers, each with its quantity. */
  lemma {:induction false} StockFileAvailability(stocks: seq<(string, map<string, Storages.Item>)>, today: SafeDate,
                                                 productId: string, infos: seq<Pharmacies.PharmacyInfo>)
    requires Int32Quantities(stocks) && DigitIds(stocks)
    ensures Availability(StockFormat, StockFile(stocks, today), productId, infos) == StockedElsewhere(stocks, productId, infos)
    decreases |stocks|
  {
    if |stocks| > 0 {
      StockFileAvailabilityStep(stocks, today, productId, infos);
      StockFileAvailability(stocks[..|stocks| - 1], today, productId, infos);
      StockedElsewhereLast(stocks, productId, infos);
    }
  }

  lemma DigitIdsFront(stocks: seq<(string, map<string, Storages.Item>)>)
    requires |stocks| > 0 && Int32Quantities(stocks) && DigitIds(stocks)
    ensures Int32Quantities(stocks[..|stocks| - 1]) && DigitIds(stocks[..|stocks| - 1])
  {
    var front := stocks[..|stocks| - 1];
    forall i | 0 <= i < |front| ensures front[i] == stocks[i] {
    }
  }

  lemma StockedElsewhereLast(stocks: seq<(string, map<string, Storages.Item>)>, productId: string,
                             infos: seq<Pharmacies.PharmacyInfo>)
    requires |stocks| > 0 && Int32Quantities(stocks)
    ensures var n := |stocks| - 1;
            && Int32Quantities(stocks[..n])
            && (productId in stocks[n].1 ==> IsInt32(stocks[n].1[productId].quantity))
            && StockedElsewhere(stocks, productId, infos)
               == StockedElsewhere(stocks[..n], productId, infos) + HeldElsewhere(stocks[n].0, stocks[n].1, productId, infos)
  {
    var n := |stocks| - 1;
    assert forall i :: 0 <= i < n ==> stocks[..n][i] == stocks[i];
    assert stocks[n] in stocks;
  }

  /** One more ledger: its row follows those of the ledgers before it. */
  lemma StockFileAvailabilityStep(stocks: seq<(string, map<string, Storages.Item>)>, today: SafeDate,
                                  productId: string, infos: seq<Pharmacies.PharmacyInfo>)
    requires |stocks| > 0 && Int32Quantities(stocks) && DigitIds(stocks)
    ensures var n := |stocks| - 1;
            && Int32Quantities(stocks[..n]) && DigitIds(stocks[..n])
            && (productId in stocks[n].1 ==> IsInt32(stocks[n].1[productId].quantity))
            && Availability(StockFormat, StockFile(stocks, today), productId, infos)
               == Availability(StockFormat, StockFile(stocks[..n], today), productId, infos)
                  + HeldElsewhere(stocks[n].0, stocks[n].1, productId, infos)
  {
    var n := |stocks| - 1;
    var front := stocks[..n];
    DigitIdsFront(stocks);
    var pharmacyId := stocks[n].0;
    var items := stocks[n].1;
    assert stocks[n] in stocks;
    var lines := EntryLines(pharmacyId, Entries(items), today);
    assert StockFile(stocks, today) == StockFile(front, today) + lines;
    AvailabilityAppend(StockFormat, StockFile(front, today), lines, productId, infos);
    LedgerAvailability(pharmacyId, items, today, productId, infos);
  }

  /** The scan of two texts one after the other is the scan of each. */
  lemma {:induction false} AvailabilityAppend(format: LineFormat, xs: seq<string>, ys: seq<string>, productId: string,
                                              infos: seq<Pharmacies.PharmacyInfo>)
    ensures Availability(format, xs + ys, productId, infos)
            == Availability(format, xs, productId, infos) + Availability(format, ys, productId, infos)
    decreases |ys|
  {
    if |ys| == 0 {
      assert xs + ys == xs;
    } else {
      var n := |ys| - 1;
      AvailabilityAppend(format, xs, ys[..n], productId, infos);
      AvailabilityAppendStep(format, xs, ys, productId, infos);
      var row := AvailabilityRow(format, ys[n], productId, infos);
      var before := Availability(format, xs, productId, infos);
      var mid := Availability(format, ys[..n], productId, infos);
      AppendAssociates(before, mid, row);
    }
  }

  lemma AvailabilityAppendStep(format: LineFormat, xs: seq<string>, ys: seq<string>, productId: string,
                               infos: seq<Pharmacies.PharmacyInfo>)
    requires |ys| > 0
    ensures var n := |ys| - 1;
            var row := AvailabilityRow(format, ys[n], productId, infos);
            && Availability(format, xs + ys, productId, infos) == Availability(format, xs + ys[..n], productId, infos) + row
            && Availability(format, ys, productId, infos) == Availability(format, ys[..n], productId, infos) + row
  {
    var n := |ys| - 1;
    assert (xs + ys)[..|xs + ys| - 1] == xs + ys[..n];
    assert (xs + ys)[|xs + ys| - 1] == ys[n];
  }

  /** One ledger's lines: the pharmacy is reported once, with the product's
      quantity, or not at all. */
  lemma {:induction false} LedgerAvailability(pharmacyId: string, items: map<string, Storages.Item>, today: SafeDate,
                                              productId: string, infos: seq<Pharmacies.PharmacyInfo>)
    requires pharmacyId != "" && AllDigits(pharmacyId)
    requires forall k :: k in items ==> IsInt32(items[k].quantity) && k != "" && AllDigits(k) && items[k].product.Id() == k
    ensures Availability(StockFormat, EntryLines(pharmacyId, Entries(items), today), productId, infos)
            == HeldElsewhere(pharmacyId, items, productId, infos)
  {
    var entries := Entries(items);
    EntriesKeyed(items);
    assert forall i :: 0 <= i < |entries| ==> IsInt32(entries[i].1) && entries[i].0.Id() != "" && AllDigits(entries[i].0.Id());
    EntriesAvailability(pharmacyId, entries, today, productId, infos);
    LedgerHeld(pharmacyId, items, productId, infos);
  }

  /** The rows a ledger's entries should give are the ledger's own row. */
  lemma LedgerHeld(pharmacyId: string, items: map<string, Storages.Item>, productId: string,
                   infos: seq<Pharmacies.PharmacyInfo>)
    requires forall k :: k in items ==> IsInt32(items[k].quantity) && k != "" && AllDigits(k) && items[k].product.Id() == k
    ensures forall i :: 0 <= i < |Entries(items)| ==> IsInt32(Entries(items)[i].1)
    ensures EntriesHeld(pharmacyId, Entries(items), productId, infos) == HeldElsewhere(pharmacyId, items, productId, infos)
  {
    var keys := Ordered(items.Keys);
    var entries := Entries(items);
    EntriesKeyed(items);
    if productId in items {
      var i :| 0 <= i < |keys| && keys[i] == productId;
      assert entries[i] == (items[productId].product, items[productId].quantity);
      EntriesHeldOnce(pharmacyId, entries, productId, infos, i);
    } else {
      assert forall k :: 0 <= k < |entries| ==> entries[k].0.Id() != productId by {
        forall k | 0 <= k < |entries| ensures entries[k].0.Id() != productId {
          assert keys[k] in items;
        }
      }
      EntriesHeldNone(pharmacyId, entries, productId, infos);
    }
  }

  /** A ledger's entries, in key order, carry their keys as ids, once
      each. */
  lemma EntriesKeyed(items: map<string, Storages.Item>)
    requires forall k :: k in items ==> IsInt32(items[k].quantity) && k != "" && AllDigits(k) && items[k].product.Id() == k
    ensures var keys := Ordered(items.Keys);
            var entries := Entries(items);
            && (forall i :: 0 <= i < |entries| ==>
                  entries[i] == (items[keys[i]].product, items[keys[i]].quantity) && entries[i].0.Id() == keys[i]
                  && IsInt32(entries[i].1) && keys[i] != "" && AllDigits(keys[i]))
            && (forall i, j :: 0 <= i < |entries| && 0 <= j < |entries| && entries[i].0.Id() == entries[j].0.Id() ==> i == j)
  {
    var keys := Ordered(items.Keys);
    var entries := Entries(items);
    forall i, j | 0 <= i < |entries| && 0 <= j < |entries| && entries[i].0.Id() == entries[j].0.Id()
      ensures i == j
    {
      if i < j {
        assert Less(keys[i], keys[j]);
        LessIrreflexive(keys[i]);
      } else if j < i {
        assert Less(keys[j], keys[i]);
        LessIrreflexive(keys[j]);
      }
    }
  }

  /** The row one entry should give. */
  function EntryHeld(pharmacyId: string, entry: (Product, int), productId: string, infos: seq<Pharmacies.PharmacyInfo>):
    (r: seq<(string, Int32)>)
    requires IsInt32(entry.1)
    ensures |r| == 1 <==> pharmacyId != MainPharmacyId && entry.0.Id() == productId && entry.1 > 0
    ensures |r| <= 1 && (|r| == 1 ==> r[0] == (DisplayName(infos, pharmacyId), entry.1))
  {
    if pharmacyId != MainPharmacyId && entry.0.Id() == productId && entry.1 > 0
    then [(DisplayName(infos, pharmacyId), entry.1 as Int32)]
    else []
  }

  /** The rows the entries should give, in order. */
  function EntriesHeld(pharmacyId: string, entries: seq<(Product, int)>, productId: string, infos: seq<Pharmacies.PharmacyInfo>):
    (r: seq<(string, Int32)>)
    requires forall i :: 0 <= i < |entries| ==> IsInt32(entries[i].1)
    ensures |r| <= |entries|
  {
    if |entries| == 0 then []
    else
      var n := |entries| - 1;
      EntriesHeld(pharmacyId, entries[..n], productId, infos) + EntryHeld(pharmacyId, entries[n], productId, infos)
  }

  /** The corrected scan of the lines written for a pharmacy's entries gives
      each entry's row. */
  lemma {:induction false} EntriesAvailability(pharmacyId: string, entries: seq<(Product, int)>, today: SafeDate,
                                               productId: string, infos: seq<Pharmacies.PharmacyInfo>)
    requires pharmacyId != "" && AllDigits(pharmacyId)
    requires forall i :: 0 <= i < |entries| ==> IsInt32(entries[i].1) && entries[i].0.Id() != "" && AllDigits(entries[i].0.Id())
    ensures Availability(StockFormat, EntryLines(pharmacyId, entries, today), productId, infos)
            == EntriesHeld(pharmacyId, entries, productId, infos)
    decreases |entries|
  {
    if |entries| > 0 {
      var n := |entries| - 1;
      var front := entries[..n];
      assert forall i :: 0 <= i < n ==> IsInt32(front[i].1) && front[i].0.Id() != "" && AllDigits(front[i].0.Id()) by {
        forall i | 0 <= i < n ensures IsInt32(front[i].1) && front[i].0.Id() != "" && AllDigits(front[i].0.Id()) {
          assert front[i] == entries[i];
        }
      }
      EntriesAvailability(pharmacyId, front, today, productId, infos);
      EntriesAvailabilityStep(pharmacyId, entries, today, productId, infos);
      EntriesHeldLast(pharmacyId, entries, productId, infos);
    }
  }

  /** One more entry: its row follows those of the entries before it. */
  lemma EntriesAvailabilityStep(pharmacyId: string, entries: seq<(Product, int)>, today: SafeDate,
                                productId: string, infos: seq<Pharmacies.PharmacyInfo>)
    requires pharmacyId != "" && AllDigits(pharmacyId) && |entries| > 0
    requires forall i :: 0 <= i < |entries| ==> IsInt32(entries[i].1) && entries[i].0.Id() != "" && AllDigits(entries[i].0.Id())
    ensures var n := |entries| - 1;
            Availability(StockFormat, EntryLines(pharmacyId, entries, today), productId, infos)
            == Availability(StockFormat, EntryLines(pharmacyId, entries[..n], today), productId, infos)
               + EntryHeld(pharmacyId, entries[n], productId, infos)
  {
    var n := |entries| - 1;
    var last := entries[n];
    var front := entries[..n];
    var written := EntryLines(pharmacyId, [last], today);
    EntryLinesOfLast(pharmacyId, entries, today);
    AvailabilityAppend(StockFormat, EntryLines(pharmacyId, front, today), written, productId, infos);
    EntryAvailability(pharmacyId, last, today, productId, infos);
  }

  lemma EntriesHeldLast(pharmacyId: string, entries: seq<(Product, int)>, productId: string, infos: seq<Pharmacies.PharmacyInfo>)
    requires |entries| > 0 && forall i :: 0 <= i < |entries| ==> IsInt32(entries[i].1)
    ensures var n := |entries| - 1;
            EntriesHeld(pharmacyId, entries, productId, infos)
            == EntriesHeld(pharmacyId, entries[..n], productId, infos) + EntryHeld(pharmacyId, entries[n], productId, infos)
  {
  }

  lemma EntryLinesOfLast(pharmacyId: string, entries: seq<(Product, int)>, today: SafeDate)
    requires |entries| > 0 && forall i :: 0 <= i < |entries| ==> IsInt32(entries[i].1)
    ensures var n := |entries| - 1;
            EntryLines(pharmacyId, entries, today) == EntryLines(pharmacyId, entries[..n], today) + EntryLines(pharmacyId, [entries[n]], today)
  {
    var n := |entries| - 1;
    var single := [entries[n]];
    assert single[..0] == [];
  }

  /** The lines written for one entry give its row. */
  lemma EntryAvailability(pharmacyId: string, entry: (Product, int), today: SafeDate, productId: string,
                          infos: seq<Pharmacies.PharmacyInfo>)
    requires pharmacyId != "" && AllDigits(pharmacyId) && IsInt32(entry.1) && entry.0.Id() != "" && AllDigits(entry.0.Id())
    ensures Availability(StockFormat, EntryLines(pharmacyId, [entry], today), productId, infos)
            == EntryHeld(pharmacyId, entry, productId, infos)
  {
    var written := EntryLines(pharmacyId, [entry], today);
    var single := [entry];
    assert single[..0] == [];
    if entry.1 > 0 {
      assert written[..0] == [];
      StockLineRow(pharmacyId, entry.0, entry.1, today, productId, infos);
    }
  }

  /** Entries with distinct ids of which the one at `i` has the product's
      id give that entry's row and no other. */
  lemma {:induction false} EntriesHeldOnce(pharmacyId: string, entries: seq<(Product, int)>, productId: string,
                                           infos: seq<Pharmacies.PharmacyInfo>, i: nat)
    requires forall k :: 0 <= k < |entries| ==> IsInt32(entries[k].1)
    requires forall k, j :: 0 <= k < |entries| && 0 <= j < |entries| && entries[k].0.Id() == entries[j].0.Id() ==> k == j
    requires i < |entries| && entries[i].0.Id() == productId
    ensures EntriesHeld(pharmacyId, entries, productId, infos) == EntryHeld(pharmacyId, entries[i], productId, infos)
    decreases |entries|
  {
    var n := |entries| - 1;
    var front := entries[..n];
    if i == n {
      assert forall k :: 0 <= k < n ==> front[k].0.Id() != productId;
      EntriesHeldNone(pharmacyId, front, productId, infos);
    } else {
      assert entries[n].0.Id() != productId;
      EntriesHeldOnce(pharmacyId, front, productId, infos, i);
    }
  }

  /** Entries none of which has the product's id give no row. */
  lemma {:induction false} EntriesHeldNone(pharmacyId: string, entries: seq<(Product, int)>, productId: string,
                                           infos: seq<Pharmacies.PharmacyInfo>)
    requires forall k :: 0 <= k < |entries| ==> IsInt32(entries[k].1) && entries[k].0.Id() != productId
    ensures EntriesHeld(pharmacyId, entries, productId, infos) == []
    decreases |entries|
  {
    if |entries| > 0 {
      EntriesHeldNone(pharmacyId, entries[..|entries| - 1], productId, infos);
    }
  }

  /** A record line `saveStockData` writes, with all-digit ids and a
      positive quantity, gives a row exactly when its product is the one
      asked for and its pharmacy is not the main one. */
  lemma {:induction false} StockLineRow(pharmacyId: string, product: Product, quantity: Int32, today: SafeDate,
                                        productId: string, infos: seq<Pharmacies.PharmacyInfo>)
    requires pharmacyId != "" && AllDigits(pharmacyId) && product.Id() != "" && AllDigits(product.Id()) && quantity > 0
    ensures AvailabilityRow(StockFormat, StockRecords.Encode(EntryRecord(pharmacyId, product, quantity, today)), productId, infos)
            == if product.Id() == productId && pharmacyId != MainPharmacyId then [(DisplayName(infos, pharmacyId), quantity)] else []
  {
    var r := EntryRecord(pharmacyId, product, quantity, today);
    var qs := IntToString(quantity);
    RecordLineFields(r);
    assert qs + "" == qs;
    ReadIntOfString(quantity, "");
    assert ScanFields(StockFormat, StockRecords.Encode(r)) == Some((product.Id(), pharmacyId, qs));
    assert Stoi(qs) == Ok(quantity);
  }

  /** The corrected reader takes a record line's ids and quantity back as
      they were written. */
  lemma {:induction false} RecordLineFields(r: StockRecords.StockRecord)
    requires r.productId != "" && AllDigits(r.productId) && r.pharmacyId != "" && AllDigits(r.pharmacyId) && r.quantity > 0
    ensures StockLineFields(StockRecords.Encode(r)) == Some((r.productId, r.pharmacyId, IntToString(r.quantity)))
  {
    var fields := StockRecords.Fields(r);
    var qs := IntToString(r.quantity);
    var line := StockRecords.Encode(r);
    RecordSplits(r);
    assert !Blank(line) by {
      assert line == fields[0] + [';'] + Join(fields[1..], ';');
      assert line[0] == r.productId[0] && IsDigit(line[0]);
    }
    assert qs == NatToString(r.quantity as nat);
    DigitsFree(r.pharmacyId);
    DigitsFree(r.productId);
    DigitsFree(qs);
    RemoveSpacesNone(r.productId);
    RemoveSpacesNone(r.pharmacyId);
    RemoveSpacesNone(qs);
  }

  /** A record line with all-digit ids splits into its four fields. */
  lemma RecordSplits(r: StockRecords.StockRecord)
    requires r.productId != "" && AllDigits(r.productId) && r.pharmacyId != "" && AllDigits(r.pharmacyId)
    ensures StockRecords.Encode(r) == Join(StockRecords.Fields(r), ';')
    ensures Split(StockRecords.Encode(r), ';') == StockRecords.Fields(r)
  {
    ProductCodecs.DigitsPlain(r.pharmacyId);
    ProductCodecs.DigitsPlain(r.productId);
    StockRecords.FieldsPlain(r);
    ProductCodecs.LineSplits(StockRecords.Fields(r));
  }
}
