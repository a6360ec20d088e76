/**
 * databroker.py: a report file dropped into the watched directory is read,
 * dated from its name, and turned into at most one `print_history` row
 * (counters of a contracted printer) and at most one `service_requests`
 * row (an error reported from a known printer).
 */
module Databroker {
  import opened Wrappers
  import opened Text
  import opened Dates

  const SerialMarker := "[Serial Number],"
  const BlackMarker := "[Total Black Counter],"
  const ColorMarker := "[Total Color Counter],"
  const TotalMarker := "[Total Counter],"
  const PlaceMarker := "Installed Place :"
  const ErrorMarker := "Error :"

  /** A `printers` row as the two SELECTs read it; `taxId` is `None` for SQL NULL. */
  datatype Printer = Printer(id: int, serviceContract: bool, taxId: Option<string>)

  /** A `print_history` row; counters stay the stripped text found in the report. */
  datatype PrintHistoryRow = PrintHistoryRow(printerId: int, date: Date, counterBlack: Option<string>, counterColor: Option<string>)

  /** A `service_requests` row as inserted: the other columns keep their defaults. */
  datatype ServiceRequestRow = ServiceRequestRow(printerId: int, taxId: Option<string>, serviceRequest: string)

  datatype Counters = Counters(black: Option<string>, color: Option<string>)

  /** What one call of `process_file` did. */
  datatype FileOutcome =
    | BadDate                                     // `strptime` raised before any query
    | Ingested(counterRow: bool, serviceRow: bool)

  /** `.+` value of a marker, stripped, as `databroker.py` extracts every field. */
  function Value(marker: string, content: string): Option<string> {
    Field(marker, content, OneOrMore)
  }

  /** The report date: `file_path[-14:-4]` parsed with `'%Y-%m-%d'`. */
  function DateFromPath(path: string): (r: Option<Date>)
    ensures r.Some? ==> |path| >= 12 && ValidDate(r.value)
  {
    ParseDate(SliceFromEnd(path, 14, 4))
  }

  /**
   * Counter selection: black from `[Total Black Counter]`, falling back to
   * `[Total Counter]`; color from `[Total Color Counter]` only. `None` when
   * no counter marker carries a value.
   */
  function SelectCounters(content: string): Option<Counters> {
    var black := Value(BlackMarker, content);
    var color := Value(ColorMarker, content);
    var total := Value(TotalMarker, content);
    if black.None? && color.None? && total.None? then None
    else Some(Counters(if black.Some? then black else total, color))
  }

  /** The `print_history` row a report yields, if any. */
  function CounterRow(printers: map<string, Printer>, date: Date, content: string): Option<PrintHistoryRow> {
    match Value(SerialMarker, content)
    case None => None
    case Some(serial) =>
      if serial !in printers || !printers[serial].serviceContract then None
      else
        match SelectCounters(content)
        case None => None
        case Some(c) => Some(PrintHistoryRow(printers[serial].id, date, c.black, c.color))
  }

  /** The `service_requests` row a report yields, if any. */
  function ServiceRow(printers: map<string, Printer>, content: string): Option<ServiceRequestRow> {
    match Value(PlaceMarker, content)
    case None => None
    case Some(serial) =>
      if serial !in printers then None
      else
        match Value(ErrorMarker, content)
        case None => None
        case Some(error) => Some(ServiceRequestRow(printers[serial].id, printers[serial].taxId, error))
  }

  function AsSeq<T>(o: Option<T>): seq<T> {
    if o.Some? then [o.value] else []
  }

  /**
   * Line 39: the date is the ten characters before the last four of the
   * path; on a shorter path the slice clamps to everything before the last
   * four characters, which dates the path only when it holds a one-digit
   * month or day, and a path under twelve characters never gives a date.
   */
  lemma DateFromPathSpec(path: string)
    ensures DateFromPath(path) == if |path| >= 14 then ParseDate(path[|path| - 14 .. |path| - 4])
                                  else if |path| >= 4 then ParseDate(path[..|path| - 4]) else None
    ensures DateFromPath(path).Some? ==> |path| >= 12
  {
  }

  /** A twelve-character path with a one-digit month and day is dated, as `strptime` reads `2023-6-1`. */
  lemma ShortPathDate()
    ensures DateFromPath("2023-6-1.txt") == Some(Date(2023, 6, 1))
  {
    var path := "2023-6-1.txt";
    var s := path[..8];
    assert SliceFromEnd(path, 14, 4) == s;
    assert s[5..6] == "6" && s[7..] == "1";
    assert ParseMonth(s[5..6]) == Some(6) && ParseDay(s[7..]) == Some(1);
  }

  /** A path ending in a formatted date and a four-character extension gives that date back. */
  lemma PathDateRoundTrip(prefix: string, d: Date, ext: string)
    requires ValidDate(d) && |ext| == 4
    ensures DateFromPath(prefix + FormatDate(d) + ext) == Some(d)
  {
    var path := prefix + FormatDate(d) + ext;
    assert path[|path| - 14 .. |path| - 4] == FormatDate(d);
    ParseFormatDate(d);
  }

  /**
   * Lines 41-61: a report yields a `print_history` row exactly when its
   * serial names a printer under service contract and at least one
   * counter marker carries a value; the row holds that printer's id, the
   * file's date, the black counter (the total counter standing in for it)
   * and the color counter.
   */
  lemma CounterRowSpec(printers: map<string, Printer>, date: Date, content: string)
    ensures var serial := Value(SerialMarker, content);
      var black := Value(BlackMarker, content);
      var color := Value(ColorMarker, content);
      var total := Value(TotalMarker, content);
      && (CounterRow(printers, date, content).Some? <==>
            serial.Some? && serial.value in printers && printers[serial.value].serviceContract
            && (black.Some? || color.Some? || total.Some?))
      && (CounterRow(printers, date, content).Some? ==>
            CounterRow(printers, date, content).value
              == PrintHistoryRow(printers[serial.value].id, date, if black.Some? then black else total, color))
  {
  }

  /**
   * Lines 63-80: a report yields a `service_requests` row exactly when
   * its `Installed Place` names a known printer (no contract needed) and
   * an `Error` value is present; the row carries that printer's id and
   * tax id and the stripped error text.
   */
  lemma ServiceRowSpec(printers: map<string, Printer>, content: string)
    ensures var place := Value(PlaceMarker, content);
      var error := Value(ErrorMarker, content);
      && (ServiceRow(printers, content).Some? <==> place.Some? && place.value in printers && error.Some?)
      && (ServiceRow(printers, content).Some? ==>
            ServiceRow(printers, content).value
              == ServiceRequestRow(printers[place.value].id, printers[place.value].taxId, error.value))
  {
  }

  /**
   * A black-and-white report (a `[Total Counter]` value and no
   * `[Total Color Counter]` line) stores the total as the black counter
   * and NULL, not `"0"`, as the color counter.
   */
  lemma TotalOnlyReportHasNullColor(printers: map<string, Printer>, date: Date, content: string, serial: string)
    requires Value(SerialMarker, content) == Some(serial) && serial in printers && printers[serial].serviceContract
    requires forall i :: !MatchesAt(BlackMarker, content, i, OneOrMore) && !MatchesAt(ColorMarker, content, i, OneOrMore)
    requires Value(TotalMarker, content).Some?
    ensures CounterRow(printers, date, content)
         == Some(PrintHistoryRow(printers[serial].id, date, Value(TotalMarker, content), None))
  {
    assert Value(BlackMarker, content).None? && Value(ColorMarker, content).None?;
  }

  /** The three tables `process_file` touches. */
  class Database {
    /** The `printers` table: read by serial number, never written here. */
    const printers: map<string, Printer>
    var printHistory: seq<PrintHistoryRow>
    var serviceRequests: seq<ServiceRequestRow>

    constructor (printers: map<string, Printer>)
      ensures this.printers == printers && printHistory == [] && serviceRequests == []
    {
      this.printers := printers;
      printHistory := [];
      serviceRequests := [];
    }

    /**
     * `process_file(file_path)` on a file whose text is `content`. The
     * date is read first; each output table then gains at most the one row
     * its own branch derives, whatever the other branch did.
     */
    method ProcessFile(path: string, content: string) returns (outcome: FileOutcome)
      modifies this
      ensures DateFromPath(path).None? ==>
        outcome == BadDate && printHistory == old(printHistory) && serviceRequests == old(serviceRequests)
      ensures DateFromPath(path).Some? ==>
        var counter := CounterRow(printers, DateFromPath(path).value, content);
        var service := ServiceRow(printers, content);
        && outcome == Ingested(counter.Some?, service.Some?)
        && printHistory == old(printHistory) + AsSeq(counter)
        && serviceRequests == old(serviceRequests) + AsSeq(service)
    {
      var date := DateFromPath(path);
      if date.None? {
        return BadDate;
      }
      var counterAdded := RecordCounters(date.value, content);
      var serviceAdded := RecordServiceRequest(content);
      outcome := Ingested(counterAdded, serviceAdded);
    }

    /** Lines 41-61: the counter branch. */
    method RecordCounters(date: Date, content: string) returns (added: bool)
      modifies this`printHistory
      ensures added == CounterRow(printers, date, content).Some?
      ensures printHistory == old(printHistory) + AsSeq(CounterRow(printers, date, content))
    {
      added := false;
      var serial := Value(SerialMarker, content);
      if serial.Some? && serial.value in printers {
        var printer := printers[serial.value];
        if printer.serviceContract {
          var counters := SelectCounters(content);
          if counters.Some? {
            printHistory := printHistory + [PrintHistoryRow(printer.id, date, counters.value.black, counters.value.color)];
            added := true;
          }
        }
      }
    }

    /** Lines 63-80: the error branch. */
    method RecordServiceRequest(content: string) returns (added: bool)
      modifies this`serviceRequests
      ensures added == ServiceRow(printers, content).Some?
      ensures serviceRequests == old(serviceRequests) + AsSeq(ServiceRow(printers, content))
    {
      added := false;
      var place := Value(PlaceMarker, content);
      if place.Some? && place.value in printers {
        var printer := printers[place.value];
        var error := Value(ErrorMarker, content);
        if error.Some? {
          serviceRequests := serviceRequests + [ServiceRequestRow(printer.id, printer.taxId, error.value)];
          added := true;
        }
      }
    }

    /** `FileHandler.on_modified`: only paths ending in `.txt` reach `process_file`. */
    method OnModified(path: string, content: string) returns (outcome: Option<FileOutcome>)
      modifies this
      ensures !EndsWith(path, ".txt") ==>
        outcome.None? && printHistory == old(printHistory) && serviceRequests == old(serviceRequests)
      ensures EndsWith(path, ".txt") && DateFromPath(path).None? ==>
        outcome == Some(BadDate) && printHistory == old(printHistory) && serviceRequests == old(serviceRequests)
      ensures EndsWith(path, ".txt") && DateFromPath(path).Some? ==>
        var counter := CounterRow(printers, DateFromPath(path).value, content);
        var service := ServiceRow(printers, content);
        && outcome == Some(Ingested(counter.Some?, service.Some?))
        && printHistory == old(printHistory) + AsSeq(counter)
        && serviceRequests == old(serviceRequests) + AsSeq(service)
    {
      if EndsWith(path, ".txt") {
        var o := ProcessFile(path, content);
        outcome := Some(o);
      } else {
        outcome := None;
      }
    }
  }

  /**
   * The same error report dropped twice gives two identical
   * `service_requests` rows: `process_file` inserts without looking for
   * an earlier request to count.
   */
  method RepeatedErrorReport(db: Database, path: string, content: string)
    requires DateFromPath(path).Some?
    modifies db
    ensures db.serviceRequests == old(db.serviceRequests) + AsSeq(ServiceRow(db.printers, content)) + AsSeq(ServiceRow(db.printers, content))
  {
    var first := db.ProcessFile(path, content);
    var second := db.ProcessFile(path, content);
  }
}
