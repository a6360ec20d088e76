/**
 * What the two mailbox scripts (POP and IMAP) share: the spool directory
 * `temp/` holding the report files and the ledger file
 * `temp/saved_message_ids.txt`, the choice of a report's file name, the
 * ledger's line format, and how a cycle reloads the ledger.
 */
module MailCommon {
  import opened Wrappers
  import opened Text

  const SerialTag := "[Serial Number], "
  const PlaceTag := "Installed Place :"
  const Unknown := "unknown"

  /**
   * The file identifier: the value after `[Serial Number], ` if that tag
   * occurs, else the value after `Installed Place :` if that occurs, else
   * `unknown`; both values are taken with `(.*)` and stripped.
   */
  function ChooseIdentifier(body: string): (id: string)
    ensures '\n' !in id && Strip(id) == id
  {
    var serial := Field(SerialTag, body, ZeroOrMore);
    var place := Field(PlaceTag, body, ZeroOrMore);
    if serial.Some? then serial.value
    else if place.Some? then place.value
    else
      assert Strip(Unknown) == Unknown by { assert Lead(Unknown) == 0 && Trail(Unknown) == 0; }
      Unknown
  }

  /** The serial tag wins wherever it stands; its first line gives the identifier. */
  lemma IdentifierFromSerial(body: string, i: nat)
    requires MatchesAt(SerialTag, body, i, ZeroOrMore)
    requires forall j :: 0 <= j < i ==> !MatchesAt(SerialTag, body, j, ZeroOrMore)
    ensures ChooseIdentifier(body) == Strip(body[i + |SerialTag| .. LineEnd(body, i + |SerialTag|)])
  {
    SearchAt(SerialTag, body, ZeroOrMore, i);
  }

  /** Without the serial tag, the first `Installed Place :` line gives the identifier. */
  lemma IdentifierFromPlace(body: string, i: nat)
    requires forall j :: !MatchesAt(SerialTag, body, j, ZeroOrMore)
    requires MatchesAt(PlaceTag, body, i, ZeroOrMore)
    requires forall j :: 0 <= j < i ==> !MatchesAt(PlaceTag, body, j, ZeroOrMore)
    ensures ChooseIdentifier(body) == Strip(body[i + |PlaceTag| .. LineEnd(body, i + |PlaceTag|)])
  {
    SearchAt(PlaceTag, body, ZeroOrMore, i);
  }

  /** With neither tag the identifier is `unknown`. */
  lemma IdentifierUnknown(body: string)
    requires forall j :: !MatchesAt(SerialTag, body, j, ZeroOrMore)
    requires forall j :: !MatchesAt(PlaceTag, body, j, ZeroOrMore)
    ensures ChooseIdentifier(body) == Unknown
  {
  }

  /** `f'temp/{date_sent_str}-{identifier}.txt'` */
  function ReportPath(stamp: string, identifier: string): (path: string)
    ensures EndsWith(path, ".txt")
  {
    "temp/" + stamp + "-" + identifier + ".txt"
  }

  /** A report file written during a pass: its path and its text. */
  datatype Report = Report(path: string, text: string)

  /** One ledger record: the message id and the formatted date it was saved under. */
  datatype LedgerEntry = LedgerEntry(id: string, date: string)

  /** `message_id + ' __ ' + date_sent_str + '\n'` */
  function LedgerLine(e: LedgerEntry): string {
    e.id + " __ " + e.date + "\n"
  }

  /** The ledger text appended for a sequence of records, in order. */
  function Render(records: seq<LedgerEntry>): (t: string)
    ensures EndsLine(t)
  {
    if records == [] then ""
    else Render(records[..|records| - 1]) + LedgerLine(records[|records| - 1])
  }

  /** The report files after a sequence of writes (`open(path, 'w')` replaces a file). */
  function Apply(files: map<string, string>, writes: seq<Report>): map<string, string> {
    if writes == [] then files
    else
      var w := writes[|writes| - 1];
      Apply(files, writes[..|writes| - 1])[w.path := w.text]
  }

  /** The ledger file's text; an absent file reads as empty. */
  function TextOf(ledger: Option<string>): string {
    if ledger.Some? then ledger.value else ""
  }

  /** `set(line.strip() for line in lines)` */
  function StripAll(lines: seq<string>): (r: set<string>)
    ensures forall x :: x in r ==> Strip(x) == x
  {
    if lines == [] then {}
    else
      StripIdempotent(lines[|lines| - 1]);
      StripAll(lines[..|lines| - 1]) + {Strip(lines[|lines| - 1])}
  }

  /**
   * `set(line.strip() for line in f)`, or the empty set when the file is
   * absent: every entry is already stripped.
   */
  function LoadLedger(ledger: Option<string>): (r: set<string>)
    ensures ledger.None? ==> r == {}
    ensures forall x :: x in r ==> Strip(x) == x
  {
    StripAll(Lines(TextOf(ledger)))
  }

  /** The ids and formatted dates the ledger records carry. */
  function Ids(records: seq<LedgerEntry>): set<string> {
    set e | e in records :: e.id
  }

  /**
   * The spool directory both scripts write: `ledger` is
   * `temp/saved_message_ids.txt` (`None` while it does not exist) and
   * `reports` maps each `temp/...txt` path written so far to its text.
   */
  class Spool {
    var ledger: Option<string>
    var reports: map<string, string>

    constructor (ledger: Option<string>, reports: map<string, string>)
      ensures this.ledger == ledger && this.reports == reports
    {
      this.ledger := ledger;
      this.reports := reports;
    }
  }

  /** The state a pass over the mailbox threads from message to message. */
  datatype PassState = PassState(
    seen: set<string>,            // `saved_message_ids`
    records: seq<LedgerEntry>,    // ledger lines appended in this pass
    writes: seq<Report>,          // report files written in this pass
    lastDate: Option<string>,     // `date_sent_str`, unbound while None
    aborted: bool)                // an exception ended the pass

  /** How a polling cycle ended. */
  datatype Outcome =
    | EmptyMailbox   // POP only: nothing listed, the ledger is not touched
    | Completed
    | Aborted        // an exception left the loop; what was written stays

  /** The spool after a cycle, with the `date_sent_str` left behind. */
  datatype CycleResult = CycleResult(ledger: Option<string>, reports: map<string, string>, lastDate: Option<string>, outcome: Outcome)

  /** The spool after a pass that started from `ledger` and `reports`; opening the ledger in append mode creates it. */
  function Finish(ledger: Option<string>, reports: map<string, string>, st: PassState): CycleResult {
    CycleResult(Some(TextOf(ledger) + Render(st.records)), Apply(reports, st.writes), st.lastDate,
                if st.aborted then Aborted else Completed)
  }

  function StartPass(ledger: Option<string>, lastDate: Option<string>): PassState {
    PassState(LoadLedger(ledger), [], [], lastDate, false)
  }

  /**
   * The ledger discipline of a pass that started from the loaded set
   * `base`: every recorded id was not in `base`, no id is recorded twice,
   * and the in-memory set is `base` plus the recorded ids.
   */
  ghost predicate Recorded(base: set<string>, st: PassState) {
    && st.seen == base + Ids(st.records)
    && (forall k :: 0 <= k < |st.records| ==> st.records[k].id !in base)
    && (forall k, l :: 0 <= k < l < |st.records| ==> st.records[k].id != st.records[l].id)
  }

  /** Recording an id not yet in the set keeps the discipline. */
  lemma RecordKeeps(base: set<string>, st: PassState, e: LedgerEntry)
    requires Recorded(base, st) && e.id !in st.seen
    ensures Recorded(base, st.(records := st.records + [e], seen := st.seen + {e.id}))
  {
    var rs := st.records + [e];
    assert Ids(rs) == Ids(st.records) + {e.id} by {
      assert forall x :: x in rs <==> x in st.records || x == e;
    }
  }

  /** A ledger line is one line of the file when neither of its fields holds a line break. */
  lemma LedgerLineLines(e: LedgerEntry)
    requires '\n' !in e.id && '\n' !in e.date
    ensures Lines(LedgerLine(e)) == [LedgerLine(e)]
  {
    var t := LedgerLine(e);
    forall k | 0 <= k < |t| - 1 ensures t[k] != '\n' {
      if k < |e.id| {
        assert t[k] == e.id[k];
      } else if |e.id| + 4 <= k {
        assert t[k] == e.date[k - |e.id| - 4];
      }
    }
    SingleLine(t);
  }

  /** Reading back a ledger line never yields the bare id that line was written for. */
  lemma {:induction false} StrippedLineIsNotId(e: LedgerEntry)
    ensures Strip(LedgerLine(e)) != e.id
  {
    var t := LedgerLine(e);
    var n := |e.id|;
    assert t[n + 1] == '_' && !IsSpace(t[n + 1]);
    StripSpec(t);
    var r := Strip(t);
    var a := Lead(t);
    assert a <= n + 1;
    assert r != [] by {
      assert !IsSpace(t[n + 1]);
    }
    if a == 0 {
      assert |r| > n + 1;
    } else if n > 0 {
      assert IsSpace(t[0]) && t[0] == e.id[0];
      assert r[0] != e.id[0];
    }
  }

  /** The stripped forms of the lines a pass appends. */
  function StrippedLines(records: seq<LedgerEntry>): set<string> {
    if records == [] then {}
    else StrippedLines(records[..|records| - 1]) + {Strip(LedgerLine(records[|records| - 1]))}
  }

  /** Reading back a ledger extended by one line adds that line's stripped form. */
  lemma LoadAppendLine(t: string, e: LedgerEntry)
    requires EndsLine(t)
    requires '\n' !in e.id && '\n' !in e.date
    ensures LoadLedger(Some(t + LedgerLine(e))) == LoadLedger(Some(t)) + {Strip(LedgerLine(e))}
  {
    LinesAppend(t, LedgerLine(e));
    LedgerLineLines(e);
    var ls := Lines(t) + [LedgerLine(e)];
    assert Lines(t + LedgerLine(e)) == ls;
    assert ls[..|ls| - 1] == Lines(t);
  }

  /**
   * Reloading the ledger after a pass: the loaded set of the extended
   * file is the old loaded set plus the stripped lines just written.
   */
  lemma {:induction false} ReloadAfterPass(t: string, records: seq<LedgerEntry>)
    requires EndsLine(t)
    requires forall k :: 0 <= k < |records| ==> '\n' !in records[k].id && '\n' !in records[k].date
    ensures LoadLedger(Some(t + Render(records))) == LoadLedger(Some(t)) + StrippedLines(records)
    decreases |records|
  {
    if records == [] {
      assert t + Render(records) == t;
    } else {
      var init := records[..|records| - 1];
      assert forall k :: 0 <= k < |init| ==> init[k] == records[k];
      ReloadAfterPass(t, init);
      ReloadStep(t, records);
    }
  }

  lemma ReloadStep(t: string, records: seq<LedgerEntry>)
    requires EndsLine(t) && records != []
    requires '\n' !in records[|records| - 1].id && '\n' !in records[|records| - 1].date
    requires var init := records[..|records| - 1];
      LoadLedger(Some(t + Render(init))) == LoadLedger(Some(t)) + StrippedLines(init)
    ensures LoadLedger(Some(t + Render(records))) == LoadLedger(Some(t)) + StrippedLines(records)
  {
    var init, e := records[..|records| - 1], records[|records| - 1];
    var u := t + Render(init);
    var line := LedgerLine(e);
    EndsLineAppend(t, Render(init));
    Associative(t, Render(init), line);
    assert t + Render(records) == u + line;
    LoadAppendLine(u, e);
  }

  /** Appending a record appends its line. */
  lemma RenderSnoc(records: seq<LedgerEntry>, e: LedgerEntry)
    ensures Render(records + [e]) == Render(records) + LedgerLine(e)
  {
    var rs := records + [e];
    assert rs[..|rs| - 1] == records;
  }

  /** Writing one more report replaces or adds that one file. */
  lemma ApplySnoc(files: map<string, string>, writes: seq<Report>, w: Report)
    ensures Apply(files, writes + [w]) == Apply(files, writes)[w.path := w.text]
  {
    var ws := writes + [w];
    assert ws[..|ws| - 1] == writes;
  }

  /** No write from index `from` on goes to `path`. */
  predicate NoWriteAfter(writes: seq<Report>, path: string, from: nat) {
    forall l :: from <= l < |writes| ==> writes[l].path != path
  }

  /** A file no write goes to keeps its presence and its text. */
  lemma {:induction false} ApplyUntouched(files: map<string, string>, writes: seq<Report>, path: string)
    requires NoWriteAfter(writes, path, 0)
    ensures path in Apply(files, writes) <==> path in files
    ensures path in files ==> Apply(files, writes)[path] == files[path]
    decreases |writes|
  {
    if writes != [] {
      var init := writes[..|writes| - 1];
      assert writes[|writes| - 1].path != path;
      assert NoWriteAfter(init, path, 0) by {
        forall l | 0 <= l < |init| ensures init[l].path != path { assert init[l] == writes[l]; }
      }
      ApplyUntouched(files, init, path);
    }
  }

  /** A file holds the text of the last write that went to it. */
  lemma {:induction false} ApplyLastWrite(files: map<string, string>, writes: seq<Report>, k: nat)
    requires k < |writes| && NoWriteAfter(writes, writes[k].path, k + 1)
    ensures writes[k].path in Apply(files, writes) && Apply(files, writes)[writes[k].path] == writes[k].text
    decreases |writes|
  {
    if k < |writes| - 1 {
      var init := writes[..|writes| - 1];
      assert writes[|writes| - 1].path != writes[k].path;
      assert init[k] == writes[k];
      assert NoWriteAfter(init, writes[k].path, k + 1) by {
        forall l | k + 1 <= l < |init| ensures init[l].path != writes[k].path { assert init[l] == writes[l]; }
      }
      ApplyLastWrite(files, init, k);
    }
  }

  /** The ledger lines of a sequence of records, one per record. */
  function LedgerLines(records: seq<LedgerEntry>): seq<string> {
    seq(|records|, k requires 0 <= k < |records| => LedgerLine(records[k]))
  }

  /**
   * The text appended for a sequence of records reads back as one line
   * per record, in order, when no field holds a line break.
   */
  lemma {:induction false} RenderLines(records: seq<LedgerEntry>)
    requires forall k :: 0 <= k < |records| ==> '\n' !in records[k].id && '\n' !in records[k].date
    ensures Lines(Render(records)) == LedgerLines(records)
    decreases |records|
  {
    if records != [] {
      var init, e := records[..|records| - 1], records[|records| - 1];
      assert forall k :: 0 <= k < |init| ==> init[k] == records[k];
      RenderLines(init);
      LinesAppend(Render(init), LedgerLine(e));
      LedgerLineLines(e);
      assert LedgerLines(records) == LedgerLines(init) + [LedgerLine(e)];
    }
  }

  lemma EndsLineAppend(t: string, u: string)
    requires EndsLine(t) && EndsLine(u)
    ensures EndsLine(t + u)
  {
    if u != [] {
      assert (t + u)[|t + u| - 1] == u[|u| - 1];
    }
  }

  lemma Associative(a: string, b: string, c: string)
    ensures a + (b + c) == (a + b) + c
  {
  }

  /**
   * Dedup does not carry over to the next cycle: after a pass records
   * message `e`, reloading the ledger gives a set that holds `e.id`
   * exactly when the ledger held it before that line was written.
   */
  lemma ReloadMissesRecordedId(t: string, e: LedgerEntry)
    requires EndsLine(t)
    requires '\n' !in e.id && '\n' !in e.date
    ensures e.id in LoadLedger(Some(t + LedgerLine(e))) <==> e.id in LoadLedger(Some(t))
  {
    LoadAppendLine(t, e);
    StrippedLineIsNotId(e);
  }

  const Separator := " __ "

  /**
   * `line.split(' __ ')[0]`: what a ledger line holds before its first
   * separator (the whole line when there is none).
   */
  function IdPart(line: string): string {
    var f := FirstMatch(Separator, line, ZeroOrMore, 0);
    if f.Some? then line[..f.value] else line
  }

  function IdParts(lines: seq<string>): set<string> {
    if lines == [] then {}
    else IdParts(lines[..|lines| - 1]) + {IdPart(lines[|lines| - 1])}
  }

  /** The ledger read back as the set of ids its lines were written for. */
  function LoadIds(ledger: Option<string>): set<string> {
    IdParts(Lines(TextOf(ledger)))
  }

  /** A ledger line gives back its id when the id holds no blank (message ids do not). */
  lemma IdPartOfLedgerLine(e: LedgerEntry)
    requires ' ' !in e.id
    ensures IdPart(LedgerLine(e)) == e.id
  {
    var t := LedgerLine(e);
    var n := |e.id|;
    assert t[n .. n + 4] == Separator;
    assert MatchesAt(Separator, t, n, ZeroOrMore);
    forall j | 0 <= j < n ensures !MatchesAt(Separator, t, j, ZeroOrMore) {
      assert t[j] == e.id[j];
    }
    var f := FirstMatch(Separator, t, ZeroOrMore, 0);
    assert f.Some? && f.value == n;
    assert t[..n] == e.id;
  }

  /** Reading back a ledger extended by one line adds exactly that line's id. */
  lemma LoadIdsAppendLine(t: string, e: LedgerEntry)
    requires EndsLine(t)
    requires '\n' !in e.id && ' ' !in e.id && '\n' !in e.date
    ensures LoadIds(Some(t + LedgerLine(e))) == LoadIds(Some(t)) + {e.id}
  {
    LinesAppend(t, LedgerLine(e));
    LedgerLineLines(e);
    IdPartOfLedgerLine(e);
    var ls := Lines(t) + [LedgerLine(e)];
    assert Lines(t + LedgerLine(e)) == ls;
    assert ls[..|ls| - 1] == Lines(t);
  }

  /** A record whose line reads back as its id: no blank or line break in the id, no line break in the date. */
  predicate Clean(e: LedgerEntry) {
    '\n' !in e.id && ' ' !in e.id && '\n' !in e.date
  }

  /**
   * Reading back the ledger as ids after a pass: the extended file gives
   * the old ids plus exactly the ids the pass recorded.
   */
  lemma {:induction false} LoadIdsAfterPass(t: string, records: seq<LedgerEntry>)
    requires EndsLine(t)
    requires forall k :: 0 <= k < |records| ==> Clean(records[k])
    ensures LoadIds(Some(t + Render(records))) == LoadIds(Some(t)) + Ids(records)
    decreases |records|
  {
    if records == [] {
      assert t + Render(records) == t;
      assert Ids(records) == {};
    } else {
      var init := records[..|records| - 1];
      assert forall k :: 0 <= k < |init| ==> init[k] == records[k];
      LoadIdsAfterPass(t, init);
      LoadIdsStep(t, records);
    }
  }

  lemma LoadIdsStep(t: string, records: seq<LedgerEntry>)
    requires EndsLine(t) && records != [] && Clean(records[|records| - 1])
    requires LoadIds(Some(t + Render(records[..|records| - 1]))) == LoadIds(Some(t)) + Ids(records[..|records| - 1])
    ensures LoadIds(Some(t + Render(records))) == LoadIds(Some(t)) + Ids(records)
  {
    var init, e := records[..|records| - 1], records[|records| - 1];
    var u := t + Render(init);
    EndsLineAppend(t, Render(init));
    Associative(t, Render(init), LedgerLine(e));
    assert t + Render(records) == u + LedgerLine(e);
    LoadIdsAppendLine(u, e);
    IdsLast(records);
  }

  lemma IdsLast(records: seq<LedgerEntry>)
    requires records != []
    ensures Ids(records) == Ids(records[..|records| - 1]) + {records[|records| - 1].id}
  {
    var init, e := records[..|records| - 1], records[|records| - 1];
    assert records == init + [e];
    assert forall x :: x in records <==> x in init || x == e;
  }
}
