/**
 * mailparser_pop.py: one polling cycle over a POP3 mailbox. Each message
 * not yet in the ledger set and not multipart has its text/plain body
 * saved as a report (unless longer than 1000 characters) and its id
 * appended to the ledger.
 */
module MailPop {
  import opened Wrappers
  import opened Text
  import opened MailCommon

  const MaxBodyLength := 1000

  /**
   * A retrieved message as the loop sees it: its `Message-ID` (`None`
   * when the header is missing), whether it is multipart, whether its
   * single part is text/plain, the decoded body, and the `Date` header
   * formatted `%Y-%m-%d-%H-%M-%S` (`None` when it cannot be parsed).
   */
  datatype PopMessage = PopMessage(id: Option<string>, multipart: bool, plainText: bool, body: string, date: Option<string>)

  /** Lines 57-80: `walk()` of a non-multipart message visits the message itself only. */
  function SavePart(st: PassState, m: PopMessage): PassState {
    if !m.plainText || |m.body| > MaxBodyLength then st
    else if m.date.None? then st.(aborted := true)
    else st.(lastDate := m.date,
             writes := st.writes + [Report(ReportPath(m.date.value, ChooseIdentifier(m.body)), m.body)])
  }

  /** Lines 48-83 for one message. */
  function PopStep(st: PassState, m: PopMessage): PassState {
    if st.aborted then st
    else if m.id.Some? && m.id.value in st.seen then st
    else if m.multipart then st
    else
      var saved := SavePart(st, m);
      if saved.aborted then saved
      else if m.id.None? || saved.lastDate.None? then saved.(aborted := true)
      else saved.(records := saved.records + [LedgerEntry(m.id.value, saved.lastDate.value)],
                  seen := saved.seen + {m.id.value})
  }

  /** The `for i in range(num_messages)` loop, message by message. */
  function PopPass(st: PassState, mailbox: seq<PopMessage>): PassState
    decreases |mailbox|
  {
    if mailbox == [] then st else PopPass(PopStep(st, mailbox[0]), mailbox[1..])
  }

  /** One iteration of `run_script`'s outer loop, from the spool it finds and the id set it loads. */
  function PopCycleFrom(seen: set<string>, ledger: Option<string>, reports: map<string, string>,
                        mailbox: seq<PopMessage>, lastDate: Option<string>): CycleResult
  {
    if mailbox == [] then CycleResult(ledger, reports, lastDate, EmptyMailbox)
    else Finish(ledger, reports, PopPass(PassState(seen, [], [], lastDate, false), mailbox))
  }

  /** Lines 33-85: the cycle as written, with the ledger loaded as stripped lines (line 44). */
  function PopCycleResult(ledger: Option<string>, reports: map<string, string>,
                          mailbox: seq<PopMessage>, lastDate: Option<string>): CycleResult
  {
    PopCycleFrom(LoadLedger(ledger), ledger, reports, mailbox, lastDate)
  }

  /** The cycle with the ledger loaded as the ids its lines were written for. */
  function PopCycleCorrected(ledger: Option<string>, reports: map<string, string>,
                             mailbox: seq<PopMessage>, lastDate: Option<string>): CycleResult
  {
    PopCycleFrom(LoadIds(ledger), ledger, reports, mailbox, lastDate)
  }

  /** The report files a cycle writes, in the order it writes them. */
  function PopWrites(seen: set<string>, mailbox: seq<PopMessage>, lastDate: Option<string>): seq<Report> {
    if mailbox == [] then [] else PopPass(PassState(seen, [], [], lastDate, false), mailbox).writes
  }

  /** The ledger records a cycle appends, in order. */
  function PopRecords(seen: set<string>, mailbox: seq<PopMessage>, lastDate: Option<string>): seq<LedgerEntry> {
    if mailbox == [] then [] else PopPass(PassState(seen, [], [], lastDate, false), mailbox).records
  }

  lemma {:induction false} PopAbortedStays(st: PassState, mailbox: seq<PopMessage>)
    requires st.aborted
    ensures PopPass(st, mailbox) == st
    decreases |mailbox|
  {
    if mailbox != [] {
      PopAbortedStays(st, mailbox[1..]);
    }
  }

  /**
   * One polling cycle (lines 33-85) on the spool: `lastDate` is the
   * `date_sent_str` a previous cycle left bound, if any.
   */
  method PopCycle(spool: Spool, mailbox: seq<PopMessage>, lastDate: Option<string>)
    returns (outcome: Outcome, dateAfter: Option<string>)
    modifies spool
    ensures CycleResult(spool.ledger, spool.reports, dateAfter, outcome)
         == PopCycleResult(old(spool.ledger), old(spool.reports), mailbox, lastDate)
  {
    if |mailbox| == 0 {
      return EmptyMailbox, lastDate;
    }
    ghost var ledger0, reports0 := spool.ledger, spool.reports;
    var saved := LoadLedger(spool.ledger);
    var base := TextOf(spool.ledger);
    spool.ledger := Some(base);
    assert base + Render([]) == base;
    ghost var init := StartPass(ledger0, lastDate);
    ghost var cur := init;
    dateAfter := lastDate;
    var i := 0;
    while i < |mailbox|
      invariant 0 <= i <= |mailbox|
      invariant !cur.aborted
      invariant PopPass(cur, mailbox[i..]) == PopPass(init, mailbox)
      invariant saved == cur.seen && dateAfter == cur.lastDate
      invariant spool.ledger == Some(base + Render(cur.records))
      invariant spool.reports == Apply(reports0, cur.writes)
    {
      assert mailbox[i..][0] == mailbox[i] && mailbox[i..][1..] == mailbox[i + 1..];
      var aborted;
      saved, dateAfter, aborted := HandleMessage(spool, mailbox[i], saved, dateAfter, cur, base, reports0);
      cur := PopStep(cur, mailbox[i]);
      if aborted {
        PopAbortedStays(cur, mailbox[i + 1..]);
        return Aborted, dateAfter;
      }
      i := i + 1;
    }
    outcome := Completed;
  }

  /** Lines 52-83 for message `m`, on the spool and the loop's variables `saved` and `lastDate`. */
  method HandleMessage(spool: Spool, m: PopMessage, saved: set<string>, lastDate: Option<string>,
                       ghost cur: PassState, ghost base: string, ghost reports0: map<string, string>)
    returns (savedAfter: set<string>, dateAfter: Option<string>, aborted: bool)
    requires !cur.aborted && saved == cur.seen && lastDate == cur.lastDate
    requires spool.ledger == Some(base + Render(cur.records)) && spool.reports == Apply(reports0, cur.writes)
    modifies spool
    ensures var next := PopStep(cur, m);
      && aborted == next.aborted && savedAfter == next.seen && dateAfter == next.lastDate
      && spool.ledger == Some(base + Render(next.records)) && spool.reports == Apply(reports0, next.writes)
  {
    savedAfter, dateAfter, aborted := saved, lastDate, false;
    if (m.id.Some? && m.id.value in saved) || m.multipart {
      return;
    }
    ghost var part := SavePart(cur, m);
    if m.plainText && |m.body| <= MaxBodyLength {
      if m.date.None? {
        return saved, lastDate, true;
      }
      dateAfter := m.date;
      var identifier := ChooseIdentifier(m.body);
      var report := Report(ReportPath(m.date.value, identifier), m.body);
      assert part.writes == cur.writes + [report];
      ApplySnoc(reports0, cur.writes, report);
      spool.reports := spool.reports[report.path := report.text];
    }
    assert !part.aborted && dateAfter == part.lastDate && spool.reports == Apply(reports0, part.writes);
    assert part.records == cur.records && part.seen == saved;
    if m.id.None? || dateAfter.None? {
      return saved, dateAfter, true;
    }
    var entry := LedgerEntry(m.id.value, dateAfter.value);
    assert PopStep(cur, m) == part.(records := cur.records + [entry], seen := saved + {m.id.value});
    RenderSnoc(cur.records, entry);
    Associative(base, Render(cur.records), LedgerLine(entry));
    spool.ledger := Some(spool.ledger.value + LedgerLine(entry));
    savedAfter := saved + {m.id.value};
  }

  /** A message whose body the loop saves: single-part text/plain, at most 1000 characters, with a date. */
  predicate Saveable(m: PopMessage) {
    !m.multipart && m.plainText && |m.body| <= MaxBodyLength && m.date.Some?
  }

  /** The report file a saveable message produces. */
  function ReportOf(m: PopMessage): Report
    requires m.date.Some?
  {
    Report(ReportPath(m.date.value, ChooseIdentifier(m.body)), m.body)
  }

  /** `later` continues `st`: what `st` recorded and wrote stays, in order. */
  predicate Extends(st: PassState, later: PassState) {
    && |st.records| <= |later.records| && later.records[..|st.records|] == st.records
    && |st.writes| <= |later.writes| && later.writes[..|st.writes|] == st.writes
  }

  /** Line 52: a message whose id is already in the set writes no report and no ledger line. */
  lemma PopSkipsSeen(st: PassState, m: PopMessage)
    requires m.id.Some? && m.id.value in st.seen
    ensures PopStep(st, m) == st
  {
  }

  /**
   * One message adds at most one report, the one it produces when
   * saveable and its id is not in the set, and at most one ledger record,
   * for its own id when that is not in the set, never for a multipart
   * message; the set only grows.
   */
  lemma PopStepShape(st: PassState, m: PopMessage)
    ensures var next := PopStep(st, m);
      && st.seen <= next.seen
      && (next.writes == st.writes
          || (Saveable(m) && (m.id.None? || m.id.value !in st.seen) && next.writes == st.writes + [ReportOf(m)]))
      && (next.records == st.records
          || (!m.multipart && m.id.Some? && m.id.value !in st.seen
              && next.records == st.records + [LedgerEntry(m.id.value, next.lastDate.value)]))
  {
  }

  lemma {:induction false} PopPassExtends(st: PassState, mailbox: seq<PopMessage>)
    ensures Extends(st, PopPass(st, mailbox))
    decreases |mailbox|
  {
    if mailbox != [] {
      var mid := PopStep(st, mailbox[0]);
      var res := PopPass(mid, mailbox[1..]);
      PopStepShape(st, mailbox[0]);
      PopPassExtends(mid, mailbox[1..]);
      assert res.records[..|st.records|] == res.records[..|mid.records|][..|st.records|];
      assert res.writes[..|st.writes|] == res.writes[..|mid.writes|][..|st.writes|];
    }
  }

  /**
   * Every write from index `from` on is the report of a saveable message
   * of `mailbox` whose id is missing or not in `seen`.
   */
  predicate WritesFrom(mailbox: seq<PopMessage>, seen: set<string>, writes: seq<Report>, from: nat) {
    forall k :: from <= k < |writes| ==> WrittenBy(mailbox, seen, writes[k])
  }

  /** `w` is the report of a saveable message of `mailbox` whose id is missing or not in `seen`. */
  predicate WrittenBy(mailbox: seq<PopMessage>, seen: set<string>, w: Report) {
    exists m :: m in mailbox && Saveable(m) && (m.id.None? || m.id.value !in seen) && w == ReportOf(m)
  }

  lemma WritesFromFewer(mailbox: seq<PopMessage>, seen: set<string>, fewer: set<string>, writes: seq<Report>, from: nat)
    requires fewer <= seen && WritesFrom(mailbox, seen, writes, from)
    ensures WritesFrom(mailbox, fewer, writes, from)
  {
    forall k | from <= k < |writes| ensures WrittenBy(mailbox, fewer, writes[k]) {
      assert WrittenBy(mailbox, seen, writes[k]);
      var m :| m in mailbox && Saveable(m) && (m.id.None? || m.id.value !in seen) && writes[k] == ReportOf(m);
    }
  }

  /** Every record from index `from` on carries the id of a single-part message of `mailbox`. */
  predicate RecordsFrom(mailbox: seq<PopMessage>, records: seq<LedgerEntry>, from: nat) {
    forall k :: from <= k < |records| ==> RecordedFor(mailbox, records[k])
  }

  /** `e` carries the id of a single-part message of `mailbox`. */
  predicate RecordedFor(mailbox: seq<PopMessage>, e: LedgerEntry) {
    exists m :: m in mailbox && !m.multipart && m.id == Some(e.id)
  }

  /**
   * The filters of lines 52-64: every report a pass writes is the one a
   * saveable message of the mailbox produces, and that message's id was
   * not in the set at the start of the pass; so no report comes from a
   * message already seen, a multipart message or a body over 1000
   * characters. Every ledger record is the id of a single-part message
   * of the mailbox.
   */
  lemma {:induction false} PopOrigins(st: PassState, mailbox: seq<PopMessage>)
    ensures WritesFrom(mailbox, st.seen, PopPass(st, mailbox).writes, |st.writes|)
    ensures RecordsFrom(mailbox, PopPass(st, mailbox).records, |st.records|)
    decreases |mailbox|
  {
    if mailbox != [] {
      var m0, rest := mailbox[0], mailbox[1..];
      var mid := PopStep(st, m0);
      var res := PopPass(mid, rest);
      assert res == PopPass(st, mailbox);
      PopStepShape(st, m0);
      PopPassExtends(mid, rest);
      PopOrigins(mid, rest);
      assert WritesFrom(rest, mid.seen, res.writes, |mid.writes|);
      assert RecordsFrom(rest, res.records, |mid.records|);
      forall k | |st.writes| <= k < |res.writes|
        ensures WrittenBy(mailbox, st.seen, res.writes[k])
      {
        if k < |mid.writes| {
          assert res.writes[k] == res.writes[..|mid.writes|][k] == mid.writes[k];
          assert m0 in mailbox && Saveable(m0) && (m0.id.None? || m0.id.value !in st.seen) && res.writes[k] == ReportOf(m0);
        } else {
          assert WrittenBy(rest, mid.seen, res.writes[k]);
          var m :| m in rest && Saveable(m) && (m.id.None? || m.id.value !in mid.seen) && res.writes[k] == ReportOf(m);
          assert m in mailbox;
        }
      }
      forall k | |st.records| <= k < |res.records|
        ensures RecordedFor(mailbox, res.records[k])
      {
        if k < |mid.records| {
          assert res.records[k] == res.records[..|mid.records|][k] == mid.records[k];
          assert m0 in mailbox && !m0.multipart && m0.id == Some(res.records[k].id);
        } else {
          assert RecordedFor(rest, res.records[k]);
          var m :| m in rest && !m.multipart && m.id == Some(res.records[k].id);
          assert m in mailbox;
        }
      }
    }
  }

  /** Each step keeps the ledger discipline of lines 52 and 82-83. */
  lemma PopStepRecorded(base: set<string>, st: PassState, m: PopMessage)
    requires Recorded(base, st)
    ensures Recorded(base, PopStep(st, m))
  {
    if !st.aborted && !(m.id.Some? && m.id.value in st.seen) && !m.multipart {
      var saved := SavePart(st, m);
      if !saved.aborted && m.id.Some? && saved.lastDate.Some? {
        RecordKeeps(base, saved, LedgerEntry(m.id.value, saved.lastDate.value));
      }
    }
  }

  lemma {:induction false} PopPassRecorded(base: set<string>, st: PassState, mailbox: seq<PopMessage>)
    requires Recorded(base, st)
    ensures Recorded(base, PopPass(st, mailbox))
    decreases |mailbox|
  {
    if mailbox != [] {
      PopStepRecorded(base, st, mailbox[0]);
      PopPassRecorded(base, PopStep(st, mailbox[0]), mailbox[1..]);
    }
  }

  /**
   * Within one cycle the dedup works: the ledger lines a cycle appends
   * are for ids that were not in the set loaded at its start, and no id
   * gets two lines.
   */
  lemma PopCycleRecordsDistinct(seen: set<string>, lastDate: Option<string>, mailbox: seq<PopMessage>)
    ensures var rs := PopPass(PassState(seen, [], [], lastDate, false), mailbox).records;
      && (forall k :: 0 <= k < |rs| ==> rs[k].id !in seen)
      && (forall k, l :: 0 <= k < l < |rs| ==> rs[k].id != rs[l].id)
  {
    var st := PassState(seen, [], [], lastDate, false);
    assert Ids([]) == {};
    PopPassRecorded(seen, st, mailbox);
  }

  /**
   * Lines 57-64 and 82 for one message anywhere in a pass: a new
   * single-part message whose body is not saved, because it is over 1000
   * characters or not text/plain, writes no report, and its id is
   * recorded under the date the last saved message left, whether that was
   * earlier in this pass or in an earlier cycle; the pass aborts when no
   * date is bound.
   */
  lemma PopUnsavedBodyRecorded(st: PassState, m: PopMessage)
    requires !st.aborted && m.id.Some? && m.id.value !in st.seen && !m.multipart
    requires !m.plainText || |m.body| > MaxBodyLength
    ensures PopStep(st, m)
         == if st.lastDate.None? then st.(aborted := true)
            else st.(records := st.records + [LedgerEntry(m.id.value, st.lastDate.value)], seen := st.seen + {m.id.value})
  {
  }

  /**
   * Lines 62-64 skip only the file write: a new single-part text message
   * with a body over 1000 characters still gets its ledger line, under
   * the date left by an earlier message, and aborts the cycle when no
   * earlier message left one.
   */
  lemma PopLongBodyRecorded(ledger: Option<string>, reports: map<string, string>, m: PopMessage, lastDate: Option<string>)
    requires m.id.Some? && m.id.value !in LoadLedger(ledger)
    requires !m.multipart && m.plainText && |m.body| > MaxBodyLength
    ensures PopCycleResult(ledger, reports, [m], lastDate)
         == if lastDate.None? then CycleResult(Some(TextOf(ledger)), reports, None, Aborted)
            else CycleResult(Some(TextOf(ledger) + LedgerLine(LedgerEntry(m.id.value, lastDate.value))), reports, lastDate, Completed)
  {
    var st := PassState(LoadLedger(ledger), [], [], lastDate, false);
    assert PopPass(st, [m]) == PopPass(PopStep(st, m), []);
    assert TextOf(ledger) + Render([]) == TextOf(ledger);
    if lastDate.Some? {
      var rs := [LedgerEntry(m.id.value, lastDate.value)];
      assert rs[..0] == [];
      assert PopStep(st, m).records == rs && PopStep(st, m).writes == [];
      assert Render(rs) == LedgerLine(rs[0]);
    }
  }

  /**
   * The dedup fails across cycles: the ledger holds `<id> __ <date>`
   * lines and line 44 loads them whole, so a message still in the
   * mailbox at the next cycle has its report written again (which the
   * watcher sees as a new modification) and its line recorded again.
   */
  lemma PopRepeatsAcrossCycles(ledger: Option<string>, reports: map<string, string>, m: PopMessage, lastDate: Option<string>)
    requires EndsLine(TextOf(ledger))
    requires Saveable(m) && m.id.Some? && m.id.value !in LoadLedger(ledger)
    requires '\n' !in m.id.value && '\n' !in m.date.value
    ensures var e := LedgerLine(LedgerEntry(m.id.value, m.date.value));
      var first := PopCycleResult(ledger, reports, [m], lastDate);
      var second := PopCycleResult(first.ledger, first.reports, [m], first.lastDate);
      && first.ledger == Some(TextOf(ledger) + e)
      && second.ledger == Some(TextOf(ledger) + e + e)
      && second.reports == reports[ReportOf(m).path := m.body]
      && second.outcome == Completed
      && PopWrites(LoadLedger(ledger), [m], lastDate) == [ReportOf(m)]
      && PopWrites(LoadLedger(first.ledger), [m], first.lastDate) == [ReportOf(m)]
  {
    var t := TextOf(ledger);
    var e := LedgerEntry(m.id.value, m.date.value);
    OneMessage(LoadLedger(ledger), ledger, reports, m, lastDate);
    var first := PopCycleResult(ledger, reports, [m], lastDate);
    ReloadMissesRecordedId(t, e);
    assert LoadLedger(first.ledger) == LoadLedger(Some(t + LedgerLine(e)));
    OneMessage(LoadLedger(first.ledger), first.ledger, first.reports, m, first.lastDate);
  }

  /**
   * With the ledger read back as ids, the next cycle recognises the
   * message, writes no report and leaves the ledger and the reports as
   * the first cycle left them.
   */
  lemma PopNoRepeatCorrected(ledger: Option<string>, reports: map<string, string>, m: PopMessage, lastDate: Option<string>)
    requires EndsLine(TextOf(ledger))
    requires Saveable(m) && m.id.Some? && m.id.value !in LoadIds(ledger)
    requires '\n' !in m.id.value && ' ' !in m.id.value && '\n' !in m.date.value
    ensures var first := PopCycleCorrected(ledger, reports, [m], lastDate);
      var second := PopCycleCorrected(first.ledger, first.reports, [m], first.lastDate);
      && first.ledger == Some(TextOf(ledger) + LedgerLine(LedgerEntry(m.id.value, m.date.value)))
      && first.reports == reports[ReportOf(m).path := m.body]
      && second.ledger == first.ledger && second.reports == first.reports
      && second.outcome == Completed
      && PopWrites(LoadIds(first.ledger), [m], first.lastDate) == []
  {
    var t := TextOf(ledger);
    var e := LedgerEntry(m.id.value, m.date.value);
    OneMessage(LoadIds(ledger), ledger, reports, m, lastDate);
    var first := PopCycleCorrected(ledger, reports, [m], lastDate);
    LoadIdsAppendLine(t, e);
    assert m.id.value in LoadIds(first.ledger);
    var st := PassState(LoadIds(first.ledger), [], [], first.lastDate, false);
    assert PopPass(st, [m]) == PopPass(PopStep(st, m), []);
    assert TextOf(first.ledger) + Render([]) == TextOf(first.ledger);
  }

  /** A cycle over one new saveable message writes its report and appends its ledger line. */
  lemma OneMessage(seen: set<string>, ledger: Option<string>, reports: map<string, string>, m: PopMessage, lastDate: Option<string>)
    requires Saveable(m) && m.id.Some? && m.id.value !in seen
    ensures var c := PopCycleFrom(seen, ledger, reports, [m], lastDate);
      && c.ledger == Some(TextOf(ledger) + LedgerLine(LedgerEntry(m.id.value, m.date.value)))
      && c.reports == reports[ReportOf(m).path := m.body]
      && c.lastDate == m.date
      && c.outcome == Completed
      && PopWrites(seen, [m], lastDate) == [ReportOf(m)]
  {
    var st := PassState(seen, [], [], lastDate, false);
    var rs := [LedgerEntry(m.id.value, m.date.value)];
    var ws := [ReportOf(m)];
    var next := PassState(seen + {m.id.value}, rs, ws, m.date, false);
    assert PopStep(st, m) == next;
    assert PopPass(st, [m]) == PopPass(next, []) == next;
    RenderSnoc([], rs[0]);
    assert [] + rs == rs && "" + LedgerLine(rs[0]) == LedgerLine(rs[0]);
    ApplySnoc(reports, [], ws[0]);
    assert [] + ws == ws;
  }

  /** Every message has an id, and every single-part one is a saveable text/plain body. */
  predicate Plain(mailbox: seq<PopMessage>) {
    forall k :: 0 <= k < |mailbox| ==> mailbox[k].id.Some? && (mailbox[k].multipart || Saveable(mailbox[k]))
  }

  /** Saveable messages with ids. */
  predicate Dated(ms: seq<PopMessage>) {
    forall k :: 0 <= k < |ms| ==> ms[k].id.Some? && Saveable(ms[k])
  }

  /**
   * Message `k` is new: it is single-part, and its id is neither loaded
   * nor the id of an earlier single-part message (multipart messages are
   * never recorded, line 55).
   */
  predicate NewAt(mailbox: seq<PopMessage>, seen: set<string>, k: nat)
    requires k < |mailbox| && mailbox[k].id.Some?
  {
    && !mailbox[k].multipart && mailbox[k].id.value !in seen
    && forall j :: 0 <= j < k ==> mailbox[j].multipart || mailbox[j].id != mailbox[k].id
  }

  /** The new messages of the mailbox, in mailbox order. */
  function NewMessages(mailbox: seq<PopMessage>, seen: set<string>): (news: seq<PopMessage>)
    requires Plain(mailbox)
    ensures Dated(news) && |news| <= |mailbox|
    ensures forall k :: 0 <= k < |news| ==> news[k] in mailbox && news[k].id.value !in seen
  {
    if mailbox == [] then []
    else
      var init := mailbox[..|mailbox| - 1];
      assert Plain(init) by { forall k | 0 <= k < |init| ensures init[k] == mailbox[k] { } }
      NewMessages(init, seen) + (if NewAt(mailbox, seen, |mailbox| - 1) then [mailbox[|mailbox| - 1]] else [])
  }

  /** The ledger records of saved messages, each under its own date. */
  function Entries(ms: seq<PopMessage>): seq<LedgerEntry>
    requires Dated(ms)
  {
    seq(|ms|, k requires 0 <= k < |ms| => LedgerEntry(ms[k].id.value, ms[k].date.value))
  }

  /** The report files of saved messages. */
  function Reports(ms: seq<PopMessage>): seq<Report>
    requires Dated(ms)
  {
    seq(|ms|, k requires 0 <= k < |ms| => ReportOf(ms[k]))
  }

  /** The ids of the single-part messages of a mailbox. */
  function SingleIds(mailbox: seq<PopMessage>): set<string> {
    set m | m in mailbox && !m.multipart && m.id.Some? :: m.id.value
  }

  lemma {:induction false} PopPassSnoc(st: PassState, mailbox: seq<PopMessage>, m: PopMessage)
    ensures PopPass(st, mailbox + [m]) == PopStep(PopPass(st, mailbox), m)
    decreases |mailbox|
  {
    if mailbox == [] {
      assert [m][1..] == [];
    } else {
      assert (mailbox + [m])[1..] == mailbox[1..] + [m];
      PopPassSnoc(PopStep(st, mailbox[0]), mailbox[1..], m);
    }
  }

  lemma SingleIdsSnoc(init: seq<PopMessage>, m: PopMessage)
    ensures SingleIds(init + [m]) == SingleIds(init) + (if !m.multipart && m.id.Some? then {m.id.value} else {})
  {
    assert forall x :: x in init + [m] <==> x in init || x == m;
  }

  /** The last message is new exactly when it is single-part and its id is neither loaded nor an earlier single-part id. */
  lemma NewAtLast(mailbox: seq<PopMessage>, seen: set<string>)
    requires Plain(mailbox) && mailbox != []
    ensures var init, m := mailbox[..|mailbox| - 1], mailbox[|mailbox| - 1];
      NewAt(mailbox, seen, |mailbox| - 1) <==> !m.multipart && m.id.value !in seen + SingleIds(init)
  {
    var init, m := mailbox[..|mailbox| - 1], mailbox[|mailbox| - 1];
    if m.id.value in SingleIds(init) {
      var x :| x in init && !x.multipart && x.id.Some? && x.id.value == m.id.value;
      var j :| 0 <= j < |init| && init[j] == x;
      assert mailbox[j] == x;
    }
    forall j | 0 <= j < |mailbox| - 1 && !mailbox[j].multipart && mailbox[j].id == m.id
      ensures m.id.value in SingleIds(init)
    {
      assert mailbox[j] == init[j] && init[j] in init;
    }
  }

  lemma EntriesSnoc(ms: seq<PopMessage>, m: PopMessage)
    requires Dated(ms) && m.id.Some? && Saveable(m)
    ensures Dated(ms + [m])
    ensures Entries(ms + [m]) == Entries(ms) + [LedgerEntry(m.id.value, m.date.value)]
  {
    var ms' := ms + [m];
    assert forall k :: 0 <= k < |ms| ==> ms'[k] == ms[k];
  }

  lemma ReportsSnoc(ms: seq<PopMessage>, m: PopMessage)
    requires Dated(ms) && m.id.Some? && Saveable(m)
    ensures Dated(ms + [m])
    ensures Reports(ms + [m]) == Reports(ms) + [ReportOf(m)]
  {
    var ms' := ms + [m];
    assert forall k :: 0 <= k < |ms| ==> ms'[k] == ms[k];
  }

  /**
   * A pass from `seen` over `mailbox` saves exactly the new messages, in
   * mailbox order: one report and one ledger record each, under its own
   * date, and nothing for a multipart message, an id already loaded or an
   * id repeated from earlier in the mailbox. It does not abort, the set
   * gains the single-part ids, and `date_sent_str` is the last saved
   * message's date.
   */
  predicate SavesNew(seen: set<string>, mailbox: seq<PopMessage>, lastDate: Option<string>)
    requires Plain(mailbox)
  {
    var r := PopPass(PassState(seen, [], [], lastDate, false), mailbox);
    var news := NewMessages(mailbox, seen);
    && !r.aborted
    && r.seen == seen + SingleIds(mailbox)
    && r.records == Entries(news)
    && r.writes == Reports(news)
    && r.lastDate == DateAfter(news, lastDate)
  }

  /** `date_sent_str` after the messages `saved` were saved: the last one's date, or the value it had. */
  function DateAfter(saved: seq<PopMessage>, lastDate: Option<string>): Option<string> {
    if saved == [] then lastDate else saved[|saved| - 1].date
  }

  /**
   * Lines 47-83 on a mailbox where every message has an id and every
   * single-part message is a saveable text/plain body: the pass saves
   * exactly the new messages, as `SavesNew` states.
   */
  lemma {:induction false} PopSavesNewMessages(seen: set<string>, mailbox: seq<PopMessage>, lastDate: Option<string>)
    requires Plain(mailbox)
    ensures SavesNew(seen, mailbox, lastDate)
    decreases |mailbox|
  {
    if mailbox == [] {
      assert SingleIds(mailbox) == {};
    } else {
      var init := mailbox[..|mailbox| - 1];
      assert Plain(init) by { forall k | 0 <= k < |init| ensures init[k] == mailbox[k] { } }
      PopSavesNewMessages(seen, init, lastDate);
      SavesNewStep(seen, mailbox, lastDate);
    }
  }

  lemma SavesNewStep(seen: set<string>, mailbox: seq<PopMessage>, lastDate: Option<string>)
    requires Plain(mailbox) && mailbox != []
    requires var init := mailbox[..|mailbox| - 1];
      Plain(init) && SavesNew(seen, init, lastDate)
    ensures SavesNew(seen, mailbox, lastDate)
  {
    NewAtLast(mailbox, seen);
    if NewAt(mailbox, seen, |mailbox| - 1) {
      SavesNewStepNew(seen, mailbox, lastDate);
    } else {
      SavesNewStepOld(seen, mailbox, lastDate);
    }
  }

  lemma SavesNewStepNew(seen: set<string>, mailbox: seq<PopMessage>, lastDate: Option<string>)
    requires Plain(mailbox) && mailbox != [] && NewAt(mailbox, seen, |mailbox| - 1)
    requires var init := mailbox[..|mailbox| - 1];
      Plain(init) && SavesNew(seen, init, lastDate)
    requires mailbox[|mailbox| - 1].id.value !in seen + SingleIds(mailbox[..|mailbox| - 1])
    ensures SavesNew(seen, mailbox, lastDate)
  {
    var st := PassState(seen, [], [], lastDate, false);
    var init, m := mailbox[..|mailbox| - 1], mailbox[|mailbox| - 1];
    assert mailbox == init + [m];
    PopPassSnoc(st, init, m);
    SingleIdsSnoc(init, m);
    var news := NewMessages(init, seen);
    var mid := PopPass(st, init);
    assert NewMessages(mailbox, seen) == news + [m];
    PopStepNew(mid, m);
    EntriesSnoc(news, m);
    ReportsSnoc(news, m);
  }

  lemma SavesNewStepOld(seen: set<string>, mailbox: seq<PopMessage>, lastDate: Option<string>)
    requires Plain(mailbox) && mailbox != [] && !NewAt(mailbox, seen, |mailbox| - 1)
    requires var init := mailbox[..|mailbox| - 1];
      Plain(init) && SavesNew(seen, init, lastDate)
    requires var m := mailbox[|mailbox| - 1];
      m.multipart || m.id.value in seen + SingleIds(mailbox[..|mailbox| - 1])
    ensures SavesNew(seen, mailbox, lastDate)
  {
    var st := PassState(seen, [], [], lastDate, false);
    var init, m := mailbox[..|mailbox| - 1], mailbox[|mailbox| - 1];
    assert mailbox == init + [m];
    PopPassSnoc(st, init, m);
    SingleIdsSnoc(init, m);
    var mid := PopPass(st, init);
    assert mid.seen == seen + SingleIds(init);
    PopStepOld(mid, m);
    assert PopPass(st, mailbox) == mid;
    assert seen + SingleIds(mailbox) == seen + SingleIds(init);
    var news := NewMessages(init, seen);
    assert NewMessages(mailbox, seen) == news;
  }

  /** A new saveable message is saved under its own date and recorded. */
  lemma PopStepNew(st: PassState, m: PopMessage)
    requires !st.aborted && Saveable(m) && m.id.Some? && m.id.value !in st.seen
    ensures PopStep(st, m) == st.(lastDate := m.date, writes := st.writes + [ReportOf(m)],
                                  records := st.records + [LedgerEntry(m.id.value, m.date.value)],
                                  seen := st.seen + {m.id.value})
  {
  }

  /** A multipart message, or one whose id is in the set, changes nothing. */
  lemma PopStepOld(st: PassState, m: PopMessage)
    requires m.multipart || (m.id.Some? && m.id.value in st.seen)
    ensures PopStep(st, m) == st
  {
  }

  /** A message whose ledger line reads back as its id: no blank or line break in the id, no line break in the date. */
  predicate CleanMessage(m: PopMessage) {
    && (m.id.Some? ==> '\n' !in m.id.value && ' ' !in m.id.value)
    && (m.date.Some? ==> '\n' !in m.date.value)
  }

  /** The carried date and every record so far read back cleanly. */
  predicate CleanState(st: PassState) {
    && (st.lastDate.Some? ==> '\n' !in st.lastDate.value)
    && forall k :: 0 <= k < |st.records| ==> Clean(st.records[k])
  }

  lemma PopStepClean(st: PassState, m: PopMessage)
    requires CleanState(st) && CleanMessage(m)
    ensures CleanState(PopStep(st, m))
  {
    var next := PopStep(st, m);
    if next.records != st.records {
      assert next.records == st.records + [next.records[|st.records|]];
      assert forall k :: 0 <= k < |st.records| ==> next.records[k] == st.records[k];
    }
  }

  lemma {:induction false} PopPassClean(st: PassState, mailbox: seq<PopMessage>)
    requires CleanState(st)
    requires forall k :: 0 <= k < |mailbox| ==> CleanMessage(mailbox[k])
    ensures CleanState(PopPass(st, mailbox))
    decreases |mailbox|
  {
    if mailbox != [] {
      PopStepClean(st, mailbox[0]);
      PopPassClean(PopStep(st, mailbox[0]), mailbox[1..]);
    }
  }

  /**
   * With the ledger read back as ids, dedup carries across cycles:
   * whatever the next cycle's mailbox holds, no id the first cycle
   * recorded is recorded again, and no report is written for a message
   * carrying such an id.
   */
  lemma PopCorrectedSkipsRecorded(ledger: Option<string>, reports: map<string, string>,
                                  first: seq<PopMessage>, next: seq<PopMessage>, lastDate: Option<string>)
    requires EndsLine(TextOf(ledger))
    requires forall k :: 0 <= k < |first| ==> CleanMessage(first[k])
    requires lastDate.Some? ==> '\n' !in lastDate.value
    ensures var c := PopCycleCorrected(ledger, reports, first, lastDate);
      var ids := Ids(PopRecords(LoadIds(ledger), first, lastDate));
      var rs := PopRecords(LoadIds(c.ledger), next, c.lastDate);
      && (forall k :: 0 <= k < |rs| ==> rs[k].id !in ids)
      && WritesFrom(next, ids, PopWrites(LoadIds(c.ledger), next, c.lastDate), 0)
  {
    var seen := LoadIds(ledger);
    var c := PopCycleCorrected(ledger, reports, first, lastDate);
    var rs1 := PopRecords(seen, first, lastDate);
    if first == [] {
      assert Ids(rs1) == {};
    } else {
      PopPassClean(PassState(seen, [], [], lastDate, false), first);
      LoadIdsAfterPass(TextOf(ledger), rs1);
    }
    var seen2 := LoadIds(c.ledger);
    assert Ids(rs1) <= seen2;
    if next != [] {
      var st2 := PassState(seen2, [], [], c.lastDate, false);
      PopCycleRecordsDistinct(seen2, c.lastDate, next);
      assert PopRecords(seen2, next, c.lastDate) == PopPass(st2, next).records;
      PopOrigins(st2, next);
      assert PopWrites(seen2, next, c.lastDate) == PopPass(st2, next).writes;
      WritesFromFewer(next, seen2, Ids(rs1), PopWrites(seen2, next, c.lastDate), 0);
    }
  }
}
