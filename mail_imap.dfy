/**
 * mailparser_imap.py: one polling cycle over an IMAP inbox. Every message
 * whose id is not in the ledger set has its body saved as a report and
 * its id appended to the ledger; there is no multipart or length filter.
 */
module MailImap {
  import opened Wrappers
  import opened Text
  import opened MailCommon

  /**
   * A message of the inbox as the loop sees it: its `Message-ID` (`None`
   * when the header is missing), the decoded `BODY[TEXT]`, and the `Date`
   * header formatted `%Y-%m-%d-%H-%M-%S` (`None` when it cannot be parsed).
   */
  datatype ImapMessage = ImapMessage(id: Option<string>, body: string, date: Option<string>)

  /** The report file a message produces once its date is known. */
  function ImapReport(m: ImapMessage): Report
    requires m.date.Some?
  {
    Report(ReportPath(m.date.value, ChooseIdentifier(m.body)), m.body)
  }

  /**
   * Lines 44-67 for one message: an unparseable date raises before the
   * file is written, a missing id raises after it (line 66).
   */
  function ImapStep(st: PassState, m: ImapMessage): PassState {
    if st.aborted then st
    else if m.id.Some? && m.id.value in st.seen then st
    else if m.date.None? then st.(aborted := true)
    else
      var written := st.(lastDate := m.date, writes := st.writes + [ImapReport(m)]);
      if m.id.None? then written.(aborted := true)
      else written.(records := written.records + [LedgerEntry(m.id.value, m.date.value)],
                    seen := written.seen + {m.id.value})
  }

  /** The `for i in mail_ids` loop, message by message. */
  function ImapPass(st: PassState, inbox: seq<ImapMessage>): PassState
    decreases |inbox|
  {
    if inbox == [] then st else ImapPass(ImapStep(st, inbox[0]), inbox[1..])
  }

  /** Lines 31-67: one iteration of `run_script`'s loop; the ledger is opened for appending even for an empty inbox. */
  function ImapCycleResult(ledger: Option<string>, reports: map<string, string>, inbox: seq<ImapMessage>): CycleResult {
    Finish(ledger, reports, ImapPass(StartPass(ledger, None), inbox))
  }

  /** The report files a cycle writes, in the order it writes them. */
  function ImapWrites(ledger: Option<string>, inbox: seq<ImapMessage>): seq<Report> {
    ImapPass(StartPass(ledger, None), inbox).writes
  }

  lemma {:induction false} ImapAbortedStays(st: PassState, inbox: seq<ImapMessage>)
    requires st.aborted
    ensures ImapPass(st, inbox) == st
    decreases |inbox|
  {
    if inbox != [] {
      ImapAbortedStays(st, inbox[1..]);
    }
  }

  /** One polling cycle (lines 31-67) on the spool. */
  method ImapCycle(spool: Spool, inbox: seq<ImapMessage>) returns (outcome: Outcome)
    modifies spool
    ensures var r := ImapCycleResult(old(spool.ledger), old(spool.reports), inbox);
      spool.ledger == r.ledger && spool.reports == r.reports && outcome == r.outcome
  {
    ghost var ledger0, reports0 := spool.ledger, spool.reports;
    var saved := LoadLedger(spool.ledger);
    var base := TextOf(spool.ledger);
    spool.ledger := Some(base);
    assert base + Render([]) == base;
    ghost var init := StartPass(ledger0, None);
    ghost var cur := init;
    var i := 0;
    while i < |inbox|
      invariant 0 <= i <= |inbox|
      invariant !cur.aborted
      invariant ImapPass(cur, inbox[i..]) == ImapPass(init, inbox)
      invariant saved == cur.seen
      invariant spool.ledger == Some(base + Render(cur.records))
      invariant spool.reports == Apply(reports0, cur.writes)
    {
      assert inbox[i..][0] == inbox[i] && inbox[i..][1..] == inbox[i + 1..];
      var aborted;
      saved, aborted := HandleImapMessage(spool, inbox[i], saved, cur, base, reports0);
      cur := ImapStep(cur, inbox[i]);
      if aborted {
        ImapAbortedStays(cur, inbox[i + 1..]);
        return Aborted;
      }
      i := i + 1;
    }
    outcome := Completed;
  }

  /** Lines 44-67 for message `m`, on the spool and the loop's set `saved`. */
  method HandleImapMessage(spool: Spool, m: ImapMessage, saved: set<string>,
                           ghost cur: PassState, ghost base: string, ghost reports0: map<string, string>)
    returns (savedAfter: set<string>, aborted: bool)
    requires !cur.aborted && saved == cur.seen
    requires spool.ledger == Some(base + Render(cur.records)) && spool.reports == Apply(reports0, cur.writes)
    modifies spool
    ensures var next := ImapStep(cur, m);
      && aborted == next.aborted && savedAfter == next.seen
      && spool.ledger == Some(base + Render(next.records)) && spool.reports == Apply(reports0, next.writes)
  {
    savedAfter, aborted := saved, false;
    if m.id.Some? && m.id.value in saved {
      return;
    }
    if m.date.None? {
      return saved, true;
    }
    var identifier := ChooseIdentifier(m.body);
    var report := Report(ReportPath(m.date.value, identifier), m.body);
    ApplySnoc(reports0, cur.writes, report);
    spool.reports := spool.reports[report.path := report.text];
    if m.id.None? {
      return saved, true;
    }
    var entry := LedgerEntry(m.id.value, m.date.value);
    assert ImapStep(cur, m) == cur.(lastDate := m.date, writes := cur.writes + [report],
                                    records := cur.records + [entry], seen := saved + {m.id.value});
    RenderSnoc(cur.records, entry);
    Associative(base, Render(cur.records), LedgerLine(entry));
    spool.ledger := Some(spool.ledger.value + LedgerLine(entry));
    savedAfter := saved + {m.id.value};
  }

  /** Every message carries both headers, so no step raises. */
  predicate WellFormed(inbox: seq<ImapMessage>) {
    forall k :: 0 <= k < |inbox| ==> inbox[k].id.Some? && inbox[k].date.Some?
  }

  /** Message `k` is new: its id is neither loaded nor the id of an earlier message. */
  predicate NewAt(inbox: seq<ImapMessage>, seen: set<string>, k: nat)
    requires k < |inbox| && inbox[k].id.Some?
  {
    inbox[k].id.value !in seen && forall j :: 0 <= j < k ==> inbox[j].id != inbox[k].id
  }

  /** The new messages of the inbox, in inbox order. */
  function NewMessages(inbox: seq<ImapMessage>, seen: set<string>): (news: seq<ImapMessage>)
    requires WellFormed(inbox)
    ensures WellFormed(news) && |news| <= |inbox|
    ensures forall k :: 0 <= k < |news| ==> news[k] in inbox && news[k].id.value !in seen
  {
    if inbox == [] then []
    else
      var init := inbox[..|inbox| - 1];
      assert WellFormed(init) by { forall k | 0 <= k < |init| ensures init[k] == inbox[k] { } }
      NewMessages(init, seen) + (if NewAt(inbox, seen, |inbox| - 1) then [inbox[|inbox| - 1]] else [])
  }

  /** The ledger records of a sequence of dated messages with ids. */
  function Entries(ms: seq<ImapMessage>): seq<LedgerEntry>
    requires WellFormed(ms)
  {
    seq(|ms|, k requires 0 <= k < |ms| => LedgerEntry(ms[k].id.value, ms[k].date.value))
  }

  /** The report files of a sequence of dated messages. */
  function Reports(ms: seq<ImapMessage>): seq<Report>
    requires WellFormed(ms)
  {
    seq(|ms|, k requires 0 <= k < |ms| => ImapReport(ms[k]))
  }

  /** The ids an inbox carries. */
  function InboxIds(inbox: seq<ImapMessage>): set<string> {
    set m | m in inbox && m.id.Some? :: m.id.value
  }

  lemma {:induction false} ImapPassSnoc(st: PassState, inbox: seq<ImapMessage>, m: ImapMessage)
    ensures ImapPass(st, inbox + [m]) == ImapStep(ImapPass(st, inbox), m)
    decreases |inbox|
  {
    if inbox == [] {
      assert [m][1..] == [];
    } else {
      assert (inbox + [m])[1..] == inbox[1..] + [m];
      ImapPassSnoc(ImapStep(st, inbox[0]), inbox[1..], m);
    }
  }

  lemma InboxIdsSnoc(init: seq<ImapMessage>, m: ImapMessage)
    requires m.id.Some?
    ensures InboxIds(init + [m]) == InboxIds(init) + {m.id.value}
  {
    assert forall x :: x in init + [m] <==> x in init || x == m;
  }

  /** The last message is new exactly when its id is neither loaded nor carried by an earlier message. */
  lemma NewAtLast(inbox: seq<ImapMessage>, seen: set<string>)
    requires WellFormed(inbox) && inbox != []
    ensures var init, m := inbox[..|inbox| - 1], inbox[|inbox| - 1];
      NewAt(inbox, seen, |inbox| - 1) <==> m.id.value !in seen + InboxIds(init)
  {
    var init, m := inbox[..|inbox| - 1], inbox[|inbox| - 1];
    if m.id.value in InboxIds(init) {
      var x :| x in init && x.id.Some? && x.id.value == m.id.value;
      var j :| 0 <= j < |init| && init[j] == x;
      assert inbox[j] == x;
    }
    forall j | 0 <= j < |inbox| - 1 && inbox[j].id == m.id ensures m.id.value in InboxIds(init) {
      assert inbox[j] == init[j] && init[j] in init;
    }
  }

  /**
   * On an inbox whose messages all carry both headers, a pass saves
   * exactly the new messages, in inbox order: one report and one ledger
   * record each, and nothing for a message already loaded or repeated.
   */
  lemma {:induction false} ImapSavesNewMessages(seen: set<string>, inbox: seq<ImapMessage>)
    requires WellFormed(inbox)
    ensures var r := ImapPass(PassState(seen, [], [], None, false), inbox);
      && !r.aborted
      && r.seen == seen + InboxIds(inbox)
      && r.records == Entries(NewMessages(inbox, seen))
      && r.writes == Reports(NewMessages(inbox, seen))
    decreases |inbox|
  {
    var st := PassState(seen, [], [], None, false);
    if inbox == [] {
      assert InboxIds(inbox) == {};
    } else {
      var init, m := inbox[..|inbox| - 1], inbox[|inbox| - 1];
      assert inbox == init + [m];
      assert WellFormed(init) by { forall k | 0 <= k < |init| ensures init[k] == inbox[k] { } }
      ImapSavesNewMessages(seen, init);
      ImapPassSnoc(st, init, m);
      InboxIdsSnoc(init, m);
      NewAtLast(inbox, seen);
      var news := NewMessages(init, seen);
      if NewAt(inbox, seen, |inbox| - 1) {
        assert NewMessages(inbox, seen) == news + [m];
        EntriesSnoc(news, m);
        ReportsSnoc(news, m);
      } else {
        assert NewMessages(inbox, seen) == news;
      }
    }
  }

  lemma EntriesSnoc(ms: seq<ImapMessage>, m: ImapMessage)
    requires WellFormed(ms) && m.id.Some? && m.date.Some?
    ensures WellFormed(ms + [m])
    ensures Entries(ms + [m]) == Entries(ms) + [LedgerEntry(m.id.value, m.date.value)]
  {
    var ms' := ms + [m];
    assert forall k :: 0 <= k < |ms| ==> ms'[k] == ms[k];
  }

  lemma ReportsSnoc(ms: seq<ImapMessage>, m: ImapMessage)
    requires WellFormed(ms) && m.date.Some? && m.id.Some?
    ensures WellFormed(ms + [m])
    ensures Reports(ms + [m]) == Reports(ms) + [ImapReport(m)]
  {
    var ms' := ms + [m];
    assert forall k :: 0 <= k < |ms| ==> ms'[k] == ms[k];
  }

  /**
   * One message adds at most its own report, only when it is dated and
   * its id is missing or not in the set; the set only grows.
   */
  lemma ImapStepShape(st: PassState, m: ImapMessage)
    ensures var next := ImapStep(st, m);
      && st.seen <= next.seen
      && (next.writes == st.writes
          || (m.date.Some? && (m.id.None? || m.id.value !in st.seen) && next.writes == st.writes + [ImapReport(m)]))
  {
  }

  lemma {:induction false} ImapPassExtends(st: PassState, inbox: seq<ImapMessage>)
    ensures var r := ImapPass(st, inbox);
      |st.writes| <= |r.writes| && r.writes[..|st.writes|] == st.writes
    decreases |inbox|
  {
    if inbox != [] {
      var mid := ImapStep(st, inbox[0]);
      var r := ImapPass(mid, inbox[1..]);
      ImapStepShape(st, inbox[0]);
      ImapPassExtends(mid, inbox[1..]);
      assert r.writes[..|st.writes|] == r.writes[..|mid.writes|][..|st.writes|];
    }
  }

  /** `w` is the report of a dated message of `inbox` whose id is missing or not in `seen`. */
  predicate WrittenBy(inbox: seq<ImapMessage>, seen: set<string>, w: Report) {
    exists m :: m in inbox && m.date.Some? && (m.id.None? || m.id.value !in seen) && w == ImapReport(m)
  }

  /** Every write from index `from` on is written by a message of `inbox` as `WrittenBy` says. */
  predicate WritesFrom(inbox: seq<ImapMessage>, seen: set<string>, writes: seq<Report>, from: nat) {
    forall k :: from <= k < |writes| ==> WrittenBy(inbox, seen, writes[k])
  }

  /**
   * Lines 46-64 on any inbox, headers or not: every report a pass writes
   * is that of a dated inbox message whose id is missing or was not in the
   * set when the pass started; a message already seen gets no file.
   */
  lemma {:induction false} ImapOrigins(st: PassState, inbox: seq<ImapMessage>)
    ensures WritesFrom(inbox, st.seen, ImapPass(st, inbox).writes, |st.writes|)
    decreases |inbox|
  {
    if inbox != [] {
      var m0, rest := inbox[0], inbox[1..];
      var mid := ImapStep(st, m0);
      var res := ImapPass(mid, rest);
      assert res == ImapPass(st, inbox);
      ImapStepShape(st, m0);
      ImapPassExtends(mid, rest);
      ImapOrigins(mid, rest);
      forall k | |st.writes| <= k < |res.writes|
        ensures WrittenBy(inbox, st.seen, res.writes[k])
      {
        if k < |mid.writes| {
          assert res.writes[k] == res.writes[..|mid.writes|][k] == mid.writes[k];
          assert m0 in inbox && m0.date.Some? && (m0.id.None? || m0.id.value !in st.seen) && res.writes[k] == ImapReport(m0);
        } else {
          assert WrittenBy(rest, mid.seen, res.writes[k]);
          var m :| m in rest && m.date.Some? && (m.id.None? || m.id.value !in mid.seen) && res.writes[k] == ImapReport(m);
          assert m in inbox;
        }
      }
    }
  }

  /** Each step keeps the ledger discipline of lines 46 and 66-67. */
  lemma ImapStepRecorded(base: set<string>, st: PassState, m: ImapMessage)
    requires Recorded(base, st)
    ensures Recorded(base, ImapStep(st, m))
  {
    if !st.aborted && !(m.id.Some? && m.id.value in st.seen) && m.date.Some? && m.id.Some? {
      RecordKeeps(base, st.(lastDate := m.date, writes := st.writes + [ImapReport(m)]),
                  LedgerEntry(m.id.value, m.date.value));
    }
  }

  /**
   * Within one cycle, whatever the inbox holds, the ledger lines appended
   * are for ids not loaded at the start, and no id gets two lines.
   */
  lemma {:induction false} ImapPassRecorded(base: set<string>, st: PassState, inbox: seq<ImapMessage>)
    requires Recorded(base, st)
    ensures Recorded(base, ImapPass(st, inbox))
    decreases |inbox|
  {
    if inbox != [] {
      ImapStepRecorded(base, st, inbox[0]);
      ImapPassRecorded(base, ImapStep(st, inbox[0]), inbox[1..]);
    }
  }

  /**
   * The IMAP script repeats a message at the next cycle as the POP one
   * does: the reloaded ledger does not hold the bare id, so the report is
   * written again and the line recorded again.
   */
  lemma ImapRepeatsAcrossCycles(ledger: Option<string>, reports: map<string, string>, m: ImapMessage)
    requires EndsLine(TextOf(ledger))
    requires m.id.Some? && m.date.Some? && m.id.value !in LoadLedger(ledger)
    requires '\n' !in m.id.value && '\n' !in m.date.value
    ensures var e := LedgerLine(LedgerEntry(m.id.value, m.date.value));
      var first := ImapCycleResult(ledger, reports, [m]);
      var second := ImapCycleResult(first.ledger, first.reports, [m]);
      && first.ledger == Some(TextOf(ledger) + e)
      && second.ledger == Some(TextOf(ledger) + e + e)
      && second.reports == reports[ImapReport(m).path := m.body]
      && second.outcome == Completed
      && ImapWrites(ledger, [m]) == [ImapReport(m)]
      && ImapWrites(first.ledger, [m]) == [ImapReport(m)]
  {
    var e := LedgerEntry(m.id.value, m.date.value);
    ImapOneMessage(ledger, reports, m);
    var first := ImapCycleResult(ledger, reports, [m]);
    ReloadMissesRecordedId(TextOf(ledger), e);
    ImapOneMessage(first.ledger, first.reports, m);
  }

  /** A cycle over one new dated message with an id writes its report and appends its ledger line. */
  lemma ImapOneMessage(ledger: Option<string>, reports: map<string, string>, m: ImapMessage)
    requires m.id.Some? && m.date.Some? && m.id.value !in LoadLedger(ledger)
    ensures var c := ImapCycleResult(ledger, reports, [m]);
      && c.ledger == Some(TextOf(ledger) + LedgerLine(LedgerEntry(m.id.value, m.date.value)))
      && c.reports == reports[ImapReport(m).path := m.body]
      && c.outcome == Completed
      && ImapWrites(ledger, [m]) == [ImapReport(m)]
  {
    var st := StartPass(ledger, None);
    var rs := [LedgerEntry(m.id.value, m.date.value)];
    var ws := [ImapReport(m)];
    var next := PassState(st.seen + {m.id.value}, rs, ws, m.date, false);
    assert ImapStep(st, m) == next;
    assert ImapPass(st, [m]) == ImapPass(next, []) == next;
    RenderSnoc([], rs[0]);
    assert [] + rs == rs && "" + LedgerLine(rs[0]) == LedgerLine(rs[0]);
    ApplySnoc(reports, [], ws[0]);
    assert [] + ws == ws;
  }
}
