/**
 * How the two halves meet: the mailbox scripts write
 * `temp/<YYYY-MM-DD-HH-MM-SS>-<identifier>.txt`, and the watcher of
 * `databroker.py` dates each such file from its name.
 */
module Pipeline {
  import opened Wrappers
  import opened Text
  import opened Dates
  import opened MailCommon
  import opened MailPop
  import opened Databroker

  /** What follows the last `/` of a path (the whole path when it has none). */
  function BaseName(path: string): (b: string)
    ensures '/' !in b
  {
    if path == [] || path[|path| - 1] == '/' then []
    else BaseName(path[..|path| - 1]) + [path[|path| - 1]]
  }

  lemma {:induction false} BaseNameAfterSlash(dir: string, name: string)
    requires '/' !in name
    ensures BaseName(dir + "/" + name) == name
    decreases |name|
  {
    var path := dir + "/" + name;
    if name == [] {
      assert path[|path| - 1] == '/';
    } else {
      var init := name[..|name| - 1];
      assert path[..|path| - 1] == dir + "/" + init;
      BaseNameAfterSlash(dir, init);
      assert init + [name[|name| - 1]] == name;
    }
  }

  /** The date a report's name carries: the first ten characters of its file name. */
  function ReportDateCorrected(path: string): Option<Date> {
    var b := BaseName(path);
    if |b| >= 10 then ParseDate(b[..10]) else None
  }

  /** The window line 39 reads out of a mail report's name never starts with three digits, so it is no date. */
  lemma ShortIdentifierWindow(stamp: string, identifier: string)
    requires IsStampText(stamp) && |identifier| < 10
    ensures DateFromPath(ReportPath(stamp, identifier)) == None
  {
    var path := ReportPath(stamp, identifier);
    var n := |identifier|;
    assert |path| == 29 + n;
    var w := path[|path| - 14 .. |path| - 4];
    var p := (3 - n % 3) % 3;
    var q := 15 + n + p;
    assert q == 15 || q == 18 || q == 21 || q == 24;
    assert path[q] == '-' by {
      if q < 24 {
        assert path[q] == stamp[q - 5];
      } else {
        assert path[q] == ("temp/" + stamp + "-")[24];
      }
    }
    assert w[p] == path[q];
    assert !IsDigit(w[p]);
  }

  /**
   * Line 39 as written, on the names the mailbox scripts produce: the
   * ten characters it parses are the last ten of the identifier, and with
   * a shorter identifier there is no date at all. The sending date at the
   * head of the file name is never read.
   */
  lemma AsWrittenDateMissesStamp(stamp: string, identifier: string)
    requires IsStampText(stamp)
    ensures DateFromPath(ReportPath(stamp, identifier))
         == if |identifier| >= 10 then ParseDate(identifier[|identifier| - 10..]) else None
  {
    var path := ReportPath(stamp, identifier);
    if |identifier| >= 10 {
      assert path[|path| - 14 .. |path| - 4] == identifier[|identifier| - 10..];
    } else {
      ShortIdentifierWindow(stamp, identifier);
    }
  }

  /**
   * The report name of the color-counter test,
   * `temp/2023-06-22-19-54-27-A4FM021007478.txt`: line 39 reads
   * `M021007478` from it, so `strptime` raises.
   */
  lemma TestPathHasNoDate()
    ensures DateFromPath(ReportPath("2023-06-22-19-54-27", "A4FM021007478")) == None
  {
    var identifier := "A4FM021007478";
    TestStampIsStampText();
    AsWrittenDateMissesStamp("2023-06-22-19-54-27", identifier);
    assert identifier[|identifier| - 10..][0] == 'M';
  }

  /** The corrected reading dates the same file 22 June 2023, as the test expects. */
  lemma TestPathCorrectedDate()
    ensures ReportDateCorrected(ReportPath("2023-06-22-19-54-27", "A4FM021007478")) == Some(Date(2023, 6, 22))
  {
    var stamp, identifier := "2023-06-22-19-54-27", "A4FM021007478";
    TestStampIsStampText();
    assert '/' !in identifier;
    ReportDateOfName(stamp, identifier);
    assert stamp[..10] == "2023-06-22";
    TestDateParses();
  }

  lemma TestStampIsStampText()
    ensures IsStampText("2023-06-22-19-54-27")
  {
  }

  lemma TestDateParses()
    ensures ParseDate("2023-06-22") == Some(Date(2023, 6, 22))
  {
    var s := "2023-06-22";
    assert s[5..7] == "06" && s[8..] == "22";
    assert ParseMonth(s[5..7]) == Some(6);
    assert ParseDay(s[8..]) == Some(22);
    assert ValidDate(Date(2023, 6, 22));
  }

  /** The corrected reading parses the date part of the stamp a mail report is named after. */
  lemma ReportDateOfName(stamp: string, identifier: string)
    requires IsStampText(stamp) && '/' !in identifier
    ensures ReportDateCorrected(ReportPath(stamp, identifier)) == ParseDate(stamp[..10])
  {
    var name := stamp + "-" + identifier + ".txt";
    assert ReportPath(stamp, identifier) == "temp" + "/" + name;
    assert '/' !in name by {
      forall k | 0 <= k < |name| ensures name[k] != '/' {
        if k < 19 {
          assert name[k] == stamp[k];
          assert k == 4 || k == 7 || k == 10 || k == 13 || k == 16 || IsDigit(stamp[k]);
        } else if 20 <= k < 20 + |identifier| {
          assert name[k] == identifier[k - 20];
        }
      }
    }
    BaseNameAfterSlash("temp", name);
    assert name[..10] == stamp[..10];
  }

  /**
   * The corrected reading gives back the date of the stamp every mail
   * report is named after, whatever the identifier (without a `/`).
   */
  lemma ReportDateRoundTrip(t: Stamp, identifier: string)
    requires ValidStamp(t) && '/' !in identifier
    ensures ReportDateCorrected(ReportPath(FormatStamp(t), identifier)) == Some(t.date)
  {
    ReportDateOfName(FormatStamp(t), identifier);
    ParseFormatDate(t.date);
  }

  /**
   * Every report a POP pass writes ends in `.txt`, so the watcher hands
   * it to `process_file`, and holds at most 1000 characters.
   */
  lemma MailReportsPassFilter(st: PassState, mailbox: seq<PopMessage>)
    ensures var ws := PopPass(st, mailbox).writes;
      forall k :: |st.writes| <= k < |ws| ==> EndsWith(ws[k].path, ".txt") && |ws[k].text| <= MaxBodyLength
  {
    var ws := PopPass(st, mailbox).writes;
    PopOrigins(st, mailbox);
    forall k | |st.writes| <= k < |ws| ensures EndsWith(ws[k].path, ".txt") && |ws[k].text| <= MaxBodyLength {
      assert WrittenBy(mailbox, st.seen, ws[k]);
    }
  }
}
