# Printer report ingestion, modelled in Dafny

Printers e-mail plain-text status reports. Two interchangeable mailbox
scripts (`mailparser_pop.py` over POP3, `mailparser_imap.py` over IMAP)
poll the mailbox, save each new report as `temp/<YYYY-MM-DD-HH-MM-SS>-<identifier>.txt`
and remember the message ids they saved in the ledger file
`temp/saved_message_ids.txt`, one `<id> __ <date>` line per message. A
watcher (`databroker.py`) is called for every `.txt` file that changes in
that directory; it dates the file from its name, extracts the counters and
the error text, looks the printer up by serial number and inserts at most
one `print_history` row and at most one `service_requests` row.

The project models these three components:

- `text.dfy` (module `Text`): the Python string behaviour the scripts rely
  on: `str.strip` with the full `str.isspace` set, `re.search(MARKER(.+))`
  and `(.*)` with the leftmost match and a group that stops at the line
  break, line iteration over a file, `str.endswith`, and `s[-14:-4]` with
  Python's clamping.
- `dates.dfy` (module `Dates`): `strptime(s, '%Y-%m-%d')` (a four-digit
  year, a month of one or two digits, a day of one or two digits or a
  blank and a digit, the whole text used up, the day must exist), `strftime('%Y-%m-%d')` and the
  `%Y-%m-%d-%H-%M-%S` stamp.
- `databroker.dfy` (module `Databroker`): the `printers`, `print_history`
  and `service_requests` tables as a class `Database`, with
  `process_file` as the method `ProcessFile` and `on_modified` as
  `OnModified`; each is proved against the functions `DateFromPath`,
  `CounterRow` and `ServiceRow`, whose meaning the lemmas state.
- `mail_common.dfy` (module `MailCommon`): the spool directory as a class
  `Spool` (the ledger text and the report files), the identifier choice,
  the report name, the ledger line format and how the ledger reads back.
- `mail_pop.dfy` and `mail_imap.dfy` (modules `MailPop`, `MailImap`): one
  polling cycle of each script as a method that walks the mailbox with a
  loop, proved equal to a message-by-message specification (`PopPass`,
  `ImapPass`); lemmas state the filters, the dedup discipline within a
  cycle and what happens across cycles.
- `pipeline.dfy` (module `Pipeline`): how the report names the scripts
  write meet the date reading of `databroker.py`.

Exceptions end a cycle: in the POP script the `except` clause of the outer
loop catches them (what was written stays, the cycle is `Aborted`); the
IMAP script has no handler, so its thread ends, which the model also
reports as `Aborted`. The POP script's `date_sent_str` is a local of
`run_script` that keeps its value from message to message and from cycle
to cycle; the model threads it through as `lastDate`.

Where the tests expect otherwise than the code does, the model follows the
code and states the code's behaviour as a lemma:
`unittests_bw.py` expects `"0"` as the color counter of a report without a
color line, and `process_file` stores NULL (`TotalOnlyReportHasNullColor`);
`unittest_service.py` expects a `SELECT ... times_happend` aggregation
query that `process_file` never issues, so a repeated error report adds a
second row (`RepeatedErrorReport`).

## Model

| member | source | states |
|---|---|---|
| Text.StripSpec | databroker.py:44 | `strip()` yields the slice of the text from its first non-blank character, all text cut away is whitespace, the result neither starts nor ends with whitespace, and it is empty exactly when the text is all whitespace |
| Text.StripIdempotent | databroker.py:44 | stripping a stripped value changes nothing |
| Text.StripKeepsOut | mailparser_example_scripts/mailparser_pop.py:73 | a stripped value holds no character its source did not hold (no line break can enter an identifier) |
| Text.LineEnd | databroker.py:42 | the group of `(.+)` ends at the first line break after the marker, or at the end of the text |
| Text.FirstMatch | databroker.py:42 | `re.search` takes the leftmost position where the marker is followed by the group, and no earlier position matches |
| Text.Search | databroker.py:42 | the pattern finds a group exactly when the marker occurs with a non-break character after it (`(.+)`) or at all (`(.*)`); the group holds no line break and is non-empty for `(.+)` |
| Text.SearchAt | databroker.py:42-44 | at the leftmost match the group is the rest of that line |
| Text.Field | databroker.py:42-44 | the stripped group exists exactly when the pattern matches, holds no line break and is already stripped |
| Text.SliceFromEnd | databroker.py:39 | `s[-14:-4]` is the ten characters before the last four when the text is long enough, and shorter than ten characters otherwise |
| Text.LinesAppend | mailparser_example_scripts/mailparser_pop.py:43-44 | the lines of a file that ends with a line break, followed by more text, are its lines followed by the lines of the added text |
| Dates.ParseDate | databroker.py:39 | `strptime(.., '%Y-%m-%d')`: four digits, `-`, a month written `1[0-2]`, `0[1-9]` or `[1-9]`, `-`, a day written `3[01]`, `[12]` and a digit, `0[1-9]`, `[1-9]` or a blank and `[1-9]`, using up the whole text (so 8 to 10 characters), naming an existing day; anything else is the `ValueError` |
| Dates.MonthSpelled | databroker.py:39 | a month text parses to `m` exactly when it is `m` in two digits or, below ten, in one |
| Dates.DaySpelled | databroker.py:39 | a day text parses to `d` exactly when it is `d` in two digits or, below ten, one digit or a blank and a digit |
| Dates.SpellingIsParsed | databroker.py:39 | every spelling of a valid date parses back to that date |
| Dates.ParseFormatDate | databroker.py:39 | every valid date, formatted `%Y-%m-%d`, parses back to itself |
| Dates.FormatParseDate | databroker.py:39 | every text that parses is one of the spellings of the date it gives (year in four digits, month zero-padded or unpadded, day zero-padded, unpadded or blank-padded), and so is that date's formatted form |
| Dates.FormatStamp | mailparser_example_scripts/mailparser_pop.py:68 | the formatted send time has the `YYYY-MM-DD-HH-MM-SS` shape and starts with the formatted date |
| Databroker.DateFromPathSpec | databroker.py:39 | the date is read from the ten characters before the last four of the path; a shorter path is read from everything before its last four characters, and a path under twelve characters gives none |
| Databroker.ShortPathDate | databroker.py:39 | the twelve-character path `2023-6-1.txt` is dated 1 June 2023 |
| Databroker.DateFromPath | databroker.py:39 | the report date is `path[-14:-4]` with Python's clamping, parsed as `ParseDate` states; a date exists only for a path of at least twelve characters and is a valid day |
| Databroker.PathDateRoundTrip | databroker.py:39 | a path ending in a formatted date and a four-character extension gives that date back |
| Databroker.SelectCounters | databroker.py:51-56 | the counters: black from `[Total Black Counter],` or else `[Total Counter],`, color from `[Total Color Counter],` only, each the stripped `(.+)` value; none when no counter marker has a value |
| Databroker.CounterRow | databroker.py:42-61 | the `print_history` row a report yields for a date, as `CounterRowSpec` states |
| Databroker.ServiceRow | databroker.py:64-79 | the `service_requests` row a report yields, as `ServiceRowSpec` states |
| Databroker.CounterRowSpec | databroker.py:41-61 | a counter row exists exactly when the serial names a printer under contract and some counter marker has a value; it holds that printer's id, the file date, the black counter or else the total, and the color counter |
| Databroker.ServiceRowSpec | databroker.py:63-80 | a service row exists exactly when the installed place names a known printer and an error value is present; it holds the printer's id and tax id and the error text |
| Databroker.TotalOnlyReportHasNullColor | unittests_bw.py:29-30 | a report with a total counter and no black or color line stores the total as black and NULL as color (the test expects `"0"`) |
| Databroker.Database.ProcessFile | databroker.py:24-83 | an unparseable file date changes nothing; otherwise `print_history` gains exactly the counter row and `service_requests` exactly the service row, independently |
| Databroker.Database.RecordCounters | databroker.py:41-61 | the counter branch appends the counter row when there is one and nothing else |
| Databroker.Database.RecordServiceRequest | databroker.py:63-80 | the error branch appends the service row when there is one and nothing else |
| Databroker.Database.OnModified | databroker.py:17-22 | a path not ending in `.txt` changes nothing; a `.txt` path is processed as `ProcessFile` states |
| Databroker.RepeatedErrorReport | unittest_service.py:32-35 | the same error report processed twice inserts its service row twice: no earlier request is looked up |
| MailCommon.ChooseIdentifier | mailparser_example_scripts/mailparser_pop.py:70-77 | the identifier holds no line break and is stripped |
| MailCommon.IdentifierFromSerial | mailparser_example_scripts/mailparser_pop.py:70-73 | with a `[Serial Number], ` tag the identifier is the stripped rest of its first line |
| MailCommon.IdentifierFromPlace | mailparser_example_scripts/mailparser_pop.py:71-75 | without a serial tag, the stripped rest of the first `Installed Place :` line |
| MailCommon.IdentifierUnknown | mailparser_example_scripts/mailparser_pop.py:76-77 | with neither tag, `unknown` |
| MailCommon.ReportPath | mailparser_example_scripts/mailparser_pop.py:79 | every report name ends in `.txt` |
| MailCommon.LedgerLine | mailparser_example_scripts/mailparser_pop.py:82 | the ledger line of a record: its id, ` __ `, its formatted date and a line break |
| MailCommon.RenderLines | mailparser_example_scripts/mailparser_pop.py:82 | the ledger text a cycle appends reads back as one line per record, in record order, when no field holds a line break |
| MailCommon.ApplyUntouched | mailparser_example_scripts/mailparser_pop.py:79-80 | a report file no write goes to keeps its presence and its text |
| MailCommon.ApplyLastWrite | mailparser_example_scripts/mailparser_pop.py:79-80 | a report file holds the text of the last write that went to it (`open(path, 'w')` replaces) |
| MailCommon.LoadLedger | mailparser_example_scripts/mailparser_pop.py:41-44 | the loaded set is the stripped lines of the ledger file, empty when the file is absent; every entry is already stripped |
| MailCommon.RecordKeeps | mailparser_example_scripts/mailparser_pop.py:82-83 | recording an id that is not in the set keeps the ledger discipline |
| MailCommon.LedgerLineLines | mailparser_example_scripts/mailparser_pop.py:82 | a ledger line is one line of the file |
| MailCommon.StrippedLineIsNotId | mailparser_example_scripts/mailparser_pop.py:44 | a ledger line read back and stripped is never the bare id it was written for |
| MailCommon.LoadAppendLine | mailparser_example_scripts/mailparser_pop.py:42-44 | reading back a ledger with one more line adds that line's stripped text to the set |
| MailCommon.ReloadAfterPass | mailparser_example_scripts/mailparser_pop.py:41-46 | reading back the ledger after a cycle gives the old set plus the stripped lines the cycle wrote |
| MailCommon.ReloadMissesRecordedId | mailparser_example_scripts/mailparser_pop.py:44 | after a line is written for an id, the reloaded set holds that id exactly when it held it before |
| MailCommon.IdPartOfLedgerLine | mailparser_example_scripts/mailparser_pop.py:82 | the text before the first ` __ ` of a ledger line is its id, for an id without blanks |
| MailCommon.LoadIdsAppendLine | mailparser_example_scripts/mailparser_pop.py:44 | read back as ids, a ledger with one more line holds exactly one more id, the one written |
| MailCommon.LoadIdsAfterPass | mailparser_example_scripts/mailparser_pop.py:41-46 | read back as ids, the ledger after a cycle holds the old ids plus exactly the ids the cycle recorded, for ids without blanks or line breaks |
| MailCommon.LoadIds | mailparser_example_scripts/mailparser_pop.py:44 | the corrected reading of the ledger: the set of ids before the first ` __ ` of each line |
| MailPop.PopCycle | mailparser_example_scripts/mailparser_pop.py:33-85 | the loop leaves the spool, the outcome and the send date as the message-by-message specification does; an empty mailbox leaves the ledger untouched |
| MailPop.PopPass | mailparser_example_scripts/mailparser_pop.py:47 | the pass folds `PopStep` over the mailbox in order |
| MailPop.PopStep | mailparser_example_scripts/mailparser_pop.py:48-83 | one message: skipped when aborted, when its id is in the set or when multipart; otherwise its body is saved as `SavePart` says, then the line `<id> __ <date>` is recorded under the bound date and the id added, and a missing id or date raises |
| MailPop.SavePart | mailparser_example_scripts/mailparser_pop.py:57-80 | a single-part text/plain body of at most 1000 characters is written to `temp/<date>-<identifier>.txt` and binds the date; a body over 1000 characters or of another type writes nothing and leaves the date; an unparseable date raises |
| MailPop.PopCycleCorrected | mailparser_example_scripts/mailparser_pop.py:33-85 | the cycle with the ledger read back as ids (`LoadIds`) instead of whole lines |
| MailPop.HandleMessage | mailparser_example_scripts/mailparser_pop.py:52-83 | one message changes the spool, the id set and the send date exactly as one specification step does |
| MailPop.PopSkipsSeen | mailparser_example_scripts/mailparser_pop.py:52 | a message whose id is already in the set writes no report and no ledger line and leaves the state as it was |
| MailPop.PopAbortedStays | mailparser_example_scripts/mailparser_pop.py:87-89 | once an exception is raised, no later message of the cycle is handled |
| MailPop.PopStepShape | mailparser_example_scripts/mailparser_pop.py:52-83 | a message adds at most its own report, only when saveable and its id is missing or not in the set, and at most one ledger record, for its own id when that is not in the set, never for a multipart message; the set only grows |
| MailPop.PopPassExtends | mailparser_example_scripts/mailparser_pop.py:47-83 | a pass only appends to what was recorded and written before |
| MailPop.PopOrigins | mailparser_example_scripts/mailparser_pop.py:52-64 | every report written is that of a single-part text/plain message of at most 1000 characters in the mailbox whose id is missing or was not in the set at the start of the pass, and every ledger record carries the id of a single-part message of the mailbox |
| MailPop.PopStepRecorded | mailparser_example_scripts/mailparser_pop.py:52 | one step keeps the ledger discipline |
| MailPop.PopPassRecorded | mailparser_example_scripts/mailparser_pop.py:47-83 | a pass keeps the ledger discipline |
| MailPop.PopCycleRecordsDistinct | mailparser_example_scripts/mailparser_pop.py:41-83 | within a cycle every appended ledger line is for an id not loaded at its start, and no id gets two lines |
| MailPop.NewMessages | mailparser_example_scripts/mailparser_pop.py:52-55 | the new messages of a mailbox are saveable messages of that mailbox whose ids were not loaded |
| MailPop.PopSavesNewMessages | mailparser_example_scripts/mailparser_pop.py:47-83 | on a mailbox where every message has an id and every single-part one is a saveable text/plain body, a pass writes and records exactly the single-part messages whose ids are neither loaded nor repeated from an earlier single-part message, in mailbox order and each under its own date; it does not abort, the set gains the single-part ids, and the date left bound is the last saved message's |
| MailPop.PopLongBodyRecorded | mailparser_example_scripts/mailparser_pop.py:62-64 | a body over 1000 characters is not saved but its id is still recorded, under the date an earlier message left, and the cycle aborts when there is none |
| MailPop.PopUnsavedBodyRecorded | mailparser_example_scripts/mailparser_pop.py:57-64 | anywhere in a pass, a new single-part message over 1000 characters or not text/plain writes no report and is recorded under the date the last saved message left, in this pass or an earlier cycle; with none bound the pass aborts |
| MailPop.PopRepeatsAcrossCycles | mailparser_example_scripts/mailparser_pop.py:44 | a message still on the server at the next cycle has its report written again (the second cycle's write log is that report) and its ledger line appended a second time |
| MailPop.PopNoRepeatCorrected | mailparser_example_scripts/mailparser_pop.py:44 | with the ledger read back as ids, the next cycle over the same message writes no report and leaves the ledger and reports unchanged |
| MailPop.PopCorrectedSkipsRecorded | mailparser_example_scripts/mailparser_pop.py:44 | with the ledger read back as ids, whatever the next cycle's mailbox holds, no id the previous cycle recorded is recorded again and no report is written for a message carrying such an id |
| MailPop.OneMessage | mailparser_example_scripts/mailparser_pop.py:52-83 | a cycle over one new saveable message writes exactly its report, appends its ledger line and leaves its date bound |
| MailImap.ImapCycle | mailparser_example_scripts/mailparser_imap.py:31-67 | the loop leaves the spool and the outcome as the message-by-message specification does; the ledger is created even for an empty inbox |
| MailImap.ImapPass | mailparser_example_scripts/mailparser_imap.py:40 | the pass folds `ImapStep` over the inbox in UID order |
| MailImap.ImapStep | mailparser_example_scripts/mailparser_imap.py:44-67 | one message: skipped when aborted or when its id is in the set; an unparseable date raises before the write; the report is written, then a missing id raises, else the line is recorded and the id added |
| MailImap.HandleImapMessage | mailparser_example_scripts/mailparser_imap.py:44-67 | one message changes the spool and the id set exactly as one specification step does |
| MailImap.ImapAbortedStays | mailparser_example_scripts/mailparser_imap.py:50-51 | once an exception is raised, no later message is handled |
| MailImap.NewMessages | mailparser_example_scripts/mailparser_imap.py:46 | the new messages of an inbox are messages of that inbox whose ids were not loaded |
| MailImap.ImapSavesNewMessages | mailparser_example_scripts/mailparser_imap.py:40-67 | on an inbox where every message has an id and a date, the cycle records and writes exactly the messages whose ids are neither loaded nor repeated from earlier in the inbox, in inbox order, and adds all inbox ids to the set |
| MailImap.ImapStepRecorded | mailparser_example_scripts/mailparser_imap.py:46 | one step keeps the ledger discipline |
| MailImap.ImapPassRecorded | mailparser_example_scripts/mailparser_imap.py:40-67 | within a cycle every appended line is for an id not loaded, and no id gets two lines |
| MailImap.ImapStepShape | mailparser_example_scripts/mailparser_imap.py:46-64 | a message adds at most its own report, only when dated and its id is missing or not in the set; the set only grows |
| MailImap.ImapPassExtends | mailparser_example_scripts/mailparser_imap.py:40-67 | a pass only appends to what was written before |
| MailImap.ImapOrigins | mailparser_example_scripts/mailparser_imap.py:46-64 | on any inbox, every report a pass writes is that of a dated inbox message whose id is missing or was not in the set at the start |
| MailImap.ImapRepeatsAcrossCycles | mailparser_example_scripts/mailparser_imap.py:37 | as in the POP script, a message still in the inbox at the next cycle has its report written again and its ledger line appended again |
| MailImap.ImapOneMessage | mailparser_example_scripts/mailparser_imap.py:46-67 | a cycle over one new message with both headers writes exactly its report and appends its ledger line |
| Pipeline.AsWrittenDateMissesStamp | databroker.py:39 | on a mail report's name the date is read from the last ten characters of the identifier, or not at all when the identifier is shorter; the send date is never read |
| Pipeline.ShortIdentifierWindow | databroker.py:39 | with an identifier shorter than ten characters the ten characters read always hold a dash among the year digits |
| Pipeline.TestPathHasNoDate | unittests_color.py:33 | the test's report name gives no date as written |
| Pipeline.TestPathCorrectedDate | unittests_color.py:46-47 | read from the head of the file name, the same report is dated 22 June 2023, as the test expects |
| Pipeline.ReportDateCorrected | databroker.py:39 | the corrected reading: the date is the first ten characters of the file name, after the last `/` |
| Pipeline.ReportDateOfName | mailparser_example_scripts/mailparser_pop.py:79 | read from the head of the file name, a report's date is the date part of its send stamp |
| Pipeline.ReportDateRoundTrip | databroker.py:39 | read from the head of the file name, every mail report is dated with the day it was sent |
| Pipeline.MailReportsPassFilter | databroker.py:19 | every report the POP script writes ends in `.txt`, so the watcher processes it, and holds at most 1000 characters |

## Left out

- Network access (POP3, IMAP, SMTP), logins, `.env` settings and the
  `printer_models.json` read: a mailbox is a parameter, a sequence of
  messages as the loop sees them.
- MIME decoding and `parsedate_to_datetime`: a message carries its decoded
  body and its already formatted send stamp (`None` when the header is
  missing or unparseable); the exact `strftime` text of a parsed date is
  not modelled beyond its shape.
- `walk()` over multipart messages: multipart messages are skipped before
  the walk, so only a single-part message's own content type matters.
- MySQL: the connection, commits, string collation of `serial_number`, and
  duplicate serial numbers (the lookup is a map from serial to printer).
  `DictCursor` rows are read by position in the source; the model reads
  the fields the queries name.
- The watchdog observer, the threads, the sleeps and the retry loops
  around each cycle; a cycle is one call.
- File-system failures (an unwritable `temp/`, a name containing `/`
  from an identifier): writes always succeed. Reading a report file back
  is outside the model; `ProcessFile` receives its text.
- Unicode digits accepted by `\d` in `strptime`, and years below 1000
  (written without padding by some platforms): only ASCII digits and
  four-digit years are modelled.
- Universal-newline translation of `\r` and `\r\n` when a file is read
  in text mode (either ends a line for `for line in f`, and so ends a
  `(.+)` group in text read that way): the text is taken as read, and
  only `\n` ends a line.
- MailCommon.LoadIds: an id holding a blank or a line break does not read
  back as itself, so the lemmas about the id reading
  (`LoadIdsAfterPass`, `PopCorrectedSkipsRecorded`) require ids without
  them. The msg-id token of section 3.6.4 of RFC 5322 holds neither, but
  that section allows blanks and folding around it, and a header value
  keeping them would defeat `LoadIds`.
- `app.py` is not part of this model.

## Findings

| source | as written | input that shows it | evidently intended | confidence | as-written member | corrected member |
|---|---|---|---|---|---|---|
| databroker.py:39 | the date is parsed from `file_path[-14:-4]`, the ten characters before `.txt` | `temp/2023-06-22-19-54-27-A4FM021007478.txt` (the name the scripts write and the test uses): the slice is `M021007478` and `strptime` raises | the send date at the head of the file name, `2023-06-22` | high; not executed | Pipeline.AsWrittenDateMissesStamp | Pipeline.ReportDateRoundTrip |
| mailparser_example_scripts/mailparser_pop.py:44 | the ledger is read back as whole stripped lines `<id> __ <date>` and compared with bare message ids (the same at mailparser_example_scripts/mailparser_imap.py:37) | a message with id `<a@b>` saved in one cycle and still on the server at the next: it is saved and recorded again | ids saved in earlier cycles are recognised | high; not executed | MailPop.PopRepeatsAcrossCycles | MailPop.PopCorrectedSkipsRecorded |

`Databroker.Database.ProcessFile` and the mailbox cycles keep the
behaviour as written; the corrected readings are `Pipeline.ReportDateCorrected`
and `MailCommon.LoadIds` (used by `MailPop.PopCycleCorrected`, whose
cross-cycle dedup `MailPop.PopCorrectedSkipsRecorded` states).
