# Recruiting-mail scheduler

This models the scheduling core of the email automation script
`email_automation/code.py`. The script loads a contact table from a
spreadsheet. The columns it uses are `email`, `company`, `location`,
`initial_mail_sent` and `followup_mail_sent`. It replaces missing cells and
the text `"NA"` by the empty string. Then it walks the rows in order, and for
each row:

- it draws a template index in `0 .. len(EMAIL_TEMPLATES) - 1`;
- if `initial_mail_sent` is empty, or is more than 21 days old, it sends the
  initial mail with the resume attached and stamps `initial_mail_sent` with
  the current time;
- otherwise, if the stamp is more than 7 days old, it sends a follow-up with
  the same index and stamps `followup_mail_sent`;
- otherwise it does nothing.

An empty table ends the run before any of this.

The Dafny project is organised as follows:

- `wrappers.dfy` holds `Option`.
- `timestamp.dfy` holds naive date-times, the text form `"%Y-%m-%d %H:%M:%S"` written by `strftime` and read by `strptime`, and elapsed time in microseconds, the resolution of `timedelta`.
- `contacts.dfy` holds cells, rows and the NA/missing normalisation, done in place on an array of rows.
- `scheduler.dfy` holds:
  - the per-row decision and step;
  - the pass as a function (`Pass`);
  - the in-place loop over an `array<Row>` (`SchedulePass`), which is proved to compute `Pass`;
  - one whole run (`RunOnce`).
- `scheduler_properties.dfy` holds what a pass guarantees, proved about `Pass`.
- `scenarios.dfy` holds worked single-row examples at a fixed instant.

Mail delivery is a log of `Send` events. Each event names the row it was sent
for, the recipient, company, location, template index and attachments.

Three exceptions of the script end the run at the row that raises them. The
model represents each as an `Aborted(row, reason)` status:

- `randint(0, -1)` raises when there is no initial template;
- `strptime` rejects a non-empty stamp that does not parse;
- `FOLLOWUP_TEMPLATES[idx]` raises only on a follow-up row whose drawn index is at or past the end of the follow-up list.

Rows before the aborting row keep their updates; the aborting row and the
rows after it are unchanged.

Three facts of the code shape the model:

- `main()` never calls `write_to_spreadsheet`, so the updated stamps live only
  in memory for the rest of the run.
- Each run therefore decides every row again from the unchanged sheet, as if
  the previous run's mails had not been sent: an empty or stale stamp gets the
  initial mail again, and a stamp still 7 to 21 days old gets another
  follow-up. The second-pass lemmas below are about a pass over the table a
  pass leaves in memory, as if it were written back.
- `main()` always passes `row["location"]`, so the `"India"` default of the
  send methods never applies, even where the cell was missing or `"NA"` and so
  became the empty string.

## Model

| member | source | states |
|---|---|---|
| Timestamp.Age | email_automation/code.py:138 | now minus a stamp in microseconds; against the stamp written from the same instant it is the sub-second part of now |
| Timestamp.AgeOrder | email_automation/code.py:138 | on valid date-times, now - stamp is positive exactly when stamp is earlier in datetime's order, and zero exactly when they are equal |
| Timestamp.OrdinalOrder | email_automation/code.py:138 | an earlier calendar date (across months, leap days and years) has a smaller day number |
| Timestamp.NextDayAge | email_automation/code.py:138 | the next calendar day, across month ends, 29 February and 31 December, has day number one more, so the same time on it is exactly one day later |
| Timestamp.MonthsMakeYear | email_automation/code.py:138 | the twelve month lengths add up to 365, or 366 in a leap year |
| Timestamp.Format | email_automation/code.py:146 | strftime writes exactly 19 characters |
| Timestamp.PadValue | email_automation/code.py:146 | a zero-padded field is all digits and reads back as the number written |
| Timestamp.ValuePad | email_automation/code.py:138 | every digit string is the zero-padded form of its value |
| Timestamp.Parse | email_automation/code.py:138 | a successful strptime yields a valid date-time (real month lengths, leap years) with no sub-second part |
| Timestamp.ParseFormat | email_automation/code.py:138-146 | reading back a written stamp gives the time written minus its sub-second part; the text of an impossible date is rejected |
| Timestamp.FormatParse | email_automation/code.py:138-146 | every text that parses is exactly the written form of its value |
| Timestamp.FormatInjective | email_automation/code.py:146 | two valid times with the same text agree up to the sub-second part |
| Contacts.NormalizeCell | email_automation/code.py:132-133 | the result is never missing and never "NA"; other text is kept; the cell's text is "" exactly where it was missing, "NA" or already empty |
| Contacts.NormalizeRow | email_automation/code.py:132-133 | every cell of the row is normalised; each cell already holding text other than "NA" is kept and every other cell becomes ""; a normalised row is kept |
| Contacts.NormalizeTable | email_automation/code.py:132-133 | same length, every row normalised; in every row, each cell already holding text other than "NA" is kept and every other cell becomes ""; a normalised table is kept |
| Contacts.Normalize | email_automation/code.py:132-133 | the array in place ends up as NormalizeTable of its old contents |
| Contacts.NormalizeIdempotent | email_automation/code.py:132-133 | normalising twice is normalising once |
| Scheduler.Decide | email_automation/code.py:138-147 | it is undefined (an abort) exactly for a non-empty stamp that does not parse; an empty stamp means the initial mail |
| Scheduler.DecideWritten | email_automation/code.py:138-147 | on a stamp the script wrote, the decision depends only on its age: over 21 days initial, over 7 days follow-up, else nothing |
| Scheduler.StepRow | email_automation/code.py:137-154 | a row's step sends at most one mail, and only for that row |
| Scheduler.FirstFailure | email_automation/code.py:136-154 | the stopping row: every row before it completes its step, and it is the end of the table or a row that aborts |
| Scheduler.Pass | email_automation/code.py:136-154 | the table keeps its length; the pass completes exactly when no row aborts, and an abort names the first aborting row |
| Scheduler.ProcessRow | email_automation/code.py:137-154 | the in-place iteration does what StepRow says to row i and touches no other row; an aborting row is left unchanged |
| Scheduler.SchedulePass | email_automation/code.py:136-154 | the loop leaves in the array exactly Pass's table, returns its log and status |
| Scheduler.RunOnce | email_automation/code.py:128-154 | an empty table sends nothing and reports no data; otherwise the result is Pass on the normalised table |
| SchedulerProperties.PassLogInTableOrder | email_automation/code.py:136-154 | mails go out in strictly increasing row order, only for rows the pass reached |
| SchedulerProperties.NeverContactedGetsInitial | email_automation/code.py:138-146 | an empty initial stamp gets exactly one initial mail, and only initial_mail_sent changes, to now |
| SchedulerProperties.StaleInitialIsRestarted | email_automation/code.py:138-146 | a stamp older than 21 days gets exactly one initial mail, and only initial_mail_sent changes, to now |
| SchedulerProperties.AwaitingFollowupGetsFollowup | email_automation/code.py:147-154 | a stamp more than 7 and at most 21 days old gets exactly one follow-up, and only followup_mail_sent changes, to now |
| SchedulerProperties.RecentlyContactedIsSkipped | email_automation/code.py:138-154 | a stamp at most 7 days old gets no mail and its row does not change |
| SchedulerProperties.ThresholdsAreStrict | email_automation/code.py:138-147 | a stamp exactly 21 days old is followed up, not restarted; one exactly 7 days old is left alone |
| SchedulerProperties.StepEffect | email_automation/code.py:137-154 | a completed step leaves the row as it was, or stamps only initial_mail_sent with the initial mail, or stamps only followup_mail_sent with the follow-up; a follow-up needs a non-empty initial stamp, which it keeps |
| SchedulerProperties.RowEffects | email_automation/code.py:136-154 | each reached row's mails and new cells are one of those three effects; rows after an abort are untouched and get no mail; at most one mail per row |
| SchedulerProperties.FollowupOnlyAfterInitial | email_automation/code.py:147-154 | a follow-up is sent, or followup_mail_sent written, only for a row whose initial stamp was already set, and that stamp is kept |
| SchedulerProperties.CompletedPassContactsEveryone | email_automation/code.py:136-146 | after a completed pass every row has a non-empty initial_mail_sent |
| SchedulerProperties.PassKeepsNormalized | email_automation/code.py:132-154 | a pass over a normalised table leaves it normalised |
| SchedulerProperties.TemplateIndicesInRange | email_automation/code.py:137-154 | every mail uses its row's drawn index, within the initial templates; a follow-up's index is also within the follow-up templates and has no attachment; an initial mail has exactly the resume |
| SchedulerProperties.StepMails | email_automation/code.py:137-154 | the mails of one step carry the drawn index and the attachments of their kind |
| SchedulerProperties.SendsForContains | email_automation/code.py:136-154 | every mail of a log is among the mails for its own row |
| SchedulerProperties.EmptyTemplateListSendsNothing | email_automation/code.py:137 | with no initial template the pass aborts at the first row, sends nothing and changes nothing |
| SchedulerProperties.MalformedStampAborts | email_automation/code.py:138 | an unparseable non-empty stamp aborts the pass at that row or earlier, leaving every later row untouched |
| SchedulerProperties.StepIgnoresFollowup | email_automation/code.py:147-154 | the step does not depend on the row's followup_mail_sent |
| SchedulerProperties.FollowupStampIgnored | email_automation/code.py:147-154 | whatever followup_mail_sent holds, a pass sends the same mails and ends the same way |
| SchedulerProperties.StepTwice | email_automation/code.py:137-154 | a step at the same instant on the row a completed step leaves in memory, as if it were written back (the script does not write it back), changes nothing, provided the row, if followed up, draws an index within the follow-up templates; it sends a follow-up again exactly where the first sent one |
| SchedulerProperties.SecondPassRow | email_automation/code.py:136-154 | row by row, a pass at the same instant over the table a completed pass leaves in memory, as if it were written back (the script does not write it back), completes its step unchanged, provided the row, if followed up, draws an index within the follow-up templates, and repeats only the follow-up |
| SchedulerProperties.SecondPassAtSameInstant | email_automation/code.py:136-154 | a pass at the same instant over the table a completed pass leaves in memory, as if it were written back (the script does not write it back), completes provided each row followed up draws an index within the follow-up templates, changes no cell, sends no initial mail, and follows up again exactly the rows just followed up |
| Scenarios.NeverContactedScenario | email_automation/code.py:138-146 | an empty stamp gets the initial mail with the resume, and the stamp becomes now |
| Scenarios.TenDaysOldScenario | email_automation/code.py:147-154 | a ten-day-old stamp gets a follow-up without attachment, and followup_mail_sent becomes now |
| Scenarios.ThirtyDaysOldScenario | email_automation/code.py:138-146 | a thirty-day-old stamp, across the leap day of 2024, gets the initial mail again |
| Scenarios.TwoDaysOldScenario | email_automation/code.py:136-154 | a two-day-old stamp gets nothing |
| Scenarios.TwentyOneDaysAndAFractionScenario | email_automation/code.py:138-146 | a stamp 21 days old to the second is stale because the clock's sub-second part counts |
| Scenarios.NonexistentDateScenario | email_automation/code.py:138 | a stamp for 30 February aborts |

## Left out

- OAuth credential loading and token storage (lines 20-34) are left out. They are file I/O and foreign authentication libraries.
- MIME construction and the Gmail call (lines 37-67) are left out. Mail delivery becomes a `Send` event carrying the requested attachments.
- Because delivery is only an event, two behaviours of `__send_email` are not modelled: a missing attachment file is skipped, and a transport `HttpError` is caught and printed. In both cases the script still writes the stamp, as the model does.
- An exception other than `HttpError` from the mail request (a connection error, a timeout, a failed credential refresh), or one from opening an attachment, is not caught and ends the run. It ends it before the row's stamp is written, possibly after the mail went out. In the model every send returns and the row is stamped; these transport failures are not modelled.
- Template rendering (lines 69-94) is left out. The subject and body are `str.format` over external template data. The model keeps the template index and the recipient, company and location passed to it. Indexing `FOLLOWUP_TEMPLATES` past its end is modelled as the abort `FollowupTemplateMissing`.
- Reading and writing the spreadsheet (lines 96-122) are left out. They are network I/O, and `main()` never writes the table back. A read failure that returns an empty frame is the `NoData` case of `RunOnce`.
- Console output (`print`, `data.head()`) is left out.
- The clock is read once per pass, as `now`. The script calls `datetime.now()` afresh for each comparison and each stamp. Those readings are separated by the blocking mail requests of the rows before, so later rows and their stamps see a later time, possibly minutes later. The model gives every row and stamp of a pass the same instant.
- The random draws are parameters (`choices`), one per row, each within the initial template range.
- Scheduler.Decide: `Parse` accepts only the zero-padded 19-character form the script writes, in ASCII digits. Python's `strptime` also accepts unpadded fields and extra whitespace. Its pattern uses `\d` without `re.ASCII`, and `int()` takes any Unicode decimal digit, so it also reads non-ASCII digits. Such stamps abort in the model but would be read by the script.
- Timestamp.Parse: accepts only ASCII digits in the zero-padded 19-character form. Stamps with unpadded fields, extra whitespace or non-ASCII Unicode decimal digits, which `strptime` reads, are rejected.
- Timestamp.Format: years below 1000 are written zero-padded to four digits. Some C libraries write them unpadded. Python's `datetime` year range is 1 to 9999.
- The model assumes the table has the five columns used, each cell missing or text. In the script a missing `initial_mail_sent` raises at the first row; a missing `email`, `company` or `location` raises at the first row sent a mail; and a missing `followup_mail_sent` is created by the first follow-up, since `data.at` adds a missing column. These cases, and cells that are not text, are not modelled.
