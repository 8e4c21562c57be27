/**
 * Worked examples of a single row's step at a fixed instant,
 * 2024-03-11 09:30:00.25, with three templates of each kind and index 1
 * drawn for the row.
 */
module Scenarios {
  import opened Wrappers
  import opened Timestamp
  import opened Contacts
  import opened Scheduler

  const NOW: DateTime := DateTime(2024, 3, 11, 9, 30, 0, 250000)
  const CFG: Config := Config(3, 3)

  function Contact(initialSent: string): Row {
    Row(Text("a@x.com"), Text("Acme"), Text("Pune"), Text(initialSent), Text(""))
  }

  /** The contact stamped at the given date, 09:30:00. */
  function StampedOn(year: nat, month: nat, day: nat): Row {
    Contact(Format(DateTime(year, month, day, 9, 30, 0, 0)))
  }

  const NOW_TEXT: string := Format(NOW)

  /** The step for the contact stamped t, by the age of t. */
  lemma StepStamped(t: DateTime)
    requires Valid(t) && t.microsecond == 0
    ensures var row := Contact(Format(t));
      var r := StepRow(0, row, NOW, CFG, 1);
      match ByAge(Age(NOW, t))
      case SendInitial =>
        r == Done(Contact(NOW_TEXT), [Send(Initial, 0, "a@x.com", "Acme", "Pune", 1, [RESUME])])
      case SendFollowup =>
        r == Done(row.(followupSent := Text(NOW_TEXT)), [Send(Followup, 0, "a@x.com", "Acme", "Pune", 1, [])])
      case Skip =>
        r == Done(row, [])
  {
    var row := Contact(Format(t));
    assert Truncate(t) == t;
    DecideWritten(t, NOW);
    assert Str(row.initialSent) == Format(t);
    StepByDecision(0, row, NOW, CFG, 1);
    match ByAge(Age(NOW, t))
    case SendInitial =>
      assert row.(initialSent := Text(NOW_TEXT)) == Contact(NOW_TEXT);
    case SendFollowup =>
    case Skip =>
  }

  /** An empty stamp: one initial mail with the resume, and the stamp becomes now. */
  lemma NeverContactedScenario()
    ensures StepRow(0, Contact(""), NOW, CFG, 1)
         == Done(Contact(NOW_TEXT), [Send(Initial, 0, "a@x.com", "Acme", "Pune", 1, [RESUME])])
  {
    StepByDecision(0, Contact(""), NOW, CFG, 1);
  }

  /** Ten days old: one follow-up, followup_mail_sent becomes now, initial_mail_sent stays. */
  lemma TenDaysOldScenario()
    ensures StepRow(0, StampedOn(2024, 3, 1), NOW, CFG, 1)
         == Done(StampedOn(2024, 3, 1).(followupSent := Text(NOW_TEXT)),
                 [Send(Followup, 0, "a@x.com", "Acme", "Pune", 1, [])])
  {
    var t := DateTime(2024, 3, 1, 9, 30, 0, 0);
    assert Ordinal(NOW) == Ordinal(t) + 10;
    assert Age(NOW, t) == 10 * MICROS_PER_DAY + 250000;
    StepStamped(t);
  }

  /** Thirty days old (across the leap day of 2024): the initial mail is sent again. */
  lemma ThirtyDaysOldScenario()
    ensures StepRow(0, StampedOn(2024, 2, 10), NOW, CFG, 1)
         == Done(Contact(NOW_TEXT), [Send(Initial, 0, "a@x.com", "Acme", "Pune", 1, [RESUME])])
  {
    var t := DateTime(2024, 2, 10, 9, 30, 0, 0);
    assert DaysBeforeMonth(2024, 3) == DaysBeforeMonth(2024, 2) + 29;
    assert Ordinal(NOW) == Ordinal(t) + 30;
    assert Age(NOW, t) == 30 * MICROS_PER_DAY + 250000;
    StepStamped(t);
  }

  /** Two days old: nothing is sent and nothing changes. */
  lemma TwoDaysOldScenario()
    ensures StepRow(0, StampedOn(2024, 3, 9), NOW, CFG, 1) == Done(StampedOn(2024, 3, 9), [])
  {
    var t := DateTime(2024, 3, 9, 9, 30, 0, 0);
    assert Ordinal(NOW) == Ordinal(t) + 2;
    assert Age(NOW, t) == 2 * MICROS_PER_DAY + 250000;
    StepStamped(t);
  }

  /**
   * A stamp 21 days before now to the second is stale, because the clock's
   * quarter second makes the elapsed time exceed 21 days.
   */
  lemma TwentyOneDaysAndAFractionScenario()
    ensures StepRow(0, StampedOn(2024, 2, 19), NOW, CFG, 1)
         == Done(Contact(NOW_TEXT), [Send(Initial, 0, "a@x.com", "Acme", "Pune", 1, [RESUME])])
  {
    var t := DateTime(2024, 2, 19, 9, 30, 0, 0);
    assert DaysBeforeMonth(2024, 3) == DaysBeforeMonth(2024, 2) + 29;
    assert Ordinal(NOW) == Ordinal(t) + 21;
    assert Age(NOW, t) == RESEND_INITIAL_AFTER + 250000;
    StepStamped(t);
  }

  /** There is no 30 February: strptime raises and the pass aborts at this row. */
  lemma NonexistentDateScenario()
    ensures StepRow(0, StampedOn(2024, 2, 30), NOW, CFG, 1) == Fail(MalformedStamp)
  {
    StepByDecision(0, StampedOn(2024, 2, 30), NOW, CFG, 1);
    ParseFormat(DateTime(2024, 2, 30, 9, 30, 0, 0));
  }
}
