/**
 * What one scheduling pass guarantees, stated over the pass function
 * Scheduler.Pass that SchedulePass is proved to compute.
 */
module SchedulerProperties {
  import opened Wrappers
  import opened Timestamp
  import opened Contacts
  import opened Scheduler

  /** The mails of a log that were sent for row j, in log order. */
  function SendsFor(log: seq<Send>, j: nat): seq<Send> {
    if log == [] then []
    else
      var last := log[|log| - 1];
      SendsFor(log[..|log| - 1], j) + (if last.index == j then [last] else [])
  }

  /** Every mail of the log is for a strictly later row than the one before it. */
  predicate InTableOrder(log: seq<Send>) {
    forall m, n :: 0 <= m < n < |log| ==> log[m].index < log[n].index
  }

  /** The three things a pass can do to a row it reaches; the mail names the row's own contact. */
  predicate OneEffect(before: Row, after: Row, sends: seq<Send>, j: nat, now: DateTime, template: nat) {
    || (after == before && sends == [])
    || (after == before.(initialSent := Text(Format(now))) && sends == [InitialMail(j, before, template)])
    || (after == before.(followupSent := Text(Format(now))) && sends == [FollowupMail(j, before, template)])
  }

  // ---------------------------------------------------------------------
  // The log

  lemma SendsForAppend(log: seq<Send>, sends: seq<Send>, j: nat)
    requires |sends| <= 1
    ensures SendsFor(log + sends, j) ==
            SendsFor(log, j) + (if sends != [] && sends[0].index == j then sends else [])
  {
    var all := log + sends;
    if sends == [] {
      assert all == log;
    } else {
      assert all[..|all| - 1] == log;
    }
  }

  /** Each chunk holds at most one mail, and only mails for its own row. */
  predicate Tagged(chunks: seq<seq<Send>>) {
    forall k :: 0 <= k < |chunks| ==>
      |chunks[k]| <= 1 && forall e :: e in chunks[k] ==> e.index == k
  }

  lemma {:induction false} FlattenFor(chunks: seq<seq<Send>>, j: nat)
    requires Tagged(chunks)
    ensures SendsFor(Flatten(chunks), j) == if j < |chunks| then chunks[j] else []
  {
    if chunks != [] {
      var n := |chunks| - 1;
      var init := chunks[..n];
      assert Tagged(init);
      FlattenFor(init, j);
      SendsForAppend(Flatten(init), chunks[n], j);
    }
  }

  lemma {:induction false} FlattenOrdered(chunks: seq<seq<Send>>)
    requires Tagged(chunks)
    ensures InTableOrder(Flatten(chunks))
    ensures forall e :: e in Flatten(chunks) ==> e.index < |chunks|
  {
    if chunks != [] {
      var n := |chunks| - 1;
      var init := chunks[..n];
      assert Tagged(init);
      FlattenOrdered(init);
    }
  }

  lemma ChunksTagged(p: PassInput, n: nat)
    requires p.WellFormed() && n <= |p.rows|
    ensures Tagged(Chunks(p)[..n])
  {
    forall k | 0 <= k < n
      ensures |Chunks(p)[k]| <= 1 && forall e :: e in Chunks(p)[k] ==> e.index == k
    {
      assert Chunks(p)[k] == SendsAt(p, k);
    }
  }

  lemma LogUpToFor(p: PassInput, n: nat, j: nat)
    requires p.WellFormed() && n <= |p.rows|
    ensures SendsFor(LogUpTo(p, n), j) == if j < n then SendsAt(p, j) else []
  {
    ChunksTagged(p, n);
    FlattenFor(Chunks(p)[..n], j);
  }

  lemma LogUpToOrdered(p: PassInput, n: nat)
    requires p.WellFormed() && n <= |p.rows|
    ensures InTableOrder(LogUpTo(p, n))
    ensures forall e :: e in LogUpTo(p, n) ==> e.index < n
  {
    ChunksTagged(p, n);
    FlattenOrdered(Chunks(p)[..n]);
  }

  /** Mails go out in table order, at most one per row, and only for rows the pass reached. */
  lemma PassLogInTableOrder(p: PassInput)
    requires p.WellFormed()
    ensures InTableOrder(Pass(p).log)
    ensures forall e :: e in Pass(p).log ==> e.index < Stop(p)
  {
    LogUpToOrdered(p, Stop(p));
  }

  // ---------------------------------------------------------------------
  // The four states of a contact

  /** Never contacted: one initial mail, and initial_mail_sent becomes now. */
  lemma NeverContactedGetsInitial(p: PassInput, j: nat)
    requires p.WellFormed() && j < Stop(p)
    requires Str(p.rows[j].initialSent) == ""
    ensures Pass(p).table[j] == p.rows[j].(initialSent := Text(Format(p.now)))
    ensures SendsFor(Pass(p).log, j) == [InitialMail(j, p.rows[j], p.choices[j])]
  {
    StepByDecision(j, p.rows[j], p.now, p.cfg, p.choices[j]);
    LogUpToFor(p, Stop(p), j);
  }

  /** Stale initial (older than 21 days): the initial mail again, and only initial_mail_sent is reset. */
  lemma StaleInitialIsRestarted(p: PassInput, j: nat, stamp: DateTime)
    requires p.WellFormed() && j < Stop(p)
    requires Parse(Str(p.rows[j].initialSent)) == Some(stamp)
    requires Age(p.now, stamp) > RESEND_INITIAL_AFTER
    ensures Pass(p).table[j] == p.rows[j].(initialSent := Text(Format(p.now)))
    ensures SendsFor(Pass(p).log, j) == [InitialMail(j, p.rows[j], p.choices[j])]
  {
    assert Decide(Str(p.rows[j].initialSent), p.now) == Some(SendInitial);
    StepByDecision(j, p.rows[j], p.now, p.cfg, p.choices[j]);
    LogUpToFor(p, Stop(p), j);
  }

  /** Awaiting follow-up (more than 7, at most 21 days): one follow-up, and only followup_mail_sent is set. */
  lemma AwaitingFollowupGetsFollowup(p: PassInput, j: nat, stamp: DateTime)
    requires p.WellFormed() && j < Stop(p)
    requires Parse(Str(p.rows[j].initialSent)) == Some(stamp)
    requires FOLLOWUP_AFTER < Age(p.now, stamp) <= RESEND_INITIAL_AFTER
    ensures Pass(p).table[j] == p.rows[j].(followupSent := Text(Format(p.now)))
    ensures SendsFor(Pass(p).log, j) == [FollowupMail(j, p.rows[j], p.choices[j])]
  {
    assert Decide(Str(p.rows[j].initialSent), p.now) == Some(SendFollowup);
    StepByDecision(j, p.rows[j], p.now, p.cfg, p.choices[j]);
    LogUpToFor(p, Stop(p), j);
  }

  /** Recently contacted (at most 7 days): no mail and no change. */
  lemma RecentlyContactedIsSkipped(p: PassInput, j: nat, stamp: DateTime)
    requires p.WellFormed() && j < Stop(p)
    requires Parse(Str(p.rows[j].initialSent)) == Some(stamp)
    requires Age(p.now, stamp) <= FOLLOWUP_AFTER
    ensures Pass(p).table[j] == p.rows[j]
    ensures SendsFor(Pass(p).log, j) == []
  {
    assert Decide(Str(p.rows[j].initialSent), p.now) == Some(Skip);
    StepByDecision(j, p.rows[j], p.now, p.cfg, p.choices[j]);
    LogUpToFor(p, Stop(p), j);
  }

  /**
   * Both comparisons are strict: a stamp exactly 21 days old is followed up,
   * not restarted, and one exactly 7 days old is left alone.
   */
  lemma ThresholdsAreStrict(now: DateTime, stamp: DateTime)
    requires Valid(now) && Valid(stamp) && stamp.microsecond == 0
    ensures Age(now, stamp) == RESEND_INITIAL_AFTER ==> Decide(Format(stamp), now) == Some(SendFollowup)
    ensures Age(now, stamp) == FOLLOWUP_AFTER ==> Decide(Format(stamp), now) == Some(Skip)
  {
    DecideWritten(stamp, now);
    assert Truncate(stamp) == stamp;
  }

  // ---------------------------------------------------------------------
  // Frame and exclusivity

  /** What the pass does to row j, in terms of the step for that row. */
  lemma RowOutcome(p: PassInput, j: nat)
    requires p.WellFormed() && j < |p.rows|
    ensures j < Stop(p) ==>
      && StepAt(p, j).Done?
      && Pass(p).table[j] == StepAt(p, j).row
      && SendsFor(Pass(p).log, j) == StepAt(p, j).sends
    ensures Stop(p) <= j ==> Pass(p).table[j] == p.rows[j] && SendsFor(Pass(p).log, j) == []
  {
    LogUpToFor(p, Stop(p), j);
  }

  /** The three possible effects of a completed step, and the stamp a follow-up relies on. */
  lemma StepEffect(j: nat, row: Row, now: DateTime, cfg: Config, template: nat)
    requires ChoiceInRange(cfg, template)
    requires StepRow(j, row, now, cfg, template).Done?
    ensures var r := StepRow(j, row, now, cfg, template);
      OneEffect(row, r.row, r.sends, j, now, template)
      && (r.row.followupSent != row.followupSent || (exists e :: e in r.sends && e.kind == Followup)
          ==> Str(row.initialSent) != "" && r.row.initialSent == row.initialSent)
      && Str(r.row.initialSent) != ""
  {
    assert |Format(now)| == 19;
  }

  /**
   * A reached row gets at most one mail, never both kinds, and at most one of
   * its two stamp cells is written; email, company and location never change.
   * Rows after an abort are untouched and get no mail.
   */
  lemma RowEffects(p: PassInput, j: nat)
    requires p.WellFormed() && j < |p.rows|
    ensures j < Stop(p) ==>
      OneEffect(p.rows[j], Pass(p).table[j], SendsFor(Pass(p).log, j), j, p.now, p.choices[j])
    ensures Stop(p) <= j ==> Pass(p).table[j] == p.rows[j] && SendsFor(Pass(p).log, j) == []
    ensures |SendsFor(Pass(p).log, j)| <= 1
  {
    LogUpToFor(p, Stop(p), j);
    if j < Stop(p) {
      StepEffect(j, p.rows[j], p.now, p.cfg, p.choices[j]);
      assert Pass(p).table[j] == RowAfter(p, j);
    }
  }

  /** A follow-up is only ever sent, and followup_mail_sent only written, for a row already contacted. */
  lemma FollowupOnlyAfterInitial(p: PassInput, j: nat)
    requires p.WellFormed() && j < |p.rows|
    requires Pass(p).table[j].followupSent != p.rows[j].followupSent
             || (exists e :: e in SendsFor(Pass(p).log, j) && e.kind == Followup)
    ensures Str(p.rows[j].initialSent) != ""
    ensures Pass(p).table[j].initialSent == p.rows[j].initialSent
  {
    LogUpToFor(p, Stop(p), j);
    if j < Stop(p) {
      StepEffect(j, p.rows[j], p.now, p.cfg, p.choices[j]);
      assert Pass(p).table[j] == RowAfter(p, j);
    }
  }

  /** After a completed pass every row has a non-empty initial_mail_sent. */
  lemma CompletedPassContactsEveryone(p: PassInput)
    requires p.WellFormed() && Pass(p).status == Completed
    ensures forall j :: 0 <= j < |p.rows| ==> Str(Pass(p).table[j].initialSent) != ""
  {
    forall j | 0 <= j < |p.rows|
      ensures Str(Pass(p).table[j].initialSent) != ""
    {
      RowOutcome(p, j);
      StepEffect(j, p.rows[j], p.now, p.cfg, p.choices[j]);
    }
  }

  /** A pass writes no "NA" and no missing cell into a normalised table. */
  lemma PassKeepsNormalized(p: PassInput)
    requires p.WellFormed() && Normalized(p.rows)
    ensures Normalized(Pass(p).table)
  {
    forall j | 0 <= j < |p.rows|
      ensures RowNormalized(Pass(p).table[j])
    {
      assert RowNormalized(p.rows[j]);
      RowOutcome(p, j);
      if j < Stop(p) {
        StepEffect(j, p.rows[j], p.now, p.cfg, p.choices[j]);
        assert |Format(p.now)| == 19;
      }
    }
  }

  /**
   * Every mail uses the index drawn for its row, which lies in the initial
   * template range; a follow-up's index also lies in the follow-up range.
   * Only initial mails carry the attachment.
   */
  lemma TemplateIndicesInRange(p: PassInput)
    requires p.WellFormed()
    ensures forall e :: e in Pass(p).log ==>
      && e.index < |p.rows|
      && e.template == p.choices[e.index]
      && e.template < p.cfg.initialTemplates
      && (e.kind == Followup ==> e.template < p.cfg.followupTemplates && e.attachments == [])
      && (e.kind == Initial ==> e.attachments == [RESUME])
  {
    PassLogInTableOrder(p);
    forall e | e in Pass(p).log
      ensures e.index < |p.rows| && e.template == p.choices[e.index]
      ensures e.template < p.cfg.initialTemplates
      ensures e.kind == Followup ==> e.template < p.cfg.followupTemplates && e.attachments == []
      ensures e.kind == Initial ==> e.attachments == [RESUME]
    {
      var j := e.index;
      LogUpToFor(p, Stop(p), j);
      SendsForContains(Pass(p).log, e);
      assert j < Stop(p);
      StepMails(j, p.rows[j], p.now, p.cfg, p.choices[j]);
    }
  }

  /** The mails one row produces carry the drawn template and the attachments of their kind. */
  lemma StepMails(j: nat, row: Row, now: DateTime, cfg: Config, template: nat)
    requires ChoiceInRange(cfg, template)
    ensures var r := StepRow(j, row, now, cfg, template);
      r.Done? ==> forall e :: e in r.sends ==>
        && e.template == template
        && template < cfg.initialTemplates
        && (e.kind == Followup ==> template < cfg.followupTemplates && e.attachments == [])
        && (e.kind == Initial ==> e.attachments == [RESUME])
  {
  }

  lemma {:induction false} SendsForContains(log: seq<Send>, e: Send)
    requires e in log
    ensures e in SendsFor(log, e.index)
  {
    var init, last := log[..|log| - 1], log[|log| - 1];
    assert log == init + [last];
    if e != last {
      SendsForContains(init, e);
    }
  }

  // ---------------------------------------------------------------------
  // Aborts

  /** With no initial template the first draw raises: nothing is sent and nothing changes. */
  lemma EmptyTemplateListSendsNothing(p: PassInput)
    requires p.WellFormed() && p.cfg.initialTemplates == 0 && |p.rows| > 0
    ensures Pass(p) == PassResult(p.rows, [], Aborted(0, EmptyTemplateRange))
  {
    assert Stop(p) == 0;
    assert Pass(p).table == p.rows;
  }

  /** A non-empty stamp that does not parse aborts the pass at that row or earlier. */
  lemma MalformedStampAborts(p: PassInput, j: nat)
    requires p.WellFormed() && j < |p.rows|
    requires Str(p.rows[j].initialSent) != "" && Parse(Str(p.rows[j].initialSent)).None?
    ensures Pass(p).status.Aborted? && Pass(p).status.at <= j
    ensures forall k :: j < k < |p.rows| ==> Pass(p).table[k] == p.rows[k]
  {
    assert StepAt(p, j).Fail?;
  }

  // ---------------------------------------------------------------------
  // followup_mail_sent is never read

  predicate SameButFollowup(r1: Row, r2: Row) {
    r1.(followupSent := r2.followupSent) == r2
  }

  lemma StepIgnoresFollowup(j: nat, r1: Row, r2: Row, now: DateTime, cfg: Config, template: nat)
    requires ChoiceInRange(cfg, template) && SameButFollowup(r1, r2)
    ensures var s1, s2 := StepRow(j, r1, now, cfg, template), StepRow(j, r2, now, cfg, template);
      && s1.Done? == s2.Done?
      && (s1.Done? ==> s1.sends == s2.sends && SameButFollowup(s1.row, s2.row))
      && (s1.Fail? ==> s1.reason == s2.reason)
  {
    assert r1.initialSent == r2.initialSent && r1.email == r2.email;
    assert r1.company == r2.company && r1.location == r2.location;
  }

  lemma {:induction false} SameFailures(p: PassInput, q: PassInput, k: nat)
    requires p.WellFormed() && q.WellFormed() && |p.rows| == |q.rows| && k <= |p.rows|
    requires forall j :: 0 <= j < |p.rows| ==> StepAt(p, j).Done? == StepAt(q, j).Done?
    ensures FirstFailure(p, k) == FirstFailure(q, k)
    decreases |p.rows| - k
  {
    if k < |p.rows| && StepAt(p, k).Done? {
      SameFailures(p, q, k + 1);
    }
  }

  /**
   * Whatever the followup_mail_sent cells hold, the same mails go out and
   * the pass ends the same way: the follow-up branch does not look at
   * them, so a row in the 7 to 21 day window is followed up on every pass.
   */
  lemma FollowupStampIgnored(p: PassInput, q: PassInput)
    requires p.WellFormed() && q.WellFormed()
    requires p.now == q.now && p.cfg == q.cfg && p.choices == q.choices && |p.rows| == |q.rows|
    requires forall j :: 0 <= j < |p.rows| ==> SameButFollowup(p.rows[j], q.rows[j])
    ensures Pass(p).log == Pass(q).log && Pass(p).status == Pass(q).status
  {
    forall j | 0 <= j < |p.rows|
      ensures StepAt(p, j).Done? == StepAt(q, j).Done?
      ensures SendsAt(p, j) == SendsAt(q, j)
      ensures StepAt(p, j).Fail? ==> StepAt(p, j).reason == StepAt(q, j).reason
    {
      StepIgnoresFollowup(j, p.rows[j], q.rows[j], p.now, p.cfg, p.choices[j]);
    }
    SameFailures(p, q, 0);
    assert Chunks(p) == Chunks(q);
  }

  // ---------------------------------------------------------------------
  // A pass over the table the first pass leaves in memory, at the same
  // instant, as if that table were written back. The script never writes it
  // back, so its next run reads the unchanged sheet instead.

  lemma StepTwice(j: nat, row: Row, now: DateTime, cfg: Config, c1: nat, c2: nat)
    requires Valid(now) && ChoiceInRange(cfg, c1) && ChoiceInRange(cfg, c2)
    requires StepRow(j, row, now, cfg, c1).Done?
    requires var first := StepRow(j, row, now, cfg, c1);
      first.sends != [] && first.sends[0].kind == Followup ==> c2 < cfg.followupTemplates
    ensures var first := StepRow(j, row, now, cfg, c1);
      StepRow(j, first.row, now, cfg, c2)
        == Done(first.row, if first.sends != [] && first.sends[0].kind == Followup
                           then [FollowupMail(j, row, c2)] else [])
  {
    var first := StepRow(j, row, now, cfg, c1);
    StepByDecision(j, row, now, cfg, c1);
    StepByDecision(j, first.row, now, cfg, c2);
    if Decide(Str(row.initialSent), now) == Some(SendInitial) {
      DecideWritten(now, now);
      assert Decide(Str(first.row.initialSent), now) == Some(Skip);
    } else {
      assert first.row.initialSent == row.initialSent;
    }
  }

  /** The mails of a log for row j are a single follow-up. */
  predicate GotFollowup(log: seq<Send>, j: nat) {
    var s := SendsFor(log, j);
    s != [] && s[0].kind == Followup
  }

  lemma SecondPassRow(p: PassInput, choices: seq<nat>, j: nat)
    requires p.WellFormed() && Pass(p).status == Completed
    requires |choices| == |p.rows|
    requires forall j :: 0 <= j < |choices| ==>
      ChoiceInRange(p.cfg, choices[j]) && (GotFollowup(Pass(p).log, j) ==> choices[j] < p.cfg.followupTemplates)
    requires j < |p.rows|
    ensures var q := PassInput(Pass(p).table, p.now, p.cfg, choices);
      && q.WellFormed()
      && StepAt(q, j) == Done(q.rows[j], if GotFollowup(Pass(p).log, j)
                                         then [FollowupMail(j, p.rows[j], choices[j])] else [])
  {
    RowOutcome(p, j);
    StepTwice(j, p.rows[j], p.now, p.cfg, p.choices[j], choices[j]);
  }

  /**
   * A pass at the same instant over the table a completed pass leaves in
   * memory sends no initial mail and changes nothing: rows just contacted are
   * skipped, and exactly the rows that were followed up are followed up again.
   */
  lemma SecondPassAtSameInstant(p: PassInput, choices: seq<nat>)
    requires p.WellFormed() && Pass(p).status == Completed
    requires |choices| == |p.rows|
    requires forall j :: 0 <= j < |choices| ==>
      ChoiceInRange(p.cfg, choices[j]) && (GotFollowup(Pass(p).log, j) ==> choices[j] < p.cfg.followupTemplates)
    ensures var q := PassInput(Pass(p).table, p.now, p.cfg, choices);
      && q.WellFormed()
      && Pass(q).status == Completed
      && Pass(q).table == Pass(p).table
      && (forall e :: e in Pass(q).log ==> e.kind == Followup)
      && forall j :: 0 <= j < |p.rows| ==>
           SendsFor(Pass(q).log, j) ==
             if GotFollowup(Pass(p).log, j) then [FollowupMail(j, p.rows[j], choices[j])] else []
  {
    var q := PassInput(Pass(p).table, p.now, p.cfg, choices);
    assert q.WellFormed();
    forall j | 0 <= j < |q.rows|
      ensures StepAt(q, j).Done? && RowAfter(q, j) == q.rows[j]
    {
      SecondPassRow(p, choices, j);
    }
    StoppedAt(q, q.rows, |q.rows|);
    forall j | 0 <= j < |p.rows|
      ensures SendsFor(Pass(q).log, j) ==
        if GotFollowup(Pass(p).log, j) then [FollowupMail(j, p.rows[j], choices[j])] else []
    {
      SecondPassRow(p, choices, j);
      RowOutcome(q, j);
    }
    forall e | e in Pass(q).log
      ensures e.kind == Followup
    {
      PassLogInTableOrder(q);
      SendsForContains(Pass(q).log, e);
      SecondPassRow(p, choices, e.index);
      RowOutcome(q, e.index);
    }
  }
}
