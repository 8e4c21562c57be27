/**
 * One scheduling pass over the contact table. For every row, in table
 * order, a template index is drawn, then the row's initial_mail_sent stamp
 * decides between an initial mail (never contacted, or contacted more than
 * 21 days ago), a follow-up (more than 7 days ago) or nothing; a send
 * stamps the matching column with the current time.
 *
 * The mail transport is replaced by a log of Send events. The clock and
 * the random draws are parameters: `now` is the current time and
 * `choices[j]` the template index drawn for row j.
 */
module Scheduler {
  import opened Wrappers
  import opened Timestamp
  import opened Contacts

  /** An initial contact older than this is stale and is restarted. */
  const RESEND_INITIAL_AFTER: int := 21 * MICROS_PER_DAY
  /** An initial contact older than this (and not stale) is followed up. */
  const FOLLOWUP_AFTER: int := 7 * MICROS_PER_DAY
  /** The file attached to every initial mail, and to no follow-up. */
  const RESUME: string := "AdityaMukherjee_Analyst.pdf"

  /** The lengths of the initial and follow-up template lists. */
  datatype Config = Config(initialTemplates: nat, followupTemplates: nat)

  datatype Action = SendInitial | SendFollowup | Skip

  datatype Kind = Initial | Followup

  /** One mail handed to the transport; `index` is the table row it was sent for. */
  datatype Send = Send(kind: Kind, index: nat, to: string, company: string,
                       location: string, template: nat, attachments: seq<string>)

  /** Why a pass stops early: an exception that ends the whole run. */
  datatype AbortReason =
    | EmptyTemplateRange       // randint(0, -1) when there is no initial template
    | MalformedStamp           // strptime rejects a non-empty initial_mail_sent
    | FollowupTemplateMissing  // the drawn index is past the end of the follow-up list

  datatype Status = Completed | Aborted(at: nat, reason: AbortReason)

  /** What processing one row does: the new row and the mails sent, or an abort. */
  datatype Step = Done(row: Row, sends: seq<Send>) | Fail(reason: AbortReason)

  datatype PassResult = PassResult(table: seq<Row>, log: seq<Send>, status: Status)

  /** What a contact is due for, given the age of its initial stamp; both comparisons are strict. */
  function ByAge(age: int): Action {
    if age > RESEND_INITIAL_AFTER then SendInitial
    else if age > FOLLOWUP_AFTER then SendFollowup
    else Skip
  }

  /** The decision for one row, from its initial_mail_sent text; None where strptime raises. */
  function Decide(stamp: string, now: DateTime): (r: Option<Action>)
    ensures r.None? <==> stamp != "" && Parse(stamp).None?
    ensures stamp == "" ==> r == Some(SendInitial)
  {
    if stamp == "" then Some(SendInitial)
    else match Parse(stamp)
      case None => None
      case Some(t) => Some(ByAge(Age(now, t)))
  }

  /** On a stamp the scheduler wrote itself, the decision depends only on how long ago it was written. */
  lemma DecideWritten(t: DateTime, now: DateTime)
    requires Valid(t)
    ensures Decide(Format(t), now) == Some(ByAge(Age(now, Truncate(t))))
  {
    ParseFormat(t);
  }

  /** The initial mail for a row: its own email, company and location, with the resume attached. */
  function InitialMail(index: nat, row: Row, template: nat): Send {
    Send(Initial, index, Str(row.email), Str(row.company), Str(row.location), template, [RESUME])
  }

  /** The follow-up for a row, which reuses the drawn index and attaches nothing. */
  function FollowupMail(index: nat, row: Row, template: nat): Send {
    Send(Followup, index, Str(row.email), Str(row.company), Str(row.location), template, [])
  }

  /** random.randint(0, n - 1) only yields indices in range. */
  predicate ChoiceInRange(cfg: Config, choice: nat) {
    cfg.initialTemplates > 0 ==> choice < cfg.initialTemplates
  }

  /** The effect of one iteration of the loop on row `index`. */
  function StepRow(index: nat, row: Row, now: DateTime, cfg: Config, choice: nat): (r: Step)
    requires ChoiceInRange(cfg, choice)
    ensures r.Done? ==> |r.sends| <= 1
    ensures r.Done? ==> forall e :: e in r.sends ==> e.index == index
  {
    if cfg.initialTemplates == 0 then Fail(EmptyTemplateRange)
    else match Decide(Str(row.initialSent), now)
      case None => Fail(MalformedStamp)
      case Some(SendInitial) =>
        Done(row.(initialSent := Text(Format(now))), [InitialMail(index, row, choice)])
      case Some(SendFollowup) =>
        if choice < cfg.followupTemplates
        then Done(row.(followupSent := Text(Format(now))), [FollowupMail(index, row, choice)])
        else Fail(FollowupTemplateMissing)
      case Some(Skip) => Done(row, [])
  }

  /** The step for one row once its decision is known. */
  lemma StepByDecision(j: nat, row: Row, now: DateTime, cfg: Config, choice: nat)
    requires ChoiceInRange(cfg, choice)
    ensures var d, r := Decide(Str(row.initialSent), now), StepRow(j, row, now, cfg, choice);
      && (cfg.initialTemplates == 0 ==> r == Fail(EmptyTemplateRange))
      && (cfg.initialTemplates > 0 && d == Some(SendInitial) ==>
            r == Done(row.(initialSent := Text(Format(now))), [InitialMail(j, row, choice)]))
      && (cfg.initialTemplates > 0 && d == Some(SendFollowup) ==>
            r == if choice < cfg.followupTemplates
                 then Done(row.(followupSent := Text(Format(now))), [FollowupMail(j, row, choice)])
                 else Fail(FollowupTemplateMissing))
      && (cfg.initialTemplates > 0 && d == Some(Skip) ==> r == Done(row, []))
  {
  }

  /** Everything a pass depends on: the table, the clock, the configuration and the draws. */
  datatype PassInput = PassInput(rows: seq<Row>, now: DateTime, cfg: Config, choices: seq<nat>) {
    predicate WellFormed() {
      && Valid(now)
      && |choices| == |rows|
      && forall j :: 0 <= j < |choices| ==> ChoiceInRange(cfg, choices[j])
    }
  }

  function StepAt(p: PassInput, j: nat): Step
    requires p.WellFormed() && j < |p.rows|
  {
    StepRow(j, p.rows[j], p.now, p.cfg, p.choices[j])
  }

  /** The first row at or after k whose processing aborts, or the table length. */
  function FirstFailure(p: PassInput, k: nat): (r: nat)
    requires p.WellFormed() && k <= |p.rows|
    ensures k <= r <= |p.rows|
    ensures forall j :: k <= j < r ==> StepAt(p, j).Done?
    ensures r < |p.rows| ==> StepAt(p, r).Fail?
    decreases |p.rows| - k
  {
    if k == |p.rows| || StepAt(p, k).Fail? then k
    else
      var done := StepAt(p, k);
      assert done.Done?;
      FirstFailure(p, k + 1)
  }

  /** The number of rows the pass gets through before it completes or aborts. */
  function Stop(p: PassInput): nat
    requires p.WellFormed()
  {
    FirstFailure(p, 0)
  }

  function RowAfter(p: PassInput, j: nat): Row
    requires p.WellFormed() && j < |p.rows|
  {
    match StepAt(p, j)
    case Done(r, _) => r
    case Fail(_) => p.rows[j]
  }

  function SendsAt(p: PassInput, j: nat): seq<Send>
    requires p.WellFormed() && j < |p.rows|
  {
    match StepAt(p, j)
    case Done(_, s) => s
    case Fail(_) => []
  }

  /** The mails sent for each row of the table, row by row. */
  function Chunks(p: PassInput): (c: seq<seq<Send>>)
    requires p.WellFormed()
    ensures |c| == |p.rows|
  {
    seq(|p.rows|, k requires 0 <= k < |p.rows| => SendsAt(p, k))
  }

  /** The concatenation of the chunks, in order. */
  function Flatten(chunks: seq<seq<Send>>): seq<Send> {
    if chunks == [] then [] else Flatten(chunks[..|chunks| - 1]) + chunks[|chunks| - 1]
  }

  /** The mails sent for rows 0 .. n-1, in table order. */
  function LogUpTo(p: PassInput, n: nat): seq<Send>
    requires p.WellFormed() && n <= |p.rows|
  {
    Flatten(Chunks(p)[..n])
  }

  lemma LogUpToNext(p: PassInput, n: nat)
    requires p.WellFormed() && n < |p.rows|
    ensures LogUpTo(p, n + 1) == LogUpTo(p, n) + SendsAt(p, n)
  {
    var c := Chunks(p)[..n + 1];
    assert c[..n] == Chunks(p)[..n];
  }

  /**
   * The whole pass: the rows before the stopping point are processed, the
   * rest are left as they were, and the log holds the mails of the
   * processed rows.
   */
  function Pass(p: PassInput): (r: PassResult)
    requires p.WellFormed()
    ensures |r.table| == |p.rows|
    ensures r.status == Completed <==> Stop(p) == |p.rows|
    ensures r.status.Aborted? ==> r.status.at == Stop(p)
  {
    var stop := Stop(p);
    PassResult(seq(|p.rows|, j requires 0 <= j < |p.rows| => if j < stop then RowAfter(p, j) else p.rows[j]),
               LogUpTo(p, stop),
               if stop == |p.rows| then Completed else Aborted(stop, StepAt(p, stop).reason))
  }

  /** A table that has rows 0 .. i-1 processed and the rest untouched, where row i aborts or i is the end, is the pass's result. */
  lemma StoppedAt(p: PassInput, t: seq<Row>, i: nat)
    requires p.WellFormed() && i <= |p.rows| && |t| == |p.rows|
    requires forall j :: 0 <= j < i ==> StepAt(p, j).Done? && t[j] == RowAfter(p, j)
    requires forall j :: i <= j < |t| ==> t[j] == p.rows[j]
    requires i < |p.rows| ==> StepAt(p, i).Fail?
    ensures Stop(p) == i
    ensures Pass(p) == PassResult(t, LogUpTo(p, i),
                                  if i == |p.rows| then Completed else Aborted(i, StepAt(p, i).reason))
  {
    assert Stop(p) == i;
    assert Pass(p).table == t;
  }

  /** One iteration of the row loop, applied in place to row i of the table. */
  method ProcessRow(a: array<Row>, i: nat, now: DateTime, cfg: Config, template: nat)
      returns (sends: seq<Send>, failure: Option<AbortReason>)
    requires i < a.Length && ChoiceInRange(cfg, template)
    modifies a
    ensures StepRow(i, old(a[i]), now, cfg, template) ==
            if failure.Some? then Fail(failure.value) else Done(a[i], sends)
    ensures forall j :: 0 <= j < a.Length && j != i ==> a[j] == old(a[j])
    ensures failure.Some? ==> a[i] == old(a[i])
  {
    var row := a[i];
    sends, failure := [], None;
    if cfg.initialTemplates == 0 {
      failure := Some(EmptyTemplateRange);
      return;
    }
    match Decide(Str(row.initialSent), now) {
      case None =>
        failure := Some(MalformedStamp);
      case Some(SendInitial) =>
        sends := [InitialMail(i, row, template)];
        a[i] := row.(initialSent := Text(Format(now)));
      case Some(SendFollowup) =>
        if template < cfg.followupTemplates {
          sends := [FollowupMail(i, row, template)];
          a[i] := row.(followupSent := Text(Format(now)));
        } else {
          failure := Some(FollowupTemplateMissing);
        }
      case Some(Skip) =>
    }
  }

  /** The loop over the table, updating the stamps in place and collecting the mails sent. */
  method SchedulePass(a: array<Row>, now: DateTime, cfg: Config, choices: seq<nat>)
      returns (log: seq<Send>, status: Status)
    requires PassInput(a[..], now, cfg, choices).WellFormed()
    modifies a
    ensures Pass(PassInput(old(a[..]), now, cfg, choices)) == PassResult(a[..], log, status)
  {
    ghost var p := PassInput(a[..], now, cfg, choices);
    log, status := [], Completed;
    var i := 0;
    while i < a.Length
      invariant 0 <= i <= a.Length
      invariant forall j :: 0 <= j < i ==> StepAt(p, j).Done? && a[j] == RowAfter(p, j)
      invariant forall j :: i <= j < a.Length ==> a[j] == p.rows[j]
      invariant log == LogUpTo(p, i)
    {
      var sends, failure := ProcessRow(a, i, now, cfg, choices[i]);
      if failure.Some? {
        status := Aborted(i, failure.value);
        StoppedAt(p, a[..], i);
        return;
      }
      LogUpToNext(p, i);
      log := log + sends;
      i := i + 1;
    }
    StoppedAt(p, a[..], i);
  }

  datatype RunStatus = NoData | Ran(status: Status)

  /** One run: stop on an empty table, otherwise normalise it and run the pass. */
  method RunOnce(a: array<Row>, now: DateTime, cfg: Config, choices: seq<nat>)
      returns (log: seq<Send>, result: RunStatus)
    requires PassInput(a[..], now, cfg, choices).WellFormed()
    modifies a
    ensures a.Length == 0 ==> log == [] && result == NoData
    ensures a.Length > 0 ==>
      result.Ran? &&
      Pass(PassInput(NormalizeTable(old(a[..])), now, cfg, choices)) == PassResult(a[..], log, result.status)
  {
    if a.Length == 0 {
      return [], NoData;
    }
    Normalize(a);
    var status;
    log, status := SchedulePass(a, now, cfg, choices);
    result := Ran(status);
  }
}
