/** What a run of the campaign protocol has done, read off its events: whom it reached, and what it counted. */
module CampaignOutcomes {
  import opened CampaignProtocol

  /** The job could not get to the send step: no campaign, no account, or an opted-out contact. */
  ghost predicate GaveUp(run: seq<Event>, r: Recipient) {
    Find(r, false) in run || Prepare(r, NoAccount) in run || Prepare(r, OptedOut) in run
  }

  ghost predicate WentOut(run: seq<Event>, r: Recipient) { Send(r, true) in run }

  ghost predicate FailedToSend(run: seq<Event>, r: Recipient) { Send(r, false) in run }

  /** How the job of r ended, if it has come that far. */
  ghost predicate EndedAs(run: seq<Event>, r: Recipient, o: Outcome) {
    && (o == SentOk <==> WentOut(run, r))
    && (o == FailedLate <==> FailedToSend(run, r))
    && (o == FailedEarly <==> GaveUp(run, r))
  }

  ghost predicate Undecided(run: seq<Event>, r: Recipient) {
    !WentOut(run, r) && !FailedToSend(run, r) && !GaveUp(run, r)
  }

  ghost predicate Did(run: seq<Event>, r: Recipient, marked: bool, counted: bool, checked: bool) {
    && (SetStatus(r) in run <==> marked) && (Increment(r) in run <==> counted) && (CountPending(r) in run <==> checked)
  }

  /** The events of a job so far, told from the phase it is in. */
  ghost predicate PhaseTells(run: seq<Event>, r: Recipient, p: Phase) {
    match p
    case Finding => Undecided(run, r) && Did(run, r, false, false, false)
    case Preparing => Undecided(run, r) && Did(run, r, false, false, false)
    case Sending => Undecided(run, r) && Did(run, r, false, false, false)
    case Skipped => Undecided(run, r) && Did(run, r, false, false, false)
    case Setting(o) => EndedAs(run, r, o) && Did(run, r, false, false, false)
    case Counting(o) => EndedAs(run, r, o) && Did(run, r, true, false, false)
    case Checking => (EndedAs(run, r, SentOk) || EndedAs(run, r, FailedLate)) && Did(run, r, true, true, false)
    case Reading => (EndedAs(run, r, SentOk) || EndedAs(run, r, FailedLate)) && Did(run, r, true, true, true)
    case Completing => (EndedAs(run, r, SentOk) || EndedAs(run, r, FailedLate)) && Did(run, r, true, true, true)
    case Ended =>
      || (EndedAs(run, r, FailedEarly) && Did(run, r, true, true, false))
      || ((EndedAs(run, r, SentOk) || EndedAs(run, r, FailedLate)) && Did(run, r, true, true, true))
  }

  ghost predicate RowTells(run: seq<Event>, r: Recipient, row: RecipientStatus) {
    row == if SetStatus(r) !in run then Pending else if WentOut(run, r) then Sent else Failed
  }

  /** The recipients counted as sent, and those counted as failed. */
  ghost function CountedSent(s: State, run: seq<Event>): set<Recipient> {
    set r | r in s.phases && Increment(r) in run && WentOut(run, r)
  }

  ghost function CountedFailed(s: State, run: seq<Event>): set<Recipient> {
    set r | r in s.phases && Increment(r) in run && !WentOut(run, r)
  }

  ghost predicate Told(run: seq<Event>, s: State) {
    && s.rows.Keys == s.phases.Keys
    && (forall r :: r in s.phases ==> PhaseTells(run, r, s.phases[r]) && RowTells(run, r, s.rows[r]))
    && s.sentCount == |CountedSent(s, run)| && s.failedCount == |CountedFailed(s, run)|
  }

  // ---------------------------------------------------------------- every step keeps it

  /** An event of one job says nothing about another's. */
  lemma OthersUntold(run: seq<Event>, e: Event, r: Recipient)
    requires e.External? || e.r != r
    ensures WentOut(run + [e], r) == WentOut(run, r) && FailedToSend(run + [e], r) == FailedToSend(run, r)
    ensures GaveUp(run + [e], r) == GaveUp(run, r)
    ensures (SetStatus(r) in run + [e]) == (SetStatus(r) in run) && (Increment(r) in run + [e]) == (Increment(r) in run)
    ensures (CountPending(r) in run + [e]) == (CountPending(r) in run)
  {
  }

  /** What one more event of its own adds. */
  lemma OwnTold(run: seq<Event>, e: Event)
    requires !e.External?
    ensures var r := e.r;
      && WentOut(run + [e], r) == (WentOut(run, r) || e == Send(r, true))
      && FailedToSend(run + [e], r) == (FailedToSend(run, r) || e == Send(r, false))
      && GaveUp(run + [e], r)
         == (GaveUp(run, r) || e == Find(r, false) || e == Prepare(r, NoAccount) || e == Prepare(r, OptedOut))
      && (SetStatus(r) in run + [e]) == (SetStatus(r) in run || e == SetStatus(r))
      && (Increment(r) in run + [e]) == (Increment(r) in run || e == Increment(r))
      && (CountPending(r) in run + [e]) == (CountPending(r) in run || e == CountPending(r))
  {
  }

  lemma StepTells(v: Version, run: seq<Event>, s: State, e: Event, r: Recipient)
    requires Told(run, s) && Enabled(s, e) && r in s.phases
    ensures var t := Step(v, s, e);
      r in t.phases && r in t.rows && PhaseTells(run + [e], r, t.phases[r]) && RowTells(run + [e], r, t.rows[r])
  {
    hide GaveUp, WentOut, FailedToSend, PhaseTells, RowTells, CountedSent, CountedFailed;
    assert PhaseTells(run, r, s.phases[r]) && RowTells(run, r, s.rows[r]);
    if e.External? || e.r != r {
      OtherJobTells(run, e, r, s.phases[r], s.rows[r]);
    } else if e.Find? || e.Prepare? || e.Send? {
      EarlyStepTells(v, run, s, e);
    } else {
      LateStepTells(v, run, s, e);
    }
  }

  lemma OtherJobTells(run: seq<Event>, e: Event, r: Recipient, p: Phase, row: RecipientStatus)
    requires e.External? || e.r != r
    requires PhaseTells(run, r, p) && RowTells(run, r, row)
    ensures PhaseTells(run + [e], r, p) && RowTells(run + [e], r, row)
  {
    hide GaveUp, WentOut, FailedToSend;
    OthersUntold(run, e, r);
  }

  lemma EarlyStepTells(v: Version, run: seq<Event>, s: State, e: Event)
    requires Enabled(s, e) && (e.Find? || e.Prepare? || e.Send?) && e.r in s.rows
    requires PhaseTells(run, e.r, s.phases[e.r]) && RowTells(run, e.r, s.rows[e.r])
    ensures var t := Step(v, s, e); PhaseTells(run + [e], e.r, t.phases[e.r]) && RowTells(run + [e], e.r, t.rows[e.r])
  {
    hide GaveUp, WentOut, FailedToSend;
    OwnTold(run, e);
  }

  lemma LateStepTells(v: Version, run: seq<Event>, s: State, e: Event)
    requires Enabled(s, e) && !e.External? && !e.Find? && !e.Prepare? && !e.Send? && e.r in s.rows
    requires PhaseTells(run, e.r, s.phases[e.r]) && RowTells(run, e.r, s.rows[e.r])
    ensures var t := Step(v, s, e); PhaseTells(run + [e], e.r, t.phases[e.r]) && RowTells(run + [e], e.r, t.rows[e.r])
  {
    hide GaveUp, WentOut, FailedToSend, Having;
    OwnTold(run, e);
  }

  /** Only its increment makes a job counted. */
  lemma CountStays(v: Version, run: seq<Event>, s: State, e: Event, r: Recipient)
    requires Told(run, s) && Enabled(s, e) && r in s.phases && !(e.Increment? && e.r == r)
    ensures (Increment(r) in run + [e]) == (Increment(r) in run)
    ensures Increment(r) in run ==> WentOut(run + [e], r) == WentOut(run, r)
  {
    hide GaveUp, WentOut, FailedToSend, RowTells, CountedSent, CountedFailed;
    assert PhaseTells(run, r, s.phases[r]);
    if e.External? || e.r != r { OthersUntold(run, e, r); } else { OwnTold(run, e); }
  }

  lemma StepCounts(v: Version, run: seq<Event>, s: State, e: Event)
    requires Told(run, s) && Enabled(s, e)
    ensures var t := Step(v, s, e);
      t.sentCount == |CountedSent(t, run + [e])| && t.failedCount == |CountedFailed(t, run + [e])|
  {
    hide GaveUp, WentOut, FailedToSend, PhaseTells, RowTells, Having, CountedSent, CountedFailed;
    var t := Step(v, s, e);
    SameJobs(v, s, e);
    forall r | r in s.phases && !(e.Increment? && e.r == r)
      ensures (Increment(r) in run + [e]) == (Increment(r) in run)
      ensures Increment(r) in run ==> WentOut(run + [e], r) == WentOut(run, r)
    {
      CountStays(v, run, s, e, r);
    }
    if e.Increment? { IncrementCounts(run, s, e.r); }
    CountedSets(s, t, run, e);
  }

  /** The sets of counted recipients grow by an increment and by nothing else. */
  lemma CountedSets(s: State, t: State, run: seq<Event>, e: Event)
    requires s.phases.Keys == t.phases.Keys
    requires forall r :: r in s.phases && !(e.Increment? && e.r == r) ==>
      && (Increment(r) in run + [e]) == (Increment(r) in run)
      && (Increment(r) in run ==> WentOut(run + [e], r) == WentOut(run, r))
    requires e.Increment? ==>
      e.r in s.phases && Increment(e.r) !in run && WentOut(run + [e], e.r) == WentOut(run, e.r)
    ensures |CountedSent(t, run + [e])| == |CountedSent(s, run)| + if e.Increment? && WentOut(run, e.r) then 1 else 0
    ensures |CountedFailed(t, run + [e])|
         == |CountedFailed(s, run)| + if e.Increment? && !WentOut(run, e.r) then 1 else 0
  {
    hide WentOut;
    assert e.Increment? ==> e in run + [e];
    var sent, failed := CountedSent(s, run), CountedFailed(s, run);
    assert CountedSent(t, run + [e]) == sent + if e.Increment? && WentOut(run, e.r) then {e.r} else {} by {
      hide CountedFailed;
    }
    assert CountedFailed(t, run + [e]) == failed + if e.Increment? && !WentOut(run, e.r) then {e.r} else {} by {
      hide CountedSent;
    }
  }

  lemma IncrementCounts(run: seq<Event>, s: State, r: Recipient)
    requires Told(run, s) && Enabled(s, Increment(r))
    ensures Increment(r) !in run && Increment(r) in run + [Increment(r)]
    ensures WentOut(run + [Increment(r)], r) == WentOut(run, r) == (s.phases[r].o == SentOk)
  {
    hide GaveUp, FailedToSend, RowTells, CountedSent, CountedFailed;
    assert PhaseTells(run, r, s.phases[r]);
  }

  lemma StepKeepsTold(v: Version, run: seq<Event>, s: State, e: Event)
    requires Told(run, s) && Enabled(s, e)
    ensures Told(run + [e], Step(v, s, e))
  {
    hide PhaseTells, RowTells, CountedSent, CountedFailed;
    StepCounts(v, run, s, e);
    assert Step(v, s, e).phases.Keys == s.phases.Keys == Step(v, s, e).rows.Keys;
    forall r | r in s.phases
      ensures PhaseTells(run + [e], r, Step(v, s, e).phases[r]) && RowTells(run + [e], r, Step(v, s, e).rows[r])
    {
      StepTells(v, run, s, e, r);
    }
  }

  lemma {:induction false} RunKeepsTold(v: Version, done: seq<Event>, s: State, run: seq<Event>)
    requires Told(done, s) && IsRun(v, s, run)
    ensures Told(done + run, After(v, s, run)) && After(v, s, run).phases.Keys == s.phases.Keys
    decreases |run|
  {
    hide Told, Step;
    if run == [] {
      assert done + run == done;
    } else {
      StepKeepsTold(v, done, s, run[0]);
      SameJobs(v, s, run[0]);
      RunKeepsTold(v, done + [run[0]], Step(v, s, run[0]), run[1..]);
      assert done + [run[0]] + run[1..] == done + run;
    }
  }

  lemma SameJobs(v: Version, s: State, e: Event)
    requires Enabled(s, e)
    ensures Step(v, s, e).phases.Keys == s.phases.Keys
  {
  }

  lemma NothingTold(s: State, recipients: set<Recipient>, status: CampaignStatus)
    requires Initial(s, recipients, status)
    ensures Told([], s) && s.phases.Keys == recipients
  {
    assert s.rows.Keys == recipients == s.phases.Keys;
    assert CountedSent(s, []) == {} && CountedFailed(s, []) == {};
  }

  // ---------------------------------------------------------------- what can be read off a run

  /**
   * Rows and counters are the deeds. A recipient is marked sent exactly if their message went out and the mark was
   * written, and failed exactly if it did not and the mark was written; each counter is the number of such
   * recipients whose job has counted them.
   */
  lemma RowsTellTheRun(v: Version, s: State, recipients: set<Recipient>, status: CampaignStatus, run: seq<Event>,
        r: Recipient)
    requires Initial(s, recipients, status) && IsRun(v, s, run) && r in recipients
    ensures var t := After(v, s, run);
      && r in t.rows
      && (t.rows[r] == Sent <==> SetStatus(r) in run && Send(r, true) in run)
      && (t.rows[r] == Failed <==>
            SetStatus(r) in run && (Send(r, false) in run || Find(r, false) in run
              || Prepare(r, NoAccount) in run || Prepare(r, OptedOut) in run))
      && t.sentCount == |set x | x in recipients && Increment(x) in run && Send(x, true) in run|
      && t.failedCount == |set x | x in recipients && Increment(x) in run && Send(x, true) !in run|
  {
    hide Step, PhaseTells, RowTells;
    NothingTold(s, recipients, status);
    RunKeepsTold(v, [], s, run);
    assert [] + run == run;
    var t := After(v, s, run);
    assert PhaseTells(run, r, t.phases[r]) && RowTells(run, r, t.rows[r]);
    RowMeans(run, r, t.phases[r], t.rows[r]);
    assert CountedSent(t, run) == set x | x in recipients && Increment(x) in run && Send(x, true) in run;
    assert CountedFailed(t, run) == set x | x in recipients && Increment(x) in run && Send(x, true) !in run;
  }

  lemma RowMeans(run: seq<Event>, r: Recipient, p: Phase, row: RecipientStatus)
    requires PhaseTells(run, r, p) && RowTells(run, r, row)
    ensures row == Sent <==> SetStatus(r) in run && WentOut(run, r)
    ensures row == Failed <==> SetStatus(r) in run && (FailedToSend(run, r) || GaveUp(run, r))
  {
    hide GaveUp, WentOut, FailedToSend;
  }

  /**
   * When all jobs are over, the sent counter is the number of messages that went out, the failed counter the number
   * of recipients who got none although their job was not skipped, and a job has looked for completion exactly if
   * it got to the send step.
   */
  lemma CountersTellTheRun(v: Version, s: State, recipients: set<Recipient>, status: CampaignStatus, run: seq<Event>)
    requires Initial(s, recipients, status) && IsRun(v, s, run) && AllOver(After(v, s, run))
    ensures var t := After(v, s, run);
      && t.sentCount == |set r | r in recipients && Send(r, true) in run|
      && t.failedCount == |set r | r in recipients && Send(r, true) !in run && r in t.phases && t.phases[r] != Skipped|
      && forall r :: r in recipients ==>
           (CountPending(r) in run <==> Send(r, true) in run || Send(r, false) in run)
  {
    hide Step, PhaseTells, RowTells;
    NothingTold(s, recipients, status);
    RunKeepsTold(v, [], s, run);
    assert [] + run == run;
    var t := After(v, s, run);
    forall r | r in recipients
      ensures r in CountedSent(t, run) <==> Send(r, true) in run
      ensures r in CountedFailed(t, run) <==> Send(r, true) !in run && t.phases[r] != Skipped
      ensures CountPending(r) in run <==> Send(r, true) in run || Send(r, false) in run
    {
      OverMeans(run, r, t.phases[r]);
    }
    assert CountedSent(t, run) == set r | r in recipients && Send(r, true) in run;
    assert CountedFailed(t, run) == set r |
      r in recipients && Send(r, true) !in run && r in t.phases && t.phases[r] != Skipped;
  }

  lemma OverMeans(run: seq<Event>, r: Recipient, p: Phase)
    requires PhaseTells(run, r, p) && (p == Ended || p == Skipped)
    ensures p == Skipped ==> Increment(r) !in run && CountPending(r) !in run && Undecided(run, r)
    ensures p == Ended ==> Increment(r) in run
    ensures CountPending(r) in run <==> WentOut(run, r) || FailedToSend(run, r)
  {
    hide GaveUp, WentOut, FailedToSend;
  }

  /**
   * The decisions taken at one moment: whom a job skips, when it goes on to read the campaign, when it goes on to
   * complete it, and when the campaign becomes completed.
   */
  lemma Decisions(v: Version, s: State, e: Event, r: Recipient)
    requires Enabled(s, e) && r in s.phases
    ensures var t := Step(v, s, e);
      && (t.phases[r] == Skipped && s.phases[r] != Skipped <==>
            e == Find(r, true) &&
            if v == CampaignWorker then s.status in {Paused, Cancelled} else s.status != Processing)
      && (t.phases[r] == Reading && s.phases[r] != Reading <==>
            e == CountPending(r) && forall x :: x in s.rows ==> s.rows[x] != Pending)
      && (t.phases[r] == Completing && s.phases[r] != Completing <==> e == ReadStatus(r) && s.status == Processing)
      && (t.status == Completed <==> e.Complete? || (s.status == Completed && !e.External?))
  {
    assert Having(s.rows, Pending) == {} <==> forall x :: x in s.rows ==> x !in Having(s.rows, Pending);
  }
}
