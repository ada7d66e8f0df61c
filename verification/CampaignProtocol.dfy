/**
 * apps/worker/src/workers/recipient.worker.ts and packages/worker/src/campaign-worker.ts: one job
 * per recipient, run by concurrent workers. Each database call is one step and succeeds; nothing
 * between two calls is atomic.
 */
module CampaignProtocol {
  type Recipient = nat

  datatype CampaignStatus = Draft | Processing | Paused | Cancelled | Completed
  datatype RecipientStatus = Pending | Sent | Failed

  /** How a job ends: the early failures return without checking for completion. */
  datatype Outcome = SentOk | FailedLate | FailedEarly

  /** Where a job is: the call it makes next. */
  datatype Phase =
    | Finding               // read the campaign
    | Preparing             // look up the account and the contact
    | Sending               // send the template message and store it
    | Setting(o: Outcome)   // updateRecipientStatus
    | Counting(o: Outcome)  // incrementCampaignCount
    | Checking              // count the pending recipients
    | Reading               // none was pending: read the campaign again
    | Completing            // it was processing: write 'completed'
    | Skipped
    | Ended

  /** The two copies of the worker differ in which statuses make a job skip its recipient. */
  datatype Version = RecipientWorker | CampaignWorker

  predicate Skips(v: Version, status: CampaignStatus) {
    match v
    case RecipientWorker => status != Processing
    case CampaignWorker => status == Paused || status == Cancelled
  }

  datatype State = State(
    status: CampaignStatus,
    sentCount: nat,
    failedCount: nat,
    rows: map<Recipient, RecipientStatus>,
    phases: map<Recipient, Phase>)
  {
    ghost function Rows(st: RecipientStatus): set<Recipient> { Having(rows, st) }
    ghost function At(p: Phase): set<Recipient> { Having(phases, p) }
  }

  function Having<V(==)>(m: map<Recipient, V>, v: V): set<Recipient> {
    set r | r in m && m[r] == v
  }

  datatype Lookup = Usable | NoAccount | OptedOut
  datatype Contact = Missing | Willing | RefusesMarketing

  function LookupOf(hasAccount: bool, contact: Contact, marketing: bool): Lookup {
    if !hasAccount then NoAccount else if contact == RefusesMarketing && marketing then OptedOut else Usable
  }

  datatype Event =
    | Find(r: Recipient, found: bool)
    | Prepare(r: Recipient, lookup: Lookup)
    | Send(r: Recipient, ok: bool)
    | SetStatus(r: Recipient)
    | Increment(r: Recipient)
    | CountPending(r: Recipient)
    | ReadStatus(r: Recipient)
    | Complete(r: Recipient)
    | External(to: CampaignStatus)  // someone else pauses, resumes or cancels the campaign

  predicate Enabled(s: State, e: Event) {
    match e
    case Find(r, _) => r in s.phases && s.phases[r] == Finding
    case Prepare(r, _) => r in s.phases && s.phases[r] == Preparing
    case Send(r, _) => r in s.phases && s.phases[r] == Sending
    case SetStatus(r) => r in s.phases && s.phases[r].Setting?
    case Increment(r) => r in s.phases && s.phases[r].Counting?
    case CountPending(r) => r in s.phases && s.phases[r] == Checking
    case ReadStatus(r) => r in s.phases && s.phases[r] == Reading
    case Complete(r) => r in s.phases && s.phases[r] == Completing
    case External(to) => to != Completed
  }

  function Goto(s: State, r: Recipient, p: Phase): State { s.(phases := s.phases[r := p]) }

  function Step(v: Version, s: State, e: Event): State
    requires Enabled(s, e)
  {
    match e
    case Find(r, found) =>
      Goto(s, r, if !found then Setting(FailedEarly) else if Skips(v, s.status) then Skipped else Preparing)
    case Prepare(r, lookup) => Goto(s, r, if lookup == Usable then Sending else Setting(FailedEarly))
    case Send(r, ok) => Goto(s, r, Setting(if ok then SentOk else FailedLate))
    case SetStatus(r) =>
      var o := s.phases[r].o;
      Goto(s, r, Counting(o)).(rows := s.rows[r := if o == SentOk then Sent else Failed])
    case Increment(r) =>
      var o := s.phases[r].o;
      var t := Goto(s, r, if o == FailedEarly then Ended else Checking);
      if o == SentOk then t.(sentCount := s.sentCount + 1) else t.(failedCount := s.failedCount + 1)
    case CountPending(r) => Goto(s, r, if Having(s.rows, Pending) == {} then Reading else Ended)
    case ReadStatus(r) => Goto(s, r, if s.status == Processing then Completing else Ended)
    case Complete(r) => Goto(s, r, Ended).(status := Completed)
    case External(to) => s.(status := to)
  }

  ghost predicate Initial(s: State, recipients: set<Recipient>, status: CampaignStatus) {
    && s.status == status && s.sentCount == 0 && s.failedCount == 0
    && s.rows == (map r | r in recipients :: Pending)
    && s.phases == (map r | r in recipients :: Finding)
  }

  // ---------------------------------------------------------------- conservation

  /** Jobs that have not yet written their recipient's status. */
  predicate Untouched(p: Phase) {
    p.Finding? || p.Preparing? || p.Sending? || p.Setting? || p.Skipped?
  }

  predicate Written(p: Phase, st: RecipientStatus) {
    match st
    case Pending => Untouched(p)
    case Sent => !Untouched(p) && (p.Counting? ==> p.o == SentOk)
    case Failed => !Untouched(p) && (p.Counting? ==> p.o != SentOk)
  }

  ghost predicate RowsMatch(s: State) {
    && s.rows.Keys == s.phases.Keys
    && forall r :: r in s.rows ==> Written(s.phases[r], s.rows[r])
  }

  /** Every counted recipient is marked, and every marked one is counted or about to be. */
  ghost predicate Conserved(s: State) {
    && s.sentCount + |s.At(Counting(SentOk))| == |s.Rows(Sent)|
    && s.failedCount + |s.At(Counting(FailedLate))| + |s.At(Counting(FailedEarly))| == |s.Rows(Failed)|
  }

  /** Whoever has seen an empty count, or completed the campaign, was right about it. */
  ghost predicate CompletionSound(s: State) {
    s.status == Completed || s.At(Reading) != {} || s.At(Completing) != {} ==> s.Rows(Pending) == {}
  }

  ghost predicate Inv(s: State) { RowsMatch(s) && Conserved(s) && CompletionSound(s) }

  lemma InitialInv(s: State, recipients: set<Recipient>, status: CampaignStatus)
    requires Initial(s, recipients, status) && status != Completed
    ensures Inv(s) && s.rows.Keys == s.phases.Keys == recipients
  {
    assert s.rows.Keys == recipients == s.phases.Keys;
  }

  lemma StepKeepsRows(v: Version, s: State, e: Event)
    requires RowsMatch(s) && Enabled(s, e)
    ensures RowsMatch(Step(v, s, e))
  {
  }

  /** A job that moves changes the population of the phase it leaves and the one it enters. */
  lemma MoveCounts(s: State, t: State, r: Recipient, q: Phase)
    requires r in s.phases && t.phases == s.phases[r := q] && s.phases[r] != q
    ensures |t.At(q)| == |s.At(q)| + 1
    ensures |t.At(s.phases[r])| == |s.At(s.phases[r])| - 1
    ensures forall p :: p != q && p != s.phases[r] ==> t.At(p) == s.At(p)
  {
    var was := s.phases[r];
    assert t.At(q) == s.At(q) + {r};
    assert t.At(was) == s.At(was) - {r};
    assert r in s.At(was) && r !in s.At(q);
    forall p | p != q && p != was ensures t.At(p) == s.At(p) {
    }
  }

  lemma RowCounts(s: State, t: State, r: Recipient, st: RecipientStatus)
    requires r in s.rows && t.rows == s.rows[r := st] && s.rows[r] == Pending != st
    ensures |t.Rows(st)| == |s.Rows(st)| + 1
    ensures t.Rows(Pending) == s.Rows(Pending) - {r}
    ensures forall x :: x != st && x != Pending ==> t.Rows(x) == s.Rows(x)
  {
    assert t.Rows(st) == s.Rows(st) + {r};
    assert r !in s.Rows(st);
  }

  lemma StepConserves(v: Version, s: State, e: Event)
    requires RowsMatch(s) && Conserved(s) && Enabled(s, e)
    ensures Conserved(Step(v, s, e))
  {
    hide Having, RowsMatch;
    var t := Step(v, s, e);
    match e
    case SetStatus(r) => SetConserves(v, s, r);
    case External(_) =>
    case _ => MoveCounts(s, t, e.r, t.phases[e.r]);
  }

  lemma SetConserves(v: Version, s: State, r: Recipient)
    requires RowsMatch(s) && Conserved(s) && Enabled(s, SetStatus(r))
    ensures Conserved(Step(v, s, SetStatus(r)))
  {
    hide Having, RowsMatch;
    var t := Step(v, s, SetStatus(r));
    PendingUntilSet(s, r);
    MoveCounts(s, t, r, t.phases[r]);
    RowCounts(s, t, r, t.rows[r]);
  }

  lemma PendingUntilSet(s: State, r: Recipient)
    requires RowsMatch(s) && r in s.phases && s.phases[r].Setting?
    ensures r in s.rows && s.rows[r] == Pending
  {
    assert Written(s.phases[r], s.rows[r]);
  }

  lemma StepKeepsSound(v: Version, s: State, e: Event)
    requires RowsMatch(s) && CompletionSound(s) && Enabled(s, e)
    ensures CompletionSound(Step(v, s, e))
  {
    hide Having, RowsMatch;
    var t := Step(v, s, e);
    match e
    case SetStatus(r) =>
      PendingUntilSet(s, r);
      MoveCounts(s, t, r, t.phases[r]);
      RowCounts(s, t, r, t.rows[r]);
    case External(_) =>
    case _ =>
      MoveCounts(s, t, e.r, t.phases[e.r]);
      PhaseIsPeopled(s, e.r);
  }

  lemma PhaseIsPeopled(s: State, r: Recipient)
    requires r in s.phases
    ensures s.At(s.phases[r]) != {}
  {
    assert r in s.At(s.phases[r]);
  }

  /** Every step of every interleaving, with or without outside status changes, keeps the invariant. */
  lemma StepKeepsInv(v: Version, s: State, e: Event)
    requires Inv(s) && Enabled(s, e)
    ensures Inv(Step(v, s, e))
  {
    StepKeepsRows(v, s, e);
    StepConserves(v, s, e);
    StepKeepsSound(v, s, e);
  }

  // ---------------------------------------------------------------- the database and the jobs

  /** The campaign row, the recipient rows, and how far each job has come. */
  class Database {
    const version: Version
    var status: CampaignStatus
    var sentCount: nat
    var failedCount: nat
    var rows: map<Recipient, RecipientStatus>
    var phases: map<Recipient, Phase>

    function Contents(): State
      reads this
    {
      State(status, sentCount, failedCount, rows, phases)
    }

    constructor (version: Version, recipients: set<Recipient>, status: CampaignStatus)
      ensures this.version == version && Initial(Contents(), recipients, status)
    {
      this.version, this.status, sentCount, failedCount := version, status, 0, 0;
      rows := map r | r in recipients :: Pending;
      phases := map r | r in recipients :: Finding;
    }

    method FindCampaign(r: Recipient, found: bool)
      requires Enabled(Contents(), Find(r, found))
      modifies this`phases
      ensures r in phases && phases[r] ==
        if !found then Setting(FailedEarly)
        else if (version == CampaignWorker && status in {Paused, Cancelled})
             || (version == RecipientWorker && status != Processing) then Skipped
        else Preparing
      ensures Contents() == Step(version, old(Contents()), Find(r, found))
    {
      if !found {
        phases := phases[r := Setting(FailedEarly)];
      } else if version == RecipientWorker && status != Processing {
        phases := phases[r := Skipped];
      } else if version == CampaignWorker && (status == Paused || status == Cancelled) {
        phases := phases[r := Skipped];
      } else {
        phases := phases[r := Preparing];
      }
    }

    /** A missing contact is created, and has not opted out; only marketing templates respect the opt-out. */
    method FindAccountAndContact(r: Recipient, hasAccount: bool, contact: Contact, marketing: bool)
      returns (contactCreated: bool)
      requires Enabled(Contents(), Prepare(r, LookupOf(hasAccount, contact, marketing)))
      modifies this`phases
      ensures Contents() == Step(version, old(Contents()), Prepare(r, LookupOf(hasAccount, contact, marketing)))
      ensures contactCreated <==> hasAccount && contact == Missing
      ensures r in phases && phases[r] ==
        if hasAccount && !(contact == RefusesMarketing && marketing) then Sending else Setting(FailedEarly)
    {
      contactCreated := false;
      if !hasAccount {
        phases := phases[r := Setting(FailedEarly)];
        return;
      }
      var marketingOptOut := contact == RefusesMarketing;
      if contact == Missing {
        contactCreated, marketingOptOut := true, false;
      }
      if marketingOptOut && marketing {
        phases := phases[r := Setting(FailedEarly)];
        return;
      }
      phases := phases[r := Sending];
    }

    method SendMessage(r: Recipient, ok: bool)
      requires Enabled(Contents(), Send(r, ok))
      modifies this`phases
      ensures r in phases && phases[r] == if ok then Setting(SentOk) else Setting(FailedLate)
      ensures Contents() == Step(version, old(Contents()), Send(r, ok))
    {
      phases := phases[r := Setting(if ok then SentOk else FailedLate)];
    }

    method UpdateRecipientStatus(r: Recipient)
      requires Enabled(Contents(), SetStatus(r))
      modifies this`rows, this`phases
      ensures r in rows && rows[r] == if old(phases)[r] == Setting(SentOk) then Sent else Failed
      ensures Contents() == Step(version, old(Contents()), SetStatus(r))
    {
      var o := phases[r].o;
      rows := rows[r := match o case SentOk => Sent case FailedLate => Failed case FailedEarly => Failed];
      phases := phases[r := Counting(o)];
    }

    method IncrementCampaignCount(r: Recipient)
      requires Enabled(Contents(), Increment(r))
      modifies this`sentCount, this`failedCount, this`phases
      ensures Contents() == Step(version, old(Contents()), Increment(r))
    {
      match phases[r].o
      case SentOk =>
        sentCount := sentCount + 1;
        phases := phases[r := Checking];
      case FailedLate =>
        failedCount := failedCount + 1;
        phases := phases[r := Checking];
      case FailedEarly =>
        failedCount := failedCount + 1;
        phases := phases[r := Ended];
    }

    /** checkCampaignCompletion, its three calls as three steps. */
    method CountPendingRows(r: Recipient)
      requires Enabled(Contents(), CountPending(r))
      modifies this`phases
      ensures Contents() == Step(version, old(Contents()), CountPending(r))
    {
      var pendingCount := |Having(rows, Pending)|;
      if pendingCount == 0 {
        phases := phases[r := Reading];
      } else {
        phases := phases[r := Ended];
      }
    }

    method ReadCampaignStatus(r: Recipient)
      requires Enabled(Contents(), ReadStatus(r))
      modifies this`phases
      ensures Contents() == Step(version, old(Contents()), ReadStatus(r))
    {
      if status == Processing {
        phases := phases[r := Completing];
      } else {
        phases := phases[r := Ended];
      }
    }

    method WriteCompleted(r: Recipient)
      requires Enabled(Contents(), Complete(r))
      modifies this`status, this`phases
      ensures Contents() == Step(version, old(Contents()), Complete(r))
    {
      status := Completed;
      phases := phases[r := Ended];
    }

    /** Any interleaving of the calls above, and of status changes from outside, is a run of the protocol. */
    method Run(events: seq<Event>)
      requires IsRun(version, Contents(), events)
      modifies this
      ensures Contents() == After(version, old(Contents()), events)
      ensures Inv(old(Contents())) ==> Inv(Contents())
    {
      hide Enabled, Step, Inv;
      ghost var start := Contents();
      for i := 0 to |events|
        invariant IsRun(version, Contents(), events[i..])
        invariant After(version, Contents(), events[i..]) == After(version, start, events)
      {
        assert events[i..][0] == events[i] && events[i..][1..] == events[i + 1..];
        Perform(events[i]);
      }
      if Inv(start) { RunKeepsInv(version, start, events); }
    }

    method Perform(e: Event)
      requires Enabled(Contents(), e)
      modifies this
      ensures Contents() == Step(version, old(Contents()), e)
    {
      match e
      case Find(r, found) => FindCampaign(r, found);
      case Prepare(r, lookup) =>
        var contact := if lookup == OptedOut then RefusesMarketing else Willing;
        var _ := FindAccountAndContact(r, lookup != NoAccount, contact, true);
      case Send(r, ok) => SendMessage(r, ok);
      case SetStatus(r) => UpdateRecipientStatus(r);
      case Increment(r) => IncrementCampaignCount(r);
      case CountPending(r) => CountPendingRows(r);
      case ReadStatus(r) => ReadCampaignStatus(r);
      case Complete(r) => WriteCompleted(r);
      case External(to) => status := to;
    }
  }

  // ---------------------------------------------------------------- whole runs

  ghost predicate IsRun(v: Version, s: State, run: seq<Event>)
    decreases |run|
  {
    run == [] || (Enabled(s, run[0]) && IsRun(v, Step(v, s, run[0]), run[1..]))
  }

  ghost function After(v: Version, s: State, run: seq<Event>): State
    requires IsRun(v, s, run)
    decreases |run|
  {
    if run == [] then s else After(v, Step(v, s, run[0]), run[1..])
  }

  lemma {:induction false} RunKeepsInv(v: Version, s: State, run: seq<Event>)
    requires Inv(s) && IsRun(v, s, run)
    ensures Inv(After(v, s, run))
    ensures After(v, s, run).phases.Keys == s.phases.Keys
    decreases |run|
  {
    hide Inv;
    if run != [] {
      StepKeepsInv(v, s, run[0]);
      RunKeepsInv(v, Step(v, s, run[0]), run[1..]);
    }
  }

  lemma RowsPartition(s: State)
    ensures |s.Rows(Pending)| + |s.Rows(Sent)| + |s.Rows(Failed)| == |s.rows.Keys|
  {
    assert s.Rows(Pending) !! s.Rows(Sent) !! s.Rows(Failed);
    var all := s.Rows(Pending) + s.Rows(Sent) + s.Rows(Failed);
    forall r ensures r in s.rows.Keys <==> r in all {
      if r in s.rows { assert s.rows[r].Pending? || s.rows[r].Sent? || s.rows[r].Failed?; }
    }
    assert s.rows.Keys == all;
  }

  ghost predicate AllOver(s: State) {
    forall r :: r in s.phases ==> s.phases[r] == Ended || s.phases[r] == Skipped
  }

  /**
   * Conservation, whatever else pauses, resumes or cancels the campaign: in every reachable state the
   * counters lag the rows by exactly the jobs between their two writes, rows add up to the total,
   * and a completed campaign has no pending recipient.
   */
  lemma CountersMatchRows(v: Version, s: State, recipients: set<Recipient>, status: CampaignStatus, run: seq<Event>)
    requires Initial(s, recipients, status) && status != Completed && IsRun(v, s, run)
    ensures var t := After(v, s, run);
      && t.sentCount + |t.At(Counting(SentOk))| == |t.Rows(Sent)|
      && t.failedCount + |t.At(Counting(FailedLate))| + |t.At(Counting(FailedEarly))| == |t.Rows(Failed)|
      && |t.Rows(Pending)| + |t.Rows(Sent)| + |t.Rows(Failed)| == |recipients|
      && (t.status == Completed ==> t.Rows(Pending) == {})
      && (AllOver(t) ==> t.sentCount == |t.Rows(Sent)| && t.failedCount == |t.Rows(Failed)|)
  {
    hide Inv;
    InitialInv(s, recipients, status);
    RunKeepsInv(v, s, run);
    var t := After(v, s, run);
    CountsOfInv(t);
  }

  lemma CountsOfInv(t: State)
    requires Inv(t)
    ensures Conserved(t) && t.rows.Keys == t.phases.Keys && (t.status == Completed ==> t.Rows(Pending) == {})
    ensures |t.Rows(Pending)| + |t.Rows(Sent)| + |t.Rows(Failed)| == |t.phases.Keys|
    ensures AllOver(t) ==> t.sentCount == |t.Rows(Sent)| && t.failedCount == |t.Rows(Failed)|
  {
    RowsPartition(t);
    if AllOver(t) {
      assert t.At(Counting(SentOk)) == {} && t.At(Counting(FailedLate)) == {} && t.At(Counting(FailedEarly)) == {};
    }
  }

  // ---------------------------------------------------------------- no lost completion

  /** Nothing outside touches the campaign, and exactly the jobs in `doomed` fail before sending. */
  predicate Planned(doomed: set<Recipient>, e: Event) {
    match e
    case Find(_, found) => found
    case Prepare(r, lookup) => lookup != Usable <==> r in doomed
    case External(_) => false
    case _ => true
  }

  ghost predicate Leads(v: Version, doomed: set<Recipient>, s: State, t: State) {
    exists run :: IsRun(v, s, run) && (forall e :: e in run ==> Planned(doomed, e)) && After(v, s, run) == t
  }

  /** Nobody skips, because the campaign is completed only once every row is written. */
  ghost predicate Undisturbed(doomed: set<Recipient>, s: State) {
    && Inv(s)
    && (s.status == Processing || s.status == Completed)
    && forall r :: r in s.phases ==>
      && s.phases[r] != Skipped
      && (s.phases[r] == Setting(FailedEarly) || s.phases[r] == Counting(FailedEarly) ==> r in doomed)
  }

  /** This job will still look at the pending count, or has seen it empty. */
  predicate WillCheck(p: Phase) {
    (p.Counting? && p.o != FailedEarly) || p == Checking || p == Reading || p == Completing
  }

  ghost predicate Watched(s: State) {
    s.status == Processing && s.Rows(Pending) == {} && s.phases != map[] ==>
      exists r :: r in s.phases && WillCheck(s.phases[r])
  }

  lemma StepUndisturbed(v: Version, doomed: set<Recipient>, s: State, e: Event)
    requires Undisturbed(doomed, s) && Enabled(s, e) && Planned(doomed, e)
    ensures Undisturbed(doomed, Step(v, s, e))
  {
    hide Inv;
    StepKeepsInv(v, s, e);
    if e.Find? { FindingIsPending(s, e.r); }
  }

  lemma FindingIsPending(s: State, r: Recipient)
    requires Inv(s) && r in s.phases && s.phases[r] == Finding
    ensures s.status != Completed
  {
    assert Written(s.phases[r], s.rows[r]);
    assert r in s.Rows(Pending);
  }

  lemma StepWatched(v: Version, s: State, e: Event)
    requires Undisturbed({}, s) && Watched(s) && Enabled(s, e) && Planned({}, e)
    ensures Watched(Step(v, s, e))
  {
    hide Inv;
    var t := Step(v, s, e);
    if !e.SetStatus? { assert t.rows == s.rows; }
    if t.status == Processing && t.Rows(Pending) == {} {
      if s.Rows(Pending) == {} {
        var r :| r in s.phases && WillCheck(s.phases[r]);
        assert t.phases[r] != Ended;
        assert WillCheck(t.phases[r]);
      } else if e.SetStatus? {
        assert WillCheck(t.phases[e.r]);
      }
    }
  }

  lemma {:induction false} PlannedRun(v: Version, doomed: set<Recipient>, s: State, run: seq<Event>)
    requires Undisturbed(doomed, s) && IsRun(v, s, run) && forall e :: e in run ==> Planned(doomed, e)
    ensures Undisturbed(doomed, After(v, s, run)) && After(v, s, run).phases.Keys == s.phases.Keys
    ensures doomed == {} && Watched(s) ==> Watched(After(v, s, run))
    decreases |run|
  {
    hide Undisturbed, Watched;
    if run != [] {
      StepUndisturbed(v, doomed, s, run[0]);
      if doomed == {} && Watched(s) { StepWatched(v, s, run[0]); }
      PlannedRun(v, doomed, Step(v, s, run[0]), run[1..]);
    }
  }

  lemma InitialUndisturbed(doomed: set<Recipient>, s: State, recipients: set<Recipient>)
    requires Initial(s, recipients, Processing)
    ensures Undisturbed(doomed, s) && Watched(s) && s.phases.Keys == recipients
  {
    InitialInv(s, recipients, Processing);
    if r :| r in recipients { assert r in s.Rows(Pending); }
  }

  /** With no outside interference nobody is skipped and the counters end at the number of recipients. */
  lemma NobodySkipped(v: Version, doomed: set<Recipient>, s: State, recipients: set<Recipient>, t: State)
    requires Initial(s, recipients, Processing) && Leads(v, doomed, s, t) && AllOver(t)
    ensures t.Rows(Pending) == {} && t.sentCount + t.failedCount == |recipients|
    ensures forall r :: r in t.phases ==> t.phases[r] == Ended
  {
    hide Undisturbed, Initial, AllOver;
    var run :| IsRun(v, s, run) && (forall e :: e in run ==> Planned(doomed, e)) && After(v, s, run) == t;
    InitialUndisturbed(doomed, s, recipients);
    PlannedRun(v, doomed, s, run);
    AllCounted(doomed, t);
  }

  lemma AllCounted(doomed: set<Recipient>, t: State)
    requires Undisturbed(doomed, t) && AllOver(t)
    ensures t.Rows(Pending) == {} && t.sentCount + t.failedCount == |t.phases.Keys|
    ensures forall r :: r in t.phases ==> t.phases[r] == Ended
  {
    CountsOfInv(t);
    forall r | r in t.rows ensures t.rows[r] != Pending { assert Written(t.phases[r], t.rows[r]); }
  }

  /** No lost completion: if every job reaches the send step, the last one to finish finds the campaign completed. */
  lemma NoLostCompletion(v: Version, s: State, recipients: set<Recipient>, t: State)
    requires Initial(s, recipients, Processing) && recipients != {}
    requires Leads(v, {}, s, t) && AllOver(t)
    ensures t.status == Completed
  {
    hide Undisturbed, Inv;
    var run :| IsRun(v, s, run) && (forall e :: e in run ==> Planned({}, e)) && After(v, s, run) == t;
    InitialUndisturbed({}, s, recipients);
    PlannedRun(v, {}, s, run);
    NobodySkipped(v, {}, s, recipients, t);
    StatusOf({}, t);
  }

  lemma StatusOf(doomed: set<Recipient>, s: State)
    requires Undisturbed(doomed, s)
    ensures s.status == Processing || s.status == Completed
  {
  }

  // ---------------------------------------------------------------- when completion can be lost

  lemma {:induction false} RunAppend(v: Version, s: State, run: seq<Event>, e: Event)
    requires IsRun(v, s, run) && Enabled(After(v, s, run), e)
    ensures IsRun(v, s, run + [e]) && After(v, s, run + [e]) == Step(v, After(v, s, run), e)
    decreases |run|
  {
    hide Step, Enabled;
    if run == [] {
      assert [] + [e] == [e] && [e][1..] == [];
    } else {
      assert (run + [e])[1..] == run[1..] + [e];
      RunAppend(v, Step(v, s, run[0]), run[1..], e);
    }
  }

  lemma LeadsNowhere(v: Version, doomed: set<Recipient>, s: State)
    ensures Leads(v, doomed, s, s)
  {
    assert IsRun(v, s, []) && After(v, s, []) == s;
  }

  lemma LeadsOn(v: Version, doomed: set<Recipient>, s: State, t: State, e: Event)
    requires Leads(v, doomed, s, t) && Enabled(t, e) && Planned(doomed, e)
    ensures Leads(v, doomed, s, Step(v, t, e))
  {
    hide Step, Enabled, Planned;
    var run :| IsRun(v, s, run) && (forall x :: x in run ==> Planned(doomed, x)) && After(v, s, run) == t;
    RunAppend(v, s, run, e);
    assert forall x :: x in run + [e] ==> Planned(doomed, x);
  }

  /** Before the job of d has moved, others end without completing anything. */
  ghost predicate Holding(v: Version, doomed: set<Recipient>, start: State, s: State, d: Recipient) {
    && Leads(v, doomed, start, s) && s.status == Processing
    && s.rows.Keys == s.phases.Keys && d in s.rows && s.rows[d] == Pending
  }

  lemma HoldOn(v: Version, doomed: set<Recipient>, start: State, s: State, d: Recipient, e: Event)
    requires Holding(v, doomed, start, s, d) && Enabled(s, e) && Planned(doomed, e)
    requires !e.Complete? && !e.External? && e.r != d
    ensures Holding(v, doomed, start, Step(v, s, e), d)
    ensures Step(v, s, e).phases == s.phases[e.r := Step(v, s, e).phases[e.r]]
  {
    hide Leads, Planned;
    LeadsOn(v, doomed, start, s, e);
  }

  /** Run the job of r from start to end while d is still pending. */
  lemma RunOneJob(v: Version, doomed: set<Recipient>, start: State, s: State, d: Recipient, r: Recipient)
    returns (t: State)
    requires Holding(v, doomed, start, s, d) && r in s.phases && s.phases[r] == Finding && r != d
    ensures Holding(v, doomed, start, t, d) && t.phases == s.phases[r := Ended]
  {
    hide Holding, Having;
    t := RunToSetting(v, doomed, start, s, d, r);
    HoldOn(v, doomed, start, t, d, SetStatus(r));
    t := Step(v, t, SetStatus(r));
    HoldOn(v, doomed, start, t, d, Increment(r));
    t := Step(v, t, Increment(r));
    if r !in doomed {
      HoldingFacts(v, doomed, start, t, d);
      HoldOn(v, doomed, start, t, d, CountPending(r));
      t := Step(v, t, CountPending(r));
    }
    assert t.phases == s.phases[r := Ended];
  }

  lemma RunToSetting(v: Version, doomed: set<Recipient>, start: State, s: State, d: Recipient, r: Recipient)
    returns (t: State)
    requires Holding(v, doomed, start, s, d) && r in s.phases && s.phases[r] == Finding && r != d
    ensures Holding(v, doomed, start, t, d)
    ensures t.phases == s.phases[r := Setting(if r in doomed then FailedEarly else SentOk)]
  {
    hide Holding, Having;
    HoldingFacts(v, doomed, start, s, d);
    HoldOn(v, doomed, start, s, d, Find(r, true));
    t := Step(v, s, Find(r, true));
    var lookup := if r in doomed then OptedOut else Usable;
    HoldOn(v, doomed, start, t, d, Prepare(r, lookup));
    t := Step(v, t, Prepare(r, lookup));
    if r !in doomed {
      HoldOn(v, doomed, start, t, d, Send(r, true));
      t := Step(v, t, Send(r, true));
    }
  }

  lemma HoldingFacts(v: Version, doomed: set<Recipient>, start: State, s: State, d: Recipient)
    requires Holding(v, doomed, start, s, d)
    ensures s.status == Processing && d in s.phases && Having(s.rows, Pending) != {}
  {
    assert d in Having(s.rows, Pending);
  }

  lemma {:induction false} RunOthers(v: Version, doomed: set<Recipient>, start: State, s: State, d: Recipient,
                                     todo: set<Recipient>) returns (t: State)
    requires Holding(v, doomed, start, s, d) && d !in todo && todo <= s.phases.Keys
    requires forall r :: r in s.phases ==> s.phases[r] == if r in todo || r == d then Finding else Ended
    ensures Holding(v, doomed, start, t, d) && t.phases.Keys == s.phases.Keys
    ensures forall r :: r in t.phases ==> t.phases[r] == if r == d then Finding else Ended
    decreases |todo|
  {
    hide Holding;
    if todo == {} {
      t := s;
    } else {
      var r :| r in todo;
      var u := RunOneJob(v, doomed, start, s, d, r);
      t := RunOthers(v, doomed, start, u, d, todo - {r});
    }
  }

  /** The doomed job goes last: it marks its recipient, counts it, and leaves without looking. */
  lemma DoomedLast(v: Version, doomed: set<Recipient>, start: State, s: State, d: Recipient) returns (t: State)
    requires Holding(v, doomed, start, s, d) && d in doomed && s.phases[d] == Finding
    requires forall r :: r in s.phases && r != d ==> s.phases[r] == Ended
    ensures Leads(v, doomed, start, t) && AllOver(t) && t.status == Processing
  {
    hide Leads, Having;
    LeadsOn(v, doomed, start, s, Find(d, true));
    t := Step(v, s, Find(d, true));
    LeadsOn(v, doomed, start, t, Prepare(d, NoAccount));
    t := Step(v, t, Prepare(d, NoAccount));
    LeadsOn(v, doomed, start, t, SetStatus(d));
    t := Step(v, t, SetStatus(d));
    LeadsOn(v, doomed, start, t, Increment(d));
    t := Step(v, t, Increment(d));
  }

  /**
   * Completion is guaranteed in every interleaving exactly when no job fails before the send step:
   * one opted-out contact or missing account is enough for a schedule that leaves the campaign
   * 'processing' forever.
   */
  lemma CompletionGuaranteed(v: Version, start: State, recipients: set<Recipient>, doomed: set<Recipient>)
    requires Initial(start, recipients, Processing) && recipients != {} && doomed <= recipients
    ensures (forall t :: Leads(v, doomed, start, t) && AllOver(t) ==> t.status == Completed) <==> doomed == {}
  {
    hide Leads, AllOver;
    if doomed == {} {
      forall t | Leads(v, doomed, start, t) && AllOver(t) ensures t.status == Completed {
        NoLostCompletion(v, start, recipients, t);
      }
    } else {
      var d :| d in doomed;
      LeadsNowhere(v, doomed, start);
      InitialInv(start, recipients, Processing);
      var s := RunOthers(v, doomed, start, start, d, recipients - {d});
      var t := DoomedLast(v, doomed, start, s, d);
    }
  }

  // ---------------------------------------------------------------- a race, and progress

  ghost predicate CanReach(v: Version, s: State, t: State) {
    exists run :: IsRun(v, s, run) && After(v, s, run) == t
  }

  lemma ReachOn(v: Version, s: State, t: State, e: Event)
    requires CanReach(v, s, t) && Enabled(t, e)
    ensures CanReach(v, s, Step(v, t, e))
  {
    hide Step, Enabled;
    var run :| IsRun(v, s, run) && After(v, s, run) == t;
    RunAppend(v, s, run, e);
  }

  /** The only job of a campaign sends its message and marks its recipient. */
  lemma OneJobSends(v: Version, start: State, r: Recipient) returns (t: State)
    requires Initial(start, {r}, Processing)
    ensures CanReach(v, start, t) && t.status == Processing
    ensures t.rows == map[r := Sent] && t.phases == map[r := Counting(SentOk)]
  {
    hide CanReach;
    t := start;
    assert CanReach(v, start, t) by { NothingRun(v, start); }
    ReachOn(v, start, t, Find(r, true)); t := Step(v, t, Find(r, true));
    ReachOn(v, start, t, Prepare(r, Usable)); t := Step(v, t, Prepare(r, Usable));
    ReachOn(v, start, t, Send(r, true)); t := Step(v, t, Send(r, true));
    ReachOn(v, start, t, SetStatus(r)); t := Step(v, t, SetStatus(r));
  }

  lemma NothingRun(v: Version, s: State)
    ensures CanReach(v, s, s)
  {
    assert IsRun(v, s, []) && After(v, s, []) == s;
  }

  lemma OneJobCounts(v: Version, start: State, r: Recipient) returns (t: State)
    requires Initial(start, {r}, Processing)
    ensures CanReach(v, start, t) && t.status == Processing && t.phases == map[r := Reading]
  {
    hide CanReach, Initial;
    t := OneJobSends(v, start, r);
    ReachOn(v, start, t, Increment(r)); t := Step(v, t, Increment(r));
    assert Having(t.rows, Pending) == {};
    ReachOn(v, start, t, CountPending(r)); t := Step(v, t, CountPending(r));
  }

  /** Whatever the jobs still do, the campaign ends as it is: cancelled. */
  ghost predicate StaysCancelled(v: Version, s: State) {
    forall run: seq<Event> ::
      IsRun(v, s, run) && (forall e :: e in run ==> !e.External?) ==> After(v, s, run).status == Cancelled
  }

  lemma StepStaysCancelled(v: Version, s: State, e: Event)
    requires s.status == Cancelled && s.At(Completing) == {} && Enabled(s, e) && !e.External?
    ensures Step(v, s, e).status == Cancelled && Step(v, s, e).At(Completing) == {}
  {
    var t := Step(v, s, e);
    forall r | r in s.phases ensures s.phases[r] != Completing { PhaseIsPeopled(s, r); }
    forall r | r in t.phases ensures t.phases[r] != Completing {
      assert r != e.r ==> r in s.phases && t.phases[r] == s.phases[r] && r !in s.At(Completing);
    }
  }

  lemma {:induction false} RunStaysCancelled(v: Version, s: State, run: seq<Event>)
    requires s.status == Cancelled && s.At(Completing) == {}
    requires IsRun(v, s, run) && forall e :: e in run ==> !e.External?
    ensures After(v, s, run).status == Cancelled
    decreases |run|
  {
    hide Step, Enabled, Having;
    if run != [] {
      StepStaysCancelled(v, s, run[0]);
      RunStaysCancelled(v, Step(v, s, run[0]), run[1..]);
    }
  }

  /** A cancellation sticks, in every schedule of the jobs, exactly when no job has already decided to complete. */
  lemma CancelSticksExactly(v: Version, s: State)
    ensures StaysCancelled(v, Step(v, s, External(Cancelled))) <==> s.At(Completing) == {}
  {
    var c := Step(v, s, External(Cancelled));
    if s.At(Completing) == {} {
      forall run: seq<Event> | IsRun(v, c, run) && forall e :: e in run ==> !e.External?
        ensures After(v, c, run).status == Cancelled
      {
        RunStaysCancelled(v, c, run);
      }
    } else {
      var r :| r in s.At(Completing);
      var run := [Complete(r)];
      assert run[1..] == [] && IsRun(v, Step(v, c, run[0]), []);
      assert IsRun(v, c, run) && After(v, c, run) == Step(v, c, Complete(r));
    }
  }

  ghost predicate Overwrites(v: Version, t: State, r: Recipient) {
    Enabled(t, Complete(r)) && Step(v, t, Complete(r)).status == Completed
  }

  /** A cancellation that lands between the last status read and the last write is overwritten. */
  lemma CancelCanBeLost(v: Version, start: State, r: Recipient)
    requires Initial(start, {r}, Processing)
    ensures exists t: State :: CanReach(v, start, t) && t.status == Cancelled && Overwrites(v, t, r)
  {
    hide CanReach, Initial;
    var t := OneJobCounts(v, start, r);
    ReachOn(v, start, t, ReadStatus(r)); t := Step(v, t, ReadStatus(r));
    ReachOn(v, start, t, External(Cancelled)); t := Step(v, t, External(Cancelled));
  }

  /** Calls a job may still make. */
  function CallsLeft(p: Phase): nat {
    match p
    case Finding => 8 case Preparing => 7 case Sending => 6 case Setting(_) => 5 case Counting(_) => 4
    case Checking => 3 case Reading => 2 case Completing => 1 case Skipped => 0 case Ended => 0
  }

  /** A job always moves forward, can always make its next call, and touches no other job's progress. */
  lemma JobsProgress(v: Version, s: State, r: Recipient)
    requires r in s.phases && s.phases[r] != Ended && s.phases[r] != Skipped
    ensures exists e: Event :: !e.External? && e.r == r && Enabled(s, e)
    ensures forall e: Event :: !e.External? && e.r == r && Enabled(s, e) ==>
      var t := Step(v, s, e);
      CallsLeft(t.phases[r]) < CallsLeft(s.phases[r]) && t.phases == s.phases[r := t.phases[r]]
  {
    var e := match s.phases[r]
      case Finding => Find(r, true) case Preparing => Prepare(r, Usable) case Sending => Send(r, true)
      case Setting(_) => SetStatus(r) case Counting(_) => Increment(r) case Checking => CountPending(r)
      case Reading => ReadStatus(r) case _ => Complete(r);
    assert Enabled(s, e);
  }
}
