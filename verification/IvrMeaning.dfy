/** What a call does, said of the flow graph and of what was heard, without the interpreter's own functions. */
module IvrMeaning {
  import opened JsText
  import opened IvrFlow

  // ---------------------------------------------------------------- what the graph says

  /** The node with this id that counts: the last one in the list. */
  ghost predicate IsNodeOf(nodes: seq<Node>, id: string, m: nat) {
    m < |nodes| && nodes[m].id == id && forall k :: m < k < |nodes| ==> nodes[k].id != id
  }

  lemma {:induction false} LastNodeCounts(nodes: seq<Node>, id: string)
    ensures NodeOf(nodes, id) == None <==> forall k :: 0 <= k < |nodes| ==> nodes[k].id != id
    ensures forall m: nat :: IsNodeOf(nodes, id, m) ==> NodeOf(nodes, id) == Some(nodes[m])
    ensures NodeOf(nodes, id).Some? ==> exists m: nat :: IsNodeOf(nodes, id, m)
  {
    if nodes != [] {
      var n := |nodes| - 1;
      LastNodeCounts(nodes[..n], id);
      hide IsNodeOf;
      forall m: nat ensures IsNodeOf(nodes, id, m) <==>
          if nodes[n].id == id then m == n else IsNodeOf(nodes[..n], id, m)
      {
        OneMoreNode(nodes, id, m);
      }
      assert nodes[n].id == id ==> IsNodeOf(nodes, id, n);
    }
  }

  lemma OneMoreNode(nodes: seq<Node>, id: string, m: nat)
    requires nodes != []
    ensures var n := |nodes| - 1;
      IsNodeOf(nodes, id, m) <==> if nodes[n].id == id then m == n else IsNodeOf(nodes[..n], id, m)
  {
  }

  /** A key the menu takes: any key if it lists none. */
  ghost predicate Takes(node: Node, key: string) { key != "" && (node.keys == {} || key in node.keys) }

  /** The first attempt, within the attempts the menu allows, at which it heard a key it takes. */
  ghost predicate FirstKey(node: Node, heard: Heard, k: nat) {
    && k < |heard.pressed| && k < node.maxRetries && Takes(node, heard.pressed[k])
    && forall j :: 0 <= j < k ==> !Takes(node, heard.pressed[j])
  }

  ghost predicate NoKey(node: Node, heard: Heard) {
    forall j :: 0 <= j < |heard.pressed| && j < node.maxRetries ==> !Takes(node, heard.pressed[j])
  }

  ghost predicate SomeDigits(node: Node, heard: Heard) {
    exists j :: 0 <= j < |heard.pressed| && j < node.maxRetries && heard.pressed[j] != ""
  }

  /** The first entry of the schedule for this weekday. */
  ghost predicate FirstEntry(schedule: seq<Opening>, day: Weekday, k: nat) {
    k < |schedule| && schedule[k].day == day && forall j :: 0 <= j < k ==> schedule[j].day != day
  }

  ghost predicate InHours(schedule: seq<Opening>, day: Weekday, minute: Minute) {
    exists k: nat :: FirstEntry(schedule, day, k) && schedule[k].enabled
                     && schedule[k].start <= minute < schedule[k].end
  }

  /** Which outcome goes with what was heard. */
  ghost predicate IsOutcome(node: Node, heard: Heard, outcome: string) {
    match node.kind
    case Greeting => outcome == "default"
    case Menu =>
      || (NoKey(node, heard) && outcome == "max_retries")
      || exists k: nat :: FirstKey(node, heard, k) && outcome == "digit:" + heard.pressed[k]
    case Gather => outcome == if SomeDigits(node, heard) then "default" else "max_retries"
    case HttpCallback => outcome == if heard.ok then "http:2xx" else "http:non2xx"
    case Transfer => outcome == heard.transferred
    case GotoFlow => outcome == "goto_flow"
    case Timing => outcome == if InHours(node.schedule, heard.day, heard.minute) then "in_hours" else "out_of_hours"
    case Hangup => false
    case Unknown => false
  }

  /** The first edge of the list that leaves `from` and says this outcome or a star leads to `to`. */
  ghost predicate LeadsTo(edges: seq<Edge>, from: string, outcome: string, to: string) {
    var word := if outcome == "" then "default" else outcome;
    exists j :: 0 <= j < |edges| && edges[j].from == from && edges[j].condition in {word, "*"} && edges[j].to == to
                && forall k :: 0 <= k < j ==> edges[k].from != from || edges[k].condition !in {word, "*"}
  }

  // ---------------------------------------------------------------- the answers

  lemma {:induction false} MenuFrom(node: Node, heard: Heard, attempt: nat)
    requires forall j :: 0 <= j < attempt && j < |heard.pressed| ==> !Takes(node, heard.pressed[j])
    ensures var outcome := MenuAnswer(node, heard, attempt);
      || (NoKey(node, heard) && outcome == "max_retries")
      || exists k: nat :: FirstKey(node, heard, k) && outcome == "digit:" + heard.pressed[k]
    decreases node.maxRetries - attempt
  {
    if attempt < node.maxRetries {
      if attempt < |heard.pressed| && Takes(node, heard.pressed[attempt]) {
        assert FirstKey(node, heard, attempt);
      } else {
        MenuFrom(node, heard, attempt + 1);
      }
    }
  }

  lemma {:induction false} GatherFrom(node: Node, heard: Heard, attempt: nat)
    requires forall j :: 0 <= j < attempt && j < |heard.pressed| ==> heard.pressed[j] == ""
    ensures GatherAnswer(node, heard, attempt)
         == if SomeDigits(node, heard) then "default" else "max_retries"
    decreases node.maxRetries - attempt
  {
    if attempt < node.maxRetries && PressedAt(heard, attempt) == "" { GatherFrom(node, heard, attempt + 1); }
  }

  lemma {:induction false} TimingMeans(schedule: seq<Opening>, day: Weekday, minute: Minute)
    ensures TimingAnswer(schedule, day, minute)
         == if InHours(schedule, day, minute) then "in_hours" else "out_of_hours"
  {
    if schedule == [] {
    } else if schedule[0].day == day {
      assert FirstEntry(schedule, day, 0);
      OnlyFirst(schedule, day);
    } else {
      TimingMeans(schedule[1..], day, minute);
      forall k: nat ensures FirstEntry(schedule, day, k) <==> k > 0 && FirstEntry(schedule[1..], day, k - 1) {
        LaterEntry(schedule, day, k);
      }
      if InHours(schedule[1..], day, minute) {
        var k: nat :| FirstEntry(schedule[1..], day, k) && schedule[1..][k].enabled
                      && schedule[1..][k].start <= minute < schedule[1..][k].end;
        assert FirstEntry(schedule, day, k + 1);
      }
    }
  }

  lemma OnlyFirst(schedule: seq<Opening>, day: Weekday)
    requires schedule != [] && schedule[0].day == day
    ensures forall k: nat :: FirstEntry(schedule, day, k) ==> k == 0
  {
  }

  lemma LaterEntry(schedule: seq<Opening>, day: Weekday, k: nat)
    requires schedule != [] && schedule[0].day != day
    ensures FirstEntry(schedule, day, k) <==> k > 0 && FirstEntry(schedule[1..], day, k - 1)
  {
    if k > 0 && FirstEntry(schedule[1..], day, k - 1) {
      forall j | 0 <= j < k ensures schedule[j].day != day {
        if j > 0 { assert schedule[j] == schedule[1..][j - 1]; }
      }
    }
    if FirstEntry(schedule, day, k) {
      assert k > 0;
      forall j | 0 <= j < k - 1 ensures schedule[1..][j].day != day {
        assert schedule[1..][j] == schedule[j + 1];
      }
    }
  }

  /** Each handler answers what was heard: exactly one outcome goes with it, and that is the answer. */
  lemma AnswerMeans(node: Node, heard: Heard)
    requires node.kind != Hangup && node.kind != Unknown
    ensures IsOutcome(node, heard, Answer(node, heard))
    ensures forall outcome :: IsOutcome(node, heard, outcome) ==> outcome == Answer(node, heard)
  {
    hide MenuAnswer, GatherAnswer, TimingAnswer, InHours;
    match node.kind
    case Menu =>
      MenuFrom(node, heard, 0);
      FirstIsUnique(node, heard);
    case Gather => GatherFrom(node, heard, 0);
    case Timing => TimingMeans(node.schedule, heard.day, heard.minute);
    case _ =>
  }

  lemma FirstIsUnique(node: Node, heard: Heard)
    ensures forall i: nat, j: nat :: FirstKey(node, heard, i) && FirstKey(node, heard, j) ==> i == j
    ensures forall i: nat :: FirstKey(node, heard, i) ==> !NoKey(node, heard)
  {
  }

  // ---------------------------------------------------------------- the whole call

  lemma LeadsExactly(edges: seq<Edge>, from: string, outcome: string, to: string)
    ensures LeadsTo(edges, from, outcome, to) <==> Target(EdgesFrom(edges, from), Default(outcome)) == Some(to)
  {
    hide Target, EdgesFrom;
    TargetIsFirst(edges, from, Default(outcome));
    assert forall e: Edge :: Fits(e, Default(outcome)) <==>
      e.condition in {if outcome == "" then "default" else outcome, "*"};
    if LeadsTo(edges, from, outcome, to) { assert Follows(edges, from, Default(outcome), to); }
  }

  /** A node at which the call goes on: it exists and is neither a hangup nor of an unknown type. */
  ghost predicate GoesOn(nodes: seq<Node>, id: string) {
    exists m: nat :: IsNodeOf(nodes, id, m) && nodes[m].kind != Hangup && nodes[m].kind != Unknown
  }

  lemma GoesOnExactly(nodes: seq<Node>, id: string)
    ensures GoesOn(nodes, id) <==> Runs(nodes, id)
  {
    hide NodeOf;
    LastNodeCounts(nodes, id);
    if Runs(nodes, id) {
      var m: nat :| IsNodeOf(nodes, id, m);
      assert NodeOf(nodes, id) == Some(nodes[m]);
    }
  }

  /** Each recorded step: the last node of its id, and the outcome that goes with what was heard in that turn. */
  ghost predicate StepIsRight(nodes: seq<Node>, step: PathStep, heard: Heard) {
    exists m: nat :: IsNodeOf(nodes, step.node, m) && IsOutcome(nodes[m], heard, step.outcome)
  }

  /** The call stops after a step that leads nowhere, or to a node at which it does not go on. */
  ghost predicate EndsThere(nodes: seq<Node>, edges: seq<Edge>, step: PathStep) {
    forall to :: LeadsTo(edges, step.node, step.outcome, to) ==> to == "" || !GoesOn(nodes, to)
  }

  lemma FirstStep(nodes: seq<Node>, edges: seq<Edge>, at: string, heard: Heard)
    requires Runs(nodes, at)
    ensures StepIsRight(nodes, PathStep(at, AnswerAt(nodes, at, heard)), heard)
  {
    hide Answer, NodeOf, IsOutcome;
    LastNodeCounts(nodes, at);
    var m: nat :| IsNodeOf(nodes, at, m);
    assert NodeOf(nodes, at) == Some(nodes[m]);
    AnswerMeans(nodes[m], heard);
  }

  /**
   * A path a call may record. It starts at the start node if that goes on; every step is the answer to what was
   * heard in that turn; each next step is where the first edge leads that says the outcome; and if the path stops
   * before everything was heard, it stops where the graph ends it.
   */
  ghost predicate IsCall(nodes: seq<Node>, edges: seq<Edge>, start: string, heard: seq<Heard>, path: seq<PathStep>) {
    && |path| <= |heard|
    && (path == [] <==> heard == [] || !GoesOn(nodes, start)) && (path != [] ==> path[0].node == start)
    && (forall i :: 0 <= i < |path| ==> StepIsRight(nodes, path[i], heard[i]))
    && (forall i :: 0 < i < |path| ==> LeadsTo(edges, path[i - 1].node, path[i - 1].outcome, path[i].node))
    && (0 < |path| < |heard| ==> EndsThere(nodes, edges, path[|path| - 1]))
  }

  lemma OneStepCall(nodes: seq<Node>, edges: seq<Edge>, step: PathStep, heard: seq<Heard>)
    requires heard != [] && GoesOn(nodes, step.node) && StepIsRight(nodes, step, heard[0])
    requires EndsThere(nodes, edges, step)
    ensures IsCall(nodes, edges, step.node, heard, [step])
  {
    hide GoesOn, StepIsRight, EndsThere, LeadsTo;
  }

  lemma LongerCall(nodes: seq<Node>, edges: seq<Edge>, step: PathStep, next: string, heard: seq<Heard>,
        rest: seq<PathStep>)
    requires heard != [] && GoesOn(nodes, step.node) && StepIsRight(nodes, step, heard[0])
    requires forall to :: LeadsTo(edges, step.node, step.outcome, to) <==> to == next
    requires IsCall(nodes, edges, next, heard[1..], rest)
    ensures IsCall(nodes, edges, step.node, heard, [step] + rest)
  {
    hide GoesOn, StepIsRight, LeadsTo;
    var path := [step] + rest;
    forall i | 0 <= i < |path| ensures StepIsRight(nodes, path[i], heard[i]) {
      if i > 0 { assert path[i] == rest[i - 1] && heard[i] == heard[1..][i - 1]; }
    }
    forall i | 0 < i < |path| ensures LeadsTo(edges, path[i - 1].node, path[i - 1].outcome, path[i].node) {
      if i > 1 { assert path[i] == rest[i - 1] && path[i - 1] == rest[i - 2]; }
    }
    if rest != [] { assert path[|path| - 1] == rest[|rest| - 1]; }
  }

  /** The call the interpreter makes is the call of the graph. */
  lemma {:induction false} CallMeans(nodes: seq<Node>, edges: seq<Edge>, start: string, heard: seq<Heard>)
    ensures IsCall(nodes, edges, start, heard, Trail(nodes, edges, start, heard))
    decreases |heard|
  {
    hide Trail, Runs, Target, EdgesFrom, Default, AnswerAt, GoesOn, LeadsTo, StepIsRight;
    TrailUnfolds(nodes, edges, start, heard);
    GoesOnExactly(nodes, start);
    if heard != [] && Runs(nodes, start) {
      hide IsCall;
      var outcome := AnswerAt(nodes, start, heard[0]);
      var next := Target(EdgesFrom(edges, start), Default(outcome));
      FirstStep(nodes, edges, start, heard[0]);
      forall to ensures LeadsTo(edges, start, outcome, to) <==> next == Some(to) {
        LeadsExactly(edges, start, outcome, to);
      }
      if next.Some? && next.value != "" {
        CallMeans(nodes, edges, next.value, heard[1..]);
        LongerCall(nodes, edges, PathStep(start, outcome), next.value, heard,
                   Trail(nodes, edges, next.value, heard[1..]));
      } else {
        OneStepCall(nodes, edges, PathStep(start, outcome), heard);
      }
    }
  }
}
