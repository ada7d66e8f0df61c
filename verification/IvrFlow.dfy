/** packages/calling/src/ivr/executor.ts: a call walks a graph of nodes, edge by edge. */
module IvrFlow {
  import opened JsText

  datatype Kind = Greeting | Menu | Gather | HttpCallback | Transfer | GotoFlow | Timing | Hangup | Unknown

  type Weekday = d: nat | d < 7
  type Minute = m: nat | m < 1440

  /** One entry of a timing node's schedule, its times in minutes of the day. */
  datatype Opening = Opening(day: int, enabled: bool, start: int, end: int)

  /** The configuration the answers depend on: a menu's keys (any, when there are none), retries, opening hours. */
  datatype Node = Node(id: string, kind: Kind, keys: set<string>, maxRetries: int, schedule: seq<Opening>)
  datatype Edge = Edge(from: string, to: string, condition: string)

  /** One entry of the recorded path; the outcome is empty when the handler gave none. */
  datatype PathStep = PathStep(node: string, outcome: string)

  // ---------------------------------------------------------------- the indexes

  /** A later node with the same id replaces an earlier one. */
  function NodeOf(nodes: seq<Node>, id: string): Option<Node> {
    if nodes == [] then None
    else if nodes[|nodes| - 1].id == id then Some(nodes[|nodes| - 1])
    else NodeOf(nodes[..|nodes| - 1], id)
  }

  function EdgesFrom(edges: seq<Edge>, id: string): seq<Edge> {
    if edges == [] then []
    else EdgesFrom(edges[..|edges| - 1], id) + if edges[|edges| - 1].from == id then [edges[|edges| - 1]] else []
  }

  predicate Fits(edge: Edge, outcome: string) { edge.condition == outcome || edge.condition == "*" }

  function Target(edges: seq<Edge>, outcome: string): Option<string> {
    if edges == [] then None
    else if Fits(edges[0], outcome) then Some(edges[0].to)
    else Target(edges[1..], outcome)
  }

  function Default(outcome: string): string { if outcome == "" then "default" else outcome }

  predicate Runs(nodes: seq<Node>, id: string) {
    match NodeOf(nodes, id) case None => false case Some(n) => n.kind != Hangup && n.kind != Unknown
  }

  // ---------------------------------------------------------------- what the handlers answer

  /**
   * What the outside gives a handler in one turn: the key of each menu attempt or the digits of each gather
   * attempt (empty for none), the clock, the callback's response, the outcome of a transfer.
   */
  datatype Heard = Heard(pressed: seq<string>, day: Weekday, minute: Minute, ok: bool, transferred: string)

  function PressedAt(heard: Heard, attempt: nat): string {
    if attempt < |heard.pressed| then heard.pressed[attempt] else ""
  }

  predicate Accepts(node: Node, key: string) { key != "" && (node.keys == {} || key in node.keys) }

  function MenuAnswer(node: Node, heard: Heard, attempt: nat): string
    decreases node.maxRetries - attempt
  {
    if attempt >= node.maxRetries then "max_retries"
    else if Accepts(node, PressedAt(heard, attempt)) then "digit:" + PressedAt(heard, attempt)
    else MenuAnswer(node, heard, attempt + 1)
  }

  function GatherAnswer(node: Node, heard: Heard, attempt: nat): string
    decreases node.maxRetries - attempt
  {
    if attempt >= node.maxRetries then "max_retries"
    else if PressedAt(heard, attempt) != "" then "default"
    else GatherAnswer(node, heard, attempt + 1)
  }

  /** The first entry for today decides. */
  function TimingAnswer(schedule: seq<Opening>, day: Weekday, minute: Minute): string {
    if schedule == [] then "out_of_hours"
    else if schedule[0].day != day then TimingAnswer(schedule[1..], day, minute)
    else if schedule[0].enabled && schedule[0].start <= minute < schedule[0].end then "in_hours"
    else "out_of_hours"
  }

  function Answer(node: Node, heard: Heard): string {
    match node.kind
    case Greeting => "default"
    case Menu => MenuAnswer(node, heard, 0)
    case Gather => GatherAnswer(node, heard, 0)
    case HttpCallback => if heard.ok then "http:2xx" else "http:non2xx"
    case Transfer => heard.transferred
    case GotoFlow => "goto_flow"
    case Timing => TimingAnswer(node.schedule, heard.day, heard.minute)
    case Hangup => ""
    case Unknown => ""
  }

  function AnswerAt(nodes: seq<Node>, at: string, heard: Heard): string {
    match NodeOf(nodes, at) case None => "" case Some(node) => Answer(node, heard)
  }

  /** The path of a call that hears these things, one a turn, before it is stopped from outside. */
  function Trail(nodes: seq<Node>, edges: seq<Edge>, at: string, heard: seq<Heard>): seq<PathStep>
    decreases |heard|
  {
    if heard == [] || !Runs(nodes, at) then []
    else
      var outcome := AnswerAt(nodes, at, heard[0]);
      [PathStep(at, outcome)] +
      match Target(EdgesFrom(edges, at), Default(outcome))
      case None => []
      case Some(next) => if next == "" then [] else Trail(nodes, edges, next, heard[1..])
  }

  lemma TrailUnfolds(nodes: seq<Node>, edges: seq<Edge>, at: string, heard: seq<Heard>)
    ensures heard == [] || !Runs(nodes, at) ==> Trail(nodes, edges, at, heard) == []
    ensures heard != [] && Runs(nodes, at) ==>
      var outcome := AnswerAt(nodes, at, heard[0]);
      var step, next := PathStep(at, outcome), Target(EdgesFrom(edges, at), Default(outcome));
      Trail(nodes, edges, at, heard) ==
        if next.None? || next.value == "" then [step] else [step] + Trail(nodes, edges, next.value, heard[1..])
  {
    hide EdgesFrom, Target, Runs, AnswerAt;
  }

  lemma Regroup(path: seq<PathStep>, step: PathStep, rest: seq<PathStep>)
    ensures path + ([step] + rest) == (path + [step]) + rest
  {
  }

  lemma FoundById(nodes: seq<Node>, id: string)
    ensures NodeOf(nodes, id).Some? ==> NodeOf(nodes, id).value.id == id
    ensures var found := NodeOf(nodes, id);
      Runs(nodes, id) <==> found.Some? && !found.value.kind.Hangup? && !found.value.kind.Unknown?
    ensures NodeOf(nodes, id).Some? ==>
      forall heard :: AnswerAt(nodes, id, heard) == Answer(NodeOf(nodes, id).value, heard)
  {
    hide Answer;
  }

  // ---------------------------------------------------------------- the executor

  class IvrExecutor {
    const nodes: seq<Node>
    const edges: seq<Edge>
    var nodeMap: map<string, Node>
    var edgeMap: map<string, seq<Edge>>
    var currentNode: string
    var path: seq<PathStep>
    var isRunning: bool

    ghost predicate Valid()
      reads this`nodeMap, this`edgeMap
    {
      && (forall id :: NodeOf(nodes, id) == GetNode(id))
      && forall id :: EdgesFrom(edges, id) == GetEdges(id)
    }

    function GetNode(id: string): Option<Node>
      reads this`nodeMap
    {
      if id in nodeMap then Some(nodeMap[id]) else None
    }

    function GetEdges(id: string): seq<Edge>
      reads this`edgeMap
    {
      if id in edgeMap then edgeMap[id] else []
    }

    constructor (nodes: seq<Node>, edges: seq<Edge>, start: string)
      ensures Valid() && isRunning && currentNode == start && path == []
      ensures this.nodes == nodes && this.edges == edges
    {
      this.nodes, this.edges, nodeMap, edgeMap := nodes, edges, map[], map[];
      currentNode, path, isRunning := start, [], true;
      new;
      BuildMaps();
    }

    method BuildMaps()
      requires nodeMap == map[] && edgeMap == map[]
      modifies this`nodeMap, this`edgeMap
      ensures Valid()
    {
      for i := 0 to |nodes|
        invariant edgeMap == map[] && forall id :: NodeOf(nodes[..i], id) == GetNode(id)
      {
        assert nodes[..i + 1][..i] == nodes[..i];
        nodeMap := nodeMap[nodes[i].id := nodes[i]];
      }
      assert nodes[..|nodes|] == nodes;
      for i := 0 to |edges|
        invariant forall id :: NodeOf(nodes, id) == GetNode(id)
        invariant forall id :: EdgesFrom(edges[..i], id) == GetEdges(id)
      {
        hide NodeOf;
        assert edges[..i + 1][..i] == edges[..i];
        var edge := edges[i];
        if edge.from !in edgeMap {
          edgeMap := edgeMap[edge.from := []];
        }
        edgeMap := edgeMap[edge.from := edgeMap[edge.from] + [edge]];
      }
      assert edges[..|edges|] == edges;
    }

    lemma Indexed(id: string)
      requires Valid()
      ensures GetNode(id) == NodeOf(nodes, id)
    {
    }

    method ResolveEdge(nodeId: string, outcome: string) returns (next: Option<string>)
      requires Valid()
      ensures next == Target(EdgesFrom(edges, nodeId), outcome)
    {
      var found := GetEdges(nodeId);
      for i := 0 to |found|
        invariant Target(found, outcome) == Target(found[i..], outcome)
      {
        assert found[i..][1..] == found[i + 1..];
        if found[i].condition == outcome || found[i].condition == "*" {
          return Some(found[i].to);
        }
      }
      next := None;
    }

    /** Turn by turn, until the graph ends the call or it is stopped after as many turns as are heard. */
    method Execute(heard: seq<Heard>) returns (completed: bool)
      requires Valid() && isRunning
      modifies this`currentNode, this`path, this`isRunning
      ensures Valid()
      ensures path == old(path) + Trail(nodes, edges, old(currentNode), heard)
      ensures completed <==>
        |path| == |old(path)| + |heard| || GetNode(currentNode).None? || Runs(nodes, currentNode)
    {
      hide Valid, Trail, EdgesFrom, NodeOf, Target, Runs, Default, Answer, AnswerAt;
      var turn := 0;
      while isRunning
        invariant Valid() && isRunning && turn <= |heard| && |path| == |old(path)| + turn
        invariant path + Trail(nodes, edges, currentNode, heard[turn..])
               == old(path) + Trail(nodes, edges, old(currentNode), heard)
        decreases |heard| - turn, isRunning
      {
        TrailUnfolds(nodes, edges, currentNode, heard[turn..]);
        FoundById(nodes, currentNode);
        Indexed(currentNode);
        ghost var was := path;
        if turn == |heard| {
          isRunning := false;
          break;
        }
        var node := GetNode(currentNode);
        if node.None? { break; }
        if node.value.kind == Hangup {
          isRunning := false;
          return false;
        }
        if node.value.kind == Unknown { return false; }
        var outcome := Handle(node.value, heard[turn]);
        path := path + [PathStep(node.value.id, outcome)];
        var nextId := ResolveEdge(node.value.id, Default(outcome));
        if nextId.None? || nextId.value == "" { break; }
        currentNode := nextId.value;
        turn := turn + 1;
        Regroup(was, path[|was|], Trail(nodes, edges, currentNode, heard[turn..]));
      }
      completed := true;
    }
  }

  /** The switch over the node types. */
  method Handle(node: Node, heard: Heard) returns (outcome: string)
    ensures outcome == Answer(node, heard)
  {
    match node.kind
    case Menu => outcome := ExecuteMenu(node, heard);
    case Gather => outcome := ExecuteGather(node, heard);
    case Timing => outcome := ExecuteTiming(node.schedule, heard.day, heard.minute);
    case _ => outcome := Answer(node, heard);
  }

  method ExecuteMenu(node: Node, heard: Heard) returns (outcome: string)
    ensures outcome == MenuAnswer(node, heard, 0)
  {
    var attempt := 0;
    while attempt < node.maxRetries
      invariant MenuAnswer(node, heard, attempt) == MenuAnswer(node, heard, 0)
    {
      var digit := PressedAt(heard, attempt);
      if digit != "" && (|node.keys| == 0 || digit in node.keys) {
        return "digit:" + digit;
      }
      attempt := attempt + 1;
    }
    outcome := "max_retries";
  }

  method ExecuteGather(node: Node, heard: Heard) returns (outcome: string)
    ensures outcome == GatherAnswer(node, heard, 0)
  {
    var attempt := 0;
    while attempt < node.maxRetries
      invariant GatherAnswer(node, heard, attempt) == GatherAnswer(node, heard, 0)
    {
      var collected := PressedAt(heard, attempt);
      if |collected| > 0 {
        return "default";
      }
      attempt := attempt + 1;
    }
    outcome := "max_retries";
  }

  method ExecuteTiming(schedule: seq<Opening>, day: Weekday, minute: Minute) returns (outcome: string)
    ensures outcome == TimingAnswer(schedule, day, minute)
  {
    for i := 0 to |schedule|
      invariant TimingAnswer(schedule[i..], day, minute) == TimingAnswer(schedule, day, minute)
    {
      assert schedule[i..][1..] == schedule[i + 1..];
      var entry := schedule[i];
      if entry.day != day { continue; }
      if !entry.enabled { return "out_of_hours"; }
      if minute >= entry.start && minute < entry.end {
        return "in_hours";
      }
      return "out_of_hours";
    }
    outcome := "out_of_hours";
  }

  /** The entry that decides a day, if there is one. */
  function EntryFor(schedule: seq<Opening>, day: Weekday): Option<Opening> {
    if schedule == [] then None
    else if schedule[0].day == day then Some(schedule[0])
    else EntryFor(schedule[1..], day)
  }

  /** Some minute of the day is inside the opening hours. */
  predicate OpenOn(schedule: seq<Opening>, day: Weekday) {
    match EntryFor(schedule, day)
    case None => false
    case Some(e) => e.enabled && Max(0, e.start) < Min(1440, e.end)
  }

  /** Every minute is. */
  predicate OpenAllDay(schedule: seq<Opening>, day: Weekday) {
    match EntryFor(schedule, day)
    case None => false
    case Some(e) => e.enabled && e.start <= 0 && e.end >= 1440
  }

  lemma {:induction false} TimingByEntry(schedule: seq<Opening>, day: Weekday, minute: Minute)
    ensures var entry := EntryFor(schedule, day);
      var open := entry.Some? && entry.value.enabled && entry.value.start <= minute < entry.value.end;
      TimingAnswer(schedule, day, minute) == if open then "in_hours" else "out_of_hours"
  {
    if schedule != [] && schedule[0].day != day { TimingByEntry(schedule[1..], day, minute); }
  }

  lemma TimingAnswers(node: Node, heard: Heard)
    requires node.kind == Timing
    ensures CanAnswer(node, TimingAnswer(node.schedule, heard.day, heard.minute))
  {
    hide EntryFor, TimingAnswer;
    TimingByEntry(node.schedule, heard.day, heard.minute);
    if TimingAnswer(node.schedule, heard.day, heard.minute) == "in_hours" {
      assert OpenOn(node.schedule, heard.day);
    } else {
      assert !OpenAllDay(node.schedule, heard.day);
    }
  }

  /** A time at which a timing node gives an answer it can give. */
  lemma TimeFor(node: Node, outcome: string) returns (day: Weekday, minute: Minute)
    requires node.kind == Timing && CanAnswer(node, outcome)
    ensures TimingAnswer(node.schedule, day, minute) == outcome
  {
    hide EntryFor, TimingAnswer;
    if outcome == "in_hours" {
      day :| OpenOn(node.schedule, day);
      minute := Max(0, EntryFor(node.schedule, day).value.start);
    } else {
      day :| !OpenAllDay(node.schedule, day);
      var entry := EntryFor(node.schedule, day);
      minute := if entry.Some? && entry.value.start <= 0 < entry.value.end < 1440 then entry.value.end else 0;
    }
    TimingByEntry(node.schedule, day, minute);
  }

  /** Every answer a node can give, whatever it hears. */
  ghost predicate CanAnswer(node: Node, outcome: string) {
    match node.kind
    case Greeting => outcome == "default"
    case Menu =>
      outcome == "max_retries" || (node.maxRetries > 0 && exists key :: Accepts(node, key) && outcome == "digit:" + key)
    case Gather => outcome == "max_retries" || (node.maxRetries > 0 && outcome == "default")
    case HttpCallback => outcome == "http:2xx" || outcome == "http:non2xx"
    case Transfer => true
    case GotoFlow => outcome == "goto_flow"
    case Timing =>
      || (outcome == "in_hours" && exists day: Weekday :: OpenOn(node.schedule, day))
      || (outcome == "out_of_hours" && exists day: Weekday :: !OpenAllDay(node.schedule, day))
    case Hangup => outcome == ""
    case Unknown => outcome == ""
  }

  lemma {:induction false} MenuAnswers(node: Node, heard: Heard, attempt: nat)
    ensures var outcome := MenuAnswer(node, heard, attempt);
      outcome == "max_retries" || (node.maxRetries > 0 && exists key :: Accepts(node, key) && outcome == "digit:" + key)
    ensures attempt >= |heard.pressed| ==> MenuAnswer(node, heard, attempt) == "max_retries"
    decreases node.maxRetries - attempt
  {
    hide Accepts;
    if attempt < node.maxRetries {
      if !Accepts(node, PressedAt(heard, attempt)) { MenuAnswers(node, heard, attempt + 1); }
      NothingAccepted(node);
    }
  }

  lemma NothingAccepted(node: Node)
    ensures !Accepts(node, "")
  {
  }

  lemma {:induction false} GatherAnswers(node: Node, heard: Heard, attempt: nat)
    ensures var outcome := GatherAnswer(node, heard, attempt);
      outcome == "max_retries" || (node.maxRetries > 0 && outcome == "default")
    ensures attempt >= |heard.pressed| ==> GatherAnswer(node, heard, attempt) == "max_retries"
    decreases node.maxRetries - attempt
  {
    if attempt < node.maxRetries { GatherAnswers(node, heard, attempt + 1); }
  }

  /** The handlers give exactly those answers. */
  lemma HandlersAnswer(node: Node, outcome: string)
    ensures (exists heard :: Answer(node, heard) == outcome) <==> CanAnswer(node, outcome)
  {
    hide MenuAnswer, GatherAnswer, TimingAnswer;
    if heard :| Answer(node, heard) == outcome {
      MenuAnswers(node, heard, 0);
      GatherAnswers(node, heard, 0);
      if node.kind == Timing { TimingAnswers(node, heard); }
    }
    if CanAnswer(node, outcome) {
      var heard := GetAnswer(node, outcome);
    }
  }

  /** Something to hear that leads to a given answer. */
  lemma GetAnswer(node: Node, outcome: string) returns (heard: Heard)
    requires CanAnswer(node, outcome)
    ensures Answer(node, heard) == outcome
  {
    heard := Heard([], 0, 0, outcome == "http:2xx", outcome);
    match node.kind
    case Menu =>
      MenuAnswers(node, heard, 0);
      if outcome != "max_retries" {
        var key :| Accepts(node, key) && outcome == "digit:" + key;
        heard := heard.(pressed := [key]);
      }
    case Gather =>
      GatherAnswers(node, heard, 0);
      if outcome != "max_retries" { heard := heard.(pressed := ["1"]); }
    case Timing =>
      var day, minute := TimeFor(node, outcome);
      heard := heard.(day := day, minute := minute);
    case _ =>
  }

  /** Digits up to the terminator, the maximum, or the timeout; the maximum is looked at only after a digit. */
  method CollectDigits(typed: seq<string>, maxDigits: int, terminator: string) returns (digits: seq<string>)
    ensures digits <= typed && terminator !in digits && |digits| <= Max(1, maxDigits)
    ensures |digits| == |typed| || |digits| == Max(1, maxDigits) || typed[|digits|] == terminator
  {
    digits := [];
    for i := 0 to |typed|
      invariant digits == typed[..i] && terminator !in digits && (i == 0 || i < maxDigits)
    {
      if typed[i] == terminator {
        return;
      }
      digits := digits + [typed[i]];
      if |digits| >= maxDigits {
        return;
      }
    }
  }

  function Max(a: int, b: int): int { if a < b then b else a }

  function Min(a: int, b: int): int { if a < b then a else b }

  // ---------------------------------------------------------------- the path is a walk

  /** The first edge out of a node, in the order of the edge list, that the outcome fits leads there. */
  ghost predicate Follows(edges: seq<Edge>, from: string, outcome: string, to: string) {
    exists j :: 0 <= j < |edges| && IsFirst(edges, from, outcome, j) && edges[j].to == to
  }

  ghost predicate IsFirst(edges: seq<Edge>, from: string, outcome: string, j: nat)
    requires j < |edges|
  {
    && edges[j].from == from && Fits(edges[j], outcome)
    && forall k :: 0 <= k < j ==> edges[k].from != from || !Fits(edges[k], outcome)
  }

  lemma {:induction false} TargetAppend(edges: seq<Edge>, more: seq<Edge>, outcome: string)
    ensures var first := Target(edges, outcome);
      Target(edges + more, outcome) == if first.Some? then first else Target(more, outcome)
  {
    if edges == [] {
      assert edges + more == more;
    } else {
      assert (edges + more)[1..] == edges[1..] + more;
      TargetAppend(edges[1..], more, outcome);
    }
  }

  /** One more edge at the end is followed only if none before it fits. */
  lemma FollowsAppend(edges: seq<Edge>, last: Edge, from: string, outcome: string, to: string)
    ensures Follows(edges + [last], from, outcome, to) <==>
      || Follows(edges, from, outcome, to)
      || (NoneFits(edges, from, outcome) && last.from == from && Fits(last, outcome) && last.to == to)
  {
    hide Fits;
    var all := edges + [last];
    assert all[|edges|] == last && forall k :: 0 <= k < |edges| ==> all[k] == edges[k];
    if j :| 0 <= j < |edges| && IsFirst(edges, from, outcome, j) && edges[j].to == to {
      assert IsFirst(all, from, outcome, j);
    }
    if j :| 0 <= j < |all| && IsFirst(all, from, outcome, j) && all[j].to == to {
      if j < |edges| { assert edges[j] == all[j] && IsFirst(edges, from, outcome, j); }
    }
    if NoneFits(edges, from, outcome) && last.from == from && Fits(last, outcome) {
      assert IsFirst(all, from, outcome, |edges|);
    }
  }

  ghost predicate NoneFits(edges: seq<Edge>, from: string, outcome: string) {
    forall k :: 0 <= k < |edges| ==> edges[k].from != from || !Fits(edges[k], outcome)
  }

  /** Filtering by source and then taking the first fit is the same as scanning the whole list. */
  lemma {:induction false} TargetIsFirst(edges: seq<Edge>, from: string, outcome: string)
    ensures forall to :: Target(EdgesFrom(edges, from), outcome) == Some(to) <==> Follows(edges, from, outcome, to)
    ensures Target(EdgesFrom(edges, from), outcome) == None <==> NoneFits(edges, from, outcome)
  {
    if edges != [] {
      hide Fits, Follows;
      var n := |edges| - 1;
      var rest, last := edges[..n], edges[n];
      assert edges == rest + [last];
      TargetIsFirst(rest, from, outcome);
      TargetAppend(EdgesFrom(rest, from), if last.from == from then [last] else [], outcome);
      forall to ensures Target(EdgesFrom(edges, from), outcome) == Some(to) <==> Follows(edges, from, outcome, to) {
        FollowsAppend(rest, last, from, outcome, to);
      }
    }
  }

  /** One node can pass the call on to another: some answer its handler can give leads there. */
  ghost predicate Live(nodes: seq<Node>, edges: seq<Edge>, from: string, to: string) {
    to != "" && Runs(nodes, from) && exists heard :: Follows(edges, from, Default(AnswerAt(nodes, from, heard)), to)
  }

  /** An edge is usable exactly when it is the first to fit an answer its source can give. */
  lemma LiveExactly(nodes: seq<Node>, edges: seq<Edge>, from: string, to: string)
    ensures Live(nodes, edges, from, to) <==>
      to != "" && Runs(nodes, from) &&
      exists outcome :: CanAnswer(NodeOf(nodes, from).value, outcome) && Follows(edges, from, Default(outcome), to)
  {
    hide Answer, CanAnswer, Follows, Default;
    if Runs(nodes, from) {
      var node := NodeOf(nodes, from).value;
      if heard :| Follows(edges, from, Default(AnswerAt(nodes, from, heard)), to) {
        HandlersAnswer(node, Answer(node, heard));
      }
      if outcome :| CanAnswer(node, outcome) && Follows(edges, from, Default(outcome), to) {
        var heard := GetAnswer(node, outcome);
        assert AnswerAt(nodes, from, heard) == outcome;
      }
    }
  }

  /**
   * Every call records a walk: it starts at the start node, every node on it exists and is run, and each
   * next node is where the first fitting edge leads.
   */
  lemma {:induction false} TrailIsWalk(nodes: seq<Node>, edges: seq<Edge>, at: string, heard: seq<Heard>)
    ensures var path := Trail(nodes, edges, at, heard);
      && |path| <= |heard| && (path != [] ==> path[0].node == at)
      && (forall i :: 0 <= i < |path| ==>
            Runs(nodes, path[i].node) && path[i].outcome == AnswerAt(nodes, path[i].node, heard[i]))
      && forall i, j :: 0 <= i && j == i + 1 < |path| ==>
           Follows(edges, path[i].node, Default(path[i].outcome), path[j].node)
    ensures forall i :: 0 < i < |Trail(nodes, edges, at, heard)| ==> Trail(nodes, edges, at, heard)[i].node != ""
    decreases |heard|
  {
    hide Trail, Runs, Follows, Target, EdgesFrom, Default, AnswerAt;
    TrailUnfolds(nodes, edges, at, heard);
    if heard != [] && Runs(nodes, at) {
      var outcome := AnswerAt(nodes, at, heard[0]);
      var next := Target(EdgesFrom(edges, at), Default(outcome));
      TargetIsFirst(edges, at, Default(outcome));
      if next.Some? && next.value != "" {
        TrailIsWalk(nodes, edges, next.value, heard[1..]);
      }
    }
  }

  // ---------------------------------------------------------------- cycles

  function Visited(path: seq<PathStep>): seq<string> { seq(|path|, i requires 0 <= i < |path| => path[i].node) }

  ghost predicate NoRepeats(p: seq<string>) { forall i, j :: 0 <= i < j < |p| ==> p[i] != p[j] }

  ghost predicate IsLiveWalk(nodes: seq<Node>, edges: seq<Edge>, p: seq<string>) {
    forall i, j :: 0 <= i && j == i + 1 < |p| ==> Live(nodes, edges, p[i], p[j])
  }

  /** No walk along usable edges leads back to where it started. */
  ghost predicate Acyclic(nodes: seq<Node>, edges: seq<Edge>) {
    forall p :: IsLiveWalk(nodes, edges, p) && |p| >= 2 ==> p[0] != p[|p| - 1]
  }

  lemma TrailIsLiveWalk(nodes: seq<Node>, edges: seq<Edge>, at: string, heard: seq<Heard>)
    ensures IsLiveWalk(nodes, edges, Visited(Trail(nodes, edges, at, heard)))
  {
    hide Trail, Runs, Follows, Default, AnswerAt;
    TrailIsWalk(nodes, edges, at, heard);
  }

  lemma AcyclicNeverRevisits(nodes: seq<Node>, edges: seq<Edge>, at: string, heard: seq<Heard>)
    requires Acyclic(nodes, edges)
    ensures NoRepeats(Visited(Trail(nodes, edges, at, heard)))
  {
    hide Trail, Live, Visited, IsLiveWalk;
    var p := Visited(Trail(nodes, edges, at, heard));
    TrailIsLiveWalk(nodes, edges, at, heard);
    forall i, j | 0 <= i < j < |p| ensures p[i] != p[j] {
      PartIsLiveWalk(nodes, edges, p, i, j);
      assert p[i..j + 1][0] == p[i] && p[i..j + 1][j - i] == p[j];
    }
  }

  lemma PartIsLiveWalk(nodes: seq<Node>, edges: seq<Edge>, p: seq<string>, i: nat, j: nat)
    requires IsLiveWalk(nodes, edges, p) && i < j < |p|
    ensures IsLiveWalk(nodes, edges, p[i..j + 1])
  {
    hide Live;
  }

  /** Something to hear that leads the call along a given walk. */
  lemma {:induction false} WalkIsTrail(nodes: seq<Node>, edges: seq<Edge>, p: seq<string>)
    returns (heard: seq<Heard>)
    requires p != [] && IsLiveWalk(nodes, edges, p) && Runs(nodes, p[|p| - 1])
    ensures Visited(Trail(nodes, edges, p[0], heard)) == p
  {
    hide Runs, Follows, EdgesFrom, Target, Default, AnswerAt;
    if |p| == 1 {
      heard := [Heard([], 0, 0, false, "")];
      TrailUnfolds(nodes, edges, p[0], heard);
    } else {
      assert Live(nodes, edges, p[0], p[1]);
      var first :| Follows(edges, p[0], Default(AnswerAt(nodes, p[0], first)), p[1]);
      TargetIsFirst(edges, p[0], Default(AnswerAt(nodes, p[0], first)));
      var rest := WalkIsTrail(nodes, edges, p[1..]);
      heard := [first] + rest;
      assert heard[1..] == rest;
      TrailUnfolds(nodes, edges, p[0], heard);
    }
  }

  /** Whatever is heard, no node is run twice exactly when the usable edges form no cycle. */
  lemma RevisitsExactlyOnCycles(nodes: seq<Node>, edges: seq<Edge>)
    ensures (forall at, heard :: NoRepeats(Visited(Trail(nodes, edges, at, heard)))) <==> Acyclic(nodes, edges)
  {
    hide Trail, Visited;
    if Acyclic(nodes, edges) {
      forall at, heard ensures NoRepeats(Visited(Trail(nodes, edges, at, heard))) {
        AcyclicNeverRevisits(nodes, edges, at, heard);
      }
    } else {
      var p :| IsLiveWalk(nodes, edges, p) && |p| >= 2 && p[0] == p[|p| - 1];
      assert Live(nodes, edges, p[0], p[1]);
      var heard := WalkIsTrail(nodes, edges, p);
      assert !NoRepeats(Visited(Trail(nodes, edges, p[0], heard)));
    }
  }

  lemma {:induction false} NodesHaveIds(nodes: seq<Node>, id: string)
    requires Runs(nodes, id)
    ensures id in (set n | n in nodes :: n.id)
  {
    if nodes[|nodes| - 1].id != id {
      NodesHaveIds(nodes[..|nodes| - 1], id);
    }
  }

  lemma {:induction false} DistinctFit(ids: set<string>, p: seq<string>)
    requires NoRepeats(p) && forall i :: 0 <= i < |p| ==> p[i] in ids
    ensures |p| <= |ids|
  {
    if p != [] {
      assert |ids - {p[0]}| == |ids| - 1;
      DistinctFit(ids - {p[0]}, p[1..]);
    }
  }

  /** On an acyclic graph every call ends by itself, after at most as many turns as there are nodes. */
  lemma AcyclicCallsEnd(nodes: seq<Node>, edges: seq<Edge>, at: string, heard: seq<Heard>)
    requires Acyclic(nodes, edges)
    ensures |Trail(nodes, edges, at, heard)| <= |set n | n in nodes :: n.id|
  {
    hide Trail, Runs, Acyclic;
    var p := Visited(Trail(nodes, edges, at, heard));
    AcyclicNeverRevisits(nodes, edges, at, heard);
    TrailIsWalk(nodes, edges, at, heard);
    forall i | 0 <= i < |p| ensures p[i] in (set n | n in nodes :: n.id) { NodesHaveIds(nodes, p[i]); }
    DistinctFit(set n | n in nodes :: n.id, p);
  }
}
