/**
 * packages/assignment/src/assigner.ts: who gets the next conversation. The rows of a team's agents
 * carry the time of their last assignment; where a missing time sorts is up to the database.
 */
module Assignment {
  import opened JsText

  type Agent = nat
  type Moment = Option<int>

  datatype User = User(id: Agent, isAvailable: bool, isActive: bool)

  // ---------------------------------------------------------------- the ordering of the rows

  datatype Nulls = NullsFirst | NullsLast

  predicate NotAfter(nulls: Nulls, a: Moment, b: Moment) {
    match (a, b)
    case (Some(x), Some(y)) => x <= y
    case (None, Some(_)) => nulls == NullsFirst
    case (Some(_), None) => nulls == NullsLast
    case (None, None) => true
  }

  type Times = map<Agent, Moment>

  /** One of the eligible agents whose last assignment comes first. */
  predicate IsNext(nulls: Nulls, times: Times, eligible: set<Agent>, a: Agent) {
    a in eligible && a in times && forall b :: b in eligible && b in times ==> NotAfter(nulls, times[a], times[b])
  }

  // ---------------------------------------------------------------- the class

  predicate IsEligible(u: User, memberIds: seq<Agent>, excluded: seq<Agent>) {
    u.id in memberIds && u.id !in excluded && u.isAvailable && u.isActive
  }

  /** The eligible agents in the order of the user table. */
  function Available(users: seq<User>, memberIds: seq<Agent>, excluded: seq<Agent>): seq<Agent> {
    if users == [] then []
    else
      var last := users[|users| - 1];
      Available(users[..|users| - 1], memberIds, excluded)
        + if IsEligible(last, memberIds, excluded) then [last.id] else []
  }

  /** The members that are not excluded, and whose user is available and active. */
  function Eligible(users: seq<User>, memberIds: seq<Agent>, excluded: seq<Agent>): set<Agent> {
    set u | u in users && IsEligible(u, memberIds, excluded) :: u.id
  }

  class Assigner {
    const nulls: Nulls
    var users: seq<User>
    var lastAssignedAt: Times

    constructor (nulls: Nulls, users: seq<User>, lastAssignedAt: Times)
      ensures this.nulls == nulls && this.users == users && this.lastAssignedAt == lastAssignedAt
    {
      this.nulls, this.users, this.lastAssignedAt := nulls, users, lastAssignedAt;
    }

    /** In the order of the user table. */
    method FilterAvailable(memberIds: seq<Agent>, excluded: seq<Agent>) returns (available: seq<Agent>)
      ensures available == Available(users, memberIds, excluded)
      ensures forall a :: a in available <==> a in Eligible(users, memberIds, excluded)
      ensures forall a :: a in available <==>
        a in memberIds && a !in excluded && exists u :: u in users && u.id == a && u.isAvailable && u.isActive
    {
      available := [];
      if |memberIds| == 0 {
        NobodyAvailable(users, excluded);
        return;
      }
      for i := 0 to |users|
        invariant available == Available(users[..i], memberIds, excluded)
        invariant forall a :: a in available <==> a in Eligible(users[..i], memberIds, excluded)
      {
        var user := users[i];
        assert users[..i + 1] == users[..i] + [user] && users[..i + 1][..i] == users[..i];
        if user.id in memberIds && user.id !in excluded && user.isAvailable && user.isActive {
          available := available + [user.id];
        }
      }
      assert users[..|users|] == users;
    }

    method AssignRoundRobin(memberIds: seq<Agent>, excluded: seq<Agent>, now: int) returns (selected: Option<Agent>)
      modifies this`lastAssignedAt
      ensures var eligible := Eligible(users, memberIds, excluded);
        if selected.None? then
          lastAssignedAt == old(lastAssignedAt) && forall a :: a in eligible ==> a !in lastAssignedAt
        else IsNext(nulls, old(lastAssignedAt), eligible, selected.value)
             && lastAssignedAt == old(lastAssignedAt)[selected.value := Some(now)]
    {
      var available := FilterAvailable(memberIds, excluded);
      if |available| == 0 { return None; }
      selected := None;
      for i := 0 to |available|
        invariant selected.None? ==> forall a :: a in available[..i] ==> a !in lastAssignedAt
        invariant selected.Some? ==> selected.value in available && selected.value in lastAssignedAt
        invariant selected.Some? ==>
          forall a ::
            a in available[..i] && a in lastAssignedAt ==>
              NotAfter(nulls, lastAssignedAt[selected.value], lastAssignedAt[a])
      {
        var a := available[i];
        if a in lastAssignedAt
          && (selected.None? || !NotAfter(nulls, lastAssignedAt[selected.value], lastAssignedAt[a])) {
          selected := Some(a);
        }
      }
      assert available[..|available|] == available;
      if selected.None? { return; }
      lastAssignedAt := lastAssignedAt[selected.value := Some(now)];
    }

    /** Without a load counter the first available agent; with one the least loaded, missing loads being zero. */
    method AssignLoadBalanced(memberIds: seq<Agent>, excluded: seq<Agent>, loads: Option<map<Agent, nat>>)
      returns (selected: Option<Agent>)
      ensures var available := Available(users, memberIds, excluded);
        if available == [] then selected == None
        else
          && selected.Some? && selected.value in Eligible(users, memberIds, excluded)
          && match loads
             case None => selected.value == available[0]
             case Some(counts) => LeastLoaded(counts, available, selected.value)
    {
      var available := FilterAvailable(memberIds, excluded);
      if |available| == 0 { return None; }
      if loads.None? { return Some(available[0]); }
      selected := None;
      var lowestCount: int := -1;
      for i := 0 to |available|
        invariant selected.None? <==> i == 0
        invariant selected.None? <==> lowestCount < 0
        invariant selected.Some? ==>
          selected.value in available && lowestCount == LoadOf(loads.value, selected.value)
        invariant i > 0 ==> LeastLoaded(loads.value, available[..i], selected.value)
      {
        var count := if available[i] in loads.value then loads.value[available[i]] else 0;
        OneMoreAgent(loads.value, available[..i], available[i]);
        assert available[..i + 1] == available[..i] + [available[i]];
        if lowestCount < 0 || count < lowestCount {
          lowestCount, selected := count, Some(available[i]);
        }
      }
      assert available[..|available|] == available;
    }
  }

  lemma {:induction false} NobodyAvailable(users: seq<User>, excluded: seq<Agent>)
    ensures Available(users, [], excluded) == []
  {
    if users != [] { NobodyAvailable(users[..|users| - 1], excluded); }
  }

  function LoadOf(loads: map<Agent, nat>, a: Agent): nat { if a in loads then loads[a] else 0 }

  /** The first of the agents with the least load; an agent without a count has none. */
  ghost predicate LeastLoaded(counts: map<Agent, nat>, available: seq<Agent>, selected: Agent) {
    exists k: nat :: LeastAt(counts, available, k) && available[k] == selected
  }

  /** Index k is where the first agent with the least load stands. */
  ghost predicate LeastAt(counts: map<Agent, nat>, available: seq<Agent>, k: nat) {
    && k < |available|
    && (forall j :: 0 <= j < k ==> LoadOf(counts, available[j]) > LoadOf(counts, available[k]))
    && (forall j :: k <= j < |available| ==> LoadOf(counts, available[j]) >= LoadOf(counts, available[k]))
  }

  lemma OneMoreAgent(counts: map<Agent, nat>, available: seq<Agent>, a: Agent)
    ensures available == [] ==> LeastLoaded(counts, available + [a], a)
    ensures forall s :: LeastLoaded(counts, available, s) ==>
      LeastLoaded(counts, available + [a], if LoadOf(counts, a) < LoadOf(counts, s) then a else s)
  {
    if available == [] { assert LeastAt(counts, available + [a], 0); }
    forall s | LeastLoaded(counts, available, s)
      ensures LeastLoaded(counts, available + [a], if LoadOf(counts, a) < LoadOf(counts, s) then a else s)
    {
      var k: nat :| LeastAt(counts, available, k) && available[k] == s;
      var next := if LoadOf(counts, a) < LoadOf(counts, s) then |available| else k;
      assert LeastAt(counts, available + [a], next);
    }
  }

  lemma OneAvailable(u: User, memberIds: seq<Agent>, excluded: seq<Agent>)
    ensures Available([u], memberIds, excluded)
      == if u.id in memberIds && u.id !in excluded && u.isAvailable && u.isActive then [u.id] else []
  {
    assert [u][..0] == [];
  }

  /** The order of the agents is the order of the user table. */
  lemma {:induction false} AvailableInOrder(users: seq<User>, more: seq<User>, memberIds: seq<Agent>,
        excluded: seq<Agent>)
    ensures Available(users + more, memberIds, excluded)
         == Available(users, memberIds, excluded) + Available(more, memberIds, excluded)
  {
    hide IsEligible;
    if more == [] {
      assert users + more == users;
    } else {
      var n := |more| - 1;
      AvailableInOrder(users, more[..n], memberIds, excluded);
      assert (users + more)[..|users| + n] == users + more[..n];
    }
  }

  // ---------------------------------------------------------------- runs of one team

  /** Assignments at the given moments, the eligible agents staying the same. */
  ghost predicate IsRun(nulls: Nulls, times: Times, eligible: set<Agent>, clock: seq<int>, picks: seq<Agent>)
    decreases |clock|
  {
    |picks| == |clock| &&
    (clock == [] || (IsNext(nulls, times, eligible, picks[0])
                     && IsRun(nulls, times[picks[0] := Some(clock[0])], eligible, clock[1..], picks[1..])))
  }

  ghost predicate Ticking(clock: seq<int>) { forall i, j :: 0 <= i < j < |clock| ==> clock[i] < clock[j] }

  /** Every time on record is before the moment. */
  ghost predicate Past(times: Times, eligible: set<Agent>, now: int) {
    forall a :: a in eligible && a in times && times[a].Some? ==> times[a].value < now
  }

  /** No agent of the team is without a time, or such agents sort first. */
  ghost predicate Ranked(nulls: Nulls, times: Times, eligible: set<Agent>) {
    nulls == NullsFirst || forall a :: a in eligible ==> a in times && times[a].Some?
  }

  /** The agents in `served` come after all the others. */
  ghost predicate Behind(nulls: Nulls, times: Times, eligible: set<Agent>, served: set<Agent>) {
    forall a, b ::
      a in eligible - served && b in served && a in times && b in times ==> !NotAfter(nulls, times[b], times[a])
  }

  /** Whoever has been served since the turn began is not picked again while others wait. */
  lemma {:induction false} OneTurn(nulls: Nulls, times: Times, eligible: set<Agent>, served: set<Agent>,
        clock: seq<int>, picks: seq<Agent>)
    requires IsRun(nulls, times, eligible, clock, picks) && Ticking(clock)
    requires clock != [] ==> Past(times, eligible, clock[0])
    requires Ranked(nulls, times, eligible) && eligible <= times.Keys
    requires served <= eligible && Behind(nulls, times, eligible, served) && |clock| + |served| <= |eligible|
    ensures forall i :: 0 <= i < |picks| ==> picks[i] in eligible - served
    ensures forall i, j :: 0 <= i < j < |picks| ==> picks[i] != picks[j]
    decreases |clock|
  {
    if clock != [] {
      var a := picks[0];
      var next := times[a := Some(clock[0])];
      PickIsWaiting(nulls, times, eligible, served, a);
      forall b, c | b in eligible - (served + {a}) && c in served + {a} ensures !NotAfter(nulls, next[c], next[b]) {
        assert c != a ==> !NotAfter(nulls, times[c], times[b]);
      }
      OneTurn(nulls, next, eligible, served + {a}, clock[1..], picks[1..]);
      forall i | 0 < i < |picks| ensures picks[i] in eligible - served && picks[i] != a {
        assert picks[i] == picks[1..][i - 1];
      }
      forall i, j | 0 <= i < j < |picks| ensures picks[i] != picks[j] {
        if i > 0 { assert picks[i] == picks[1..][i - 1] && picks[j] == picks[1..][j - 1]; }
      }
    }
  }

  lemma PickIsWaiting(nulls: Nulls, times: Times, eligible: set<Agent>, served: set<Agent>, a: Agent)
    requires IsNext(nulls, times, eligible, a) && eligible <= times.Keys
    requires served <= eligible && |served| < |eligible| && Behind(nulls, times, eligible, served)
    ensures a !in served
  {
    assert eligible * served == served;
    assert |eligible - served| == |eligible| - |served|;
    var b :| b in eligible - served;
    assert NotAfter(nulls, times[a], times[b]);
  }

  /** With everyone served once, the picks are the team. */
  lemma {:induction false} DistinctPicksCover(eligible: set<Agent>, picks: seq<Agent>)
    requires forall i :: 0 <= i < |picks| ==> picks[i] in eligible
    requires forall i, j :: 0 <= i < j < |picks| ==> picks[i] != picks[j]
    ensures |picks| <= |eligible|
    ensures |picks| == |eligible| ==> forall a :: a in eligible ==> a in picks
  {
    if picks != [] {
      var rest := eligible - {picks[0]};
      assert |rest| == |eligible| - 1;
      DistinctPicksCover(rest, picks[1..]);
      forall a | a in eligible && |picks| == |eligible| ensures a in picks {
        if a != picks[0] { assert a in rest && a in picks[1..]; }
      }
    }
  }

  /** Fairness: from any point on, as many assignments as there are agents reach every agent once. */
  lemma EveryoneOnce(nulls: Nulls, times: Times, eligible: set<Agent>, clock: seq<int>, picks: seq<Agent>)
    requires IsRun(nulls, times, eligible, clock, picks) && Ticking(clock)
    requires clock != [] ==> Past(times, eligible, clock[0])
    requires Ranked(nulls, times, eligible) && eligible <= times.Keys && |clock| == |eligible|
    ensures forall i, j :: 0 <= i < j < |picks| ==> picks[i] != picks[j]
    ensures forall a :: a in eligible <==> a in picks
  {
    OneTurn(nulls, times, eligible, {}, clock, picks);
    DistinctPicksCover(eligible, picks);
  }

  lemma {:induction false} RunPrefix(nulls: Nulls, times: Times, eligible: set<Agent>, clock: seq<int>,
        picks: seq<Agent>, n: nat)
    requires IsRun(nulls, times, eligible, clock, picks) && n <= |clock|
    ensures IsRun(nulls, times, eligible, clock[..n], picks[..n])
    decreases n
  {
    if n > 0 {
      RunPrefix(nulls, times[picks[0] := Some(clock[0])], eligible, clock[1..], picks[1..], n - 1);
      assert clock[..n][1..] == clock[1..][..n - 1] && picks[..n][1..] == picks[1..][..n - 1];
    }
  }

  /** The order of the first turn is the order of every later one. */
  lemma {:induction false} TurnsRepeat(nulls: Nulls, times: Times, eligible: set<Agent>, clock: seq<int>,
        picks: seq<Agent>)
    requires IsRun(nulls, times, eligible, clock, picks) && Ticking(clock)
    requires clock != [] ==> Past(times, eligible, clock[0])
    requires Ranked(nulls, times, eligible) && eligible <= times.Keys && eligible != {}
    ensures forall i :: 0 <= i && i + |eligible| < |picks| ==> picks[i + |eligible|] == picks[i]
    decreases |clock|
  {
    var n := |eligible|;
    if n < |clock| {
      var next := times[picks[0] := Some(clock[0])];
      FirstAgain(nulls, times, eligible, clock, picks);
      TurnsRepeat(nulls, next, eligible, clock[1..], picks[1..]);
      forall i | 0 <= i && i + n < |picks| ensures picks[i + n] == picks[i] {
        if i > 0 { assert picks[i] == picks[1..][i - 1] && picks[i + n] == picks[1..][i - 1 + n]; }
      }
    }
  }

  /** What one pick leaves for the rest of the run. */
  lemma RunTail(nulls: Nulls, times: Times, eligible: set<Agent>, clock: seq<int>, picks: seq<Agent>)
    requires IsRun(nulls, times, eligible, clock, picks) && Ticking(clock) && clock != []
    requires Past(times, eligible, clock[0]) && Ranked(nulls, times, eligible) && eligible <= times.Keys
    ensures |picks| == |clock|
    ensures var next := times[picks[0] := Some(clock[0])];
      && IsRun(nulls, next, eligible, clock[1..], picks[1..]) && Ticking(clock[1..])
      && (|clock| > 1 ==> Past(next, eligible, clock[1])) && Ranked(nulls, next, eligible) && eligible <= next.Keys
  {
  }

  lemma TicksPrefix(clock: seq<int>, n: nat)
    requires Ticking(clock) && n <= |clock|
    ensures Ticking(clock[..n])
  {
  }

  lemma FirstAgain(nulls: Nulls, times: Times, eligible: set<Agent>, clock: seq<int>, picks: seq<Agent>)
    requires IsRun(nulls, times, eligible, clock, picks) && Ticking(clock)
    requires eligible != {} && |eligible| < |clock| && Past(times, eligible, clock[0])
    requires Ranked(nulls, times, eligible) && eligible <= times.Keys
    ensures picks[|eligible|] == picks[0]
  {
    assert |picks| == |clock|;
    hide IsRun, Ticking, Past, Ranked;
    var n, next := |eligible|, times[picks[0] := Some(clock[0])];
    RunTail(nulls, times, eligible, clock, picks);
    RunPrefix(nulls, times, eligible, clock, picks, n);
    RunPrefix(nulls, next, eligible, clock[1..], picks[1..], n);
    TicksPrefix(clock, n);
    TicksPrefix(clock[1..], n);
    EveryoneOnce(nulls, times, eligible, clock[..n], picks[..n]);
    EveryoneOnce(nulls, next, eligible, clock[1..][..n], picks[1..][..n]);
    assert picks[..n][1..] == picks[1..n] == picks[1..][..n][..n - 1];
    SameAgain(eligible, picks[..n], picks[1..][..n]);
  }

  /** Two overlapping full turns, one pick apart. */
  lemma SameAgain(eligible: set<Agent>, a: seq<Agent>, b: seq<Agent>)
    requires |a| == |b| > 0 && a[1..] == b[..|b| - 1]
    requires forall i, j :: 0 <= i < j < |b| ==> b[i] != b[j]
    requires (forall x :: x in eligible <==> x in a) && (forall x :: x in eligible <==> x in b)
    ensures b[|b| - 1] == a[0]
  {
    var last := b[|b| - 1];
    assert last in b;
    assert forall j :: 0 < j < |a| ==> a[j] == a[1..][j - 1] == b[j - 1] != last;
    var i :| 0 <= i < |a| && a[i] == last;
  }

  // ---------------------------------------------------------------- agents never assigned before

  /** Where missing times sort last, an agent without one waits for as long as somebody has one. */
  lemma {:induction false} Starved(times: Times, eligible: set<Agent>, clock: seq<int>, picks: seq<Agent>,
        a: Agent, b: Agent)
    requires IsRun(NullsLast, times, eligible, clock, picks)
    requires a in times && times[a].None? && b in eligible && b in times && times[b].Some?
    ensures a !in picks
    decreases |clock|
  {
    if clock != [] {
      assert NotAfter(NullsLast, times[picks[0]], times[b]);
      Starved(times[picks[0] := Some(clock[0])], eligible, clock[1..], picks[1..], a, b);
      assert picks == [picks[0]] + picks[1..];
    }
  }

  /** A turn reaches everyone exactly when nobody lacks a time or missing times sort first. */
  lemma FairExactlyWhenRanked(nulls: Nulls, times: Times, eligible: set<Agent>, clock: seq<int>, picks: seq<Agent>)
    requires IsRun(nulls, times, eligible, clock, picks) && Ticking(clock)
    requires eligible <= times.Keys && |clock| == |eligible| >= 2 && Past(times, eligible, clock[0])
    ensures (forall a :: a in eligible ==> a in picks) <==> Ranked(nulls, times, eligible)
  {
    if Ranked(nulls, times, eligible) {
      EveryoneOnce(nulls, times, eligible, clock, picks);
    } else {
      var p := picks[0];
      var a :| a in eligible && times[a].None?;
      assert |eligible - {p}| == |eligible| - 1;
      var other :| other in eligible - {p};
      var c := if a != p then a else other;
      assert NotAfter(nulls, times[p], times[c]);
      Starved(times[p := Some(clock[0])], eligible, clock[1..], picks[1..], c, p);
      assert picks == [p] + picks[1..] && c !in picks;
    }
  }
}
