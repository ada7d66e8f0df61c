/**
 * What the permissions cache answers while edits, invalidations and lookups overlap call by call, and exactly
 * when an answer goes stale.
 */
module PermissionsFreshness {
  import opened JsText
  import opened PermissionsCache

  // ---------------------------------------------------------------- coherence

  ghost predicate Owed(s: State, userId: Id, orgId: Id) {
    userId in s.owedUsers || RoleOf(s.db, userId, orgId) in s.owedRoles
  }

  /** An entry that an overtaken lookup stored. */
  predicate Late(s: State, userId: Id, orgId: Id) {
    CacheKey(userId, orgId) in s.store && CacheKey(userId, orgId) in s.late
  }

  /** A cached entry is what recomputing would give, or its user is owed an invalidation, or it was stored too late. */
  ghost predicate Good(s: State, userId: Id, orgId: Id) {
    var key := CacheKey(userId, orgId);
    key in s.store ==>
      Recompute(s.db, userId, orgId) == Some(s.store[key]) || userId in s.owedUsers || Late(s, userId, orgId)
  }

  /** Or the role it comes from is owed one. */
  ghost predicate Fresh(s: State, userId: Id, orgId: Id) {
    Good(s, userId, orgId) || RoleOf(s.db, userId, orgId) in s.owedRoles
  }

  /** What a lookup has read so far is what the database still says. */
  predicate UpToDate(db: Db, r: Reader) {
    match r.stage
    case Asked => true
    case HasUser(own, admin) => r.userId in db.users && db.users[r.userId] == User(own, admin) && r.orgId != ""
    case HasRoleId(role, admin) =>
      && r.userId in db.users && db.users[r.userId].isSuperAdmin == admin
      && RoleOf(db, r.userId, r.orgId) == role != ""
    case Found(value) => Recompute(db, r.userId, r.orgId) == Some(value)
  }

  ghost predicate ReaderFresh(s: State, id: nat) {
    id in s.reading ==>
      PlainId(s.reading[id].userId) && (s.reading[id].overtaken || UpToDate(s.db, s.reading[id]))
  }

  /** Whom a role invalidation under way has asked for already. */
  predicate Covered(db: Db, t: Task, userId: Id, orgId: Id) {
    && RoleOf(db, userId, orgId) == t.roleId != ""
    && (t.membersRead || (userId in db.users && db.users[userId].roleId == t.roleId))
  }

  /** Those it need not drop any more have nothing wrong on account of its role. */
  ghost predicate TaskFresh(s: State, id: nat) {
    id in s.tasks && !s.tasks[id].overtaken ==>
      && s.tasks[id].roleId != ""
      && forall u, o :: PlainId(u) && Covered(s.db, s.tasks[id], u, o) && u !in s.tasks[id].todo ==> Good(s, u, o)
  }

  ghost predicate Coherent(s: State) {
    && s.connected
    && (forall u, o :: PlainId(u) ==> Fresh(s, u, o))
    && (forall id :: ReaderFresh(s, id))
    && forall id :: TaskFresh(s, id)
  }

  predicate Usual(e: Event) {
    match e
    case EditUser(u, _, _) => PlainId(u)
    case EditRole(r, _) => r != ""
    case InvalidateRole(r) => r != ""
    case InvalidateUser(u) => PlainId(u)
    case Lookup(u, _) => PlainId(u)
    case Read(_, u, _) => PlainId(u)
    case Begin(_, u, _) => PlainId(u)
    case QueryUsers(_, r) => r != ""
    case DropUser(_, u) => PlainId(u)
    case Connection(up) => up
    case _ => true
  }

  lemma EditedUserKeepsOthers(db: Db, userId: Id, user: Option<User>, memberships: map<Id, Id>, other: Id, orgId: Id)
    requires other != userId
    ensures var after := EditedUser(db, userId, user, memberships);
      && RoleOf(after, other, orgId) == RoleOf(db, other, orgId)
      && Recompute(after, other, orgId) == Recompute(db, other, orgId)
  {
    var after := EditedUser(db, userId, user, memberships);
    assert (other, orgId) in after.memberships <==> (other, orgId) in db.memberships;
  }

  lemma RoleHolders(db: Db, userId: Id, orgId: Id)
    requires RoleOf(db, userId, orgId) != ""
    ensures userId in UsersWith(db, RoleOf(db, userId, orgId))
  {
    HolderListed(db, userId, orgId);
  }

  /** Nothing but an edit of the role it comes from makes a good entry bad. */
  lemma StepKeepsGood(s: State, e: Event, u: Id, o: Id)
    requires Coherent(s) && Usual(e) && PlainId(u) && Good(s, u, o)
    requires e.EditRole? ==> RoleOf(s.db, u, o) != e.roleId
    ensures Good(Step(s, e), u, o)
  {
    hide CacheKey, IsKeyOf, PlainId, Recompute, RoleOf, EditedUser, UsersWith;
    hide OvertakeUser, OvertakeRole, OvertakeTasks;
    hide Fresh, TaskFresh, AfterUser, AfterMembership, AfterRole;
    match e
    case EditUser(v, user, memberships) =>
      if u != v { EditedUserKeepsOthers(s.db, v, user, memberships, u, o); }
    case EditRole(r, role) => EditedRoleKeepsOthers(s.db, r, role, u, o);
    case InvalidateUser(v) => KeysOfUser(u, o, v);
    case Lookup(v, p) => if CacheKey(u, o) == CacheKey(v, p) { KeysDiffer(u, o, v, p); }
    case StoreRead(id) =>
      assert ReaderFresh(s, id);
      if id in s.reading && CacheKey(u, o) == CacheKey(s.reading[id].userId, s.reading[id].orgId) {
        KeysDiffer(u, o, s.reading[id].userId, s.reading[id].orgId);
      }
    case _ =>
  }

  /** An entry bad on account of a role stays owed, or the invalidation that pays the debt removes it. */
  lemma StepKeepsOwed(s: State, e: Event, u: Id, o: Id)
    requires Coherent(s) && Usual(e) && PlainId(u) && !Good(s, u, o)
    ensures Fresh(Step(s, e), u, o)
  {
    hide CacheKey, IsKeyOf, PlainId, Recompute, RoleOf, EditedUser, UsersWith;
    hide OvertakeUser, OvertakeRole, OvertakeTasks;
    hide AfterUser, AfterMembership, AfterRole, Put, Covered, Late, TaskStep, ReadStep;
    assert Fresh(s, u, o);
    if e.EditUser? {
      if u != e.userId { EditedUserKeepsOthers(s.db, e.userId, e.user, e.memberships, u, o); }
    } else if e.EditRole? {
      EditedRoleKeepsOthers(s.db, e.roleId, e.role, u, o);
    } else if e.InvalidateRole? {
      RoleInvalidated(s.db, e.roleId, u, o);
    } else if e.FinishRole? {
      PaidDebtIsCovered(s, e.id, u, o);
    } else {
      DebtStays(s, e);
    }
  }

  lemma DebtStays(s: State, e: Event)
    requires !e.EditUser? && !e.EditRole? && !e.InvalidateRole? && !e.FinishRole?
    ensures Step(s, e).db == s.db && Step(s, e).owedRoles == s.owedRoles
  {
    hide CacheKey, Recompute, AfterUser, AfterMembership, AfterRole, WithoutUsers;
  }

  /** A task that ends has been through everyone its role could concern. */
  lemma PaidDebtIsCovered(s: State, id: nat, u: Id, o: Id)
    requires TaskFresh(s, id) && PlainId(u) && !Good(s, u, o) && RoleOf(s.db, u, o) in s.owedRoles
    ensures Step(s, FinishRole(id)).db == s.db
    ensures RoleOf(s.db, u, o) in Step(s, FinishRole(id)).owedRoles
  {
    hide Good, PlainId, RoleOf;
    if id in s.tasks && s.tasks[id].membersRead && s.tasks[id].todo == {} && !s.tasks[id].overtaken {
      assert !Covered(s.db, s.tasks[id], u, o);
    }
  }

  lemma StepKeepsFresh(s: State, e: Event, u: Id, o: Id)
    requires Coherent(s) && Usual(e) && PlainId(u)
    ensures Fresh(Step(s, e), u, o)
  {
    hide CacheKey, PlainId, Coherent, Good;
    if !Good(s, u, o) {
      StepKeepsOwed(s, e, u, o);
    } else if e.EditRole? && RoleOf(s.db, u, o) == e.roleId {
      EditedRoleKeepsOthers(s.db, e.roleId, e.role, u, o);
    } else {
      StepKeepsGood(s, e, u, o);
    }
  }

  lemma StepKeepsReaderFresh(s: State, e: Event, id: nat)
    requires Coherent(s) && Usual(e)
    ensures ReaderFresh(Step(s, e), id)
  {
    hide CacheKey, PlainId, EditedUser, UsersWith, WithoutUsers, Fresh, TaskFresh, UpToDate, Recompute, RoleOf;
    hide AfterUser, AfterMembership, AfterRole;
    assert ReaderFresh(s, id);
    if e.Begin? {
      NothingRead(s.db, e.userId, e.orgId);
    } else if e.Read? {
      AllRead(s.db, e.userId, e.orgId);
    } else if id in s.reading {
      ReaderGoesOn(s, e, id, s.reading[id]);
    }
  }

  lemma ReaderGoesOn(s: State, e: Event, id: nat, r: Reader)
    requires ReaderFresh(s, id) && id in s.reading && r == s.reading[id]
    requires !e.Begin? && !e.Read?
    ensures ReaderFresh(Step(s, e), id)
  {
    hide CacheKey, PlainId, EditedUser, UsersWith, WithoutUsers, UpToDate, Recompute, RoleOf;
    hide AfterUser, AfterMembership, AfterRole;
    if !r.overtaken {
      if e.EditUser? && (r.userId != e.userId || r.stage == Asked) {
        EditUserOvertakes(s.db, r, e.userId, e.user, e.memberships);
      } else if e.EditRole? && !HasRead(r.stage, e.roleId) {
        EditRoleOvertakes(s.db, r, e.roleId, e.role);
      } else {
        ReadsOn(s.db, r);
      }
    }
  }

  lemma NothingRead(db: Db, u: Id, o: Id)
    ensures UpToDate(db, Reader(u, o, Asked, false))
  {
  }

  lemma AllRead(db: Db, u: Id, o: Id)
    ensures Recompute(db, u, o).Some? ==> UpToDate(db, Reader(u, o, Found(Recompute(db, u, o).value), false))
  {
  }

  lemma EditUserOvertakes(db: Db, r: Reader, v: Id, user: Option<User>, memberships: map<Id, Id>)
    requires UpToDate(db, r) && (r.userId != v || r.stage == Asked)
    ensures UpToDate(EditedUser(db, v, user, memberships), r)
  {
    hide Recompute, RoleOf;
    if r.userId != v { EditedUserKeepsOthers(db, v, user, memberships, r.userId, r.orgId); }
  }

  lemma EditRoleOvertakes(db: Db, r: Reader, v: Id, role: Role)
    requires UpToDate(db, r) && !HasRead(r.stage, v)
    ensures UpToDate(db.(roles := db.roles[v := role]), r)
  {
    hide Recompute, RoleOf;
    FoundRole(db, r.userId, r.orgId);
    EditedRoleKeepsOthers(db, v, role, r.userId, r.orgId);
  }

  /** Each read of a lookup keeps what it has read up to date, if it was. */
  lemma ReadsOn(db: Db, r: Reader)
    requires UpToDate(db, r)
    ensures r.stage == Asked ==> var next := AfterUser(db, r.userId, r.orgId);
      next.Some? ==> UpToDate(db, r.(stage := next.value))
    ensures r.stage.HasUser? ==>
      var next := AfterMembership(db, r.userId, r.orgId, r.stage.ownRole, r.stage.isSuperAdmin);
      next.Some? ==> UpToDate(db, r.(stage := next.value))
    ensures r.stage.HasRoleId? ==> var next := AfterRole(db, r.stage.roleId, r.stage.isSuperAdmin);
      next.Some? ==> UpToDate(db, r.(stage := next.value))
  {
  }

  lemma FoundRole(db: Db, userId: Id, orgId: Id)
    ensures var found := Recompute(db, userId, orgId);
      found.Some? ==> found.value.roleId == RoleOf(db, userId, orgId) != ""
  {
  }

  lemma StepKeepsTaskFresh(s: State, e: Event, id: nat)
    requires Coherent(s) && Usual(e)
    ensures TaskFresh(Step(s, e), id)
  {
    hide PlainId, Fresh, ReaderFresh, Good, Step;
    var t := Step(s, e);
    assert TaskFresh(s, id);
    TaskHasRole(s, e, id);
    if id in t.tasks && !t.tasks[id].overtaken {
      forall u, o | PlainId(u) && Covered(t.db, t.tasks[id], u, o) && u !in t.tasks[id].todo ensures Good(t, u, o) {
        TaskGoesOn(s, e, id, u, o);
      }
    }
  }

  lemma TaskHasRole(s: State, e: Event, id: nat)
    requires TaskFresh(s, id) && Usual(e)
    ensures id in Step(s, e).tasks && !Step(s, e).tasks[id].overtaken ==> Step(s, e).tasks[id].roleId != ""
  {
    hide CacheKey, PlainId, Good, Covered, Recompute, EditedUser, AfterUser, AfterMembership, AfterRole, Put, Dropped;
    hide OwnersOf, MembersWith, OvertakeUser, OvertakeRole, ReadStep;
    TaskUnchanged(s, e);
  }

  /** Whoever a task is done with after a step was so before, has just been edited, or has just been dropped. */
  lemma TaskGoesOn(s: State, e: Event, id: nat, u: Id, o: Id)
    requires Coherent(s) && Usual(e) && PlainId(u)
    requires var t := Step(s, e);
      id in t.tasks && !t.tasks[id].overtaken && Covered(t.db, t.tasks[id], u, o) && u !in t.tasks[id].todo
    ensures Good(Step(s, e), u, o)
  {
    hide PlainId, Usual, Fresh, ReaderFresh, Good, TaskFresh, Step, Covered;
    assert TaskFresh(s, id);
    if e.EditUser? && e.userId == u {
      EditedIsGood(s, e, u, o);
    } else if DropsNow(s, e, u) && e.id == id {
      DroppedIsGood(s, e, u, o);
    } else {
      DoneBefore(s, e, id, u, o);
      StepKeepsGood(s, e, u, o);
    }
  }

  predicate DropsNow(s: State, e: Event, u: Id) {
    e.DropUser? && e.userId == u && e.id in s.tasks && s.tasks[e.id].membersRead && u in s.tasks[e.id].todo
  }

  lemma EditedIsGood(s: State, e: Event, u: Id, o: Id)
    requires e.EditUser? && e.userId == u
    ensures Good(Step(s, e), u, o)
  {
    hide CacheKey, Recompute, EditedUser;
  }

  lemma DoneBefore(s: State, e: Event, id: nat, u: Id, o: Id)
    requires TaskFresh(s, id) && PlainId(u)
    requires !(e.EditUser? && e.userId == u) && !(DropsNow(s, e, u) && e.id == id)
    requires var t := Step(s, e);
      id in t.tasks && !t.tasks[id].overtaken && Covered(t.db, t.tasks[id], u, o) && u !in t.tasks[id].todo
    ensures Good(s, u, o)
    ensures e.EditRole? ==> RoleOf(s.db, u, o) != e.roleId
  {
    hide PlainId, Good, RoleOf, OwnersOf, MembersWith, EditedUser, OvertakeUser, OvertakeRole, ReadStep, Dropped, Put;
    hide Recompute, CacheKey, LookupResult;
    if e.EditUser? {
      EditedUserKeepsOthers(s.db, e.userId, e.user, e.memberships, u, o);
      EditedUserKeepsRow(s.db, e.userId, e.user, e.memberships, u);
    } else if e.EditRole? {
      EditedRoleKeepsOthers(s.db, e.roleId, e.role, u, o);
    } else if e.QueryUsers? {
      OwnerListed(s.db, e.roleId, u);
    } else if e.QueryMembers? {
      HolderListed(s.db, u, o);
    }
    TaskUnchanged(s, e);
    assert Covered(s.db, s.tasks[id], u, o);
  }

  lemma TaskUnchanged(s: State, e: Event)
    ensures !e.EditUser? && !e.EditRole? ==> Step(s, e).db == s.db
    ensures !e.EditRole? && !e.QueryUsers? && !e.QueryMembers? && !e.DropUser? && !e.FinishRole? ==>
      Step(s, e).tasks == s.tasks
  {
    hide Recompute, CacheKey, AfterUser, AfterMembership, AfterRole;
  }

  lemma EditedUserKeepsRow(db: Db, userId: Id, user: Option<User>, memberships: map<Id, Id>, other: Id)
    requires other != userId
    ensures var after := EditedUser(db, userId, user, memberships);
      (other in after.users <==> other in db.users) && (other in db.users ==> after.users[other] == db.users[other])
  {
  }

  lemma OwnerListed(db: Db, roleId: Id, u: Id)
    ensures u in db.users && db.users[u].roleId == roleId <==> u in OwnersOf(db, roleId)
  {
  }

  /** Whoever has a role has it as their own or by a membership. */
  lemma HolderListed(db: Db, u: Id, o: Id)
    requires RoleOf(db, u, o) != ""
    ensures u in MembersWith(db, RoleOf(db, u, o)) || (u in db.users && db.users[u].roleId == RoleOf(db, u, o))
  {
    if (u, o) in db.memberships && db.memberships[(u, o)] == RoleOf(db, u, o) { assert (u, o).0 == u; }
  }

  lemma DroppedIsGood(s: State, e: Event, u: Id, o: Id)
    requires s.connected && PlainId(u) && DropsNow(s, e, u)
    ensures Good(Step(s, e), u, o)
  {
    hide CacheKey, IsKeyOf, PlainId;
    KeysOfUser(u, o, u);
  }

  lemma EditedRoleKeepsOthers(db: Db, roleId: Id, role: Role, userId: Id, orgId: Id)
    ensures var after := db.(roles := db.roles[roleId := role]);
      && RoleOf(after, userId, orgId) == RoleOf(db, userId, orgId)
      && (RoleOf(db, userId, orgId) != roleId ==> Recompute(after, userId, orgId) == Recompute(db, userId, orgId))
  {
  }

  lemma RoleInvalidated(db: Db, roleId: Id, userId: Id, orgId: Id)
    requires PlainId(userId)
    ensures RoleOf(db, userId, orgId) == roleId != "" ==>
      userId in UsersWith(db, roleId) && IsKeyOf(CacheKey(userId, orgId), userId)
  {
    hide CacheKey, IsKeyOf, UsersWith, RoleOf;
    KeysOfUser(userId, orgId, userId);
    if RoleOf(db, userId, orgId) == roleId != "" { RoleHolders(db, userId, orgId); }
  }

  lemma StepKeepsCoherent(s: State, e: Event)
    requires Coherent(s) && Usual(e)
    ensures Coherent(Step(s, e))
  {
    hide Fresh, ReaderFresh, TaskFresh, PlainId, Step;
    assert Step(s, e).connected by { StaysConnected(s, e); }
    forall u, o | PlainId(u) ensures Fresh(Step(s, e), u, o) { StepKeepsFresh(s, e, u, o); }
    forall id ensures ReaderFresh(Step(s, e), id) { StepKeepsReaderFresh(s, e, id); }
    forall id ensures TaskFresh(Step(s, e), id) { StepKeepsTaskFresh(s, e, id); }
  }

  lemma StaysConnected(s: State, e: Event)
    requires s.connected && Usual(e)
    ensures Step(s, e).connected
  {
    hide CacheKey, Recompute, PlainId, AfterUser, AfterMembership, AfterRole, WithoutUsers;
  }

  lemma {:induction false} RunKeepsCoherent(s: State, run: seq<Event>)
    requires Coherent(s) && forall e :: e in run ==> Usual(e)
    ensures Coherent(After(s, run))
    decreases |run|
  {
    hide Coherent, Step, Usual;
    if run != [] {
      StepKeepsCoherent(s, run[0]);
      RunKeepsCoherent(Step(s, run[0]), run[1..]);
    }
  }

  /**
   * From an empty cache, however edits, invalidations, expiries and overlapping lookups interleave, a
   * lookup answers what the database says, unless an invalidation that would affect it is still owed or
   * its entry was stored by a lookup that an edit of its user or role had overtaken.
   */
  lemma LookupsAreFresh(start: State, run: seq<Event>, userId: Id, orgId: Id)
    requires start.connected && start.store == map[] && start.reading == map[] && start.tasks == map[]
    requires PlainId(userId) && forall e :: e in run ==> Usual(e)
    ensures var s := After(start, run);
      || LookupResult(s, userId, orgId) == Recompute(s.db, userId, orgId)
      || Owed(s, userId, orgId) || Late(s, userId, orgId)
  {
    hide Recompute, RoleOf, CacheKey, PlainId, Usual, Step;
    RunKeepsCoherent(start, run);
    assert Fresh(After(start, run), userId, orgId);
  }

  lemma {:induction false} NobodyLate(s: State, run: seq<Event>)
    requires s.late == {} && s.reading == map[] && forall e :: e in run ==> !e.Read? && !e.Begin?
    ensures After(s, run).late == {}
    decreases |run|
  {
    hide CacheKey, Recompute, EditedUser, WithoutUsers, UsersWith;
    if run != [] { NobodyLate(Step(s, run[0]), run[1..]); }
  }

  /** Lookups that do not overlap anything leave only the invalidations that are owed. */
  lemma WholeLookupsAreFresh(start: State, run: seq<Event>, userId: Id, orgId: Id)
    requires start.connected && start.store == map[] && start.reading == map[] && start.tasks == map[]
    requires start.late == {}
    requires PlainId(userId) && forall e :: e in run ==> Usual(e) && !e.Read? && !e.Begin?
    ensures var s := After(start, run);
      LookupResult(s, userId, orgId) == Recompute(s.db, userId, orgId) || Owed(s, userId, orgId)
  {
    hide Recompute, RoleOf, CacheKey, PlainId, Usual, Step;
    LookupsAreFresh(start, run, userId, orgId);
    NobodyLate(start, run);
  }

  // ---------------------------------------------------------------- exactly when an answer goes stale

  /** The invalidation the code makes after an edit. */
  function InvalidationOf(e: Event): Event
    requires e.EditUser? || e.EditRole?
  {
    match e case EditUser(u, _, _) => InvalidateUser(u) case EditRole(r, _) => InvalidateRole(r)
  }

  ghost predicate Concerns(db: Db, e: Event, userId: Id, orgId: Id) {
    (e.EditUser? && e.userId == userId) || (e.EditRole? && e.roleId == RoleOf(db, userId, orgId) != "")
  }

  lemma AfterOne(s: State, run: seq<Event>)
    requires run != []
    ensures After(s, run) == After(Step(s, run[0]), run[1..]) && After(s, []) == s
  {
    hide Step;
  }

  lemma AfterFour(s: State, a: Event, b: Event, c: Event, d: Event)
    ensures After(s, [a, b, c, d]) == Step(Step(Step(Step(s, a), b), c), d)
  {
    hide Step;
    assert [a, b, c, d][1..] == [b, c, d] && [b, c, d][1..] == [c, d] && [c, d][1..] == [d] && [d][1..] == [];
    AfterOne(s, [a, b, c, d]);
    AfterOne(Step(s, a), [b, c, d]);
    AfterOne(Step(Step(s, a), b), [c, d]);
    AfterOne(Step(Step(Step(s, a), b), c), [d]);
  }

  lemma InvalidationRemoves(s: State, inv: Event, userId: Id, orgId: Id)
    requires s.connected && PlainId(userId) && Usual(inv)
    requires (inv.InvalidateUser? && inv.userId == userId)
          || (inv.InvalidateRole? && inv.roleId == RoleOf(s.db, userId, orgId) != "")
    ensures CacheKey(userId, orgId) !in Step(s, inv).store
  {
    hide CacheKey, IsKeyOf, PlainId, RoleOf, UsersWith;
    match inv
    case InvalidateUser(v) => KeysOfUser(userId, orgId, v);
    case InvalidateRole(r) => RoleInvalidated(s.db, r, userId, orgId);
  }

  /** An edit of a role does not change who holds it, so its invalidation still concerns the same users. */
  lemma StillConcerned(s: State, e: Event, t: State, userId: Id, orgId: Id)
    requires Concerns(s.db, e, userId, orgId) && t.db == Step(s, e).db
    ensures e.EditRole? ==> RoleOf(t.db, userId, orgId) == e.roleId
  {
    hide RoleOf, Recompute, EditedUser;
    if e.EditRole? { EditedRoleKeepsOthers(s.db, e.roleId, e.role, userId, orgId); }
  }

  /**
   * An invalidation made while the store is unreachable is lost. The answer after an edit, its
   * invalidation and a reconnection is right exactly if the store was connected, held no entry, or held
   * one that happens to be right.
   */
  lemma OutageLosesInvalidation(s: State, e: Event, up: bool, userId: Id, orgId: Id)
    requires PlainId(userId) && Usual(e) && Concerns(s.db, e, userId, orgId)
    ensures var t, key := After(s, [Connection(up), e, InvalidationOf(e), Connection(true)]), CacheKey(userId, orgId);
      LookupResult(t, userId, orgId) == Recompute(t.db, userId, orgId) <==>
        up || key !in s.store || Recompute(t.db, userId, orgId) == Some(s.store[key])
  {
    hide CacheKey, PlainId, Recompute, RoleOf, EditedUser, UsersWith, WithoutUsers;
    var c := Step(Step(s, Connection(up)), e);
    AfterFour(s, Connection(up), e, InvalidationOf(e), Connection(true));
    StillConcerned(Step(s, Connection(up)), e, c, userId, orgId);
    if up { InvalidationRemoves(c, InvalidationOf(e), userId, orgId); }
  }

  /** Nothing owed, nothing under way, every entry right. */
  ghost predicate Settled(s: State) {
    Coherent(s) && s.owedUsers == {} && s.owedRoles == {} && s.reading == map[] && s.late == {} && s.tasks == map[]
  }

  /** An edit and its invalidation, with a lookup's read before the i-th of them and its store before the j-th. */
  function Overlap(e: Event, id: nat, userId: Id, orgId: Id, i: nat, j: nat): seq<Event>
    requires (e.EditUser? || e.EditRole?) && i <= j <= 2
  {
    var edit := [e, InvalidationOf(e)];
    edit[..i] + [Read(id, userId, orgId)] + edit[i..j] + [StoreRead(id)] + edit[j..]
  }

  lemma RightUnlessLate(t: State, userId: Id, orgId: Id)
    requires Coherent(t) && PlainId(userId) && t.owedUsers == {} && t.owedRoles == {} && !Late(t, userId, orgId)
    ensures LookupResult(t, userId, orgId) == Recompute(t.db, userId, orgId)
  {
    hide PlainId, Recompute, RoleOf, CacheKey;
    assert Fresh(t, userId, orgId);
  }

  lemma LookupBefore(s: State, e: Event, id: nat, userId: Id, orgId: Id)
    requires Settled(s) && PlainId(userId) && Usual(e) && (e.EditUser? || e.EditRole?)
    ensures var t := After(s, [Read(id, userId, orgId), StoreRead(id), e, InvalidationOf(e)]);
      LookupResult(t, userId, orgId) == Recompute(t.db, userId, orgId)
  {
    hide CacheKey, PlainId, Recompute, RoleOf, EditedUser, UsersWith, WithoutUsers, Coherent, LookupResult;
    hide OvertakeUser, OvertakeRole, OvertakeTasks, AfterUser, AfterMembership, AfterRole, TaskStep;
    var read, store, inv := Read(id, userId, orgId), StoreRead(id), InvalidationOf(e);
    var run := [read, store, e, inv];
    AfterFour(s, run[0], run[1], run[2], run[3]);
    RunKeepsCoherent(s, run);
    RightUnlessLate(After(s, run), userId, orgId);
  }

  lemma LookupBetween(s: State, e: Event, id: nat, userId: Id, orgId: Id)
    requires Settled(s) && PlainId(userId) && Usual(e) && (e.EditUser? || e.EditRole?)
    ensures var t := After(s, [e, Read(id, userId, orgId), StoreRead(id), InvalidationOf(e)]);
      LookupResult(t, userId, orgId) == Recompute(t.db, userId, orgId)
  {
    hide CacheKey, PlainId, Recompute, RoleOf, EditedUser, UsersWith, WithoutUsers, Coherent, LookupResult;
    hide OvertakeTasks, AfterUser, AfterMembership, AfterRole, TaskStep;
    var read, store, inv := Read(id, userId, orgId), StoreRead(id), InvalidationOf(e);
    var run := [e, read, store, inv];
    AfterFour(s, run[0], run[1], run[2], run[3]);
    RunKeepsCoherent(s, run);
    RightUnlessLate(After(s, run), userId, orgId);
  }

  lemma LookupAfter(s: State, e: Event, id: nat, userId: Id, orgId: Id)
    requires Settled(s) && PlainId(userId) && Usual(e) && (e.EditUser? || e.EditRole?)
    ensures var t := After(s, [e, InvalidationOf(e), Read(id, userId, orgId), StoreRead(id)]);
      LookupResult(t, userId, orgId) == Recompute(t.db, userId, orgId)
  {
    hide CacheKey, PlainId, Recompute, RoleOf, EditedUser, UsersWith, WithoutUsers, Coherent, LookupResult;
    hide OvertakeTasks, AfterUser, AfterMembership, AfterRole, TaskStep;
    var read, store, inv := Read(id, userId, orgId), StoreRead(id), InvalidationOf(e);
    var run := [e, inv, read, store];
    AfterFour(s, run[0], run[1], run[2], run[3]);
    RunKeepsCoherent(s, run);
    RightUnlessLate(After(s, run), userId, orgId);
  }

  lemma ReadAfterEdit(s: State, e: Event, id: nat, userId: Id, orgId: Id)
    requires Settled(s) && PlainId(userId) && Usual(e) && (e.EditUser? || e.EditRole?)
    ensures var t := After(s, [e, Read(id, userId, orgId), InvalidationOf(e), StoreRead(id)]);
      LookupResult(t, userId, orgId) == Recompute(t.db, userId, orgId)
  {
    hide CacheKey, PlainId, Recompute, RoleOf, EditedUser, UsersWith, WithoutUsers, Coherent, LookupResult;
    hide OvertakeTasks, AfterUser, AfterMembership, AfterRole, TaskStep;
    var read, store, inv := Read(id, userId, orgId), StoreRead(id), InvalidationOf(e);
    var run := [e, read, inv, store];
    AfterFour(s, run[0], run[1], run[2], run[3]);
    RunKeepsCoherent(s, run);
    RightUnlessLate(After(s, run), userId, orgId);
  }

  /** Stored between an edit and its invalidation: overtaken only if concerned, and then removed again. */
  lemma StoredInBetween(s: State, e: Event, id: nat, userId: Id, orgId: Id)
    requires Settled(s) && PlainId(userId) && Usual(e) && (e.EditUser? || e.EditRole?)
    ensures var t := After(s, [Read(id, userId, orgId), e, StoreRead(id), InvalidationOf(e)]);
      LookupResult(t, userId, orgId) == Recompute(t.db, userId, orgId)
  {
    hide CacheKey, PlainId, Recompute, RoleOf, EditedUser, UsersWith, WithoutUsers, Coherent, LookupResult;
    hide OvertakeTasks, AfterUser, AfterMembership, AfterRole, TaskStep;
    var read, store, inv := Read(id, userId, orgId), StoreRead(id), InvalidationOf(e);
    var run := [read, e, store, inv];
    AfterFour(s, run[0], run[1], run[2], run[3]);
    RunKeepsCoherent(s, run);
    var c := Step(Step(Step(s, read), e), store);
    FoundRole(s.db, userId, orgId);
    if Concerns(s.db, e, userId, orgId) {
      StillConcerned(s, e, c, userId, orgId);
      CoherentConnected(s);
      InvalidationRemoves(c, inv, userId, orgId);
    }
    RightUnlessLate(After(s, run), userId, orgId);
  }

  lemma CoherentConnected(s: State)
    requires Coherent(s)
    ensures s.connected
  {
  }

  lemma OverlapTooLate(s: State, e: Event, id: nat, userId: Id, orgId: Id)
    requires Settled(s) && PlainId(userId) && Usual(e) && (e.EditUser? || e.EditRole?)
    ensures var t := After(s, [Read(id, userId, orgId), e, InvalidationOf(e), StoreRead(id)]);
      var was, now := Recompute(s.db, userId, orgId), Recompute(t.db, userId, orgId);
      LookupResult(t, userId, orgId) != now <==> CacheKey(userId, orgId) !in s.store && was.Some? && was != now
  {
    hide CacheKey, PlainId, Recompute, RoleOf, EditedUser, UsersWith, WithoutUsers, Coherent;
    hide OvertakeTasks, AfterUser, AfterMembership, AfterRole, TaskStep;
    var read, inv, store := Read(id, userId, orgId), InvalidationOf(e), StoreRead(id);
    AfterFour(s, read, e, inv, store);
    CoherentConnected(s);
    if CacheKey(userId, orgId) in s.store || Recompute(s.db, userId, orgId).None? {
      var run := [read, e, inv, store];
      RunKeepsCoherent(s, run);
      RightUnlessLate(After(s, run), userId, orgId);
    }
  }

  /**
   * One lookup against one edit and its invalidation: afterwards the cache answers wrongly exactly if the
   * lookup missed and found something before the edit, stored it after the invalidation, and the edit
   * changed it.
   */
  lemma OneOverlap(s: State, e: Event, id: nat, userId: Id, orgId: Id, i: nat, j: nat)
    requires Settled(s) && PlainId(userId) && Usual(e) && (e.EditUser? || e.EditRole?) && i <= j <= 2
    ensures var t := After(s, Overlap(e, id, userId, orgId, i, j));
      var was, now := Recompute(s.db, userId, orgId), Recompute(t.db, userId, orgId);
      LookupResult(t, userId, orgId) != now <==>
        i == 0 && j == 2 && CacheKey(userId, orgId) !in s.store && was.Some? && was != now
  {
    hide CacheKey, PlainId, Recompute, LookupResult, Settled, Step, Usual, Overlap;
    Orders(e, id, userId, orgId);
    if i == 0 && j == 2 { OverlapTooLate(s, e, id, userId, orgId); }
    else if i == 0 && j == 0 { LookupBefore(s, e, id, userId, orgId); }
    else if i == 0 { StoredInBetween(s, e, id, userId, orgId); }
    else if i == 1 && j == 1 { LookupBetween(s, e, id, userId, orgId); }
    else if i == 1 { ReadAfterEdit(s, e, id, userId, orgId); }
    else { LookupAfter(s, e, id, userId, orgId); }
  }

  /** The six orders. */
  lemma Orders(e: Event, id: nat, userId: Id, orgId: Id)
    requires e.EditUser? || e.EditRole?
    ensures var read, store, inv := Read(id, userId, orgId), StoreRead(id), InvalidationOf(e);
      && Overlap(e, id, userId, orgId, 0, 0) == [read, store, e, inv]
      && Overlap(e, id, userId, orgId, 0, 1) == [read, e, store, inv]
      && Overlap(e, id, userId, orgId, 0, 2) == [read, e, inv, store]
      && Overlap(e, id, userId, orgId, 1, 1) == [e, read, store, inv]
      && Overlap(e, id, userId, orgId, 1, 2) == [e, read, inv, store]
      && Overlap(e, id, userId, orgId, 2, 2) == [e, inv, read, store]
  {
    var edit := [e, InvalidationOf(e)];
    assert edit[..0] == edit[0..0] == edit[1..1] == edit[2..2] == edit[2..] == [];
    assert edit[..1] == edit[0..1] == [e] && edit[1..2] == edit[1..] == [edit[1]];
    assert edit[..2] == edit[0..2] == edit[0..] == edit;
  }

  // ---------------------------------------------------------------- a lookup read by read

  /** What the next read of a lookup does at each stage. */
  lemma NextRead(s: State, id: nat)
    requires id in s.reading
    ensures var r := s.reading[id];
      match r.stage
      case Asked => Step(s, ReadUser(id)) == GoOn(s, id, AfterUser(s.db, r.userId, r.orgId))
      case HasUser(own, admin) =>
        Step(s, ReadMembership(id)) == GoOn(s, id, AfterMembership(s.db, r.userId, r.orgId, own, admin))
      case HasRoleId(role, admin) =>
        Step(s, ReadMembership(id)) == s && Step(s, ReadRole(id)) == GoOn(s, id, AfterRole(s.db, role, admin))
      case Found(value) =>
        Step(s, StoreRead(id))
          == Put(s, CacheKey(r.userId, r.orgId), value, r.overtaken).(reading := s.reading - {id})
  {
    hide CacheKey, GoOn, AfterUser, AfterMembership, AfterRole, Put;
  }

  lemma NoRead(s: State, id: nat)
    requires id !in s.reading
    ensures Step(s, ReadUser(id)) == s && Step(s, ReadMembership(id)) == s && Step(s, ReadRole(id)) == s
  {
    hide CacheKey, GoOn, AfterUser, AfterMembership, AfterRole, Put;
  }

  lemma FirstRead(s: State, id: nat, userId: Id, orgId: Id)
    requires !Hits(s, userId, orgId)
    ensures Step(s, Begin(id, userId, orgId)) == s.(reading := s.reading[id := Reader(userId, orgId, Asked, false)])
    ensures var found := Recompute(s.db, userId, orgId);
      Step(s, Read(id, userId, orgId)) == if found.None? then s
        else s.(reading := s.reading[id := Reader(userId, orgId, Found(found.value), false)])
  {
    hide CacheKey, Recompute;
  }

  lemma HitReadsNothing(s: State, id: nat, userId: Id, orgId: Id)
    requires Hits(s, userId, orgId)
    ensures Step(s, Begin(id, userId, orgId)) == s == Step(s, Read(id, userId, orgId))
  {
    hide CacheKey, Recompute;
  }

  /** The last two reads of a lookup, wherever the first has left it. */
  lemma LastReads(s: State, id: nat)
    requires id in s.reading && (s.reading[id].stage.HasUser? || s.reading[id].stage.HasRoleId?)
    ensures var r := s.reading[id];
      var role := if r.stage.HasRoleId? then Some(r.stage)
                  else AfterMembership(s.db, r.userId, r.orgId, r.stage.ownRole, r.stage.isSuperAdmin);
      var last := if role.None? then None else AfterRole(s.db, role.value.roleId, role.value.isSuperAdmin);
      Step(Step(s, ReadMembership(id)), ReadRole(id)) == GoOn(s, id, last)
  {
    hide CacheKey, Step, AfterRole;
    NextRead(s, id);
    var t := Step(s, ReadMembership(id));
    if id in t.reading { NextRead(t, id); } else { NoRead(t, id); }
  }

  lemma LeavesAgain(reading: map<nat, Reader>, id: nat, r: Reader)
    requires id !in reading
    ensures reading[id := r] - {id} == reading
  {
  }

  lemma ReadsOfMiss(s: State, id: nat, userId: Id, orgId: Id)
    requires id !in s.reading && !Hits(s, userId, orgId)
    ensures Step(Step(Step(Step(s, Begin(id, userId, orgId)), ReadUser(id)), ReadMembership(id)), ReadRole(id))
         == Step(s, Read(id, userId, orgId))
  {
    hide CacheKey, Recompute, Step, Hits, AfterMembership, AfterRole;
    FirstRead(s, id, userId, orgId);
    StagesRecompute(s.db, userId, orgId);
    LeavesAgain(s.reading, id, Reader(userId, orgId, Asked, false));
    var s1 := Step(s, Begin(id, userId, orgId));
    NextRead(s1, id);
    var s2 := Step(s1, ReadUser(id));
    if id in s2.reading {
      LastReads(s2, id);
      LeavesAgain(s.reading, id, s2.reading[id]);
    } else {
      NoRead(s, id);
    }
  }

  /** With nothing in between, the reads of a lookup one by one are its reads at once. */
  lemma ReadsCompose(s: State, id: nat, userId: Id, orgId: Id)
    requires id !in s.reading
    ensures After(s, [Begin(id, userId, orgId), ReadUser(id), ReadMembership(id), ReadRole(id)])
         == Step(s, Read(id, userId, orgId))
  {
    hide Step, Hits;
    AfterFour(s, Begin(id, userId, orgId), ReadUser(id), ReadMembership(id), ReadRole(id));
    if Hits(s, userId, orgId) {
      HitReadsNothing(s, id, userId, orgId);
      NoRead(s, id);
    } else {
      ReadsOfMiss(s, id, userId, orgId);
    }
  }

  lemma TornHalf(s: State, edit: Event)
    requires s.connected && s.store == map[] && s.reading == map[] && s.db.users == map["u" := User("agent", true)]
    requires edit == EditUser("u", Some(User("agent", false)), map["org" := "owner"])
    ensures var mid := Step(Step(Step(Step(s, Begin(0, "u", "org")), ReadUser(0)), edit), InvalidateUser("u"));
      && mid.connected && mid.store == map[] && mid.db == EditedUser(s.db, "u", edit.user, edit.memberships)
      && mid.reading == map[0 := Reader("u", "org", HasUser("agent", true), true)]
  {
    hide CacheKey, IsKeyOf, Step, EditedUser;
    FirstRead(s, 0, "u", "org");
    var s1 := Step(s, Begin(0, "u", "org"));
    NextRead(s1, 0);
    var s2 := Step(s1, ReadUser(0));
    assert s2.reading == map[0 := Reader("u", "org", HasUser("agent", true), false)];
    UserEdited(s2, edit);
  }

  lemma UserEdited(s: State, edit: Event)
    requires edit.EditUser?
    ensures var t := Step(Step(s, edit), InvalidateUser(edit.userId));
      && t.db == EditedUser(s.db, edit.userId, edit.user, edit.memberships)
      && t.connected == s.connected && t.reading == OvertakeUser(s.reading, edit.userId) && t.store.Keys <= s.store.Keys
  {
    hide CacheKey, IsKeyOf, EditedUser, OvertakeUser;
  }

  lemma TornRest(mid: State)
    requires mid.connected && mid.reading == map[0 := Reader("u", "org", HasUser("agent", true), true)]
    requires ("u", "org") in mid.db.memberships && mid.db.memberships[("u", "org")] == "owner"
    requires "owner" in mid.db.roles
    ensures var t := Step(Step(Step(mid, ReadMembership(0)), ReadRole(0)), StoreRead(0));
      var role := mid.db.roles["owner"];
      t.db == mid.db &&
      LookupResult(t, "u", "org") == Some(Permissions("owner", role.name, role.isSystem, true, role.permissions))
  {
    hide CacheKey, Step, Recompute;
    NextRead(mid, 0);
    var s2 := Step(mid, ReadMembership(0));
    NextRead(s2, 0);
    NextRead(Step(s2, ReadRole(0)), 0);
  }

  lemma AfterThree(s: State, a: Event, b: Event, c: Event)
    ensures After(s, [a, b, c]) == Step(Step(Step(s, a), b), c)
  {
    hide Step;
    assert [a, b, c][1..] == [b, c] && [b, c][1..] == [c] && [c][1..] == [];
    AfterOne(s, [a, b, c]);
    AfterOne(Step(s, a), [b, c]);
    AfterOne(Step(Step(s, a), b), [c]);
  }

  /** The last case happens: a role loses its permission, and the cache goes on granting it. */
  lemma AnswerGoesStale()
    ensures var role := Role("Agents", false, ["chat:read"]);
      var db := Db(map["u" := User("r", false)], map[], map["r" := role]);
      var s := State(db, true, map[], {}, {}, map[], {}, map[]);
      var t := After(s, Overlap(EditRole("r", role.(permissions := [])), 0, "u", "", 0, 2));
      && Settled(s)
      && LookupResult(t, "u", "") == Some(Permissions("r", "Agents", false, false, ["chat:read"]))
      && Recompute(t.db, "u", "") == Some(Permissions("r", "Agents", false, false, []))
  {
    hide CacheKey, Step, LookupResult, Settled, Overlap;
    var role := Role("Agents", false, ["chat:read"]);
    var e := EditRole("r", role.(permissions := []));
    var s := State(Db(map["u" := User("r", false)], map[], map["r" := role]), true, map[], {}, {}, map[], {}, map[]);
    Orders(e, 0, "u", "");
    AfterFour(s, Read(0, "u", ""), e, InvalidateRole("r"), StoreRead(0));
    FirstRead(s, 0, "u", "");
    var t := Step(Step(Step(s, Read(0, "u", "")), e), InvalidateRole("r"));
    RoleEdited(Step(s, Read(0, "u", "")), e);
    NextRead(t, 0);
    AfterPut(t, "u", "", t.reading[0].stage.value, t.reading[0].overtaken);
    EmptyIsSettled(s);
  }

  lemma RoleEdited(s: State, edit: Event)
    requires edit.EditRole?
    ensures var t := Step(Step(s, edit), InvalidateRole(edit.roleId));
      && t.db == s.db.(roles := s.db.roles[edit.roleId := edit.role])
      && t.connected == s.connected && t.reading == OvertakeRole(s.reading, edit.roleId)
  {
    hide CacheKey, IsKeyOf, OvertakeRole, WithoutUsers, UsersWith;
  }

  lemma EmptyIsSettled(s: State)
    requires s.connected && s.store == map[] && s.owedUsers == {} && s.owedRoles == {}
    requires s.reading == map[] && s.late == {} && s.tasks == map[]
    ensures Settled(s)
  {
    hide CacheKey, RoleOf, Recompute, PlainId;
  }

  lemma AfterPut(s: State, userId: Id, orgId: Id, value: Permissions, overtaken: bool)
    requires s.connected
    ensures var t := Put(s, CacheKey(userId, orgId), value, overtaken);
      t.db == s.db && forall reading :: LookupResult(t.(reading := reading), userId, orgId) == Some(value)
  {
    hide CacheKey, Recompute;
  }

  lemma TornAnswers(db: Db, edited: Db)
    requires db.users == map["u" := User("agent", true)] && ("u", "org") !in db.memberships
    requires edited == EditedUser(db, "u", Some(User("agent", false)), map["org" := "owner"])
    requires "owner" in db.roles && "agent" in db.roles
    ensures var owner, agent := db.roles["owner"], db.roles["agent"];
      && edited.roles == db.roles && ("u", "org") in edited.memberships
      && edited.memberships[("u", "org")] == "owner"
      && Recompute(db, "u", "org") == Some(Permissions("agent", agent.name, agent.isSystem, true, agent.permissions))
      && Recompute(edited, "u", "org")
         == Some(Permissions("owner", owner.name, owner.isSystem, false, owner.permissions))
  {
  }

  /**
   * Edits between two reads of one lookup make it answer, and store, what the database said neither
   * before nor after: the old row with the new membership.
   */
  lemma TornRead()
    ensures var owner, agent := Role("Owners", true, ["*"]), Role("Agents", false, []);
      var db := Db(map["u" := User("agent", true)], map[], map["owner" := owner, "agent" := agent]);
      var s := State(db, true, map[], {}, {}, map[], {}, map[]);
      var edit := EditUser("u", Some(User("agent", false)), map["org" := "owner"]);
      var t := After(After(s, [Begin(0, "u", "org"), ReadUser(0), edit, InvalidateUser("u")]),
                     [ReadMembership(0), ReadRole(0), StoreRead(0)]);
      && LookupResult(t, "u", "org") == Some(Permissions("owner", "Owners", true, true, ["*"]))
      && Recompute(db, "u", "org") == Some(Permissions("agent", "Agents", false, true, []))
      && Recompute(t.db, "u", "org") == Some(Permissions("owner", "Owners", true, false, ["*"]))
  {
    hide CacheKey, Step, LookupResult, EditedUser, Recompute;
    var owner, agent := Role("Owners", true, ["*"]), Role("Agents", false, []);
    var db := Db(map["u" := User("agent", true)], map[], map["owner" := owner, "agent" := agent]);
    var s := State(db, true, map[], {}, {}, map[], {}, map[]);
    var edit := EditUser("u", Some(User("agent", false)), map["org" := "owner"]);
    AfterFour(s, Begin(0, "u", "org"), ReadUser(0), edit, InvalidateUser("u"));
    var mid := Step(Step(Step(Step(s, Begin(0, "u", "org")), ReadUser(0)), edit), InvalidateUser("u"));
    AfterThree(mid, ReadMembership(0), ReadRole(0), StoreRead(0));
    TornHalf(s, edit);
    TornAnswers(db, mid.db);
    TornRest(mid);
  }
}
