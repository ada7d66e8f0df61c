/**
 * packages/cache/src/permissions.ts over packages/cache/src/cache.ts: the permissions of a user, read
 * through a cache that other code empties after it has changed the database.
 */
module PermissionsCache {
  import opened JsText

  /** Ids are strings; the empty string stands for a missing role and for "no organization". */
  type Id = string

  datatype User = User(roleId: Id, isSuperAdmin: bool)
  datatype Role = Role(name: string, isSystem: bool, permissions: seq<string>)
  datatype Db = Db(users: map<Id, User>, memberships: map<(Id, Id), Id>, roles: map<Id, Role>)

  datatype Permissions = Permissions(
    roleId: Id, roleName: string, isSystem: bool, isSuperAdmin: bool, permissions: seq<string>)
  type Store = map<string, Permissions>

  // ---------------------------------------------------------------- what the database says

  /** The role a membership gives, or else the user's own. */
  function RoleOf(db: Db, userId: Id, orgId: Id): Id {
    if userId !in db.users then ""
    else if orgId != "" && (userId, orgId) in db.memberships && db.memberships[(userId, orgId)] != ""
    then db.memberships[(userId, orgId)]
    else db.users[userId].roleId
  }

  function Recompute(db: Db, userId: Id, orgId: Id): Option<Permissions> {
    var roleId := RoleOf(db, userId, orgId);
    if roleId == "" || roleId !in db.roles then None
    else
      var role := db.roles[roleId];
      Some(Permissions(roleId, role.name, role.isSystem, db.users[userId].isSuperAdmin, role.permissions))
  }

  function UsersWith(db: Db, roleId: Id): set<Id> {
    OwnersOf(db, roleId) + MembersWith(db, roleId)
  }

  function OwnersOf(db: Db, roleId: Id): set<Id> { set u | u in db.users && db.users[u].roleId == roleId }

  function MembersWith(db: Db, roleId: Id): set<Id> {
    set m | m in db.memberships && db.memberships[m] == roleId :: m.0
  }

  // ---------------------------------------------------------------- cache keys

  const USER_PERMISSIONS := "permissions:user:"

  function CacheKey(userId: Id, orgId: Id): string {
    USER_PERMISSIONS + if orgId != "" then userId + (":" + orgId) else userId
  }

  /** The base key of a user, or one the pattern for the user's organizations matches. */
  predicate IsKeyOf(key: string, userId: Id) {
    key == CacheKey(userId, "") || StartsWith(key, USER_PERMISSIONS + (userId + ":"))
  }

  /** No separator, and nothing the store's glob patterns would interpret. */
  predicate PlainId(id: Id) {
    ':' !in id && '*' !in id && '?' !in id && '[' !in id && ']' !in id && '^' !in id && '\\' !in id
  }

  /** The text before the first separator. */
  function UserPart(s: string): string { s[..Span(s, c => c != ':')] }

  lemma {:induction false} UserPartOf(userId: Id, rest: string)
    requires ':' !in userId && (rest == "" || rest[0] == ':')
    ensures UserPart(userId + rest) == userId
  {
    if userId == "" {
      assert userId + rest == rest;
    } else {
      assert (userId + rest)[1..] == userId[1..] + rest && userId[0] in userId;
      UserPartOf(userId[1..], rest);
    }
  }

  lemma PrefixCancels(p: string, a: string, b: string)
    ensures p + a == p + b <==> a == b
    ensures StartsWith(p + a, p + b) <==> StartsWith(a, b)
  {
    assert (p + a)[|p|..] == a && (p + b)[|p|..] == b;
    if StartsWith(p + a, p + b) {
      assert (p + a)[..|p + b|][|p|..] == a[..|b|];
    }
    if StartsWith(a, b) { assert (p + a)[..|p + b|] == p + b; }
  }

  /** The keys deleted for a user are that user's keys, for every organization, and nobody else's. */
  lemma KeysOfUser(userId: Id, orgId: Id, other: Id)
    requires PlainId(userId) && PlainId(other)
    ensures IsKeyOf(CacheKey(userId, orgId), other) <==> userId == other
  {
    hide UserPart;
    var tail := if orgId != "" then userId + (":" + orgId) else userId;
    PrefixCancels(USER_PERMISSIONS, tail, other);
    PrefixCancels(USER_PERMISSIONS, tail, other + ":");
    assert CacheKey(other, "") == USER_PERMISSIONS + other;
    TailUser(userId, orgId, other);
  }

  lemma TailUser(userId: Id, orgId: Id, other: Id)
    requires ':' !in userId && ':' !in other
    ensures var tail := if orgId != "" then userId + (":" + orgId) else userId;
      && UserPart(tail) == userId
      && (tail == other || StartsWith(tail, other + ":") ==> userId == other)
      && (userId == other && orgId != "" ==> StartsWith(tail, other + ":"))
  {
    hide UserPart;
    var rest := if orgId != "" then ":" + orgId else "";
    var tail := userId + rest;
    assert userId + "" == userId;
    UserPartOf(userId, rest);
    UserPartOf(other, "");
    assert other + "" == other;
    if StartsWith(tail, other + ":") {
      var more := ":" + tail[|other| + 1..];
      assert tail == other + more;
      UserPartOf(other, more);
    }
    if userId == other && orgId != "" { assert tail[..|other| + 1] == other + ":"; }
  }

  /** Different pairs have different keys. */
  lemma KeysDiffer(userId: Id, orgId: Id, other: Id, otherOrg: Id)
    requires PlainId(userId) && PlainId(other) && CacheKey(userId, orgId) == CacheKey(other, otherOrg)
    ensures userId == other && orgId == otherOrg
  {
    KeysOfUser(userId, orgId, other);
    KeysOfUser(other, otherOrg, other);
    var a := if orgId != "" then userId + (":" + orgId) else userId;
    var b := if otherOrg != "" then other + (":" + otherOrg) else other;
    PrefixCancels(USER_PERMISSIONS, a, b);
    PrefixCancels(userId, if orgId != "" then ":" + orgId else "", if otherOrg != "" then ":" + otherOrg else "");
    PrefixCancels(":", orgId, otherOrg);
  }

  // ---------------------------------------------------------------- the steps, on values

  function WithoutUsers(store: Store, users: set<Id>): Store {
    map key | key in store && (forall u :: u in users ==> !IsKeyOf(key, u)) :: store[key]
  }

  /** What a lookup under way has read so far, and at last what it is about to store. */
  datatype Stage =
    | Asked
    | HasUser(ownRole: Id, isSuperAdmin: bool)
    | HasRoleId(roleId: Id, isSuperAdmin: bool)
    | Found(value: Permissions)

  /** A lookup under way, and whether an edit of a row it has read has come in since. */
  datatype Reader = Reader(userId: Id, orgId: Id, stage: Stage, overtaken: bool)

  /**
   * An invalidation of a role under way: the users it has queried and not yet dropped, and whether the role
   * has been edited again since it began.
   */
  datatype Task = Task(roleId: Id, membersRead: bool, todo: set<Id>, overtaken: bool)

  /**
   * The database and the cache, the invalidations still owed for edits already made, the lookups and role
   * invalidations under way, and the keys whose entry was last stored by an overtaken lookup.
   */
  datatype State = State(
    db: Db, connected: bool, store: Store, owedUsers: set<Id>, owedRoles: set<Id>,
    reading: map<nat, Reader>, late: set<string>, tasks: map<nat, Task>)

  datatype Event =
    | EditUser(userId: Id, user: Option<User>, memberships: map<Id, Id>) // the row, and the memberships by organization
    | EditRole(roleId: Id, role: Role)
    | InvalidateUser(userId: Id)
    | InvalidateRole(roleId: Id)            // a whole invalidation with nothing in between
    | QueryUsers(id: nat, roleId: Id)       // or call by call: who has the role as their own
    | QueryMembers(id: nat)                 // who has it by a membership
    | DropUser(id: nat, userId: Id)         // the keys of one of them are deleted
    | FinishRole(id: nat)
    | Lookup(userId: Id, orgId: Id)         // a whole lookup with nothing in between
    | Read(id: nat, userId: Id, orgId: Id)  // its reads with nothing in between
    | Begin(id: nat, userId: Id, orgId: Id) // or call by call: the cache is asked
    | ReadUser(id: nat)
    | ReadMembership(id: nat)
    | ReadRole(id: nat)
    | StoreRead(id: nat)                    // and what was found is stored
    | Expire(key: string)
    | Connection(up: bool)

  /** An edit of a user overtakes the lookups that have read the user already. */
  function OvertakeUser(reading: map<nat, Reader>, userId: Id): map<nat, Reader> {
    map i | i in reading ::
      reading[i].(overtaken := reading[i].overtaken || (reading[i].userId == userId && reading[i].stage != Asked))
  }

  predicate HasRead(stage: Stage, roleId: Id) { stage.Found? && stage.value.roleId == roleId }

  function OvertakeRole(reading: map<nat, Reader>, roleId: Id): map<nat, Reader> {
    map i | i in reading :: reading[i].(overtaken := reading[i].overtaken || HasRead(reading[i].stage, roleId))
  }

  function OvertakeTasks(tasks: map<nat, Task>, roleId: Id): map<nat, Task> {
    map i | i in tasks :: tasks[i].(overtaken := tasks[i].overtaken || tasks[i].roleId == roleId)
  }

  function EditedUser(db: Db, userId: Id, user: Option<User>, memberships: map<Id, Id>): Db {
    db.(users := match user case Some(u) => db.users[userId := u] case None => db.users - {userId},
        memberships := (map m | m in db.memberships && m.0 != userId :: db.memberships[m])
                       + (map o | o in memberships :: (userId, o) := memberships[o]))
  }

  function LookupResult(s: State, userId: Id, orgId: Id): Option<Permissions> {
    if s.connected && CacheKey(userId, orgId) in s.store then Some(s.store[CacheKey(userId, orgId)])
    else Recompute(s.db, userId, orgId)
  }

  function Put(s: State, key: string, value: Permissions, overtaken: bool): State {
    if !s.connected then s
    else s.(store := s.store[key := value], late := if overtaken then s.late + {key} else s.late - {key})
  }

  predicate Hits(s: State, userId: Id, orgId: Id) { s.connected && CacheKey(userId, orgId) in s.store }

  /** Without what these users have cached, if the store can be reached. */
  function Dropped(s: State, users: set<Id>): Store { if s.connected then WithoutUsers(s.store, users) else s.store }

  /** The lookup goes on with what it has read, or ends without an answer. */
  function GoOn(s: State, id: nat, stage: Option<Stage>): State
    requires id in s.reading
  {
    s.(reading := Advanced(s.reading, id, stage))
  }

  function Advanced(reading: map<nat, Reader>, id: nat, stage: Option<Stage>): map<nat, Reader>
    requires id in reading
  {
    if stage.Some? then reading[id := reading[id].(stage := stage.value)] else reading - {id}
  }

  function AfterUser(db: Db, userId: Id, orgId: Id): Option<Stage> {
    if userId !in db.users then None
    else
      var user := db.users[userId];
      if orgId != "" then Some(HasUser(user.roleId, user.isSuperAdmin))
      else if user.roleId == "" then None else Some(HasRoleId(user.roleId, user.isSuperAdmin))
  }

  function AfterMembership(db: Db, userId: Id, orgId: Id, ownRole: Id, isSuperAdmin: bool): Option<Stage> {
    var joined := (userId, orgId) in db.memberships && db.memberships[(userId, orgId)] != "";
    var roleId := if joined then db.memberships[(userId, orgId)] else ownRole;
    if roleId == "" then None else Some(HasRoleId(roleId, isSuperAdmin))
  }

  function AfterRole(db: Db, roleId: Id, isSuperAdmin: bool): Option<Stage> {
    if roleId !in db.roles then None
    else
      var role := db.roles[roleId];
      Some(Found(Permissions(roleId, role.name, role.isSystem, isSuperAdmin, role.permissions)))
  }

  /** A step of a lookup that is not under way, or is at another stage, is no step. */
  function ReadStep(s: State, e: Event): State
    requires e.ReadUser? || e.ReadMembership? || e.ReadRole? || e.StoreRead?
  {
    if e.id !in s.reading then s
    else
      var r := s.reading[e.id];
      match (e, r.stage)
      case (ReadUser(_), Asked) => GoOn(s, e.id, AfterUser(s.db, r.userId, r.orgId))
      case (ReadMembership(_), HasUser(own, admin)) =>
        GoOn(s, e.id, AfterMembership(s.db, r.userId, r.orgId, own, admin))
      case (ReadRole(_), HasRoleId(role, admin)) => GoOn(s, e.id, AfterRole(s.db, role, admin))
      case (StoreRead(_), Found(value)) =>
        Put(s, CacheKey(r.userId, r.orgId), value, r.overtaken).(reading := s.reading - {e.id})
      case _ => s
  }

  /** The same for a role invalidation: queries, then one user after the other, then the debt is paid. */
  function TaskStep(s: State, e: Event): State
    requires e.QueryMembers? || e.DropUser? || e.FinishRole?
  {
    if e.id !in s.tasks then s
    else
      var t := s.tasks[e.id];
      match e
      case QueryMembers(id) =>
        if t.membersRead then s
        else s.(tasks := s.tasks[id := t.(membersRead := true, todo := t.todo + MembersWith(s.db, t.roleId))])
      case DropUser(id, u) =>
        if !t.membersRead || u !in t.todo then s
        else s.(store := Dropped(s, {u}), tasks := s.tasks[id := t.(todo := t.todo - {u})])
      case FinishRole(id) =>
        if !t.membersRead || t.todo != {} then s
        else s.(owedRoles := if t.overtaken then s.owedRoles else s.owedRoles - {t.roleId}, tasks := s.tasks - {id})
  }

  function Step(s: State, e: Event): State {
    match e
    case EditUser(u, user, memberships) =>
      s.(db := EditedUser(s.db, u, user, memberships),
         owedUsers := s.owedUsers + {u}, reading := OvertakeUser(s.reading, u))
    case EditRole(r, role) =>
      s.(db := s.db.(roles := s.db.roles[r := role]), owedRoles := s.owedRoles + {r},
         reading := OvertakeRole(s.reading, r), tasks := OvertakeTasks(s.tasks, r))
    case InvalidateUser(u) => s.(store := Dropped(s, {u}), owedUsers := s.owedUsers - {u})
    case InvalidateRole(r) => s.(store := Dropped(s, UsersWith(s.db, r)), owedRoles := s.owedRoles - {r})
    case QueryUsers(id, r) => s.(tasks := s.tasks[id := Task(r, false, OwnersOf(s.db, r), false)])
    case QueryMembers(_) => TaskStep(s, e)
    case DropUser(_, _) => TaskStep(s, e)
    case FinishRole(_) => TaskStep(s, e)
    case Lookup(u, o) =>
      if Hits(s, u, o) || Recompute(s.db, u, o).None? then s
      else Put(s, CacheKey(u, o), Recompute(s.db, u, o).value, false)
    case Read(id, u, o) =>
      if Hits(s, u, o) || Recompute(s.db, u, o).None? then s
      else s.(reading := s.reading[id := Reader(u, o, Found(Recompute(s.db, u, o).value), false)])
    case Begin(id, u, o) => if Hits(s, u, o) then s else s.(reading := s.reading[id := Reader(u, o, Asked, false)])
    case ReadUser(_) => ReadStep(s, e)
    case ReadMembership(_) => ReadStep(s, e)
    case ReadRole(_) => ReadStep(s, e)
    case StoreRead(_) => ReadStep(s, e)
    case Expire(key) => s.(store := s.store - {key})
    case Connection(up) => s.(connected := up)
  }

  function After(s: State, run: seq<Event>): State
    decreases |run|
  {
    if run == [] then s else After(Step(s, run[0]), run[1..])
  }

  // ---------------------------------------------------------------- the service

  class Service {
    var db: Db
    var isConnected: bool
    var store: Store
    ghost var owedUsers: set<Id>
    ghost var owedRoles: set<Id>
    ghost var reading: map<nat, Reader>
    ghost var late: set<string>
    ghost var tasks: map<nat, Task>

    ghost function Contents(): State
      reads this
    {
      State(db, isConnected, store, owedUsers, owedRoles, reading, late, tasks)
    }

    constructor (db: Db)
      ensures Contents() == State(db, false, map[], {}, {}, map[], {}, map[])
    {
      this.db, isConnected, store, owedUsers, owedRoles := db, false, map[], {}, {};
      reading, late, tasks := map[], {}, map[];
    }

    method Get(key: string) returns (r: Option<Permissions>)
      ensures r == if isConnected && key in store then Some(store[key]) else None
    {
      if !isConnected { return None; }
      r := if key in store then Some(store[key]) else None;
    }

    method Set(key: string, value: Permissions) returns (ok: bool)
      modifies this`store
      ensures ok == isConnected && store == if ok then old(store)[key := value] else old(store)
    {
      if !isConnected { return false; }
      store := store[key := value];
      ok := true;
    }

    method Del(key: string) returns (ok: bool)
      modifies this`store
      ensures ok == isConnected && store == if ok then old(store) - {key} else old(store)
    {
      if !isConnected { return false; }
      store := store - {key};
      ok := true;
    }

    /** A scan returns the matching keys bit by bit; each batch is deleted as it arrives. */
    method DeleteByPattern(prefix: string) returns (deletedCount: nat)
      modifies this`store
      ensures !isConnected ==> store == old(store) && deletedCount == 0
      ensures isConnected ==> store == map key | key in old(store) && !StartsWith(key, prefix) :: old(store)[key]
      ensures deletedCount == |old(store)| - |store|
    {
      deletedCount := 0;
      if !isConnected { return; }
      var unscanned := store.Keys;
      while unscanned != {}
        invariant unscanned <= store.Keys
        invariant store == map key |
          key in old(store) && (key in unscanned || !StartsWith(key, prefix)) :: old(store)[key]
        invariant deletedCount == |old(store)| - |store|
      {
        var key :| key in unscanned;
        unscanned := unscanned - {key};
        if StartsWith(key, prefix) {
          Smaller(store, key);
          store := store - {key};
          deletedCount := deletedCount + 1;
        }
      }
    }

    /** The calls of a lookup, one by one: first the cache. */
    method AskCache(ghost id: nat, userId: Id, orgId: Id) returns (cached: Option<Permissions>)
      modifies this`reading
      ensures cached
        == if Hits(old(Contents()), userId, orgId) then Some(old(store)[CacheKey(userId, orgId)]) else None
      ensures reading == if cached.Some? then old(reading) else old(reading)[id := Reader(userId, orgId, Asked, false)]
      ensures Contents() == Step(old(Contents()), Begin(id, userId, orgId))
    {
      hide CacheKey;
      cached := Get(CacheKey(userId, orgId));
      if cached.None? { reading := reading[id := Reader(userId, orgId, Asked, false)]; }
    }

    method FindUser(ghost id: nat, userId: Id, orgId: Id) returns (user: Option<User>)
      requires id in reading && reading[id] == Reader(userId, orgId, Asked, reading[id].overtaken)
      modifies this`reading
      ensures user == if userId in db.users then Some(db.users[userId]) else None
      ensures reading == Advanced(old(reading), id, AfterUser(db, userId, orgId))
      ensures Contents() == Step(old(Contents()), ReadUser(id))
    {
      user := if userId in db.users then Some(db.users[userId]) else None;
      reading := Advanced(reading, id, AfterUser(db, userId, orgId));
    }

    method FindMembership(ghost id: nat, userId: Id, orgId: Id, ownRole: Id, ghost isSuperAdmin: bool)
      returns (roleId: Id)
      requires id in reading
      requires reading[id] == Reader(userId, orgId, HasUser(ownRole, isSuperAdmin), reading[id].overtaken)
      modifies this`reading
      ensures roleId ==
        if (userId, orgId) in db.memberships && db.memberships[(userId, orgId)] != ""
        then db.memberships[(userId, orgId)] else ownRole
      ensures var stage := AfterMembership(db, userId, orgId, ownRole, isSuperAdmin);
        if stage.None? then roleId == "" else stage == Some(HasRoleId(roleId, isSuperAdmin)) && roleId != ""
      ensures reading == Advanced(old(reading), id, AfterMembership(db, userId, orgId, ownRole, isSuperAdmin))
      ensures Contents() == Step(old(Contents()), ReadMembership(id))
    {
      roleId := ownRole;
      if (userId, orgId) in db.memberships && db.memberships[(userId, orgId)] != "" {
        roleId := db.memberships[(userId, orgId)];
      }
      reading := Advanced(reading, id, AfterMembership(db, userId, orgId, ownRole, isSuperAdmin));
    }

    method FindRole(ghost id: nat, ghost userId: Id, ghost orgId: Id, roleId: Id, isSuperAdmin: bool)
      returns (cacheData: Option<Permissions>)
      requires id in reading
      requires reading[id] == Reader(userId, orgId, HasRoleId(roleId, isSuperAdmin), reading[id].overtaken)
      modifies this`reading
      ensures cacheData ==
        if roleId !in db.roles then None
        else Some(Permissions(roleId, db.roles[roleId].name, db.roles[roleId].isSystem, isSuperAdmin,
                              db.roles[roleId].permissions))
      ensures AfterRole(db, roleId, isSuperAdmin) == if cacheData.Some? then Some(Found(cacheData.value)) else None
      ensures reading == Advanced(old(reading), id, AfterRole(db, roleId, isSuperAdmin))
      ensures Contents() == Step(old(Contents()), ReadRole(id))
    {
      cacheData := None;
      if roleId in db.roles {
        var role := db.roles[roleId];
        cacheData := Some(Permissions(roleId, role.name, role.isSystem, isSuperAdmin, role.permissions));
      }
      reading := Advanced(reading, id, AfterRole(db, roleId, isSuperAdmin));
    }

    method StoreAnswer(ghost id: nat, userId: Id, orgId: Id, cacheData: Permissions)
      requires id in reading && reading[id] == Reader(userId, orgId, Found(cacheData), reading[id].overtaken)
      modifies this`store, this`reading, this`late
      ensures reading == old(reading) - {id}
      ensures isConnected ==> store == old(store)[CacheKey(userId, orgId) := cacheData]
      ensures isConnected && !old(reading)[id].overtaken ==> late == old(late) - {CacheKey(userId, orgId)}
      ensures !isConnected ==> store == old(store) && late == old(late)
      ensures Contents() == Step(old(Contents()), StoreRead(id))
    {
      hide CacheKey;
      var cacheKey := CacheKey(userId, orgId);
      var stored := Set(cacheKey, cacheData);
      if stored {
        late := if reading[id].overtaken then late + {cacheKey} else late - {cacheKey};
      }
      reading := reading - {id};
    }

    /** The reads of a lookup that missed, with nothing in between. */
    method ReadRows(ghost id: nat, userId: Id, orgId: Id) returns (cacheData: Option<Permissions>)
      requires id in reading && reading[id] == Reader(userId, orgId, Asked, reading[id].overtaken)
      modifies this`reading
      ensures cacheData == Recompute(db, userId, orgId)
      ensures reading == if cacheData.None? then old(reading) - {id}
                         else old(reading)[id := old(reading)[id].(stage := Found(cacheData.value))]
    {
      hide CacheKey, Step, Recompute, AfterMembership, AfterRole, AfterUser;
      ghost var was := reading;
      StagesRecompute(db, userId, orgId);
      FirstStage(db, userId, orgId);
      var user := FindUser(id, userId, orgId);
      if user.None? { return None; }
      var roleId := user.value.roleId;
      if orgId != "" {
        roleId := FindMembership(id, userId, orgId, roleId, user.value.isSuperAdmin);
      }
      if roleId == "" {
        assert reading == was - {id};
        return None;
      }
      cacheData := FindRole(id, userId, orgId, roleId, user.value.isSuperAdmin);
      assert reading - {id} == was - {id};
    }

    /** All of a lookup with nothing in between. */
    method GetUserPermissionsCached(ghost id: nat, userId: Id, orgId: Id) returns (r: Option<Permissions>)
      requires id !in reading
      modifies this`store, this`reading, this`late
      ensures var key, found := CacheKey(userId, orgId), Recompute(db, userId, orgId);
        if isConnected && key in old(store) then r == Some(old(store)[key]) && store == old(store)
        else r == found && store == if isConnected && found.Some? then old(store)[key := found.value] else old(store)
      ensures r == LookupResult(old(Contents()), userId, orgId)
      ensures Contents() == Step(old(Contents()), Lookup(userId, orgId))
    {
      hide CacheKey, Step, Recompute;
      ghost var was := reading;
      LookupEffect(Contents(), userId, orgId);
      r := AskCache(id, userId, orgId);
      if r.Some? { return; }
      r := ReadRows(id, userId, orgId);
      if r.Some? { StoreAnswer(id, userId, orgId, r.value); }
      assert reading == was;
    }

    method DeleteUserKeys(userId: Id)
      modifies this`store
      ensures store == Dropped(old(Contents()), {userId})
    {
      hide StartsWith, WithoutUsers, CacheKey;
      OneUserGone(store, userId);
      var baseKey := CacheKey(userId, "");
      var _ := Del(baseKey);
      var _ := DeleteByPattern(USER_PERMISSIONS + (userId + ":"));
    }

    method InvalidateUserPermissionsCache(userId: Id)
      modifies this`store, this`owedUsers
      ensures Contents() == Step(old(Contents()), InvalidateUser(userId))
      ensures forall key :: key in store <==> key in old(store) && !(isConnected && IsKeyOf(key, userId))
    {
      DeleteUserKeys(userId);
      owedUsers := owedUsers - {userId};
    }

    /** The calls of a role invalidation, one by one. */
    method FindOwners(ghost id: nat, roleId: Id) returns (userIds: set<Id>)
      modifies this`tasks
      ensures userIds == OwnersOf(db, roleId) && tasks == old(tasks)[id := Task(roleId, false, userIds, false)]
      ensures Contents() == Step(old(Contents()), QueryUsers(id, roleId))
    {
      userIds := OwnersOf(db, roleId);
      tasks := tasks[id := Task(roleId, false, userIds, false)];
    }

    method FindMembers(ghost id: nat, roleId: Id, owners: set<Id>) returns (userIds: set<Id>)
      requires id in tasks && tasks[id] == Task(roleId, false, owners, tasks[id].overtaken)
      modifies this`tasks
      ensures userIds == owners + MembersWith(db, roleId)
      ensures tasks == old(tasks)[id := old(tasks)[id].(membersRead := true, todo := userIds)]
      ensures Contents() == Step(old(Contents()), QueryMembers(id))
    {
      userIds := owners + MembersWith(db, roleId);
      tasks := tasks[id := tasks[id].(membersRead := true, todo := userIds)];
    }

    method InvalidateOneOf(ghost id: nat, userId: Id)
      requires id in tasks && tasks[id].membersRead && userId in tasks[id].todo
      modifies this`store, this`tasks
      ensures store == Dropped(old(Contents()), {userId})
      ensures tasks == old(tasks)[id := old(tasks)[id].(todo := old(tasks)[id].todo - {userId})]
      ensures Contents() == Step(old(Contents()), DropUser(id, userId))
    {
      DeleteUserKeys(userId);
      tasks := tasks[id := tasks[id].(todo := tasks[id].todo - {userId})];
    }

    method InvalidateAllOf(ghost id: nat, userIds: set<Id>)
      requires id in tasks && tasks[id].membersRead && tasks[id].todo == userIds
      modifies this`store, this`tasks
      ensures store == Dropped(old(Contents()), userIds)
      ensures tasks == old(tasks)[id := old(tasks)[id].(todo := {})]
    {
      hide IsKeyOf, Step;
      var todo := userIds;
      while todo != {}
        invariant todo <= userIds && tasks == old(tasks)[id := old(tasks)[id].(todo := todo)]
        invariant store == if isConnected then WithoutUsers(old(store), userIds - todo) else old(store)
      {
        var uid :| uid in todo;
        todo := todo - {uid};
        InvalidateOneOf(id, uid);
      }
      assert userIds - todo == userIds;
    }

    /** All of a role's invalidation with nothing in between. */
    method InvalidateRolePermissionsCache(ghost id: nat, roleId: Id)
      requires id !in tasks
      modifies this`store, this`owedRoles, this`tasks
      ensures Contents() == Step(old(Contents()), InvalidateRole(roleId))
    {
      hide WithoutUsers, OwnersOf, MembersWith, Step;
      ghost var was := tasks;
      InvalidationEffect(Contents(), roleId);
      var owners := FindOwners(id, roleId);
      var userIds := FindMembers(id, roleId, owners);
      InvalidateAllOf(id, userIds);
      owedRoles, tasks := owedRoles - {roleId}, tasks - {id};
      assert tasks == was;
    }
  }

  /**
   * Who has which permissions, in terms of the rows alone. A membership with a role decides for its
   * organization, whatever the user's own role is; otherwise the own role does.
   */
  lemma MembershipDecides(db: Db, u: Id, o: Id, r: Id)
    requires u in db.users && o != "" && (u, o) in db.memberships && db.memberships[(u, o)] == r != ""
    ensures Recompute(db, u, o) == if r !in db.roles then None else
      Some(Permissions(r, db.roles[r].name, db.roles[r].isSystem, db.users[u].isSuperAdmin, db.roles[r].permissions))
  {
  }

  lemma OwnRoleDecides(db: Db, u: Id, o: Id)
    requires u in db.users && (o == "" || (u, o) !in db.memberships || db.memberships[(u, o)] == "")
    ensures var r := db.users[u].roleId;
      Recompute(db, u, o) == if r == "" || r !in db.roles then None else
        Some(Permissions(r, db.roles[r].name, db.roles[r].isSystem, db.users[u].isSuperAdmin, db.roles[r].permissions))
  {
  }

  lemma NoUserNoPermissions(db: Db, u: Id, o: Id)
    requires u !in db.users
    ensures Recompute(db, u, o) == None
  {
  }

  /** Whose entries an edit of a role may make wrong: those who have it as their own or in some organization. */
  lemma HoldersOfRole(db: Db, r: Id, u: Id)
    ensures u in UsersWith(db, r) <==>
      (u in db.users && db.users[u].roleId == r) || exists o :: (u, o) in db.memberships && db.memberships[(u, o)] == r
  {
    if m :| m in db.memberships && db.memberships[m] == r && m.0 == u {
      assert m == (u, m.1);
    }
    if o :| (u, o) in db.memberships && db.memberships[(u, o)] == r { assert (u, o).0 == u; }
  }

  /** The keys, letter by letter. */
  lemma KeyText(u: Id, o: Id)
    ensures CacheKey(u, o) == "permissions:user:" + u + if o == "" then "" else ":" + o
    ensures forall key :: IsKeyOf(key, u) <==>
      key == "permissions:user:" + u || "permissions:user:" + u + ":" <= key
  {
    forall key ensures IsKeyOf(key, u) <==> key == "permissions:user:" + u || "permissions:user:" + u + ":" <= key {
      assert USER_PERMISSIONS + (u + ":") == "permissions:user:" + u + ":";
    }
  }

  /** The reads one after the other find what recomputing gives. */
  lemma StagesRecompute(db: Db, userId: Id, orgId: Id)
    ensures userId !in db.users ==> Recompute(db, userId, orgId).None?
    ensures userId in db.users ==>
      var user := db.users[userId];
      var role := if orgId == "" then AfterUser(db, userId, orgId)
                  else AfterMembership(db, userId, orgId, user.roleId, user.isSuperAdmin);
      if role.None? then Recompute(db, userId, orgId).None?
      else
        && role.value.HasRoleId? && role.value.isSuperAdmin == user.isSuperAdmin
        && var last := AfterRole(db, role.value.roleId, user.isSuperAdmin);
           if last.None? then Recompute(db, userId, orgId).None?
           else last.value.Found? && Recompute(db, userId, orgId) == Some(last.value.value)
  {
  }

  /** What reading the user leaves to do. */
  lemma FirstStage(db: Db, userId: Id, orgId: Id)
    ensures userId !in db.users ==> AfterUser(db, userId, orgId) == None
    ensures userId in db.users ==>
      var user := db.users[userId];
      AfterUser(db, userId, orgId) ==
        if orgId != "" then Some(HasUser(user.roleId, user.isSuperAdmin))
        else if user.roleId == "" then None else Some(HasRoleId(user.roleId, user.isSuperAdmin))
  {
  }

  lemma LookupEffect(s: State, userId: Id, orgId: Id)
    ensures var key, found := CacheKey(userId, orgId), Recompute(s.db, userId, orgId);
      Step(s, Lookup(userId, orgId)) ==
        if !s.connected || key in s.store || found.None? then s
        else s.(store := s.store[key := found.value], late := s.late - {key})
  {
    hide CacheKey, Recompute;
  }

  lemma InvalidationEffect(s: State, roleId: Id)
    ensures Step(s, InvalidateRole(roleId))
         == s.(store := Dropped(s, UsersWith(s.db, roleId)), owedRoles := s.owedRoles - {roleId})
  {
  }

  lemma OneUserGone(store: Store, userId: Id)
    ensures WithoutUsers(store, {userId}) == map key |
      key in store - {CacheKey(userId, "")} && !StartsWith(key, USER_PERMISSIONS + (userId + ":")) :: store[key]
  {
    hide StartsWith, CacheKey;
    forall key | key in store ensures (forall u :: u in {userId} ==> !IsKeyOf(key, u)) <==> !IsKeyOf(key, userId) {
    }
  }

  lemma Smaller(store: Store, key: string)
    requires key in store
    ensures |store - {key}| == |store| - 1
  {
    assert (store - {key}).Keys == store.Keys - {key};
  }
}
