/** packages/websocket/src/hub.ts: clients indexed by organization, then user. */
module WebsocketHub {
  /** Organization, user and contact ids; NO_ID stands for null and for the empty string. */
  type Id = nat
  const NO_ID: Id := 0

  /** A connection: its identity, and the organization and user it was authenticated for. */
  datatype Client = Client(socket: nat, orgId: Id, userId: Id)

  type Users = map<Id, set<Client>>
  type Index = map<Id, Users>

  // ---------------------------------------------------------------- the index as a flat set

  function UsersOf(index: Index, org: Id): Users { if org in index then index[org] else map[] }

  function Conns(users: Users, user: Id): set<Client> { if user in users then users[user] else {} }

  /** The connections filed under an organization and a user. */
  function Filed(index: Index, org: Id, user: Id): set<Client> { Conns(UsersOf(index, org), user) }

  /** The flat set the nested maps stand for. */
  ghost function Members(index: Index): set<Client> {
    set org, user, c | org in index && user in index[org] && c in index[org][user] :: c
  }

  ghost predicate UsersKept(users: Users) {
    users != map[] && forall user :: user in users ==> user != NO_ID && users[user] != {}
  }

  /** No empty map or set is left behind, and nothing is filed under a missing id. */
  ghost predicate NothingEmpty(index: Index) {
    forall org :: org in index ==> org != NO_ID && UsersKept(index[org])
  }

  /** Every client sits under its own ids. */
  ghost predicate Placed(index: Index) {
    forall org, user, c :: c in Filed(index, org, user) ==> c.orgId == org && c.userId == user
  }

  lemma MemberPlace(index: Index, c: Client)
    requires Placed(index)
    ensures c in Members(index) <==> c in Filed(index, c.orgId, c.userId)
  {
    if c in Members(index) {
      var org, user :| org in index && user in index[org] && c in index[org][user];
      assert c in Filed(index, org, user);
    }
  }

  /** Two well-kept indexes with the same members are the same index. */
  lemma IndexIsDetermined(a: Index, b: Index)
    requires Placed(a) && Placed(b) && NothingEmpty(a) && NothingEmpty(b) && Members(a) == Members(b)
    ensures a == b
  {
    hide Members, Placed, NothingEmpty;
    forall org, user ensures Filed(a, org, user) == Filed(b, org, user) {
      FiledCovers(a, b, org, user);
      FiledCovers(b, a, org, user);
    }
    KeysCover(a, b);
    KeysCover(b, a);
    assert a.Keys == b.Keys;
    forall org | org in a ensures a[org] == b[org] {
      SameUsers(a, b, org);
    }
  }

  lemma FiledCovers(a: Index, b: Index, org: Id, user: Id)
    requires Placed(a) && Placed(b) && Members(a) == Members(b)
    ensures Filed(a, org, user) <= Filed(b, org, user)
  {
    hide Members, Filed;
    forall c | c in Filed(a, org, user) ensures c in Filed(b, org, user) {
      MemberPlace(a, c);
      MemberPlace(b, c);
    }
  }

  lemma KeysCover(a: Index, b: Index)
    requires NothingEmpty(a) && forall org, user :: Filed(a, org, user) == Filed(b, org, user)
    ensures a.Keys <= b.Keys
  {
    forall org | org in a ensures org in b {
      var user :| user in a[org];
      assert Filed(a, org, user) == Filed(b, org, user);
    }
  }

  lemma SameUsers(a: Index, b: Index, org: Id)
    requires org in a && org in b && NothingEmpty(a) && NothingEmpty(b)
    requires forall user :: Filed(a, org, user) == Filed(b, org, user)
    ensures a[org] == b[org]
  {
    forall user ensures user in a[org] <==> user in b[org] {
      assert Filed(a, org, user) == Filed(b, org, user);
    }
    assert a[org].Keys == b[org].Keys;
    forall user | user in a[org] ensures a[org][user] == b[org][user] {
      assert Filed(a, org, user) == Filed(b, org, user);
    }
  }

  // ---------------------------------------------------------------- the two updates

  function Put(index: Index, org: Id, user: Id, conns: set<Client>): Index {
    index[org := UsersOf(index, org)[user := conns]]
  }

  /** Delete the user when no connection is left, and the organization when no user is left. */
  function Take(index: Index, org: Id, user: Id, conns: set<Client>): Index {
    var users := if conns == {} then UsersOf(index, org) - {user} else UsersOf(index, org)[user := conns];
    if users == map[] then index - {org} else index[org := users]
  }

  lemma PutFiles(index: Index, org: Id, user: Id, conns: set<Client>)
    ensures forall o, u ::
      Filed(Put(index, org, user, conns), o, u) == if o == org && u == user then conns else Filed(index, o, u)
    ensures NothingEmpty(index) && org != NO_ID && user != NO_ID && conns != {} ==>
      NothingEmpty(Put(index, org, user, conns))
  {
    var after := Put(index, org, user, conns);
    assert after[org][user] == conns;
    if NothingEmpty(index) && org != NO_ID && user != NO_ID && conns != {} {
      forall u | u in after[org] ensures u != NO_ID && after[org][u] != {} {
        if u != user { assert u in index[org] && UsersKept(index[org]); }
      }
    }
  }

  lemma TakeFiles(index: Index, org: Id, user: Id, conns: set<Client>)
    requires org in index && user in index[org]
    ensures forall o, u ::
      Filed(Take(index, org, user, conns), o, u) == if o == org && u == user then conns else Filed(index, o, u)
    ensures NothingEmpty(index) ==> NothingEmpty(Take(index, org, user, conns))
  {
  }

  /** An index that differs from another only in c's own file has the members that file says. */
  lemma OneFileChanged(index: Index, after: Index, c: Client, conns: set<Client>)
    requires Placed(index)
    requires conns == Filed(index, c.orgId, c.userId) + {c} || conns == Filed(index, c.orgId, c.userId) - {c}
    requires forall o, u :: Filed(after, o, u) == if o == c.orgId && u == c.userId then conns else Filed(index, o, u)
    ensures Placed(after)
    ensures Members(after) == if c in conns then Members(index) + {c} else Members(index) - {c}
  {
    hide Members, Filed;
    forall org, user, d | d in Filed(after, org, user) ensures d.orgId == org && d.userId == user {
      assert d in Filed(index, org, user) || d == c;
    }
    forall d ensures d in Members(after) <==> (d in Members(index) && d != c) || (d == c && c in conns) {
      MemberPlace(index, d);
      MemberPlace(after, d);
    }
  }

  // ---------------------------------------------------------------- the hub

  /** No contact was named, or the client is looking at that one. */
  predicate LooksAt(c: Client, contactId: Id,
        contactOf: Client -> Id) { contactId == NO_ID || contactOf(c) == contactId }

  function Times(b: bool): nat { if b then 1 else 0 }

  class Hub {
    var clients: Index

    ghost predicate Valid()
      reads this
    {
      Placed(clients) && NothingEmpty(clients)
    }

    constructor ()
      ensures Valid() && Members(clients) == {}
    {
      clients := map[];
    }

    method Register(client: Client)
      requires Valid()
      modifies this
      ensures Valid()
      ensures var known := client.orgId != NO_ID && client.userId != NO_ID;
        Members(clients) == old(Members(clients)) + if known then {client} else {}
    {
      hide Members, Placed, NothingEmpty;
      var orgId, userId := client.orgId, client.userId;
      if orgId == NO_ID || userId == NO_ID { return; }
      var orgClients := UsersOf(clients, orgId);
      var userClients := Conns(orgClients, userId);
      userClients := userClients + {client};
      orgClients := orgClients[userId := userClients];
      PutFiles(clients, orgId, userId, userClients);
      OneFileChanged(clients, Put(clients, orgId, userId, userClients), client, userClients);
      clients := clients[orgId := orgClients];
    }

    method Unregister(client: Client) returns (closed: bool)
      requires Valid()
      modifies this
      ensures Valid()
      ensures Members(clients) == old(Members(clients)) - {client}
      ensures closed <==> client in old(Members(clients))
    {
      closed := false;
      hide Members, Placed, NothingEmpty;
      var orgId, userId := client.orgId, client.userId;
      MemberPlace(clients, client);
      if orgId == NO_ID || userId == NO_ID {
        NothingWithoutId(clients, orgId, userId);
        return;
      }
      if orgId !in clients { return; }
      var orgClients := clients[orgId];
      if userId !in orgClients { return; }
      var userClients := orgClients[userId];
      if client in userClients {
        userClients := userClients - {client};
        closed := true;
        TakeFiles(clients, orgId, userId, userClients);
        OneFileChanged(clients, Take(clients, orgId, userId, userClients), client, userClients);
        orgClients := if userClients == {} then orgClients - {userId} else orgClients[userId := userClients];
        clients := if orgClients == map[] then clients - {orgId} else clients[orgId := orgClients];
      }
    }

    /** The loop over the connections of one user; sent lists the clients written to. */
    method Send(userClients: set<Client>, contactId: Id, contactOf: Client -> Id) returns (sent: seq<Client>)
      ensures forall c :: multiset(sent)[c] == Times(c in userClients && LooksAt(c, contactId, contactOf))
    {
      sent := [];
      var todo := userClients;
      while todo != {}
        invariant todo <= userClients
        invariant forall c :: multiset(sent)[c] == Times(c in userClients - todo && LooksAt(c, contactId, contactOf))
      {
        var client :| client in todo;
        todo := todo - {client};
        if LooksAt(client, contactId, contactOf) {
          sent := sent + [client];
        }
      }
    }

    /** Exactly the selected clients get the message, once each; with a user id the contact is not looked at. */
    method Broadcast(orgId: Id, userId: Id, contactId: Id, contactOf: Client -> Id) returns (sent: seq<Client>)
      requires Valid()
      ensures forall c ::
        multiset(sent)[c] == Times(
          c in Members(clients) && c.orgId == orgId
          && if userId != NO_ID then c.userId == userId else contactId == NO_ID || contactOf(c) == contactId)
    {
      hide Members, Placed, NothingEmpty;
      UserSplit(clients);
      if orgId !in clients { return []; }
      var orgClients := clients[orgId];
      if userId != NO_ID {
        if userId !in orgClients { return []; }
        sent := Send(orgClients[userId], NO_ID, contactOf);
        return;
      }
      sent := [];
      var users := orgClients.Keys;
      while users != {}
        invariant users <= orgClients.Keys
        invariant forall c ::
          multiset(sent)[c] == Times(
            c in Members(clients) && c.orgId == orgId && c.userId !in users && LooksAt(c, contactId, contactOf))
      {
        var user :| user in users;
        users := users - {user};
        var more := Send(orgClients[user], contactId, contactOf);
        sent := sent + more;
      }
    }

    method BroadcastToUsers(orgId: Id, userIds: seq<Id>, contactOf: Client -> Id) returns (sent: seq<Client>)
      requires Valid()
      ensures forall c ::
        multiset(sent)[c] ==
          if c in Members(clients) && c.orgId == orgId
          then multiset(userIds)[c.userId] + multiset(userIds)[NO_ID] else 0
    {
      hide Members, Placed, NothingEmpty;
      sent := [];
      for i := 0 to |userIds|
        invariant forall c ::
          multiset(sent)[c] == if c in Members(clients) && c.orgId == orgId then Hits(userIds[..i], c.userId) else 0
      {
        assert userIds[..i + 1][..i] == userIds[..i];
        var more := Broadcast(orgId, userIds[i], NO_ID, contactOf);
        sent := sent + more;
      }
      assert userIds[..|userIds|] == userIds;
      forall c | c in Members(clients)
        ensures Hits(userIds, c.userId) == multiset(userIds)[c.userId] + multiset(userIds)[NO_ID]
      {
        MemberHasUser(clients, c);
        HitsCount(userIds, c.userId);
      }
    }

    method ClientCount() returns (count: nat)
      requires Valid()
      ensures count == |Members(clients)|
    {
      hide Members, Placed, NothingEmpty;
      UserSplit(clients);
      count := 0;
      ghost var counted: set<Client> := {};
      var orgs := clients.Keys;
      while orgs != {}
        invariant orgs <= clients.Keys
        invariant forall c :: c in counted <==> c in Members(clients) && c.orgId !in orgs
        invariant count == |counted|
      {
        var org :| org in orgs;
        var orgClients := clients[org];
        var users := orgClients.Keys;
        while users != {}
          invariant users <= orgClients.Keys
          invariant forall c ::
            c in counted <==> c in Members(clients) && (c.orgId !in orgs || (c.orgId == org && c.userId !in users))
          invariant count == |counted|
        {
          var user :| user in users;
          var userClients := orgClients[user];
          assert userClients !! counted;
          count := count + |userClients|;
          counted := counted + userClients;
          users := users - {user};
        }
        orgs := orgs - {org};
      }
      assert counted == Members(clients);
    }

    predicate IsUserOnline(orgId: Id, userId: Id)
      reads this
    {
      orgId in clients && userId in clients[orgId] && |clients[orgId][userId]| > 0
    }

    method OnlineUserIds(orgId: Id) returns (ids: seq<Id>)
      requires Valid()
      ensures forall u :: u in ids <==> HasClient(clients, orgId, u)
      ensures forall i, j :: 0 <= i < j < |ids| ==> ids[i] != ids[j]
    {
      hide HasClient, Placed, NothingEmpty;
      ids := [];
      forall u: Id { OnlineMeans(clients, orgId, u); }
      if orgId in clients {
        var users := clients[orgId].Keys;
        while users != {}
          invariant users <= clients[orgId].Keys
          invariant forall u :: u in ids <==> u in clients[orgId].Keys - users
          invariant forall i, j :: 0 <= i < j < |ids| ==> ids[i] != ids[j]
        {
          var user :| user in users;
          users := users - {user};
          OnlineMeans(clients, orgId, user);
          if |clients[orgId][user]| > 0 {
            ids := ids + [user];
          }
        }
      }
    }
  }

  lemma NothingWithoutId(index: Index, org: Id, user: Id)
    requires NothingEmpty(index) && (org == NO_ID || user == NO_ID)
    ensures Filed(index, org, user) == {}
  {
  }

  /** Every list of connections holds members only, and a member is in the list of its own user only. */
  lemma UserSplit(index: Index)
    requires Placed(index)
    ensures forall c :: c in Members(index) ==> c.orgId in index && c.userId in index[c.orgId]
    ensures forall org, user, c :: org in index && user in index[org] ==>
      (c in index[org][user] <==> c in Members(index) && c.orgId == org && c.userId == user)
  {
    hide Members;
    forall c | c in Members(index) ensures c.orgId in index && c.userId in index[c.orgId] { MemberPlace(index, c); }
    forall org, user, c | org in index && user in index[org]
      ensures c in index[org][user] <==> c in Members(index) && c.orgId == org && c.userId == user
    {
      assert Filed(index, org, user) == index[org][user];
      if c in index[org][user] { assert c.orgId == org && c.userId == user; }
      MemberPlace(index, c);
    }
  }

  ghost predicate HasClient(index: Index, orgId: Id, userId: Id) {
    exists c :: c in Members(index) && c.orgId == orgId && c.userId == userId
  }

  lemma OnlineMeans(index: Index, orgId: Id, userId: Id)
    requires Placed(index) && NothingEmpty(index)
    ensures HasClient(index, orgId, userId) <==> orgId in index && userId in index[orgId] && |index[orgId][userId]| > 0
    ensures HasClient(index, orgId, userId) <==> orgId in index && userId in index[orgId]
  {
    hide Members, Placed;
    UserSplit(index);
    if orgId in index && userId in index[orgId] {
      assert UsersKept(index[orgId]);
      var c :| c in index[orgId][userId];
      assert c in Members(index) && c.orgId == orgId && c.userId == userId;
    }
  }

  /** A user is reported online exactly when one of the registered clients is theirs. */
  lemma OnlineIsMembership(hub: Hub, orgId: Id, userId: Id)
    requires hub.Valid()
    ensures hub.IsUserOnline(orgId, userId) <==> HasClient(hub.clients, orgId, userId)
  {
    hide HasClient;
    OnlineMeans(hub.clients, orgId, userId);
  }

  // ---------------------------------------------------------------- repeated and empty user ids

  /** An empty id in the list stands for the whole organization. */
  function Hits(userIds: seq<Id>, user: Id): nat {
    if userIds == [] then 0 else
      var last := userIds[|userIds| - 1];
      Hits(userIds[..|userIds| - 1], user) + if last == user || last == NO_ID then 1 else 0
  }

  lemma {:induction false} HitsCount(userIds: seq<Id>, user: Id)
    requires user != NO_ID
    ensures Hits(userIds, user) == multiset(userIds)[user] + multiset(userIds)[NO_ID]
  {
    if userIds != [] {
      var n := |userIds| - 1;
      HitsCount(userIds[..n], user);
      assert userIds == userIds[..n] + [userIds[n]];
    }
  }

  lemma MemberHasUser(index: Index, c: Client)
    requires Placed(index) && NothingEmpty(index) && c in Members(index)
    ensures c.userId != NO_ID && c.orgId != NO_ID
  {
    MemberPlace(index, c);
    hide Members;
    assert UsersKept(index[c.orgId]);
  }

  /** Everyone listed is written to once when the list names no user twice and holds no empty id. */
  lemma {:induction false} HitsOnce(userIds: seq<Id>, user: Id)
    requires NO_ID !in userIds && forall i, j :: 0 <= i < j < |userIds| ==> userIds[i] != userIds[j]
    ensures Hits(userIds, user) == if user in userIds then 1 else 0
  {
    if userIds != [] {
      var n := |userIds| - 1;
      HitsOnce(userIds[..n], user);
      assert userIds == userIds[..n] + [userIds[n]];
    }
  }
}
