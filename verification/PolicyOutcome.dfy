/** What the tables hold after a projection has run, whatever they held before. */
module PolicyOutcome {
  import opened Results
  import opened PolicyTables
  import opened PolicyProjection

  ghost predicate Distinct(routes: seq<Projected>) {
    forall i, j :: 0 <= i < j < |routes| ==>
      routes[i].domain != routes[j].domain || routes[i].localPart != routes[j].localPart
  }

  ghost predicate PlainRoute(r: Projected) {
    && Plain(r.domain) && Plain(r.localPart) && Plain(r.replyIdentity)
    && (forall k :: 0 <= k < |r.operators| ==> Plain(r.operators[k]))
    && (forall j, k :: 0 <= j < k < |r.operators| ==> r.operators[j] != r.operators[k])
  }

  /** What the router's policy projection hands over: normalised texts, each route and each
      operator of a route once. */
  ghost predicate WellFormed(routes: seq<Projected>) {
    Distinct(routes) && forall i :: 0 <= i < |routes| ==> PlainRoute(routes[i])
  }

  lemma TailWellFormed(routes: seq<Projected>)
    requires WellFormed(routes) && routes != []
    ensures WellFormed(routes[1..]) && PlainRoute(routes[0])
  {
    hide PlainRoute;
    forall i | 0 <= i < |routes[1..]| ensures PlainRoute(routes[1..][i]) {
      assert routes[1..][i] == routes[i + 1];
    }
  }

  ghost predicate IsRoute(routes: seq<Projected>, id: Id) {
    exists i :: 0 <= i < |routes| && IdOf(routes[i]) == id
  }

  lemma HeadIsApart(routes: seq<Projected>)
    requires WellFormed(routes) && routes != []
    ensures !IsRoute(routes[1..], IdOf(routes[0]))
  {
    hide RouteId, Plain;
    forall i | 0 <= i < |routes[1..]| ensures IdOf(routes[1..][i]) != IdOf(routes[0]) {
      assert routes[1..][i] == routes[i + 1];
      assert PlainRoute(routes[i + 1]) && PlainRoute(routes[0]);
      RouteIdsDiffer(routes[0].domain, routes[0].localPart, routes[i + 1].domain, routes[i + 1].localPart);
    }
  }

  lemma IsRouteSplit(routes: seq<Projected>, id: Id)
    requires routes != []
    ensures IsRoute(routes, id) <==> id == IdOf(routes[0]) || IsRoute(routes[1..], id)
  {
    hide IdOf;
    if IsRoute(routes[1..], id) {
      var i :| 0 <= i < |routes[1..]| && IdOf(routes[1..][i]) == id;
      assert IdOf(routes[i + 1]) == id;
    }
    if IsRoute(routes, id) {
      var i :| 0 <= i < |routes| && IdOf(routes[i]) == id;
      assert i > 0 ==> routes[1..][i - 1] == routes[i];
    }
  }

  // ----- one route -----

  function DomainsAfter(db: Db, r: Projected): map<Id, string> {
    if DomainId(r.domain) in db.domains || r.domain in db.domains.Values then db.domains
    else db.domains[DomainId(r.domain) := r.domain]
  }

  function IdentityAfter(db: Db, r: Projected, personal: set<string>): Identity {
    var id := IdentityId(r.replyIdentity);
    Identity(if id in db.identities then db.identities[id].domainId else DomainId(r.domain),
             r.replyIdentity, KindOf(personal, r.replyIdentity))
  }

  /** A route keeps the domain and local part it was created with. */
  function RouteAfter(db: Db, r: Projected, sha: string): Route {
    var id := IdOf(r);
    Route(if id in db.routes then db.routes[id].domainId else DomainId(r.domain),
          if id in db.routes then db.routes[id].localPart else r.localPart,
          r.storage, IdentityId(r.replyIdentity), r.decision, true, Some(sha))
  }

  function HealthAfter(db: Db, r: Projected, sha: string, now: Time): Health {
    Declare(HealthOf(db, IdOf(r)), DeclarationOf(r, sha), r.initial, now)
  }

  function OperatorIds(operators: seq<string>): set<Id> {
    set o | o in operators :: OperatorId(o)
  }

  function Memberships(id: Id, operators: seq<string>): set<(Id, Id)> {
    set o | o in operators :: (id, OperatorId(o))
  }

  function Registered(known: map<Id, string>, operators: seq<string>): map<Id, string>
    decreases |operators|
  {
    if operators == [] then known
    else Registered(known[OperatorId(operators[0]) := operators[0]], operators[1..])
  }

  function OthersMembers(db: Db, id: Id): set<(Id, Id)> {
    set m | m in db.members && m.0 != id
  }

  function OthersReplies(db: Db, id: Id): map<(Id, Id), Binding> {
    map k | k in db.replies && k.0 != id :: db.replies[k]
  }

  function HeadResult(db: Db, r: Projected, personal: set<string>, sha: string): Db {
    db.(domains := DomainsAfter(db, r),
        identities := db.identities[IdentityId(r.replyIdentity) := IdentityAfter(db, r, personal)],
        routes := db.routes[IdOf(r) := RouteAfter(db, r, sha)],
        members := OthersMembers(db, IdOf(r)),
        replies := OthersReplies(db, IdOf(r)))
  }

  lemma DomainEffect(db: Db, r: Projected, now: Time)
    ensures Exec(db, InsertDomain(DomainId(r.domain), r.domain), now) == Ok(db.(domains := DomainsAfter(db, r)))
  {
    hide DomainId;
  }

  lemma IdentityEffect(db: Db, r: Projected, personal: set<string>, now: Time)
    requires Exec(db, RouteHead(r, personal, "")[1], now).Ok?
    ensures Exec(db, RouteHead(r, personal, "")[1], now).value ==
            db.(identities := db.identities[IdentityId(r.replyIdentity) := IdentityAfter(db, r, personal)])
  {
    hide DomainId, IdentityId, KindOf;
  }

  lemma RouteEffect(db: Db, r: Projected, sha: string, now: Time)
    requires Exec(db, RouteHead(r, {}, sha)[2], now).Ok?
    ensures Exec(db, RouteHead(r, {}, sha)[2], now).value ==
            db.(routes := db.routes[IdOf(r) := RouteAfter(db, r, sha)])
  {
    hide DomainId, IdentityId, IdOf;
  }

  lemma ClearEffect(db: Db, id: Id, now: Time)
    ensures Exec(db, ClearMembers(id), now) ==
            Ok(db.(members := OthersMembers(db, id), replies := OthersReplies(db, id)))
  {
  }

  lemma RunSingle(db: Db, s: Stmt, now: Time)
    ensures Run(db, [s], now) == Exec(db, s, now)
  {
    hide Exec;
    assert [s] + [] == [s];
    RunOne(db, s, [], now);
  }

  lemma HeadEffect(db: Db, r: Projected, personal: set<string>, sha: string, now: Time)
    requires Run(db, RouteHead(r, personal, sha), now).Ok?
    ensures Run(db, RouteHead(r, personal, sha), now).value == HeadResult(db, r, personal, sha)
  {
    hide Exec, Run, DomainId, IdentityId, IdOf, DomainsAfter, IdentityAfter, OthersMembers, OthersReplies;
    var p := RouteHead(r, personal, sha);
    assert p == [p[0]] + ([p[1]] + ([p[2]] + [p[3]]));
    RunOne(db, p[0], [p[1]] + ([p[2]] + [p[3]]), now);
    DomainEffect(db, r, now);
    var d := db.(domains := DomainsAfter(db, r));
    RunOne(d, p[1], [p[2]] + [p[3]], now);
    assert p[1] == RouteHead(r, personal, "")[1];
    IdentityEffect(d, r, personal, now);
    SameIdentity(db, d, r, personal);
    var i := d.(identities := d.identities[IdentityId(r.replyIdentity) := IdentityAfter(d, r, personal)]);
    RunOne(i, p[2], [p[3]], now);
    assert p[2] == RouteHead(r, {}, sha)[2];
    RouteEffect(i, r, sha, now);
    var t := i.(routes := i.routes[IdOf(r) := RouteAfter(i, r, sha)]);
    RunSingle(t, p[3], now);
    ClearEffect(t, IdOf(r), now);
    SameRest(db, t, IdOf(r));
  }

  lemma SameIdentity(db: Db, d: Db, r: Projected, personal: set<string>)
    requires d.identities == db.identities
    ensures IdentityAfter(d, r, personal) == IdentityAfter(db, r, personal)
  {
  }

  lemma SameRest(db: Db, t: Db, id: Id)
    requires t.members == db.members && t.replies == db.replies
    ensures OthersMembers(t, id) == OthersMembers(db, id) && OthersReplies(t, id) == OthersReplies(db, id)
  {
  }

  lemma {:induction false} OperatorsEffect(db: Db, id: Id, operators: seq<string>, now: Time)
    requires Run(db, OperatorStmts(id, operators), now).Ok?
    ensures Run(db, OperatorStmts(id, operators), now).value ==
            db.(operators := Registered(db.operators, operators), members := db.members + Memberships(id, operators))
    decreases |operators|
  {
    hide Exec, Run, OperatorId, Memberships;
    if operators == [] {
      NoMemberships(id);
      RunNothing(db, now);
      assert db.members + Memberships(id, []) == db.members;
    } else {
      var o, rest := operators[0], OperatorStmts(id, operators[1..]);
      var a, b := UpsertOperator(OperatorId(o), o), InsertMember(id, OperatorId(o));
      assert OperatorStmts(id, operators) == [a] + ([b] + rest);
      RunOne(db, a, [b] + rest, now);
      OperatorEffect(db, id, o, rest, now);
      var one := db.(operators := db.operators[OperatorId(o) := o], members := db.members + {(id, OperatorId(o))});
      OperatorsEffect(one, id, operators[1..], now);
      MembershipsSplit(id, operators);
      assert db.members + {(id, OperatorId(o))} + Memberships(id, operators[1..])
          == db.members + Memberships(id, operators);
    }
  }

  lemma RunNothing(db: Db, now: Time)
    ensures Run(db, [], now) == Ok(db)
  {
  }

  lemma NoMemberships(id: Id)
    ensures Memberships(id, []) == {}
  {
  }

  lemma MembershipsSplit(id: Id, operators: seq<string>)
    requires operators != []
    ensures Memberships(id, operators) == {(id, OperatorId(operators[0]))} + Memberships(id, operators[1..])
  {
    hide OperatorId;
    assert forall o :: o in operators <==> o == operators[0] || o in operators[1..];
  }

  lemma OperatorEffect(db: Db, id: Id, o: string, rest: seq<Stmt>, now: Time)
    requires Then(Exec(db, UpsertOperator(OperatorId(o), o), now),
                  [InsertMember(id, OperatorId(o))] + rest, now).Ok?
    ensures Then(Exec(db, UpsertOperator(OperatorId(o), o), now), [InsertMember(id, OperatorId(o))] + rest, now)
         == Run(db.(operators := db.operators[OperatorId(o) := o], members := db.members + {(id, OperatorId(o))}),
                rest, now)
  {
    hide Run, OperatorId;
    var next := db.(operators := db.operators[OperatorId(o) := o]);
    assert Exec(db, UpsertOperator(OperatorId(o), o), now).value == next;
    RunOne(next, InsertMember(id, OperatorId(o)), rest, now);
    var m := Exec(next, InsertMember(id, OperatorId(o)), now);
    assert m.Ok? ==> m.value.members == db.members + {(id, OperatorId(o))};
  }

  function BlockResult(db: Db, r: Projected, personal: set<string>, sha: string, now: Time): Db {
    HeadResult(db, r, personal, sha).(
      operators := Registered(db.operators, r.operators),
      members := OthersMembers(db, IdOf(r)) + Memberships(IdOf(r), r.operators),
      health := db.health[IdOf(r) := HealthAfter(db, r, sha, now)])
  }

  /** The statements of one route do to the tables what its row in the projection says. */
  lemma BlockEffect(db: Db, r: Projected, personal: set<string>, sha: string, now: Time)
    requires Run(db, RouteBlock(r, personal, sha), now).Ok?
    ensures Run(db, RouteBlock(r, personal, sha), now).value == BlockResult(db, r, personal, sha, now)
  {
    hide Run, RouteHead, OperatorStmts, IdOf, Memberships, OthersMembers, OthersReplies, DomainsAfter, IdentityAfter,
      RouteAfter, IdentityId, Registered, Declare, DeclarationOf;
    var head, ops := RouteHead(r, personal, sha), OperatorStmts(IdOf(r), r.operators);
    var last := UpsertHealth(IdOf(r), DeclarationOf(r, sha), r.initial);
    RunAppend(db, head + ops, [last], now);
    RunAppend(db, head, ops, now);
    HeadEffect(db, r, personal, sha, now);
    var h := HeadResult(db, r, personal, sha);
    OperatorsEffect(h, IdOf(r), r.operators, now);
    RunSingle(Run(h, ops, now).value, last, now);
  }

  // ----- all routes -----

  ghost predicate RoutesSettled(db: Db, routes: seq<Projected>, sha: string, next: Db) {
    && (forall id :: id in next.routes <==> id in db.routes || IsRoute(routes, id))
    && (forall id :: id in db.routes && !IsRoute(routes, id) ==> next.routes[id] == db.routes[id])
    && (forall i :: 0 <= i < |routes| ==>
          IdOf(routes[i]) in next.routes && next.routes[IdOf(routes[i])] == RouteAfter(db, routes[i], sha))
  }

  lemma RoutesStep(db: Db, routes: seq<Projected>, sha: string, mid: Db, next: Db)
    requires WellFormed(routes) && routes != []
    requires mid.routes == db.routes[IdOf(routes[0]) := RouteAfter(db, routes[0], sha)]
    requires RoutesSettled(mid, routes[1..], sha, next)
    ensures RoutesSettled(db, routes, sha, next)
  {
    hide IdOf, DomainId, IdentityId, WellFormed, IsRoute;
    HeadIsApart(routes);
    forall id ensures IsRoute(routes, id) <==> id == IdOf(routes[0]) || IsRoute(routes[1..], id) {
      IsRouteSplit(routes, id);
    }
    forall i | 0 <= i < |routes|
      ensures IdOf(routes[i]) in next.routes && next.routes[IdOf(routes[i])] == RouteAfter(db, routes[i], sha)
    {
      if i > 0 {
        assert routes[1..][i - 1] == routes[i];
        RouteListed(routes[1..], i - 1);
        assert RouteAfter(mid, routes[i], sha) == RouteAfter(db, routes[i], sha);
      }
    }
  }

  lemma RouteListed(routes: seq<Projected>, i: nat)
    requires i < |routes|
    ensures IsRoute(routes, IdOf(routes[i]))
  {
  }

  ghost predicate HealthSettled(db: Db, routes: seq<Projected>, sha: string, now: Time, next: Db) {
    && (forall id :: id in next.health <==> id in db.health || IsRoute(routes, id))
    && (forall id :: id in db.health && !IsRoute(routes, id) ==> next.health[id] == db.health[id])
    && (forall i :: 0 <= i < |routes| ==>
          IdOf(routes[i]) in next.health && next.health[IdOf(routes[i])] == HealthAfter(db, routes[i], sha, now))
  }

  lemma HealthStep(db: Db, routes: seq<Projected>, sha: string, now: Time, mid: Db, next: Db)
    requires WellFormed(routes) && routes != []
    requires mid.health == db.health[IdOf(routes[0]) := HealthAfter(db, routes[0], sha, now)]
    requires HealthSettled(mid, routes[1..], sha, now, next)
    ensures HealthSettled(db, routes, sha, now, next)
  {
    hide IdOf, WellFormed, IsRoute, Declare, DeclarationOf;
    HeadIsApart(routes);
    forall id ensures IsRoute(routes, id) <==> id == IdOf(routes[0]) || IsRoute(routes[1..], id) {
      IsRouteSplit(routes, id);
    }
    forall i | 0 <= i < |routes|
      ensures IdOf(routes[i]) in next.health && next.health[IdOf(routes[i])] == HealthAfter(db, routes[i], sha, now)
    {
      if i > 0 {
        assert routes[1..][i - 1] == routes[i];
        RouteListed(routes[1..], i - 1);
        assert HealthAfter(mid, routes[i], sha, now) == HealthAfter(db, routes[i], sha, now);
      }
    }
  }

  ghost predicate MembersSettled(db: Db, routes: seq<Projected>, next: Db) {
    && (forall m: (Id, Id) :: !IsRoute(routes, m.0) ==> (m in next.members <==> m in db.members))
    && (forall i, o :: 0 <= i < |routes| ==>
          ((IdOf(routes[i]), o) in next.members <==> o in OperatorIds(routes[i].operators)))
  }

  lemma MembersStep(db: Db, routes: seq<Projected>, mid: Db, next: Db)
    requires WellFormed(routes) && routes != []
    requires mid.members == OthersMembers(db, IdOf(routes[0])) + Memberships(IdOf(routes[0]), routes[0].operators)
    requires MembersSettled(mid, routes[1..], next)
    ensures MembersSettled(db, routes, next)
  {
    hide IdOf, OperatorId, WellFormed, IsRoute, OperatorIds;
    HeadIsApart(routes);
    MembershipsAre(IdOf(routes[0]), routes[0].operators);
    forall id ensures IsRoute(routes, id) <==> id == IdOf(routes[0]) || IsRoute(routes[1..], id) {
      IsRouteSplit(routes, id);
    }
    forall i, o | 0 <= i < |routes|
      ensures (IdOf(routes[i]), o) in next.members <==> o in OperatorIds(routes[i].operators)
    {
      if i > 0 {
        assert routes[1..][i - 1] == routes[i];
      }
    }
  }

  lemma MembershipsAre(id: Id, operators: seq<string>)
    ensures forall m: (Id, Id) :: m in Memberships(id, operators) <==> m.0 == id && m.1 in OperatorIds(operators)
  {
    hide OperatorId;
  }

  ghost predicate RepliesCleared(db: Db, routes: seq<Projected>, next: Db) {
    && (forall k :: k in next.replies ==> k in db.replies && next.replies[k] == db.replies[k])
    && (forall k: (Id, Id) :: k in db.replies ==> (k in next.replies <==> !IsRoute(routes, k.0)))
  }

  lemma RepliesClearedStep(db: Db, routes: seq<Projected>, mid: Db, next: Db)
    requires routes != []
    requires mid.replies == OthersReplies(db, IdOf(routes[0]))
    requires RepliesCleared(mid, routes[1..], next)
    ensures RepliesCleared(db, routes, next)
  {
    hide IdOf, IsRoute;
    forall id ensures IsRoute(routes, id) <==> id == IdOf(routes[0]) || IsRoute(routes[1..], id) {
      IsRouteSplit(routes, id);
    }
  }

  ghost predicate IsIdentity(routes: seq<Projected>, id: Id) {
    exists i :: 0 <= i < |routes| && IdentityId(routes[i].replyIdentity) == id
  }

  lemma IsIdentitySplit(routes: seq<Projected>, id: Id)
    requires routes != []
    ensures IsIdentity(routes, id) <==> id == IdentityId(routes[0].replyIdentity) || IsIdentity(routes[1..], id)
  {
    hide IdentityId;
    if IsIdentity(routes[1..], id) {
      var i :| 0 <= i < |routes[1..]| && IdentityId(routes[1..][i].replyIdentity) == id;
      assert IdentityId(routes[i + 1].replyIdentity) == id;
    }
    if IsIdentity(routes, id) {
      var i :| 0 <= i < |routes| && IdentityId(routes[i].replyIdentity) == id;
      assert i > 0 ==> routes[1..][i - 1] == routes[i];
    }
  }

  /** The domain of the first route that replies from an identity. */
  function FirstUser(routes: seq<Projected>, id: Id): Option<Id> {
    if routes == [] then None
    else if IdentityId(routes[0].replyIdentity) == id then Some(DomainId(routes[0].domain))
    else FirstUser(routes[1..], id)
  }

  /** The domain an identity is stored under once routes were projected: the one it had, or else
      that of its first user. No statement changes it afterwards. */
  function HomeOf(db: Db, routes: seq<Projected>, id: Id): Option<Id> {
    if id in db.identities then Some(db.identities[id].domainId) else FirstUser(routes, id)
  }

  ghost predicate IdentitiesSettled(db: Db, routes: seq<Projected>, personal: set<string>, next: Db) {
    && (forall id :: id in next.identities <==> id in db.identities || IsIdentity(routes, id))
    && (forall id :: id in db.identities && !IsIdentity(routes, id) ==> next.identities[id] == db.identities[id])
    && (forall id :: id in next.identities ==> HomeOf(db, routes, id) == Some(next.identities[id].domainId))
    && (forall i :: 0 <= i < |routes| ==> IdentitySet(next, routes[i].replyIdentity, personal))
  }

  predicate IdentitySet(db: Db, address: string, personal: set<string>) {
    && IdentityId(address) in db.identities
    && db.identities[IdentityId(address)].address == address
    && db.identities[IdentityId(address)].kind == KindOf(personal, address)
  }

  lemma IdentitiesStep(db: Db, routes: seq<Projected>, personal: set<string>, mid: Db, next: Db)
    requires WellFormed(routes) && routes != []
    requires mid.identities ==
             db.identities[IdentityId(routes[0].replyIdentity) := IdentityAfter(db, routes[0], personal)]
    requires IdentitiesSettled(mid, routes[1..], personal, next)
    ensures IdentitiesSettled(db, routes, personal, next)
  {
    hide IdentityId, DomainId, KindOf, WellFormed, IsIdentity, Plain;
    forall id ensures IsIdentity(routes, id) <==> id == IdentityId(routes[0].replyIdentity) || IsIdentity(routes[1..], id) {
      IsIdentitySplit(routes, id);
    }
    forall i | 0 <= i < |routes| ensures IdentitySet(next, routes[i].replyIdentity, personal) {
      if i > 0 {
        assert routes[1..][i - 1] == routes[i];
      } else if IsIdentity(routes[1..], IdentityId(routes[0].replyIdentity)) {
        SharedIdentity(routes);
      }
    }
  }

  lemma SharedIdentity(routes: seq<Projected>)
    requires WellFormed(routes) && routes != []
    requires IsIdentity(routes[1..], IdentityId(routes[0].replyIdentity))
    ensures exists i :: 0 <= i < |routes[1..]| && routes[1..][i].replyIdentity == routes[0].replyIdentity
  {
    hide IdentityId, Plain;
    var i :| 0 <= i < |routes[1..]| && IdentityId(routes[1..][i].replyIdentity) == IdentityId(routes[0].replyIdentity);
    assert routes[1..][i] == routes[i + 1];
    assert PlainRoute(routes[i + 1]) && PlainRoute(routes[0]);
    IdsDiffer(routes[0].replyIdentity, routes[i + 1].replyIdentity);
  }

  ghost predicate OperatorsSettled(db: Db, routes: seq<Projected>, next: Db) {
    && db.operators.Keys <= next.operators.Keys
    && (forall o :: Plain(o) && Registers(db.operators, o) ==> Registers(next.operators, o))
    && (forall i, k :: 0 <= i < |routes| && 0 <= k < |routes[i].operators| ==>
          Registers(next.operators, routes[i].operators[k]))
  }

  predicate Registers(known: map<Id, string>, o: string) {
    OperatorId(o) in known && known[OperatorId(o)] == o
  }

  lemma {:induction false} RegisteredAll(known: map<Id, string>, operators: seq<string>, o: string)
    requires Plain(o) && forall k :: 0 <= k < |operators| ==> Plain(operators[k])
    requires Registers(known, o) || o in operators
    ensures Registers(Registered(known, operators), o)
    decreases |operators|
  {
    hide OperatorId, Plain;
    if operators != [] {
      IdsDiffer(o, operators[0]);
      RegisteredAll(known[OperatorId(operators[0]) := operators[0]], operators[1..], o);
    }
  }

  lemma {:induction false} RegisteredGrows(known: map<Id, string>, operators: seq<string>)
    ensures known.Keys <= Registered(known, operators).Keys
    ensures forall id :: id in Registered(known, operators) ==> id in known || id in OperatorIds(operators)
    decreases |operators|
  {
    hide OperatorId;
    if operators != [] {
      RegisteredGrows(known[OperatorId(operators[0]) := operators[0]], operators[1..]);
    }
  }

  lemma OperatorsStep(db: Db, routes: seq<Projected>, mid: Db, next: Db)
    requires WellFormed(routes) && routes != []
    requires mid.operators == Registered(db.operators, routes[0].operators)
    requires OperatorsSettled(mid, routes[1..], next)
    ensures OperatorsSettled(db, routes, next)
  {
    hide Registered, Registers, Plain;
    RegisteredGrows(db.operators, routes[0].operators);
    assert PlainRoute(routes[0]);
    forall o | Plain(o) && (Registers(db.operators, o) || o in routes[0].operators) ensures Registers(next.operators, o) {
      RegisteredAll(db.operators, routes[0].operators, o);
    }
    forall i, k | 0 <= i < |routes| && 0 <= k < |routes[i].operators|
      ensures Registers(next.operators, routes[i].operators[k])
    {
      if i > 0 {
        assert routes[1..][i - 1] == routes[i];
      }
    }
  }

  ghost predicate Settled(db: Db, routes: seq<Projected>, personal: set<string>, sha: string, now: Time, next: Db) {
    && RoutesSettled(db, routes, sha, next)
    && HealthSettled(db, routes, sha, now, next)
    && MembersSettled(db, routes, next)
    && RepliesCleared(db, routes, next)
    && IdentitiesSettled(db, routes, personal, next)
    && OperatorsSettled(db, routes, next)
    && next.revisions == db.revisions && next.runtime == db.runtime && next.projection == db.projection
  }

  lemma SettledNothing(db: Db, personal: set<string>, sha: string, now: Time)
    ensures Settled(db, [], personal, sha, now, db)
  {
  }

  lemma SettledStep(db: Db, routes: seq<Projected>, personal: set<string>, sha: string, now: Time, next: Db)
    requires WellFormed(routes) && routes != []
    requires Settled(BlockResult(db, routes[0], personal, sha, now), routes[1..], personal, sha, now, next)
    ensures Settled(db, routes, personal, sha, now, next)
  {
    hide WellFormed, RoutesSettled, HealthSettled, MembersSettled, RepliesCleared, IdentitiesSettled, OperatorsSettled,
      IdOf, IdentityId, Registered, Memberships, OthersMembers, OthersReplies, RouteAfter, HealthAfter, IdentityAfter;
    var mid := BlockResult(db, routes[0], personal, sha, now);
    RoutesStep(db, routes, sha, mid, next);
    HealthStep(db, routes, sha, now, mid, next);
    MembersStep(db, routes, mid, next);
    RepliesClearedStep(db, routes, mid, next);
    IdentitiesStep(db, routes, personal, mid, next);
    OperatorsStep(db, routes, mid, next);
  }

  lemma {:induction false} BlocksEffect(db: Db, routes: seq<Projected>, personal: set<string>, sha: string, now: Time)
    requires WellFormed(routes) && Run(db, Blocks(routes, personal, sha), now).Ok?
    ensures Settled(db, routes, personal, sha, now, Run(db, Blocks(routes, personal, sha), now).value)
    decreases |routes|
  {
    hide Run, WellFormed, RouteBlock, Settled, BlockResult;
    if routes == [] {
      RunNothing(db, now);
      SettledNothing(db, personal, sha, now);
    } else {
      var first, rest := RouteBlock(routes[0], personal, sha), Blocks(routes[1..], personal, sha);
      RunAppend(db, first, rest, now);
      BlockEffect(db, routes[0], personal, sha, now);
      TailWellFormed(routes);
      BlocksEffect(BlockResult(db, routes[0], personal, sha, now), routes[1..], personal, sha, now);
      SettledStep(db, routes, personal, sha, now, Run(db, Blocks(routes, personal, sha), now).value);
    }
  }

  // ----- reply bindings -----

  function Bound(replies: map<(Id, Id), Binding>, r: Projected, operators: seq<string>, sha: string): map<(Id, Id), Binding>
    decreases |operators|
  {
    if operators == [] then replies
    else Bound(replies[(IdOf(r), OperatorId(operators[0])) := BindingOf(r, operators[0], sha)], r, operators[1..], sha)
  }

  lemma {:induction false} BoundIs(replies: map<(Id, Id), Binding>, r: Projected, operators: seq<string>, sha: string)
    requires forall k :: 0 <= k < |operators| ==> Plain(operators[k])
    ensures forall k: (Id, Id) :: k in Bound(replies, r, operators, sha) <==>
              k in replies || (k.0 == IdOf(r) && k.1 in OperatorIds(operators))
    ensures forall k: (Id, Id) :: k in replies && (k.0 != IdOf(r) || k.1 !in OperatorIds(operators)) ==>
              Bound(replies, r, operators, sha)[k] == replies[k]
    ensures forall o :: o in operators ==>
              (IdOf(r), OperatorId(o)) in Bound(replies, r, operators, sha) &&
              Bound(replies, r, operators, sha)[(IdOf(r), OperatorId(o))] == BindingOf(r, o, sha)
    decreases |operators|
  {
    hide IdOf, OperatorId, BindingOf, Plain;
    if operators != [] {
      var next := replies[(IdOf(r), OperatorId(operators[0])) := BindingOf(r, operators[0], sha)];
      BoundIs(next, r, operators[1..], sha);
      forall o | o in operators
        ensures
          && (IdOf(r), OperatorId(o)) in Bound(replies, r, operators, sha)
          && Bound(replies, r, operators, sha)[(IdOf(r), OperatorId(o))] == BindingOf(r, o, sha)
      {
        if o !in operators[1..] {
          Unlisted(o, operators[1..]);
        }
      }
      assert forall o :: o in operators <==> o == operators[0] || o in operators[1..];
    }
  }

  lemma Unlisted(o: string, operators: seq<string>)
    requires Plain(o) && o !in operators && forall k :: 0 <= k < |operators| ==> Plain(operators[k])
    ensures OperatorId(o) !in OperatorIds(operators)
  {
    hide OperatorId, Plain;
    forall p | p in operators ensures OperatorId(p) != OperatorId(o) {
      IdsDiffer(o, p);
    }
  }

  lemma {:induction false} RepliesOfEffect(db: Db, r: Projected, operators: seq<string>, sha: string, now: Time)
    requires Run(db, ReplyStmts(r, operators, sha), now).Ok?
    ensures Run(db, ReplyStmts(r, operators, sha), now).value == db.(replies := Bound(db.replies, r, operators, sha))
    decreases |operators|
  {
    hide Run, IdOf, OperatorId, BindingOf;
    if operators == [] {
      RunNothing(db, now);
    } else {
      var s := InsertReply(IdOf(r), OperatorId(operators[0]), BindingOf(r, operators[0], sha));
      RunOne(db, s, ReplyStmts(r, operators[1..], sha), now);
      RepliesOfEffect(Exec(db, s, now).value, r, operators[1..], sha, now);
    }
  }

  ghost predicate RepliesBound(db: Db, routes: seq<Projected>, sha: string, next: Db) {
    && (forall i, o :: 0 <= i < |routes| && o in routes[i].operators ==>
          && (IdOf(routes[i]), OperatorId(o)) in next.replies
          && next.replies[(IdOf(routes[i]), OperatorId(o))] == BindingOf(routes[i], o, sha))
    && (forall i, id :: 0 <= i < |routes| && (IdOf(routes[i]), id) in next.replies ==>
          (IdOf(routes[i]), id) in db.replies || id in OperatorIds(routes[i].operators))
    && (forall k: (Id, Id) :: !IsRoute(routes, k.0) ==> (k in next.replies <==> k in db.replies))
    && (forall k: (Id, Id) :: !IsRoute(routes, k.0) && k in db.replies ==> next.replies[k] == db.replies[k])
  }

  lemma RepliesBoundStep(db: Db, routes: seq<Projected>, sha: string, mid: Db, next: Db)
    requires WellFormed(routes) && routes != []
    requires mid.replies == Bound(db.replies, routes[0], routes[0].operators, sha)
    requires RepliesBound(mid, routes[1..], sha, next)
    ensures RepliesBound(db, routes, sha, next)
  {
    hide IdOf, OperatorId, BindingOf, WellFormed, IsRoute, Plain, OperatorIds, Bound;
    HeadIsApart(routes);
    TailWellFormed(routes);
    BoundIs(db.replies, routes[0], routes[0].operators, sha);
    OperatorIdsListed(routes[0].operators);
    forall id ensures IsRoute(routes, id) <==> id == IdOf(routes[0]) || IsRoute(routes[1..], id) {
      IsRouteSplit(routes, id);
    }
    forall i | 0 < i < |routes| ensures routes[i] == routes[1..][i - 1] && IdOf(routes[i]) != IdOf(routes[0]) {
      RouteListed(routes[1..], i - 1);
    }
  }

  lemma OperatorIdsListed(operators: seq<string>)
    ensures forall o :: o in operators ==> OperatorId(o) in OperatorIds(operators)
  {
    hide OperatorId;
  }

  lemma {:induction false} RepliesEffect(db: Db, routes: seq<Projected>, sha: string, now: Time)
    requires WellFormed(routes) && Run(db, Replies(routes, sha), now).Ok?
    ensures var next := Run(db, Replies(routes, sha), now).value;
      next == db.(replies := next.replies) && RepliesBound(db, routes, sha, next)
    decreases |routes|
  {
    hide Run, WellFormed, ReplyStmts, IdOf, OperatorId, BindingOf, Bound;
    if routes == [] {
      RunNothing(db, now);
    } else {
      var first, rest := ReplyStmts(routes[0], routes[0].operators, sha), Replies(routes[1..], sha);
      RunAppend(db, first, rest, now);
      RepliesOfEffect(db, routes[0], routes[0].operators, sha, now);
      TailWellFormed(routes);
      var mid := db.(replies := Bound(db.replies, routes[0], routes[0].operators, sha));
      RepliesEffect(mid, routes[1..], sha, now);
      RepliesBoundStep(db, routes, sha, mid, Run(mid, rest, now).value);
    }
  }

  // ----- opening and closing -----

  function Disabled(routes: map<Id, Route>): map<Id, Route> {
    map id | id in routes :: routes[id].(enabled := false)
  }

  /** The row of the policy before it is activated: it counts the domains and the routes. */
  ghost predicate Opened(before: Db, routes: seq<Projected>, source: Source, row: Revision) {
    && row.domainCount == |set r | r in routes :: r.domain| && row.routeCount == |routes|
    && row.activatedAt == if source.sha in before.revisions then before.revisions[source.sha].activatedAt else None
  }

  lemma DomainsCounted(routes: seq<Projected>)
    ensures (set i | 0 <= i < |routes| :: routes[i].domain) == set r | r in routes :: r.domain
  {
    forall r | r in routes ensures r.domain in set i | 0 <= i < |routes| :: routes[i].domain {
      var i :| 0 <= i < |routes| && routes[i] == r;
    }
  }

  lemma OpeningEffect(db: Db, routes: seq<Projected>, source: Source, now: Time)
    requires Run(db, Opening(routes, source), now).Ok?
    ensures var next := Run(db, Opening(routes, source), now).value;
      && next == db.(revisions := next.revisions, routes := Disabled(db.routes))
      && source.sha in next.revisions && next.revisions[source.sha].r2Key == source.r2Key
      && next.revisions == db.revisions[source.sha := next.revisions[source.sha]]
      && Opened(db, routes, source, next.revisions[source.sha])
  {
    hide Run;
    var p := Opening(routes, source);
    assert p == [p[0]] + [p[1]];
    DomainsCounted(routes);
    RunOne(db, p[0], [p[1]], now);
    RunSingle(Exec(db, p[0], now).value, p[1], now);
  }

  function Closed(revisions: map<string, Revision>, sha: string, now: Time): map<string, Revision> {
    map key | key in revisions ::
      if key == sha then Activated(Superseded(sha, key, revisions[key], now), now)
      else Superseded(sha, key, revisions[key], now)
  }

  lemma RevisionsClosed(db: Db, sha: string, now: Time)
    requires sha in db.revisions
    ensures Exec(db, SupersedeOthers(sha), now).Ok?
    ensures Exec(Exec(db, SupersedeOthers(sha), now).value, ActivateRevision(sha), now)
            == Ok(db.(revisions := Closed(db.revisions, sha, now)))
    ensures sha in Closed(db.revisions, sha, now)
  {
    hide Superseded, Activated;
    var a := Exec(db, SupersedeOthers(sha), now).value;
    assert Exec(a, ActivateRevision(sha), now).value.revisions == Closed(db.revisions, sha, now);
  }

  lemma ClosingEffect(db: Db, source: Source, projectionSha: string, now: Time)
    requires source.sha in db.revisions
    ensures Run(db, Closing(source, projectionSha), now) ==
            Ok(db.(revisions := Closed(db.revisions, source.sha, now),
                   runtime := Some(Runtime(source.sha, source.r2Key, now)),
                   projection := db.projection +
                     map key | key in Entries(source, projectionSha) :: (Entries(source, projectionSha)[key], now)))
  {
    hide Run, Entries, Closed;
    var p := Closing(source, projectionSha);
    assert p == [p[0]] + ([p[1]] + ([p[2]] + [p[3]]));
    RevisionsClosed(db, source.sha, now);
    RunOne(db, p[0], [p[1]] + ([p[2]] + [p[3]]), now);
    var a := Exec(db, p[0], now).value;
    RunOne(a, p[1], [p[2]] + [p[3]], now);
    var b := Exec(a, p[1], now).value;
    RunOne(b, p[2], [p[3]], now);
    RunSingle(Exec(b, p[2], now).value, p[3], now);
  }

  // ----- the whole projection -----

  predicate Active(row: Revision) {
    row.activatedAt.Some? && row.supersededAt.None?
  }

  /** The policy's revision is the one activated and not superseded. */
  ghost predicate OneActive(db: Db, source: Source) {
    && source.sha in db.revisions
    && db.revisions[source.sha].r2Key == source.r2Key
    && (forall key :: key in db.revisions ==> (Active(db.revisions[key]) <==> key == source.sha))
  }

  /** Exactly the projected routes are enabled, under the policy and with the projection's columns. */
  ghost predicate ExactlyEnabled(db: Db, routes: seq<Projected>, sha: string) {
    && (forall id :: id in db.routes ==> (db.routes[id].enabled <==> IsRoute(routes, id)))
    && (forall i :: 0 <= i < |routes| ==> IdOf(routes[i]) in db.routes && Serves(db.routes[IdOf(routes[i])], routes[i], sha))
  }

  /** A route is stored in its domain under its local part, unless it was stored before. */
  ghost predicate Placed(before: Db, db: Db, routes: seq<Projected>) {
    forall i :: 0 <= i < |routes| ==>
      var id := RouteId(routes[i].domain, routes[i].localPart);
      && id in db.routes
      && db.routes[id].domainId == (if id in before.routes then before.routes[id].domainId else DomainId(routes[i].domain))
      && db.routes[id].localPart == (if id in before.routes then before.routes[id].localPart else routes[i].localPart)
  }

  /** The policy's row counts what it projects and keeps the time of its first activation; every other active row is
      superseded now; the policy is the one at run time, and the projection's state names it. */
  ghost predicate Published(before: Db, db: Db, routes: seq<Projected>, source: Source, projectionSha: string, now: Time) {
    && source.sha in db.revisions
    && var row := db.revisions[source.sha];
    && row.r2Key == source.r2Key
    && row.domainCount == |set r | r in routes :: r.domain| && row.routeCount == |routes|
    && row.activatedAt == Some(if source.sha in before.revisions && before.revisions[source.sha].activatedAt.Some?
                               then before.revisions[source.sha].activatedAt.value else now)
    && row.supersededAt == None
    && (forall key :: key in before.revisions && key != source.sha ==>
          && key in db.revisions
          && db.revisions[key] == before.revisions[key].(
               supersededAt := if before.revisions[key].activatedAt.Some? && before.revisions[key].supersededAt.None?
                               then Some(now) else before.revisions[key].supersededAt))
    && db.revisions.Keys == before.revisions.Keys + {source.sha}
    && db.runtime == Some(Runtime(source.sha, source.r2Key, now))
    && db.projection == before.projection["active_policy_sha256" := (source.sha, now)]
                                         ["active_desired_state_sha256" := (source.desiredState, now)]
                                         ["active_projection_sha256" := (projectionSha, now)]
  }

  predicate Serves(row: Route, r: Projected, sha: string) {
    && row.kind == r.storage && row.identityId == IdentityId(r.replyIdentity)
    && row.decision == r.decision && row.policy == Some(sha)
  }

  /** Each route has exactly its operators as members, and each of them is stored under its address. */
  ghost predicate ExactlyOperators(db: Db, routes: seq<Projected>) {
    && (forall i, o :: 0 <= i < |routes| ==>
          ((IdOf(routes[i]), o) in db.members <==> o in OperatorIds(routes[i].operators)))
    && (forall i, k :: 0 <= i < |routes| && 0 <= k < |routes[i].operators| ==>
          Registers(db.operators, routes[i].operators[k]))
  }

  /** Each route binds exactly its operators: where it names a reply identity for every operator, each to its own, first
      as a person; otherwise each to the route's identity, first by role. */
  ghost predicate ExactlyBindings(db: Db, routes: seq<Projected>, sha: string) {
    && (forall i, o :: 0 <= i < |routes| && o in routes[i].operators ==> BoundTo(db, routes[i], o, sha))
    && (forall i, id :: 0 <= i < |routes| && (IdOf(routes[i]), id) in db.replies ==>
          id in OperatorIds(routes[i].operators))
  }

  predicate BoundTo(db: Db, r: Projected, o: string, sha: string) {
    var key := (RouteId(r.domain, r.localPart), OperatorId(o));
    && key in db.replies
    && db.replies[key].policy == sha
    && match r.operatorReplies
       case Some(own) =>
         db.replies[key].mode == PersonalFirst
         && db.replies[key].identityId == IdentityId(if o in own then own[o] else r.replyIdentity)
       case None => db.replies[key].mode == RoleFirst && db.replies[key].identityId == IdentityId(r.replyIdentity)
  }

  /** An identity is personal exactly when some personal route uses it. */
  ghost predicate KindsFollowUse(db: Db, routes: seq<Projected>) {
    forall i :: 0 <= i < |routes| ==>
      && IdentityId(routes[i].replyIdentity) in db.identities
      && db.identities[IdentityId(routes[i].replyIdentity)].address == routes[i].replyIdentity
      && (db.identities[IdentityId(routes[i].replyIdentity)].kind == Personal <==>
          exists j :: 0 <= j < |routes| && routes[j].storage == Personal
                      && routes[j].replyIdentity == routes[i].replyIdentity)
  }

  /** Proof columns survive exactly where the route's row was proved under the same policy and
      provider and the route is not excluded; otherwise nothing of them is left. */
  ghost predicate ProofsKept(before: Db, db: Db, routes: seq<Projected>, sha: string, now: Time) {
    forall i :: 0 <= i < |routes| ==>
      && IdOf(routes[i]) in db.health
      && ProofKept(HealthOf(before, IdOf(routes[i])), db.health[IdOf(routes[i])], routes[i], sha, now)
  }

  predicate ProofKept(before: Option<Health>, after: Health, r: Projected, sha: string, now: Time) {
    && after.declared == Declaration(r.localPart + "@" + r.domain, r.decision, r.provider, |r.operators|, r.replyIdentity,
                                     Some(sha))
    && after.observed == (if before.Some? then before.value.observed else None)
    && after.updatedAt == now
    && after.proof ==
       if before.Some? && before.value.declared.policy == Some(sha) && before.value.declared.provider == r.provider
          && r.initial != IntentionallyExcluded
       then before.value.proof
       else Proof(r.initial, r.initial, None, None, None, "[]", None, None, None, None, None)
  }

  /** What the projection does not name stays, except that its routes are disabled. */
  ghost predicate OthersUntouched(before: Db, db: Db, routes: seq<Projected>, sha: string) {
    && (forall id :: id in before.routes ==> id in db.routes)
    && (forall id :: id in before.routes && !IsRoute(routes, id) ==> db.routes[id] == before.routes[id].(enabled := false))
    && (forall id :: id in before.health && !IsRoute(routes, id) ==> id in db.health && db.health[id] == before.health[id])
    && (forall m: (Id, Id) :: !IsRoute(routes, m.0) ==> (m in db.members <==> m in before.members))
    && (forall k: (Id, Id) :: !IsRoute(routes, k.0) ==> (k in db.replies <==> k in before.replies))
    && (forall k: (Id, Id) :: !IsRoute(routes, k.0) && k in before.replies ==> db.replies[k] == before.replies[k])
    && (forall id :: id in before.identities && !IsIdentity(routes, id) ==>
          id in db.identities && db.identities[id] == before.identities[id])
    && (forall key :: key in before.revisions && key != sha ==>
          key in db.revisions && db.revisions[key].r2Key == before.revisions[key].r2Key
          && db.revisions[key].activatedAt == before.revisions[key].activatedAt)
  }

  ghost predicate Outcome(before: Db, db: Db, routes: seq<Projected>, source: Source, projectionSha: string, now: Time) {
    && OneActive(db, source)
    && ExactlyEnabled(db, routes, source.sha)
    && ExactlyOperators(db, routes)
    && ExactlyBindings(db, routes, source.sha)
    && KindsFollowUse(db, routes)
    && ProofsKept(before, db, routes, source.sha, now)
    && OthersUntouched(before, db, routes, source.sha)
    && Placed(before, db, routes)
    && Published(before, db, routes, source, projectionSha, now)
  }

  /** The tables after the opening, after the routes, after the bindings, and at the end. */
  ghost predicate Stages(before: Db, revised: Db, settled: Db, bound: Db, db: Db, routes: seq<Projected>, source: Source,
                         projectionSha: string, now: Time) {
    && revised == before.(revisions := revised.revisions, routes := Disabled(before.routes))
    && source.sha in revised.revisions && revised.revisions[source.sha].r2Key == source.r2Key
    && revised.revisions == before.revisions[source.sha := revised.revisions[source.sha]]
    && Opened(before, routes, source, revised.revisions[source.sha])
    && Settled(revised, routes, PersonalIdentities(routes), source.sha, now, settled)
    && bound == settled.(replies := bound.replies)
    && RepliesBound(settled, routes, source.sha, bound)
    && db == bound.(revisions := Closed(bound.revisions, source.sha, now),
                    runtime := Some(Runtime(source.sha, source.r2Key, now)),
                    projection := bound.projection +
                      map key | key in Entries(source, projectionSha) :: (Entries(source, projectionSha)[key], now))
  }

  lemma Staged(before: Db, routes: seq<Projected>, source: Source, projectionSha: string, now: Time)
    returns (revised: Db, settled: Db, bound: Db)
    requires WellFormed(routes)
    requires Run(before, Body(routes, source) + Closing(source, projectionSha), now).Ok?
    ensures Stages(before, revised, settled, bound,
                   Run(before, Body(routes, source) + Closing(source, projectionSha), now).value,
                   routes, source, projectionSha, now)
  {
    hide Run, WellFormed, Blocks, Replies, Opening, Closing, PersonalIdentities, Closed, Entries, RepliesBound, Disabled,
      RoutesSettled, HealthSettled, MembersSettled, RepliesCleared, IdentitiesSettled, OperatorsSettled;
    var a, b, c := Opening(routes, source), Blocks(routes, PersonalIdentities(routes), source.sha), Replies(routes, source.sha);
    RunAppend(before, a + b + c, Closing(source, projectionSha), now);
    RunAppend(before, a + b, c, now);
    RunAppend(before, a, b, now);
    OpeningEffect(before, routes, source, now);
    revised := Run(before, a, now).value;
    BlocksEffect(revised, routes, PersonalIdentities(routes), source.sha, now);
    settled := Run(revised, b, now).value;
    RepliesEffect(settled, routes, source.sha, now);
    bound := Run(settled, c, now).value;
    ClosingEffect(bound, source, projectionSha, now);
  }

  lemma StagedRevisions(before: Db, o: Db, s: Db, b: Db, db: Db, routes: seq<Projected>, source: Source, p: string, now: Time)
    requires Stages(before, o, s, b, db, routes, source, p, now)
    ensures OneActive(db, source)
    ensures forall key :: key in before.revisions && key != source.sha ==>
              key in db.revisions && db.revisions[key].r2Key == before.revisions[key].r2Key
              && db.revisions[key].activatedAt == before.revisions[key].activatedAt
  {
    hide RoutesSettled, HealthSettled, MembersSettled, RepliesCleared, IdentitiesSettled, OperatorsSettled, RepliesBound,
      Entries, PersonalIdentities;
  }

  lemma StagedRoutes(before: Db, o: Db, s: Db, b: Db, db: Db, routes: seq<Projected>, source: Source, p: string, now: Time)
    requires Stages(before, o, s, b, db, routes, source, p, now)
    ensures ExactlyEnabled(db, routes, source.sha)
    ensures forall id :: id in before.routes ==> id in db.routes
    ensures forall id :: id in before.routes && !IsRoute(routes, id) ==>
              db.routes[id] == before.routes[id].(enabled := false)
  {
    hide HealthSettled, MembersSettled, RepliesCleared, IdentitiesSettled, OperatorsSettled, RepliesBound,
      Entries, PersonalIdentities, IdOf, IdentityId, DomainId, Closed;
  }

  lemma StagedPlaces(before: Db, o: Db, s: Db, b: Db, db: Db, routes: seq<Projected>, source: Source, p: string, now: Time)
    requires Stages(before, o, s, b, db, routes, source, p, now)
    ensures Placed(before, db, routes)
  {
    hide HealthSettled, MembersSettled, RepliesCleared, IdentitiesSettled, OperatorsSettled, RepliesBound,
      Entries, PersonalIdentities, IdentityId, DomainId, Closed, IsRoute, Opened;
    forall i | 0 <= i < |routes| ensures db.routes[IdOf(routes[i])] == RouteAfter(o, routes[i], source.sha) {
    }
  }

  lemma StagedPublished(before: Db, o: Db, s: Db, b: Db, db: Db, routes: seq<Projected>, source: Source, p: string, now: Time)
    requires Stages(before, o, s, b, db, routes, source, p, now)
    ensures Published(before, db, routes, source, p, now)
  {
    hide RoutesSettled, HealthSettled, MembersSettled, RepliesCleared, IdentitiesSettled, OperatorsSettled, RepliesBound,
      PersonalIdentities, Entries, Closed;
    EntriesAre(before.projection, source, p, now);
    ClosedRows(before, b.revisions, source.sha, now);
  }

  lemma EntriesAre(before: map<string, (string, Time)>, source: Source, p: string, now: Time)
    ensures before + (map key | key in Entries(source, p) :: (Entries(source, p)[key], now)) ==
            before["active_policy_sha256" := (source.sha, now)]
                  ["active_desired_state_sha256" := (source.desiredState, now)]
                  ["active_projection_sha256" := (p, now)]
  {
  }

  lemma ClosedRows(before: Db, revisions: map<string, Revision>, sha: string, now: Time)
    requires sha in revisions && revisions == before.revisions[sha := revisions[sha]]
    requires revisions[sha].activatedAt == if sha in before.revisions then before.revisions[sha].activatedAt else None
    ensures var closed := Closed(revisions, sha, now);
      && closed.Keys == before.revisions.Keys + {sha}
      && closed[sha].r2Key == revisions[sha].r2Key && closed[sha].domainCount == revisions[sha].domainCount
      && closed[sha].routeCount == revisions[sha].routeCount
      && closed[sha].activatedAt == Some(if sha in before.revisions && before.revisions[sha].activatedAt.Some?
                                         then before.revisions[sha].activatedAt.value else now)
      && closed[sha].supersededAt == None
      && forall key :: key in before.revisions && key != sha ==>
           closed[key] == before.revisions[key].(
             supersededAt := if before.revisions[key].activatedAt.Some? && before.revisions[key].supersededAt.None?
                             then Some(now) else before.revisions[key].supersededAt)
  {
  }

  lemma StagedOperators(before: Db, o: Db, s: Db, b: Db, db: Db, routes: seq<Projected>, source: Source, p: string, now: Time)
    requires Stages(before, o, s, b, db, routes, source, p, now)
    ensures ExactlyOperators(db, routes)
    ensures forall m: (Id, Id) :: !IsRoute(routes, m.0) ==> (m in db.members <==> m in before.members)
  {
    hide RoutesSettled, HealthSettled, RepliesCleared, IdentitiesSettled, RepliesBound,
      Entries, PersonalIdentities, IdOf, OperatorId, OperatorIds, IsRoute, Registers, Closed;
  }

  /** What a binding says where a route names its operators' own identities, and where it does not. */
  lemma BindingMeans(db: Db, r: Projected, o: string, sha: string)
    requires (IdOf(r), OperatorId(o)) in db.replies && db.replies[(IdOf(r), OperatorId(o))] == BindingOf(r, o, sha)
    ensures BoundTo(db, r, o, sha)
  {
    hide RouteId, OperatorId, IdentityId;
  }

  lemma StagedBindings(before: Db, o: Db, s: Db, b: Db, db: Db, routes: seq<Projected>, source: Source, p: string, now: Time)
    requires Stages(before, o, s, b, db, routes, source, p, now)
    ensures ExactlyBindings(db, routes, source.sha)
    ensures forall k: (Id, Id) :: !IsRoute(routes, k.0) ==> (k in db.replies <==> k in before.replies)
    ensures forall k: (Id, Id) :: !IsRoute(routes, k.0) && k in before.replies ==> db.replies[k] == before.replies[k]
  {
    hide RoutesSettled, HealthSettled, MembersSettled, IdentitiesSettled, OperatorsSettled,
      Entries, PersonalIdentities, IdOf, OperatorId, OperatorIds, BindingOf, IsRoute, Closed, Opened, BoundTo;
    forall i, id | 0 <= i < |routes| ensures (IdOf(routes[i]), id) !in s.replies {
      RouteListed(routes, i);
    }
    forall i, o | 0 <= i < |routes| && o in routes[i].operators ensures BoundTo(db, routes[i], o, source.sha) {
      BindingMeans(db, routes[i], o, source.sha);
    }
  }

  lemma StagedKinds(before: Db, o: Db, s: Db, b: Db, db: Db, routes: seq<Projected>, source: Source, p: string, now: Time)
    requires Stages(before, o, s, b, db, routes, source, p, now)
    ensures KindsFollowUse(db, routes)
    ensures forall id :: id in before.identities && !IsIdentity(routes, id) ==>
              id in db.identities && db.identities[id] == before.identities[id]
  {
    hide RoutesSettled, HealthSettled, MembersSettled, RepliesCleared, OperatorsSettled, RepliesBound,
      Entries, IdentityId, Closed, IsIdentity;
    forall i | 0 <= i < |routes| ensures IdentitySet(db, routes[i].replyIdentity, PersonalIdentities(routes)) {
      assert IdentitySet(s, routes[i].replyIdentity, PersonalIdentities(routes));
    }
  }

  lemma StagedHealth(before: Db, o: Db, s: Db, b: Db, db: Db, routes: seq<Projected>, source: Source, p: string, now: Time)
    requires Stages(before, o, s, b, db, routes, source, p, now)
    ensures ProofsKept(before, db, routes, source.sha, now)
    ensures forall id :: id in before.health && !IsRoute(routes, id) ==>
              id in db.health && db.health[id] == before.health[id]
  {
    hide RoutesSettled, MembersSettled, RepliesCleared, IdentitiesSettled, OperatorsSettled, RepliesBound,
      Entries, PersonalIdentities, IdOf, IsRoute, Closed;
    forall i | 0 <= i < |routes|
      ensures IdOf(routes[i]) in db.health
      ensures ProofKept(HealthOf(before, IdOf(routes[i])), db.health[IdOf(routes[i])], routes[i], source.sha, now)
    {
      assert db.health[IdOf(routes[i])] == HealthAfter(o, routes[i], source.sha, now);
      assert HealthOf(o, IdOf(routes[i])) == HealthOf(before, IdOf(routes[i]));
      assert DeclarationOf(routes[i], source.sha).policy == Some(source.sha);
    }
  }

  /** A projection that runs to its end leaves the tables as it says, whatever they held. */
  lemma ProjectionOutcome(before: Db, routes: seq<Projected>, source: Source, digest: seq<Stmt> -> string, now: Time)
    requires WellFormed(routes) && Run(before, Program(routes, source, digest), now).Ok?
    ensures Outcome(before, Run(before, Program(routes, source, digest), now).value, routes, source,
                    digest(Body(routes, source)), now)
  {
    hide Run, WellFormed, Body, Closing, Settled, RepliesBound, OneActive, ExactlyEnabled, ExactlyOperators, ExactlyBindings,
      KindsFollowUse, ProofsKept, IsRoute, IsIdentity, Entries;
    var p := digest(Body(routes, source));
    var db := Run(before, Program(routes, source, digest), now).value;
    var o, s, b := Staged(before, routes, source, p, now);
    StagedRevisions(before, o, s, b, db, routes, source, p, now);
    StagedPlaces(before, o, s, b, db, routes, source, p, now);
    StagedPublished(before, o, s, b, db, routes, source, p, now);
    StagedRoutes(before, o, s, b, db, routes, source, p, now);
    StagedOperators(before, o, s, b, db, routes, source, p, now);
    StagedBindings(before, o, s, b, db, routes, source, p, now);
    StagedKinds(before, o, s, b, db, routes, source, p, now);
    StagedHealth(before, o, s, b, db, routes, source, p, now);
  }
}
