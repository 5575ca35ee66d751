/** The guard on reply bindings, and what it comes to on the tables that a projection has filled. */
module PolicyBindings {
  import opened Results
  import opened PolicyTables
  import opened PolicyProjection
  import opened PolicyOutcome
  import opened PolicyProgress
  import StableIds
  import Texts

  // ----- inserting the bindings -----

  predicate ReadyOne(db: Db, r: Projected, o: string, sha: string) {
    && (IdOf(r), OperatorId(o)) in db.members
    && (IdOf(r), OperatorId(o)) !in db.replies
    && Guarded(db, IdOf(r), OperatorId(o), BindingOf(r, o, sha))
  }

  /** The guard looks at no binding. */
  lemma SameGuard(db: Db, next: Db, id: Id, operatorId: Id, binding: Binding)
    requires SameRows(db, next) && next.members == db.members
    ensures Guarded(next, id, operatorId, binding) <==> Guarded(db, id, operatorId, binding)
  {
    hide BeforeAt;
    var domainId := if id in db.routes then db.routes[id].domainId else "";
    assert forall p :: PersonalUse(next, p, domainId, operatorId, binding) <==>
                       PersonalUse(db, p, domainId, operatorId, binding);
  }

  lemma BindOne(db: Db, r: Projected, o: string, sha: string, now: Time)
    requires Aligned(db) && sha in db.revisions && ReadyOne(db, r, o, sha)
    ensures var s := InsertReply(IdOf(r), OperatorId(o), BindingOf(r, o, sha));
      var next := Exec(db, s, now);
      && Resolved(db, s) && next.Ok? && Aligned(next.value) && SameRows(db, next.value)
      && next.value.members == db.members
      && next.value.replies == db.replies[(IdOf(r), OperatorId(o)) := BindingOf(r, o, sha)]
  {
    hide Aligned, IdOf, OperatorId, IdentityId;
    PlainlySafe(db, InsertReply(IdOf(r), OperatorId(o), BindingOf(r, o, sha)), now);
  }

  lemma {:induction false} ReplyStmtsSafe(db: Db, r: Projected, operators: seq<string>, sha: string, now: Time)
    requires Aligned(db) && sha in db.revisions
    requires forall k :: 0 <= k < |operators| ==> Plain(operators[k]) && ReadyOne(db, r, operators[k], sha)
    requires forall j, k :: 0 <= j < k < |operators| ==> operators[j] != operators[k]
    ensures Safe(db, ReplyStmts(r, operators, sha), now)
    ensures var next := Run(db, ReplyStmts(r, operators, sha), now);
      next.Ok? && Aligned(next.value) && SameRows(db, next.value) && next.value.members == db.members
    decreases |operators|
  {
    hide Exec, Run, Aligned, OperatorId, IdOf, BindingOf, Resolved, Plain;
    if operators == [] {
      RunNothing(db, now);
    } else {
      hide Safe;
      var o, rest := operators[0], ReplyStmts(r, operators[1..], sha);
      var s := InsertReply(IdOf(r), OperatorId(o), BindingOf(r, o, sha));
      BindOne(db, r, o, sha, now);
      var one := Exec(db, s, now).value;
      forall k | 0 <= k < |operators[1..]| ensures ReadyOne(one, r, operators[1..][k], sha) {
        assert operators[1..][k] == operators[k + 1];
        IdsDiffer(o, operators[k + 1]);
        SameGuard(db, one, IdOf(r), OperatorId(operators[k + 1]), BindingOf(r, operators[k + 1], sha));
      }
      ReplyStmtsSafe(one, r, operators[1..], sha, now);
      SafeOne(db, s, rest, now);
      RunOne(db, s, rest, now);
    }
  }

  ghost predicate Ready(db: Db, routes: seq<Projected>, sha: string) {
    forall i, k :: 0 <= i < |routes| && 0 <= k < |routes[i].operators| ==>
      ReadyOne(db, routes[i], routes[i].operators[k], sha)
  }

  lemma ReadyTail(db: Db, next: Db, routes: seq<Projected>, sha: string)
    requires WellFormed(routes) && routes != [] && Ready(db, routes, sha)
    requires SameRows(db, next) && next.members == db.members
    requires next.replies == Bound(db.replies, routes[0], routes[0].operators, sha)
    ensures Ready(next, routes[1..], sha)
  {
    hide WellFormed, IdOf, OperatorId, IdentityId, Bound, BindingOf, Plain, OperatorIds;
    HeadIsApart(routes);
    TailWellFormed(routes);
    BoundIs(db.replies, routes[0], routes[0].operators, sha);
    forall i, k | 0 <= i < |routes[1..]| && 0 <= k < |routes[1..][i].operators|
      ensures ReadyOne(next, routes[1..][i], routes[1..][i].operators[k], sha)
    {
      assert routes[1..][i] == routes[i + 1];
      RouteListed(routes[1..], i);
      var r, o := routes[i + 1], routes[i + 1].operators[k];
      assert ReadyOne(db, r, o, sha);
      SameGuard(db, next, IdOf(r), OperatorId(o), BindingOf(r, o, sha));
    }
  }

  lemma {:induction false} RepliesSafe(db: Db, routes: seq<Projected>, sha: string, now: Time)
    requires Aligned(db) && sha in db.revisions && WellFormed(routes) && Ready(db, routes, sha)
    ensures Safe(db, Replies(routes, sha), now)
    ensures var next := Run(db, Replies(routes, sha), now);
      next.Ok? && Aligned(next.value) && sha in next.value.revisions
    decreases |routes|
  {
    hide Exec, Run, Aligned, WellFormed, ReplyStmts, Bound, ReadyOne, Plain;
    if routes == [] {
      RunNothing(db, now);
    } else {
      hide Safe;
      var r, first, rest := routes[0], ReplyStmts(routes[0], routes[0].operators, sha), Replies(routes[1..], sha);
      TailWellFormed(routes);
      ReplyStmtsSafe(db, r, r.operators, sha, now);
      RepliesOfEffect(db, r, r.operators, sha, now);
      var mid := Run(db, first, now).value;
      ReadyTail(db, mid, routes, sha);
      RepliesSafe(mid, routes[1..], sha, now);
      RunAppend(db, first, rest, now);
      SafeAppend(db, first, rest, now);
    }
  }

  /** Where the bindings go in, the guard let each of them pass. */
  lemma {:induction false} ReplyStmtsGuarded(db: Db, r: Projected, operators: seq<string>, sha: string, now: Time)
    requires Run(db, ReplyStmts(r, operators, sha), now).Ok?
    ensures forall k :: 0 <= k < |operators| ==>
              Guarded(db, IdOf(r), OperatorId(operators[k]), BindingOf(r, operators[k], sha))
    decreases |operators|
  {
    hide Run, OperatorId, IdOf, BindingOf, Guarded;
    if operators != [] {
      var o, rest := operators[0], ReplyStmts(r, operators[1..], sha);
      var s := InsertReply(IdOf(r), OperatorId(o), BindingOf(r, o, sha));
      RunOne(db, s, rest, now);
      var one := Exec(db, s, now).value;
      ReplyStmtsGuarded(one, r, operators[1..], sha, now);
      forall k | 0 < k < |operators|
        ensures Guarded(db, IdOf(r), OperatorId(operators[k]), BindingOf(r, operators[k], sha))
      {
        assert operators[1..][k - 1] == operators[k];
        SameGuard(db, one, IdOf(r), OperatorId(operators[k]), BindingOf(r, operators[k], sha));
      }
    }
  }

  lemma {:induction false} RepliesGuarded(db: Db, routes: seq<Projected>, sha: string, now: Time)
    requires Run(db, Replies(routes, sha), now).Ok?
    ensures forall i, k :: 0 <= i < |routes| && 0 <= k < |routes[i].operators| ==>
              Guarded(db, IdOf(routes[i]), OperatorId(routes[i].operators[k]),
                      BindingOf(routes[i], routes[i].operators[k], sha))
    decreases |routes|
  {
    hide Run, OperatorId, IdOf, BindingOf, Guarded, ReplyStmts;
    if routes != [] {
      var r, first, rest := routes[0], ReplyStmts(routes[0], routes[0].operators, sha), Replies(routes[1..], sha);
      RunAppend(db, first, rest, now);
      ReplyStmtsGuarded(db, r, r.operators, sha, now);
      RepliesOfEffect(db, r, r.operators, sha, now);
      var mid := Run(db, first, now).value;
      RepliesGuarded(mid, routes[1..], sha, now);
      forall i, k | 0 < i < |routes| && 0 <= k < |routes[i].operators|
        ensures Guarded(db, IdOf(routes[i]), OperatorId(routes[i].operators[k]),
                      BindingOf(routes[i], routes[i].operators[k], sha))
      {
        assert routes[1..][i - 1] == routes[i];
        SameGuard(db, mid, IdOf(routes[i]), OperatorId(routes[i].operators[k]),
                  BindingOf(routes[i], routes[i].operators[k], sha));
      }
    }
  }

  // ----- what the guard comes to -----

  /** A personal route of the route's own domain replies from the identity, under the operator's own name. */
  ghost predicate PersonalReply(routes: seq<Projected>, r: Projected, o: string) {
    exists j :: 0 <= j < |routes| && OwnName(routes[j], r, o)
  }

  predicate OwnName(personal: Projected, r: Projected, o: string) {
    && personal.storage == Personal
    && personal.domain == r.domain
    && IdentityId(personal.replyIdentity) == IdentityId(ReplyAddress(r, o))
    && o in personal.operators
    && BeforeAt(personal.replyIdentity) == BeforeAt(o)
  }

  /** The identity that an operator of a route is bound to is at home in the route's domain, and is
      the operator's own where the route names one for each operator. */
  ghost predicate Binds(home: Option<Id>, routes: seq<Projected>, r: Projected, o: string) {
    && home == Some(DomainId(r.domain))
    && (r.operatorReplies.Some? ==> PersonalReply(routes, r, o))
  }

  /** What the guard demands of a projection, given the tables it started from and all the routes
      projected since, its own included. */
  ghost predicate Bindable(db: Db, used: seq<Projected>, routes: seq<Projected>) {
    forall i, k :: 0 <= i < |routes| && 0 <= k < |routes[i].operators| ==>
      Binds(HomeOf(db, used, IdentityId(ReplyAddress(routes[i], routes[i].operators[k]))),
            routes, routes[i], routes[i].operators[k])
  }

  lemma DomainIdsDiffer(d: string, e: string)
    requires Plain(d) && Plain(e) && DomainId(d) == DomainId(e)
    ensures d == e
  {
    hide StableIds.StableId, Texts.Normal;
    StableIds.StableIdInjective("domain", [d], "domain", [e]);
    assert Texts.Normal([d][0]) == Texts.Normal([e][0]);
  }

  lemma RouteIdGivesDomain(d: string, l: string, e: string, m: string)
    requires RouteId(d, l) == RouteId(e, m)
    ensures DomainId(d) == DomainId(e)
  {
    hide StableIds.StableId, Texts.Normal;
    var xs, ys := [d, l], [e, m];
    StableIds.StableIdInjective("route", xs, "route", ys);
    assert Texts.Normal(xs[0]) == Texts.Normal(ys[0]);
    assert StableIds.SameParts([d], [e]);
    StableIds.StableIdInjective("domain", [d], "domain", [e]);
  }

  /** On aligned tables a route is stored under its own domain. */
  lemma StoredDomain(db: Db, r: Projected)
    requires DomainIds(db) && RouteIds(db) && IdOf(r) in db.routes
    ensures db.routes[IdOf(r)].domainId == DomainId(r.domain)
  {
    hide DomainId, RouteId;
    var row := db.routes[IdOf(r)];
    RouteIdGivesDomain(db.domains[row.domainId], row.localPart, r.domain, r.localPart);
  }

  lemma OperatorListed(r: Projected, o: string)
    requires PlainRoute(r) && Plain(o)
    ensures OperatorId(o) in OperatorIds(r.operators) <==> o in r.operators
  {
    hide OperatorId, Plain;
    if o !in r.operators {
      Unlisted(o, r.operators);
    }
  }

  /** The tables once all routes of a projection are in, before its bindings. */
  ghost predicate Stocked(db: Db, routes: seq<Projected>, sha: string, now: Time, next: Db) {
    && Settled(db, routes, PersonalIdentities(routes), sha, now, next)
    && (forall id :: id in db.routes ==> !db.routes[id].enabled)
    && DomainIds(next) && RouteIds(next)
  }

  lemma PersonalUseIs(db: Db, routes: seq<Projected>, sha: string, now: Time, next: Db, r: Projected, o: string, j: nat)
    requires WellFormed(routes) && Stocked(db, routes, sha, now, next) && j < |routes| && PlainRoute(r) && Plain(o)
    ensures PersonalUse(next, IdOf(routes[j]), DomainId(r.domain), OperatorId(o), BindingOf(r, o, sha)) <==>
              && routes[j].storage == Personal && routes[j].domain == r.domain
              && IdentityId(routes[j].replyIdentity) == IdentityId(ReplyAddress(r, o)) && o in routes[j].operators
  {
    hide WellFormed, HealthSettled, RepliesCleared, IdentitiesSettled, OperatorsSettled, PersonalIdentities,
      IdOf, DomainId, OperatorId, IdentityId, ReplyAddress, Plain, OperatorIds, IsRoute, DomainIds, RouteIds;
    PlainAt(routes, j);
    OperatorListed(routes[j], o);
    StoredDomain(next, routes[j]);
    if DomainId(routes[j].domain) == DomainId(r.domain) {
      DomainIdsDiffer(routes[j].domain, r.domain);
    }
  }

  lemma PlainAt(routes: seq<Projected>, i: nat)
    requires WellFormed(routes) && i < |routes|
    ensures PlainRoute(routes[i])
  {
  }

  /** Only projected routes are enabled. */
  lemma UsesAreProjected(db: Db, routes: seq<Projected>, sha: string, now: Time, next: Db, id: Id,
                         domainId: Id, operatorId: Id, binding: Binding)
    requires Stocked(db, routes, sha, now, next) && PersonalUse(next, id, domainId, operatorId, binding)
    ensures exists j :: 0 <= j < |routes| && IdOf(routes[j]) == id
  {
    hide HealthSettled, MembersSettled, RepliesCleared, IdentitiesSettled, OperatorsSettled, PersonalIdentities,
      IdOf, DomainId, OperatorId, IdentityId, RouteAfter;
    assert IsRoute(routes, id);
  }

  /** A personal route marks its identity personal and stores it under its address. */
  lemma PersonalRow(db: Db, routes: seq<Projected>, sha: string, now: Time, next: Db, j: nat)
    requires Stocked(db, routes, sha, now, next) && j < |routes| && routes[j].storage == Personal
    ensures var id := IdentityId(routes[j].replyIdentity);
      id in next.identities && next.identities[id].kind == Personal && next.identities[id].address == routes[j].replyIdentity
  {
    hide HealthSettled, MembersSettled, RepliesCleared, RoutesSettled, OperatorsSettled, IdentityId;
    assert routes[j].replyIdentity in PersonalIdentities(routes);
    assert IdentitySet(next, routes[j].replyIdentity, PersonalIdentities(routes));
  }

  lemma OperatorRow(db: Db, routes: seq<Projected>, sha: string, now: Time, next: Db, i: nat, k: nat)
    requires Stocked(db, routes, sha, now, next) && i < |routes| && k < |routes[i].operators|
    ensures Registers(next.operators, routes[i].operators[k])
    ensures (IdOf(routes[i]), OperatorId(routes[i].operators[k])) in next.members
    ensures (IdOf(routes[i]), OperatorId(routes[i].operators[k])) !in next.replies
    ensures IdOf(routes[i]) in next.routes && next.routes[IdOf(routes[i])].enabled
            && next.routes[IdOf(routes[i])].policy == Some(sha)
            && next.routes[IdOf(routes[i])].identityId == IdentityId(routes[i].replyIdentity)
  {
    hide HealthSettled, IdentitiesSettled, PersonalIdentities, IdOf, OperatorId, Registers, OperatorIds, IsRoute, DomainIds,
      RouteIds, IdentityId, DomainId;
    RouteListed(routes, i);
    OperatorIdsListed(routes[i].operators);
  }

  lemma HomeStored(db: Db, routes: seq<Projected>, sha: string, now: Time, next: Db, id: Id, domainId: Id)
    requires Stocked(db, routes, sha, now, next)
    ensures HomeOf(db, routes, id) == Some(domainId) <==> id in next.identities && next.identities[id].domainId == domainId
  {
    hide HealthSettled, MembersSettled, RepliesCleared, RoutesSettled, OperatorsSettled, PersonalIdentities, DomainIds, RouteIds,
      IdentitySet, IdentityId;
    if id !in next.identities {
      FirstUserIsUser(routes, id);
    }
  }

  lemma {:induction false} FirstUserIsUser(routes: seq<Projected>, id: Id)
    ensures FirstUser(routes, id).Some? <==> IsIdentity(routes, id)
    decreases |routes|
  {
    hide IdentityId, DomainId;
    if routes != [] {
      IsIdentitySplit(routes, id);
      FirstUserIsUser(routes[1..], id);
    }
  }

  /** The guard lets a binding pass exactly when it binds an operator as it should. */
  lemma GuardedExactly(db: Db, routes: seq<Projected>, sha: string, now: Time, next: Db, i: nat, k: nat)
    requires WellFormed(routes) && Stocked(db, routes, sha, now, next) && i < |routes| && k < |routes[i].operators|
    ensures var r, o := routes[i], routes[i].operators[k];
      Guarded(next, IdOf(r), OperatorId(o), BindingOf(r, o, sha)) <==>
      Binds(HomeOf(db, routes, IdentityId(ReplyAddress(r, o))), routes, r, o)
  {
    hide WellFormed, Stocked, HomeOf, IdOf, DomainId, OperatorId, IdentityId, Plain, PersonalUse, BeforeAt, DomainIds, RouteIds;
    var r, o := routes[i], routes[i].operators[k];
    var binding := BindingOf(r, o, sha);
    PlainAt(routes, i);
    OperatorRow(db, routes, sha, now, next, i, k);
    RouteDomain(db, routes, sha, now, next, i);
    HomeStored(db, routes, sha, now, next, binding.identityId, DomainId(r.domain));
    if r.operatorReplies.Some? {
      OwnNameExactly(db, routes, sha, now, next, r, o);
    }
  }

  lemma RouteDomain(db: Db, routes: seq<Projected>, sha: string, now: Time, next: Db, i: nat)
    requires Stocked(db, routes, sha, now, next) && i < |routes|
    ensures IdOf(routes[i]) in next.routes && next.routes[IdOf(routes[i])].domainId == DomainId(routes[i].domain)
  {
    hide HealthSettled, MembersSettled, RepliesCleared, IdentitiesSettled, OperatorsSettled, PersonalIdentities, IdOf, DomainId,
      DomainIds, RouteIds;
    StoredDomain(next, routes[i]);
  }

  /** The clauses of the guard on an operator's own identity. */
  ghost predicate OwnIdentity(next: Db, r: Projected, o: string, sha: string) {
    var id := IdentityId(ReplyAddress(r, o));
    && id in next.identities && next.identities[id].kind == Personal
    && BeforeAt(next.identities[id].address) == BeforeAt(o)
    && exists p :: p in next.routes && PersonalUse(next, p, DomainId(r.domain), OperatorId(o), BindingOf(r, o, sha))
  }

  lemma OwnNameExactly(db: Db, routes: seq<Projected>, sha: string, now: Time, next: Db, r: Projected, o: string)
    requires WellFormed(routes) && Stocked(db, routes, sha, now, next) && PlainRoute(r) && Plain(o)
    ensures OwnIdentity(next, r, o, sha) <==> PersonalReply(routes, r, o)
  {
    hide WellFormed, Stocked, IdOf, DomainId, OperatorId, IdentityId, Plain, PersonalUse, BeforeAt, PlainRoute, ReplyAddress;
    if OwnIdentity(next, r, o, sha) {
      var p :| p in next.routes && PersonalUse(next, p, DomainId(r.domain), OperatorId(o), BindingOf(r, o, sha));
      UsesAreProjected(db, routes, sha, now, next, p, DomainId(r.domain), OperatorId(o), BindingOf(r, o, sha));
      var j :| 0 <= j < |routes| && IdOf(routes[j]) == p;
      PersonalUseIs(db, routes, sha, now, next, r, o, j);
      PersonalRow(db, routes, sha, now, next, j);
      assert OwnName(routes[j], r, o);
    }
    if PersonalReply(routes, r, o) {
      var j :| 0 <= j < |routes| && OwnName(routes[j], r, o);
      PersonalUseIs(db, routes, sha, now, next, r, o, j);
      PersonalRow(db, routes, sha, now, next, j);
      RouteDomain(db, routes, sha, now, next, j);
    }
  }

  // ----- the addresses that operators reply from -----

  /** The address an operator replies from: its own where the route names one for it, otherwise the route's. */
  predicate RepliesFrom(db: Db, r: Projected, o: string) {
    var address := match r.operatorReplies
                   case Some(own) => if o in own then own[o] else r.replyIdentity
                   case None => r.replyIdentity;
    var id := IdentityId(address);
    id in db.identities && Texts.Normal(db.identities[id].address) == Texts.Normal(address)
  }

  lemma IdentityTells(x: string, y: string)
    requires IdentityId(x) == IdentityId(y)
    ensures Texts.Normal(x) == Texts.Normal(y)
  {
    hide StableIds.StableId, Texts.Normal;
    StableIds.StableIdInjective("identity", [x], "identity", [y]);
    assert Texts.Normal([x][0]) == Texts.Normal([y][0]);
  }

  /** A route's own reply identity is stored under its address once the routes are in. */
  lemma RouteAddress(db: Db, routes: seq<Projected>, sha: string, now: Time, next: Db, j: nat)
    requires Settled(db, routes, PersonalIdentities(routes), sha, now, next) && j < |routes|
    ensures var id := IdentityId(routes[j].replyIdentity);
      id in next.identities && next.identities[id].address == routes[j].replyIdentity
    ensures IdOf(routes[j]) in next.routes && next.routes[IdOf(routes[j])].identityId == IdentityId(routes[j].replyIdentity)
  {
    hide HealthSettled, MembersSettled, RepliesCleared, OperatorsSettled, IdentityId, IdOf, DomainId, IsRoute;
    assert IdentitySet(next, routes[j].replyIdentity, PersonalIdentities(routes));
  }

  lemma UsedByProjected(db: Db, routes: seq<Projected>, sha: string, now: Time, next: Db, id: Id, domainId: Id,
                        operatorId: Id, binding: Binding)
    requires Settled(db, routes, PersonalIdentities(routes), sha, now, next)
    requires forall p :: p in db.routes ==> !db.routes[p].enabled
    requires PersonalUse(next, id, domainId, operatorId, binding)
    ensures exists j :: 0 <= j < |routes| && IdOf(routes[j]) == id
  {
    hide HealthSettled, MembersSettled, RepliesCleared, IdentitiesSettled, OperatorsSettled, IdOf, IdentityId, DomainId,
      PersonalIdentities, RouteAfter;
    assert IsRoute(routes, id);
  }

  lemma GuardedAddress(db: Db, routes: seq<Projected>, sha: string, now: Time, next: Db, r: Projected, o: string)
    requires Settled(db, routes, PersonalIdentities(routes), sha, now, next)
    requires forall p :: p in db.routes ==> !db.routes[p].enabled
    requires r in routes && Guarded(next, IdOf(r), OperatorId(o), BindingOf(r, o, sha))
    ensures RepliesFrom(next, r, o)
  {
    hide Settled, IdOf, IdentityId, OperatorId, PersonalIdentities, BeforeAt, Texts.Normal, PersonalUse;
    var i :| 0 <= i < |routes| && routes[i] == r;
    RouteAddress(db, routes, sha, now, next, i);
    if r.operatorReplies.Some? {
      var binding, domainId := BindingOf(r, o, sha), next.routes[IdOf(r)].domainId;
      var p :| p in next.routes && PersonalUse(next, p, domainId, OperatorId(o), binding);
      UsedByProjected(db, routes, sha, now, next, p, domainId, OperatorId(o), binding);
      var j :| 0 <= j < |routes| && IdOf(routes[j]) == p;
      RouteAddress(db, routes, sha, now, next, j);
      assert next.routes[p].identityId == binding.identityId by { UseNames(next, p, domainId, OperatorId(o), binding); }
      IdentityTells(routes[j].replyIdentity, ReplyAddress(r, o));
    }
  }

  lemma UseNames(db: Db, id: Id, domainId: Id, operatorId: Id, binding: Binding)
    requires PersonalUse(db, id, domainId, operatorId, binding)
    ensures id in db.routes && db.routes[id].identityId == binding.identityId
  {
  }

  /** After a projection every operator of every route replies from an identity stored under the address that the route
      names for it, or else under the route's own. */
  lemma BindingsAddressed(before: Db, routes: seq<Projected>, source: Source, digest: seq<Stmt> -> string, now: Time)
    requires WellFormed(routes) && Run(before, Program(routes, source, digest), now).Ok?
    ensures var db := Run(before, Program(routes, source, digest), now).value;
      forall i, k :: 0 <= i < |routes| && 0 <= k < |routes[i].operators| ==> RepliesFrom(db, routes[i], routes[i].operators[k])
  {
    hide Run, WellFormed, Blocks, Replies, Opening, Closing, PersonalIdentities, RoutesSettled, HealthSettled, MembersSettled,
      RepliesCleared, IdentitiesSettled, OperatorsSettled, Closed, Entries, RepliesBound, Opened, Guarded, RepliesFrom, IdOf,
      OperatorId, BindingOf;
    var a, b, c := Opening(routes, source), Blocks(routes, PersonalIdentities(routes), source.sha), Replies(routes, source.sha);
    var last := Closing(source, digest(Body(routes, source)));
    RunAppend(before, a + b + c, last, now);
    RunAppend(before, a + b, c, now);
    RunAppend(before, a, b, now);
    OpeningEffect(before, routes, source, now);
    var o := Run(before, a, now).value;
    BlocksEffect(o, routes, PersonalIdentities(routes), source.sha, now);
    var s := Run(o, b, now).value;
    RepliesEffect(s, routes, source.sha, now);
    RepliesGuarded(s, routes, source.sha, now);
    ClosingEffect(Run(s, c, now).value, source, digest(Body(routes, source)), now);
    var db := Run(before, Program(routes, source, digest), now).value;
    assert db.identities == s.identities;
    forall i, k | 0 <= i < |routes| && 0 <= k < |routes[i].operators| ensures RepliesFrom(db, routes[i], routes[i].operators[k]) {
      GuardedAddress(o, routes, source.sha, now, s, routes[i], routes[i].operators[k]);
      SameAddresses(s, db, routes[i], routes[i].operators[k]);
    }
  }

  lemma SameAddresses(s: Db, db: Db, r: Projected, o: string)
    requires db.identities == s.identities && RepliesFrom(s, r, o)
    ensures RepliesFrom(db, r, o)
  {
  }
}
