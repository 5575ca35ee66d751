/** Running a projection on tables that projections filled, up to its reply bindings. */
module PolicyProgress {
  import opened Results
  import opened PolicyTables
  import opened PolicyProjection
  import opened PolicyOutcome

  /** Where the text of a policy is stored. */
  function KeyOf(sha: string): string {
    "config/policy/" + sha + ".json"
  }

  predicate Keyed(source: Source) {
    |source.sha| == 64 && source.r2Key == KeyOf(source.sha)
  }

  lemma KeyOfDiffers(a: string, b: string)
    requires KeyOf(a) == KeyOf(b)
    ensures a == b
  {
    var n := |"config/policy/"|;
    assert KeyOf(a)[n..n + |a|] == a && KeyOf(b)[n..n + |b|] == b;
  }

  // ----- identifiers that follow from what they identify -----

  ghost predicate DomainIds(db: Db) {
    forall id :: id in db.domains ==> id == DomainId(db.domains[id])
  }

  ghost predicate IdentityIds(db: Db) {
    forall id :: id in db.identities ==> id == IdentityId(db.identities[id].address)
  }

  ghost predicate OperatorIdsFollow(db: Db) {
    forall id :: id in db.operators ==> id == OperatorId(db.operators[id])
  }

  ghost predicate RouteIds(db: Db) {
    forall id :: id in db.routes ==>
      && db.routes[id].domainId in db.domains
      && id == RouteId(db.domains[db.routes[id].domainId], db.routes[id].localPart)
  }

  ghost predicate RevisionKeys(db: Db) {
    forall sha :: sha in db.revisions ==> db.revisions[sha].r2Key == KeyOf(sha)
  }

  /** Tables in which every identifier is the one the projection would choose. */
  ghost predicate Aligned(db: Db) {
    Sound(db) && DomainIds(db) && IdentityIds(db) && OperatorIdsFollow(db) && RouteIds(db) && RevisionKeys(db)
  }

  // ----- references that exist -----

  /** Every row that a statement names exists before it. */
  predicate Resolved(db: Db, s: Stmt) {
    match s
    case UpsertIdentity(_, identity) => identity.domainId in db.domains
    case UpsertRoute(_, domainId, _, _, identityId, _, sha) =>
      domainId in db.domains && identityId in db.identities && sha in db.revisions
    case ClearMembers(id) => id in db.routes
    case InsertMember(id, operatorId) => id in db.routes && operatorId in db.operators
    case UpsertHealth(id, declared, _) =>
      id in db.routes && (declared.policy.Some? ==> declared.policy.value in db.revisions)
    case InsertReply(id, operatorId, binding) =>
      (id, operatorId) in db.members && binding.identityId in db.identities && binding.policy in db.revisions
    case SupersedeOthers(sha) => sha in db.revisions
    case ActivateRevision(sha) => sha in db.revisions
    case UpsertRuntime(sha, _) => sha in db.revisions
    case KeepIdentity(_, identity) => identity.domainId in db.domains
    case KeepRoute(_, domainId, _, _, identityId, _) => domainId in db.domains && identityId in db.identities
    case UpdateRoute(id, _, identityId, _) => id in db.routes && identityId in db.identities
    case _ => true
  }

  ghost predicate Safe(db: Db, p: seq<Stmt>, now: Time)
    decreases |p|
  {
    p == []
    || (Resolved(db, p[0]) && Exec(db, p[0], now).Ok? && Safe(Exec(db, p[0], now).value, p[1..], now))
  }

  /** A safe program never stops, and at every prefix the rows its next statement names exist. */
  lemma {:induction false} SafePrefix(db: Db, p: seq<Stmt>, k: nat, now: Time)
    requires Safe(db, p, now) && k <= |p|
    ensures Run(db, p[..k], now).Ok?
    ensures k < |p| ==> Resolved(Run(db, p[..k], now).value, p[k])
    decreases k
  {
    hide Exec, Resolved;
    if k == 0 {
      assert p[..k] == [];
    } else {
      assert p[..k] == [p[0]] + p[1..][..k - 1];
      RunOne(db, p[0], p[1..][..k - 1], now);
      SafePrefix(Exec(db, p[0], now).value, p[1..], k - 1, now);
    }
  }

  lemma {:induction false} SafeAppend(db: Db, p: seq<Stmt>, q: seq<Stmt>, now: Time)
    requires Safe(db, p, now)
    requires Run(db, p, now).Ok? ==> Safe(Run(db, p, now).value, q, now)
    ensures Safe(db, p + q, now)
    decreases |p|
  {
    hide Exec, Resolved;
    if p == [] {
      assert p + q == q;
    } else {
      assert (p + q)[1..] == p[1..] + q;
      SafeAppend(Exec(db, p[0], now).value, p[1..], q, now);
    }
  }

  lemma SafeOne(db: Db, s: Stmt, rest: seq<Stmt>, now: Time)
    requires Resolved(db, s) && Exec(db, s, now).Ok? && Safe(Exec(db, s, now).value, rest, now)
    ensures Safe(db, [s] + rest, now)
  {
    hide Exec, Resolved;
    assert ([s] + rest)[1..] == rest;
  }

  lemma SafeSingle(db: Db, s: Stmt, now: Time)
    requires Resolved(db, s) && Exec(db, s, now).Ok?
    ensures Safe(db, [s], now)
  {
    hide Exec, Resolved;
    assert [s][1..] == [];
  }

  // ----- statements on aligned tables -----

  /** A domain that is added under its own identifier leaves every route with the identifier it had. */
  lemma DomainPut(db: Db, domain: string)
    requires DomainIds(db) && RouteIds(db) && DomainId(domain) !in db.domains
    ensures var next := db.(domains := db.domains[DomainId(domain) := domain]); DomainIds(next) && RouteIds(next)
  {
    hide DomainId, RouteId;
  }

  lemma OnlyDomains(db: Db, next: Db)
    requires next == db.(domains := next.domains)
    ensures IdentityIds(db) ==> IdentityIds(next)
    ensures OperatorIdsFollow(db) ==> OperatorIdsFollow(next)
    ensures RevisionKeys(db) ==> RevisionKeys(next)
  {
    hide IdentityId, OperatorId;
  }

  lemma DomainKnown(db: Db, domain: string)
    requires DomainIds(db) && domain in db.domains.Values
    ensures DomainId(domain) in db.domains
  {
    hide DomainId;
    var id :| id in db.domains && db.domains[id] == domain;
  }

  lemma DomainSafe(db: Db, domain: string, now: Time)
    requires Aligned(db)
    ensures var r := Exec(db, InsertDomain(DomainId(domain), domain), now);
      r.Ok? && Aligned(r.value) && DomainId(domain) in r.value.domains
      && r.value == db.(domains := r.value.domains)
  {
    hide DomainId, Sound, DomainIds, IdentityIds, OperatorIdsFollow, RouteIds, RevisionKeys;
    var s := InsertDomain(DomainId(domain), domain);
    ExecSound(db, s, now);
    if DomainId(domain) !in db.domains {
      if domain in db.domains.Values {
        DomainKnown(db, domain);
      } else {
        DomainPut(db, domain);
      }
    }
    OnlyDomains(db, Exec(db, s, now).value);
  }

  lemma NoOtherAddress(db: Db, address: string)
    requires IdentityIds(db)
    ensures forall other :: other in db.identities && other != IdentityId(address) ==>
              db.identities[other].address != address
  {
    hide IdentityId;
  }

  lemma IdentitySafe(db: Db, domainId: Id, address: string, kind: Storage, now: Time)
    requires Aligned(db) && domainId in db.domains
    ensures var r := Exec(db, UpsertIdentity(IdentityId(address), Identity(domainId, address, kind)), now);
      r.Ok? && Aligned(r.value) && IdentityId(address) in r.value.identities
      && r.value == db.(identities := r.value.identities)
  {
    hide IdentityId, Sound, DomainIds, OperatorIdsFollow, RouteIds, RevisionKeys;
    var s := UpsertIdentity(IdentityId(address), Identity(domainId, address, kind));
    NoOtherAddress(db, address);
    var r := Exec(db, s, now);
    assert r.Ok?;
    ExecSound(db, s, now);
    OnlyIdentities(db, r.value);
  }

  lemma OnlyIdentities(db: Db, next: Db)
    requires next == db.(identities := next.identities)
    ensures DomainIds(db) ==> DomainIds(next)
    ensures OperatorIdsFollow(db) ==> OperatorIdsFollow(next)
    ensures RouteIds(db) ==> RouteIds(next)
    ensures RevisionKeys(db) ==> RevisionKeys(next)
  {
    hide DomainId, RouteId, OperatorId;
  }

  lemma NoOtherRoute(db: Db, domain: string, localPart: string)
    requires DomainIds(db) && RouteIds(db)
    requires RouteId(domain, localPart) !in db.routes && DomainId(domain) in db.domains
    ensures forall other :: other in db.routes ==>
              db.routes[other].domainId != DomainId(domain) || db.routes[other].localPart != localPart
  {
    hide DomainId, RouteId;
    RouteIdOfAlias(domain, db.domains[DomainId(domain)], localPart);
  }

  /** A route that is stored under its own identifier leaves the identifiers in step. */
  lemma RoutePutIds(db: Db, r: Projected, row: Route)
    requires DomainIds(db) && RouteIds(db) && DomainId(r.domain) in db.domains
    requires if IdOf(r) in db.routes
             then row.domainId == db.routes[IdOf(r)].domainId && row.localPart == db.routes[IdOf(r)].localPart
             else row.domainId == DomainId(r.domain) && row.localPart == r.localPart
    ensures RouteIds(db.(routes := db.routes[IdOf(r) := row]))
  {
    hide DomainId, RouteId;
    RouteIdOfAlias(r.domain, db.domains[DomainId(r.domain)], r.localPart);
  }

  lemma OnlyRoutes(db: Db, next: Db)
    requires next == db.(routes := next.routes)
    ensures DomainIds(db) ==> DomainIds(next)
    ensures IdentityIds(db) ==> IdentityIds(next)
    ensures OperatorIdsFollow(db) ==> OperatorIdsFollow(next)
    ensures RevisionKeys(db) ==> RevisionKeys(next)
  {
    hide DomainId, IdentityId, OperatorId;
  }

  lemma RouteSafe(db: Db, r: Projected, sha: string, now: Time)
    requires Aligned(db) && DomainId(r.domain) in db.domains && IdentityId(r.replyIdentity) in db.identities
    requires sha in db.revisions
    ensures var q := Exec(db, RouteHead(r, {}, sha)[2], now);
      q.Ok? && Aligned(q.value) && IdOf(r) in q.value.routes && q.value == db.(routes := q.value.routes)
  {
    hide DomainId, RouteId, IdentityId, Sound, DomainIds, IdentityIds, OperatorIdsFollow, RouteIds, RevisionKeys;
    var s, id := RouteHead(r, {}, sha)[2], IdOf(r);
    if id !in db.routes {
      NoOtherRoute(db, r.domain, r.localPart);
    }
    var row := if id in db.routes
               then db.routes[id].(kind := r.storage, identityId := IdentityId(r.replyIdentity), decision := r.decision,
                                   enabled := true, policy := Some(sha))
               else Route(DomainId(r.domain), r.localPart, r.storage, IdentityId(r.replyIdentity), r.decision, true, Some(sha));
    assert Exec(db, s, now) == Ok(db.(routes := db.routes[id := row]));
    ExecSound(db, s, now);
    RoutePutIds(db, r, row);
    OnlyRoutes(db, Exec(db, s, now).value);
  }

  lemma OperatorSafe(db: Db, o: string, now: Time)
    requires Aligned(db)
    ensures var r := Exec(db, UpsertOperator(OperatorId(o), o), now);
      r.Ok? && Aligned(r.value) && OperatorId(o) in r.value.operators && r.value == db.(operators := r.value.operators)
  {
    hide DomainId, RouteId, IdentityId, OperatorId, Sound;
    var s := UpsertOperator(OperatorId(o), o);
    assert Exec(db, s, now).Ok?;
    ExecSound(db, s, now);
  }

  /** Statements that leave the identified rows alone. */
  predicate Plainly(s: Stmt) {
    s.ClearMembers? || s.InsertMember? || s.UpsertHealth? || s.InsertReply? || s.UpsertRuntime? || s.UpsertState?
  }

  lemma PlainlySucceeds(db: Db, s: Stmt, now: Time)
    requires Plainly(s) && Resolved(db, s)
    requires s.InsertReply? ==> (s.id, s.operatorId) !in db.replies && Guarded(db, s.id, s.operatorId, s.binding)
    ensures Exec(db, s, now).Ok?
  {
  }

  ghost predicate SameRows(db: Db, next: Db) {
    && next.revisions == db.revisions && next.domains == db.domains && next.identities == db.identities
    && next.operators == db.operators && next.routes == db.routes
  }

  lemma SameRowsAligned(db: Db, next: Db)
    requires Aligned(db) && Sound(next) && SameRows(db, next)
    ensures Aligned(next)
  {
    hide DomainId, RouteId, IdentityId, OperatorId, Sound;
  }

  lemma PlainlySafe(db: Db, s: Stmt, now: Time)
    requires Aligned(db) && Plainly(s) && Resolved(db, s)
    requires s.InsertReply? ==> (s.id, s.operatorId) !in db.replies && Guarded(db, s.id, s.operatorId, s.binding)
    ensures Exec(db, s, now).Ok? && Aligned(Exec(db, s, now).value)
    ensures SameRows(db, Exec(db, s, now).value)
  {
    hide Exec, Sound, DomainIds, IdentityIds, OperatorIdsFollow, RouteIds, RevisionKeys;
    PlainlySucceeds(db, s, now);
    ExecSound(db, s, now);
    SameTables(db, s, now);
    SameRowsAligned(db, Exec(db, s, now).value);
  }

  // ----- the program on aligned tables -----

  lemma HeadSafe(db: Db, r: Projected, personal: set<string>, sha: string, now: Time)
    requires Aligned(db) && sha in db.revisions
    ensures Safe(db, RouteHead(r, personal, sha), now)
    ensures var next := Run(db, RouteHead(r, personal, sha), now);
      next.Ok? && Aligned(next.value) && IdOf(r) in next.value.routes && sha in next.value.revisions
  {
    hide Exec, Run, Safe, Aligned, DomainId, IdentityId, IdOf;
    var p := RouteHead(r, personal, sha);
    DomainSafe(db, r.domain, now);
    var d := Exec(db, p[0], now).value;
    IdentitySafe(d, DomainId(r.domain), r.replyIdentity, KindOf(personal, r.replyIdentity), now);
    var i := Exec(d, p[1], now).value;
    assert p[2] == RouteHead(r, {}, sha)[2];
    RouteSafe(i, r, sha, now);
    var t := Exec(i, p[2], now).value;
    PlainlySafe(t, p[3], now);
    assert p == [p[0]] + ([p[1]] + ([p[2]] + [p[3]]));
    SafeSingle(t, p[3], now);
    SafeOne(i, p[2], [p[3]], now);
    SafeOne(d, p[1], [p[2]] + [p[3]], now);
    SafeOne(db, p[0], [p[1]] + ([p[2]] + [p[3]]), now);
    RunOne(db, p[0], [p[1]] + ([p[2]] + [p[3]]), now);
    RunOne(d, p[1], [p[2]] + [p[3]], now);
    RunOne(i, p[2], [p[3]], now);
    RunSingle(t, p[3], now);
  }

  lemma OperatorPairSafe(db: Db, id: Id, o: string, sha: string, now: Time)
    requires Aligned(db) && id in db.routes && sha in db.revisions
    ensures var p := [UpsertOperator(OperatorId(o), o), InsertMember(id, OperatorId(o))];
      var next := Run(db, p, now);
      Safe(db, p, now) && next.Ok? && Aligned(next.value) && id in next.value.routes && sha in next.value.revisions
  {
    hide Exec, Run, Aligned, OperatorId, Safe;
    var a, b := UpsertOperator(OperatorId(o), o), InsertMember(id, OperatorId(o));
    OperatorSafe(db, o, now);
    var one := Exec(db, a, now).value;
    PlainlySafe(one, b, now);
    assert [a, b] == [a] + [b];
    SafeSingle(one, b, now);
    SafeOne(db, a, [b], now);
    RunOne(db, a, [b], now);
    RunSingle(one, b, now);
  }

  lemma {:induction false} OperatorsSafe(db: Db, id: Id, operators: seq<string>, sha: string, now: Time)
    requires Aligned(db) && id in db.routes && sha in db.revisions
    ensures Safe(db, OperatorStmts(id, operators), now)
    ensures var next := Run(db, OperatorStmts(id, operators), now);
      next.Ok? && Aligned(next.value) && id in next.value.routes && sha in next.value.revisions
    decreases |operators|
  {
    hide Exec, Run, Aligned, OperatorId, Resolved;
    if operators == [] {
      RunNothing(db, now);
    } else {
      hide Safe;
      var o, rest := operators[0], OperatorStmts(id, operators[1..]);
      var pair := [UpsertOperator(OperatorId(o), o), InsertMember(id, OperatorId(o))];
      OperatorPairSafe(db, id, o, sha, now);
      OperatorsSafe(Run(db, pair, now).value, id, operators[1..], sha, now);
      RunAppend(db, pair, rest, now);
      SafeAppend(db, pair, rest, now);
    }
  }

  lemma BlockSafe(db: Db, r: Projected, personal: set<string>, sha: string, now: Time)
    requires Aligned(db) && sha in db.revisions
    ensures Safe(db, RouteBlock(r, personal, sha), now)
    ensures var next := Run(db, RouteBlock(r, personal, sha), now);
      next.Ok? && Aligned(next.value) && sha in next.value.revisions
  {
    hide Exec, Run, Safe, Aligned, RouteHead, OperatorStmts, IdOf;
    var head, ops := RouteHead(r, personal, sha), OperatorStmts(IdOf(r), r.operators);
    var last := UpsertHealth(IdOf(r), DeclarationOf(r, sha), r.initial);
    HeadSafe(db, r, personal, sha, now);
    var h := Run(db, head, now).value;
    OperatorsSafe(h, IdOf(r), r.operators, sha, now);
    var t := Run(h, ops, now).value;
    assert DeclarationOf(r, sha).policy == Some(sha);
    PlainlySafe(t, last, now);
    SafeSingle(t, last, now);
    RunSingle(t, last, now);
    RunAppend(db, head, ops, now);
    SafeAppend(db, head, ops, now);
    RunAppend(db, head + ops, [last], now);
    SafeAppend(db, head + ops, [last], now);
  }

  lemma {:induction false} BlocksSafe(db: Db, routes: seq<Projected>, personal: set<string>, sha: string, now: Time)
    requires Aligned(db) && sha in db.revisions
    ensures Safe(db, Blocks(routes, personal, sha), now)
    ensures var next := Run(db, Blocks(routes, personal, sha), now);
      next.Ok? && Aligned(next.value) && sha in next.value.revisions
    decreases |routes|
  {
    hide Exec, Run, Aligned, RouteBlock;
    if routes == [] {
      RunNothing(db, now);
    } else {
      hide Safe;
      var first, rest := RouteBlock(routes[0], personal, sha), Blocks(routes[1..], personal, sha);
      BlockSafe(db, routes[0], personal, sha, now);
      BlocksSafe(Run(db, first, now).value, routes[1..], personal, sha, now);
      RunAppend(db, first, rest, now);
      SafeAppend(db, first, rest, now);
    }
  }

  lemma RevisionSafe(db: Db, routes: seq<Projected>, source: Source, now: Time)
    requires Aligned(db) && Keyed(source)
    ensures var r := Exec(db, Opening(routes, source)[0], now);
      r.Ok? && Aligned(r.value) && source.sha in r.value.revisions
  {
    hide Sound, KeyOf, DomainIds, IdentityIds, OperatorIdsFollow, RouteIds;
    var s := Opening(routes, source)[0];
    forall other | other in db.revisions && other != source.sha ensures db.revisions[other].r2Key != source.r2Key {
      if db.revisions[other].r2Key == source.r2Key {
        KeyOfDiffers(other, source.sha);
      }
    }
    ExecSound(db, s, now);
    OnlyRevisions(db, Exec(db, s, now).value);
  }

  lemma OnlyRevisions(db: Db, next: Db)
    requires next == db.(revisions := next.revisions)
    ensures DomainIds(db) ==> DomainIds(next)
    ensures IdentityIds(db) ==> IdentityIds(next)
    ensures OperatorIdsFollow(db) ==> OperatorIdsFollow(next)
    ensures RouteIds(db) ==> RouteIds(next)
  {
    hide DomainId, RouteId, IdentityId, OperatorId;
  }

  lemma DisablingSafe(db: Db, now: Time)
    requires Aligned(db)
    ensures var r := Exec(db, DisableRoutes, now);
      r.Ok? && Aligned(r.value) && r.value.revisions == db.revisions
  {
    hide DomainId, RouteId, IdentityId, OperatorId, Sound, KeyOf;
    ExecSound(db, DisableRoutes, now);
  }

  lemma OpeningSafe(db: Db, routes: seq<Projected>, source: Source, now: Time)
    requires Aligned(db) && Keyed(source)
    ensures Safe(db, Opening(routes, source), now)
    ensures var next := Run(db, Opening(routes, source), now);
      next.Ok? && Aligned(next.value) && source.sha in next.value.revisions
  {
    hide Run, Safe, Exec, Aligned, Keyed;
    var p := Opening(routes, source);
    RevisionSafe(db, routes, source, now);
    var one := Exec(db, p[0], now).value;
    DisablingSafe(one, now);
    assert p == [p[0]] + [p[1]];
    SafeSingle(one, p[1], now);
    SafeOne(db, p[0], [p[1]], now);
    RunOne(db, p[0], [p[1]], now);
    RunSingle(one, p[1], now);
  }

  lemma RevisionsSafe(db: Db, s: Stmt, now: Time)
    requires Aligned(db) && Resolved(db, s) && (s.SupersedeOthers? || s.ActivateRevision?)
    ensures var next := Exec(db, s, now);
      next.Ok? && Aligned(next.value) && next.value.revisions.Keys == db.revisions.Keys
  {
    hide Sound, KeyOf, DomainIds, IdentityIds, OperatorIdsFollow, RouteIds;
    ExecSound(db, s, now);
    OnlyRevisions(db, Exec(db, s, now).value);
  }

  lemma ClosingSafe(db: Db, source: Source, projectionSha: string, now: Time)
    requires Aligned(db) && source.sha in db.revisions
    ensures Safe(db, Closing(source, projectionSha), now)
    ensures var next := Run(db, Closing(source, projectionSha), now); next.Ok? && Aligned(next.value)
  {
    hide Exec, Run, Safe, Aligned, Entries;
    var p := Closing(source, projectionSha);
    RevisionsSafe(db, p[0], now);
    var a := Exec(db, p[0], now).value;
    RevisionsSafe(a, p[1], now);
    var b := Exec(a, p[1], now).value;
    PlainlySafe(b, p[2], now);
    var c := Exec(b, p[2], now).value;
    PlainlySafe(c, p[3], now);
    assert p == [p[0]] + ([p[1]] + ([p[2]] + [p[3]]));
    SafeSingle(c, p[3], now);
    SafeOne(b, p[2], [p[3]], now);
    SafeOne(a, p[1], [p[2]] + [p[3]], now);
    SafeOne(db, p[0], [p[1]] + ([p[2]] + [p[3]]), now);
    RunOne(db, p[0], [p[1]] + ([p[2]] + [p[3]]), now);
    RunOne(a, p[1], [p[2]] + [p[3]], now);
    RunOne(b, p[2], [p[3]], now);
    RunSingle(c, p[3], now);
  }

  lemma ForeignDomainHead(db: Db, r: Projected, personal: set<string>, sha: string, now: Time)
    requires DomainId(r.domain) !in db.domains && r.domain in db.domains.Values && IdOf(r) !in db.routes
    ensures Run(db, RouteHead(r, personal, sha), now).Err?
  {
    hide Run, DomainId, IdentityId, IdOf, RouteId;
    var p := RouteHead(r, personal, sha);
    assert p == [p[0]] + ([p[1]] + ([p[2]] + [p[3]]));
    RunOne(db, p[0], [p[1]] + ([p[2]] + [p[3]]), now);
    RunOne(db, p[1], [p[2]] + [p[3]], now);
    if Exec(db, p[1], now).Ok? {
      RunOne(Exec(db, p[1], now).value, p[2], [p[3]], now);
    }
  }

  /** Tables that hold a domain under an identifier of another kind stop the projection: the
      ignored insert leaves the route without the row that it refers to. */
  lemma ForeignDomainStops(db: Db, r: Projected, source: Source, digest: seq<Stmt> -> string, now: Time)
    requires DomainId(r.domain) !in db.domains && r.domain in db.domains.Values && IdOf(r) !in db.routes
    ensures Run(db, Program([r], source, digest), now).Err?
  {
    hide Run, Opening, RouteHead, OperatorStmts, Replies, Closing, PersonalIdentities, DomainId, IdOf;
    var personal := PersonalIdentities([r]);
    var a, b, c := Opening([r], source), Blocks([r], personal, source.sha), Replies([r], source.sha);
    var head, ops := RouteHead(r, personal, source.sha), OperatorStmts(IdOf(r), r.operators);
    var last := [UpsertHealth(IdOf(r), DeclarationOf(r, source.sha), r.initial)];
    assert Blocks([r][1..], personal, source.sha) == [];
    assert b == head + ops + last;
    RunAppend(db, a + b + c, Closing(source, digest(Body([r], source))), now);
    RunAppend(db, a + b, c, now);
    RunAppend(db, a, b, now);
    if Run(db, a, now).Ok? {
      OpeningEffect(db, [r], source, now);
      var o := Run(db, a, now).value;
      RunAppend(o, head + ops, last, now);
      RunAppend(o, head, ops, now);
      ForeignDomainHead(o, r, personal, source.sha, now);
    }
  }
}
