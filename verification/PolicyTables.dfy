/** The policy tables and the statements that projections and deliveries are made of. */
module PolicyTables {
  import opened Results

  type Id = string
  type Time = int

  const DIGEST_LENGTH := 64

  datatype Storage = Role | Personal
  datatype Decision = RoleAlias | PersonalAlias | CatchAll | Sink
  datatype Provider = CloudflareRouting | GoogleWorkspace | External | Excluded
  datatype Status =
    | Declared | LocalPolicyValid | EdgeVerified | ProviderAccepted | InboxVerified | ReplyVerified
    | PartialDelivery | RecoveryRequired | Failed | IntentionallyExcluded
  datatype ReplyMode = RoleFirst | PersonalFirst

  datatype Revision = Revision(r2Key: string, domainCount: nat, routeCount: nat,
                               activatedAt: Option<Time>, supersededAt: Option<Time>)
  datatype Identity = Identity(domainId: Id, address: string, kind: Storage)
  datatype Route = Route(domainId: Id, localPart: string, kind: Storage, identityId: Id,
                         decision: Decision, enabled: bool, policy: Option<string>)
  /** The columns of a health row that record what has been proved of the route. */
  datatype Proof = Proof(inbound: Status, reply: Status, lastInbound: Option<Time>, lastReply: Option<Time>,
                         inboundAccepted: Option<Time>, inboundMessages: string, inboxVerified: Option<Time>,
                         replyAccepted: Option<Time>, replyMessage: Option<string>, replyVerified: Option<Time>,
                         lastError: Option<string>)
  /** What a projection declares of a route's health. */
  datatype Declaration = Declaration(address: string, decision: Decision, provider: Provider,
                                     operatorCount: nat, replyIdentity: string, policy: Option<string>)
  datatype Health = Health(declared: Declaration, observed: Option<Provider>, proof: Proof, updatedAt: Time)
  datatype Binding = Binding(identityId: Id, policy: string, mode: ReplyMode)
  datatype Runtime = Runtime(policy: string, r2Key: string, activatedAt: Time)

  datatype Db = Db(
    revisions: map<string, Revision>,
    domains: map<Id, string>,
    identities: map<Id, Identity>,
    operators: map<Id, string>,
    routes: map<Id, Route>,
    members: set<(Id, Id)>,
    health: map<Id, Health>,
    replies: map<(Id, Id), Binding>,
    runtime: Option<Runtime>,
    projection: map<string, (string, Time)>)

  datatype Stmt =
    | UpsertRevision(sha: string, r2Key: string, domainCount: nat, routeCount: nat)
    | DisableRoutes
    | InsertDomain(id: Id, domain: string)
    | UpsertIdentity(id: Id, identity: Identity)
    | UpsertRoute(id: Id, domainId: Id, localPart: string, kind: Storage, identityId: Id,
                  decision: Decision, sha: string)
    | ClearMembers(id: Id)
    | UpsertOperator(id: Id, email: string)
    | InsertMember(id: Id, operatorId: Id)
    | UpsertHealth(id: Id, declared: Declaration, initial: Status)
    | InsertReply(id: Id, operatorId: Id, binding: Binding)
    | SupersedeOthers(sha: string)
    | ActivateRevision(sha: string)
    | UpsertRuntime(sha: string, r2Key: string)
    | UpsertState(entries: map<string, string>)
    // A row is kept as it is where it exists, and added where it does not.
    | KeepIdentity(id: Id, identity: Identity)
    | KeepRoute(id: Id, domainId: Id, localPart: string, kind: Storage, identityId: Id, decision: Decision)
    | UpdateRoute(id: Id, kind: Storage, identityId: Id, decision: Decision)
    | KeepOperator(id: Id, email: string)

  // ----- one statement -----

  function ExecRevision(db: Db, sha: string, r2Key: string, domainCount: nat, routeCount: nat): (r: Result<Db>)
    ensures r.Ok? ==> r.value == db.(revisions := r.value.revisions) && db.revisions.Keys <= r.value.revisions.Keys
  {
    if |sha| != DIGEST_LENGTH then Err("CHECK policy_revisions.policy_sha256")
    else if exists other :: other in db.revisions && other != sha && db.revisions[other].r2Key == r2Key
    then Err("UNIQUE policy_revisions.r2_object_key")
    else
      var row := if sha in db.revisions
                 then db.revisions[sha].(r2Key := r2Key, domainCount := domainCount, routeCount := routeCount)
                 else Revision(r2Key, domainCount, routeCount, None, None);
      Ok(db.(revisions := db.revisions[sha := row]))
  }

  function ExecDomain(db: Db, id: Id, domain: string): (r: Result<Db>)
    ensures r.Ok? ==> r.value == db.(domains := r.value.domains) && db.domains.Keys <= r.value.domains.Keys
  {
    if id in db.domains || domain in db.domains.Values then Ok(db)
    else Ok(db.(domains := db.domains[id := domain]))
  }

  function ExecIdentity(db: Db, id: Id, identity: Identity): (r: Result<Db>)
    ensures r.Ok? ==> r.value == db.(identities := r.value.identities) && db.identities.Keys <= r.value.identities.Keys
  {
    if exists other :: other in db.identities && other != id && db.identities[other].address == identity.address
    then Err("UNIQUE identities.address")
    else if id in db.identities
    then Ok(db.(identities := db.identities[id :=
                  db.identities[id].(address := identity.address, kind := identity.kind)]))
    else if identity.domainId !in db.domains then Err("FOREIGN KEY identities.domain_id")
    else Ok(db.(identities := db.identities[id := identity]))
  }

  function ExecRoute(db: Db, id: Id, domainId: Id, localPart: string, kind: Storage, identityId: Id,
                     decision: Decision, sha: string): (r: Result<Db>)
    ensures r.Ok? ==> r.value == db.(routes := r.value.routes) && db.routes.Keys <= r.value.routes.Keys
  {
    if identityId !in db.identities || sha !in db.revisions then Err("FOREIGN KEY alias_routes")
    else if id in db.routes
    then Ok(db.(routes := db.routes[id := db.routes[id].(kind := kind, identityId := identityId,
                  decision := decision, enabled := true, policy := Some(sha))]))
    else if domainId !in db.domains then Err("FOREIGN KEY alias_routes.domain_id")
    else if exists other :: other in db.routes && db.routes[other].domainId == domainId
                            && db.routes[other].localPart == localPart
    then Err("UNIQUE alias_routes.domain_id, local_part")
    else Ok(db.(routes := db.routes[id :=
                  Route(domainId, localPart, kind, identityId, decision, true, Some(sha))]))
  }

  /** Deleting memberships deletes the reply bindings that refer to them. */
  function ExecClear(db: Db, id: Id): (r: Result<Db>)
    ensures r.Ok? ==> r.value == db.(members := r.value.members, replies := r.value.replies)
  {
    Ok(db.(members := (set m | m in db.members && m.0 != id),
           replies := (map k | k in db.replies && k.0 != id :: db.replies[k])))
  }

  function ExecOperator(db: Db, id: Id, email: string): (r: Result<Db>)
    ensures r.Ok? ==> r.value == db.(operators := r.value.operators) && db.operators.Keys <= r.value.operators.Keys
  {
    if exists other :: other in db.operators && other != id && db.operators[other] == email
    then Err("UNIQUE operators.email")
    else Ok(db.(operators := db.operators[id := email]))
  }

  function ExecMember(db: Db, id: Id, operatorId: Id): (r: Result<Db>)
    ensures r.Ok? ==> r.value == db.(members := r.value.members) && db.members <= r.value.members
  {
    if (id, operatorId) in db.members then Ok(db)
    else if id !in db.routes || operatorId !in db.operators then Err("FOREIGN KEY alias_route_operators")
    else Ok(db.(members := db.members + {(id, operatorId)}))
  }

  function FreshProof(initial: Status): Proof {
    Proof(initial, initial, None, None, None, "[]", None, None, None, None, None)
  }

  /** What a declaration leaves of the row that a route had before. */
  function Declare(before: Option<Health>, declared: Declaration, initial: Status, now: Time): Health {
    if before.None? then Health(declared, None, FreshProof(initial), now)
    else
      var changed :=
        before.value.declared.policy != declared.policy
        || before.value.declared.provider != declared.provider
        || initial == IntentionallyExcluded;
      Health(declared, before.value.observed, if changed then FreshProof(initial) else before.value.proof, now)
  }

  function HealthOf(db: Db, id: Id): Option<Health> {
    if id in db.health then Some(db.health[id]) else None
  }

  function ExecHealth(db: Db, id: Id, declared: Declaration, initial: Status, now: Time): (r: Result<Db>)
    ensures r.Ok? ==> r.value == db.(health := r.value.health)
  {
    if id !in db.routes || (declared.policy.Some? && declared.policy.value !in db.revisions)
    then Err("FOREIGN KEY route_health")
    else Ok(db.(health := db.health[id := Declare(HealthOf(db, id), declared, initial, now)]))
  }

  /** The text before the first at sign, and nothing where there is none. */
  function BeforeAt(address: string): string {
    BeforeAtFrom(address, 0)
  }

  function BeforeAtFrom(address: string, i: nat): string
    requires i <= |address|
    decreases |address| - i
  {
    if i == |address| then "" else if address[i] == '@' then address[..i] else BeforeAtFrom(address, i + 1)
  }

  lemma {:induction false} BeforeAtFound(address: string, i: nat, k: nat)
    requires i <= k < |address| && address[k] == '@' && '@' !in address[..k]
    ensures BeforeAtFrom(address, i) == address[..k]
    decreases k - i
  {
    if i < k {
      assert address[..k][i] == address[i];
      BeforeAtFound(address, i + 1, k);
    }
  }

  lemma {:induction false} BeforeAtNone(address: string, i: nat)
    requires i <= |address| && '@' !in address
    ensures BeforeAtFrom(address, i) == ""
    decreases |address| - i
  {
    if i < |address| {
      BeforeAtNone(address, i + 1);
    }
  }

  lemma {:induction false} FirstAt(address: string) returns (k: nat)
    requires '@' in address
    ensures k < |address| && address[k] == '@' && '@' !in address[..k]
  {
    if address[0] == '@' {
      k := 0;
    } else {
      var rest := FirstAt(address[1..]);
      k := rest + 1;
      assert address[..k] == [address[0]] + address[1..][..rest];
    }
  }

  /** What stands before the at sign is what the first one cuts off. */
  lemma BeforeAtExactly(address: string, s: string)
    ensures BeforeAt(address) == s <==>
            if '@' in address then '@' !in s && exists rest :: address == s + "@" + rest else s == ""
  {
    if '@' in address {
      var k := FirstAt(address);
      BeforeAtFound(address, 0, k);
      assert address == address[..k] + "@" + address[k + 1..];
      if rest :| '@' !in s && address == s + "@" + rest {
        assert address[..|s|] == s;
        BeforeAtFound(address, 0, |s|);
      }
    } else {
      BeforeAtNone(address, 0);
    }
  }

  /** A personal route of the domain that replies from the identity and that the operator serves. */
  predicate PersonalUse(db: Db, id: Id, domainId: Id, operatorId: Id, binding: Binding) {
    && id in db.routes
    && db.routes[id].domainId == domainId
    && db.routes[id].identityId == binding.identityId
    && db.routes[id].kind == Personal
    && db.routes[id].enabled
    && db.routes[id].policy == Some(binding.policy)
    && (id, operatorId) in db.members
  }

  /** What the trigger before an insert of a reply binding demands. */
  predicate Guarded(db: Db, id: Id, operatorId: Id, binding: Binding) {
    && id in db.routes && binding.identityId in db.identities && operatorId in db.operators
    && db.routes[id].enabled
    && db.routes[id].policy == Some(binding.policy)
    && db.identities[binding.identityId].domainId == db.routes[id].domainId
    && match binding.mode
       case RoleFirst => binding.identityId == db.routes[id].identityId
       case PersonalFirst =>
         && db.identities[binding.identityId].kind == Personal
         && BeforeAt(db.identities[binding.identityId].address) == BeforeAt(db.operators[operatorId])
         && exists personal :: personal in db.routes
                               && PersonalUse(db, personal, db.routes[id].domainId, operatorId, binding)
  }

  function ExecReply(db: Db, id: Id, operatorId: Id, binding: Binding): (r: Result<Db>)
    ensures r.Ok? ==> r.value == db.(replies := r.value.replies)
  {
    if !Guarded(db, id, operatorId, binding) then Err("operator public reply identity is not in policy")
    else if (id, operatorId) in db.replies then Err("UNIQUE alias_route_reply_identities")
    else if (id, operatorId) !in db.members || binding.policy !in db.revisions
    then Err("FOREIGN KEY alias_route_reply_identities")
    else Ok(db.(replies := db.replies[(id, operatorId) := binding]))
  }

  function Superseded(sha: string, key: string, row: Revision, now: Time): Revision {
    if row.activatedAt.Some? && key != sha && row.supersededAt.None? then row.(supersededAt := Some(now)) else row
  }

  function Activated(row: Revision, now: Time): Revision {
    row.(activatedAt := Some(if row.activatedAt.Some? then row.activatedAt.value else now), supersededAt := None)
  }

  function ExecRuntime(db: Db, sha: string, r2Key: string, now: Time): (r: Result<Db>)
    ensures r.Ok? ==> r.value == db.(runtime := r.value.runtime)
  {
    if sha !in db.revisions then Err("FOREIGN KEY runtime_state")
    else Ok(db.(runtime := Some(Runtime(sha, r2Key, now))))
  }

  function ExecKeepIdentity(db: Db, id: Id, identity: Identity): (r: Result<Db>)
    ensures r.Ok? ==> r.value == db.(identities := r.value.identities) && db.identities.Keys <= r.value.identities.Keys
  {
    if id in db.identities || exists other :: other in db.identities && db.identities[other].address == identity.address
    then Ok(db)
    else if identity.domainId !in db.domains then Err("FOREIGN KEY identities.domain_id")
    else Ok(db.(identities := db.identities[id := identity]))
  }

  /** A new route is enabled and belongs to no policy. */
  function ExecKeepRoute(db: Db, id: Id, domainId: Id, localPart: string, kind: Storage, identityId: Id,
                         decision: Decision): (r: Result<Db>)
    ensures r.Ok? ==> r.value == db.(routes := r.value.routes) && db.routes.Keys <= r.value.routes.Keys
  {
    if id in db.routes
       || exists other :: other in db.routes && db.routes[other].domainId == domainId && db.routes[other].localPart == localPart
    then Ok(db)
    else if domainId !in db.domains || identityId !in db.identities then Err("FOREIGN KEY alias_routes")
    else Ok(db.(routes := db.routes[id := Route(domainId, localPart, kind, identityId, decision, true, None)]))
  }

  function ExecUpdateRoute(db: Db, id: Id, kind: Storage, identityId: Id, decision: Decision): (r: Result<Db>)
    ensures r.Ok? ==> r.value == db.(routes := r.value.routes) && db.routes.Keys <= r.value.routes.Keys
  {
    if id !in db.routes then Ok(db)
    else if identityId !in db.identities then Err("FOREIGN KEY alias_routes.default_reply_identity_id")
    else Ok(db.(routes := db.routes[id := db.routes[id].(kind := kind, identityId := identityId, decision := decision)]))
  }

  function ExecKeepOperator(db: Db, id: Id, email: string): (r: Result<Db>)
    ensures r.Ok? ==> r.value == db.(operators := r.value.operators) && db.operators.Keys <= r.value.operators.Keys
  {
    if id in db.operators || email in db.operators.Values then Ok(db)
    else Ok(db.(operators := db.operators[id := email]))
  }

  function Exec(db: Db, s: Stmt, now: Time): Result<Db> {
    match s
    case UpsertRevision(sha, r2Key, domainCount, routeCount) => ExecRevision(db, sha, r2Key, domainCount, routeCount)
    case DisableRoutes => Ok(db.(routes := map id | id in db.routes :: db.routes[id].(enabled := false)))
    case InsertDomain(id, domain) => ExecDomain(db, id, domain)
    case UpsertIdentity(id, identity) => ExecIdentity(db, id, identity)
    case UpsertRoute(id, domainId, localPart, kind, identityId, decision, sha) =>
      ExecRoute(db, id, domainId, localPart, kind, identityId, decision, sha)
    case ClearMembers(id) => ExecClear(db, id)
    case UpsertOperator(id, email) => ExecOperator(db, id, email)
    case InsertMember(id, operatorId) => ExecMember(db, id, operatorId)
    case UpsertHealth(id, declared, initial) => ExecHealth(db, id, declared, initial, now)
    case InsertReply(id, operatorId, binding) => ExecReply(db, id, operatorId, binding)
    case SupersedeOthers(sha) =>
      Ok(db.(revisions := map key | key in db.revisions :: Superseded(sha, key, db.revisions[key], now)))
    case ActivateRevision(sha) =>
      Ok(if sha in db.revisions
         then db.(revisions := db.revisions[sha := Activated(db.revisions[sha], now)]) else db)
    case UpsertRuntime(sha, r2Key) => ExecRuntime(db, sha, r2Key, now)
    case UpsertState(entries) =>
      Ok(db.(projection := db.projection + map key | key in entries :: (entries[key], now)))
    case KeepIdentity(id, identity) => ExecKeepIdentity(db, id, identity)
    case KeepRoute(id, domainId, localPart, kind, identityId, decision) =>
      ExecKeepRoute(db, id, domainId, localPart, kind, identityId, decision)
    case UpdateRoute(id, kind, identityId, decision) => ExecUpdateRoute(db, id, kind, identityId, decision)
    case KeepOperator(id, email) => ExecKeepOperator(db, id, email)
  }

  // ----- programs -----

  /** A program stops at the first statement that fails. */
  function Run(db: Db, p: seq<Stmt>, now: Time): Result<Db>
    decreases |p|
  {
    if p == [] then Ok(db)
    else
      var next := Exec(db, p[0], now);
      if next.Err? then next else Run(next.value, p[1..], now)
  }

  function Then(first: Result<Db>, q: seq<Stmt>, now: Time): Result<Db> {
    if first.Err? then first else Run(first.value, q, now)
  }

  lemma {:induction false} RunAppend(db: Db, p: seq<Stmt>, q: seq<Stmt>, now: Time)
    ensures Run(db, p + q, now) == Then(Run(db, p, now), q, now)
    decreases |p|
  {
    hide Exec;
    if p == [] {
      assert p + q == q;
    } else {
      assert (p + q)[1..] == p[1..] + q;
      if Exec(db, p[0], now).Ok? {
        RunAppend(Exec(db, p[0], now).value, p[1..], q, now);
      }
    }
  }

  lemma RunOne(db: Db, s: Stmt, rest: seq<Stmt>, now: Time)
    ensures Run(db, [s] + rest, now) == Then(Exec(db, s, now), rest, now)
  {
    hide Exec;
    assert ([s] + rest)[1..] == rest;
  }

  // ----- references -----

  ghost predicate DomainRefs(db: Db) {
    forall id :: id in db.identities ==> db.identities[id].domainId in db.domains
  }

  ghost predicate RouteRefs(db: Db) {
    forall id :: id in db.routes ==>
      && db.routes[id].domainId in db.domains
      && db.routes[id].identityId in db.identities
      && (db.routes[id].policy.Some? ==> db.routes[id].policy.value in db.revisions)
  }

  ghost predicate MemberRefs(db: Db) {
    forall m :: m in db.members ==> m.0 in db.routes && m.1 in db.operators
  }

  ghost predicate HealthRefs(db: Db) {
    forall id :: id in db.health ==>
      && id in db.routes
      && (db.health[id].declared.policy.Some? ==> db.health[id].declared.policy.value in db.revisions)
  }

  ghost predicate ReplyRefs(db: Db) {
    forall k :: k in db.replies ==>
      && k in db.members
      && db.replies[k].identityId in db.identities
      && db.replies[k].policy in db.revisions
  }

  /** Every reference in the tables names a row that exists. */
  ghost predicate Sound(db: Db) {
    && DomainRefs(db) && RouteRefs(db) && MemberRefs(db) && HealthRefs(db) && ReplyRefs(db)
    && (db.runtime.Some? ==> db.runtime.value.policy in db.revisions)
  }

  /** Only memberships and their bindings are ever deleted. */
  ghost predicate Grows(db: Db, next: Db) {
    && db.revisions.Keys <= next.revisions.Keys
    && db.domains.Keys <= next.domains.Keys
    && db.identities.Keys <= next.identities.Keys
    && db.operators.Keys <= next.operators.Keys
    && db.routes.Keys <= next.routes.Keys
  }

  lemma ExecGrows(db: Db, s: Stmt, now: Time)
    requires Exec(db, s, now).Ok?
    ensures Grows(db, Exec(db, s, now).value)
  {
    hide ExecRevision, ExecDomain, ExecIdentity, ExecRoute, ExecClear, ExecOperator, ExecMember, ExecHealth, ExecReply,
      ExecRuntime, ExecKeepIdentity, ExecKeepRoute, ExecUpdateRoute, ExecKeepOperator;
  }

  lemma SameRegisters(db: Db, s: Stmt, now: Time)
    requires Exec(db, s, now).Ok?
    ensures var next := Exec(db, s, now).value;
      && (s.UpsertRevision? || s.SupersedeOthers? || s.ActivateRevision? || next.revisions == db.revisions)
      && (s.InsertDomain? || next.domains == db.domains)
      && (s.UpsertIdentity? || s.KeepIdentity? || next.identities == db.identities)
      && (s.UpsertOperator? || s.KeepOperator? || next.operators == db.operators)
      && (s.UpsertRuntime? || next.runtime == db.runtime)
  {
    hide ExecRevision, ExecDomain, ExecIdentity, ExecRoute, ExecClear, ExecOperator, ExecMember, ExecHealth, ExecReply,
      ExecRuntime, ExecKeepIdentity, ExecKeepRoute, ExecUpdateRoute, ExecKeepOperator;
  }

  lemma SameRoutes(db: Db, s: Stmt, now: Time)
    requires Exec(db, s, now).Ok?
    ensures var next := Exec(db, s, now).value;
      && (s.DisableRoutes? || s.UpsertRoute? || s.KeepRoute? || s.UpdateRoute? || next.routes == db.routes)
      && (s.UpsertHealth? || next.health == db.health)
  {
    hide ExecRevision, ExecDomain, ExecIdentity, ExecRoute, ExecClear, ExecOperator, ExecMember, ExecHealth, ExecReply,
      ExecRuntime, ExecKeepIdentity, ExecKeepRoute, ExecUpdateRoute, ExecKeepOperator;
  }

  lemma SameMembers(db: Db, s: Stmt, now: Time)
    requires Exec(db, s, now).Ok?
    ensures var next := Exec(db, s, now).value;
      && (s.ClearMembers? || s.InsertMember? || next.members == db.members)
      && (s.ClearMembers? || s.InsertReply? || next.replies == db.replies)
  {
    hide ExecRevision, ExecDomain, ExecIdentity, ExecRoute, ExecClear, ExecOperator, ExecMember, ExecHealth, ExecReply,
      ExecRuntime, ExecKeepIdentity, ExecKeepRoute, ExecUpdateRoute, ExecKeepOperator;
  }

  /** Which tables a statement can change. */
  lemma SameTables(db: Db, s: Stmt, now: Time)
    requires Exec(db, s, now).Ok?
    ensures var next := Exec(db, s, now).value;
      && (s.UpsertRevision? || s.SupersedeOthers? || s.ActivateRevision? || next.revisions == db.revisions)
      && (s.InsertDomain? || next.domains == db.domains)
      && (s.UpsertIdentity? || s.KeepIdentity? || next.identities == db.identities)
      && (s.UpsertOperator? || s.KeepOperator? || next.operators == db.operators)
      && (s.DisableRoutes? || s.UpsertRoute? || s.KeepRoute? || s.UpdateRoute? || next.routes == db.routes)
      && (s.ClearMembers? || s.InsertMember? || next.members == db.members)
      && (s.UpsertHealth? || next.health == db.health)
      && (s.ClearMembers? || s.InsertReply? || next.replies == db.replies)
      && (s.UpsertRuntime? || next.runtime == db.runtime)
  {
    hide Exec;
    SameRegisters(db, s, now);
    SameRoutes(db, s, now);
    SameMembers(db, s, now);
  }

  // ----- a row that is added names rows that exist -----

  lemma IdentityPut(db: Db, id: Id, row: Identity)
    requires DomainRefs(db) && row.domainId in db.domains
    ensures DomainRefs(db.(identities := db.identities[id := row]))
  {
  }

  lemma IdentityNames(db: Db, s: Stmt, now: Time)
    requires DomainRefs(db) && Exec(db, s, now).Ok? && (s.UpsertIdentity? || s.KeepIdentity?)
    ensures DomainRefs(Exec(db, s, now).value)
  {
    hide DomainRefs;
    var row := if s.UpsertIdentity? && s.id in db.identities
               then db.identities[s.id].(address := s.identity.address, kind := s.identity.kind) else s.identity;
    if row.domainId in db.domains {
      IdentityPut(db, s.id, row);
    }
    assert s.id in db.identities ==> row.domainId in db.domains || s.KeepIdentity? by {
      StoredIdentity(db, s.id);
    }
  }

  lemma StoredIdentity(db: Db, id: Id)
    requires DomainRefs(db)
    ensures id in db.identities ==> db.identities[id].domainId in db.domains
  {
  }

  lemma RoutePut(db: Db, id: Id, row: Route)
    requires RouteRefs(db) && row.domainId in db.domains && row.identityId in db.identities
    requires row.policy.Some? ==> row.policy.value in db.revisions
    ensures RouteRefs(db.(routes := db.routes[id := row]))
  {
  }

  lemma StoredRoute(db: Db, id: Id)
    requires RouteRefs(db) && id in db.routes
    ensures db.routes[id].domainId in db.domains && db.routes[id].identityId in db.identities
    ensures db.routes[id].policy.Some? ==> db.routes[id].policy.value in db.revisions
  {
  }

  lemma DisabledNames(db: Db, now: Time)
    requires RouteRefs(db)
    ensures Exec(db, DisableRoutes, now).Ok? && RouteRefs(Exec(db, DisableRoutes, now).value)
  {
  }

  lemma RouteNames(db: Db, s: Stmt, now: Time)
    requires RouteRefs(db) && Exec(db, s, now).Ok? && s.UpsertRoute?
    ensures RouteRefs(Exec(db, s, now).value)
  {
    hide RouteRefs;
    if s.id in db.routes {
      StoredRoute(db, s.id);
      RoutePut(db, s.id, db.routes[s.id].(kind := s.kind, identityId := s.identityId, decision := s.decision,
                                          enabled := true, policy := Some(s.sha)));
    } else {
      RoutePut(db, s.id, Route(s.domainId, s.localPart, s.kind, s.identityId, s.decision, true, Some(s.sha)));
    }
  }

  lemma KeptRouteNames(db: Db, s: Stmt, now: Time)
    requires RouteRefs(db) && Exec(db, s, now).Ok? && (s.KeepRoute? || s.UpdateRoute?)
    ensures RouteRefs(Exec(db, s, now).value)
  {
    hide RouteRefs;
    if s.UpdateRoute? && s.id in db.routes {
      StoredRoute(db, s.id);
      RoutePut(db, s.id, db.routes[s.id].(kind := s.kind, identityId := s.identityId, decision := s.decision));
    } else if s.KeepRoute? && Exec(db, s, now).value != db {
      RoutePut(db, s.id, Route(s.domainId, s.localPart, s.kind, s.identityId, s.decision, true, None));
    }
  }

  lemma MemberNames(db: Db, s: Stmt, now: Time)
    requires MemberRefs(db) && Exec(db, s, now).Ok? && (s.ClearMembers? || s.InsertMember?)
    ensures MemberRefs(Exec(db, s, now).value)
  {
  }

  lemma HealthNames(db: Db, s: Stmt, now: Time)
    requires HealthRefs(db) && Exec(db, s, now).Ok? && s.UpsertHealth?
    ensures HealthRefs(Exec(db, s, now).value)
  {
  }

  lemma ReplyNames(db: Db, s: Stmt, now: Time)
    requires ReplyRefs(db) && Exec(db, s, now).Ok? && (s.ClearMembers? || s.InsertReply? || s.InsertMember?)
    ensures ReplyRefs(Exec(db, s, now).value)
  {
  }

  lemma ExecDomainRefs(db: Db, s: Stmt, now: Time)
    requires DomainRefs(db) && Exec(db, s, now).Ok?
    ensures DomainRefs(Exec(db, s, now).value)
  {
    hide Exec;
    if s.UpsertIdentity? || s.KeepIdentity? {
      IdentityNames(db, s, now);
    } else {
      ExecGrows(db, s, now);
      SameTables(db, s, now);
    }
  }

  lemma ExecRouteRefs(db: Db, s: Stmt, now: Time)
    requires RouteRefs(db) && Exec(db, s, now).Ok?
    ensures RouteRefs(Exec(db, s, now).value)
  {
    hide Exec;
    if s.UpsertRoute? {
      RouteNames(db, s, now);
    } else if s.DisableRoutes? {
      DisabledNames(db, now);
    } else if s.KeepRoute? || s.UpdateRoute? {
      KeptRouteNames(db, s, now);
    } else {
      ExecGrows(db, s, now);
      SameTables(db, s, now);
    }
  }

  lemma ExecMemberRefs(db: Db, s: Stmt, now: Time)
    requires MemberRefs(db) && Exec(db, s, now).Ok?
    ensures MemberRefs(Exec(db, s, now).value)
  {
    hide Exec;
    if s.ClearMembers? || s.InsertMember? {
      MemberNames(db, s, now);
    } else {
      ExecGrows(db, s, now);
      SameTables(db, s, now);
    }
  }

  lemma ExecHealthRefs(db: Db, s: Stmt, now: Time)
    requires HealthRefs(db) && Exec(db, s, now).Ok?
    ensures HealthRefs(Exec(db, s, now).value)
  {
    hide Exec;
    if s.UpsertHealth? {
      HealthNames(db, s, now);
    } else {
      ExecGrows(db, s, now);
      SameTables(db, s, now);
    }
  }

  lemma ExecReplyRefs(db: Db, s: Stmt, now: Time)
    requires ReplyRefs(db) && Exec(db, s, now).Ok?
    ensures ReplyRefs(Exec(db, s, now).value)
  {
    hide Exec;
    if s.ClearMembers? || s.InsertReply? || s.InsertMember? {
      ReplyNames(db, s, now);
    } else {
      ExecGrows(db, s, now);
      SameTables(db, s, now);
    }
  }

  lemma RuntimeNames(db: Db, s: Stmt, now: Time)
    requires Exec(db, s, now).Ok? && s.UpsertRuntime?
    ensures var next := Exec(db, s, now).value; next.runtime.Some? && next.runtime.value.policy in next.revisions
  {
  }

  /** A statement that succeeds keeps the references of the tables whole. */
  lemma ExecSound(db: Db, s: Stmt, now: Time)
    requires Sound(db) && Exec(db, s, now).Ok?
    ensures Sound(Exec(db, s, now).value)
  {
    hide Exec;
    ExecDomainRefs(db, s, now);
    ExecRouteRefs(db, s, now);
    ExecMemberRefs(db, s, now);
    ExecHealthRefs(db, s, now);
    ExecReplyRefs(db, s, now);
    if s.UpsertRuntime? {
      RuntimeNames(db, s, now);
    } else {
      ExecGrows(db, s, now);
      SameTables(db, s, now);
    }
  }

  /** Wherever a run stops, and whatever the tables held before it, no reference dangles. */
  lemma {:induction false} RunSound(db: Db, p: seq<Stmt>, k: nat, now: Time)
    requires Sound(db) && k <= |p| && Run(db, p[..k], now).Ok?
    ensures Sound(Run(db, p[..k], now).value)
    decreases k
  {
    hide Exec, Sound;
    if k > 0 {
      assert p[..k] == [p[0]] + p[1..][..k - 1];
      RunOne(db, p[0], p[1..][..k - 1], now);
      ExecSound(db, p[0], now);
      RunSound(Exec(db, p[0], now).value, p[1..], k - 1, now);
    } else {
      assert p[..k] == [];
    }
  }

  // ----- what the tables hold only once -----

  ghost predicate OneKey(rows: map<string, Revision>) {
    forall a, b :: a in rows && b in rows && rows[a].r2Key == rows[b].r2Key ==> a == b
  }

  ghost predicate OneAddress(rows: map<Id, Identity>) {
    forall a, b :: a in rows && b in rows && rows[a].address == rows[b].address ==> a == b
  }

  ghost predicate OnePlace(rows: map<Id, Route>) {
    forall a, b :: a in rows && b in rows && rows[a].domainId == rows[b].domainId && rows[a].localPart == rows[b].localPart
      ==> a == b
  }

  ghost predicate OneName(rows: map<Id, string>) {
    forall a, b :: a in rows && b in rows && rows[a] == rows[b] ==> a == b
  }

  /** No two revisions share an object, no two identities an address, no two routes a place, and no two domains or
      operators a name. */
  ghost predicate Unique(db: Db) {
    OneKey(db.revisions) && OneAddress(db.identities) && OnePlace(db.routes) && OneName(db.domains) && OneName(db.operators)
  }

  lemma UniqueRevisions(db: Db, s: Stmt, now: Time)
    requires OneKey(db.revisions) && Exec(db, s, now).Ok?
    ensures OneKey(Exec(db, s, now).value.revisions)
  {
    if s.UpsertRevision? || s.SupersedeOthers? || s.ActivateRevision? {
      RevisionOnce(db, s, now);
    } else {
      hide Exec, OneKey;
      SameTables(db, s, now);
    }
  }

  lemma RevisionOnce(db: Db, s: Stmt, now: Time)
    requires OneKey(db.revisions) && Exec(db, s, now).Ok?
    requires s.UpsertRevision? || s.SupersedeOthers? || s.ActivateRevision?
    ensures OneKey(Exec(db, s, now).value.revisions)
  {
  }

  lemma UniqueIdentities(db: Db, s: Stmt, now: Time)
    requires OneAddress(db.identities) && Exec(db, s, now).Ok?
    ensures OneAddress(Exec(db, s, now).value.identities)
  {
    if s.UpsertIdentity? || s.KeepIdentity? {
      IdentityOnce(db, s, now);
    } else {
      hide Exec, OneAddress;
      SameTables(db, s, now);
    }
  }

  lemma AddressPut(rows: map<Id, Identity>, id: Id, row: Identity)
    requires OneAddress(rows) && forall other :: other in rows && other != id ==> rows[other].address != row.address
    ensures OneAddress(rows[id := row])
  {
  }

  lemma IdentityOnce(db: Db, s: Stmt, now: Time)
    requires OneAddress(db.identities) && Exec(db, s, now).Ok? && (s.UpsertIdentity? || s.KeepIdentity?)
    ensures OneAddress(Exec(db, s, now).value.identities)
  {
    hide OneAddress;
    var row := if s.UpsertIdentity? && s.id in db.identities
               then db.identities[s.id].(address := s.identity.address, kind := s.identity.kind) else s.identity;
    if forall other :: other in db.identities && other != s.id ==> db.identities[other].address != row.address {
      AddressPut(db.identities, s.id, row);
    }
  }

  lemma UniqueRoutes(db: Db, s: Stmt, now: Time)
    requires OnePlace(db.routes) && Exec(db, s, now).Ok?
    ensures OnePlace(Exec(db, s, now).value.routes)
  {
    if s.UpsertRoute? {
      RouteOnce(db, s, now);
    } else if s.DisableRoutes? || s.KeepRoute? || s.UpdateRoute? {
      KeptRouteOnce(db, s, now);
    } else {
      hide Exec, OnePlace;
      SameTables(db, s, now);
    }
  }

  predicate SamePlace(a: Route, b: Route) {
    a.domainId == b.domainId && a.localPart == b.localPart
  }

  lemma PlacePut(rows: map<Id, Route>, id: Id, row: Route)
    requires OnePlace(rows)
    requires (id in rows && SamePlace(rows[id], row)) || forall other :: other in rows ==> !SamePlace(rows[other], row)
    ensures OnePlace(rows[id := row])
  {
  }

  lemma RouteOnce(db: Db, s: Stmt, now: Time)
    requires OnePlace(db.routes) && Exec(db, s, now).Ok? && s.UpsertRoute?
    ensures OnePlace(Exec(db, s, now).value.routes)
  {
    hide OnePlace;
    var row := if s.id in db.routes
               then db.routes[s.id].(kind := s.kind, identityId := s.identityId, decision := s.decision, enabled := true,
                                     policy := Some(s.sha))
               else Route(s.domainId, s.localPart, s.kind, s.identityId, s.decision, true, Some(s.sha));
    PlacePut(db.routes, s.id, row);
  }

  lemma KeptRouteOnce(db: Db, s: Stmt, now: Time)
    requires OnePlace(db.routes) && Exec(db, s, now).Ok? && (s.DisableRoutes? || s.KeepRoute? || s.UpdateRoute?)
    ensures OnePlace(Exec(db, s, now).value.routes)
  {
  }

  lemma UniqueNames(db: Db, s: Stmt, now: Time)
    requires OneName(db.domains) && OneName(db.operators) && Exec(db, s, now).Ok?
    ensures OneName(Exec(db, s, now).value.domains) && OneName(Exec(db, s, now).value.operators)
  {
    if s.InsertDomain? || s.UpsertOperator? || s.KeepOperator? {
      NameOnce(db, s, now);
    } else {
      hide Exec, OneName;
      SameTables(db, s, now);
    }
  }

  lemma NameOnce(db: Db, s: Stmt, now: Time)
    requires OneName(db.domains) && OneName(db.operators) && Exec(db, s, now).Ok?
    requires s.InsertDomain? || s.UpsertOperator? || s.KeepOperator?
    ensures OneName(Exec(db, s, now).value.domains) && OneName(Exec(db, s, now).value.operators)
  {
  }

  /** A binding goes in only where the guard lets it, behind its membership, and never over another. */
  lemma BindsOnce(db: Db, id: Id, operatorId: Id, binding: Binding, now: Time)
    ensures Exec(db, InsertReply(id, operatorId, binding), now).Ok? <==>
            && Guarded(db, id, operatorId, binding) && (id, operatorId) in db.members
            && (id, operatorId) !in db.replies && binding.policy in db.revisions
  {
    hide Guarded;
  }

  /** Wherever a run stops, what the tables hold only once they still hold only once. */
  lemma {:induction false} RunUnique(db: Db, p: seq<Stmt>, k: nat, now: Time)
    requires Unique(db) && k <= |p| && Run(db, p[..k], now).Ok?
    ensures Unique(Run(db, p[..k], now).value)
    decreases k
  {
    hide Exec, OneKey, OneAddress, OnePlace, OneName;
    if k > 0 {
      assert p[..k] == [p[0]] + p[1..][..k - 1];
      RunOne(db, p[0], p[1..][..k - 1], now);
      UniqueRevisions(db, p[0], now);
      UniqueIdentities(db, p[0], now);
      UniqueRoutes(db, p[0], now);
      UniqueNames(db, p[0], now);
      RunUnique(Exec(db, p[0], now).value, p[1..], k - 1, now);
    } else {
      assert p[..k] == [];
    }
  }
}
