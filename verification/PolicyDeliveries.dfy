/** What a delivered message writes to the policy tables between two projections. */
module PolicyDeliveries {
  import opened Results
  import opened PolicyTables
  import opened PolicyProjection
  import opened PolicyOutcome
  import opened PolicyProgress

  // ----- the statements of a delivery -----

  function KeepOperators(id: Id, operators: seq<string>): seq<Stmt> {
    if operators == [] then []
    else [KeepOperator(OperatorId(operators[0]), operators[0]), InsertMember(id, OperatorId(operators[0]))]
         + KeepOperators(id, operators[1..])
  }

  function DeliveryHead(r: Projected): seq<Stmt> {
    [InsertDomain(DomainId(r.domain), r.domain),
     KeepIdentity(IdentityId(r.replyIdentity), Identity(DomainId(r.domain), r.replyIdentity, r.storage)),
     KeepRoute(IdOf(r), DomainId(r.domain), r.localPart, r.storage, IdentityId(r.replyIdentity), r.decision),
     UpdateRoute(IdOf(r), r.storage, IdentityId(r.replyIdentity), r.decision)]
  }

  /** What the delivery of a message to a route writes, statement by statement. */
  function DeliveryStmts(r: Projected): seq<Stmt> {
    DeliveryHead(r) + KeepOperators(IdOf(r), r.operators)
  }

  /** No transaction holds these statements together: a worker may stop after any number of them. */
  function Written(r: Projected, count: nat): seq<Stmt> {
    if count < |DeliveryStmts(r)| then DeliveryStmts(r)[..count] else DeliveryStmts(r)
  }

  /** The route is a user of its identity once the identity was written. */
  function UsersOf(r: Projected, count: nat): seq<Projected> {
    if count >= 2 then [r] else []
  }

  // ----- on aligned tables -----

  /** A program that never stops, finds the rows that it names, and keeps the tables aligned throughout. */
  ghost predicate Tame(db: Db, p: seq<Stmt>, now: Time)
    decreases |p|
  {
    Aligned(db)
    && (p == [] || (Resolved(db, p[0]) && Exec(db, p[0], now).Ok? && Tame(Exec(db, p[0], now).value, p[1..], now)))
  }

  lemma TameOne(db: Db, s: Stmt, rest: seq<Stmt>, now: Time)
    requires Aligned(db) && Resolved(db, s) && Exec(db, s, now).Ok? && Tame(Exec(db, s, now).value, rest, now)
    ensures Tame(db, [s] + rest, now)
  {
    hide Exec, Resolved, Aligned;
    assert ([s] + rest)[1..] == rest;
  }

  lemma {:induction false} TamePrefix(db: Db, p: seq<Stmt>, k: nat, now: Time)
    requires Tame(db, p, now) && k <= |p|
    ensures Run(db, p[..k], now).Ok? && Aligned(Run(db, p[..k], now).value)
    ensures k < |p| ==> Resolved(Run(db, p[..k], now).value, p[k])
    decreases k
  {
    hide Exec, Resolved, Aligned;
    if k == 0 {
      assert p[..k] == [];
    } else {
      assert p[..k] == [p[0]] + p[1..][..k - 1];
      RunOne(db, p[0], p[1..][..k - 1], now);
      TamePrefix(Exec(db, p[0], now).value, p[1..], k - 1, now);
    }
  }

  lemma KeepIdentitySafe(db: Db, r: Projected, now: Time)
    requires Aligned(db) && DomainId(r.domain) in db.domains
    ensures var id, s := IdentityId(r.replyIdentity), DeliveryHead(r)[1]; var next := Exec(db, s, now);
      && Resolved(db, s) && next.Ok? && Aligned(next.value)
      && next.value == db.(identities := next.value.identities)
      && next.value.identities ==
         (if id in db.identities then db.identities
          else db.identities[id := Identity(DomainId(r.domain), r.replyIdentity, r.storage)])
  {
    hide IdentityId, DomainId, Sound, DomainIds, IdentityIds, OperatorIdsFollow, RouteIds, RevisionKeys;
    var id := IdentityId(r.replyIdentity);
    NoOtherAddress(db, r.replyIdentity);
    if id !in db.identities {
      // Without a row of that identifier, keeping and upserting an identity come to the same.
      IdentitySafe(db, DomainId(r.domain), r.replyIdentity, r.storage, now);
    }
  }

  lemma KeepOperatorSafe(db: Db, o: string, now: Time)
    requires Aligned(db)
    ensures var s := KeepOperator(OperatorId(o), o); var next := Exec(db, s, now);
      && next.Ok? && Aligned(next.value) && OperatorId(o) in next.value.operators
      && next.value == db.(operators := next.value.operators)
  {
    hide OperatorId, Sound, DomainIds, IdentityIds, RouteIds, RevisionKeys;
    if OperatorId(o) !in db.operators {
      OperatorSafe(db, o, now);
      if o in db.operators.Values {
        EmailKnown(db, o);
      }
    }
  }

  lemma EmailKnown(db: Db, o: string)
    requires OperatorIdsFollow(db) && o in db.operators.Values
    ensures OperatorId(o) in db.operators
  {
    hide OperatorId;
    var id :| id in db.operators && db.operators[id] == o;
  }

  lemma KeepRouteSafe(db: Db, r: Projected, now: Time)
    requires Aligned(db) && DomainId(r.domain) in db.domains && IdentityId(r.replyIdentity) in db.identities
    ensures var s := DeliveryHead(r)[2]; var next := Exec(db, s, now);
      && Resolved(db, s) && next.Ok? && Aligned(next.value) && IdOf(r) in next.value.routes
      && next.value == db.(routes := next.value.routes)
  {
    hide DomainId, IdentityId, IdOf, Sound, DomainIds, IdentityIds, OperatorIdsFollow, RouteIds, RevisionKeys;
    var s := DeliveryHead(r)[2];
    if IdOf(r) !in db.routes {
      NoRouteThere(db, r);
      var row := Route(DomainId(r.domain), r.localPart, r.storage, IdentityId(r.replyIdentity), r.decision, true, None);
      assert Exec(db, s, now).value == db.(routes := db.routes[IdOf(r) := row]);
      RoutePutIds(db, r, row);
    }
    ExecSound(db, s, now);
    OnlyRoutes(db, Exec(db, s, now).value);
  }

  lemma NoRouteThere(db: Db, r: Projected)
    requires DomainIds(db) && RouteIds(db) && IdOf(r) !in db.routes && DomainId(r.domain) in db.domains
    ensures forall other :: other in db.routes ==>
              db.routes[other].domainId != DomainId(r.domain) || db.routes[other].localPart != r.localPart
  {
    hide DomainId, RouteId;
    NoOtherRoute(db, r.domain, r.localPart);
  }

  lemma UpdateRouteSafe(db: Db, r: Projected, now: Time)
    requires Aligned(db) && DomainId(r.domain) in db.domains && IdentityId(r.replyIdentity) in db.identities
    requires IdOf(r) in db.routes
    ensures var s := DeliveryHead(r)[3]; var next := Exec(db, s, now);
      && Resolved(db, s) && next.Ok? && Aligned(next.value) && IdOf(r) in next.value.routes
      && next.value == db.(routes := next.value.routes)
  {
    hide DomainId, IdentityId, IdOf, Sound, DomainIds, IdentityIds, OperatorIdsFollow, RouteIds, RevisionKeys;
    var s := DeliveryHead(r)[3];
    var row := db.routes[IdOf(r)].(kind := r.storage, identityId := IdentityId(r.replyIdentity), decision := r.decision);
    assert Exec(db, s, now).value == db.(routes := db.routes[IdOf(r) := row]);
    RoutePutIds(db, r, row);
    ExecSound(db, s, now);
    OnlyRoutes(db, Exec(db, s, now).value);
  }

  lemma PairSafe(db: Db, id: Id, o: string, now: Time)
    requires Aligned(db) && id in db.routes
    ensures var a, b := KeepOperator(OperatorId(o), o), InsertMember(id, OperatorId(o));
      var one := Exec(db, a, now);
      && Resolved(db, a) && one.Ok? && Aligned(one.value)
      && Resolved(one.value, b) && Exec(one.value, b, now).Ok? && Aligned(Exec(one.value, b, now).value)
      && id in Exec(one.value, b, now).value.routes
  {
    hide Exec, Aligned, OperatorId;
    KeepOperatorSafe(db, o, now);
    PlainlySafe(Exec(db, KeepOperator(OperatorId(o), o), now).value, InsertMember(id, OperatorId(o)), now);
  }

  lemma {:induction false} OperatorsTame(db: Db, id: Id, operators: seq<string>, now: Time)
    requires Aligned(db) && id in db.routes
    ensures Tame(db, KeepOperators(id, operators), now)
    decreases |operators|
  {
    hide Exec, Aligned, OperatorId;
    if operators != [] {
      hide Tame;
      hide Resolved;
      var o, rest := operators[0], KeepOperators(id, operators[1..]);
      var a, b := KeepOperator(OperatorId(o), o), InsertMember(id, OperatorId(o));
      PairSafe(db, id, o, now);
      var one := Exec(db, a, now).value;
      OperatorsTame(Exec(one, b, now).value, id, operators[1..], now);
      TameOne(one, b, rest, now);
      TameOne(db, a, [b] + rest, now);
      assert [a] + ([b] + rest) == [a, b] + rest;
    }
  }

  /** On aligned tables a delivery is never stopped by the tables, and keeps them aligned. */
  lemma DeliveryTame(db: Db, r: Projected, now: Time)
    requires Aligned(db)
    ensures Tame(db, DeliveryStmts(r), now)
  {
    hide Exec, Aligned, Tame, Resolved, IdOf, DomainId, IdentityId, KeepOperators;
    var p, rest := DeliveryHead(r), KeepOperators(IdOf(r), r.operators);
    DomainSafe(db, r.domain, now);
    var d := Exec(db, p[0], now).value;
    KeepIdentitySafe(d, r, now);
    var i := Exec(d, p[1], now).value;
    KeepRouteSafe(i, r, now);
    var t := Exec(i, p[2], now).value;
    UpdateRouteSafe(t, r, now);
    var u := Exec(t, p[3], now).value;
    OperatorsTame(u, IdOf(r), r.operators, now);
    TameOne(t, p[3], rest, now);
    TameOne(i, p[2], [p[3]] + rest, now);
    TameOne(d, p[1], [p[2]] + ([p[3]] + rest), now);
    assert Resolved(db, p[0]) by { DomainResolved(db, r); }
    TameOne(db, p[0], [p[1]] + ([p[2]] + ([p[3]] + rest)), now);
    assert DeliveryStmts(r) == [p[0]] + ([p[1]] + ([p[2]] + ([p[3]] + rest)));
  }

  lemma DomainResolved(db: Db, r: Projected)
    ensures Resolved(db, DeliveryHead(r)[0])
  {
  }

  // ----- what a delivery leaves alone -----

  /** Statements that add no identity and touch no revision. */
  predicate Settles(s: Stmt) {
    s.KeepRoute? || s.UpdateRoute? || s.KeepOperator? || s.InsertMember?
  }

  lemma {:induction false} SettlingKeeps(db: Db, p: seq<Stmt>, now: Time)
    requires (forall i :: 0 <= i < |p| ==> Settles(p[i])) && Run(db, p, now).Ok?
    ensures var next := Run(db, p, now).value; next.identities == db.identities && next.revisions == db.revisions
    decreases |p|
  {
    hide Exec;
    if p != [] {
      SameTables(db, p[0], now);
      SettlingKeeps(Exec(db, p[0], now).value, p[1..], now);
    }
  }

  lemma {:induction false} OperatorsSettle(id: Id, operators: seq<string>)
    ensures forall i :: 0 <= i < |KeepOperators(id, operators)| ==> Settles(KeepOperators(id, operators)[i])
    decreases |operators|
  {
    hide OperatorId;
    if operators != [] {
      OperatorsSettle(id, operators[1..]);
    }
  }

  lemma RestSettles(r: Projected, count: nat)
    requires 2 <= count
    ensures var p, w := DeliveryStmts(r), Written(r, count);
      |w| >= 2 && w == [p[0]] + ([p[1]] + w[2..]) && forall i :: 0 <= i < |w[2..]| ==> Settles(w[2..][i])
  {
    hide IdOf, DomainId, IdentityId, KeepOperators, Settles;
    var p, w := DeliveryStmts(r), Written(r, count);
    assert |w| >= 2 && w[0] == p[0] && w[1] == p[1];
    assert w == [w[0]] + ([w[1]] + w[2..]);
    forall i | 0 <= i < |w[2..]| ensures Settles(w[2..][i]) {
      assert w[2..][i] == p[i + 2];
      LaterSettles(r, i + 2);
    }
  }

  lemma LaterSettles(r: Projected, i: nat)
    requires 2 <= i < |DeliveryStmts(r)|
    ensures Settles(DeliveryStmts(r)[i])
  {
    hide IdOf, DomainId, IdentityId, KeepOperators;
    OperatorsSettle(IdOf(r), r.operators);
    assert i >= 4 ==> DeliveryStmts(r)[i] == KeepOperators(IdOf(r), r.operators)[i - 4];
  }

  lemma WrittenRuns(db: Db, r: Projected, count: nat, now: Time)
    requires Aligned(db)
    ensures Run(db, Written(r, count), now).Ok? && Aligned(Run(db, Written(r, count), now).value)
  {
    hide Aligned, Tame, Run, DeliveryStmts;
    var p, w := DeliveryStmts(r), Written(r, count);
    DeliveryTame(db, r, now);
    TamePrefix(db, p, |w|, now);
    assert w == p[..|w|];
  }

  /** The first two statements of a delivery and what follows them. */
  lemma FirstTwo(db: Db, r: Projected, rest: seq<Stmt>, now: Time)
    requires Aligned(db)
    requires var p := DeliveryStmts(r); Run(db, [p[0]] + ([p[1]] + rest), now).Ok?
    requires forall i :: 0 <= i < |rest| ==> Settles(rest[i])
    ensures var p := DeliveryStmts(r); var next := Run(db, [p[0]] + ([p[1]] + rest), now).value;
      var id := IdentityId(r.replyIdentity);
      && next.revisions == db.revisions
      && next.identities ==
         (if id in db.identities then db.identities
          else db.identities[id := Identity(DomainId(r.domain), r.replyIdentity, r.storage)])
  {
    hide Exec, Aligned, Resolved, IdOf, DomainId, IdentityId, KeepOperators, Run, Settles;
    var p := DeliveryHead(r);
    DomainSafe(db, r.domain, now);
    var d := Exec(db, p[0], now).value;
    KeepIdentitySafe(d, r, now);
    RunOne(db, p[0], [p[1]] + rest, now);
    RunOne(d, p[1], rest, now);
    SettlingKeeps(Exec(d, p[1], now).value, rest, now);
  }

  /** However far a delivery comes, it gives its identity a home where it had none, moves no other, and leaves the
      revisions alone. */
  lemma DeliveryKeeps(db: Db, r: Projected, count: nat, now: Time)
    requires Aligned(db)
    ensures var next := Run(db, Written(r, count), now); var id := IdentityId(r.replyIdentity);
      && next.Ok? && Aligned(next.value) && next.value.revisions == db.revisions
      && next.value.identities ==
         (if count < 2 || id in db.identities then db.identities
          else db.identities[id := Identity(DomainId(r.domain), r.replyIdentity, r.storage)])
  {
    hide Exec, Aligned, IdOf, DomainId, IdentityId, KeepOperators, Run, Settles;
    var p, w := DeliveryStmts(r), Written(r, count);
    WrittenRuns(db, r, count, now);
    if count == 0 {
      RunNothing(db, now);
      assert w == [];
    } else if count == 1 {
      assert w == [p[0]];
      RunSingle(db, p[0], now);
      SameTables(db, p[0], now);
    } else {
      RestSettles(r, count);
      FirstTwo(db, r, w[2..], now);
    }
  }

  lemma DeliveryHomes(db: Db, r: Projected, count: nat, now: Time, used: seq<Projected>, id: Id)
    requires Aligned(db)
    ensures Run(db, Written(r, count), now).Ok?
    ensures HomeOf(Run(db, Written(r, count), now).value, used, id) == HomeOf(db, UsersOf(r, count) + used, id)
  {
    hide Run, Aligned, Written, IdentityId, DomainId;
    DeliveryKeeps(db, r, count, now);
    assert ([r] + used)[1..] == used;
    assert [] + used == used;
  }
}
