/** When a projection runs to its end, and when whole histories of projections do. */
module PolicyHistory {
  import opened Results
  import opened PolicyTables
  import opened PolicyProjection
  import opened PolicyOutcome
  import opened PolicyProgress
  import opened PolicyBindings
  import opened PolicyDeliveries
  import Texts

  // ----- one projection -----

  lemma Restock(db: Db, routes: seq<Projected>, source: Source, now: Time) returns (revised: Db, stocked: Db)
    requires Aligned(db) && WellFormed(routes) && Keyed(source)
    ensures var p := Opening(routes, source) + Blocks(routes, PersonalIdentities(routes), source.sha);
      Safe(db, p, now) && Run(db, p, now) == Ok(stocked)
    ensures Aligned(stocked) && source.sha in stocked.revisions && Stocked(revised, routes, source.sha, now, stocked)
    ensures revised.identities == db.identities
  {
    hide Run, Safe, WellFormed, Opening, Blocks, PersonalIdentities, Settled, Keyed, Sound, DomainIds, IdentityIds,
      OperatorIdsFollow, RouteIds, RevisionKeys;
    var a, b := Opening(routes, source), Blocks(routes, PersonalIdentities(routes), source.sha);
    OpeningSafe(db, routes, source, now);
    OpeningEffect(db, routes, source, now);
    revised := Run(db, a, now).value;
    BlocksSafe(revised, routes, PersonalIdentities(routes), source.sha, now);
    BlocksEffect(revised, routes, PersonalIdentities(routes), source.sha, now);
    stocked := Run(revised, b, now).value;
    RunAppend(db, a, b, now);
    SafeAppend(db, a, b, now);
  }

  lemma SameHomes(db: Db, next: Db, used: seq<Projected>, routes: seq<Projected>)
    requires db.identities == next.identities
    ensures Bindable(db, used, routes) <==> Bindable(next, used, routes)
  {
    hide IdentityId, ReplyAddress, Binds, FirstUser;
  }

  lemma BindableIsReady(db: Db, routes: seq<Projected>, sha: string, now: Time, next: Db)
    requires WellFormed(routes) && Stocked(db, routes, sha, now, next) && Bindable(db, routes, routes)
    ensures Ready(next, routes, sha)
  {
    hide WellFormed, Stocked, HomeOf, IdOf, DomainId, OperatorId, IdentityId, Plain, Guarded, Binds, ReplyAddress, BindingOf;
    forall i, k | 0 <= i < |routes| && 0 <= k < |routes[i].operators|
      ensures ReadyOne(next, routes[i], routes[i].operators[k], sha)
    {
      OperatorRow(db, routes, sha, now, next, i, k);
      GuardedExactly(db, routes, sha, now, next, i, k);
    }
  }

  lemma GuardedIsBindable(db: Db, routes: seq<Projected>, sha: string, now: Time, next: Db)
    requires WellFormed(routes) && Stocked(db, routes, sha, now, next) && Run(next, Replies(routes, sha), now).Ok?
    ensures Bindable(db, routes, routes)
  {
    hide WellFormed, Stocked, HomeOf, IdOf, DomainId, OperatorId, IdentityId, Plain, Guarded, Binds, ReplyAddress, BindingOf, Run,
      Replies;
    RepliesGuarded(next, routes, sha, now);
    forall i, k | 0 <= i < |routes| && 0 <= k < |routes[i].operators|
      ensures Binds(HomeOf(db, routes, IdentityId(ReplyAddress(routes[i], routes[i].operators[k]))),
                    routes, routes[i], routes[i].operators[k])
    {
      GuardedExactly(db, routes, sha, now, next, i, k);
    }
  }

  lemma BodySafe(db: Db, routes: seq<Projected>, source: Source, now: Time)
    requires Aligned(db) && WellFormed(routes) && Keyed(source) && Bindable(db, routes, routes)
    ensures Safe(db, Body(routes, source), now)
    ensures var next := Run(db, Body(routes, source), now);
      next.Ok? && Aligned(next.value) && source.sha in next.value.revisions
  {
    hide Run, Safe, Aligned, WellFormed, Opening, Blocks, Replies, PersonalIdentities, Stocked, Ready, Keyed, Bindable;
    var stock := Opening(routes, source) + Blocks(routes, PersonalIdentities(routes), source.sha);
    var bindings := Replies(routes, source.sha);
    var revised, stocked := Restock(db, routes, source, now);
    SameHomes(db, revised, routes, routes);
    BindableIsReady(revised, routes, source.sha, now, stocked);
    RepliesSafe(stocked, routes, source.sha, now);
    RunAppend(db, stock, bindings, now);
    SafeAppend(db, stock, bindings, now);
  }

  /** On aligned tables a projection whose bindings pass the guard never stops, every row that a
      statement names exists at that prefix, and the tables stay aligned. */
  lemma ProjectionProgress(db: Db, routes: seq<Projected>, source: Source, digest: seq<Stmt> -> string, now: Time)
    requires Aligned(db) && WellFormed(routes) && Keyed(source) && Bindable(db, routes, routes)
    ensures var p := Program(routes, source, digest);
      && Run(db, p, now).Ok? && Aligned(Run(db, p, now).value)
      && (forall k: nat :: k <= |p| ==> Run(db, p[..k], now).Ok? && Sound(Run(db, p[..k], now).value))
      && (forall k: nat :: k < |p| ==> Resolved(Run(db, p[..k], now).value, p[k]))
  {
    hide Run, Safe, WellFormed, Body, Closing, Resolved, Sound, Bindable, Keyed,
      DomainIds, IdentityIds, OperatorIdsFollow, RouteIds, RevisionKeys;
    var body := Body(routes, source);
    var last := Closing(source, digest(body));
    BodySafe(db, routes, source, now);
    ClosingSafe(Run(db, body, now).value, source, digest(body), now);
    RunAppend(db, body, last, now);
    SafeAppend(db, body, last, now);
    var p := Program(routes, source, digest);
    forall k: nat | k <= |p|
      ensures Run(db, p[..k], now).Ok? && Sound(Run(db, p[..k], now).value)
      ensures k < |p| ==> Resolved(Run(db, p[..k], now).value, p[k])
    {
      SafePrefix(db, p, k, now);
      RunSound(db, p, k, now);
    }
  }

  /** On aligned tables, nothing but a reply identity away from home, or one that is not the
      operator's own where it has to be, can stop a projection. */
  lemma RunsExactlyWhen(db: Db, routes: seq<Projected>, source: Source, digest: seq<Stmt> -> string, now: Time)
    requires Aligned(db) && WellFormed(routes) && Keyed(source)
    ensures Run(db, Program(routes, source, digest), now).Ok? <==> Bindable(db, routes, routes)
  {
    hide Run, WellFormed, Opening, Blocks, Replies, Closing, PersonalIdentities, Bindable, Keyed, Stocked, Aligned;
    if Bindable(db, routes, routes) {
      ProjectionProgress(db, routes, source, digest, now);
    } else if Run(db, Program(routes, source, digest), now).Ok? {
      var revised, stocked := Restock(db, routes, source, now);
      var stock := Opening(routes, source) + Blocks(routes, PersonalIdentities(routes), source.sha);
      RunAppend(db, Body(routes, source), Closing(source, digest(Body(routes, source))), now);
      RunAppend(db, stock, Replies(routes, source.sha), now);
      GuardedIsBindable(revised, routes, source.sha, now, stocked);
      SameHomes(db, revised, routes, routes);
    }
  }

  // ----- whole histories -----

  datatype Projection = Projection(routes: seq<Projected>, source: Source, now: Time)

  /** What happens to the tables: a projection installs a policy, or a delivery to a route writes its first statements. */
  datatype Step = Install(projection: Projection) | Receive(route: Projected, written: nat, at: Time)

  /** What the router and the projection's caller hand over. */
  ghost predicate Formed(s: Step) {
    s.Install? ==> WellFormed(s.projection.routes) && Keyed(s.projection.source)
  }

  function Take(db: Db, s: Step, digest: seq<Stmt> -> string): Result<Db> {
    match s
    case Install(p) => Run(db, Program(p.routes, p.source, digest), p.now)
    case Receive(r, written, at) => Run(db, Written(r, written), at)
  }

  function Play(db: Db, steps: seq<Step>, digest: seq<Stmt> -> string): Result<Db>
    decreases |steps|
  {
    if steps == [] then Ok(db)
    else
      var next := Take(db, steps[0], digest);
      if next.Err? then next else Play(next.value, steps[1..], digest)
  }

  function Users(s: Step): seq<Projected> {
    match s
    case Install(p) => p.routes
    case Receive(r, written, _) => UsersOf(r, written)
  }

  /** All routes that wrote the identity they reply from, in order. */
  function Routed(steps: seq<Step>): seq<Projected> {
    if steps == [] then [] else Users(steps[0]) + Routed(steps[1..])
  }

  /** Each projection's bindings are at home, the homes being those of the tables and then of the
      first user in the whole history so far. */
  ghost predicate HistoryBinds(db: Db, steps: seq<Step>) {
    forall n :: 0 <= n < |steps| && steps[n].Install? ==> Bindable(db, Routed(steps[..n + 1]), steps[n].projection.routes)
  }

  lemma {:induction false} FirstUserAppend(a: seq<Projected>, b: seq<Projected>, id: Id)
    ensures FirstUser(a + b, id) == if FirstUser(a, id).Some? then FirstUser(a, id) else FirstUser(b, id)
    decreases |a|
  {
    hide IdentityId, DomainId;
    if a == [] {
      assert a + b == b;
    } else {
      assert (a + b)[1..] == a[1..] + b;
      FirstUserAppend(a[1..], b, id);
    }
  }

  /** After a projection every identity is at home where the tables, or else its first user, put it. */
  lemma ProjectionHomes(db: Db, p: Projection, digest: seq<Stmt> -> string, used: seq<Projected>, id: Id)
    requires Formed(Install(p)) && Run(db, Program(p.routes, p.source, digest), p.now).Ok?
    ensures HomeOf(Run(db, Program(p.routes, p.source, digest), p.now).value, used, id) == HomeOf(db, p.routes + used, id)
  {
    hide Run, WellFormed, Body, Closing, Closed, RoutesSettled, HealthSettled, MembersSettled, RepliesCleared, OperatorsSettled,
      RepliesBound, IdentitySet, PersonalIdentities, Entries, IdentityId, DomainId, FirstUser;
    var next := Run(db, Program(p.routes, p.source, digest), p.now).value;
    var o, s, b := Staged(db, p.routes, p.source, digest(Body(p.routes, p.source)), p.now);
    assert next.identities == s.identities && o.identities == db.identities;
    FirstUserAppend(p.routes, used, id);
    FirstUserIsUser(p.routes, id);
  }

  /** Neither projections nor deliveries ever move an identity from its home. */
  lemma HomesAfter(db: Db, s: Step, digest: seq<Stmt> -> string, used: seq<Projected>, id: Id)
    requires Aligned(db) && Formed(s) && Take(db, s, digest).Ok?
    ensures HomeOf(Take(db, s, digest).value, used, id) == HomeOf(db, Users(s) + used, id)
  {
    hide Run, Program, Written, UsersOf, Aligned, Formed, HomeOf;
    if s.Install? {
      ProjectionHomes(db, s.projection, digest, used, id);
    } else {
      DeliveryHomes(db, s.route, s.written, s.at, used, id);
    }
  }

  lemma BindableAfter(db: Db, s: Step, digest: seq<Stmt> -> string, used: seq<Projected>, routes: seq<Projected>)
    requires Aligned(db) && Formed(s) && Take(db, s, digest).Ok?
    ensures Bindable(Take(db, s, digest).value, used, routes) <==> Bindable(db, Users(s) + used, routes)
  {
    hide Take, Formed, HomeOf, Binds, IdentityId, ReplyAddress, Users, Aligned;
    var next := Take(db, s, digest).value;
    forall id ensures HomeOf(next, used, id) == HomeOf(db, Users(s) + used, id) {
      HomesAfter(db, s, digest, used, id);
    }
  }

  lemma HistoryStep(db: Db, steps: seq<Step>, digest: seq<Stmt> -> string)
    requires steps != [] && Aligned(db) && Formed(steps[0]) && Take(db, steps[0], digest).Ok?
    requires steps[0].Install? ==> Bindable(db, steps[0].projection.routes, steps[0].projection.routes)
    ensures HistoryBinds(db, steps) <==> HistoryBinds(Take(db, steps[0], digest).value, steps[1..])
  {
    hide Take, Formed, Bindable, Users, Aligned;
    var next, rest := Take(db, steps[0], digest).value, steps[1..];
    RoutedOne(steps);
    forall n | 0 <= n < |rest| && rest[n].Install?
      ensures Bindable(next, Routed(rest[..n + 1]), rest[n].projection.routes)
              <==> Bindable(db, Routed(steps[..n + 2]), steps[n + 1].projection.routes)
    {
      assert steps[..n + 2][1..] == rest[..n + 1];
      BindableAfter(db, steps[0], digest, Routed(rest[..n + 1]), rest[n].projection.routes);
    }
    assert steps[0].Install? ==> Users(steps[0]) == steps[0].projection.routes by { InstallUsers(steps[0]); }
    assert forall n :: 0 < n < |steps| ==> 0 <= n - 1 < |rest| && steps[n] == rest[n - 1];
  }

  lemma InstallUsers(s: Step)
    ensures s.Install? ==> Users(s) == s.projection.routes
  {
  }

  lemma RoutedOne(steps: seq<Step>)
    requires steps != []
    ensures Routed(steps[..1]) == Users(steps[0])
  {
    hide Users;
    assert steps[..1][1..] == [];
    assert Users(steps[0]) + [] == Users(steps[0]);
  }

  lemma Installed(db: Db, p: Projection, digest: seq<Stmt> -> string)
    requires Aligned(db) && Formed(Install(p)) && Bindable(db, p.routes, p.routes)
    ensures var next := Run(db, Program(p.routes, p.source, digest), p.now);
      && next.Ok? && Aligned(next.value)
      && OneActive(next.value, p.source) && ExactlyEnabled(next.value, p.routes, p.source.sha)
  {
    hide Aligned, Run, Program, OneActive, ExactlyEnabled, WellFormed, Keyed, Body, Bindable;
    ProjectionProgress(db, p.routes, p.source, digest, p.now);
    ProjectionOutcome(db, p.routes, p.source, digest, p.now);
  }

  /** A step goes through unless it is a projection with a binding away from home. */
  lemma StepRuns(db: Db, s: Step, digest: seq<Stmt> -> string)
    requires Aligned(db) && Formed(s)
    ensures Take(db, s, digest).Ok? <==> s.Receive? || Bindable(db, s.projection.routes, s.projection.routes)
    ensures Take(db, s, digest).Ok? ==>
      var next := Take(db, s, digest).value;
      && Aligned(next)
      && (s.Install? ==> OneActive(next, s.projection.source)
                         && ExactlyEnabled(next, s.projection.routes, s.projection.source.sha))
      && (s.Receive? ==> next.revisions == db.revisions)
  {
    hide Aligned, Run, Program, Written, OneActive, ExactlyEnabled, WellFormed, Keyed, Bindable;
    if s.Install? {
      var p := s.projection;
      RunsExactlyWhen(db, p.routes, p.source, digest, p.now);
      if Bindable(db, p.routes, p.routes) {
        Installed(db, p, digest);
      }
    } else {
      DeliveryKeeps(db, s.route, s.written, s.at);
    }
  }

  /** The policy installed last in a history. */
  function LastSource(steps: seq<Step>): Option<Source>
    decreases |steps|
  {
    if steps == [] then None
    else
      var s := steps[|steps| - 1];
      if s.Install? then Some(s.projection.source) else LastSource(steps[..|steps| - 1])
  }

  lemma {:induction false} LastSourceCons(steps: seq<Step>)
    requires steps != []
    ensures LastSource(steps) ==
            if LastSource(steps[1..]).Some? then LastSource(steps[1..])
            else if steps[0].Install? then Some(steps[0].projection.source) else None
    decreases |steps|
  {
    if |steps| > 1 {
      var front, rest := steps[..|steps| - 1], steps[1..];
      assert rest[|rest| - 1] == steps[|steps| - 1] && rest[..|rest| - 1] == front[1..] && front[0] == steps[0];
      LastSourceCons(front);
    } else {
      assert steps[1..] == [] && steps[..0] == [];
    }
  }

  lemma SameActive(db: Db, next: Db, source: Source)
    requires next.revisions == db.revisions && OneActive(db, source)
    ensures OneActive(next, source)
  {
  }

  /** A history of projections and deliveries runs to its end exactly when every binding in it is at home, the same
      projection twice included. The policy installed last is then the active one, and in force where the history ends
      with it. */
  lemma {:induction false} EveryHistory(db: Db, steps: seq<Step>, digest: seq<Stmt> -> string)
    requires Aligned(db) && forall i :: 0 <= i < |steps| ==> Formed(steps[i])
    ensures Play(db, steps, digest).Ok? <==> HistoryBinds(db, steps)
    ensures Play(db, steps, digest).Ok? ==>
      var final := Play(db, steps, digest).value;
      && Aligned(final)
      && (LastSource(steps).Some? ==> OneActive(final, LastSource(steps).value))
      && (LastSource(steps).None? ==> final.revisions == db.revisions)
      && (steps != [] && steps[|steps| - 1].Install? ==>
            var last := steps[|steps| - 1].projection; ExactlyEnabled(final, last.routes, last.source.sha))
    decreases |steps|
  {
    hide Aligned, Take, OneActive, ExactlyEnabled, Formed, Bindable, HistoryBinds, LastSource;
    if steps == [] {
      NothingPlayed(db);
    } else {
      var s := steps[0];
      StepRuns(db, s, digest);
      LastSourceCons(steps);
      if s.Receive? || Bindable(db, s.projection.routes, s.projection.routes) {
        var next := Take(db, s, digest).value;
        HistoryStep(db, steps, digest);
        EveryHistory(next, steps[1..], digest);
        assert |steps| > 1 ==> steps[1..][|steps[1..]| - 1] == steps[|steps| - 1];
        if s.Install? && Play(db, steps, digest).Ok? && LastSource(steps[1..]).None? {
          SameActive(next, Play(db, steps, digest).value, s.projection.source);
        }
      } else {
        FirstStops(db, steps);
      }
    }
  }

  lemma NothingPlayed(db: Db)
    ensures HistoryBinds(db, []) && LastSource([]).None?
  {
  }

  lemma FirstStops(db: Db, steps: seq<Step>)
    requires steps != [] && steps[0].Install?
    requires !Bindable(db, steps[0].projection.routes, steps[0].projection.routes)
    ensures !HistoryBinds(db, steps)
  {
    hide Bindable;
    RoutedOne(steps);
    assert !Bindable(db, Routed(steps[..0 + 1]), steps[0].projection.routes);
  }

  // ----- from empty tables -----

  const EMPTY := Db(map[], map[], map[], map[], map[], {}, map[], map[], None, map[])

  lemma EmptyAligned()
    ensures Aligned(EMPTY)
  {
  }

  /** No two routes of different domains ever reply from one identity. */
  ghost predicate OneHome(routes: seq<Projected>) {
    forall i, j :: 0 <= i < |routes| && 0 <= j < |routes|
                   && IdentityId(routes[i].replyIdentity) == IdentityId(routes[j].replyIdentity) ==>
      routes[i].domain == routes[j].domain
  }

  /** Routes that name an identity for each operator name the operator's own. */
  ghost predicate OwnReplies(routes: seq<Projected>) {
    forall i, k :: 0 <= i < |routes| && 0 <= k < |routes[i].operators| && routes[i].operatorReplies.Some? ==>
      PersonalReply(routes, routes[i], routes[i].operators[k])
  }

  lemma {:induction false} FirstUserAmong(used: seq<Projected>, x: Projected)
    requires x in used
    ensures exists i :: 0 <= i < |used| && IdentityId(used[i].replyIdentity) == IdentityId(x.replyIdentity)
                        && FirstUser(used, IdentityId(x.replyIdentity)) == Some(DomainId(used[i].domain))
    decreases |used|
  {
    hide IdentityId, DomainId;
    if IdentityId(used[0].replyIdentity) != IdentityId(x.replyIdentity) {
      FirstUserAmong(used[1..], x);
      var i :| 0 <= i < |used[1..]| && IdentityId(used[1..][i].replyIdentity) == IdentityId(x.replyIdentity)
               && FirstUser(used[1..], IdentityId(x.replyIdentity)) == Some(DomainId(used[1..][i].domain));
      assert used[i + 1] == used[1..][i];
    }
  }

  lemma HomeOfUser(used: seq<Projected>, x: Projected)
    requires OneHome(used) && x in used
    ensures FirstUser(used, IdentityId(x.replyIdentity)) == Some(DomainId(x.domain))
  {
    hide IdentityId, DomainId, FirstUser;
    FirstUserAmong(used, x);
    var i :| 0 <= i < |used| && IdentityId(used[i].replyIdentity) == IdentityId(x.replyIdentity)
             && FirstUser(used, IdentityId(x.replyIdentity)) == Some(DomainId(used[i].domain));
    var j :| 0 <= j < |used| && used[j] == x;
    assert used[i].domain == used[j].domain;
  }

  lemma {:induction false} RoutedPrefix(steps: seq<Step>, n: nat)
    requires n < |steps|
    ensures Routed(steps[..n + 1]) <= Routed(steps)
    ensures forall r :: r in Users(steps[n]) ==> r in Routed(steps[..n + 1])
    decreases n
  {
    hide Users;
    if n == 0 {
      RoutedOne(steps);
    } else {
      assert steps[..n + 1][1..] == steps[1..][..n];
      assert steps[1..][n - 1] == steps[n];
      RoutedPrefix(steps[1..], n - 1);
    }
  }

  lemma OneHomePrefix(all: seq<Projected>, used: seq<Projected>)
    requires OneHome(all) && used <= all
    ensures OneHome(used)
  {
    hide IdentityId;
    assert forall i :: 0 <= i < |used| ==> used[i] == all[i];
  }

  lemma AtHome(used: seq<Projected>, routes: seq<Projected>)
    requires OneHome(used) && OwnReplies(routes) && forall r :: r in routes ==> r in used
    ensures Bindable(EMPTY, used, routes)
  {
    hide IdentityId, DomainId, FirstUser, OneHome, BeforeAt;
    forall i, k | 0 <= i < |routes| && 0 <= k < |routes[i].operators|
      ensures Binds(HomeOf(EMPTY, used, IdentityId(ReplyAddress(routes[i], routes[i].operators[k]))),
                    routes, routes[i], routes[i].operators[k])
    {
      var r, o := routes[i], routes[i].operators[k];
      if r.operatorReplies.Some? {
        var j :| 0 <= j < |routes| && OwnName(routes[j], r, o);
        HomeOfUser(used, routes[j]);
      } else {
        HomeOfUser(used, r);
      }
    }
  }

  /** From empty tables, every history in which no identity serves two domains runs to its end, the
      same projection twice included, and the policy installed last is the active one. */
  lemma EveryHistoryFromEmpty(steps: seq<Step>, digest: seq<Stmt> -> string)
    requires forall i :: 0 <= i < |steps| ==>
               Formed(steps[i]) && (steps[i].Install? ==> OwnReplies(steps[i].projection.routes))
    requires OneHome(Routed(steps))
    ensures Play(EMPTY, steps, digest).Ok? && Aligned(Play(EMPTY, steps, digest).value)
    ensures LastSource(steps).Some? ==> OneActive(Play(EMPTY, steps, digest).value, LastSource(steps).value)
  {
    hide Aligned, Play, OneActive, ExactlyEnabled, Formed, Bindable, OwnReplies, Routed, OneHome, LastSource;
    EmptyAligned();
    forall n | 0 <= n < |steps| && steps[n].Install?
      ensures Bindable(EMPTY, Routed(steps[..n + 1]), steps[n].projection.routes)
    {
      RoutedPrefix(steps, n);
      OneHomePrefix(Routed(steps), Routed(steps[..n + 1]));
      InstallUsers(steps[n]);
      AtHome(Routed(steps[..n + 1]), steps[n].projection.routes);
    }
    EveryHistory(EMPTY, steps, digest);
  }

  // ----- inputs that the guard stops -----

  lemma PlainText(s: string)
    requires forall i :: 0 <= i < |s| ==> !Texts.Blank(s[i]) && Texts.LowerChar(s[i]) == s[i]
    ensures Plain(s)
  {
    assert Texts.TrimStart(s) == s && Texts.TrimEnd(s) == s;
  }

  function InfoRoute(domain: string): Projected {
    Projected(domain, "info", RoleAlias, Role, CloudflareRouting, ["ann@c.example"], "info@a.example", None,
              LocalPolicyValid)
  }

  function QuietRoute(domain: string): Projected {
    Projected(domain, "void", Sink, Role, CloudflareRouting, [], "info@a.example", None, IntentionallyExcluded)
  }

  lemma WordsPlain()
    ensures forall s :: s in {"a.example", "b.example", "info", "void", "info@a.example", "ann@c.example"} ==> Plain(s)
  {
    hide Plain;
    forall s | s in {"a.example", "b.example", "info", "void", "info@a.example", "ann@c.example"} ensures Plain(s) {
      PlainText(s);
    }
  }

  lemma ExamplesFormed()
    ensures WellFormed([InfoRoute("a.example"), InfoRoute("b.example")])
    ensures WellFormed([InfoRoute("a.example")]) && WellFormed([QuietRoute("b.example")])
    ensures DomainId("a.example") != DomainId("b.example")
  {
    hide Plain, DomainId;
    WordsPlain();
    if DomainId("a.example") == DomainId("b.example") {
      DomainIdsDiffer("a.example", "b.example");
    }
  }

  /** Two domains that reply from one identity: the one projected second stops the projection. */
  lemma CrossDomainStops(source: Source, digest: seq<Stmt> -> string, now: Time)
    requires Keyed(source)
    ensures Run(EMPTY, Program([InfoRoute("a.example")], source, digest), now).Ok?
    ensures Run(EMPTY, Program([InfoRoute("a.example"), InfoRoute("b.example")], source, digest), now).Err?
  {
    hide Run, Program, WellFormed, Keyed, IdentityId, DomainId, Aligned;
    var a, b := InfoRoute("a.example"), InfoRoute("b.example");
    EmptyAligned();
    ExamplesFormed();
    RunsExactlyWhen(EMPTY, [a], source, digest, now);
    RunsExactlyWhen(EMPTY, [a, b], source, digest, now);
    assert !Binds(HomeOf(EMPTY, [a, b], IdentityId(ReplyAddress([a, b][1], [a, b][1].operators[0]))), [a, b], [a, b][1],
                  [a, b][1].operators[0]);
  }

  /** A route of another domain, projected before and binding nobody, or met by a delivery that wrote no more than two
      statements, gives the identity its home; a later projection that uses it in its own domain stops. */
  lemma EarlierHomeStops(earlier: Step, source: Source, digest: seq<Stmt> -> string, now: Time)
    requires Keyed(source) && Formed(earlier) && Users(earlier) == [QuietRoute("b.example")]
    ensures Play(EMPTY, [earlier], digest).Ok?
    ensures Play(EMPTY, [earlier, Install(Projection([InfoRoute("a.example")], source, now))], digest).Err?
  {
    hide Play, Keyed, Aligned, HistoryBinds, InfoRoute, QuietRoute, WellFormed, Users;
    var later := Install(Projection([InfoRoute("a.example")], source, now));
    EmptyAligned();
    ExamplesFormed();
    EveryHistory(EMPTY, [earlier], digest);
    EveryHistory(EMPTY, [earlier, later], digest);
    QuietBinds(earlier);
    InfoFollowsQuiet(earlier, later);
  }

  lemma EarlierHomes(source: Source, now: Time)
    requires Keyed(source)
    ensures var quiet := QuietRoute("b.example");
      && Formed(Install(Projection([quiet], source, now))) && Users(Install(Projection([quiet], source, now))) == [quiet]
      && Formed(Receive(quiet, 2, now)) && Users(Receive(quiet, 2, now)) == [quiet]
  {
    hide WellFormed, Keyed, QuietRoute;
    ExamplesFormed();
  }

  lemma QuietBinds(earlier: Step)
    requires Users(earlier) == [QuietRoute("b.example")]
    ensures HistoryBinds(EMPTY, [earlier])
  {
    hide Routed, HomeOf, Binds;
  }

  lemma InfoFollowsQuiet(earlier: Step, later: Step)
    requires Users(earlier) == [QuietRoute("b.example")]
    requires later.Install? && later.projection.routes == [InfoRoute("a.example")]
    ensures !HistoryBinds(EMPTY, [earlier, later])
  {
    hide IdentityId, DomainId, Users;
    ExamplesFormed();
    InstallUsers(later);
    var steps, routes := [earlier, later], later.projection.routes;
    assert steps[..1 + 1] == steps && steps[1..] == [later] && steps[1..][1..] == [];
    var used := Users(earlier) + (routes + []);
    assert Routed(steps[1..]) == routes + [];
    assert Routed(steps) == used;
    var r := routes[0];
    assert !Binds(HomeOf(EMPTY, used, IdentityId(ReplyAddress(r, r.operators[0]))), routes, r, r.operators[0]);
    assert !Bindable(EMPTY, Routed(steps[..1 + 1]), steps[1].projection.routes);
  }
}
