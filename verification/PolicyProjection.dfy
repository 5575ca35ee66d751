/** The program of statements that installs a routing policy, and what running it does. */
module PolicyProjection {
  import opened Results
  import opened PolicyTables
  import StableIds
  import Texts

  datatype Projected = Projected(
    domain: string,
    localPart: string,
    decision: Decision,
    storage: Storage,
    provider: Provider,
    operators: seq<string>,
    replyIdentity: string,
    operatorReplies: Option<map<string, string>>,
    initial: Status)

  /** What identifies one projection: the policy, where it is stored, and the desired state. */
  datatype Source = Source(sha: string, r2Key: string, desiredState: string)

  function ProjectRoute(domain: string, localPart: string, decision: Decision, storage: Storage, provider: Provider,
                        operators: seq<string>, replyIdentity: string): (r: Result<Projected>)
    ensures r.Err? <==> decision != Sink && operators == []
    ensures r.Ok? ==>
      && (r.value.initial == IntentionallyExcluded <==> decision == Sink || provider == Excluded)
      && (r.value.initial == LocalPolicyValid <==> decision != Sink && provider == CloudflareRouting)
      && r.value.initial in {IntentionallyExcluded, LocalPolicyValid, Declared}
      && r.value.domain == domain && r.value.localPart == localPart && r.value.decision == decision
      && r.value.storage == storage && r.value.provider == provider && r.value.operators == operators
      && r.value.replyIdentity == replyIdentity && r.value.operatorReplies == None
  {
    if decision != Sink && operators == [] then Err("no operator destination")
    else
      var initial :=
        if decision == Sink || provider == Excluded then IntentionallyExcluded
        else if provider == CloudflareRouting then LocalPolicyValid
        else Declared;
      Ok(Projected(domain, localPart, decision, storage, provider, operators, replyIdentity, None, initial))
  }

  // ----- identifiers -----

  function DomainId(domain: string): Id {
    StableIds.StableId("domain", [domain])
  }

  function IdentityId(address: string): Id {
    StableIds.StableId("identity", [address])
  }

  function OperatorId(email: string): Id {
    StableIds.StableId("operator", [email])
  }

  function RouteId(domain: string, localPart: string): Id {
    StableIds.StableId("route", [domain, localPart])
  }

  /** Each identifier is the word for its kind and the encoded normal spellings it is made of. */
  lemma IdsAre(domain: string, localPart: string, address: string, operator: string)
    ensures DomainId(domain) == "domain:" + StableIds.Encode(Texts.Normal(domain))
    ensures IdentityId(address) == "identity:" + StableIds.Encode(Texts.Normal(address))
    ensures OperatorId(operator) == "operator:" + StableIds.Encode(Texts.Normal(operator))
    ensures RouteId(domain, localPart) ==
            "route:" + StableIds.Encode(Texts.Normal(domain)) + ":" + StableIds.Encode(Texts.Normal(localPart))
  {
    hide Texts.Normal, StableIds.Encode;
    StableIds.PartsOf(domain, localPart);
    StableIds.PartsOf(address, "");
    StableIds.PartsOf(operator, "");
  }

  function IdOf(r: Projected): Id {
    RouteId(r.domain, r.localPart)
  }

  predicate Plain(s: string) {
    Texts.Normal(s) == s
  }

  lemma IdsDiffer(x: string, y: string)
    requires Plain(x) && Plain(y)
    ensures IdentityId(x) == IdentityId(y) ==> x == y
    ensures OperatorId(x) == OperatorId(y) ==> x == y
  {
    hide StableIds.StableId, Texts.Normal;
    StableIds.StableIdInjective("identity", [x], "identity", [y]);
    StableIds.StableIdInjective("operator", [x], "operator", [y]);
    assert StableIds.SameParts([x], [y]) ==> Texts.Normal([x][0]) == Texts.Normal([y][0]);
  }

  lemma RouteIdsDiffer(d: string, l: string, e: string, m: string)
    requires Plain(d) && Plain(l) && Plain(e) && Plain(m)
    ensures RouteId(d, l) == RouteId(e, m) ==> d == e && l == m
  {
    hide StableIds.StableId, Texts.Normal;
    StableIds.StableIdInjective("route", [d, l], "route", [e, m]);
    var xs, ys := [d, l], [e, m];
    assert StableIds.SameParts(xs, ys) ==>
      Texts.Normal(xs[0]) == Texts.Normal(ys[0]) && Texts.Normal(xs[1]) == Texts.Normal(ys[1]);
  }

  /** Domains with one identifier give their routes one identifier. */
  lemma RouteIdOfAlias(d: string, e: string, l: string)
    requires DomainId(d) == DomainId(e)
    ensures RouteId(d, l) == RouteId(e, l)
  {
    hide StableIds.StableId, Texts.Normal;
    StableIds.StableIdInjective("domain", [d], "domain", [e]);
    assert Texts.Normal([d][0]) == Texts.Normal([e][0]);
    var xs, ys := [d, l], [e, l];
    assert StableIds.SameParts(xs, ys);
    StableIds.StableIdInjective("route", xs, "route", ys);
  }

  // ----- the program -----

  function PersonalIdentities(routes: seq<Projected>): (personal: set<string>) {
    set i | 0 <= i < |routes| && routes[i].storage == Personal :: routes[i].replyIdentity
  }

  function KindOf(personal: set<string>, address: string): Storage {
    if address in personal then Personal else Role
  }

  function DeclarationOf(r: Projected, sha: string): Declaration {
    Declaration(r.localPart + "@" + r.domain, r.decision, r.provider, |r.operators|, r.replyIdentity, Some(sha))
  }

  function OperatorStmts(id: Id, operators: seq<string>): seq<Stmt> {
    if operators == [] then []
    else [UpsertOperator(OperatorId(operators[0]), operators[0]), InsertMember(id, OperatorId(operators[0]))]
         + OperatorStmts(id, operators[1..])
  }

  function RouteHead(r: Projected, personal: set<string>, sha: string): seq<Stmt> {
    [InsertDomain(DomainId(r.domain), r.domain),
     UpsertIdentity(IdentityId(r.replyIdentity),
                    Identity(DomainId(r.domain), r.replyIdentity, KindOf(personal, r.replyIdentity))),
     UpsertRoute(IdOf(r), DomainId(r.domain), r.localPart, r.storage, IdentityId(r.replyIdentity), r.decision, sha),
     ClearMembers(IdOf(r))]
  }

  function RouteBlock(r: Projected, personal: set<string>, sha: string): seq<Stmt> {
    RouteHead(r, personal, sha) + OperatorStmts(IdOf(r), r.operators)
    + [UpsertHealth(IdOf(r), DeclarationOf(r, sha), r.initial)]
  }

  function Blocks(routes: seq<Projected>, personal: set<string>, sha: string): seq<Stmt> {
    if routes == [] then [] else RouteBlock(routes[0], personal, sha) + Blocks(routes[1..], personal, sha)
  }

  function ReplyAddress(r: Projected, operator: string): string {
    if r.operatorReplies.Some? && operator in r.operatorReplies.value then r.operatorReplies.value[operator]
    else r.replyIdentity
  }

  function BindingOf(r: Projected, operator: string, sha: string): Binding {
    Binding(IdentityId(ReplyAddress(r, operator)), sha, if r.operatorReplies.Some? then PersonalFirst else RoleFirst)
  }

  function ReplyStmts(r: Projected, operators: seq<string>, sha: string): seq<Stmt> {
    if operators == [] then []
    else [InsertReply(IdOf(r), OperatorId(operators[0]), BindingOf(r, operators[0], sha))]
         + ReplyStmts(r, operators[1..], sha)
  }

  function Replies(routes: seq<Projected>, sha: string): seq<Stmt> {
    if routes == [] then [] else ReplyStmts(routes[0], routes[0].operators, sha) + Replies(routes[1..], sha)
  }

  predicate MembersAgree(r: Projected) {
    r.operatorReplies.Some? ==> multiset(r.operatorReplies.value.Keys) == multiset(r.operators)
  }

  function Opening(routes: seq<Projected>, source: Source): seq<Stmt> {
    [UpsertRevision(source.sha, source.r2Key, |set i | 0 <= i < |routes| :: routes[i].domain|, |routes|), DisableRoutes]
  }

  function Body(routes: seq<Projected>, source: Source): seq<Stmt> {
    Opening(routes, source) + Blocks(routes, PersonalIdentities(routes), source.sha) + Replies(routes, source.sha)
  }

  function Entries(source: Source, projectionSha: string): map<string, string> {
    map["active_policy_sha256" := source.sha,
        "active_desired_state_sha256" := source.desiredState,
        "active_projection_sha256" := projectionSha]
  }

  function Closing(source: Source, projectionSha: string): seq<Stmt> {
    [SupersedeOthers(source.sha), ActivateRevision(source.sha), UpsertRuntime(source.sha, source.r2Key),
     UpsertState(Entries(source, projectionSha))]
  }

  function Program(routes: seq<Projected>, source: Source, digest: seq<Stmt> -> string): seq<Stmt> {
    Body(routes, source) + Closing(source, digest(Body(routes, source)))
  }

  // ----- the emitting loops -----

  lemma BlocksSnoc(routes: seq<Projected>, r: Projected, personal: set<string>, sha: string)
    ensures Blocks(routes + [r], personal, sha) == Blocks(routes, personal, sha) + RouteBlock(r, personal, sha)
  {
    hide RouteBlock;
    if routes == [] {
      assert routes + [r] == [r];
    } else {
      BlocksSnoc(routes[1..], r, personal, sha);
      assert (routes + [r])[1..] == routes[1..] + [r];
    }
  }

  lemma OperatorsSnoc(id: Id, operators: seq<string>, o: string)
    ensures OperatorStmts(id, operators + [o]) ==
            OperatorStmts(id, operators) + [UpsertOperator(OperatorId(o), o), InsertMember(id, OperatorId(o))]
  {
    hide OperatorId;
    if operators == [] {
      assert operators + [o] == [o];
    } else {
      OperatorsSnoc(id, operators[1..], o);
      assert (operators + [o])[1..] == operators[1..] + [o];
    }
  }

  lemma ReplyStmtsSnoc(r: Projected, operators: seq<string>, o: string, sha: string)
    ensures ReplyStmts(r, operators + [o], sha) ==
            ReplyStmts(r, operators, sha) + [InsertReply(IdOf(r), OperatorId(o), BindingOf(r, o, sha))]
  {
    hide OperatorId, BindingOf, IdOf;
    if operators == [] {
      assert operators + [o] == [o];
    } else {
      ReplyStmtsSnoc(r, operators[1..], o, sha);
      assert (operators + [o])[1..] == operators[1..] + [o];
    }
  }

  lemma RepliesSnoc(routes: seq<Projected>, r: Projected, sha: string)
    ensures Replies(routes + [r], sha) == Replies(routes, sha) + ReplyStmts(r, r.operators, sha)
  {
    hide ReplyStmts;
    if routes == [] {
      assert routes + [r] == [r];
    } else {
      RepliesSnoc(routes[1..], r, sha);
      assert (routes + [r])[1..] == routes[1..] + [r];
    }
  }

  method EmitRoute(r: Projected, personal: set<string>, sha: string) returns (statements: seq<Stmt>)
    ensures statements == RouteBlock(r, personal, sha)
  {
    var id := IdOf(r);
    statements := RouteHead(r, personal, sha);
    for i := 0 to |r.operators|
      invariant statements == RouteHead(r, personal, sha) + OperatorStmts(id, r.operators[..i])
    {
      var operatorId := OperatorId(r.operators[i]);
      OperatorsSnoc(id, r.operators[..i], r.operators[i]);
      assert r.operators[..i + 1] == r.operators[..i] + [r.operators[i]];
      statements := statements + [UpsertOperator(operatorId, r.operators[i]), InsertMember(id, operatorId)];
    }
    assert r.operators[..|r.operators|] == r.operators;
    statements := statements + [UpsertHealth(id, DeclarationOf(r, sha), r.initial)];
  }

  method EmitReplies(r: Projected, sha: string) returns (statements: seq<Stmt>)
    ensures statements == ReplyStmts(r, r.operators, sha)
  {
    statements := [];
    for i := 0 to |r.operators|
      invariant statements == ReplyStmts(r, r.operators[..i], sha)
    {
      ReplyStmtsSnoc(r, r.operators[..i], r.operators[i], sha);
      assert r.operators[..i + 1] == r.operators[..i] + [r.operators[i]];
      statements := statements + [InsertReply(IdOf(r), OperatorId(r.operators[i]), BindingOf(r, r.operators[i], sha))];
    }
    assert r.operators[..|r.operators|] == r.operators;
  }

  method EmitBlocks(routes: seq<Projected>, sha: string) returns (statements: seq<Stmt>)
    ensures statements == Blocks(routes, PersonalIdentities(routes), sha)
  {
    hide RouteBlock, PersonalIdentities;
    var personal := PersonalIdentities(routes);
    statements := [];
    for i := 0 to |routes|
      invariant statements == Blocks(routes[..i], personal, sha)
    {
      BlocksSnoc(routes[..i], routes[i], personal, sha);
      assert routes[..i + 1] == routes[..i] + [routes[i]];
      var block := EmitRoute(routes[i], personal, sha);
      statements := statements + block;
    }
    assert routes[..|routes|] == routes;
  }

  /** Bindings come after all routes and memberships, and only where bindings and operators agree. */
  method EmitBindings(routes: seq<Projected>, sha: string) returns (r: Result<seq<Stmt>>)
    ensures r.Ok? <==> forall i :: 0 <= i < |routes| ==> MembersAgree(routes[i])
    ensures r.Ok? ==> r.value == Replies(routes, sha)
  {
    hide MembersAgree, ReplyStmts;
    var statements: seq<Stmt> := [];
    for i := 0 to |routes|
      invariant statements == Replies(routes[..i], sha)
      invariant forall j :: 0 <= j < i ==> MembersAgree(routes[j])
    {
      if !MembersAgree(routes[i]) {
        return Err("operator reply identity membership differs");
      }
      RepliesSnoc(routes[..i], routes[i], sha);
      assert routes[..i + 1] == routes[..i] + [routes[i]];
      var block := EmitReplies(routes[i], sha);
      statements := statements + block;
    }
    assert routes[..|routes|] == routes;
    return Ok(statements);
  }

  /** A list that names every member of a set once. */
  ghost predicate EachOnce(s: seq<string>, members: set<string>) {
    (forall x :: x in s <==> x in members) && forall i, j :: 0 <= i < j < |s| ==> s[i] != s[j]
  }

  lemma AgreeExactly(r: Projected)
    ensures MembersAgree(r) <==>
            (r.operatorReplies.Some? ==> EachOnce(r.operators, r.operatorReplies.value.Keys))
  {
    if r.operatorReplies.Some? {
      var keys, s := r.operatorReplies.value.Keys, r.operators;
      if multiset(keys) == multiset(s) {
        forall x ensures x in s <==> x in keys {
          assert x in s <==> x in multiset(s);
          assert x in keys <==> x in multiset(keys);
        }
        forall i, j | 0 <= i < j < |s| ensures s[i] != s[j] {
          if s[i] == s[j] {
            TwiceCounts(s, i, j);
          }
        }
      }
      if EachOnce(s, keys) {
        forall x ensures multiset(s)[x] == multiset(keys)[x] {
          OnceCounts(s, x);
        }
      }
    }
  }

  lemma TwiceCounts(s: seq<string>, i: nat, j: nat)
    requires i < j < |s| && s[i] == s[j]
    ensures multiset(s)[s[i]] >= 2
  {
    assert s == s[..i] + [s[i]] + s[i + 1..j] + [s[j]] + s[j + 1..];
  }

  lemma {:induction false} OnceCounts(s: seq<string>, x: string)
    requires forall i, j :: 0 <= i < j < |s| ==> s[i] != s[j]
    ensures multiset(s)[x] == if x in s then 1 else 0
  {
    if s != [] {
      OnceCounts(s[1..], x);
      assert s == [s[0]] + s[1..];
      assert s[0] !in s[1..];
    }
  }

  /** The statements of a projection, or an error when a route's reply bindings and operators differ. */
  method ProjectionSql(routes: seq<Projected>, source: Source, digest: seq<Stmt> -> string)
    returns (r: Result<seq<Stmt>>)
    ensures r.Ok? <==> forall i :: 0 <= i < |routes| && routes[i].operatorReplies.Some? ==>
                         EachOnce(routes[i].operators, routes[i].operatorReplies.value.Keys)
    ensures r.Ok? ==> r.value == Program(routes, source, digest)
  {
    hide MembersAgree, Opening, Closing, Blocks, Replies, PersonalIdentities, EachOnce;
    forall i | 0 <= i < |routes|
      ensures MembersAgree(routes[i]) <==>
              (routes[i].operatorReplies.Some? ==> EachOnce(routes[i].operators, routes[i].operatorReplies.value.Keys))
    {
      AgreeExactly(routes[i]);
    }
    var blocks := EmitBlocks(routes, source.sha);
    var bindings :- EmitBindings(routes, source.sha);
    var statements := Opening(routes, source) + blocks + bindings;
    return Ok(statements + Closing(source, digest(statements)));
  }
}
