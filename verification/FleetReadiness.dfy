/** Compiling the readiness of the whole fleet, and its two answers. */
module FleetReadiness {
  import opened Results
  import opened Ordering
  import opened Lists
  import opened FleetRoutes

  // ----- the input -----

  datatype Decision = Enrolled | Scheduled | Excluded | Pending
  datatype Domain = Domain(sha: Digest, decision: Decision, activePolicy: bool, configured: bool,
                           provider: Option<string>, reason: Option<string>, blockerCode: Option<string>,
                           owner: Option<Digest>, blocker: Option<string>)
  datatype Declared = Declared(known: int, enrolled: int, scheduled: int, excluded: int, pending: int,
                               activePolicy: int, desiredState: int)
  datatype Mode = FullPolicy | Canary
  datatype ProjectionReceipt = ProjectionReceipt(count: int, routeSet: Digest, evidence: Digest, binding: Binding)
  datatype Input = Input(
    binding: Binding,
    enrollmentSha: Digest,
    inventoryBlocker: Option<string>,
    declared: Declared,
    domains: seq<Domain>,
    mode: Mode,
    declaredCount: int,
    routeSet: Digest,
    inventoryBinding: Binding,
    projection: ProjectionReceipt,
    routes: seq<Route>,
    evidence: seq<Evidence>)

  function RouteKey(r: Route): Text { r.sha }
  function DomainKey(d: Domain): Text { d.sha }
  function EvidenceKey(e: Evidence): Text { e.route }
  function ThreadKey(e: Evidence): Text { e.thread }

  function DecisionOf(input: Input, domain: Digest): Option<Decision> {
    var d := Find(input.domains, DomainKey, domain);
    if d.None? then None else Some(d.value.decision)
  }

  function EvidenceFor(input: Input, route: Digest): Option<Evidence> {
    Find(input.evidence, EvidenceKey, route)
  }

  /** What each decision demands of a domain's other columns. */
  predicate DomainFits(d: Domain) {
    match d.decision
    case Enrolled =>
      d.activePolicy && d.configured && d.provider == Some("cloudflare_email_routing")
      && d.reason.None? && d.blockerCode.None? && d.owner.None? && d.blocker.None?
    case Scheduled =>
      d.activePolicy && d.configured && d.provider.Some? && d.blockerCode.Some? && d.reason.None? && d.owner.None?
      && d.blocker == d.blockerCode
    case Excluded =>
      !d.activePolicy && !d.configured && d.reason.Some? && d.blockerCode.None? && d.owner.None? && d.blocker.None?
    case Pending =>
      !d.activePolicy && !d.configured && d.reason.None? && d.blockerCode.None? && d.owner.Some?
      && d.blocker == Some("owner_decision_pending")
  }

  function Decided(domains: seq<Domain>, decision: Decision): nat {
    |Filter(domains, (d: Domain) => d.decision == decision)|
  }

  /** The counts that the enrollment declares are those of its domains. */
  predicate DeclaredFits(c: Declared, domains: seq<Domain>) {
    && c.known == |domains|
    && c.enrolled == Decided(domains, Enrolled) && c.scheduled == Decided(domains, Scheduled)
    && c.excluded == Decided(domains, Excluded) && c.pending == Decided(domains, Pending)
    && 0 <= c.activePolicy && 0 <= c.desiredState
  }

  predicate RouteFits(input: Input, r: Route) {
    DecisionOf(input, r.domain) == Some(Enrolled) && (r.kind == Sink <==> r.contract.Some?)
  }

  predicate EvidenceFits(input: Input, e: Evidence) {
    var r := Find(input.routes, RouteKey, e.route);
    && r.Some? && r.value.domain == e.domain
    && forall p :: p in e.receipts ==>
         p < PLANE_COUNT && (e.receipts[p].Waived? ==> r.value.kind == Sink && Golden(p))
  }

  /** What validation admits. */
  ghost predicate Valid(input: Input) {
    && input.domains != [] && Keyed(input.domains, DomainKey)
    && (forall d :: d in input.domains ==> DomainFits(d))
    && DeclaredFits(input.declared, input.domains)
    && input.routes != [] && |input.routes| == input.declaredCount && Keyed(input.routes, RouteKey)
    && (forall r :: r in input.routes ==> RouteFits(input, r))
    && Keyed(input.evidence, EvidenceKey)
    && Keyed(input.evidence, ThreadKey)
    && (forall e :: e in input.evidence ==> EvidenceFits(input, e))
  }

  /** Column by column: which decisions allow or demand what. */
  lemma DomainFitsExactly(d: Domain)
    ensures DomainFits(d) <==>
      && d.activePolicy == d.configured == (d.decision == Enrolled || d.decision == Scheduled)
      && (d.decision == Enrolled ==> d.provider == Some("cloudflare_email_routing"))
      && (d.decision == Scheduled ==> d.provider.Some?)
      && (d.reason.Some? <==> d.decision == Excluded)
      && (d.owner.Some? <==> d.decision == Pending)
      && (d.blockerCode.Some? <==> d.decision == Scheduled)
      && d.blocker == if d.decision == Scheduled then d.blockerCode
                      else if d.decision == Pending then Some("owner_decision_pending") else None
  {
  }

  /** A route belongs to an enrolled domain and has a contract exactly as a sink; evidence belongs to a route and its domain,
      and waives only golden planes of sinks. */
  lemma FitsExactly(input: Input)
    requires Keyed(input.domains, DomainKey) && Keyed(input.routes, RouteKey)
    ensures forall r :: RouteFits(input, r) <==>
              (exists d :: d in input.domains && d.sha == r.domain && d.decision == Enrolled)
              && (r.kind == Sink <==> r.contract.Some?)
    ensures forall e :: EvidenceFits(input, e) <==>
              exists r :: r in input.routes && r.sha == e.route && r.domain == e.domain
                          && forall p :: p in e.receipts ==> p < 8 && (e.receipts[p].Waived? ==> r.kind == Sink && p >= 2)
  {
    forall d | d in input.domains ensures Find(input.domains, DomainKey, d.sha) == Some(d) {
      FindsKeyed(input.domains, DomainKey, d);
    }
    forall r | r in input.routes ensures Find(input.routes, RouteKey, r.sha) == Some(r) {
      FindsKeyed(input.routes, RouteKey, r);
    }
  }

  lemma FindsKeyed<T(!new)>(s: seq<T>, key: T -> Text, x: T)
    requires Keyed(s, key) && x in s
    ensures Find(s, key, key(x)) == Some(x)
  {
    var found := Find(s, key, key(x));
    assert found.Some?;
    var i :| 0 <= i < |s| && s[i] == x;
    var j :| 0 <= j < |s| && s[j] == found.value;
    assert i < j ==> key(s[i]) != key(s[j]);
    assert j < i ==> key(s[j]) != key(s[i]);
  }

  // ----- the report -----

  datatype DomainBlocker = OnEnrollment(code: string) | OnConfigured(code: string)
  datatype DomainRow = DomainRow(sha: Digest, decision: Decision, reason: Option<string>, required: nat,
                                 blocker: Option<DomainBlocker>)
  datatype FleetBlocker =
    | EnrollmentBlocker(code: string, domain: Option<Digest>)
    | ConfiguredBlocker(code: string, domain: Option<Digest>)
    | RouteBlockerOf(route: Digest, plane: nat, code: string)
  datatype Coverage = Coverage(mode: Mode, inventoryComplete: bool, routeSetAttested: bool, projectionAttested: bool,
                               allRoutesPresent: bool, coherent: bool, allPlanesGood: bool, full: bool, operational: bool)
  datatype PlaneCounts = PlaneCounts(configured: nat, active: nat, inboxReceived: nat, replyProven: nat, failedOrStale: nat)
  datatype Counts = Counts(planes: PlaneCounts, known: nat, declared: int, required: nat, ready: nat, blocked: nat, killed: nat,
                           enrolled: nat, scheduled: nat, pending: nat, excluded: nat)
  datatype Report = Report(binding: Binding, coverage: Coverage, counts: Counts, domains: seq<DomainRow>,
                           routes: seq<RouteRow>, firstBlocker: Option<FleetBlocker>)

  /** The digests and the operational reader that compiling relies on. */
  datatype Digests = Digests(oracle: Oracle, routeSet: seq<Route> -> Digest, projection: ProjectionFacts -> Digest)
  datatype ProjectionFacts = ProjectionFacts(binding: Binding, count: int, routeSet: Digest)

  function RowKey(r: RouteRow): Text { r.sha }
  function DomainRowKey(d: DomainRow): Text { d.sha }

  // ----- the steps of compiling -----

  function FrameFor(input: Input, now: Time, g: Digests, r: Route): Frame {
    FrameOf(input.binding, r, EvidenceFor(input, r.sha), now, g.oracle)
  }

  predicate IsEnrolled(input: Input, r: Route) {
    DecisionOf(input, r.domain) == Some(Enrolled)
  }

  function EnrolledRoutes(input: Input): seq<Route> {
    Filter(input.routes, r => IsEnrolled(input, r))
  }

  function Rows(input: Input, now: Time, g: Digests): seq<RouteRow> {
    Sort(Map(EnrolledRoutes(input), r => RowOf(FrameFor(input, now, g, r), g.oracle)), RowKey)
  }

  function ReceiptsCoherent(input: Input, now: Time, g: Digests): bool {
    forall r :: r in EnrolledRoutes(input) ==> Coherent(FrameFor(input, now, g, r))
  }

  function RouteCount(input: Input, domain: Digest): nat {
    |Filter(EnrolledRoutes(input), (r: Route) => r.domain == domain)|
  }

  function DomainRowOf(input: Input, d: Domain): DomainRow {
    RowWith(d, RouteCount(input, d.sha))
  }

  function RowWith(d: Domain, required: nat): DomainRow {
    DomainRow(d.sha, d.decision, d.reason, required,
              if d.decision == Enrolled && required == 0 then Some(OnConfigured("enrolled_domain_has_no_routes"))
              else if d.blocker.Some? then Some(OnEnrollment(d.blocker.value)) else None)
  }

  function DomainRows(input: Input): seq<DomainRow> {
    Sort(Map(input.domains, d => DomainRowOf(input, d)), DomainRowKey)
  }

  predicate Unresolved(d: DomainRow) {
    d.decision == Scheduled || d.decision == Pending
  }

  /** What of the inventory is attested, and by what. */
  datatype Attested = Attested(canonical: bool, receipt: bool, expected: bool)

  function Attest(input: Input, g: Digests, expected: Digest): Attested {
    var computed := (g.routeSet)(Sort(input.routes, RouteKey));
    var p := input.projection;
    var projection := (g.projection)(ProjectionFacts(p.binding, p.count, p.routeSet));
    Attested(computed == input.routeSet && computed == input.binding.routeInventory
             && p.count == |input.routes| && p.count == input.declaredCount
             && p.routeSet == computed && p.binding == input.binding,
             p.evidence == projection, projection == expected)
  }

  predicate AllAttested(a: Attested) {
    a.canonical && a.receipt && a.expected
  }

  function FirstEnrollmentBlocker(input: Input, domains: seq<DomainRow>): Option<FleetBlocker> {
    if input.enrollmentSha != input.binding.enrollment
    then Some(EnrollmentBlocker("enrollment_binding_mismatch", None))
    else if input.inventoryBlocker.Some? then Some(EnrollmentBlocker(input.inventoryBlocker.value, None))
    else
      var d := First(domains, Unresolved);
      if d.None? then None
      else Some(EnrollmentBlocker(if d.value.blocker.Some? then d.value.blocker.value.code
                                  else "enrollment_decision_unresolved", Some(d.value.sha)))
  }

  predicate Routeless(d: DomainRow) {
    d.blocker.Some? && d.blocker.value.OnConfigured?
  }

  function FirstConfiguredBlocker(input: Input, domains: seq<DomainRow>, a: Attested): Option<FleetBlocker> {
    if input.mode == Canary then Some(ConfiguredBlocker("canary_scope_cannot_authorize_fleet", None))
    else if !a.canonical then Some(ConfiguredBlocker("route_set_digest_mismatch", None))
    else if !a.receipt then Some(ConfiguredBlocker("policy_projection_receipt_digest_mismatch", None))
    else if !a.expected then Some(ConfiguredBlocker("policy_projection_expected_digest_mismatch", None))
    else if input.inventoryBinding != input.binding
    then Some(ConfiguredBlocker("route_inventory_binding_mismatch", None))
    else
      var d := First(domains, Routeless);
      if d.None? then None else Some(ConfiguredBlocker(d.value.blocker.value.code, Some(d.value.sha)))
  }

  predicate IsBlocked(r: RouteRow) {
    r.blocker.Some?
  }

  /** Blockers compare by the order of the planes and then by route. */
  function CandidateKey(r: RouteRow): Text {
    [if r.blocker.Some? then r.blocker.value.plane else 0] + r.sha
  }

  function FirstRouteBlocker(rows: seq<RouteRow>): Option<FleetBlocker> {
    var candidates := Sort(Filter(rows, IsBlocked), CandidateKey);
    if candidates == [] then None
    else if candidates[0].blocker.None? then None
    else Some(RouteBlockerOf(candidates[0].sha, candidates[0].blocker.value.plane, candidates[0].blocker.value.code))
  }

  predicate AllGood(r: RouteRow) {
    forall p :: 0 <= p < |r.planes| ==> Good(r.planes[p])
  }

  function CountStatus(rows: seq<RouteRow>, s: Status): nat {
    |Filter(rows, (r: RouteRow) => r.status == s)|
  }

  function CountDecision(rows: seq<DomainRow>, d: Decision): nat {
    |Filter(rows, (r: DomainRow) => r.decision == d)|
  }

  predicate ProvenAt(r: RouteRow, p: nat) {
    p < |r.planes| && r.planes[p].state == Proven
  }

  /** A route that carries replies has proven every plane of a reply. */
  predicate ReplyProven(r: RouteRow) {
    r.kind != Sink && forall p :: REPLY_FROM <= p < PLANE_COUNT ==> ProvenAt(r, p)
  }

  predicate FailedOrStale(r: RouteRow) {
    exists p :: 0 <= p < |r.planes| && r.planes[p].state in {State.Failed, Stale, Mismatch}
  }

  const REPLY_FROM: nat := 4

  function CountPlanes(rows: seq<RouteRow>): PlaneCounts {
    PlaneCounts(|Filter(rows, (r: RouteRow) => ProvenAt(r, 0))|, |Filter(rows, (r: RouteRow) => ProvenAt(r, 1))|,
                |Filter(rows, (r: RouteRow) => ProvenAt(r, 3))|, |Filter(rows, ReplyProven)|, |Filter(rows, FailedOrStale)|)
  }

  function CountAll(input: Input, rows: seq<RouteRow>, domains: seq<DomainRow>): Counts {
    Counts(CountPlanes(rows), |domains|, input.declaredCount,
           |rows|, CountStatus(rows, Ready), CountStatus(rows, Blocked), CountStatus(rows, Killed),
           CountDecision(domains, Enrolled), CountDecision(domains, Scheduled),
           CountDecision(domains, Pending), CountDecision(domains, Excluded))
  }

  /** The coverage answer: a conjunction over everything that was compiled. */
  function CoverageOf(input: Input, now: Time, g: Digests, a: Attested, rows: seq<RouteRow>, domains: seq<DomainRow>): Coverage {
    var domainsHaveRoutes := forall d :: d in domains ==> d.decision == Enrolled ==> d.required > 0;
    var rowsPresent := forall r :: r in rows ==> EvidenceFor(input, r.sha).Some?;
    var present := domainsHaveRoutes && rowsPresent;
    var coherent :=
      && input.inventoryBinding == input.binding && input.enrollmentSha == input.binding.enrollment
      && AllAttested(a) && ReceiptsCoherent(input, now, g);
    var planesGood := rows != [] && forall r :: r in rows ==> AllGood(r);
    var operational := rows != [] && forall r :: r in rows ==> (g.oracle.blocker)(r.operational).None?;
    var unresolved := exists d :: d in input.domains && (d.decision == Scheduled || d.decision == Pending);
    var full :=
      && input.mode == FullPolicy && input.inventoryBlocker.None? && !unresolved && AllAttested(a)
      && present && coherent && planesGood && operational;
    Coverage(input.mode, input.inventoryBlocker.None?, AllAttested(a), a.receipt && a.expected,
             present, coherent, planesGood, full, operational)
  }

  /** The blocker answer: a search, stage after stage. */
  function FirstBlockerOf(input: Input, a: Attested, rows: seq<RouteRow>, domains: seq<DomainRow>): Option<FleetBlocker> {
    var enrollment := FirstEnrollmentBlocker(input, domains);
    if enrollment.Some? then enrollment
    else
      var configured := FirstConfiguredBlocker(input, domains, a);
      if configured.Some? then configured else FirstRouteBlocker(rows)
  }

  function Compile(input: Input, expected: Digest, now: Time, g: Digests): Report {
    var a, rows, domains := Attest(input, g, expected), Rows(input, now, g), DomainRows(input);
    Report(input.binding, CoverageOf(input, now, g, a, rows, domains),
           CountAll(input, rows, domains), domains, rows, FirstBlockerOf(input, a, rows, domains))
  }

  // ----- the two answers agree -----

  lemma {:induction false} FilterAll<T(!new)>(s: seq<T>, p: T -> bool)
    requires forall x :: x in s ==> p(x)
    ensures Filter(s, p) == s
  {
    if s != [] {
      FilterAll(s[1..], p);
    }
  }

  lemma AllEnrolled(input: Input)
    requires Valid(input)
    ensures EnrolledRoutes(input) == input.routes
  {
    FilterAll(input.routes, r => IsEnrolled(input, r));
  }

  lemma RowsFrom(input: Input, now: Time, g: Digests, row: RouteRow) returns (r: Route)
    requires row in Rows(input, now, g)
    ensures r in EnrolledRoutes(input) && row == RowOf(FrameFor(input, now, g, r), g.oracle) && row.sha == r.sha
  {
    hide RowOf, EnrolledRoutes, Sort;
    var f := (r: Route) => RowOf(FrameFor(input, now, g, r), g.oracle);
    var enrolled := EnrolledRoutes(input);
    var rows := Map(enrolled, f);
    SortKeeps(rows, RowKey);
    SamePlaces(Sort(rows, RowKey), rows);
    var i :| 0 <= i < |rows| && rows[i] == row;
    r := enrolled[i];
    RowSha(input, now, g, r);
  }

  lemma RowSha(input: Input, now: Time, g: Digests, r: Route)
    ensures RowOf(FrameFor(input, now, g, r), g.oracle).sha == r.sha
    ensures FrameFor(input, now, g, r).evidence == EvidenceFor(input, r.sha)
  {
  }

  lemma RowsTo(input: Input, now: Time, g: Digests, r: Route)
    requires r in EnrolledRoutes(input)
    ensures RowOf(FrameFor(input, now, g, r), g.oracle) in Rows(input, now, g)
    ensures Rows(input, now, g) != []
  {
    hide RowOf, EnrolledRoutes, Sort;
    var enrolled := EnrolledRoutes(input);
    var rows := Map(enrolled, r => RowOf(FrameFor(input, now, g, r), g.oracle));
    SortKeeps(rows, RowKey);
    SamePlaces(Sort(rows, RowKey), rows);
    var i :| 0 <= i < |enrolled| && enrolled[i] == r;
    assert rows[i] in rows;
  }

  lemma DomainRowsFrom(input: Input)
    ensures forall d :: d in DomainRows(input) ==> exists x :: x in input.domains && d == DomainRowOf(input, x)
    ensures forall x :: x in input.domains ==> DomainRowOf(input, x) in DomainRows(input)
  {
    hide DomainRowOf, Sort;
    var rows := Map(input.domains, d => DomainRowOf(input, d));
    SortKeeps(rows, DomainRowKey);
    SamePlaces(Sort(rows, DomainRowKey), rows);
    forall d | d in rows ensures exists x :: x in input.domains && d == DomainRowOf(input, x) {
      var i :| 0 <= i < |rows| && rows[i] == d;
      assert input.domains[i] in input.domains;
    }
    forall x | x in input.domains ensures DomainRowOf(input, x) in rows {
      var i :| 0 <= i < |input.domains| && input.domains[i] == x;
      assert rows[i] in rows;
    }
  }

  lemma UnresolvedAgrees(input: Input)
    ensures First(DomainRows(input), Unresolved).None? <==>
            !exists d :: d in input.domains && (d.decision == Scheduled || d.decision == Pending)
  {
    hide DomainRows;
    DomainRowsFrom(input);
    forall x | x in input.domains ensures DomainRowOf(input, x).decision == x.decision {
    }
  }

  lemma RoutelessAgrees(input: Input)
    ensures First(DomainRows(input), Routeless).None? <==>
            forall d :: d in DomainRows(input) ==> d.decision == Enrolled ==> d.required > 0
  {
    hide DomainRows, RouteCount;
    DomainRowsFrom(input);
    forall x | x in input.domains
      ensures var d := DomainRowOf(input, x); Routeless(d) <==> d.decision == Enrolled && d.required == 0
    {
    }
  }

  lemma NoneBlocked(rows: seq<RouteRow>)
    ensures FirstRouteBlocker(rows).None? <==> forall r :: r in rows ==> r.blocker.None?
  {
    hide Sort, Filter;
    var blocked := Filter(rows, IsBlocked);
    SortKeeps(blocked, CandidateKey);
    SamePlaces(Sort(blocked, CandidateKey), blocked);
    var candidates := Sort(blocked, CandidateKey);
    if candidates != [] {
      assert candidates[0] in candidates;
    } else {
      assert forall r :: r in blocked ==> r in candidates;
    }
  }

  /** The route blocker reported is the least of all: no other route is blocked at an earlier plane, and none at the
      same plane comes before it. */
  lemma FirstIsLeast(rows: seq<RouteRow>, r: RouteRow)
    requires r in rows && r.blocker.Some?
    ensures var first := FirstRouteBlocker(rows);
      && first.Some? && first.value.RouteBlockerOf?
      && first.value.plane <= r.blocker.value.plane
      && (first.value.plane == r.blocker.value.plane ==> !Before(r.sha, first.value.route))
      && exists row :: row in rows && row.sha == first.value.route
                       && row.blocker == Some(RouteBlocker(first.value.plane, first.value.code))
  {
    hide Sort;
    NoneBlocked(rows);
    var blocked := Filter(rows, IsBlocked);
    var candidates := Sort(blocked, CandidateKey);
    SortKeeps(blocked, CandidateKey);
    SortAscends(blocked, CandidateKey);
    SamePlaces(candidates, blocked);
    assert r in candidates;
    var i :| 0 <= i < |candidates| && candidates[i] == r;
    var least := candidates[0];
    assert least in blocked;
    var a, b := CandidateKey(r), CandidateKey(least);
    assert !Before(a, b) by { BeforeTotal(a, a); }
    assert a[1..] == r.sha && b[1..] == least.sha;
  }

  /** The rows of a fleet without a route blocker are all good, current, coherent and backed by evidence. */
  lemma RowsAgree(input: Input, now: Time, g: Digests)
    requires Valid(input)
    ensures var rows := Rows(input, now, g);
      && rows != []
      && (FirstRouteBlocker(rows).None? <==>
            forall r :: r in rows ==> AllGood(r) && (g.oracle.blocker)(r.operational).None?)
      && (FirstRouteBlocker(rows).None? ==>
            ReceiptsCoherent(input, now, g) && forall r :: r in rows ==> EvidenceFor(input, r.sha).Some?)
  {
    hide RowOf, FrameFor, Coherent, Rows, FirstRouteBlocker, EvidenceFor, Valid;
    var rows := Rows(input, now, g);
    NoneBlocked(rows);
    AllEnrolled(input);
    FirstRoute(input);
    RowsTo(input, now, g, input.routes[0]);
    forall row | row in rows
      ensures row.blocker.None? <==> AllGood(row) && (g.oracle.blocker)(row.operational).None?
      ensures row.blocker.None? ==> EvidenceFor(input, row.sha).Some?
    {
      var r := RowsFrom(input, now, g, row);
      RowIsDecided(FrameFor(input, now, g, r), g.oracle);
      RowSha(input, now, g, r);
      if row.blocker.None? {
        UnblockedIsCoherent(FrameFor(input, now, g, r), g.oracle);
      }
    }
    if FirstRouteBlocker(rows).None? {
      forall r | r in EnrolledRoutes(input) ensures Coherent(FrameFor(input, now, g, r)) {
        RowsTo(input, now, g, r);
        UnblockedIsCoherent(FrameFor(input, now, g, r), g.oracle);
      }
    }
  }

  lemma FirstRoute(input: Input)
    requires Valid(input)
    ensures input.routes != [] && input.routes[0] in input.routes
  {
  }

  /** Full coverage is proven exactly when the search for a first blocker finds none. */
  lemma AnswersAgree(input: Input, expected: Digest, now: Time, g: Digests)
    requires Valid(input)
    ensures var r := Compile(input, expected, now, g); r.coverage.full <==> r.firstBlocker.None?
  {
    hide Rows, DomainRows, FirstRouteBlocker, ReceiptsCoherent, EvidenceFor, Valid, Attest, First, AllGood;
    RowsAgree(input, now, g);
    UnresolvedAgrees(input);
    RoutelessAgrees(input);
  }

  // ----- what full coverage rests on -----

  /** A receipt that settles a plane of a route: an observation under the binding that succeeded in the last fifteen minutes,
      or a waiver under the unexpired contract of a sink. */
  predicate SettledBy(input: Input, now: Time, g: Digests, r: Route, e: Evidence, p: nat, c: Receipt) {
    && c.route == r.sha && c.domain == r.domain && (p >= 2 ==> c.thread == Some(e.thread))
    && match c
       case Observed(failed, at, _, _, _, _, binding, _) => binding == input.binding && !failed && 0 <= now - at <= 900000
       case Waived(evidence, contract, _, _, _) =>
         && r.kind == Sink && p >= 2 && r.contract.Some?
         && var k := r.contract.value;
         && k.body.route == r.sha && k.sha == (g.oracle.contractSha)(k.body) && k.body.expiresAt > now
         && contract == k.sha && evidence == k.sha
  }

  ghost predicate RouteProven(input: Input, now: Time, g: Digests, r: Route, e: Evidence) {
    && e.route == r.sha
    && (forall p: nat :: p < 8 ==> p in e.receipts && SettledBy(input, now, g, r, e, p, e.receipts[p]))
    && (forall p: nat, q: nat :: 2 <= p < q < 8 && e.receipts[p].Observed? && e.receipts[q].Observed?
          ==> e.receipts[p].at <= e.receipts[q].at)
    && (g.oracle.blocker)((g.oracle.read)(Some(e.operational), input.binding.policy, now)).None?
  }

  lemma EvidenceFound(input: Input, route: Digest, e: Evidence)
    requires Keyed(input.evidence, EvidenceKey)
    ensures EvidenceFor(input, route) == Some(e) <==> e in input.evidence && e.route == route
  {
    if e in input.evidence && e.route == route {
      var found := EvidenceFor(input, route);
      assert EvidenceKey(e) == route;
      assert found.Some?;
      var i :| 0 <= i < |input.evidence| && input.evidence[i] == e;
      var j :| 0 <= j < |input.evidence| && input.evidence[j] == found.value;
      assert EvidenceKey(input.evidence[i]) == EvidenceKey(input.evidence[j]);
    }
  }

  lemma SettledExactly(input: Input, now: Time, g: Digests, r: Route, e: Evidence, p: nat, c: Receipt)
    requires p < 8 && EvidenceFor(input, r.sha) == Some(e)
    ensures Settles(FrameFor(input, now, g, r), p, c) <==> SettledBy(input, now, g, r, e, p, c)
  {
    hide EvidenceFor;
  }

  lemma RouteExactly(input: Input, now: Time, g: Digests, r: Route)
    requires Keyed(input.evidence, EvidenceKey)
    ensures RowOf(FrameFor(input, now, g, r), g.oracle).blocker.None? <==>
            exists e :: e in input.evidence && RouteProven(input, now, g, r, e)
  {
    hide RowOf, Settles, SettledBy, EvidenceFor;
    var f := FrameFor(input, now, g, r);
    UnblockedExactly(f, g.oracle);
    forall e ensures EvidenceFor(input, r.sha) == Some(e) <==> e in input.evidence && e.route == r.sha {
      EvidenceFound(input, r.sha, e);
    }
    FrameColumns(input, now, g, r);
    forall e, p: nat, c | EvidenceFor(input, r.sha) == Some(e) && p < 8
      ensures Settles(f, p, c) <==> SettledBy(input, now, g, r, e, p, c)
    {
      SettledExactly(input, now, g, r, e, p, c);
    }
    if e :| e in input.evidence && RouteProven(input, now, g, r, e) {
      assert EvidenceFor(input, r.sha) == Some(e);
    }
  }

  lemma FrameColumns(input: Input, now: Time, g: Digests, r: Route)
    ensures var f := FrameFor(input, now, g, r);
      f.evidence == EvidenceFor(input, r.sha) && f.binding == input.binding && f.now == now && f.route == r
  {
    hide EvidenceFor;
  }

  /** The inventory is attested: its routes, in the order of their digests, have the digest that the inventory, the binding
      and the projection's receipt name, for as many routes as all of them count; the receipt is bound as the input is,
      and its own digest is the one it shows and the one expected. */
  ghost predicate InventoryAttested(input: Input, expected: Digest, g: Digests) {
    var digest := (g.routeSet)(Sort(input.routes, RouteKey));
    var receipt := input.projection;
    && digest == input.routeSet && digest == input.binding.routeInventory && digest == receipt.routeSet
    && receipt.count == |input.routes| && receipt.count == input.declaredCount
    && receipt.binding == input.binding
    && receipt.evidence == (g.projection)(ProjectionFacts(receipt.binding, receipt.count, receipt.routeSet))
    && receipt.evidence == expected
  }

  lemma FullIs(input: Input, expected: Digest, now: Time, g: Digests)
    requires Valid(input)
    ensures Compile(input, expected, now, g).coverage.full <==>
      && input.mode == FullPolicy && input.inventoryBlocker.None?
      && input.enrollmentSha == input.binding.enrollment && input.inventoryBinding == input.binding
      && !(exists d :: d in input.domains && (d.decision == Scheduled || d.decision == Pending))
      && AllAttested(Attest(input, g, expected))
      && (forall d :: d in DomainRows(input) ==> d.decision == Enrolled ==> d.required > 0)
      && FirstRouteBlocker(Rows(input, now, g)).None?
  {
    hide Rows, DomainRows, FirstRouteBlocker, ReceiptsCoherent, EvidenceFor, AllGood, Valid, Attest, AllAttested,
      CountAll, FirstBlockerOf;
    RowsAgree(input, now, g);
  }

  /** Full coverage is proven exactly when the whole policy was looked at, every domain is decided and every enrolled one
      has a route, the inventory is attested under one binding, and every route is proven by some evidence. */
  lemma FullCoverageExactly(input: Input, expected: Digest, now: Time, g: Digests)
    requires Valid(input)
    ensures Compile(input, expected, now, g).coverage.full <==>
      && input.mode == FullPolicy && input.inventoryBlocker.None?
      && input.enrollmentSha == input.binding.enrollment && input.inventoryBinding == input.binding
      && (forall d :: d in input.domains ==> d.decision == Enrolled || d.decision == Excluded)
      && (forall d :: d in input.domains && d.decision == Enrolled ==> exists r :: r in input.routes && r.domain == d.sha)
      && InventoryAttested(input, expected, g)
      && (forall r :: r in input.routes ==> exists e :: e in input.evidence && RouteProven(input, now, g, r, e))
  {
    hide Rows, DomainRows, FirstRouteBlocker, RouteProven, Valid, Compile, AllAttested, Attest, InventoryAttested;
    FullIs(input, expected, now, g);
    AttestExactly(input, expected, g);
    EnrolledHaveRoutes(input);
    RowsProven(input, now, g);
  }

  lemma AttestExactly(input: Input, expected: Digest, g: Digests)
    ensures AllAttested(Attest(input, g, expected)) <==> InventoryAttested(input, expected, g)
  {
    hide Sort;
  }

  lemma EnrolledHaveRoutes(input: Input)
    requires Valid(input)
    ensures (forall d :: d in DomainRows(input) ==> d.decision == Enrolled ==> d.required > 0) <==>
            (forall d :: d in input.domains && d.decision == Enrolled ==> exists r :: r in input.routes && r.domain == d.sha)
  {
    hide DomainRows, RouteCount;
    DomainRowsFrom(input);
    forall d | d in input.domains
      ensures DomainRowOf(input, d).decision == d.decision && DomainRowOf(input, d).required == RouteCount(input, d.sha)
      ensures RouteCount(input, d.sha) > 0 <==> exists r :: r in input.routes && r.domain == d.sha
    {
      CountPositive(input, d.sha);
    }
  }

  lemma CountPositive(input: Input, domain: Digest)
    requires Valid(input)
    ensures RouteCount(input, domain) > 0 <==> exists r :: r in input.routes && r.domain == domain
  {
    AllEnrolled(input);
    var kept := Filter(input.routes, (r: Route) => r.domain == domain);
    if kept != [] {
      assert kept[0] in kept;
    }
  }

  lemma RowsProven(input: Input, now: Time, g: Digests)
    requires Valid(input)
    ensures FirstRouteBlocker(Rows(input, now, g)).None? <==>
            forall r :: r in input.routes ==> exists e :: e in input.evidence && RouteProven(input, now, g, r, e)
  {
    hide RowOf, FrameFor, Rows, FirstRouteBlocker, RouteProven;
    var rows := Rows(input, now, g);
    AllEnrolled(input);
    NoneBlocked(rows);
    forall r | r in input.routes
      ensures RowOf(FrameFor(input, now, g, r), g.oracle).blocker.None? <==>
              exists e :: e in input.evidence && RouteProven(input, now, g, r, e)
      ensures RowOf(FrameFor(input, now, g, r), g.oracle) in rows
    {
      RouteExactly(input, now, g, r);
      RowsTo(input, now, g, r);
    }
    forall row | row in rows ensures exists r :: r in input.routes && row == RowOf(FrameFor(input, now, g, r), g.oracle) {
      var r := RowsFrom(input, now, g, row);
    }
  }

  /** Each flag of the coverage by itself. */
  lemma CoverageFlags(input: Input, expected: Digest, now: Time, g: Digests)
    requires Valid(input)
    ensures var c := Compile(input, expected, now, g).coverage; var receipt := input.projection;
      && c.mode == input.mode && (c.inventoryComplete <==> input.inventoryBlocker.None?)
      && (c.routeSetAttested <==> InventoryAttested(input, expected, g))
      && (c.projectionAttested <==>
            receipt.evidence == (g.projection)(ProjectionFacts(receipt.binding, receipt.count, receipt.routeSet)) == expected)
      && (c.allRoutesPresent <==>
            && (forall d :: d in input.domains && d.decision == Enrolled ==> exists r :: r in input.routes && r.domain == d.sha)
            && (forall r :: r in input.routes ==> exists e :: e in input.evidence && e.route == r.sha))
      && (c.coherent <==>
            && input.inventoryBinding == input.binding && input.enrollmentSha == input.binding.enrollment
            && InventoryAttested(input, expected, g)
            && (forall r :: r in input.routes ==> Coherent(FrameFor(input, now, g, r))))
      && (c.allPlanesGood <==> forall r :: r in input.routes ==> AllGood(RowOf(FrameFor(input, now, g, r), g.oracle)))
      && (c.operational <==>
            forall r :: r in input.routes ==> (g.oracle.blocker)(RowOf(FrameFor(input, now, g, r), g.oracle).operational).None?)
  {
    hide Rows, DomainRows, EvidenceFor, First, AllGood, Sort, Coherent, RowOf, FirstRouteBlocker, FirstBlockerOf, FrameFor,
      InventoryAttested, CountAll;
    AttestExactly(input, expected, g);
    EnrolledHaveRoutes(input);
    AllEnrolled(input);
    RowFlags(input, now, g);
    ProjectionAttested(input, expected, g);
  }

  lemma ProjectionAttested(input: Input, expected: Digest, g: Digests)
    ensures var a := Attest(input, g, expected); var receipt := input.projection;
      a.receipt && a.expected <==>
        receipt.evidence == (g.projection)(ProjectionFacts(receipt.binding, receipt.count, receipt.routeSet)) == expected
  {
  }

  /** What holds of all rows holds of all routes. */
  lemma RowFlags(input: Input, now: Time, g: Digests)
    requires Valid(input)
    ensures var rows := Rows(input, now, g);
      && rows != []
      && ((forall row :: row in rows ==> EvidenceFor(input, row.sha).Some?) <==>
          forall r :: r in input.routes ==> exists e :: e in input.evidence && e.route == r.sha)
      && ((forall row :: row in rows ==> AllGood(row)) <==>
          forall r :: r in input.routes ==> AllGood(RowOf(FrameFor(input, now, g, r), g.oracle)))
      && ((forall row :: row in rows ==> (g.oracle.blocker)(row.operational).None?) <==>
          forall r :: r in input.routes ==> (g.oracle.blocker)(RowOf(FrameFor(input, now, g, r), g.oracle).operational).None?)
  {
    hide Rows, EvidenceFor, AllGood, RowOf, FrameFor;
    var rows := Rows(input, now, g);
    AllEnrolled(input);
    FirstRoute(input);
    forall r | r in input.routes
      ensures RowOf(FrameFor(input, now, g, r), g.oracle) in rows && RowOf(FrameFor(input, now, g, r), g.oracle).sha == r.sha
      ensures EvidenceFor(input, r.sha).Some? <==> exists e :: e in input.evidence && e.route == r.sha
    {
      RowsTo(input, now, g, r);
      RowSha(input, now, g, r);
      SomeEvidence(input, r.sha);
    }
    forall row | row in rows
      ensures exists r :: r in input.routes && row == RowOf(FrameFor(input, now, g, r), g.oracle) && row.sha == r.sha
    {
      var r := RowsFrom(input, now, g, row);
    }
  }

  lemma SomeEvidence(input: Input, route: Digest)
    ensures EvidenceFor(input, route).Some? <==> exists e :: e in input.evidence && e.route == route
  {
    var found := EvidenceFor(input, route);
    if found.Some? {
      assert found.value in input.evidence && EvidenceKey(found.value) == route;
    } else {
      assert forall e :: e in input.evidence ==> EvidenceKey(e) != route;
    }
  }

  // ----- the order of the input does not matter -----

  /** The same input with its domains, routes and evidence in another order. */
  ghost predicate Reordered(a: Input, b: Input) {
    && b == a.(domains := b.domains, routes := b.routes, evidence := b.evidence)
    && multiset(a.domains) == multiset(b.domains) && multiset(a.routes) == multiset(b.routes)
    && multiset(a.evidence) == multiset(b.evidence)
  }

  lemma LookupsAgree(a: Input, b: Input, k: Digest)
    requires Valid(a) && Reordered(a, b)
    ensures DecisionOf(a, k) == DecisionOf(b, k) && EvidenceFor(a, k) == EvidenceFor(b, k)
    ensures Find(a.routes, RouteKey, k) == Find(b.routes, RouteKey, k)
  {
    FindPermutes(a.domains, b.domains, DomainKey, k);
    FindPermutes(a.evidence, b.evidence, EvidenceKey, k);
    FindPermutes(a.routes, b.routes, RouteKey, k);
  }

  lemma DeclaredReordered(a: Input, b: Input)
    requires Reordered(a, b) && DeclaredFits(a.declared, a.domains)
    ensures DeclaredFits(b.declared, b.domains)
  {
    SamePlaces(a.domains, b.domains);
    forall decision ensures Decided(a.domains, decision) == Decided(b.domains, decision) {
      var p := (d: Domain) => d.decision == decision;
      FilterPermutes(a.domains, b.domains, p);
      SamePlaces(Filter(a.domains, p), Filter(b.domains, p));
    }
  }

  lemma ValidReordered(a: Input, b: Input)
    requires Valid(a) && Reordered(a, b)
    ensures Valid(b)
  {
    hide Find, DomainFits, DeclaredFits;
    DeclaredReordered(a, b);
    SamePlaces(a.domains, b.domains);
    SamePlaces(a.routes, b.routes);
    SamePlaces(a.evidence, b.evidence);
    KeyedPermutes(a.domains, b.domains, DomainKey);
    KeyedPermutes(a.routes, b.routes, RouteKey);
    KeyedPermutes(a.evidence, b.evidence, EvidenceKey);
    KeyedPermutes(a.evidence, b.evidence, ThreadKey);
    forall r | r in b.routes ensures RouteFits(b, r) {
      LookupsAgree(a, b, r.domain);
    }
    forall e | e in b.evidence ensures EvidenceFits(b, e) {
      LookupsAgree(a, b, e.route);
    }
  }

  lemma EnrolledAgrees(a: Input, b: Input)
    requires Valid(a) && Reordered(a, b)
    ensures multiset(EnrolledRoutes(a)) == multiset(EnrolledRoutes(b))
    ensures Keyed(EnrolledRoutes(a), RouteKey)
  {
    hide Filter, DecisionOf;
    forall r ensures IsEnrolled(a, r) == IsEnrolled(b, r) {
      LookupsAgree(a, b, r.domain);
    }
    FilterAgrees(b.routes, r => IsEnrolled(a, r), r => IsEnrolled(b, r));
    FilterPermutes(a.routes, b.routes, r => IsEnrolled(a, r));
    FilterKeyed(a.routes, r => IsEnrolled(a, r), RouteKey);
  }

  lemma RowsReordered(a: Input, b: Input, now: Time, g: Digests)
    requires Valid(a) && Reordered(a, b)
    ensures Rows(a, now, g) == Rows(b, now, g)
  {
    hide Map, Sort, RowOf, EnrolledRoutes, EvidenceFor;
    var f := (r: Route) => RowOf(FrameFor(a, now, g, r), g.oracle);
    var h := (r: Route) => RowOf(FrameFor(b, now, g, r), g.oracle);
    var x, y := EnrolledRoutes(a), EnrolledRoutes(b);
    EnrolledAgrees(a, b);
    forall r ensures f(r) == h(r) {
      LookupsAgree(a, b, r.sha);
    }
    MapAgrees(y, f, h);
    MapPermutes(x, y, f);
    forall i, j | 0 <= i < j < |x| ensures RowKey(Map(x, f)[i]) != RowKey(Map(x, f)[j]) {
      RowSha(a, now, g, x[i]);
      RowSha(a, now, g, x[j]);
      assert RouteKey(x[i]) != RouteKey(x[j]);
    }
    SortIgnoresOrder(Map(x, f), Map(y, f), RowKey);
  }

  lemma DomainRowsReordered(a: Input, b: Input)
    requires Valid(a) && Reordered(a, b)
    ensures DomainRows(a) == DomainRows(b)
  {
    hide Map, Sort, EnrolledRoutes, Filter;
    var f := (d: Domain) => DomainRowOf(a, d);
    var h := (d: Domain) => DomainRowOf(b, d);
    EnrolledAgrees(a, b);
    forall d: Domain ensures f(d) == h(d) {
      var p := (r: Route) => r.domain == d.sha;
      FilterPermutes(EnrolledRoutes(a), EnrolledRoutes(b), p);
      SamePlaces(Filter(EnrolledRoutes(a), p), Filter(EnrolledRoutes(b), p));
      CountIs(a, d.sha, p);
      CountIs(b, d.sha, p);
    }
    MapAgrees(b.domains, f, h);
    MapPermutes(a.domains, b.domains, f);
    forall i, j | 0 <= i < j < |a.domains|
      ensures DomainRowKey(Map(a.domains, f)[i]) != DomainRowKey(Map(a.domains, f)[j])
    {
      assert DomainKey(a.domains[i]) != DomainKey(a.domains[j]);
    }
    SortIgnoresOrder(Map(a.domains, f), Map(b.domains, f), DomainRowKey);
  }

  lemma CountIs(input: Input, domain: Digest, p: Route -> bool)
    requires forall r :: p(r) <==> r.domain == domain
    ensures RouteCount(input, domain) == |Filter(EnrolledRoutes(input), p)|
  {
    FilterAgrees(EnrolledRoutes(input), p, (r: Route) => r.domain == domain);
  }

  lemma CoherenceReordered(a: Input, b: Input, now: Time, g: Digests)
    requires Valid(a) && Reordered(a, b)
    ensures ReceiptsCoherent(a, now, g) == ReceiptsCoherent(b, now, g)
  {
    hide EnrolledRoutes, Coherent, EvidenceFor, FrameOf;
    EnrolledAgrees(a, b);
    SamePlaces(EnrolledRoutes(a), EnrolledRoutes(b));
    forall r: Route ensures FrameFor(a, now, g, r) == FrameFor(b, now, g, r) {
      LookupsAgree(a, b, r.sha);
    }
  }

  lemma AttestReordered(a: Input, b: Input, expected: Digest, g: Digests)
    requires Valid(a) && Reordered(a, b)
    ensures Attest(a, g, expected) == Attest(b, g, expected)
  {
    SortIgnoresOrder(a.routes, b.routes, RouteKey);
    SamePlaces(a.routes, b.routes);
  }

  /** The report on an accepted input is the same in whatever order its lists come. */
  lemma ReportIgnoresOrder(a: Input, b: Input, expected: Digest, now: Time, g: Digests)
    requires Valid(a) && Reordered(a, b)
    ensures Valid(b) && Compile(a, expected, now, g) == Compile(b, expected, now, g)
  {
    hide Rows, DomainRows, ReceiptsCoherent, Attest, EvidenceFor, First, FirstRouteBlocker, AllGood, CountStatus,
      CountDecision, CountPlanes, Valid;
    ValidReordered(a, b);
    RowsReordered(a, b, now, g);
    DomainRowsReordered(a, b);
    CoherenceReordered(a, b, now, g);
    AttestReordered(a, b, expected, g);
    CoverageReordered(a, b, Attest(a, g, expected), Rows(a, now, g), DomainRows(a), now, g);
    FirstReordered(a, b, Attest(a, g, expected), Rows(a, now, g), DomainRows(a));
  }

  lemma CoverageReordered(a: Input, b: Input, t: Attested, rows: seq<RouteRow>, domains: seq<DomainRow>, now: Time, g: Digests)
    requires Valid(a) && Reordered(a, b)
    ensures CoverageOf(a, now, g, t, rows, domains) == CoverageOf(b, now, g, t, rows, domains)
  {
    hide ReceiptsCoherent, EvidenceFor, AllGood, Valid;
    CoherenceReordered(a, b, now, g);
    SamePlaces(a.domains, b.domains);
    forall k: Digest ensures EvidenceFor(a, k) == EvidenceFor(b, k) {
      LookupsAgree(a, b, k);
    }
  }

  lemma FirstReordered(a: Input, b: Input, t: Attested, rows: seq<RouteRow>, domains: seq<DomainRow>)
    requires Reordered(a, b)
    ensures FirstBlockerOf(a, t, rows, domains) == FirstBlockerOf(b, t, rows, domains)
  {
    hide First, FirstRouteBlocker;
  }

  // ----- counts -----

  lemma {:induction false} StatusesPartition(rows: seq<RouteRow>)
    ensures CountStatus(rows, Ready) + CountStatus(rows, Blocked) + CountStatus(rows, Killed) == |rows|
  {
    if rows != [] {
      StatusesPartition(rows[1..]);
    }
  }

  lemma {:induction false} DecisionsPartition(rows: seq<DomainRow>)
    ensures CountDecision(rows, Enrolled) + CountDecision(rows, Scheduled) + CountDecision(rows, Pending)
            + CountDecision(rows, Excluded) == |rows|
  {
    if rows != [] {
      DecisionsPartition(rows[1..]);
    }
  }

  /** The counts of the report add up to its routes and its domains. */
  lemma CountsAddUp(input: Input, expected: Digest, now: Time, g: Digests)
    requires Valid(input)
    ensures var r := Compile(input, expected, now, g);
      && r.counts.ready + r.counts.blocked + r.counts.killed == |input.routes| == r.counts.required
      && r.counts.enrolled + r.counts.scheduled + r.counts.pending + r.counts.excluded == |input.domains|
  {
    hide RowOf, EnrolledRoutes, DomainRowOf, CountStatus, CountDecision, Sort;
    StatusesPartition(Rows(input, now, g));
    DecisionsPartition(DomainRows(input));
    AllEnrolled(input);
    SortKeeps(Map(EnrolledRoutes(input), r => RowOf(FrameFor(input, now, g, r), g.oracle)), RowKey);
    SortKeeps(Map(input.domains, d => DomainRowOf(input, d)), DomainRowKey);
  }

  lemma {:induction false} FilterNone<T(!new)>(s: seq<T>, p: T -> bool)
    requires forall x :: x in s ==> !p(x)
    ensures Filter(s, p) == []
  {
    if s != [] {
      FilterNone(s[1..], p);
    }
  }

  /** In a good row only a sink has planes that do not apply, and only on the golden thread. */
  lemma GoodRow(input: Input, now: Time, g: Digests, r: RouteRow)
    requires r in Rows(input, now, g) && AllGood(r)
    ensures |r.planes| == PLANE_COUNT && ProvenAt(r, 0) && ProvenAt(r, 1) && !FailedOrStale(r)
    ensures r.kind != Sink ==> ProvenAt(r, 3) && ReplyProven(r)
  {
    hide RowOf, FrameFor, Rows;
    var route := RowsFrom(input, now, g, r);
    RowIsDecided(FrameFor(input, now, g, route), g.oracle);
    forall p: nat | p < PLANE_COUNT && r.planes[p].state == NotApplicable ensures r.kind == Sink && Golden(p) {
      WaivedOnlyInSinks(FrameFor(input, now, g, route), g.oracle, p);
    }
  }

  /** Where full coverage is proven the counts say so: every required route is configured and active at the edge, none
      failed or went stale, and every route that carries replies is proven to. */
  lemma CoverageCounts(input: Input, expected: Digest, now: Time, g: Digests)
    requires Valid(input) && Compile(input, expected, now, g).coverage.full
    ensures var r := Compile(input, expected, now, g); var c := r.counts.planes;
      && c.configured == c.active == r.counts.required == r.counts.ready == |input.routes| && c.failedOrStale == 0
      && c.replyProven == |Filter(r.routes, (x: RouteRow) => x.kind != Sink)| <= c.inboxReceived <= |input.routes|
  {
    hide Rows, DomainRows, FirstRouteBlocker, ReceiptsCoherent, EvidenceFor, Valid, Attest, First, AllGood, ReplyProven,
      FailedOrStale, ProvenAt, RowOf, FrameFor;
    var rows := Rows(input, now, g);
    AnswersAgree(input, expected, now, g);
    CountsAddUp(input, expected, now, g);
    forall r | r in rows
      ensures ProvenAt(r, 0) && ProvenAt(r, 1) && !FailedOrStale(r) && (r.kind != Sink ==> ProvenAt(r, 3))
      ensures ReplyProven(r) <==> r.kind != Sink
      ensures r.status == Ready
    {
      GoodRow(input, now, g, r);
      RowReady(input, now, g, r);
      NoReplyFromSinks(r);
    }
    FilterAll(rows, (r: RouteRow) => ProvenAt(r, 0));
    FilterAll(rows, (r: RouteRow) => ProvenAt(r, 1));
    FilterAll(rows, (r: RouteRow) => r.status == Ready);
    FilterNone(rows, FailedOrStale);
    FilterSame(rows, ReplyProven, (x: RouteRow) => x.kind != Sink);
    FilterFewer(rows, ReplyProven, (r: RouteRow) => ProvenAt(r, 3));
  }

  lemma NoReplyFromSinks(r: RouteRow)
    ensures ReplyProven(r) ==> r.kind != Sink
  {
  }

  lemma RowReady(input: Input, now: Time, g: Digests, r: RouteRow)
    requires r in Rows(input, now, g) && AllGood(r) && (g.oracle.blocker)(r.operational).None?
    ensures r.status == Ready
  {
    hide RowOf, FrameFor, Rows;
    var route := RowsFrom(input, now, g, r);
    RowIsDecided(FrameFor(input, now, g, route), g.oracle);
  }

  lemma {:induction false} FilterSame<T(!new)>(s: seq<T>, p: T -> bool, q: T -> bool)
    requires forall x :: x in s ==> p(x) == q(x)
    ensures Filter(s, p) == Filter(s, q)
  {
    if s != [] {
      FilterSame(s[1..], p, q);
    }
  }

  lemma {:induction false} FilterFewer<T(!new)>(s: seq<T>, p: T -> bool, q: T -> bool)
    requires forall x :: x in s && p(x) ==> q(x)
    ensures |Filter(s, p)| <= |Filter(s, q)| <= |s|
  {
    if s != [] {
      FilterFewer(s[1..], p, q);
    }
  }

  // ----- the stages of the blocker search -----

  lemma {:induction false} FirstByKey<T(!new)>(s: seq<T>, p: T -> bool, key: T -> Text)
    requires Ascending(s, key) && First(s, p).Some?
    ensures forall x :: x in s && p(x) ==> !Before(key(x), key(First(s, p).value))
  {
    hide Before;
    if p(s[0]) {
      forall x | x in s ensures !Before(key(x), key(s[0])) {
        var i :| 0 <= i < |s| && s[i] == x;
        BeforeTotal(key(x), key(x));
      }
    } else {
      var rest := s[1..];
      assert forall i :: 0 <= i < |rest| ==> rest[i] == s[i + 1];
      FirstByKey(rest, p, key);
    }
  }

  predicate Undecided(d: Domain) {
    d.decision == Scheduled || d.decision == Pending
  }

  predicate Unrouted(input: Input, d: Domain) {
    d.decision == Enrolled && forall r :: r in input.routes ==> r.domain != d.sha
  }

  /** The inventory's own digests and counts agree, whatever the projection's receipt shows of itself. */
  predicate InventoryCanonical(input: Input, g: Digests) {
    var digest := (g.routeSet)(Sort(input.routes, RouteKey));
    && digest == input.routeSet && digest == input.binding.routeInventory && digest == input.projection.routeSet
    && input.projection.count == |input.routes| && input.projection.count == input.declaredCount
    && input.projection.binding == input.binding
  }

  function ReceiptDigest(input: Input, g: Digests): Digest {
    (g.projection)(ProjectionFacts(input.projection.binding, input.projection.count, input.projection.routeSet))
  }

  /** The undecided domain of the least digest, with its own reason. */
  ghost predicate FirstUndecided(input: Input, d: Domain, code: string) {
    && d in input.domains && Undecided(d) && d.blocker == Some(code)
    && forall e :: e in input.domains && Undecided(e) ==> !Before(e.sha, d.sha)
  }

  ghost predicate EnrollmentFirst(input: Input, b: Option<FleetBlocker>) {
    if input.enrollmentSha != input.binding.enrollment
    then b == Some(EnrollmentBlocker("enrollment_binding_mismatch", None))
    else if input.inventoryBlocker.Some? then b == Some(EnrollmentBlocker(input.inventoryBlocker.value, None))
    else
      (exists d :: d in input.domains && Undecided(d)) ==>
        exists d, code :: FirstUndecided(input, d, code) && b == Some(EnrollmentBlocker(code, Some(d.sha)))
  }

  /** Enrollment comes first: its binding, then the inventory, then the first undecided domain. */
  lemma EnrollmentStage(input: Input, expected: Digest, now: Time, g: Digests)
    requires Valid(input)
    ensures EnrollmentFirst(input, Compile(input, expected, now, g).firstBlocker)
  {
    hide Rows, DomainRows, CoverageOf, CountAll, FirstRouteBlocker, FirstConfiguredBlocker, Valid, Attest, FirstEnrollmentBlocker,
      EnrollmentFirst;
    EnrollmentSearch(input);
    EnrollmentNone(input);
  }

  lemma EnrollmentNone(input: Input)
    requires EnrollmentFirst(input, FirstEnrollmentBlocker(input, DomainRows(input)))
    ensures FirstEnrollmentBlocker(input, DomainRows(input)).None? ==> forall b :: EnrollmentFirst(input, b)
  {
    hide DomainRows, FirstUndecided;
  }

  lemma EnrollmentSearch(input: Input)
    requires Valid(input)
    ensures EnrollmentFirst(input, FirstEnrollmentBlocker(input, DomainRows(input)))
  {
    hide DomainRows, Before, DomainRowOf, Undecided, Valid;
    DomainRowsFrom(input);
    DomainsAscend(input);
    var domains := DomainRows(input);
    forall x | x in input.domains
      ensures DomainRowOf(input, x).decision == x.decision && DomainRowOf(input, x).sha == x.sha
      ensures Unresolved(DomainRowOf(input, x)) <==> Undecided(x)
      ensures Undecided(x) ==> x.blocker.Some? && DomainRowOf(input, x).blocker == Some(OnEnrollment(x.blocker.value))
    {
      UndecidedRow(input, x);
    }
    if First(domains, Unresolved).Some? {
      FirstByKey(domains, Unresolved, DomainRowKey);
      var row := First(domains, Unresolved).value;
      var d :| d in input.domains && row == DomainRowOf(input, d);
      assert FirstUndecided(input, d, d.blocker.value);
    }
  }

  lemma UndecidedRow(input: Input, d: Domain)
    requires Valid(input) && d in input.domains
    ensures DomainRowOf(input, d).decision == d.decision && DomainRowOf(input, d).sha == d.sha
    ensures Unresolved(DomainRowOf(input, d)) <==> Undecided(d)
    ensures Undecided(d) ==> d.blocker.Some? && DomainRowOf(input, d).blocker == Some(OnEnrollment(d.blocker.value))
  {
    hide RouteCount;
    assert DomainFits(d);
  }

  lemma DomainsAscend(input: Input)
    ensures Ascending(DomainRows(input), DomainRowKey)
  {
    hide DomainRowOf, Sort;
    SortAscends(Map(input.domains, d => DomainRowOf(input, d)), DomainRowKey);
  }

  ghost predicate FirstUnrouted(input: Input, d: Domain) {
    && d in input.domains && Unrouted(input, d)
    && forall e :: e in input.domains && Unrouted(input, e) ==> !Before(e.sha, d.sha)
  }

  ghost predicate ConfigurationFirst(input: Input, expected: Digest, g: Digests, b: Option<FleetBlocker>) {
    if input.mode == Canary then b == Some(ConfiguredBlocker("canary_scope_cannot_authorize_fleet", None))
    else if !InventoryCanonical(input, g) then b == Some(ConfiguredBlocker("route_set_digest_mismatch", None))
    else if input.projection.evidence != ReceiptDigest(input, g)
    then b == Some(ConfiguredBlocker("policy_projection_receipt_digest_mismatch", None))
    else if ReceiptDigest(input, g) != expected
    then b == Some(ConfiguredBlocker("policy_projection_expected_digest_mismatch", None))
    else if input.inventoryBinding != input.binding
    then b == Some(ConfiguredBlocker("route_inventory_binding_mismatch", None))
    else if exists d :: d in input.domains && Unrouted(input, d) then
      exists d :: FirstUnrouted(input, d) && b == Some(ConfiguredBlocker("enrolled_domain_has_no_routes", Some(d.sha)))
    else b == None
  }

  /** Then the configuration: a canary, the inventory's digests, the projection's own digest, the expected one, the inventory's
      binding, and the first enrolled domain without routes; after that the routes. */
  lemma ConfigurationStage(input: Input, expected: Digest, now: Time, g: Digests)
    requires Valid(input)
    requires input.enrollmentSha == input.binding.enrollment && input.inventoryBlocker.None?
    requires forall d :: d in input.domains ==> !Undecided(d)
    ensures var r := Compile(input, expected, now, g);
      ConfigurationFirst(input, expected, g, r.firstBlocker)
      || (ConfigurationFirst(input, expected, g, None) && r.firstBlocker == FirstRouteBlocker(r.routes))
  {
    hide Rows, DomainRows, CoverageOf, CountAll, FirstRouteBlocker, FirstConfiguredBlocker, Valid, Attest, ConfigurationFirst;
    UnresolvedAgrees(input);
    ConfigurationSearch(input, expected, g);
  }

  lemma ConfigurationSearch(input: Input, expected: Digest, g: Digests)
    requires Valid(input)
    ensures ConfigurationFirst(input, expected, g, FirstConfiguredBlocker(input, DomainRows(input), Attest(input, g, expected)))
  {
    hide DomainRows, Before, Sort, Unrouted, Routeless, DomainRowOf, Valid;
    DomainRowsFrom(input);
    DomainsAscend(input);
    var domains := DomainRows(input);
    forall x | x in input.domains
      ensures DomainRowOf(input, x).sha == x.sha
      ensures Routeless(DomainRowOf(input, x)) <==> Unrouted(input, x)
      ensures Unrouted(input, x) ==> DomainRowOf(input, x).blocker == Some(OnConfigured("enrolled_domain_has_no_routes"))
    {
      UnroutedRow(input, x);
    }
    if First(domains, Routeless).Some? {
      FirstByKey(domains, Routeless, DomainRowKey);
      var row := First(domains, Routeless).value;
      var d :| d in input.domains && row == DomainRowOf(input, d);
      assert FirstUnrouted(input, d);
    }
  }

  lemma UnroutedRow(input: Input, d: Domain)
    requires Valid(input) && d in input.domains
    ensures DomainRowOf(input, d).sha == d.sha
    ensures Routeless(DomainRowOf(input, d)) <==> Unrouted(input, d)
    ensures Unrouted(input, d) ==> DomainRowOf(input, d).blocker == Some(OnConfigured("enrolled_domain_has_no_routes"))
  {
    hide RouteCount;
    CountPositive(input, d.sha);
  }

  // ----- what the report lists -----

  lemma {:induction false} FilterSize<T(!new)>(s: seq<T>, p: T -> bool, m: set<T>)
    requires NoDuplicates(s) && forall x :: x in m <==> x in s && p(x)
    ensures |Filter(s, p)| == |m|
    decreases |s|
  {
    if s == [] {
      assert m == {};
    } else {
      var x, rest := s[0], s[1..];
      assert s == [x] + rest && x !in rest;
      assert forall i :: 0 <= i < |rest| ==> rest[i] == s[i + 1];
      FilterSize(rest, p, m - {x});
      FilterFront(s, p);
    }
  }

  lemma KeyedDistinct<T>(s: seq<T>, key: T -> Text)
    requires Keyed(s, key)
    ensures NoDuplicates(s)
  {
    forall i, j | 0 <= i < j < |s| ensures s[i] != s[j] {
      assert key(s[i]) != key(s[j]);
    }
  }

  /** What is declared of the domains is how many there are of each decision. */
  lemma DeclaredExactly(c: Declared, domains: seq<Domain>)
    requires Keyed(domains, DomainKey)
    ensures DeclaredFits(c, domains) <==>
      && c.known == |domains|
      && c.enrolled == |set d | d in domains && d.decision == Enrolled|
      && c.scheduled == |set d | d in domains && d.decision == Scheduled|
      && c.excluded == |set d | d in domains && d.decision == Excluded|
      && c.pending == |set d | d in domains && d.decision == Pending|
      && 0 <= c.activePolicy && 0 <= c.desiredState
  {
    KeyedDistinct(domains, DomainKey);
    forall decision ensures Decided(domains, decision) == |set d | d in domains && d.decision == decision| {
      FilterSize(domains, (d: Domain) => d.decision == decision, set d | d in domains && d.decision == decision);
    }
  }

  /** An input is valid exactly when nothing in it is listed twice, there is a domain and a route, and all of it fits. */
  lemma ValidExactly(input: Input)
    ensures Valid(input) <==>
      && |input.domains| > 0 && |input.routes| > 0 && |input.routes| == input.declaredCount
      && (forall i, j :: 0 <= i < j < |input.domains| ==> input.domains[i].sha != input.domains[j].sha)
      && (forall i, j :: 0 <= i < j < |input.routes| ==> input.routes[i].sha != input.routes[j].sha)
      && (forall i, j :: 0 <= i < j < |input.evidence| ==>
            input.evidence[i].route != input.evidence[j].route && input.evidence[i].thread != input.evidence[j].thread)
      && (forall d :: d in input.domains ==> DomainFits(d)) && (forall r :: r in input.routes ==> RouteFits(input, r))
      && (forall e :: e in input.evidence ==> EvidenceFits(input, e))
      && DeclaredFits(input.declared, input.domains)
  {
    hide DomainFits, RouteFits, EvidenceFits, DeclaredFits;
  }

  /** A domain's row: its decision and reason, how many routes it has, and what holds it up. */
  predicate DomainListed(input: Input, d: Domain, row: DomainRow) {
    && row.sha == d.sha && row.decision == d.decision && row.reason == d.reason
    && row.required == |set r | r in input.routes && r.domain == d.sha|
    && row.blocker == (if d.decision == Enrolled && row.required == 0 then Some(OnConfigured("enrolled_domain_has_no_routes"))
                       else match d.blocker case Some(code) => Some(OnEnrollment(code)) case None => None)
  }

  lemma DomainRowListed(input: Input, d: Domain)
    requires Valid(input)
    ensures DomainListed(input, d, DomainRowOf(input, d))
  {
    AllEnrolled(input);
    KeyedDistinct(input.routes, RouteKey);
    FilterSize(input.routes, (r: Route) => r.domain == d.sha, set r | r in input.routes && r.domain == d.sha);
  }

  /** The report lists every domain and every route once, in the order of their digests. */
  lemma ReportLists(input: Input, expected: Digest, now: Time, g: Digests)
    requires Valid(input)
    ensures var r := Compile(input, expected, now, g);
      && r.binding == input.binding
      && |r.domains| == |input.domains| == r.counts.known && |r.routes| == |input.routes|
      && r.counts.declared == input.declaredCount
      && Ascending(r.domains, DomainRowKey) && Ascending(r.routes, RowKey)
      && (forall d :: d in input.domains ==> exists row :: row in r.domains && DomainListed(input, d, row))
      && (forall x :: x in input.routes ==> RowOf(FrameFor(input, now, g, x), g.oracle) in r.routes)
  {
    hide RowOf, FrameFor, DomainRowOf, DomainListed, Sort, CoverageOf, FirstBlockerOf, CountPlanes, CountStatus, CountDecision;
    AllEnrolled(input);
    var rows := Map(EnrolledRoutes(input), x => RowOf(FrameFor(input, now, g, x), g.oracle));
    var domains := Map(input.domains, d => DomainRowOf(input, d));
    SortKeeps(rows, RowKey);
    SortAscends(rows, RowKey);
    SortKeeps(domains, DomainRowKey);
    SortAscends(domains, DomainRowKey);
    DomainRowsFrom(input);
    forall d | d in input.domains ensures DomainListed(input, d, DomainRowOf(input, d)) {
      DomainRowListed(input, d);
    }
    forall x | x in input.routes ensures RowOf(FrameFor(input, now, g, x), g.oracle) in Rows(input, now, g) {
      RowsTo(input, now, g, x);
    }
  }

  lemma RowsDistinct(input: Input, now: Time, g: Digests)
    requires Valid(input)
    ensures NoDuplicates(Rows(input, now, g)) && NoDuplicates(DomainRows(input))
  {
    hide RowOf, EnrolledRoutes, FrameFor, DomainRowOf, Sort;
    AllEnrolled(input);
    var rows := Map(EnrolledRoutes(input), x => RowOf(FrameFor(input, now, g, x), g.oracle));
    var domains := Map(input.domains, d => DomainRowOf(input, d));
    forall i, j | 0 <= i < j < |rows| ensures rows[i] != rows[j] {
      RowSha(input, now, g, input.routes[i]);
      RowSha(input, now, g, input.routes[j]);
      assert RouteKey(input.routes[i]) != RouteKey(input.routes[j]);
    }
    forall i, j | 0 <= i < j < |domains| ensures domains[i] != domains[j] {
      DomainRowSha(input, input.domains[i]);
      DomainRowSha(input, input.domains[j]);
      assert DomainKey(input.domains[i]) != DomainKey(input.domains[j]);
    }
    SortKeeps(rows, RowKey);
    SortKeeps(domains, DomainRowKey);
    PermutedDistinct(rows, Sort(rows, RowKey));
    PermutedDistinct(domains, Sort(domains, DomainRowKey));
  }

  lemma DomainRowSha(input: Input, d: Domain)
    ensures DomainRowOf(input, d).sha == d.sha
  {
  }

  lemma PermutedDistinct<T(!new)>(a: seq<T>, b: seq<T>)
    requires multiset(a) == multiset(b) && NoDuplicates(a)
    ensures NoDuplicates(b)
  {
    SamePlaces(a, b);
    SizeTells(a);
    SizeTells(b);
    assert Elements(a) == Elements(b);
  }

  /** Every count of the report is the number of its rows that it names. */
  lemma CountsExactly(input: Input, expected: Digest, now: Time, g: Digests)
    requires Valid(input)
    ensures var r := Compile(input, expected, now, g); var c := r.counts;
      && c.ready == |set x | x in r.routes && x.status == Ready|
      && c.blocked == |set x | x in r.routes && x.status == Blocked|
      && c.killed == |set x | x in r.routes && x.status == Killed|
      && c.enrolled == |set d | d in r.domains && d.decision == Enrolled|
      && c.scheduled == |set d | d in r.domains && d.decision == Scheduled|
      && c.pending == |set d | d in r.domains && d.decision == Pending|
      && c.excluded == |set d | d in r.domains && d.decision == Excluded|
  {
    hide Rows, DomainRows, CoverageOf, FirstBlockerOf, CountPlanes, Filter, Valid;
    RowsDistinct(input, now, g);
    var rows, domains := Rows(input, now, g), DomainRows(input);
    forall status ensures CountStatus(rows, status) == |set x | x in rows && x.status == status| {
      FilterSize(rows, (x: RouteRow) => x.status == status, set x | x in rows && x.status == status);
    }
    forall decision ensures CountDecision(domains, decision) == |set d | d in domains && d.decision == decision| {
      FilterSize(domains, (d: DomainRow) => d.decision == decision, set d | d in domains && d.decision == decision);
    }
  }

  /** The planes counted are the configured one, the one at the edge, the inbox, the four of a reply, and any gone wrong. */
  lemma PlanesCounted(input: Input, expected: Digest, now: Time, g: Digests)
    requires Valid(input)
    ensures var r := Compile(input, expected, now, g); var c := r.counts.planes;
      && (forall x :: x in r.routes ==> |x.planes| == 8)
      && c.configured == |set x | x in r.routes && |x.planes| == 8 && x.planes[0].state == Proven|
      && c.active == |set x | x in r.routes && |x.planes| == 8 && x.planes[1].state == Proven|
      && c.inboxReceived == |set x | x in r.routes && |x.planes| == 8 && x.planes[3].state == Proven|
      && c.replyProven == |set x | x in r.routes && x.kind != Sink && |x.planes| == 8
                                   && x.planes[4].state == x.planes[5].state == x.planes[6].state == x.planes[7].state == Proven|
      && c.failedOrStale == |set x | x in r.routes && AnyBad(x)|
  {
    hide Rows, DomainRows, CoverageOf, FirstBlockerOf, CountStatus, CountDecision, Filter, RowOf, FrameFor, Valid;
    RowsDistinct(input, now, g);
    var rows := Rows(input, now, g);
    forall x | x in rows ensures |x.planes| == 8 {
      var route := RowsFrom(input, now, g, x);
      RowIsDecided(FrameFor(input, now, g, route), g.oracle);
    }
    PlaneSet(rows, 0);
    PlaneSet(rows, 1);
    PlaneSet(rows, 3);
    ReplySet(rows);
    BadSet(rows);
  }

  lemma PlaneSet(rows: seq<RouteRow>, p: nat)
    requires NoDuplicates(rows) && p < 8 && forall x :: x in rows ==> |x.planes| == 8
    ensures |Filter(rows, (r: RouteRow) => ProvenAt(r, p))| ==
            |set x | x in rows && |x.planes| == 8 && x.planes[p].state == Proven|
  {
    hide Filter;
    FilterSize(rows, (r: RouteRow) => ProvenAt(r, p), set x | x in rows && |x.planes| == 8 && x.planes[p].state == Proven);
  }

  lemma ReplySet(rows: seq<RouteRow>)
    requires NoDuplicates(rows) && forall x :: x in rows ==> |x.planes| == 8
    ensures |Filter(rows, ReplyProven)| ==
            |set x | x in rows && x.kind != Sink && |x.planes| == 8
                     && x.planes[4].state == x.planes[5].state == x.planes[6].state == x.planes[7].state == Proven|
  {
    hide Filter;
    forall x | x in rows
      ensures ReplyProven(x) <==>
              x.kind != Sink
              && x.planes[4].state == x.planes[5].state == x.planes[6].state == x.planes[7].state == Proven
    {
      assert ReplyProven(x) ==> ProvenAt(x, 4) && ProvenAt(x, 5) && ProvenAt(x, 6) && ProvenAt(x, 7);
    }
    FilterSize(rows, ReplyProven,
               set x | x in rows && x.kind != Sink && |x.planes| == 8
                       && x.planes[4].state == x.planes[5].state == x.planes[6].state == x.planes[7].state == Proven);
  }

  lemma BadSet(rows: seq<RouteRow>)
    requires NoDuplicates(rows)
    ensures |Filter(rows, FailedOrStale)| == |set x | x in rows && AnyBad(x)|
  {
    hide Filter;
    forall x ensures FailedOrStale(x) <==> AnyBad(x) {
      if c :| c in x.planes && (c.state == State.Failed || c.state == Stale || c.state == Mismatch) {
        var p :| 0 <= p < |x.planes| && x.planes[p] == c;
      }
    }
    FilterSize(rows, FailedOrStale, set x | x in rows && AnyBad(x));
  }

  predicate AnyBad(x: RouteRow) {
    exists c :: c in x.planes && (c.state == State.Failed || c.state == Stale || c.state == Mismatch)
  }

  // ----- compiling -----

  method EnsureUnique(values: seq<Text>) returns (ok: bool)
    ensures ok <==> NoDuplicates(values)
  {
    SizeTells(values);
    return |Elements(values)| == |values|;
  }

  method Validate(input: Input) returns (ok: bool)
    ensures ok <==> Valid(input)
  {
    hide Map, Elements, DomainFits, DeclaredFits, RouteFits, EvidenceFits;
    if input.domains == [] || input.routes == [] || |input.routes| != input.declaredCount {
      return false;
    }
    var domains := EnsureUnique(Map(input.domains, DomainKey));
    var routes := EnsureUnique(Map(input.routes, RouteKey));
    var evidence := EnsureUnique(Map(input.evidence, EvidenceKey));
    var threads := EnsureUnique(Map(input.evidence, ThreadKey));
    SizeTells(Map(input.domains, DomainKey));
    SizeTells(Map(input.routes, RouteKey));
    SizeTells(Map(input.evidence, EvidenceKey));
    SizeTells(Map(input.evidence, ThreadKey));
    KeysTell(input.domains, DomainKey);
    KeysTell(input.routes, RouteKey);
    KeysTell(input.evidence, EvidenceKey);
    KeysTell(input.evidence, ThreadKey);
    return domains && routes && evidence && threads
      && (forall d :: d in input.domains ==> DomainFits(d)) && DeclaredFits(input.declared, input.domains)
      && (forall r :: r in input.routes ==> RouteFits(input, r))
      && (forall e :: e in input.evidence ==> EvidenceFits(input, e));
  }

  /** The planes of a route are compiled into an array, which the chronology rewrites in place. */
  method CompileRoute(f: Frame, o: Oracle) returns (row: RouteRow, coherent: bool)
    ensures row == RowOf(f, o) && coherent == Coherent(f)
  {
    hide Chronology, CompilePlane, FirstBad;
    var planes := new Cell[PLANE_COUNT];
    coherent := true;
    for p := 0 to PLANE_COUNT
      invariant forall q :: 0 <= q < p ==> planes[q] == CompilePlane(f, q)
      invariant coherent <==> forall q :: 0 <= q < p ==> CompilePlane(f, q).state != Mismatch
    {
      planes[p] := CompilePlane(f, p);
      if planes[p].state == Mismatch {
        coherent := false;
      }
    }
    assert planes[..] == Compiled(f);
    var killed := Kills(planes[..]);
    var mismatch := ApplyGoldenThreadChronology(planes, f.evidence);
    if mismatch {
      coherent := false;
    }
    var operational := (o.read)(if f.evidence.Some? then Some(f.evidence.value.operational) else None,
                                f.binding.policy, f.now);
    var blocker := FirstBlocker(planes[..], (o.blocker)(operational));
    row := RouteRow(f.route.sha, f.route.domain, f.route.kind,
                    if killed then Killed else if blocker.None? then Ready else Blocked,
                    operational, planes[..], blocker);
  }

  lemma SnocFilter<T(!new)>(s: seq<T>, x: T, p: T -> bool)
    ensures Filter(s + [x], p) == Filter(s, p) + if p(x) then [x] else []
  {
    FilterJoins(s, [x], p);
  }

  lemma SnocMap<T, U>(s: seq<T>, x: T, f: T -> U)
    ensures Map(s + [x], f) == Map(s, f) + [f(x)]
  {
    MapJoins(s, [x], f);
  }

  lemma NothingYet<T(!new), U>(p: T -> bool, f: T -> U)
    ensures Filter([], p) == [] && Map([], f) == []
  {
  }

  method CompileRoutes(input: Input, now: Time, g: Digests) returns (rows: seq<RouteRow>, coherent: bool)
    ensures rows == Rows(input, now, g) && coherent == ReceiptsCoherent(input, now, g)
  {
    hide Sort, RowOf, Coherent, FrameFor, IsEnrolled, Map, Filter;
    ghost var p := (r: Route) => IsEnrolled(input, r);
    ghost var f := (r: Route) => RowOf(FrameFor(input, now, g, r), g.oracle);
    var unsorted: seq<RouteRow> := [];
    NothingYet(p, f);
    assert input.routes[..0] == [];
    coherent := true;
    for i := 0 to |input.routes|
      invariant unsorted == Map(Filter(input.routes[..i], p), f)
      invariant coherent <==> forall r :: r in Filter(input.routes[..i], p) ==> Coherent(FrameFor(input, now, g, r))
    {
      var r := input.routes[i];
      assert input.routes[..i + 1] == input.routes[..i] + [r];
      SnocFilter(input.routes[..i], r, p);
      if IsEnrolled(input, r) {
        var row, fits := CompileRoute(FrameFor(input, now, g, r), g.oracle);
        SnocMap(Filter(input.routes[..i], p), r, f);
        unsorted := unsorted + [row];
        coherent := coherent && fits;
      } else {
        assert Filter(input.routes[..i + 1], p) == Filter(input.routes[..i], p);
      }
    }
    assert input.routes[..|input.routes|] == input.routes;
    FilterAgrees(input.routes, p, r => IsEnrolled(input, r));
    MapAgrees(EnrolledRoutes(input), f, r => RowOf(FrameFor(input, now, g, r), g.oracle));
    rows := Sort(unsorted, RowKey);
  }

  /** How many required routes each domain has; a domain without any is not in the table. */
  method CountRoutes(input: Input) returns (counts: map<Digest, nat>)
    ensures forall d: Digest :: RouteCount(input, d) == if d in counts then counts[d] else 0
  {
    hide IsEnrolled;
    ghost var p := (r: Route) => IsEnrolled(input, r);
    counts := map[];
    for i := 0 to |input.routes|
      invariant forall d: Digest :: CountIn(Filter(input.routes[..i], p), d) == if d in counts then counts[d] else 0
    {
      var r := input.routes[i];
      assert input.routes[..i + 1] == input.routes[..i] + [r];
      SnocFilter(input.routes[..i], r, p);
      if IsEnrolled(input, r) {
        forall d: Digest ensures CountIn(Filter(input.routes[..i + 1], p), d) ==
                                 CountIn(Filter(input.routes[..i], p), d) + if d == r.domain then 1 else 0
        {
          SnocFilter(Filter(input.routes[..i], p), r, (x: Route) => x.domain == d);
        }
        counts := counts[r.domain := (if r.domain in counts then counts[r.domain] else 0) + 1];
      } else {
        assert Filter(input.routes[..i + 1], p) == Filter(input.routes[..i], p);
      }
    }
    assert input.routes[..|input.routes|] == input.routes;
    FilterAgrees(input.routes, p, r => IsEnrolled(input, r));
    forall d: Digest ensures RouteCount(input, d) == CountIn(EnrolledRoutes(input), d) {
      CountIs(input, d, (x: Route) => x.domain == d);
    }
  }

  function CountIn(routes: seq<Route>, d: Digest): nat {
    |Filter(routes, (x: Route) => x.domain == d)|
  }

  method CompileFleetReadiness(input: Input, expected: Digest, now: Time, g: Digests) returns (r: Result<Report>)
    ensures r.Ok? <==> Valid(input)
    ensures r.Ok? ==> r.value == Compile(input, expected, now, g)
  {
    hide Valid, Sort, Map, RouteCount, Attest, CoverageOf, FirstBlockerOf, Rows, CountAll;
    var ok := Validate(input);
    if !ok {
      return Err("fleet readiness input is invalid");
    }
    var attested := Attest(input, g, expected);
    var rows, coherent := CompileRoutes(input, now, g);
    var counts := CountRoutes(input);
    var unsorted := Map(input.domains, (d: Domain) => CountedRow(d, counts));
    MapAgrees(input.domains, (d: Domain) => CountedRow(d, counts), d => DomainRowOf(input, d));
    var domains := Sort(unsorted, DomainRowKey);
    return Ok(Report(input.binding, CoverageOf(input, now, g, attested, rows, domains),
                     CountAll(input, rows, domains), domains, rows, FirstBlockerOf(input, attested, rows, domains)));
  }

  function CountedRow(d: Domain, counts: map<Digest, nat>): DomainRow {
    RowWith(d, if d.sha in counts then counts[d.sha] else 0)
  }
}
