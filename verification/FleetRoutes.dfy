/** Compiling the evidence of one route into its planes and its first blocker. */
module FleetRoutes {
  import opened Results
  import opened Ordering

  type Digest = Text
  type Time = int

  // ----- the input -----

  /** The planes in their order; the last six are the golden thread. */
  const PLANES := ["configured", "cloudflare_active", "inbound_provider_accepted", "inbox_received",
                   "reply_authorized", "outbound_provider_accepted", "recipient_delivered", "privacy_proven"]
  const SOURCES := ["policy_projection", "cloudflare_control_plane", "d1_inbound_audit", "apple_mail_inbox_receipt",
                    "d1_reply_authorization", "outbound_provider_receipt", "external_recipient_receipt",
                    "privacy_non_exposure_receipt"]
  const PLANE_COUNT: nat := 8
  const GOLDEN_FROM: nat := 2
  const MAX_AGE_MS := 15 * 60 * 1000
  const KILLING := {"private_identity_exposed", "wrong_public_identity"}

  datatype Binding = Binding(transaction: Digest, checkout: Digest, tree: Digest, policy: Digest,
                             desiredState: Digest, enrollment: Digest, routeInventory: Digest)
  datatype Kind = RoleAlias | PersonalAlias | CatchAll | Sink
  datatype ContractBody = ContractBody(route: Digest, reason: string, owner: Digest, expiresAt: Time)
  datatype Contract = Contract(body: ContractBody, sha: Digest)
  datatype Route = Route(sha: Digest, domain: Digest, kind: Kind, contract: Option<Contract>)

  datatype Receipt =
    | Observed(failed: bool, at: Time, evidence: Digest, route: Digest, domain: Digest,
               thread: Option<Digest>, binding: Binding, blocker: string)
    | Waived(evidence: Digest, contract: Digest, route: Digest, domain: Digest, thread: Option<Digest>)
  /** Evidence for a route: a receipt for some of the planes, by their place in PLANES. */
  datatype Evidence = Evidence(route: Digest, domain: Digest, thread: Digest, receipts: map<nat, Receipt>,
                               operational: Text)

  // ----- one plane -----

  datatype State = Proven | Failed | Missing | Stale | Mismatch | NotApplicable
  datatype Cell = Cell(state: State, source: Option<string>, at: Option<Time>, evidence: Option<Digest>,
                       recent: Option<bool>, blocker: Option<string>)

  predicate Golden(p: nat) {
    GOLDEN_FROM <= p < PLANE_COUNT
  }

  predicate Good(c: Cell) {
    c.state == Proven || c.state == NotApplicable
  }

  function SourceOf(r: Receipt, p: nat): string
    requires p < PLANE_COUNT
  {
    if r.Waived? then "graduation_contract" else SOURCES[p]
  }

  function Mismatched(r: Receipt, p: nat, code: string): Cell
    requires p < PLANE_COUNT
  {
    Cell(Mismatch, Some(SourceOf(r, p)), if r.Observed? then Some(r.at) else None, Some(r.evidence), Some(false), Some(code))
  }

  /** What is fixed for all planes of a route. */
  datatype Frame = Frame(binding: Binding, route: Route, evidence: Option<Evidence>, now: Time,
                         contractFresh: bool, contractCoherent: bool)

  function CompileWaived(f: Frame, p: nat, r: Receipt): Cell
    requires p < PLANE_COUNT && r.Waived?
  {
    if !f.contractCoherent then Mismatched(r, p, "graduation_contract_digest_mismatch")
    else if !(f.route.kind == Sink && Golden(p) && f.route.contract.Some?
              && r.contract == f.route.contract.value.sha && r.evidence == f.route.contract.value.sha)
    then Mismatched(r, p, "graduation_contract_mismatch")
    else if !f.contractFresh
    then Cell(Stale, Some(SourceOf(r, p)), None, Some(r.evidence), Some(false), Some("graduation_contract_expired"))
    else Cell(NotApplicable, Some(SourceOf(r, p)), None, Some(r.evidence), Some(true), None)
  }

  function CompileObserved(f: Frame, p: nat, r: Receipt): Cell
    requires p < PLANE_COUNT && r.Observed?
  {
    var source, age := SOURCES[p], f.now - r.at;
    if r.binding != f.binding then Mismatched(r, p, "receipt_binding_mismatch")
    else if r.failed
    then Cell(Failed, Some(source), Some(r.at), Some(r.evidence), Some(0 <= age <= MAX_AGE_MS), Some(r.blocker))
    else if age < 0
    then Cell(Failed, Some(source), Some(r.at), Some(r.evidence), Some(false), Some("evidence_timestamp_in_future"))
    else if age > MAX_AGE_MS
    then Cell(Stale, Some(source), Some(r.at), Some(r.evidence), Some(false), Some("evidence_stale"))
    else Cell(Proven, Some(source), Some(r.at), Some(r.evidence), Some(true), None)
  }

  function ReceiptOf(e: Option<Evidence>, p: nat): Option<Receipt> {
    if e.Some? && p in e.value.receipts then Some(e.value.receipts[p]) else None
  }

  function CompilePlane(f: Frame, p: nat): Cell
    requires p < PLANE_COUNT
  {
    var receipt := ReceiptOf(f.evidence, p);
    if receipt.None? then
      Cell(Missing, None, None, None, None,
           Some(if f.evidence.None? && p == 0 then "route_evidence_missing" else "evidence_missing"))
    else
      var r := receipt.value;
      if r.route != f.route.sha || r.domain != f.route.domain then Mismatched(r, p, "receipt_route_binding_mismatch")
      else if Golden(p) && r.thread != Some(f.evidence.value.thread)
      then Mismatched(r, p, "golden_thread_binding_mismatch")
      else if r.Waived? then CompileWaived(f, p, r)
      else CompileObserved(f, p, r)
  }

  function Compiled(f: Frame): (r: seq<Cell>)
    ensures |r| == PLANE_COUNT
  {
    seq(PLANE_COUNT, p requires 0 <= p < PLANE_COUNT => CompilePlane(f, p))
  }

  /** What a receipt must be for its plane to be proven. */
  predicate Proves(f: Frame, p: nat, receipt: Option<Receipt>) {
    && receipt.Some? && receipt.value.Observed? && !receipt.value.failed
    && 0 <= f.now - receipt.value.at <= MAX_AGE_MS
    && receipt.value.binding == f.binding && receipt.value.route == f.route.sha && receipt.value.domain == f.route.domain
    && (Golden(p) ==> f.evidence.Some? && receipt.value.thread == Some(f.evidence.value.thread))
  }

  lemma WaivedCell(f: Frame, p: nat, r: Receipt)
    requires p < PLANE_COUNT && r.Waived?
    ensures var c := CompileWaived(f, p, r);
      && (c.blocker.None? <==> Good(c)) && c.state != Proven
      && (c.state == NotApplicable ==> f.route.kind == Sink && Golden(p) && f.contractFresh && f.contractCoherent)
  {
  }

  lemma ObservedCell(f: Frame, p: nat, r: Receipt)
    requires p < PLANE_COUNT && r.Observed?
    ensures var c := CompileObserved(f, p, r);
      && (c.blocker.None? <==> Good(c)) && c.state != NotApplicable
      && (c.state == Proven <==> r.binding == f.binding && !r.failed && 0 <= f.now - r.at <= MAX_AGE_MS)
      && (c.state == Proven ==> c.at == Some(r.at) && c.recent == Some(true))
  {
  }

  /** A plane that is not good says why, and a proven one was observed, fresh, under the binding. */
  lemma CompiledCell(f: Frame, p: nat)
    requires p < PLANE_COUNT
    ensures var c := CompilePlane(f, p);
      && (c.blocker.None? <==> Good(c))
      && (c.state == Proven <==> Proves(f, p, ReceiptOf(f.evidence, p)))
      && (c.state == Proven ==> c.at == Some(ReceiptOf(f.evidence, p).value.at) && c.recent == Some(true))
      && (c.state == NotApplicable ==>
            f.route.kind == Sink && Golden(p) && f.contractFresh && f.contractCoherent)
  {
    hide CompileWaived, CompileObserved;
    var receipt := ReceiptOf(f.evidence, p);
    if receipt.Some? && receipt.value.Waived? {
      WaivedCell(f, p, receipt.value);
    } else if receipt.Some? {
      ObservedCell(f, p, receipt.value);
    }
  }

  /** A receipt for the route, its domain and, on the golden thread, its thread. */
  predicate Addressed(f: Frame, p: nat, r: Receipt) {
    && r.route == f.route.sha && r.domain == f.route.domain
    && (2 <= p < 8 ==> f.evidence.Some? && r.thread == Some(f.evidence.value.thread))
  }

  /** A waiver that the coherent contract of a sink gives for a plane of the golden thread. */
  predicate Waives(f: Frame, p: nat, r: Receipt) {
    && r.Waived? && f.contractCoherent && f.route.kind == Sink && 2 <= p < 8
    && f.route.contract.Some? && r.contract == f.route.contract.value.sha && r.evidence == f.route.contract.value.sha
  }

  function SourceName(p: nat): string {
    if p == 0 then "policy_projection" else if p == 1 then "cloudflare_control_plane"
    else if p == 2 then "d1_inbound_audit" else if p == 3 then "apple_mail_inbox_receipt"
    else if p == 4 then "d1_reply_authorization" else if p == 5 then "outbound_provider_receipt"
    else if p == 6 then "external_recipient_receipt" else "privacy_non_exposure_receipt"
  }

  lemma SourcesNamed(p: nat)
    requires p < PLANE_COUNT
    ensures SOURCES[p] == SourceName(p)
  {
  }

  lemma WaivedExactly(f: Frame, p: nat, r: Receipt)
    requires p < PLANE_COUNT && r.Waived?
    ensures var c := CompileWaived(f, p, r);
      && c.source == Some("graduation_contract") && c.at == None && c.evidence == Some(r.evidence)
      && c.recent == Some(c.state == NotApplicable)
      && c.state == (if !Waives(f, p, r) then Mismatch else if f.contractFresh then NotApplicable else Stale)
      && c.blocker == if Waives(f, p, r) then (if f.contractFresh then None else Some("graduation_contract_expired"))
                      else if !f.contractCoherent then Some("graduation_contract_digest_mismatch")
                      else Some("graduation_contract_mismatch")
  {
  }

  lemma ObservedExactly(f: Frame, p: nat, r: Receipt)
    requires p < PLANE_COUNT && r.Observed?
    ensures var c := CompileObserved(f, p, r); var age := f.now - r.at;
      && c.source == Some(SourceName(p)) && c.at == Some(r.at) && c.evidence == Some(r.evidence)
      && c.recent == Some(c.state == Proven || (c.state == Failed && r.failed && 0 <= age <= 900000))
      && (c.state == Mismatch <==> r.binding != f.binding)
      && (c.state == Failed <==> r.binding == f.binding && (r.failed || age < 0))
      && (c.state == Stale <==> r.binding == f.binding && !r.failed && age > 900000)
      && (c.state == Proven <==> r.binding == f.binding && !r.failed && 0 <= age <= 900000)
      && c.blocker == match c.state
                      case Mismatch => Some("receipt_binding_mismatch")
                      case Failed => Some(if r.failed then r.blocker else "evidence_timestamp_in_future")
                      case Stale => Some("evidence_stale")
                      case _ => None
  {
    SourcesNamed(p);
  }

  /** What becomes of a plane, state by state, from its receipt, the route's frame and the clock. */
  lemma PlaneExactly(f: Frame, p: nat)
    requires p < PLANE_COUNT
    ensures var c := CompilePlane(f, p);
      if f.evidence.None? || p !in f.evidence.value.receipts then c.state == Missing
      else
        var r := f.evidence.value.receipts[p];
        var here := Addressed(f, p, r);
        && (c.state == Mismatch <==>
              !here || (r.Waived? && !Waives(f, p, r)) || (r.Observed? && r.binding != f.binding))
        && (c.state == Failed <==> here && r.Observed? && r.binding == f.binding && (r.failed || f.now < r.at))
        && (c.state == Stale <==>
              here && if r.Waived? then Waives(f, p, r) && !f.contractFresh
                      else r.binding == f.binding && !r.failed && f.now - r.at > 900000)
        && (c.state == Proven <==>
              here && r.Observed? && r.binding == f.binding && !r.failed && 0 <= f.now - r.at <= 900000)
        && (c.state == NotApplicable <==> here && Waives(f, p, r) && f.contractFresh)
  {
    hide CompileWaived, CompileObserved, Waives;
    if f.evidence.Some? && p in f.evidence.value.receipts {
      var r := f.evidence.value.receipts[p];
      if r.Waived? {
        WaivedExactly(f, p, r);
      } else {
        ObservedExactly(f, p, r);
        OnlyWaived(f, p, r);
      }
    }
  }

  lemma OnlyWaived(f: Frame, p: nat, r: Receipt)
    ensures Waives(f, p, r) ==> r.Waived?
  {
  }

  function MismatchReason(f: Frame, p: nat, r: Receipt): string {
    if r.route != f.route.sha || r.domain != f.route.domain then "receipt_route_binding_mismatch"
    else if !Addressed(f, p, r) then "golden_thread_binding_mismatch"
    else if r.Observed? then "receipt_binding_mismatch"
    else if !f.contractCoherent then "graduation_contract_digest_mismatch"
    else "graduation_contract_mismatch"
  }

  lemma Misaddressed(f: Frame, p: nat, r: Receipt)
    requires p < PLANE_COUNT && ReceiptOf(f.evidence, p) == Some(r) && !Addressed(f, p, r)
    ensures CompilePlane(f, p) == Mismatched(r, p, MismatchReason(f, p, r))
  {
  }

  lemma WellAddressed(f: Frame, p: nat, r: Receipt)
    requires p < PLANE_COUNT && ReceiptOf(f.evidence, p) == Some(r) && Addressed(f, p, r)
    ensures CompilePlane(f, p) == if r.Waived? then CompileWaived(f, p, r) else CompileObserved(f, p, r)
    ensures MismatchReason(f, p, r) == if r.Observed? then "receipt_binding_mismatch"
                                       else if !f.contractCoherent then "graduation_contract_digest_mismatch"
                                       else "graduation_contract_mismatch"
  {
    hide CompileWaived, CompileObserved;
  }

  /** What a cell tells of its receipt. */
  lemma PlaneColumns(f: Frame, p: nat)
    requires p < PLANE_COUNT
    ensures var c := CompilePlane(f, p);
      if f.evidence.None? || p !in f.evidence.value.receipts then
        c.source == None && c.at == None && c.evidence == None && c.recent == None
      else
        var r := f.evidence.value.receipts[p];
        && c.evidence == Some(r.evidence) && c.at == (if r.Observed? then Some(r.at) else None)
        && c.source == Some(if r.Waived? then "graduation_contract" else SourceName(p))
        && c.recent == Some(c.state == Proven || c.state == NotApplicable
                            || (c.state == Failed && r.failed && 0 <= f.now - r.at <= 900000))
  {
    hide CompileWaived, CompileObserved, Waives, SourceName, MismatchReason, Addressed;
    if f.evidence.Some? && p in f.evidence.value.receipts {
      var r := f.evidence.value.receipts[p];
      SourcesNamed(p);
      PlaneExactly(f, p);
      if !Addressed(f, p, r) {
        Misaddressed(f, p, r);
      } else {
        WellAddressed(f, p, r);
        if r.Waived? {
          WaivedExactly(f, p, r);
        } else {
          ObservedExactly(f, p, r);
        }
      }
    }
  }

  /** Why a plane is not good. */
  lemma PlaneReason(f: Frame, p: nat)
    requires p < PLANE_COUNT
    ensures var c := CompilePlane(f, p);
      if f.evidence.None? || p !in f.evidence.value.receipts then
        c.blocker == Some(if f.evidence.None? && p == 0 then "route_evidence_missing" else "evidence_missing")
      else
        var r := f.evidence.value.receipts[p];
        c.blocker == match c.state
                     case Missing => None
                     case Proven => None
                     case NotApplicable => None
                     case Failed => Some(if r.Observed? && r.failed then r.blocker else "evidence_timestamp_in_future")
                     case Stale => Some(if r.Waived? then "graduation_contract_expired" else "evidence_stale")
                     case Mismatch => Some(MismatchReason(f, p, r))
  {
    hide CompileWaived, CompileObserved, Waives, MismatchReason, Addressed;
    if f.evidence.Some? && p in f.evidence.value.receipts {
      var r := f.evidence.value.receipts[p];
      PlaneExactly(f, p);
      if !Addressed(f, p, r) {
        Misaddressed(f, p, r);
      } else {
        WellAddressed(f, p, r);
        if r.Waived? {
          WaivedExactly(f, p, r);
        } else {
          ObservedExactly(f, p, r);
        }
      }
    }
  }

  // ----- the order of the golden thread -----

  /** The times that the evidence gives for the golden planes from one on, in the order of the planes. */
  function Times(e: Evidence, p: nat): seq<Time>
    requires p <= PLANE_COUNT
    decreases PLANE_COUNT - p
  {
    if p == PLANE_COUNT then []
    else
      (if Golden(p) && p in e.receipts && e.receipts[p].Observed? then [e.receipts[p].at] else []) + Times(e, p + 1)
  }

  ghost predicate Sorted(times: seq<Time>) {
    forall i, j :: 0 <= i < j < |times| ==> times[i] <= times[j]
  }

  function Overwritten(c: Cell): Cell {
    c.(state := Mismatch, recent := Some(false), blocker := Some("golden_thread_chronology_mismatch"))
  }

  /** Whether the receipt for a plane is older than the latest before it. */
  predicate Early(e: Evidence, p: nat, latest: Option<Time>) {
    Golden(p) && p in e.receipts && e.receipts[p].Observed? && latest.Some? && e.receipts[p].at < latest.value
  }

  function Latest(e: Evidence, p: nat, latest: Option<Time>): Option<Time> {
    if Golden(p) && p in e.receipts && e.receipts[p].Observed? && !Early(e, p, latest)
    then Some(e.receipts[p].at) else latest
  }

  function Chronology(cells: seq<Cell>, e: Evidence, p: nat, latest: Option<Time>): (seq<Cell>, bool)
    requires |cells| == PLANE_COUNT && p <= PLANE_COUNT
    decreases PLANE_COUNT - p
  {
    if p == PLANE_COUNT then (cells, false)
    else
      var next := if Early(e, p, latest) then cells[p := Overwritten(cells[p])] else cells;
      var rest := Chronology(next, e, p + 1, Latest(e, p, latest));
      (rest.0, Early(e, p, latest) || rest.1)
  }

  function Chronicled(cells: seq<Cell>, e: Option<Evidence>): (seq<Cell>, bool)
    requires |cells| == PLANE_COUNT
  {
    if e.None? then (cells, false) else Chronology(cells, e.value, 0, None)
  }

  /** Planes that were observed before an earlier plane lose their state in place. */
  method ApplyGoldenThreadChronology(planes: array<Cell>, evidence: Option<Evidence>) returns (mismatch: bool)
    requires planes.Length == PLANE_COUNT
    modifies planes
    ensures (planes[..], mismatch) == Chronicled(old(planes[..]), evidence)
  {
    mismatch := false;
    if evidence.None? {
      return;
    }
    var e := evidence.value;
    var latest: Option<Time> := None;
    ghost var all := Chronicled(planes[..], evidence);
    for p := 0 to PLANE_COUNT
      invariant planes.Length == PLANE_COUNT
      invariant all == (Chronology(planes[..], e, p, latest).0, mismatch || Chronology(planes[..], e, p, latest).1)
    {
      ghost var before := planes[..];
      if Golden(p) && p in e.receipts && e.receipts[p].Observed? {
        var observedAt := e.receipts[p].at;
        if latest.Some? && observedAt < latest.value {
          planes[p] := Overwritten(planes[p]);
          mismatch := true;
          assert planes[..] == before[p := Overwritten(before[p])];
        } else {
          latest := Some(observedAt);
        }
      }
    }
  }

  lemma {:induction false} ChronologyKeeps(cells: seq<Cell>, e: Evidence, p: nat, latest: Option<Time>, q: nat)
    requires |cells| == PLANE_COUNT && p <= PLANE_COUNT && q < PLANE_COUNT
    ensures var after := Chronology(cells, e, p, latest).0;
      && |after| == PLANE_COUNT
      && (q < p || !Golden(q) ==> after[q] == cells[q])
      && (after[q] == cells[q] || after[q] == Overwritten(cells[q]))
      && (!Chronology(cells, e, p, latest).1 ==> after == cells)
    decreases PLANE_COUNT - p
  {
    if p < PLANE_COUNT {
      var next := if Early(e, p, latest) then cells[p := Overwritten(cells[p])] else cells;
      ChronologyKeeps(next, e, p + 1, Latest(e, p, latest), q);
      ChronologyKeeps(next, e, p + 1, Latest(e, p, latest), p);
    }
  }

  ghost predicate NotBefore(times: seq<Time>, latest: Option<Time>) {
    latest.Some? ==> forall i :: 0 <= i < |times| ==> latest.value <= times[i]
  }

  lemma SortedCons(at: Time, rest: seq<Time>, latest: Option<Time>)
    ensures Sorted([at] + rest) <==> Sorted(rest) && NotBefore(rest, Some(at))
    ensures NotBefore([at] + rest, latest) <==> NotBefore(rest, latest) && (latest.Some? ==> latest.value <= at)
  {
    var all := [at] + rest;
    assert all[0] == at && forall i :: 0 <= i < |rest| ==> all[i + 1] == rest[i];
    if Sorted(all) {
      forall i, j | 0 <= i < j < |rest| ensures rest[i] <= rest[j] {
        assert all[i + 1] <= all[j + 1];
      }
    }
  }

  lemma NotBeforeChains(rest: seq<Time>, at: Time, latest: Time)
    requires latest <= at && NotBefore(rest, Some(at))
    ensures NotBefore(rest, Some(latest))
  {
  }

  /** A mismatch is reported exactly when the supplied times are out of order. */
  lemma {:induction false} MismatchIffUnsorted(cells: seq<Cell>, e: Evidence, p: nat, latest: Option<Time>)
    requires |cells| == PLANE_COUNT && p <= PLANE_COUNT
    ensures !Chronology(cells, e, p, latest).1 <==> Sorted(Times(e, p)) && NotBefore(Times(e, p), latest)
    decreases PLANE_COUNT - p
  {
    hide Sorted, NotBefore;
    if p == PLANE_COUNT {
      NothingSorted(latest);
    } else {
      var next := if Early(e, p, latest) then cells[p := Overwritten(cells[p])] else cells;
      MismatchIffUnsorted(next, e, p + 1, Latest(e, p, latest));
      var rest := Times(e, p + 1);
      if Golden(p) && p in e.receipts && e.receipts[p].Observed? {
        var at := e.receipts[p].at;
        assert Times(e, p) == [at] + rest;
        SortedCons(at, rest, latest);
        if NotBefore(rest, Some(at)) && latest.Some? && latest.value <= at {
          NotBeforeChains(rest, at, latest.value);
        }
        AlwaysNotBefore(rest);
      } else {
        assert Times(e, p) == rest;
      }
    }
  }

  lemma NothingSorted(latest: Option<Time>)
    ensures Sorted([]) && NotBefore([], latest)
  {
  }

  lemma AlwaysNotBefore(rest: seq<Time>)
    ensures NotBefore(rest, None)
  {
  }

  /** Where the latest time stands when a plane is reached. */
  function Reached(e: Evidence, p: nat, latest: Option<Time>, q: nat): Option<Time>
    requires p <= q <= PLANE_COUNT
    decreases q - p
  {
    if p == q then latest else Reached(e, p + 1, Latest(e, p, latest), q)
  }

  lemma {:induction false} ReachedGrows(e: Evidence, p: nat, latest: Option<Time>, q: nat)
    requires p <= q <= PLANE_COUNT && latest.Some?
    ensures Reached(e, p, latest, q).Some? && latest.value <= Reached(e, p, latest, q).value
    decreases q - p
  {
    if p < q {
      ReachedGrows(e, p + 1, Latest(e, p, latest), q);
    }
  }

  lemma {:induction false} EarlyOverwritten(cells: seq<Cell>, e: Evidence, p: nat, latest: Option<Time>, q: nat)
    requires |cells| == PLANE_COUNT && p <= q < PLANE_COUNT && Early(e, q, Reached(e, p, latest, q))
    ensures |Chronology(cells, e, p, latest).0| == PLANE_COUNT
    ensures Chronology(cells, e, p, latest).0[q] == Overwritten(cells[q])
    decreases PLANE_COUNT - p
  {
    var next := if Early(e, p, latest) then cells[p := Overwritten(cells[p])] else cells;
    if p == q {
      ChronologyKeeps(next, e, p + 1, Latest(e, p, latest), q);
    } else {
      EarlyOverwritten(next, e, p + 1, Latest(e, p, latest), q);
    }
  }

  lemma {:induction false} ReachedSplit(e: Evidence, p: nat, latest: Option<Time>, m: nat, q: nat)
    requires p <= m <= q <= PLANE_COUNT
    ensures Reached(e, p, latest, q) == Reached(e, m, Reached(e, p, latest, m), q)
    decreases m - p
  {
    if p < m {
      ReachedSplit(e, p + 1, Latest(e, p, latest), m, q);
    }
  }

  lemma {:induction false} ChronologyAt(cells: seq<Cell>, e: Evidence, p: nat, latest: Option<Time>, q: nat)
    requires |cells| == PLANE_COUNT && p <= q < PLANE_COUNT
    ensures |Chronology(cells, e, p, latest).0| == PLANE_COUNT
    ensures Chronology(cells, e, p, latest).0[q] ==
            if Early(e, q, Reached(e, p, latest, q)) then Overwritten(cells[q]) else cells[q]
    decreases PLANE_COUNT - p
  {
    var next := if Early(e, p, latest) then cells[p := Overwritten(cells[p])] else cells;
    if p == q {
      ChronologyKeeps(next, e, p + 1, Latest(e, p, latest), q);
    } else {
      ChronologyAt(next, e, p + 1, Latest(e, p, latest), q);
    }
  }

  predicate Watched(e: Evidence, p: nat) {
    2 <= p < 8 && p in e.receipts && e.receipts[p].Observed?
  }

  lemma {:induction false} ReachedIs(e: Evidence, p: nat, latest: Option<Time>, q: nat, x: Time)
    requires p <= q <= PLANE_COUNT
    ensures Reached(e, p, latest, q).Some? && x < Reached(e, p, latest, q).value <==>
            (latest.Some? && x < latest.value) || exists a: nat :: p <= a < q && Watched(e, a) && x < e.receipts[a].at
    decreases q - p
  {
    if p < q {
      ReachedIs(e, p + 1, Latest(e, p, latest), q, x);
    }
  }

  /** A plane is rewritten exactly when it is on the golden thread and an earlier plane of it was observed later. */
  lemma RewrittenExactly(cells: seq<Cell>, e: Evidence, q: nat)
    requires |cells| == PLANE_COUNT && q < PLANE_COUNT
    ensures |Chronicled(cells, Some(e)).0| == PLANE_COUNT
    ensures Chronicled(cells, Some(e)).0[q] ==
            if Watched(e, q) && exists a: nat :: a < q && Watched(e, a) && e.receipts[q].at < e.receipts[a].at
            then cells[q].(state := Mismatch, recent := Some(false), blocker := Some("golden_thread_chronology_mismatch"))
            else cells[q]
  {
    hide Chronology, Reached;
    ChronologyAt(cells, e, 0, None, q);
    if Watched(e, q) {
      ReachedIs(e, 0, None, q, e.receipts[q].at);
    }
  }

  /** Golden planes that are left proven were observed in the order of the planes. */
  lemma ProvenInOrder(f: Frame, p: nat, q: nat)
    requires f.evidence.Some? && Golden(p) && Golden(q) && p < q
    ensures var after := Chronicled(Compiled(f), f.evidence).0;
      && |after| == PLANE_COUNT
      && (after[p].state == Proven && after[q].state == Proven ==>
            after[p].at.Some? && after[q].at.Some? && after[p].at.value <= after[q].at.value)
  {
    hide Chronology, CompilePlane;
    var e, cells := f.evidence.value, Compiled(f);
    ChronologyKeeps(cells, e, 0, None, p);
    ChronologyKeeps(cells, e, 0, None, q);
    CompiledCell(f, p);
    CompiledCell(f, q);
    var after := Chronology(cells, e, 0, None).0;
    var before := Reached(e, 0, None, p);
    if Early(e, p, before) {
      EarlyOverwritten(cells, e, 0, None, p);
    } else if Early(e, q, Reached(e, 0, None, q)) {
      EarlyOverwritten(cells, e, 0, None, q);
    } else if after[p].state == Proven {
      ReachedSplit(e, 0, None, p, p + 1);
      ReachedSplit(e, 0, None, p + 1, q);
      ReachedGrows(e, p + 1, Latest(e, p, before), q);
    }
  }

  // ----- one route -----

  datatype Status = Ready | Blocked | Killed
  /** The place of a blocker: a plane, or the operational status behind them all. */
  datatype RouteBlocker = RouteBlocker(plane: nat, code: string)
  datatype RouteRow = RouteRow(sha: Digest, domain: Digest, kind: Kind, status: Status, operational: Text,
                               planes: seq<Cell>, blocker: Option<RouteBlocker>)

  const OPERATIONAL: nat := PLANE_COUNT

  /** What the digest function and the reader of the operational status say. */
  datatype Oracle = Oracle(contractSha: ContractBody -> Digest,
                           read: (Option<Text>, Digest, Time) -> Text,
                           blocker: Text -> Option<string>)

  function FirstBad(cells: seq<Cell>, p: nat): Option<RouteBlocker>
    requires p <= |cells|
    decreases |cells| - p
  {
    if p == |cells| then None
    else if !Good(cells[p]) then Some(RouteBlocker(p, if cells[p].blocker.Some? then cells[p].blocker.value else ""))
    else FirstBad(cells, p + 1)
  }

  function FrameOf(binding: Binding, r: Route, e: Option<Evidence>, now: Time, o: Oracle): Frame {
    Frame(binding, r, e, now,
          r.contract.None? || r.contract.value.body.expiresAt > now,
          r.contract.None?
          || (r.contract.value.body.route == r.sha && r.contract.value.sha == (o.contractSha)(r.contract.value.body)))
  }

  predicate Kills(cells: seq<Cell>) {
    exists p :: 0 <= p < |cells| && cells[p].state == Failed && cells[p].blocker.Some? && cells[p].blocker.value in KILLING
  }

  function RowOf(f: Frame, o: Oracle): RouteRow {
    var cells := Compiled(f);
    var planes := Chronicled(cells, f.evidence).0;
    var operational := (o.read)(if f.evidence.Some? then Some(f.evidence.value.operational) else None,
                                f.binding.policy, f.now);
    var blocker := FirstBlocker(planes, (o.blocker)(operational));
    RouteRow(f.route.sha, f.route.domain, f.route.kind,
             if Kills(cells) then Killed else if blocker.None? then Ready else Blocked,
             operational, planes, blocker)
  }

  function FirstBlocker(planes: seq<Cell>, operational: Option<string>): Option<RouteBlocker> {
    var bad := FirstBad(planes, 0);
    if bad.Some? then bad
    else if operational.Some? then Some(RouteBlocker(OPERATIONAL, operational.value)) else None
  }

  /** Whether all receipts of a route fit it and each other. */
  function Coherent(f: Frame): bool {
    && (forall p :: 0 <= p < PLANE_COUNT ==> CompilePlane(f, p).state != Mismatch)
    && !Chronicled(Compiled(f), f.evidence).1
  }

  lemma {:induction false} FirstBadIs(cells: seq<Cell>, p: nat)
    requires p <= |cells|
    ensures FirstBad(cells, p).None? <==> forall q :: p <= q < |cells| ==> Good(cells[q])
    ensures FirstBad(cells, p).Some? ==>
      var b := FirstBad(cells, p).value;
      p <= b.plane < |cells| && !Good(cells[b.plane]) && forall q :: p <= q < b.plane ==> Good(cells[q])
    decreases |cells| - p
  {
    if p < |cells| {
      FirstBadIs(cells, p + 1);
    }
  }

  /** A route is ready exactly when nothing blocks it, its blocker is the first in the order of the
      planes and says why, and a killed route is always blocked. */
  lemma RowIsDecided(f: Frame, o: Oracle)
    ensures var r := RowOf(f, o);
      && |r.planes| == PLANE_COUNT
      && (r.status == Ready <==> r.blocker.None?)
      && (r.status == Killed ==> r.blocker.Some? && r.blocker.value.plane < OPERATIONAL)
      && (r.status == Killed <==> Kills(Compiled(f)))
      && (r.blocker.None? <==> (forall p :: 0 <= p < PLANE_COUNT ==> Good(r.planes[p])) && (o.blocker)(r.operational).None?)
      && (r.blocker.Some? && r.blocker.value.plane < OPERATIONAL ==>
            && !Good(r.planes[r.blocker.value.plane])
            && r.planes[r.blocker.value.plane].blocker == Some(r.blocker.value.code)
            && forall q :: 0 <= q < r.blocker.value.plane ==> Good(r.planes[q]))
  {
    hide Chronology, CompilePlane, FirstBad;
    var cells := Compiled(f);
    var planes := Chronicled(cells, f.evidence).0;
    assert |planes| == PLANE_COUNT by { PlanesOf(f, 0); }
    FirstBadIs(planes, 0);
    forall p | 0 <= p < PLANE_COUNT
      ensures planes[p] == cells[p] || planes[p] == Overwritten(cells[p])
      ensures cells[p] == CompilePlane(f, p) && (cells[p].blocker.None? <==> Good(cells[p]))
    {
      PlanesOf(f, p);
      CompiledCell(f, p);
    }
    BadCode(planes);
  }

  lemma PlanesOf(f: Frame, p: nat)
    requires p < PLANE_COUNT
    ensures var planes := Chronicled(Compiled(f), f.evidence).0;
      |planes| == PLANE_COUNT && (planes[p] == Compiled(f)[p] || planes[p] == Overwritten(Compiled(f)[p]))
  {
    hide Chronology, CompilePlane;
    if f.evidence.Some? {
      ChronologyKeeps(Compiled(f), f.evidence.value, 0, None, p);
    }
  }

  /** A receipt for the route, in its thread and under the binding, that failed because a private identity was exposed or
      a wrong one shown. */
  predicate KilledBy(f: Frame, p: nat) {
    f.evidence.Some? && p in f.evidence.value.receipts
    && var r := f.evidence.value.receipts[p];
       Addressed(f, p, r) && r.Observed? && r.binding == f.binding && r.failed
       && (r.blocker == "private_identity_exposed" || r.blocker == "wrong_public_identity")
  }

  /** A route is killed exactly when some receipt kills it, whatever the order of the observations. */
  lemma KilledExactly(f: Frame, o: Oracle)
    ensures RowOf(f, o).status == Killed <==> exists p: nat :: p < 8 && KilledBy(f, p)
  {
    hide CompilePlane, Chronicled, FirstBad, Addressed;
    var cells := Compiled(f);
    forall p: nat | p < PLANE_COUNT
      ensures cells[p].state == Failed && cells[p].blocker.Some? && cells[p].blocker.value in KILLING <==> KilledBy(f, p)
    {
      assert cells[p] == CompilePlane(f, p);
      PlaneExactly(f, p);
      PlaneReason(f, p);
      FutureKillsNot();
    }
    RowIsDecided(f, o);
  }

  lemma FutureKillsNot()
    ensures "evidence_timestamp_in_future" !in KILLING
    ensures forall s :: s in KILLING <==> s == "private_identity_exposed" || s == "wrong_public_identity"
  {
  }

  /** A plane that needs nothing more: observed in time for the route, or waived by the contract of a sink. */
  predicate Settles(f: Frame, p: nat, r: Receipt) {
    && Addressed(f, p, r)
    && if r.Waived? then Waives(f, p, r) && f.contractFresh
       else r.binding == f.binding && !r.failed && 0 <= f.now - r.at <= 900000
  }

  /** Evidence that settles every plane, its golden planes observed in their order. */
  ghost predicate SettlesAll(f: Frame, e: Evidence) {
    && (forall p: nat :: p < 8 ==> p in e.receipts && Settles(f, p, e.receipts[p]))
    && (forall p: nat, q: nat :: 2 <= p < q < 8 && p in e.receipts && q in e.receipts
                                 && e.receipts[p].Observed? && e.receipts[q].Observed?
          ==> e.receipts[p].at <= e.receipts[q].at)
  }

  lemma {:induction false} TimesAre(e: Evidence, p: nat, x: Time)
    requires p <= PLANE_COUNT
    ensures x in Times(e, p) <==>
            exists q: nat :: p <= q < 8 && 2 <= q && q in e.receipts && e.receipts[q].Observed? && e.receipts[q].at == x
    decreases PLANE_COUNT - p
  {
    if p < PLANE_COUNT {
      TimesAre(e, p + 1, x);
    }
  }

  /** The times are sorted exactly when no golden plane was observed before an earlier one. */
  lemma {:induction false} SortedExactly(e: Evidence, p: nat)
    requires p <= PLANE_COUNT
    ensures Sorted(Times(e, p)) <==>
            forall a: nat, b: nat :: p <= a < b < 8 && 2 <= a && a in e.receipts && b in e.receipts
                                     && e.receipts[a].Observed? && e.receipts[b].Observed?
              ==> e.receipts[a].at <= e.receipts[b].at
    decreases PLANE_COUNT - p
  {
    hide Sorted;
    if p == PLANE_COUNT {
      NothingSorted(None);
    } else {
      SortedExactly(e, p + 1);
      if Golden(p) && p in e.receipts && e.receipts[p].Observed? {
        var at, rest := e.receipts[p].at, Times(e, p + 1);
        assert Times(e, p) == [at] + rest;
        SortedCons(at, rest, None);
        NotBeforeTells(e, p + 1, at);
      } else {
        assert Times(e, p) == Times(e, p + 1);
      }
    }
  }

  lemma NotBeforeTells(e: Evidence, p: nat, at: Time)
    requires p <= PLANE_COUNT
    ensures NotBefore(Times(e, p), Some(at)) <==>
            forall b: nat :: p <= b < 8 && 2 <= b && b in e.receipts && e.receipts[b].Observed? ==> at <= e.receipts[b].at
  {
    hide Times;
    var times := Times(e, p);
    forall x ensures x in times <==>
      exists q: nat :: p <= q < 8 && 2 <= q && q in e.receipts && e.receipts[q].Observed? && e.receipts[q].at == x
    {
      TimesAre(e, p, x);
    }
    if forall b: nat :: p <= b < 8 && 2 <= b && b in e.receipts && e.receipts[b].Observed? ==> at <= e.receipts[b].at {
      forall i | 0 <= i < |times| ensures at <= times[i] {
        assert times[i] in times;
      }
    }
    if NotBefore(times, Some(at)) {
      forall b: nat | p <= b < 8 && 2 <= b && b in e.receipts && e.receipts[b].Observed? ensures at <= e.receipts[b].at {
        assert e.receipts[b].at in times;
        var i :| 0 <= i < |times| && times[i] == e.receipts[b].at;
      }
    }
  }

  /** Nothing blocks a route exactly when it has evidence that settles all its planes in order and an operational status
      without a blocker. */
  lemma UnblockedExactly(f: Frame, o: Oracle)
    ensures RowOf(f, o).blocker.None? <==>
      && f.evidence.Some? && SettlesAll(f, f.evidence.value)
      && (o.blocker)((o.read)(Some(f.evidence.value.operational), f.binding.policy, f.now)).None?
  {
    hide CompilePlane, Chronology, FirstBad, Addressed, Settles, Sorted, Times;
    var cells, row := Compiled(f), RowOf(f, o);
    RowIsDecided(f, o);
    forall p: nat | p < 8
      ensures Good(cells[p]) <==>
              f.evidence.Some? && p in f.evidence.value.receipts && Settles(f, p, f.evidence.value.receipts[p])
      ensures row.planes[p] == cells[p] || row.planes[p] == Overwritten(cells[p])
    {
      assert cells[p] == CompilePlane(f, p);
      PlaneGood(f, p);
      PlanesOf(f, p);
    }
    if row.blocker.None? {
      UnblockedIsCoherent(f, o);
    }
    if f.evidence.Some? {
      var e := f.evidence.value;
      MismatchIffUnsorted(cells, e, 0, None);
      AlwaysNotBefore(Times(e, 0));
      SortedExactly(e, 0);
      forall p: nat | p < 8 && !Chronology(cells, e, 0, None).1 ensures row.planes[p] == cells[p] {
        ChronologyKeeps(cells, e, 0, None, p);
      }
    } else {
      assert !Good(cells[0]);
    }
  }

  /** The receipts of a route cohere exactly when each is addressed to it, under its contract or the binding, and the golden
      planes were observed in their order. */
  lemma CoherentExactly(f: Frame)
    ensures Coherent(f) <==>
      f.evidence.Some? ==>
        var e := f.evidence.value;
        && (forall p: nat :: p < 8 && p in e.receipts ==>
              var r := e.receipts[p];
              Addressed(f, p, r) && (if r.Waived? then Waives(f, p, r) else r.binding == f.binding))
        && (forall p: nat, q: nat :: p < q && Watched(e, p) && Watched(e, q) ==> e.receipts[p].at <= e.receipts[q].at)
  {
    hide CompilePlane, Chronology, Addressed, Waives, Sorted, Times;
    forall p: nat | p < 8
      ensures CompilePlane(f, p).state != Mismatch <==>
              (f.evidence.Some? && p in f.evidence.value.receipts ==>
                 var r := f.evidence.value.receipts[p];
                 Addressed(f, p, r) && (if r.Waived? then Waives(f, p, r) else r.binding == f.binding))
    {
      PlaneExactly(f, p);
    }
    if f.evidence.Some? {
      var e := f.evidence.value;
      MismatchIffUnsorted(Compiled(f), e, 0, None);
      AlwaysNotBefore(Times(e, 0));
      SortedExactly(e, 0);
    }
  }

  /** The columns of a row that say which route it is and what its operational status reads. */
  lemma RowColumns(f: Frame, o: Oracle)
    ensures var row := RowOf(f, o);
      && row.sha == f.route.sha && row.domain == f.route.domain && row.kind == f.route.kind
      && row.operational == (o.read)(if f.evidence.Some? then Some(f.evidence.value.operational) else None,
                                     f.binding.policy, f.now)
      && row.planes == Chronicled(Compiled(f), f.evidence).0
  {
    hide Chronicled, CompilePlane, FirstBad;
  }

  lemma PlaneGood(f: Frame, p: nat)
    requires p < PLANE_COUNT
    ensures Good(CompilePlane(f, p)) <==>
            f.evidence.Some? && p in f.evidence.value.receipts && Settles(f, p, f.evidence.value.receipts[p])
  {
    hide CompilePlane, Addressed;
    PlaneExactly(f, p);
    if f.evidence.Some? && p in f.evidence.value.receipts {
      OnlyWaived(f, p, f.evidence.value.receipts[p]);
    }
  }

  /** Only a sink's golden planes may be left as not applicable. */
  lemma WaivedOnlyInSinks(f: Frame, o: Oracle, p: nat)
    requires p < PLANE_COUNT
    ensures var r := RowOf(f, o);
      |r.planes| == PLANE_COUNT && (r.planes[p].state == NotApplicable ==> r.kind == Sink && Golden(p))
  {
    hide Chronicled, CompilePlane, FirstBad;
    PlanesOf(f, p);
    CompiledCell(f, p);
  }

  lemma BadCode(cells: seq<Cell>)
    ensures var b := FirstBad(cells, 0);
      b.Some? ==> b.value.plane < |cells|
                  && (cells[b.value.plane].blocker.Some? ==> cells[b.value.plane].blocker.value == b.value.code)
  {
    BadCodeFrom(cells, 0);
  }

  lemma {:induction false} BadCodeFrom(cells: seq<Cell>, p: nat)
    requires p <= |cells|
    ensures var b := FirstBad(cells, p);
      b.Some? ==> b.value.plane < |cells|
                  && (cells[b.value.plane].blocker.Some? ==> cells[b.value.plane].blocker.value == b.value.code)
    decreases |cells| - p
  {
    if p < |cells| {
      BadCodeFrom(cells, p + 1);
    }
  }

  /** A route without a blocker has evidence, and its receipts fit it and each other. */
  lemma UnblockedIsCoherent(f: Frame, o: Oracle)
    requires RowOf(f, o).blocker.None?
    ensures f.evidence.Some? && Coherent(f)
  {
    hide Chronology;
    RowIsDecided(f, o);
    var r := RowOf(f, o);
    assert Good(r.planes[0]);
    PlanesOf(f, 0);
    forall p | 0 <= p < PLANE_COUNT ensures CompilePlane(f, p).state != Mismatch {
      PlanesOf(f, p);
      assert Good(r.planes[p]);
    }
    if f.evidence.Some? {
      MismatchShows(Compiled(f), f.evidence.value, 0, None);
    }
  }

  lemma {:induction false} MismatchShows(cells: seq<Cell>, e: Evidence, p: nat, latest: Option<Time>)
    requires |cells| == PLANE_COUNT && p <= PLANE_COUNT
    ensures Chronology(cells, e, p, latest).1 ==>
      var after := Chronology(cells, e, p, latest).0;
      |after| == PLANE_COUNT && exists q :: 0 <= q < PLANE_COUNT && !Good(after[q])
    decreases PLANE_COUNT - p
  {
    if p < PLANE_COUNT {
      var next := if Early(e, p, latest) then cells[p := Overwritten(cells[p])] else cells;
      MismatchShows(next, e, p + 1, Latest(e, p, latest));
      ChronologyKeeps(next, e, p + 1, Latest(e, p, latest), p);
      assert Early(e, p, latest) ==> !Good(Chronology(next, e, p + 1, Latest(e, p, latest)).0[p]);
    }
  }
}
