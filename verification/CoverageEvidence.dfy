/** Coverage of the provider readback: what a coverage claims, and when its claims hold together. */
module CoverageEvidence {
  import opened Results
  import opened Lists
  import Texts

  datatype Mode = Canary | FullDesiredState
  datatype Profile = InventoryV1 | DarkAcceptanceV1

  const SURFACES := ["access_application", "access_policies", "r2_spool_lifecycle", "worker_deployment_identity",
                     "worker_route_identity", "queue_backlog", "dead_letter_queue_backlog", "spool_emptiness",
                     "readiness_endpoint"]
  const DARK_CAPABILITIES := ["access-applications-get-an-access-application",
                              "access-policies-list-access-app-policies",
                              "access-policies-get-an-access-policy",
                              "r2-get-bucket-lifecycle-configuration"]

  datatype BlockerCode = PartialDesiredScope | ProfileInventoryOnly | SurfaceUnimplemented | ProviderReadFailed
  datatype Blocker = Blocker(code: BlockerCode, capability: Option<string>, surface: Option<string>)

  datatype Continuity = Continuity(retainedApp: string, readbackApp: string, retainedPolicy: string,
                                   policyParentApp: string, policyReadbackApp: string, policyReadbackPolicy: string)

  datatype Coverage = Coverage(
    mode: Mode,
    profile: Profile,
    desiredSha: string,
    manifestSha: Option<string>,
    expectedCount: int,
    selectedCount: int,
    observedCount: int,
    selected: seq<string>,
    observed: seq<string>,
    required: seq<string>,
    successful: seq<string>,
    failed: seq<string>,
    missing: seq<string>,
    requiredSurfaces: seq<string>,
    successfulSurfaces: seq<string>,
    missingSurfaces: seq<string>,
    selectedComplete: bool,
    desiredComplete: bool,
    acceptanceComplete: bool,
    continuity: Option<Continuity>,
    blockers: seq<Blocker>)

  // ----- sets written as lists -----

  predicate IsSha256(s: string) {
    Texts.HexText(s, 64)
  }

  predicate Within(a: seq<string>, b: seq<string>) {
    forall x :: x in a ==> x in b
  }

  predicate SameStringSet(left: seq<string>, right: seq<string>) {
    |left| == |right| && Within(left, right)
  }

  predicate Distinct(values: seq<string>) {
    |Elements(values)| == |values|
  }

  predicate ValidStringSet(values: seq<string>) {
    (forall x :: x in values ==> x != "") && Distinct(values)
  }

  predicate ValidSha256Set(values: seq<string>, count: int) {
    |values| == count && (forall x :: x in values ==> IsSha256(x)) && Distinct(values)
  }

  predicate ProviderId(s: string) {
    s != "" && Texts.TrimEnd(Texts.TrimStart(s)) == s
  }

  predicate ValidContinuity(proof: Option<Continuity>) {
    proof.Some? &&
    var p := proof.value;
    && ProviderId(p.retainedApp) && ProviderId(p.readbackApp) && ProviderId(p.retainedPolicy)
    && ProviderId(p.policyParentApp) && ProviderId(p.policyReadbackApp) && ProviderId(p.policyReadbackPolicy)
    && p.retainedApp == p.readbackApp == p.policyParentApp == p.policyReadbackApp
    && p.retainedPolicy == p.policyReadbackPolicy
  }

  predicate ValidBlocker(b: Blocker) {
    (b.capability.Some? ==> b.capability.value != "") && (b.surface.Some? ==> b.surface.value in SURFACES)
  }

  // ----- the validator -----

  /** The digest of a domain, its case and surrounding whitespace aside. */
  function DomainSha(domain: string, sha: string -> string): string {
    sha(Texts.Normal(domain))
  }

  function DomainShas(domains: seq<string>, sha: string -> string): seq<string> {
    Map(domains, (d: string) => DomainSha(d, sha))
  }

  /** The digest of a domain is that of its trimmed and lower-case spelling, and domains are listed as they come. */
  lemma ShasExactly(domains: seq<string>, sha: string -> string, i: nat, m: string, t: string)
    requires i < |domains| && Texts.Trimmed(domains[i], m) && Texts.Lowered(m, t)
    ensures |DomainShas(domains, sha)| == |domains| && DomainShas(domains, sha)[i] == sha(t)
  {
    hide Texts.Trimmed, Texts.Lowered, Texts.Normal;
    Texts.NormalExactly(domains[i], t);
  }

  predicate ValidSurfaces(c: Coverage) {
    && Distinct(c.requiredSurfaces) && Within(c.requiredSurfaces, SURFACES)
    && Distinct(c.successfulSurfaces) && Within(c.successfulSurfaces, SURFACES)
    && Distinct(c.missingSurfaces) && Within(c.missingSurfaces, SURFACES)
    && if c.profile == InventoryV1
       then c.requiredSurfaces == [] && c.successfulSurfaces == [] && c.missingSurfaces == [] && !c.acceptanceComplete
       else Within(DARK_CAPABILITIES, c.required) && Within(SURFACES, c.requiredSurfaces)
            && Within(c.successfulSurfaces, c.requiredSurfaces) && Within(c.missingSurfaces, c.requiredSurfaces)
  }

  predicate ValidScope(c: Coverage, desiredSha: string, expected: seq<string>) {
    && IsSha256(c.desiredSha) && c.desiredSha == desiredSha
    && (c.manifestSha.Some? ==> IsSha256(c.manifestSha.value))
    && c.expectedCount == |expected|
    && 0 <= c.selectedCount && 0 <= c.observedCount
    && c.selectedCount <= |expected| && c.observedCount <= c.selectedCount
    && ValidSha256Set(c.selected, c.selectedCount) && ValidSha256Set(c.observed, c.observedCount)
    && Within(c.selected, expected) && Within(c.observed, c.selected)
    && if c.mode == Canary then c.manifestSha.Some? && c.selectedCount < |expected|
       else c.manifestSha.None? && SameStringSet(c.selected, expected)
  }

  predicate ValidCapabilities(c: Coverage) {
    var classified := c.successful + c.failed + c.missing;
    && ValidStringSet(c.required) && ValidStringSet(c.successful) && ValidStringSet(c.failed) && ValidStringSet(c.missing)
    && Within(c.successful, c.required) && Within(c.failed, c.required) && Within(c.missing, c.required)
    && Distinct(classified) && SameStringSet(classified, c.required)
  }

  function SelectedComplete(c: Coverage): bool {
    && c.observedCount == c.selectedCount && c.failed == [] && c.missing == []
    && SameStringSet(c.successful, c.required)
  }

  function DesiredComplete(c: Coverage, expectedCount: nat): bool {
    && c.mode == FullDesiredState && SelectedComplete(c)
    && c.selectedCount == expectedCount && c.observedCount == expectedCount
  }

  function AcceptanceComplete(c: Coverage, expectedCount: nat): bool {
    && c.profile == DarkAcceptanceV1 && DesiredComplete(c, expectedCount)
    && c.failed == [] && c.missing == [] && c.missingSurfaces == []
    && ValidContinuity(c.continuity) && Within(c.requiredSurfaces, c.successfulSurfaces)
  }

  predicate ValidFlags(c: Coverage, expectedCount: nat) {
    && c.selectedComplete == SelectedComplete(c)
    && c.desiredComplete == DesiredComplete(c, expectedCount)
    && c.acceptanceComplete == AcceptanceComplete(c, expectedCount)
    && (AcceptanceComplete(c, expectedCount) ==> c.blockers == [])
  }

  predicate ValidReadbackCoverage(c: Coverage, desiredSha: string, expectedDomains: seq<string>, sha: string -> string) {
    var expected := DomainShas(expectedDomains, sha);
    && ValidScope(c, desiredSha, expected) && ValidCapabilities(c) && ValidSurfaces(c)
    && (c.continuity.Some? ==> ValidContinuity(c.continuity))
    && (forall b :: b in c.blockers ==> ValidBlocker(b))
    && ValidFlags(c, |expected|)
  }

  datatype Readback = Readback(required: bool, attempted: bool, transactionComplete: bool, complete: bool,
                               coverage: Option<Coverage>)

  predicate ReadbackAuthorizesReadiness(r: Readback, desiredSha: string, expectedDomains: seq<string>, sha: string -> string) {
    && r.required && r.attempted && r.transactionComplete && r.complete && r.coverage.Some?
    && var c := r.coverage.value;
    && ValidReadbackCoverage(c, desiredSha, expectedDomains, sha)
    && c.mode == FullDesiredState && c.profile == DarkAcceptanceV1
    && c.selectedComplete && c.desiredComplete && c.acceptanceComplete && ValidContinuity(c.continuity)
  }

  // ----- what a valid coverage says -----

  lemma ElementsJoin(a: seq<string>, b: seq<string>)
    ensures Elements(a + b) == Elements(a) + Elements(b)
  {
    assert forall x :: x in a + b <==> x in a || x in b;
  }

  lemma DistinctJoin(a: seq<string>, b: seq<string>)
    requires Distinct(a + b)
    ensures Elements(a) !! Elements(b)
  {
    SizeTells(a + b);
    if x :| x in Elements(a) && x in Elements(b) {
      var i :| 0 <= i < |a| && a[i] == x;
      var j :| 0 <= j < |b| && b[j] == x;
      assert (a + b)[i] == (a + b)[|a| + j];
    }
  }

  /** A list of as many different members as another has places, all of them in it, has the same members. */
  lemma SameSize(a: seq<string>, b: seq<string>)
    requires Distinct(a) && SameStringSet(a, b)
    ensures Elements(a) == Elements(b)
  {
    SizeTells(b);
    SubsetSize(Elements(a), Elements(b));
  }

  /** A valid coverage puts every required capability into exactly one of successful, failed and missing. */
  lemma CapabilitiesPartitioned(c: Coverage, desiredSha: string, domains: seq<string>, sha: string -> string)
    requires ValidReadbackCoverage(c, desiredSha, domains, sha)
    ensures Elements(c.successful) + Elements(c.failed) + Elements(c.missing) == Elements(c.required)
    ensures Elements(c.successful) !! Elements(c.failed)
    ensures (Elements(c.successful) + Elements(c.failed)) !! Elements(c.missing)
  {
    hide ValidScope, ValidSurfaces, ValidFlags, ValidBlocker;
    var classified := c.successful + c.failed + c.missing;
    SameSize(classified, c.required);
    ElementsJoin(c.successful + c.failed, c.missing);
    ElementsJoin(c.successful, c.failed);
    DistinctJoin(c.successful + c.failed, c.missing);
    DistinctFront(c.successful + c.failed, c.missing);
    DistinctJoin(c.successful, c.failed);
  }

  lemma DistinctFront(a: seq<string>, b: seq<string>)
    requires Distinct(a + b)
    ensures Distinct(a)
  {
    SizeTells(a + b);
    SizeTells(a);
    assert forall i :: 0 <= i < |a| ==> (a + b)[i] == a[i];
  }

  /** Completed acceptance has observed exactly the expected domains, read every required capability
      successfully, and leaves nothing blocked. */
  lemma AcceptanceObservesAll(c: Coverage, desiredSha: string, domains: seq<string>, sha: string -> string)
    requires ValidReadbackCoverage(c, desiredSha, domains, sha) && c.acceptanceComplete
    ensures Elements(c.observed) == Elements(DomainShas(domains, sha)) == Elements(c.selected)
    ensures Elements(c.successful) == Elements(c.required) && c.failed == [] && c.missing == []
    ensures Elements(c.requiredSurfaces) == Elements(SURFACES) == Elements(c.successfulSurfaces)
    ensures c.desiredComplete && c.selectedComplete && c.blockers == [] && ValidContinuity(c.continuity)
  {
    hide ValidBlocker, IsSha256, ValidContinuity, SURFACES;
    SameSize(c.observed, DomainShas(domains, sha));
    SameSize(c.selected, DomainShas(domains, sha));
    SameSize(c.successful, c.required);
  }

  /** A readback that authorises readiness rests on a coverage that observed exactly the expected domains. */
  lemma AuthorityObservesAll(r: Readback, desiredSha: string, domains: seq<string>, sha: string -> string)
    requires ReadbackAuthorizesReadiness(r, desiredSha, domains, sha)
    ensures Elements(r.coverage.value.observed) == Elements(DomainShas(domains, sha))
  {
    hide ValidReadbackCoverage, ValidContinuity;
    AcceptanceObservesAll(r.coverage.value, desiredSha, domains, sha);
  }

  // ----- what a valid coverage is, said of sets -----

  /** Sixty-four lower-case hexadecimal digits. */
  predicate Digest(s: string) {
    |s| == 64 && forall i :: 0 <= i < 64 ==> '0' <= s[i] <= '9' || 'a' <= s[i] <= 'f'
  }

  ghost predicate Once(s: seq<string>) {
    forall i, j :: 0 <= i < j < |s| ==> s[i] != s[j]
  }

  /** Distinct digests of domains: observed ones among the selected, those among the expected; a canary names its manifest
      and leaves a domain out, a full scope names none and selects as many as are expected. */
  ghost predicate ScopeHolds(c: Coverage, desiredSha: string, expected: seq<string>) {
    && Digest(desiredSha) && c.desiredSha == desiredSha
    && c.expectedCount == |expected| && c.selectedCount == |c.selected| && c.observedCount == |c.observed|
    && Once(c.selected) && Once(c.observed)
    && (forall x :: x in c.selected ==> Digest(x) && x in expected)
    && (forall x :: x in c.observed ==> x in c.selected)
    && (c.mode == Canary <==> c.manifestSha.Some?) && (c.manifestSha.Some? ==> Digest(c.manifestSha.value))
    && |c.observed| <= |c.selected| <= |expected|
    && (c.mode == Canary <==> |c.selected| < |expected|)
  }

  lemma ScopeExactly(c: Coverage, desiredSha: string, expected: seq<string>)
    ensures ValidScope(c, desiredSha, expected) <==> ScopeHolds(c, desiredSha, expected)
  {
    SizeTells(c.selected);
    SizeTells(c.observed);
    assert forall s :: IsSha256(s) <==> Digest(s);
  }

  /** The required capabilities, none empty and each once, are the disjoint union of the successful, failed and missing ones. */
  ghost predicate CapabilitiesHold(c: Coverage) {
    && Once(c.required) && Once(c.successful) && Once(c.failed) && Once(c.missing)
    && "" !in c.required
    && (forall x :: x in c.required <==> x in c.successful || x in c.failed || x in c.missing)
    && (forall x :: !(x in c.successful && x in c.failed) && !(x in c.successful && x in c.missing)
                    && !(x in c.failed && x in c.missing))
  }

  lemma OnceJoins(a: seq<string>, b: seq<string>)
    ensures Once(a + b) <==> Once(a) && Once(b) && forall x :: !(x in a && x in b)
  {
    var all := a + b;
    assert forall i :: 0 <= i < |a| ==> all[i] == a[i];
    assert forall i :: 0 <= i < |b| ==> all[|a| + i] == b[i];
    if Once(all) {
      forall i, j | 0 <= i < j < |b| ensures b[i] != b[j] {
        assert all[|a| + i] != all[|a| + j];
      }
      forall i, j | 0 <= i < |a| && 0 <= j < |b| ensures a[i] != b[j] {
        assert all[i] != all[|a| + j];
      }
    }
    if Once(a) && Once(b) && forall x :: !(x in a && x in b) {
      forall i, j | 0 <= i < j < |all| ensures all[i] != all[j] {
        assert i < |a| <= j ==> all[i] in a && all[j] in b;
        assert |a| <= i ==> all[i] == b[i - |a|] && all[j] == b[j - |a|];
      }
    }
  }

  lemma CapabilitiesExactly(c: Coverage)
    ensures ValidCapabilities(c) <==> CapabilitiesHold(c)
  {
    var classified := c.successful + c.failed + c.missing;
    SizeTells(c.required);
    SizeTells(c.successful);
    SizeTells(c.failed);
    SizeTells(c.missing);
    SizeTells(classified);
    OnceJoins(c.successful, c.failed);
    OnceJoins(c.successful + c.failed, c.missing);
    assert forall x :: x in classified <==> x in c.successful || x in c.failed || x in c.missing;
    if ValidCapabilities(c) {
      SameSize(classified, c.required);
      forall x ensures x in c.required <==> x in classified {
        assert x in Elements(c.required) <==> x in Elements(classified);
      }
    }
    if CapabilitiesHold(c) {
      assert Elements(classified) == Elements(c.required);
    }
  }

  /** Surfaces are named once each. An inventory has none and completes no acceptance; dark acceptance requires all of them and
      its capabilities. */
  ghost predicate SurfacesHold(c: Coverage) {
    && Once(c.requiredSurfaces) && Once(c.successfulSurfaces) && Once(c.missingSurfaces)
    && match c.profile
       case InventoryV1 =>
         c.requiredSurfaces == [] && c.successfulSurfaces == [] && c.missingSurfaces == [] && !c.acceptanceComplete
       case DarkAcceptanceV1 =>
         && (forall x :: x in c.requiredSurfaces <==>
               x in {"access_application", "access_policies", "r2_spool_lifecycle", "worker_deployment_identity",
                     "worker_route_identity", "queue_backlog", "dead_letter_queue_backlog", "spool_emptiness",
                     "readiness_endpoint"})
         && (forall x :: x in c.successfulSurfaces || x in c.missingSurfaces ==> x in c.requiredSurfaces)
         && "access-applications-get-an-access-application" in c.required
         && "access-policies-list-access-app-policies" in c.required
         && "access-policies-get-an-access-policy" in c.required
         && "r2-get-bucket-lifecycle-configuration" in c.required
  }

  lemma SurfacesNamed()
    ensures forall x :: x in SURFACES <==>
              x in {"access_application", "access_policies", "r2_spool_lifecycle", "worker_deployment_identity",
                    "worker_route_identity", "queue_backlog", "dead_letter_queue_backlog", "spool_emptiness",
                    "readiness_endpoint"}
  {
  }

  lemma DarkNamed(required: seq<string>)
    ensures Within(DARK_CAPABILITIES, required) <==>
            "access-applications-get-an-access-application" in required
            && "access-policies-list-access-app-policies" in required
            && "access-policies-get-an-access-policy" in required
            && "r2-get-bucket-lifecycle-configuration" in required
  {
    assert DARK_CAPABILITIES[0] in DARK_CAPABILITIES && DARK_CAPABILITIES[1] in DARK_CAPABILITIES;
    assert DARK_CAPABILITIES[2] in DARK_CAPABILITIES && DARK_CAPABILITIES[3] in DARK_CAPABILITIES;
  }

  lemma SurfacesExactly(c: Coverage)
    ensures ValidSurfaces(c) <==> SurfacesHold(c)
  {
    hide SURFACES, DARK_CAPABILITIES, Once, Distinct;
    OnceExactly(c.requiredSurfaces);
    OnceExactly(c.successfulSurfaces);
    OnceExactly(c.missingSurfaces);
    SurfacesNamed();
    DarkNamed(c.required);
  }

  lemma OnceExactly(s: seq<string>)
    ensures Distinct(s) <==> Once(s)
  {
    SizeTells(s);
  }

  /** The retained application is the one read back, the policy's parent and the policy's application, and the retained policy
      is the one read back; none of the identifiers is empty or has whitespace around it. */
  lemma ContinuityExactly(p: Continuity)
    ensures ValidContinuity(Some(p)) <==>
      && p.readbackApp == p.retainedApp && p.policyParentApp == p.retainedApp && p.policyReadbackApp == p.retainedApp
      && p.policyReadbackPolicy == p.retainedPolicy
      && (forall s :: s in {p.retainedApp, p.retainedPolicy} ==>
            s != "" && !Texts.Blank(s[0]) && !Texts.Blank(s[|s| - 1]))
  {
    hide ProviderId;
    ProviderIdIs(p.retainedApp);
    ProviderIdIs(p.retainedPolicy);
  }

  lemma ProviderIdIs(s: string)
    ensures ProviderId(s) <==> s != "" && !Texts.Blank(s[0]) && !Texts.Blank(s[|s| - 1])
  {
    if s != "" {
      if Texts.Blank(s[0]) {
        ShorterStart(s);
        ShorterEnd(Texts.TrimStart(s));
      } else if Texts.Blank(s[|s| - 1]) {
        assert Texts.TrimStart(s) == s;
        ShorterEnd(s[..|s| - 1]);
      }
    }
  }

  lemma {:induction false} ShorterStart(s: string)
    ensures |Texts.TrimStart(s)| <= |s|
    ensures s != "" && Texts.Blank(s[0]) ==> |Texts.TrimStart(s)| < |s|
  {
    if s != "" && Texts.Blank(s[0]) {
      ShorterStart(s[1..]);
    }
  }

  lemma {:induction false} ShorterEnd(s: string)
    ensures |Texts.TrimEnd(s)| <= |s|
  {
    if s != "" && Texts.Blank(s[|s| - 1]) {
      ShorterEnd(s[..|s| - 1]);
    }
  }

  /** The flags say of the lists what they are: a selection is complete when all of it was observed and nothing failed or is
      missing; the desired state when that is the full scope; acceptance when besides every surface succeeded, continuity
      is proved and nothing blocks. */
  ghost predicate FlagsHold(c: Coverage) {
    && (c.selectedComplete <==>
          (forall x :: x in c.selected ==> x in c.observed) && c.failed == [] && c.missing == [])
    && (c.desiredComplete <==> c.selectedComplete && c.mode == FullDesiredState)
    && (c.acceptanceComplete <==>
          && c.profile == DarkAcceptanceV1 && c.desiredComplete && c.missingSurfaces == [] && ValidContinuity(c.continuity)
          && forall x :: x in c.requiredSurfaces ==> x in c.successfulSurfaces)
    && (c.acceptanceComplete ==> c.blockers == [])
  }

  lemma SelectedCompleteIs(c: Coverage, desiredSha: string, expected: seq<string>)
    requires ScopeHolds(c, desiredSha, expected) && CapabilitiesHold(c)
    ensures SelectedComplete(c) <==>
            (forall x :: x in c.selected ==> x in c.observed) && c.failed == [] && c.missing == []
  {
    SizeTells(c.selected);
    SizeTells(c.observed);
    SizeTells(c.successful);
    SizeTells(c.required);
    SubsetSize(Elements(c.observed), Elements(c.selected));
    if forall x :: x in c.selected ==> x in c.observed {
      assert Elements(c.observed) == Elements(c.selected);
    }
    if |c.observed| == |c.selected| {
      assert Elements(c.observed) == Elements(c.selected);
      forall x | x in c.selected ensures x in c.observed {
        assert x in Elements(c.selected);
      }
    }
    if c.failed == [] && c.missing == [] {
      assert Elements(c.successful) == Elements(c.required);
    }
  }

  /** A coverage is valid exactly when its scope, its capabilities, its surfaces, its blockers and its flags hold together. */
  lemma ValidExactly(c: Coverage, desiredSha: string, domains: seq<string>, sha: string -> string)
    ensures ValidReadbackCoverage(c, desiredSha, domains, sha) <==>
      && ScopeHolds(c, desiredSha, DomainShas(domains, sha)) && CapabilitiesHold(c) && SurfacesHold(c) && FlagsHold(c)
      && (c.continuity.Some? ==> ValidContinuity(c.continuity))
      && (forall b :: b in c.blockers ==>
            (b.capability.Some? ==> b.capability.value != "") && (b.surface.Some? ==> b.surface.value in SURFACES))
  {
    hide ValidScope, ValidCapabilities, ValidSurfaces, ValidContinuity, CapabilitiesHold, SurfacesHold, SelectedComplete,
      SURFACES, ScopeHolds;
    var expected := DomainShas(domains, sha);
    ScopeExactly(c, desiredSha, expected);
    CapabilitiesExactly(c);
    SurfacesExactly(c);
    if ScopeHolds(c, desiredSha, expected) && CapabilitiesHold(c) {
      SelectedCompleteIs(c, desiredSha, expected);
      FullCounts(c, desiredSha, expected);
      FlagsFollow(c, desiredSha, expected);
    }
  }

  lemma FullCounts(c: Coverage, desiredSha: string, expected: seq<string>)
    requires ScopeHolds(c, desiredSha, expected)
    ensures c.mode == FullDesiredState && SelectedComplete(c) ==> c.selectedCount == |expected| && c.observedCount == |expected|
  {
  }

  lemma FlagsFollow(c: Coverage, desiredSha: string, expected: seq<string>)
    requires ScopeHolds(c, desiredSha, expected)
    requires SelectedComplete(c) <==>
             (forall x :: x in c.selected ==> x in c.observed) && c.failed == [] && c.missing == []
    requires c.mode == FullDesiredState && SelectedComplete(c) ==> c.selectedCount == |expected| && c.observedCount == |expected|
    ensures ValidFlags(c, |expected|) <==> FlagsHold(c)
  {
    hide ValidContinuity, SelectedComplete, ScopeHolds;
  }

  /** A readback authorises readiness exactly when it was required, attempted and completed, and acceptance is complete. */
  lemma AuthorityExactly(r: Readback, desiredSha: string, domains: seq<string>, sha: string -> string)
    ensures ReadbackAuthorizesReadiness(r, desiredSha, domains, sha) <==>
      && r.required && r.attempted && r.transactionComplete && r.complete && r.coverage.Some?
      && ValidReadbackCoverage(r.coverage.value, desiredSha, domains, sha) && r.coverage.value.acceptanceComplete
  {
    hide ValidScope, ValidCapabilities, ValidSurfaces, ValidContinuity;
  }
}
