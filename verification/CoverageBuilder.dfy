/** Building a coverage from the receipts of a readback, and when what is built is valid. */
module CoverageBuilder {
  import opened Results
  import opened Ordering
  import opened Lists
  import opened CoverageEvidence
  import Texts

  const CORE := ["zones-get", "dns-records-for-a-zone-list-dns-records", "listWorkers", "worker-script-get-settings",
                 "worker-deployments-list-deployments", "worker-versions-get-version-detail", "d1-list-databases",
                 "r2-list-buckets", "queues-list", "queues-list-consumers"]
  const EMAIL_ROUTING := ["email-routing-routing-rules-list-routing-rules",
                          "email-routing-settings-get-email-routing-settings",
                          "email-routing-routing-rules-get-catch-all-rule"]
  const SENDER := ["email-sending-subdomains-list-sending-subdomains"]
  const MODULE_DIGEST := ["worker-version-artifact-digest"]

  datatype Options = Options(emailRouting: bool, senderDomains: bool, verifyModules: bool)
  datatype Scope = Scope(mode: Mode, profile: Profile, selected: seq<string>, manifestSha: Option<string>)
  datatype Receipt = Receipt(capability: string, performed: bool, ok: bool)

  // ----- the capabilities that a scope requires -----

  function Contracts(o: Options, profile: Profile): seq<string> {
    CORE + ((if o.emailRouting then EMAIL_ROUTING else [])
            + ((if o.senderDomains then SENDER else [])
               + if profile == DarkAcceptanceV1 then DARK_CAPABILITIES else []))
  }

  function RequiredIds(o: Options, profile: Profile): seq<string> {
    Sort(Contracts(o, profile), Codes) + if o.verifyModules then MODULE_DIGEST else []
  }

  lemma AllDistinct()
    ensures var all := CORE + (EMAIL_ROUTING + (SENDER + (DARK_CAPABILITIES + MODULE_DIGEST)));
      NoDuplicates(all) && forall x :: x in all ==> x != ""
  {
    var all := CORE + (EMAIL_ROUTING + (SENDER + (DARK_CAPABILITIES + MODULE_DIGEST)));
    assert forall i :: 0 <= i < |all| ==> all[i] != "";
  }

  lemma JoinDistinct(a: seq<string>, b: seq<string>)
    ensures NoDuplicates(a + b) <==>
            NoDuplicates(a) && NoDuplicates(b) && forall x, y :: x in a && y in b ==> x != y
  {
    var all := a + b;
    assert forall i :: 0 <= i < |a| ==> all[i] == a[i];
    assert forall i :: 0 <= i < |b| ==> all[|a| + i] == b[i];
    if NoDuplicates(all) {
      forall i, j | 0 <= i < j < |b| ensures b[i] != b[j] {
        assert all[|a| + i] != all[|a| + j];
      }
      forall x, y | x in a && y in b ensures x != y {
        var i :| 0 <= i < |a| && a[i] == x;
        var j :| 0 <= j < |b| && b[j] == y;
        assert all[i] != all[|a| + j];
      }
    }
    if NoDuplicates(a) && NoDuplicates(b) && forall x, y :: x in a && y in b ==> x != y {
      forall i, j | 0 <= i < j < |all| ensures all[i] != all[j] {
        assert i < |a| <= j ==> all[i] in a && all[j] in b;
        assert |a| <= i ==> all[i] == b[i - |a|] && all[j] == b[j - |a|];
      }
    }
  }

  /** Keeping or leaving out a part of a list without duplicates. */
  lemma Choose(part: seq<string>, all: seq<string>, kept: seq<string>, take: bool)
    requires NoDuplicates(part + all) && NoDuplicates(kept) && Within(kept, all)
    ensures NoDuplicates(all)
    ensures var chosen := (if take then part else []) + kept;
      NoDuplicates(chosen) && Within(chosen, part + all)
  {
    JoinDistinct(part, all);
    JoinDistinct(part, kept);
    assert [] + kept == kept;
  }

  lemma {:induction false} SortDistinct(s: seq<string>)
    requires NoDuplicates(s)
    ensures NoDuplicates(Sort(s, Codes)) && forall x :: x in Sort(s, Codes) <==> x in s
  {
    SortKeeps(s, Codes);
    SamePlaces(Sort(s, Codes), s);
    assert Elements(Sort(s, Codes)) == Elements(s);
    SizeTells(s);
    SizeTells(Sort(s, Codes));
  }

  /** Required capabilities are named once each, none is empty, and dark acceptance requires its own. */
  lemma RequiredFit(o: Options, profile: Profile)
    ensures var r := RequiredIds(o, profile);
      NoDuplicates(r) && (forall x :: x in r ==> x != "") && (profile == DarkAcceptanceV1 ==> Within(DARK_CAPABILITIES, r))
  {
    hide Sort, CORE, EMAIL_ROUTING, SENDER, DARK_CAPABILITIES, MODULE_DIGEST;
    AllDistinct();
    var dark := profile == DarkAcceptanceV1;
    var d := DARK_CAPABILITIES + MODULE_DIGEST;
    var s, e := SENDER + d, EMAIL_ROUTING + (SENDER + d);
    JoinDistinct(CORE, e);
    JoinDistinct(EMAIL_ROUTING, s);
    JoinDistinct(SENDER, d);
    JoinDistinct(DARK_CAPABILITIES, MODULE_DIGEST);
    var kd := if dark then DARK_CAPABILITIES else [];
    Choose(SENDER, d, kd, o.senderDomains);
    var ks := (if o.senderDomains then SENDER else []) + kd;
    Choose(EMAIL_ROUTING, s, ks, o.emailRouting);
    var ke := (if o.emailRouting then EMAIL_ROUTING else []) + ks;
    Choose(CORE, e, ke, true);
    var contracts := CORE + ke;
    assert contracts == Contracts(o, profile);
    SortDistinct(contracts);
    assert forall x, y :: x in contracts && y in MODULE_DIGEST ==> x != y by {
      Apart(o, profile);
    }
    JoinDistinct(Sort(contracts, Codes), if o.verifyModules then MODULE_DIGEST else []);
    assert Within(RequiredIds(o, profile), CORE + e);
  }

  predicate CoreRead(x: string) {
    x in {"zones-get", "dns-records-for-a-zone-list-dns-records", "listWorkers", "worker-script-get-settings",
          "worker-deployments-list-deployments", "worker-versions-get-version-detail", "d1-list-databases",
          "r2-list-buckets", "queues-list", "queues-list-consumers"}
  }

  predicate RoutingRead(x: string) {
    x in {"email-routing-routing-rules-list-routing-rules", "email-routing-settings-get-email-routing-settings",
          "email-routing-routing-rules-get-catch-all-rule"}
  }

  predicate DarkRead(x: string) {
    x in {"access-applications-get-an-access-application", "access-policies-list-access-app-policies",
          "access-policies-get-an-access-policy", "r2-get-bucket-lifecycle-configuration"}
  }

  /** Which capabilities an option requires: ten always, three for mail routing, one for sender domains, four for dark acceptance,
      and one for the modules of the Worker. */
  lemma RequiredExactly(o: Options, profile: Profile, x: string)
    ensures x in RequiredIds(o, profile) <==>
      || CoreRead(x)
      || (o.emailRouting && RoutingRead(x))
      || (o.senderDomains && x == "email-sending-subdomains-list-sending-subdomains")
      || (profile == DarkAcceptanceV1 && DarkRead(x))
      || (o.verifyModules && x == "worker-version-artifact-digest")
  {
    hide Sort, CORE, EMAIL_ROUTING, DARK_CAPABILITIES, CoreRead, RoutingRead, DarkRead, Contracts;
    SortKeeps(Contracts(o, profile), Codes);
    SamePlaces(Sort(Contracts(o, profile), Codes), Contracts(o, profile));
    InParts(o, profile, x);
    CoreNamed(x);
    RoutingNamed(x);
    DarkListed(x);
  }

  lemma CoreNamed(x: string)
    ensures x in CORE <==> CoreRead(x)
  {
  }

  lemma RoutingNamed(x: string)
    ensures x in EMAIL_ROUTING <==> RoutingRead(x)
  {
  }

  lemma DarkListed(x: string)
    ensures x in DARK_CAPABILITIES <==> DarkRead(x)
  {
  }

  lemma InParts(o: Options, profile: Profile, x: string)
    ensures x in Contracts(o, profile) <==>
            x in CORE || (o.emailRouting && x in EMAIL_ROUTING) || (o.senderDomains && x in SENDER)
            || (profile == DarkAcceptanceV1 && x in DARK_CAPABILITIES)
  {
    hide CORE, EMAIL_ROUTING, SENDER, DARK_CAPABILITIES;
  }

  /** The capabilities are listed in the order of their names, the modules of the Worker last. */
  lemma RequiredInOrder(o: Options, profile: Profile)
    ensures var r := RequiredIds(o, profile); var n := |r| - if o.verifyModules then 1 else 0;
      && 0 <= n && (o.verifyModules ==> r[n] == "worker-version-artifact-digest")
      && Ascending(r[..n], Codes)
  {
    hide Contracts, Sort;
    SortAscends(Contracts(o, profile), Codes);
    var sorted := Sort(Contracts(o, profile), Codes);
    assert RequiredIds(o, profile)[..|sorted|] == sorted;
  }

  lemma Apart(o: Options, profile: Profile)
    ensures forall x, y :: x in Contracts(o, profile) && y in MODULE_DIGEST ==> x != y
  {
  }

  // ----- building -----

  /** Each member once, where it first stands. */
  function Unique(s: seq<string>): (r: seq<string>)
    ensures NoDuplicates(r) && forall x :: x in r <==> x in s
  {
    if s == [] then []
    else
      var front := Unique(s[..|s| - 1]);
      assert s == s[..|s| - 1] + [s[|s| - 1]];
      if s[|s| - 1] in front then front else front + [s[|s| - 1]]
  }

  function Failed(receipts: seq<Receipt>, required: seq<string>): seq<string> {
    Sort(Unique(Map(Filter(receipts, (r: Receipt) => r.performed && !r.ok && r.capability in required),
                    (r: Receipt) => r.capability)), Codes)
  }

  function Successful(receipts: seq<Receipt>, required: seq<string>, failed: seq<string>): seq<string> {
    Sort(Unique(Map(Filter(receipts, (r: Receipt) =>
                             r.performed && r.ok && r.capability in required && r.capability !in failed),
                    (r: Receipt) => r.capability)), Codes)
  }

  function Blockers(scope: Scope, failed: seq<string>, missing: seq<string>, missingSurfaces: seq<string>): seq<Blocker> {
    (if scope.mode == Canary then [Blocker(PartialDesiredScope, None, None)] else [])
    + (if scope.profile == InventoryV1 then [Blocker(ProfileInventoryOnly, None, None)]
       else Map(Filter(missing, (x: string) => x in DARK_CAPABILITIES),
                (x: string) => Blocker(SurfaceUnimplemented, Some(x), None))
            + Map(missingSurfaces, (x: string) => Blocker(SurfaceUnimplemented, None, Some(x))))
    + Map(failed, (x: string) => Blocker(ProviderReadFailed, Some(x), None))
  }

  /** A canary blocks as partial, an inventory as such, under dark acceptance every missing capability of its own and every
      missing surface as unimplemented, and every failed capability as failed; nothing else blocks. */
  lemma BlockersExactly(scope: Scope, failed: seq<string>, missing: seq<string>, missingSurfaces: seq<string>, b: Blocker)
    ensures b in Blockers(scope, failed, missing, missingSurfaces) <==>
      || (b == Blocker(PartialDesiredScope, None, None) && scope.mode == Canary)
      || (b == Blocker(ProfileInventoryOnly, None, None) && scope.profile == InventoryV1)
      || (scope.profile == DarkAcceptanceV1
          && exists x :: b == Blocker(SurfaceUnimplemented, Some(x), None) && x in missing && x in DARK_CAPABILITIES)
      || (scope.profile == DarkAcceptanceV1
          && exists x :: b == Blocker(SurfaceUnimplemented, None, Some(x)) && x in missingSurfaces)
      || (exists x :: b == Blocker(ProviderReadFailed, Some(x), None) && x in failed)
  {
    hide DARK_CAPABILITIES;
    var unimplemented := Filter(missing, (x: string) => x in DARK_CAPABILITIES);
    MapHas(unimplemented, (x: string) => Blocker(SurfaceUnimplemented, Some(x), None), b);
    MapHas(missingSurfaces, (x: string) => Blocker(SurfaceUnimplemented, None, Some(x)), b);
    MapHas(failed, (x: string) => Blocker(ProviderReadFailed, Some(x), None), b);
  }

  lemma MapHas<T(!new), U(!new)>(s: seq<T>, f: T -> U, y: U)
    ensures y in Map(s, f) <==> exists x :: x in s && f(x) == y
  {
    if y in Map(s, f) {
      var i :| 0 <= i < |s| && Map(s, f)[i] == y;
      assert s[i] in s;
    }
    if x :| x in s && f(x) == y {
      var i :| 0 <= i < |s| && s[i] == x;
      assert Map(s, f)[i] == y;
    }
  }

  /** What the readback of a desired state is about. */
  datatype Context = Context(desired: seq<string>, desiredSha: string, scope: Scope, options: Options)

  function Build(c: Context, transactionComplete: bool, receipts: seq<Receipt>, observedDomains: seq<string>,
                 surfaces: seq<string>, sha: string -> string): Coverage {
    var required := RequiredIds(c.options, c.scope.profile);
    var failed := Failed(receipts, required);
    var successful := Successful(receipts, required, failed);
    var missing := Filter(required, (x: string) => x !in successful && x !in failed);
    var selected := Sort(DomainShas(c.scope.selected, sha), Codes);
    var observed := Sort(Unique(DomainShas(observedDomains, sha)), Codes);
    var selectedComplete := transactionComplete && |observed| == |selected| && failed == [] && missing == [];
    var desiredComplete :=
      && c.scope.mode == FullDesiredState && selectedComplete
      && |selected| == |c.desired| && |observed| == |c.desired|;
    var requiredSurfaces := if c.scope.profile == DarkAcceptanceV1 then SURFACES else [];
    var admitted := Filter(surfaces, (x: string) => x in requiredSurfaces);
    var missingSurfaces := Filter(requiredSurfaces, (x: string) => x !in admitted);
    Coverage(c.scope.mode, c.scope.profile, c.desiredSha, c.scope.manifestSha, |c.desired|, |selected|, |observed|,
             selected, observed, required, successful, failed, missing, requiredSurfaces, admitted, missingSurfaces,
             selectedComplete, desiredComplete, false, None, Blockers(c.scope, failed, missing, missingSurfaces))
  }

  // ----- what a readback starts from -----

  /** The desired domains are normalised and distinct, also by digest. */
  ghost predicate DesiredFits(desired: seq<string>, sha: string -> string) {
    && (forall i :: 0 <= i < |desired| ==> Texts.Normal(desired[i]) == desired[i])
    && NoDuplicates(DomainShas(desired, sha))
  }

  /** A canary names its manifest and fewer domains than are desired; a full scope names them all. */
  ghost predicate ScopeFits(scope: Scope, desired: seq<string>) {
    && NoDuplicates(scope.selected) && Within(scope.selected, desired)
    && if scope.mode == Canary
       then scope.manifestSha.Some? && IsSha256(scope.manifestSha.value) && |scope.selected| < |desired|
       else scope.manifestSha.None? && |scope.selected| == |desired|
  }

  ghost predicate ContextFits(c: Context, sha: string -> string) {
    && IsSha256(c.desiredSha) && (forall s :: IsSha256(sha(s)))
    && DesiredFits(c.desired, sha) && ScopeFits(c.scope, c.desired)
  }

  // ----- capabilities -----

  lemma SortedUnique(s: seq<string>)
    ensures NoDuplicates(Sort(Unique(s), Codes)) && forall x :: x in Sort(Unique(s), Codes) <==> x in s
  {
    SortDistinct(Unique(s));
  }

  lemma CapabilityLists(receipts: seq<Receipt>, required: seq<string>)
    ensures var f := Failed(receipts, required); var s := Successful(receipts, required, f);
      && NoDuplicates(f) && NoDuplicates(s) && Within(f, required) && Within(s, required)
      && forall x, y :: x in s && y in f ==> x != y
  {
    hide Sort, Unique;
    var bad := (r: Receipt) => r.performed && !r.ok && r.capability in required;
    var f := Failed(receipts, required);
    var good := (r: Receipt) => r.performed && r.ok && r.capability in required && r.capability !in f;
    var id := (r: Receipt) => r.capability;
    SortedUnique(Map(Filter(receipts, bad), id));
    SortedUnique(Map(Filter(receipts, good), id));
    forall x | x in Map(Filter(receipts, bad), id) ensures x in required {
      var i :| 0 <= i < |Filter(receipts, bad)| && Map(Filter(receipts, bad), id)[i] == x;
      assert Filter(receipts, bad)[i] in Filter(receipts, bad);
    }
    forall x | x in Map(Filter(receipts, good), id) ensures x in required && x !in f {
      var i :| 0 <= i < |Filter(receipts, good)| && Map(Filter(receipts, good), id)[i] == x;
      assert Filter(receipts, good)[i] in Filter(receipts, good);
    }
    SameAsNamed(receipts, required, bad, good, id);
  }

  lemma SameAsNamed(receipts: seq<Receipt>, required: seq<string>, bad: Receipt -> bool, good: Receipt -> bool,
                    id: Receipt -> string)
    requires forall r :: bad(r) <==> r.performed && !r.ok && r.capability in required
    requires forall r :: good(r) <==>
               r.performed && r.ok && r.capability in required && r.capability !in Failed(receipts, required)
    requires forall r :: id(r) == r.capability
    ensures Failed(receipts, required) == Sort(Unique(Map(Filter(receipts, bad), id)), Codes)
    ensures Successful(receipts, required, Failed(receipts, required)) ==
            Sort(Unique(Map(Filter(receipts, good), id)), Codes)
  {
    hide Sort, Unique;
    var f := Failed(receipts, required);
    var bad' := (r: Receipt) => r.performed && !r.ok && r.capability in required;
    var good' := (r: Receipt) => r.performed && r.ok && r.capability in required && r.capability !in f;
    var id' := (r: Receipt) => r.capability;
    FilterAgrees(receipts, bad, bad');
    FilterAgrees(receipts, good, good');
    MapAgrees(Filter(receipts, bad), id, id');
    MapAgrees(Filter(receipts, good), id, id');
  }

  lemma {:induction false} FilterDistinct(s: seq<string>, p: string -> bool)
    requires NoDuplicates(s)
    ensures NoDuplicates(Filter(s, p))
  {
    if s != [] {
      assert s == [s[0]] + s[1..];
      JoinDistinct([s[0]], s[1..]);
      FilterDistinct(s[1..], p);
      JoinDistinct(if p(s[0]) then [s[0]] else [], Filter(s[1..], p));
    }
  }

  /** The built lists sort every required capability into one of three. */
  lemma CapabilitiesBuilt(required: seq<string>, s: seq<string>, f: seq<string>, m: seq<string>, c: Coverage)
    requires NoDuplicates(required) && forall x :: x in required ==> x != ""
    requires NoDuplicates(s) && NoDuplicates(f) && NoDuplicates(m) && Within(s, required) && Within(f, required)
    requires forall x, y :: x in s && y in f ==> x != y
    requires forall x :: x in m <==> x in required && x !in s && x !in f
    requires c.required == required && c.successful == s && c.failed == f && c.missing == m
    ensures ValidCapabilities(c)
    ensures f == [] && m == [] ==> SameStringSet(s, required)
  {
    var all := s + f + m;
    JoinDistinct(s, f);
    JoinDistinct(s + f, m);
    SizeTells(s);
    SizeTells(f);
    SizeTells(m);
    SizeTells(required);
    SizeTells(all);
    assert Elements(all) == Elements(required);
    assert f == [] && m == [] ==> all == s;
  }

  // ----- domains -----

  lemma ShaIn(domains: seq<string>, sha: string -> string, i: nat)
    requires i < |domains|
    ensures DomainSha(domains[i], sha) in DomainShas(domains, sha)
  {
    assert DomainShas(domains, sha)[i] == DomainSha(domains[i], sha);
  }

  lemma SelectedShas(c: Context, sha: string -> string)
    requires ContextFits(c, sha)
    ensures var s := DomainShas(c.scope.selected, sha);
      NoDuplicates(s) && Within(s, DomainShas(c.desired, sha)) && |s| == |c.scope.selected|
      && forall x :: x in s ==> IsSha256(x)
  {
    hide Texts.Normal, IsSha256;
    var names, all := c.scope.selected, DomainShas(c.desired, sha);
    var s := DomainShas(names, sha);
    forall i | 0 <= i < |names| ensures s[i] in all && IsSha256(s[i]) {
      assert names[i] in c.desired;
      var k :| 0 <= k < |c.desired| && c.desired[k] == names[i];
      ShaIn(c.desired, sha, k);
    }
    forall i, j | 0 <= i < j < |names| ensures s[i] != s[j] {
      assert names[i] in c.desired && names[j] in c.desired;
      var k :| 0 <= k < |c.desired| && c.desired[k] == names[i];
      var l :| 0 <= l < |c.desired| && c.desired[l] == names[j];
      assert all[k] == s[i] && all[l] == s[j];
      assert k != l;
      assert k < l || l < k;
    }
  }

  lemma ObservedShas(domains: seq<string>, sha: string -> string)
    requires forall s :: IsSha256(sha(s))
    ensures var o := Sort(Unique(DomainShas(domains, sha)), Codes);
      NoDuplicates(o) && forall x :: x in o ==> IsSha256(x)
  {
    hide IsSha256, Sort, Unique, Texts.Normal;
    SortedUnique(DomainShas(domains, sha));
    forall x | x in DomainShas(domains, sha) ensures IsSha256(x) {
      var i :| 0 <= i < |domains| && DomainShas(domains, sha)[i] == x;
    }
  }

  lemma ScopeBuilt(c: Context, cov: Coverage, observed: seq<string>, sha: string -> string)
    requires ContextFits(c, sha)
    requires cov.mode == c.scope.mode && cov.desiredSha == c.desiredSha && cov.manifestSha == c.scope.manifestSha
    requires cov.expectedCount == |c.desired|
    requires cov.selected == Sort(DomainShas(c.scope.selected, sha), Codes) && cov.selectedCount == |cov.selected|
    requires cov.observed == observed && cov.observedCount == |observed| && NoDuplicates(observed)
    requires forall x :: x in observed ==> IsSha256(x)
    ensures ValidScope(cov, c.desiredSha, DomainShas(c.desired, sha)) <==> Within(observed, cov.selected)
    ensures |cov.selected| == |c.scope.selected|
  {
    hide IsSha256, Sort, DomainShas;
    var s := DomainShas(c.scope.selected, sha);
    ShaCount(c.desired, sha);
    SelectedShas(c, sha);
    SortKeeps(s, Codes);
    SortDistinct(s);
    SizeTells(cov.selected);
    SizeTells(observed);
    if Within(observed, cov.selected) {
      assert Elements(observed) <= Elements(cov.selected);
      SubsetSize(Elements(observed), Elements(cov.selected));
    }
  }

  lemma ShaCount(domains: seq<string>, sha: string -> string)
    ensures |DomainShas(domains, sha)| == |domains|
  {
  }

  // ----- the main result -----

  /** Only selected domains were observed, by digest. */
  predicate OnlySelected(scope: Scope, observedDomains: seq<string>, sha: string -> string) {
    forall d :: d in observedDomains ==> DomainSha(d, sha) in DomainShas(scope.selected, sha)
  }

  predicate AllObserved(scope: Scope, observedDomains: seq<string>, sha: string -> string) {
    forall d :: d in scope.selected ==> DomainSha(d, sha) in DomainShas(observedDomains, sha)
  }

  /** Under dark acceptance, no surface that counts was reported twice. */
  predicate SurfacesOnce(scope: Scope, surfaces: seq<string>) {
    scope.profile == DarkAcceptanceV1 ==>
      forall i, j :: 0 <= i < j < |surfaces| && surfaces[i] == surfaces[j] ==> surfaces[i] !in SURFACES
  }

  predicate Read(receipts: seq<Receipt>, id: string, ok: bool) {
    Receipt(id, true, ok) in receipts
  }

  /** Every required capability was read, and none of them failed a read. */
  predicate AllRead(c: Context, receipts: seq<Receipt>) {
    forall id :: id in RequiredIds(c.options, c.scope.profile) ==> Read(receipts, id, true) && !Read(receipts, id, false)
  }

  /** When a readback builds a valid coverage. */
  predicate Reportable(c: Context, transactionComplete: bool, receipts: seq<Receipt>, observedDomains: seq<string>,
                       surfaces: seq<string>, sha: string -> string) {
    && OnlySelected(c.scope, observedDomains, sha)
    && SurfacesOnce(c.scope, surfaces)
    && (transactionComplete || !AllObserved(c.scope, observedDomains, sha) || !AllRead(c, receipts))
  }

  // ----- what the built lists say of the receipts -----

  lemma MapFilterHas(receipts: seq<Receipt>, p: Receipt -> bool, id: Receipt -> string, x: string)
    ensures x in Map(Filter(receipts, p), id) <==> exists r :: r in receipts && p(r) && id(r) == x
  {
    var kept := Filter(receipts, p);
    if x in Map(kept, id) {
      var i :| 0 <= i < |kept| && Map(kept, id)[i] == x;
      assert kept[i] in receipts && p(kept[i]) && id(kept[i]) == x;
    }
    if r :| r in receipts && p(r) && id(r) == x {
      var i :| 0 <= i < |kept| && kept[i] == r;
      assert Map(kept, id)[i] == x;
    }
  }

  lemma FailedAre(receipts: seq<Receipt>, required: seq<string>, x: string)
    ensures x in Failed(receipts, required) <==> x in required && Read(receipts, x, false)
  {
    hide Sort, Unique;
    var bad := (r: Receipt) => r.performed && !r.ok && r.capability in required;
    var good := (r: Receipt) =>
      r.performed && r.ok && r.capability in required && r.capability !in Failed(receipts, required);
    var id := (r: Receipt) => r.capability;
    SameAsNamed(receipts, required, bad, good, id);
    SortedUnique(Map(Filter(receipts, bad), id));
    MapFilterHas(receipts, bad, id, x);
    if r :| r in receipts && bad(r) && id(r) == x {
      assert r == Receipt(x, true, false);
    }
  }

  lemma SuccessfulAre(receipts: seq<Receipt>, required: seq<string>, x: string)
    ensures x in Successful(receipts, required, Failed(receipts, required)) <==>
            x in required && Read(receipts, x, true) && !Read(receipts, x, false)
  {
    hide Sort, Unique, Failed;
    var bad := (r: Receipt) => r.performed && !r.ok && r.capability in required;
    var good := (r: Receipt) =>
      r.performed && r.ok && r.capability in required && r.capability !in Failed(receipts, required);
    var id := (r: Receipt) => r.capability;
    FailedAre(receipts, required, x);
    SameAsNamed(receipts, required, bad, good, id);
    SortedUnique(Map(Filter(receipts, good), id));
    MapFilterHas(receipts, good, id, x);
    if r :| r in receipts && good(r) && id(r) == x {
      assert r == Receipt(x, true, true);
    }
  }

  /** Nothing failed and nothing is missing exactly when everything was read. */
  lemma NothingLeft(c: Context, receipts: seq<Receipt>)
    ensures var required := RequiredIds(c.options, c.scope.profile);
      var f := Failed(receipts, required); var s := Successful(receipts, required, f);
      f == [] && Filter(required, (x: string) => x !in s && x !in f) == [] <==> AllRead(c, receipts)
  {
    hide RequiredIds, Failed, Successful, Read;
    var required := RequiredIds(c.options, c.scope.profile);
    var f := Failed(receipts, required);
    var s := Successful(receipts, required, f);
    var missing := Filter(required, (x: string) => x !in s && x !in f);
    forall x ensures x in f <==> x in required && Read(receipts, x, false) {
      FailedAre(receipts, required, x);
    }
    forall x ensures x in s <==> x in required && Read(receipts, x, true) && !Read(receipts, x, false) {
      SuccessfulAre(receipts, required, x);
    }
    Head(f);
    Head(missing);
  }

  /** The observed digests are among the selected ones exactly when only selected domains were observed, and then
      as many exactly when all of them were. */
  lemma ObservedAre(c: Context, observedDomains: seq<string>, sha: string -> string)
    requires ContextFits(c, sha)
    ensures var s := Sort(DomainShas(c.scope.selected, sha), Codes);
      var o := Sort(Unique(DomainShas(observedDomains, sha)), Codes);
      && (Within(o, s) <==> OnlySelected(c.scope, observedDomains, sha))
      && (Within(o, s) ==> (|o| == |s| <==> AllObserved(c.scope, observedDomains, sha)))
  {
    hide Sort, Unique, DomainSha, IsSha256, DomainShas;
    var names, seen := DomainShas(c.scope.selected, sha), DomainShas(observedDomains, sha);
    var s, o := Sort(names, Codes), Sort(Unique(seen), Codes);
    SelectedShas(c, sha);
    SortDistinct(names);
    SortedUnique(seen);
    ShasAre(c.scope.selected, sha);
    ShasAre(observedDomains, sha);
    if Within(o, s) {
      SizeTells(o);
      SizeTells(s);
      SubsetSize(Elements(o), Elements(s));
      if |o| == |s| {
        SameSize(o, s);
        forall x | x in s ensures x in o {
          assert x in Elements(s);
        }
      }
      if Within(s, o) {
        SubsetSize(Elements(s), Elements(o));
      }
    }
  }

  lemma ShasAre(domains: seq<string>, sha: string -> string)
    ensures forall x :: x in DomainShas(domains, sha) <==> exists d :: d in domains && DomainSha(d, sha) == x
  {
    hide DomainSha;
    forall x ensures x in DomainShas(domains, sha) <==> exists d :: d in domains && DomainSha(d, sha) == x {
      if x in DomainShas(domains, sha) {
        var i :| 0 <= i < |domains| && DomainShas(domains, sha)[i] == x;
        assert domains[i] in domains;
      }
      if d :| d in domains && DomainSha(d, sha) == x {
        var i :| 0 <= i < |domains| && domains[i] == d;
        ShaIn(domains, sha, i);
      }
    }
  }

  /** A filter keeps no duplicates exactly when the list holds none of what it keeps. */
  lemma {:induction false} FilterOnce(s: seq<string>, p: string -> bool)
    ensures NoDuplicates(Filter(s, p)) <==> forall i, j :: 0 <= i < j < |s| && s[i] == s[j] ==> !p(s[i])
  {
    if s != [] {
      var rest := s[1..];
      FilterOnce(rest, p);
      JoinDistinct(if p(s[0]) then [s[0]] else [], Filter(rest, p));
      assert forall i :: 0 < i < |s| ==> s[i] == rest[i - 1];
      if forall i, j :: 0 <= i < j < |s| && s[i] == s[j] ==> !p(s[i]) {
        forall i, j | 0 <= i < j < |rest| && rest[i] == rest[j] ensures !p(rest[i]) {
          assert s[i + 1] == s[j + 1];
        }
      } else {
        var i, j :| 0 <= i < j < |s| && s[i] == s[j] && p(s[i]);
        if i == 0 {
          assert s[0] in [s[0]] && rest[j - 1] in Filter(rest, p);
        } else {
          assert rest[i - 1] == rest[j - 1] && p(rest[i - 1]);
          assert !NoDuplicates(Filter(rest, p));
        }
      }
    }
  }

  lemma SurfacesAre(scope: Scope, surfaces: seq<string>)
    ensures var required := if scope.profile == DarkAcceptanceV1 then SURFACES else [];
      NoDuplicates(Filter(surfaces, (x: string) => x in required)) <==> SurfacesOnce(scope, surfaces)
  {
    hide SURFACES;
    var required := if scope.profile == DarkAcceptanceV1 then SURFACES else [];
    FilterOnce(surfaces, (x: string) => x in required);
  }

  lemma SurfacesBuilt(profile: Profile, surfaces: seq<string>, cov: Coverage)
    requires cov.profile == profile && !cov.acceptanceComplete
    requires cov.requiredSurfaces == if profile == DarkAcceptanceV1 then SURFACES else []
    requires cov.successfulSurfaces == Filter(surfaces, (x: string) => x in cov.requiredSurfaces)
    requires cov.missingSurfaces == Filter(cov.requiredSurfaces, (x: string) => x !in cov.successfulSurfaces)
    requires profile == DarkAcceptanceV1 ==> Within(DARK_CAPABILITIES, cov.required)
    ensures ValidSurfaces(cov) <==> NoDuplicates(cov.successfulSurfaces)
    ensures Within(cov.missingSurfaces, SURFACES)
  {
    hide SURFACES, DARK_CAPABILITIES;
    SurfacesDistinct();
    SizeTells(SURFACES);
    SizeTells(cov.requiredSurfaces);
    SizeTells(cov.successfulSurfaces);
    FilterDistinct(cov.requiredSurfaces, (x: string) => x !in cov.successfulSurfaces);
    SizeTells(cov.missingSurfaces);
    assert profile == InventoryV1 ==> forall x :: x !in cov.requiredSurfaces;
    if profile == InventoryV1 {
      Emptied(surfaces, (x: string) => x in cov.requiredSurfaces);
    }
  }

  lemma Head(s: seq<string>)
    ensures s == [] || s[0] in s
  {
  }

  lemma Emptied(s: seq<string>, p: string -> bool)
    requires forall x :: !p(x)
    ensures Filter(s, p) == []
  {
    Head(Filter(s, p));
  }

  lemma SurfacesDistinct()
    ensures NoDuplicates(SURFACES)
  {
  }

  lemma BlockersValid(scope: Scope, failed: seq<string>, missing: seq<string>, missingSurfaces: seq<string>)
    requires (forall x :: x in failed ==> x != "") && (forall x :: x in missing ==> x != "")
    requires Within(missingSurfaces, SURFACES)
    ensures forall b :: b in Blockers(scope, failed, missing, missingSurfaces) ==> ValidBlocker(b)
  {
    hide SURFACES, DARK_CAPABILITIES;
    var unimplemented := Filter(missing, (x: string) => x in DARK_CAPABILITIES);
    var a := Map(unimplemented, (x: string) => Blocker(SurfaceUnimplemented, Some(x), None));
    var b := Map(missingSurfaces, (x: string) => Blocker(SurfaceUnimplemented, None, Some(x)));
    var c := Map(failed, (x: string) => Blocker(ProviderReadFailed, Some(x), None));
    forall i | 0 <= i < |a| ensures ValidBlocker(a[i]) { assert unimplemented[i] in unimplemented; }
    forall i | 0 <= i < |b| ensures ValidBlocker(b[i]) { assert missingSurfaces[i] in missingSurfaces; }
    forall i | 0 <= i < |c| ensures ValidBlocker(c[i]) { assert failed[i] in failed; }
  }

  /** A readback builds a valid coverage exactly when it observed only selected domains, reported no surface twice,
      and, if its transaction broke off, left some selected domain unobserved or some capability unread. */
  lemma BuiltValidExactly(c: Context, transactionComplete: bool, receipts: seq<Receipt>, observedDomains: seq<string>,
                          surfaces: seq<string>, sha: string -> string)
    requires ContextFits(c, sha)
    ensures ValidReadbackCoverage(Build(c, transactionComplete, receipts, observedDomains, surfaces, sha),
                                  c.desiredSha, c.desired, sha)
            <==> Reportable(c, transactionComplete, receipts, observedDomains, surfaces, sha)
  {
    hide IsSha256, Sort, Unique, DomainShas, RequiredIds, Failed, Successful, Blockers, SURFACES, DARK_CAPABILITIES,
      ValidScope, ValidCapabilities, ValidSurfaces, ValidBlocker, Filter, NoDuplicates, OnlySelected, AllObserved, SurfacesOnce,
      AllRead;
    var b := Build(c, transactionComplete, receipts, observedDomains, surfaces, sha);
    RequiredFit(c.options, c.scope.profile);
    CapabilityLists(receipts, b.required);
    FilterDistinct(b.required, (x: string) => x !in b.successful && x !in b.failed);
    CapabilitiesBuilt(b.required, b.successful, b.failed, b.missing, b);
    ObservedShas(observedDomains, sha);
    ScopeBuilt(c, b, b.observed, sha);
    SurfacesBuilt(c.scope.profile, surfaces, b);
    BlockersValid(c.scope, b.failed, b.missing, b.missingSurfaces);
    ShaCount(c.desired, sha);
    NothingLeft(c, receipts);
    ObservedAre(c, observedDomains, sha);
    SurfacesAre(c.scope, surfaces);
  }

  /** What a coverage says of a readback that observed only selected domains: each list and each flag, from what was read. */
  lemma BuiltColumns(c: Context, transactionComplete: bool, receipts: seq<Receipt>, observedDomains: seq<string>,
                     surfaces: seq<string>, sha: string -> string)
    requires ContextFits(c, sha) && OnlySelected(c.scope, observedDomains, sha)
    ensures var b := Build(c, transactionComplete, receipts, observedDomains, surfaces, sha);
      && b.mode == c.scope.mode && b.profile == c.scope.profile && b.desiredSha == c.desiredSha
      && b.manifestSha == c.scope.manifestSha && b.expectedCount == |c.desired|
      && b.selectedCount == |b.selected| && b.observedCount == |b.observed|
      && (forall x :: x in b.selected <==> exists d :: d in c.scope.selected && DomainSha(d, sha) == x)
      && (forall x :: x in b.observed <==> exists d :: d in observedDomains && DomainSha(d, sha) == x)
      && b.required == RequiredIds(c.options, c.scope.profile)
      && (forall x :: x in b.failed <==> x in b.required && Receipt(x, true, false) in receipts)
      && (forall x :: x in b.successful <==>
            x in b.required && Receipt(x, true, true) in receipts && Receipt(x, true, false) !in receipts)
      && (forall x :: x in b.missing <==> x in b.required && x !in b.failed && x !in b.successful)
      && (b.selectedComplete <==> transactionComplete && AllObserved(c.scope, observedDomains, sha) && AllRead(c, receipts))
      && (b.desiredComplete <==> b.selectedComplete && c.scope.mode == FullDesiredState)
      && !b.acceptanceComplete && b.continuity == None
      && b.requiredSurfaces == (if c.scope.profile == DarkAcceptanceV1 then SURFACES else [])
      && (forall x :: x in b.successfulSurfaces <==> x in surfaces && x in b.requiredSurfaces)
      && (forall x :: x in b.missingSurfaces <==> x in b.requiredSurfaces && x !in surfaces)
      && b.blockers == Blockers(c.scope, b.failed, b.missing, b.missingSurfaces)
  {
    hide IsSha256, Sort, Unique, DomainShas, RequiredIds, Failed, Successful, Blockers, SURFACES, DARK_CAPABILITIES, AllObserved,
      AllRead, OnlySelected, DomainSha, Texts.Normal, Read;
    var b := Build(c, transactionComplete, receipts, observedDomains, surfaces, sha);
    ListsBuilt(c, receipts);
    NothingLeft(c, receipts);
    ObservedAre(c, observedDomains, sha);
    ShasListed(c.scope.selected, observedDomains, sha);
    SelectedShas(c, sha);
    SortKeeps(DomainShas(c.scope.selected, sha), Codes);
    ShaCount(c.scope.selected, sha);
  }

  lemma ListsBuilt(c: Context, receipts: seq<Receipt>)
    ensures var required := RequiredIds(c.options, c.scope.profile);
      var f := Failed(receipts, required); var s := Successful(receipts, required, f);
      && (forall x :: x in f <==> x in required && Receipt(x, true, false) in receipts)
      && (forall x :: x in s <==> x in required && Receipt(x, true, true) in receipts && Receipt(x, true, false) !in receipts)
  {
    hide RequiredIds, Failed, Successful;
    var required := RequiredIds(c.options, c.scope.profile);
    var f := Failed(receipts, required);
    forall x ensures x in f <==> x in required && Receipt(x, true, false) in receipts {
      FailedAre(receipts, required, x);
    }
    forall x
      ensures x in Successful(receipts, required, f) <==>
              x in required && Receipt(x, true, true) in receipts && Receipt(x, true, false) !in receipts
    {
      SuccessfulAre(receipts, required, x);
    }
  }

  lemma ShasListed(selected: seq<string>, observed: seq<string>, sha: string -> string)
    ensures forall x :: x in Sort(DomainShas(selected, sha), Codes) <==> exists d :: d in selected && DomainSha(d, sha) == x
    ensures forall x :: x in Sort(Unique(DomainShas(observed, sha)), Codes) <==>
                        exists d :: d in observed && DomainSha(d, sha) == x
  {
    hide Sort, Unique, DomainShas, DomainSha;
    ShasAre(selected, sha);
    ShasAre(observed, sha);
    SortKeeps(DomainShas(selected, sha), Codes);
    SamePlaces(Sort(DomainShas(selected, sha), Codes), DomainShas(selected, sha));
    SortedUnique(DomainShas(observed, sha));
  }

  /** A transaction that breaks off after everything was read and observed builds an invalid coverage: the builder
      reports the selection incomplete, and the validator finds it complete. */
  lemma BrokenOffAtTheEnd(desiredSha: string, sha: string -> string)
    requires IsSha256(desiredSha) && forall s :: IsSha256(sha(s))
    ensures var scope := Scope(FullDesiredState, InventoryV1, ["a"], None);
      var c := Context(["a"], desiredSha, scope, Options(false, false, false));
      var receipts := Map(RequiredIds(c.options, c.scope.profile), (id: string) => Receipt(id, true, true));
      && ValidReadbackCoverage(Build(c, true, receipts, ["a"], [], sha), desiredSha, ["a"], sha)
      && !ValidReadbackCoverage(Build(c, false, receipts, ["a"], [], sha), desiredSha, ["a"], sha)
  {
    hide IsSha256, RequiredIds, ValidReadbackCoverage, Build;
    var c := Context(["a"], desiredSha, Scope(FullDesiredState, InventoryV1, ["a"], None), Options(false, false, false));
    var required := RequiredIds(c.options, c.scope.profile);
    var receipts := Map(required, (id: string) => Receipt(id, true, true));
    assert Texts.Normal("a") == "a" by {
      assert Texts.TrimStart("a") == "a" && Texts.TrimEnd("a") == "a";
    }
    assert AllRead(c, receipts) by {
      forall id | id in required ensures Read(receipts, id, true) && !Read(receipts, id, false) {
        var i :| 0 <= i < |required| && required[i] == id;
        assert receipts[i] == Receipt(id, true, true);
      }
    }
    ShaIn(["a"], sha, 0);
    BuiltValidExactly(c, true, receipts, ["a"], [], sha);
    BuiltValidExactly(c, false, receipts, ["a"], [], sha);
  }

  /** Every coverage that the collector builds is valid: it observes selected domains, reports each surface at most
      once, and where the transaction broke off it observed nothing of a selection that is not empty. */
  lemma CollectedIsValid(c: Context, transactionComplete: bool, receipts: seq<Receipt>, observedDomains: seq<string>,
                         surfaces: seq<string>, sha: string -> string)
    requires ContextFits(c, sha) && c.scope.selected != [] && NoDuplicates(surfaces)
    requires Within(observedDomains, c.scope.selected) && (!transactionComplete ==> observedDomains == [])
    ensures ValidReadbackCoverage(Build(c, transactionComplete, receipts, observedDomains, surfaces, sha),
                                  c.desiredSha, c.desired, sha)
  {
    hide DomainSha, DomainShas, AllRead, SURFACES, ValidReadbackCoverage, Build, ContextFits;
    BuiltValidExactly(c, transactionComplete, receipts, observedDomains, surfaces, sha);
    ShasAre(c.scope.selected, sha);
    ShasAre(observedDomains, sha);
    assert c.scope.selected[0] in c.scope.selected;
  }
}
